// The reader-writer spin lock of dependencies/kernel-sync/src/rwlock.rs.
//
// The lock is one atomic word. Bit 0 is WRITER, bit 1 is UPGRADED, and the rest counts readers.
// Every atomic operation of the source is one event here, and any number of agents interleave
// their events in any order. An agent is a guard, or a call that has changed the word and is
// not finished with it.
module RwLock {
  import opened Options

  const READER := 4
  const UPGRADED := 2
  const WRITER := 1

  // The operators below spell the constants out: a product by a named constant is costly to reason about.
  predicate WriterBit(word: int) { word % 2 == 1 }
  predicate UpgradedBit(word: int) { word / 2 % 2 == 1 }
  function ReaderBits(word: int): int { word / 4 }

  // fetch_and(!(WRITER | UPGRADED)) and fetch_or(UPGRADED)
  function ClearFlags(word: int): int { word / 4 * 4 }
  function SetUpgraded(word: int): int { if UpgradedBit(word) then word else word + UPGRADED }

  type Agent = nat

  datatype Phase =
    | FailedReader           // has added READER, saw a flag, has not undone the addition yet
    | ReadGuard
    | UpgradableGuard
    | UpgradableDowngrading  // has added READER, has not dropped UPGRADED yet
    | WriteGuard
    | WriteDowngrading       // has added READER, has not cleared the flags yet
  {
    predicate Counted() { FailedReader? || ReadGuard? || UpgradableDowngrading? || WriteDowngrading? }
    predicate Upgrader() { UpgradableGuard? || UpgradableDowngrading? }
    predicate Writer() { WriteGuard? || WriteDowngrading? }
    // May look at the protected data.
    predicate Reads() { ReadGuard? || Upgrader() || Writer() }
  }

  datatype State<T> = State(word: int, agents: map<Agent, Phase>, data: T)

  // `spurious` marks a compare_exchange_weak that fails although the word had the expected value.
  datatype Event<T> =
    | TryRead(a: Agent)
    | UndoRead(a: Agent)
    | TryWrite(a: Agent, spurious: bool)
    | TryUpgradeableRead(a: Agent)
    | TryUpgrade(a: Agent, spurious: bool)
    | UpgradableDowngradeAdd(a: Agent)
    | UpgradableDowngradeDrop(a: Agent)
    | WriteDowngradeAdd(a: Agent)
    | WriteDowngradeDrop(a: Agent)
    | DropRead(a: Agent)
    | DropUpgradable(a: Agent)
    | DropWrite(a: Agent)
    | Mutate(a: Agent, value: T)  // through DerefMut of a live write guard

  predicate InPhase<T>(s: State<T>, a: Agent, p: Phase) {
    a in s.agents && s.agents[a] == p
  }

  predicate Enabled<T>(s: State<T>, e: Event<T>) {
    match e
    case TryRead(a) => a !in s.agents
    case UndoRead(a) => InPhase(s, a, FailedReader)
    case TryWrite(a, _) => a !in s.agents
    case TryUpgradeableRead(a) => a !in s.agents
    case TryUpgrade(a, _) => InPhase(s, a, UpgradableGuard)
    case UpgradableDowngradeAdd(a) => InPhase(s, a, UpgradableGuard)
    case UpgradableDowngradeDrop(a) => InPhase(s, a, UpgradableDowngrading)
    case WriteDowngradeAdd(a) => InPhase(s, a, WriteGuard)
    case WriteDowngradeDrop(a) => InPhase(s, a, WriteDowngrading)
    case DropRead(a) => InPhase(s, a, ReadGuard)
    case DropUpgradable(a) => InPhase(s, a, UpgradableGuard)
    case DropWrite(a) => InPhase(s, a, WriteGuard)
    case Mutate(a, _) => InPhase(s, a, WriteGuard)
  }

  function Apply<T>(s: State<T>, e: Event<T>): State<T> {
    match e
    case TryRead(a) =>
      var taken := WriterBit(s.word) || UpgradedBit(s.word);
      s.(word := s.word + READER, agents := s.agents[a := if taken then FailedReader else ReadGuard])
    case UndoRead(a) => s.(word := s.word - READER, agents := s.agents - {a})
    case TryWrite(a, spurious) =>
      if s.word == 0 && !spurious then s.(word := WRITER, agents := s.agents[a := WriteGuard]) else s
    case TryUpgradeableRead(a) =>
      var taken := WriterBit(s.word) || UpgradedBit(s.word);
      s.(word := SetUpgraded(s.word), agents := if taken then s.agents else s.agents[a := UpgradableGuard])
    case TryUpgrade(a, spurious) =>
      if s.word == UPGRADED && !spurious then s.(word := WRITER, agents := s.agents[a := WriteGuard]) else s
    case UpgradableDowngradeAdd(a) =>
      s.(word := s.word + READER, agents := s.agents[a := UpgradableDowngrading])
    case UpgradableDowngradeDrop(a) => s.(word := s.word - UPGRADED, agents := s.agents[a := ReadGuard])
    case WriteDowngradeAdd(a) => s.(word := s.word + READER, agents := s.agents[a := WriteDowngrading])
    case WriteDowngradeDrop(a) => s.(word := ClearFlags(s.word), agents := s.agents[a := ReadGuard])
    case DropRead(a) => s.(word := s.word - READER, agents := s.agents - {a})
    case DropUpgradable(a) => s.(word := s.word - UPGRADED, agents := s.agents - {a})
    case DropWrite(a) => s.(word := ClearFlags(s.word), agents := s.agents - {a})
    case Mutate(_, value) => s.(data := value)
  }

  function Init<T>(data: T): State<T> { State(0, map[], data) }

  predicate ValidRun<T>(s: State<T>, events: seq<Event<T>>)
    decreases |events|
  {
    events == [] || (Enabled(s, events[0]) && ValidRun(Apply(s, events[0]), events[1..]))
  }

  function Run<T>(s: State<T>, events: seq<Event<T>>): State<T>
    decreases |events|
  {
    if events == [] then s else Run(Apply(s, events[0]), events[1..])
  }

  // --- The invariant ---

  // Everybody who has added READER to the word and not taken it back.
  function Readers(agents: map<Agent, Phase>): set<Agent> {
    set a | a in agents && agents[a].Counted()
  }

  function Word(readers: int, upgraded: bool, writer: bool): int {
    4 * readers + (if upgraded then UPGRADED else 0) + (if writer then WRITER else 0)
  }

  // w is the one writer and up the one upgrader. While there is a writer, everybody else is a reader
  // that failed. The flag u is set if there is an upgrader, and otherwise only stray, with a writer.
  ghost predicate Sound<T>(s: State<T>, u: bool, up: Option<Agent>, w: Option<Agent>) {
    s.word == Word(|Readers(s.agents)|, u, w.Some?) && Roles(s.agents, u, up, w)
  }

  ghost predicate Roles(agents: map<Agent, Phase>, u: bool, up: Option<Agent>, w: Option<Agent>) {
    && (forall a | a in agents :: agents[a].Writer() <==> w == Some(a))
    && (forall a | a in agents :: agents[a].Upgrader() <==> up == Some(a))
    && (w.Some? ==> w.value in agents && forall a | a in agents :: a == w.value || agents[a].FailedReader?)
    && (up.Some? ==> up.value in agents && u)
    && (u ==> up.Some? || w.Some?)
  }

  ghost predicate Inv<T>(s: State<T>) {
    exists u, up, w :: Sound(s, u, up, w)
  }

  lemma ReadersPut(agents: map<Agent, Phase>, a: Agent, p: Phase)
    ensures Readers(agents[a := p]) == if p.Counted() then Readers(agents) + {a} else Readers(agents) - {a}
    ensures a in Readers(agents) <==> a in agents && agents[a].Counted()
    ensures |Readers(agents[a := p])| ==
      |Readers(agents)| - (if a in Readers(agents) then 1 else 0) + (if p.Counted() then 1 else 0)
  {
    assert Readers(agents[a := p]) == if p.Counted() then Readers(agents) + {a} else Readers(agents) - {a};
  }

  lemma ReadersDrop(agents: map<Agent, Phase>, a: Agent)
    requires a in agents
    ensures |Readers(agents - {a})| == |Readers(agents)| - (if agents[a].Counted() then 1 else 0)
    ensures agents[a].Counted() ==> Readers(agents) != {}
  {
    assert Readers(agents - {a}) == Readers(agents) - {a};
    assert a in Readers(agents) <==> agents[a].Counted();
  }

  // The fields of a sound word.
  lemma Fields(word: int, n: nat, u: bool, w: bool)
    requires word == Word(n, u, w)
    ensures ReaderBits(word) == n && UpgradedBit(word) == u && WriterBit(word) == w
    ensures ClearFlags(word) == Word(n, false, false) && SetUpgraded(word) == Word(n, true, w)
  {
  }

  lemma InitKeepsInv<T>(data: T)
    ensures Inv(Init(data))
  {
    assert Readers(map[]) == {};
    assert Sound(Init(data), false, None, None);
  }

  lemma StepKeepsInv<T>(s: State<T>, e: Event<T>)
    requires Inv(s) && Enabled(s, e)
    ensures Inv(Apply(s, e))
  {
    var u, up, w :| Sound(s, u, up, w);
    if e.TryRead? {
      Fields(s.word, |Readers(s.agents)|, u, w.Some?);
      ReadAttemptKeepsSound(s, e.a, u, up, w, if u || w.Some? then FailedReader else ReadGuard);
    } else if e.TryUpgradeableRead? {
      UpgradeableAttemptKeepsInv(s, e.a, u, up, w);
    } else if e.TryWrite? || e.TryUpgrade? {
      WriteAttemptKeepsInv(s, e, u, up, w);
    } else if e.UndoRead? || e.DropRead? || e.DropUpgradable? || e.DropWrite? {
      DropKeepsInv(s, e, u, up, w);
    } else {
      DowngradeKeepsInv(s, e, u, up, w);
    }
  }

  lemma ReadAttemptKeepsSound<T>(s: State<T>, a: Agent, u: bool, up: Option<Agent>, w: Option<Agent>, p: Phase)
    requires Sound(s, u, up, w) && a !in s.agents
    requires p == if u || w.Some? then FailedReader else ReadGuard
    ensures Sound(s.(word := s.word + 4, agents := s.agents[a := p]), u, up, w)
  {
    ReadersPut(s.agents, a, p);
    ReaderJoins(s.agents, a, u, up, w, p);
  }

  lemma ReaderJoins(agents: map<Agent, Phase>, a: Agent, u: bool, up: Option<Agent>, w: Option<Agent>, p: Phase)
    requires Roles(agents, u, up, w) && a !in agents
    requires p == if u || w.Some? then FailedReader else ReadGuard
    ensures Roles(agents[a := p], u, up, w)
  {
  }

  lemma UpgradeableAttemptKeepsInv<T>(s: State<T>, a: Agent, u: bool, up: Option<Agent>, w: Option<Agent>)
    requires Sound(s, u, up, w) && a !in s.agents
    ensures Inv(Apply(s, TryUpgradeableRead(a)))
  {
    var t := Apply(s, TryUpgradeableRead(a));
    Fields(s.word, |Readers(s.agents)|, u, w.Some?);
    if u || w.Some? {
      assert Sound(t, true, up, w);
    } else {
      ReadersPut(s.agents, a, UpgradableGuard);
      UpgraderJoins(s.agents, a);
      assert Sound(t, true, Some(a), w);
    }
  }

  lemma UpgraderJoins(agents: map<Agent, Phase>, a: Agent)
    requires Roles(agents, false, None, None) && a !in agents
    ensures Roles(agents[a := UpgradableGuard], true, Some(a), None)
  {
  }

  lemma WriteAttemptKeepsInv<T>(s: State<T>, e: Event<T>, u: bool, up: Option<Agent>, w: Option<Agent>)
    requires Sound(s, u, up, w) && Enabled(s, e)
    requires e.TryWrite? || e.TryUpgrade?
    ensures Inv(Apply(s, e))
  {
    var t := Apply(s, e);
    if e.TryWrite? {
      ZeroMeansNobody(s);
    } else {
      UpgradedMeansAlone(s, e.a);
    }
    if t != s {
      ReadersPut(s.agents, e.a, WriteGuard);
      assert Sound(t, false, None, Some(e.a));
    }
  }

  lemma DropKeepsInv<T>(s: State<T>, e: Event<T>, u: bool, up: Option<Agent>, w: Option<Agent>)
    requires Sound(s, u, up, w) && Enabled(s, e)
    requires e.UndoRead? || e.DropRead? || e.DropUpgradable? || e.DropWrite?
    ensures Inv(Apply(s, e))
  {
    var t := Apply(s, e);
    ReadersDrop(s.agents, e.a);
    Fields(s.word, |Readers(s.agents)|, u, w.Some?);
    if e.DropUpgradable? {
      assert Sound(t, false, None, w);
    } else if e.DropWrite? {
      assert Sound(t, false, up, None);
    } else {
      assert Sound(t, u, up, w);
    }
  }

  // A holder adds READER on its way to a read guard.
  lemma DowngradeAddKeepsSound<T>(s: State<T>, a: Agent, u: bool, up: Option<Agent>, w: Option<Agent>, p: Phase)
    requires Sound(s, u, up, w) && a in s.agents
    requires p == (if s.agents[a].UpgradableGuard? then UpgradableDowngrading else WriteDowngrading)
    requires s.agents[a].UpgradableGuard? || s.agents[a].WriteGuard?
    ensures Sound(s.(word := s.word + 4, agents := s.agents[a := p]), u, up, w)
  {
    ReadersPut(s.agents, a, p);
  }

  lemma UpgradableDropKeepsSound<T>(s: State<T>, a: Agent, u: bool, up: Option<Agent>, w: Option<Agent>)
    requires Sound(s, u, up, w) && InPhase(s, a, UpgradableDowngrading)
    ensures Sound(s.(word := s.word - 2, agents := s.agents[a := ReadGuard]), false, None, w)
  {
    ReadersPut(s.agents, a, ReadGuard);
  }

  lemma WriteDropKeepsSound<T>(s: State<T>, a: Agent, u: bool, up: Option<Agent>, w: Option<Agent>)
    requires Sound(s, u, up, w) && InPhase(s, a, WriteDowngrading)
    ensures Sound(s.(word := ClearFlags(s.word), agents := s.agents[a := ReadGuard]), false, up, None)
  {
    ReadersPut(s.agents, a, ReadGuard);
    Fields(s.word, |Readers(s.agents)|, u, w.Some?);
  }

  lemma DowngradeKeepsInv<T>(s: State<T>, e: Event<T>, u: bool, up: Option<Agent>, w: Option<Agent>)
    requires Sound(s, u, up, w) && Enabled(s, e)
    requires e.UpgradableDowngradeAdd? || e.UpgradableDowngradeDrop? || e.WriteDowngradeAdd? || e.WriteDowngradeDrop? || e.Mutate?
    ensures Inv(Apply(s, e))
  {
    match e
    case UpgradableDowngradeAdd(a) => DowngradeAddKeepsSound(s, a, u, up, w, UpgradableDowngrading);
    case UpgradableDowngradeDrop(a) => UpgradableDropKeepsSound(s, a, u, up, w);
    case WriteDowngradeAdd(a) => DowngradeAddKeepsSound(s, a, u, up, w, WriteDowngrading);
    case WriteDowngradeDrop(a) => WriteDropKeepsSound(s, a, u, up, w);
    case Mutate(_, value) => assert Sound(s.(data := value), u, up, w);
  }

  lemma {:induction false} RunKeepsInv<T>(s: State<T>, events: seq<Event<T>>)
    requires Inv(s) && ValidRun(s, events)
    ensures Inv(Run(s, events))
    decreases |events|
  {
    if events != [] {
      StepKeepsInv(s, events[0]);
      RunKeepsInv(Apply(s, events[0]), events[1..]);
    }
  }

  // The word is zero iff nobody holds or is finishing anything.
  lemma ZeroMeansNobody<T>(s: State<T>)
    requires Inv(s)
    ensures s.word == 0 <==> s.agents == map[]
  {
    var u, up, w :| Sound(s, u, up, w);
    if s.agents == map[] {
      assert Readers(s.agents) == {};
    } else {
      var a :| a in s.agents;
      ReadersDrop(s.agents, a);
    }
  }

  // The word is exactly UPGRADED while an upgradable guard is held iff that guard is alone.
  lemma UpgradedMeansAlone<T>(s: State<T>, a: Agent)
    requires Inv(s) && InPhase(s, a, UpgradableGuard)
    ensures s.word == UPGRADED <==> s.agents.Keys == {a}
  {
    var u, up, w :| Sound(s, u, up, w);
    if s.word == UPGRADED {
      assert Readers(s.agents) == {};
      assert forall b | b in s.agents && s.agents[b].Counted() :: b in Readers(s.agents);
      assert s.agents.Keys == {a};
    }
    if s.agents.Keys == {a} {
      assert Readers(s.agents) == {};
    }
  }

  // --- What holds in every interleaving, from a new lock ---

  // A live write guard excludes every other guard, and there is at most one upgradable guard.
  lemma MutualExclusion<T>(data: T, events: seq<Event<T>>, a: Agent, b: Agent)
    requires ValidRun(Init(data), events)
    requires var s := Run(Init(data), events); a in s.agents && b in s.agents && a != b
    ensures var s := Run(Init(data), events);
            && (s.agents[a].WriteGuard? ==> s.agents[b].FailedReader?)
            && !(s.agents[a].UpgradableGuard? && s.agents[b].UpgradableGuard?)
  {
    InitKeepsInv(data);
    RunKeepsInv(Init(data), events);
  }

  // The word is 4 times the readers, finished or not, plus the two flags; UPGRADED is set by an
  // upgrader, and a stray bit needs a writer; and nothing is ever left behind: the word is free again
  // iff nobody is left.
  lemma WordAccounting<T>(data: T, events: seq<Event<T>>)
    requires ValidRun(Init(data), events)
    ensures var s := Run(Init(data), events);
            var writer := exists a :: a in s.agents && s.agents[a].Writer();
            var upgrader := exists a :: a in s.agents && s.agents[a].Upgrader();
            && s.word == 4 * |Readers(s.agents)| + (if UpgradedBit(s.word) then UPGRADED else 0)
                         + (if writer then WRITER else 0)
            && (upgrader ==> UpgradedBit(s.word))
            && (UpgradedBit(s.word) && !upgrader ==> writer)
            && (s.word == 0 <==> s.agents == map[])
  {
    InitKeepsInv(data);
    RunKeepsInv(Init(data), events);
    var s := Run(Init(data), events);
    ZeroMeansNobody(s);
    var u, up, w :| Sound(s, u, up, w);
    Fields(s.word, |Readers(s.agents)|, u, w.Some?);
  }

  // Each attempt succeeds exactly when it should: a reader or upgrader is turned away iff there is a
  // writer or an upgrader; a writer gets in iff nobody else is there at all; an upgrade succeeds iff
  // its own guard is the only agent left.
  lemma AttemptsSucceedIff<T>(s: State<T>, a: Agent)
    requires Inv(s)
    ensures a !in s.agents ==>
      var open := forall b | b in s.agents :: !s.agents[b].Writer() && !s.agents[b].Upgrader();
      && (InPhase(Apply(s, TryRead(a)), a, ReadGuard) <==> open)
      && (InPhase(Apply(s, TryUpgradeableRead(a)), a, UpgradableGuard) <==> open)
      && (InPhase(Apply(s, TryWrite(a, false)), a, WriteGuard) <==> s.agents == map[])
    ensures InPhase(s, a, UpgradableGuard) ==>
      (InPhase(Apply(s, TryUpgrade(a, false)), a, WriteGuard) <==> s.agents.Keys == {a})
  {
    ZeroMeansNobody(s);
    var u, up, w :| Sound(s, u, up, w);
    Fields(s.word, |Readers(s.agents)|, u, w.Some?);
    if InPhase(s, a, UpgradableGuard) {
      UpgradedMeansAlone(s, a);
    }
  }

  // The debug assertions of the three destructors hold, and no subtraction borrows from another
  // field of the word.
  lemma DropsAreSafe<T>(s: State<T>, a: Agent)
    requires Inv(s) && a in s.agents
    ensures s.agents[a].ReadGuard? || s.agents[a].FailedReader? ==> ReaderBits(s.word) > 0
    ensures s.agents[a].Upgrader() ==> UpgradedBit(s.word) && !WriterBit(s.word)
    ensures s.agents[a].Writer() ==> WriterBit(s.word)
  {
    var u, up, w :| Sound(s, u, up, w);
    ReadersDrop(s.agents, a);
    Fields(s.word, |Readers(s.agents)|, u, w.Some?);
  }

  ghost predicate HoldsThroughout<T>(s: State<T>, events: seq<Event<T>>, a: Agent)
    decreases |events|
  {
    && a in s.agents && s.agents[a].Reads() && !s.agents[a].Writer()
    && (events != [] ==> HoldsThroughout(Apply(s, events[0]), events[1..], a))
  }

  // What the holder of a read or upgradable guard sees cannot change under it.
  lemma {:induction false} ReadersSeeStableData<T>(s: State<T>, events: seq<Event<T>>, a: Agent)
    requires Inv(s) && ValidRun(s, events) && HoldsThroughout(s, events, a)
    ensures Run(s, events).data == s.data
    decreases |events|
  {
    if events != [] {
      StepKeepsInv(s, events[0]);
      ReadersSeeStableData(Apply(s, events[0]), events[1..], a);
    }
  }

  // --- downgrade_to_upgradeable ---

  // It overwrites the whole word with UPGRADED, so it forgets failed readers still in flight.
  function DowngradeToUpgradeable<T>(s: State<T>, a: Agent): State<T> {
    s.(word := UPGRADED, agents := s.agents[a := UpgradableGuard])
  }

  // Its debug assertion: (word & (WRITER | UPGRADED)) == WRITER
  predicate DowngradeAssertion(word: int) { word % 4 == 1 }

  // The call keeps the protocol sound exactly when the reader field is zero at that moment; its debug assertion
  // holds exactly when no stray UPGRADED bit is set. So in a debug build all is well only for the word WRITER.
  lemma DowngradeToUpgradeableSoundIff<T>(s: State<T>, a: Agent)
    requires Inv(s) && InPhase(s, a, WriteGuard)
    ensures Inv(DowngradeToUpgradeable(s, a)) <==> ReaderBits(s.word) == 0
    ensures DowngradeAssertion(s.word) <==> !UpgradedBit(s.word)
    ensures Inv(DowngradeToUpgradeable(s, a)) && DowngradeAssertion(s.word) <==> s.word == WRITER
  {
    var u, up, w :| Sound(s, u, up, w);
    Fields(s.word, |Readers(s.agents)|, u, w.Some?);
    var t := DowngradeToUpgradeable(s, a);
    ReadersPut(s.agents, a, UpgradableGuard);
    if |Readers(s.agents)| == 0 {
      assert Sound(t, true, Some(a), None);
    }
  }

  lemma RunOfTwo<T>(s: State<T>, e: Event<T>, f: Event<T>)
    requires Enabled(s, e) && Enabled(Apply(s, e), f)
    ensures ValidRun(s, [e, f]) && Run(s, [e, f]) == Apply(Apply(s, e), f)
  {
    var events, last := [e, f], [f];
    assert events[1..] == last && last[1..] == [];
    assert ValidRun(Apply(s, e), last) && Run(Apply(s, e), last) == Apply(Apply(s, e), f);
  }

  // Otherwise a reader that failed against the writer drives the word below zero when it undoes.
  lemma DowngradeToUpgradeableCounterexample()
    ensures exists events: seq<Event<int>>, w: Agent, r: Agent ::
      && ValidRun(Init(0), events)
      && var s := Run(Init(0), events);
      && InPhase(s, w, WriteGuard) && InPhase(s, r, FailedReader)
      && Apply(DowngradeToUpgradeable(s, w), UndoRead(r)).word < 0
  {
    var e: Event<int>, f: Event<int> := TryWrite(0, false), TryRead(1);
    RunOfTwo(Init(0), e, f);
    var s := Run(Init(0), [e, f]);
    assert InPhase(s, 0, WriteGuard) && InPhase(s, 1, FailedReader);
    assert Apply(DowngradeToUpgradeable(s, 0), UndoRead(1)).word < 0;
  }

  // And a failed upgradeable read leaves the stray bit that trips the assertion, though no reader is there.
  lemma DowngradeAssertionCounterexample()
    ensures exists events: seq<Event<int>>, w: Agent ::
      && ValidRun(Init(0), events)
      && var s := Run(Init(0), events);
      && InPhase(s, w, WriteGuard) && ReaderBits(s.word) == 0 && !DowngradeAssertion(s.word)
  {
    var e: Event<int>, f: Event<int> := TryWrite(0, false), TryUpgradeableRead(1);
    RunOfTwo(Init(0), e, f);
    var s := Run(Init(0), [e, f]);
    assert s.word == 3 && InPhase(s, 0, WriteGuard);
  }
}
