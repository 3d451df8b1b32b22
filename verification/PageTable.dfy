// The Sv39 page table of kernel/src/memory/page_table.rs: a three-level tree of 512-entry tables in
// physical memory, edited in place, whose upper root slots are shared with the kernel's tree.
module Sv39 {
  import opened Options

  // --- Page-table entries ---
  //
  // Words are numbers below 2^64 and the bit operators are written as arithmetic: a shift is a division
  // or product by a power of two, a mask a remainder, and an `or` of disjoint bits a sum.

  const WORD := 0x1_0000_0000_0000_0000
  const PPNS := 0x1000_0000_0000  // 2^44 physical page numbers

  type Word = w: nat | w < WORD
  type Ppn = p: nat | p < PPNS
  type Flags = f: nat | f < 0x100  // bit 0 is VALID, bit 6 ACCESS, bit 7 DIRTY

  // Bits [53:10] of an entry are the page number, bits [7:0] the flags.
  function PpnOf(bits: Word): Ppn { bits / 0x400 % 0x1000_0000_0000 }
  function FlagsOf(bits: Word): Flags { bits % 0x100 }
  predicate IsValid(bits: Word) { bits % 2 == 1 }

  // set_all, set_flags, and `flags | VALID | ACCESS | DIRTY`
  function SetAll(paddr: Word, flags: Flags): Word { paddr / 0x1000 * 0x400 + flags }
  function WithFlags(bits: Word, flags: Flags): Word { bits - bits % 0x100 + flags }
  function InUse(flags: Flags): Flags { flags % 0x40 - flags % 2 + 0xc1 }

  // The page number of an address, as far as an entry can hold it.
  function PageOf(paddr: Word): Ppn { paddr / 0x1000 % 0x1000_0000_0000 }

  function AddrOf(page: Ppn): Word { (page as int) * 0x1000 }

  lemma PackPage(p: nat, low: nat)
    requires low < 0x400
    ensures (p * 0x400 + low) / 0x400 == p
  {
  }

  lemma PackFlags(q: nat, flags: Flags)
    ensures (q * 0x100 + flags) % 0x100 == flags && (q * 0x100 + flags) % 2 == flags % 2
  {
  }

  lemma EntryRoundTrip(paddr: Word, flags: Flags)
    ensures PpnOf(SetAll(paddr, flags)) == PageOf(paddr) && FlagsOf(SetAll(paddr, flags)) == flags
    ensures IsValid(SetAll(paddr, flags)) <==> flags % 2 == 1
  {
    PackPage(paddr / 0x1000, flags);
    PackFlags(paddr / 0x1000 * 4, flags);
  }

  lemma SetFlagsKeepsPage(bits: Word, flags: Flags)
    ensures PpnOf(WithFlags(bits, flags)) == PpnOf(bits) && FlagsOf(WithFlags(bits, flags)) == flags
    ensures IsValid(WithFlags(bits, flags)) <==> flags % 2 == 1
  {
    PackPage(bits / 0x400, bits % 0x400 - bits % 0x100 + flags);
    PackFlags(bits / 0x100, flags);
  }

  // --- The tree ---

  type Index = i: nat | i < 512

  datatype Slot = Slot(table: nat, index: Index)

  datatype Vpn = Vpn(i0: Index, i1: Index, i2: Index)

  // Bits [38:30], [29:21] and [20:12] of the address.
  function VpnOf(vaddr: nat): Vpn {
    Vpn(vaddr / 0x4000_0000 % 512, vaddr / 0x20_0000 % 512, vaddr / 0x1000 % 512)
  }

  // The shape of the tree: which table, if any, hangs below a slot.
  type Links = Slot -> Option<nat>

  function Walk(links: Links, root: nat, x: Vpn): Option<Slot> {
    match links(Slot(root, x.i0))
    case None => None
    case Some(mid) =>
      match links(Slot(mid, x.i1))
      case None => None
      case Some(leaf) => Some(Slot(leaf, x.i2))
  }

  const KERNEL_SLOTS := 510

  // The tables form a forest of depth three, except that the kernel slots of roots may share tables.
  ghost predicate Forest(links: Links, level: map<nat, int>) {
    && (forall s: Slot | Inner(level, s) && links(s).Some? ::
          links(s).value in level && level[links(s).value] == level[s.table] + 1)
    && (forall s: Slot, t: Slot | Inner(level, s) && Inner(level, t) && links(s).Some? && links(s) == links(t) ::
          s == t || (IsRoot(level, s.table) && IsRoot(level, t.table) && s.index == t.index >= KERNEL_SLOTS))
  }

  ghost predicate IsRoot(level: map<nat, int>, table: nat) { table in level && level[table] == 0 }
  ghost predicate Inner(level: map<nat, int>, s: Slot) { s.table in level && level[s.table] < 2 }

  // Two walks end in the same slot only if they are walks for the same page, from the same root or
  // through a kernel slot that both roots share.
  lemma WalksMeet(links: Links, level: map<nat, int>, r: nat, x: Vpn, r': nat, x': Vpn)
    requires Forest(links, level) && IsRoot(level, r) && IsRoot(level, r')
    requires Walk(links, r, x).Some? && Walk(links, r, x) == Walk(links, r', x')
    ensures x == x' && (r == r' || (x.i0 >= KERNEL_SLOTS && links(Slot(r, x.i0)) == links(Slot(r', x.i0))))
  {
    var s, s' := Slot(links(Slot(r, x.i0)).value, x.i1), Slot(links(Slot(r', x'.i0)).value, x'.i1);
    assert Inner(level, s) && Inner(level, s') && links(s) == links(s');
    assert s == s';
  }

  // A fresh table without links hung below an unused slot.
  ghost predicate Grown(links: Links, links': Links, s: Slot, f: nat) {
    && links'(s) == Some(f)
    && (forall u: Slot | u != s && u.table != f :: links'(u) == links(u))
    && (forall u: Slot | u.table == f :: links'(u) == None)
  }

  lemma GrownForest(links: Links, links': Links, level: map<nat, int>, s: Slot, f: nat)
    requires Forest(links, level) && Inner(level, s) && links(s) == None && f !in level
    requires Grown(links, links', s, f)
    ensures Forest(links', level[f := level[s.table] + 1])
  {
    var level' := level[f := level[s.table] + 1];
    forall u: Slot | Inner(level', u) && links'(u).Some?
      ensures Inner(level, u) && links'(u) == (if u == s then Some(f) else links(u))
    {
    }
  }

  // No walk that was complete changes, and the only new ones end in the fresh table.
  lemma GrownWalk(links: Links, links': Links, level: map<nat, int>, s: Slot, f: nat, root: nat, x: Vpn)
    requires Forest(links, level) && Inner(level, s) && links(s) == None && f !in level
    requires Grown(links, links', s, f) && IsRoot(level, root)
    ensures Walk(links', root, x) == Walk(links, root, x)
            || (Walk(links, root, x) == None && Walk(links', root, x) == Some(Slot(f, x.i2)))
  {
  }

  // --- Physical memory ---
  //
  // Pages holding tables, by page number, and the frames the allocator will hand out, in order.

  datatype Mem = Mem(pages: map<nat, seq<Word>>, pool: seq<Ppn>)

  function ZeroPage(): (p: seq<Word>)
    ensures |p| == 512 && forall i :: 0 <= i < 512 ==> p[i] == 0
  {
    seq(512, _ => 0)
  }

  function Entry(m: Mem, s: Slot): Word {
    if s.table in m.pages && s.index < |m.pages[s.table]| then m.pages[s.table][s.index] else 0
  }

  function Put(m: Mem, s: Slot, bits: Word): Mem {
    if s.table in m.pages && s.index < |m.pages[s.table]|
    then
      var page: seq<Word> := m.pages[s.table][s.index := bits];
      m.(pages := m.pages[s.table := page])
    else m
  }

  function Child(m: Mem, s: Slot): Option<nat> {
    if IsValid(Entry(m, s)) then Some(PpnOf(Entry(m, s))) else None
  }

  function LinksOf(m: Mem): Links { (s: Slot) => Child(m, s) }

  datatype Mapping = Mapping(page: Ppn, flags: Flags)

  function Leaf(bits: Word): Option<Mapping> {
    if IsValid(bits) then Some(Mapping(PpnOf(bits), FlagsOf(bits))) else None
  }

  // What the tree under `root` says about page x: a mapping only if the whole path is valid.
  function Translate(m: Mem, root: nat, x: Vpn): Option<Mapping> {
    match Walk(LinksOf(m), root, x)
    case None => None
    case Some(s) => Leaf(Entry(m, s))
  }

  ghost predicate PagesFit(m: Mem, level: map<nat, int>) {
    && (forall t: nat :: t in level <==> t in m.pages)
    && (forall t: nat | t in m.pages :: |m.pages[t]| == 512)
    && (forall t: nat | t in level :: 0 <= level[t] <= 2)
  }

  ghost predicate PoolFresh(m: Mem) {
    && (forall i :: 0 <= i < |m.pool| ==> m.pool[i] !in m.pages)
    && (forall i, j :: 0 <= i < j < |m.pool| ==> m.pool[i] != m.pool[j])
  }

  // Memory whose tables form a forest; `level` is each table's distance from its root.
  ghost predicate Sound(m: Mem, level: map<nat, int>) {
    PagesFit(m, level) && PoolFresh(m) && Forest(LinksOf(m), level)
  }

  // get_addr_create
  function AddrCreate(m: Mem, s: Slot): (Mem, Option<nat>) {
    if IsValid(Entry(m, s)) then (m, Option<nat>.Some(PpnOf(Entry(m, s))))
    else if |m.pool| == 0 then (m, None)
    else
      var m' := Put(Mem(m.pages[m.pool[0] := ZeroPage()], m.pool[1..]), s, SetAll(AddrOf(m.pool[0]), 1));
      (m', Option<nat>.Some(PpnOf(Entry(m', s))))
  }

  // The levels after get_addr_create.
  ghost function Levels(m: Mem, level: map<nat, int>, s: Slot): map<nat, int>
    requires s.table in level
  {
    if IsValid(Entry(m, s)) || |m.pool| == 0 then level else level[m.pool[0] := level[s.table] + 1]
  }

  lemma AddrCreateEntries(m: Mem, level: map<nat, int>, s: Slot, u: Slot)
    requires Sound(m, level) && Inner(level, s) && !IsValid(Entry(m, s)) && |m.pool| > 0
    ensures Entry(AddrCreate(m, s).0, u)
         == if u == s then SetAll(AddrOf(m.pool[0]), 1) else if u.table == m.pool[0] then 0 else Entry(m, u)
  {
  }

  lemma AddrCreateGrows(m: Mem, level: map<nat, int>, s: Slot)
    requires Sound(m, level) && Inner(level, s) && !IsValid(Entry(m, s)) && |m.pool| > 0
    ensures Grown(LinksOf(m), LinksOf(AddrCreate(m, s).0), s, m.pool[0])
    ensures AddrCreate(m, s).1 == Some(m.pool[0])
  {
    var f, m' := m.pool[0], AddrCreate(m, s).0;
    EntryRoundTrip(AddrOf(f), 1);
    assert PageOf(AddrOf(f)) == f;
    AddrCreateEntries(m, level, s, s);
    forall u: Slot | u != s
      ensures Entry(m', u) == if u.table == f then 0 else Entry(m, u)
    {
      AddrCreateEntries(m, level, s, u);
    }
  }

  lemma AddrCreateSound(m: Mem, level: map<nat, int>, s: Slot)
    requires Sound(m, level) && Inner(level, s)
    ensures Sound(AddrCreate(m, s).0, Levels(m, level, s))
  {
    if !IsValid(Entry(m, s)) && |m.pool| > 0 {
      AddrCreateGrows(m, level, s);
      GrownForest(LinksOf(m), LinksOf(AddrCreate(m, s).0), level, s, m.pool[0]);
      AddrCreatePages(m, level, s);
    }
  }

  lemma AddrCreatePages(m: Mem, level: map<nat, int>, s: Slot)
    requires PagesFit(m, level) && PoolFresh(m) && Inner(level, s) && !IsValid(Entry(m, s)) && |m.pool| > 0
    ensures PagesFit(AddrCreate(m, s).0, Levels(m, level, s)) && PoolFresh(AddrCreate(m, s).0)
  {
  }

  lemma AddrCreateTranslates(m: Mem, level: map<nat, int>, s: Slot, r: nat, y: Vpn)
    requires Sound(m, level) && Inner(level, s) && IsRoot(level, r)
    ensures Translate(AddrCreate(m, s).0, r, y) == Translate(m, r, y)
  {
    if !IsValid(Entry(m, s)) && |m.pool| > 0 {
      var m' := AddrCreate(m, s).0;
      AddrCreateGrows(m, level, s);
      GrownWalk(LinksOf(m), LinksOf(m'), level, s, m.pool[0], r, y);
    }
  }

  // find_pte_create
  function PteCreate(m: Mem, root: nat, x: Vpn): (Mem, Option<Slot>) {
    var (m1, mid) := AddrCreate(m, Slot(root, x.i0));
    if mid.None? then (m1, None)
    else
      var (m2, leaf) := AddrCreate(m1, Slot(mid.value, x.i1));
      (m2, if leaf.None? then None else Some(Slot(leaf.value, x.i2)))
  }

  // Levels of the tree below `root` that page x still lacks.
  function Missing(m: Mem, root: nat, x: Vpn): nat {
    match Child(m, Slot(root, x.i0))
    case None => 2
    case Some(mid) => if Child(m, Slot(mid, x.i1)).None? then 1 else 0
  }

  ghost predicate SameRoots(level: map<nat, int>, level': map<nat, int>) {
    forall r: nat :: IsRoot(level, r) <==> IsRoot(level', r)
  }

  ghost predicate SameTranslations(m: Mem, m': Mem, level: map<nat, int>) {
    forall r: nat, y: Vpn | IsRoot(level, r) :: Translate(m', r, y) == Translate(m, r, y)
  }

  // No table is unlinked from the tree.
  ghost predicate KeepsLinks(m: Mem, m': Mem, level: map<nat, int>) {
    forall u: Slot | Inner(level, u) && Child(m, u).Some? :: Child(m', u) == Child(m, u)
  }

  lemma AddrCreateKeeps(m: Mem, level: map<nat, int>, s: Slot)
    requires Sound(m, level) && Inner(level, s)
    ensures var (m', child) := AddrCreate(m, s);
            var level' := Levels(m, level, s);
            && Sound(m', level') && SameRoots(level, level') && SameTranslations(m, m', level)
            && (child.Some? ==> Child(m', s) == child && child.value in level' && level'[child.value] == level[s.table] + 1)
            && s.table in level' && level'[s.table] == level[s.table]
            && KeepsLinks(m, m', level)
            && (forall t: nat | t in level :: t in level' && level'[t] == level[t])
  {
    AddrCreateSound(m, level, s);
    forall r: nat, y: Vpn | IsRoot(level, r)
      ensures Translate(AddrCreate(m, s).0, r, y) == Translate(m, r, y)
    {
      AddrCreateTranslates(m, level, s, r, y);
    }
    if !IsValid(Entry(m, s)) && |m.pool| > 0 {
      AddrCreateGrows(m, level, s);
      assert LinksOf(AddrCreate(m, s).0)(s) == Some(m.pool[0]);
      forall u: Slot | Inner(level, u) && Child(m, u).Some?
        ensures Child(AddrCreate(m, s).0, u) == Child(m, u)
      {
        assert LinksOf(AddrCreate(m, s).0)(u) == LinksOf(m)(u);
      }
    } else if IsValid(Entry(m, s)) {
      assert LinksOf(m)(s).Some?;
    }
  }

  // What find_pte_create leaves behind, whether it reached the leaf table or ran out of frames: a sound
  // tree in which every table still translates as before.
  ghost predicate Kept(m: Mem, level: map<nat, int>, m': Mem, level': map<nat, int>) {
    && Sound(m', level') && SameRoots(level, level') && SameTranslations(m, m', level) && KeepsLinks(m, m', level)
    && (forall t: nat | t in level :: t in level' && level'[t] == level[t])
  }

  lemma PteCreateKeeps(m: Mem, level: map<nat, int>, root: nat, x: Vpn) returns (level': map<nat, int>)
    requires Sound(m, level) && IsRoot(level, root)
    ensures Kept(m, level, PteCreate(m, root, x).0, level')
    ensures var (m', slot) := PteCreate(m, root, x);
            slot.Some? ==> && Walk(LinksOf(m'), root, x) == slot
                           && slot.value.table in level' && level'[slot.value.table] == 2
  {
    var s := Slot(root, x.i0);
    var (m1, mid) := AddrCreate(m, s);
    AddrCreateKeeps(m, level, s);
    level' := Levels(m, level, s);
    if mid.Some? {
      var s1 := Slot(mid.value, x.i1);
      AddrCreateKeeps(m1, level', s1);
      assert Child(AddrCreate(m1, s1).0, s) == mid;
      level' := Levels(m1, level', s1);
    }
  }

  lemma PteCreateFrames(m: Mem, level: map<nat, int>, root: nat, x: Vpn)
    requires Sound(m, level) && IsRoot(level, root)
    ensures var (m', slot) := PteCreate(m, root, x);
            var missing := Missing(m, root, x);
            && (slot.None? <==> |m.pool| < missing)
            && m'.pool == m.pool[if missing <= |m.pool| then missing else |m.pool|..]
  {
    var s := Slot(root, x.i0);
    var (m1, mid) := AddrCreate(m, s);
    if !IsValid(Entry(m, s)) && |m.pool| > 0 {
      AddrCreateGrows(m, level, s);
      var s1 := Slot(mid.value, x.i1);
      assert LinksOf(m1)(s1) == None;
      assert m1.pool == m.pool[1..];
    }
  }

  // Among the slots of root tables, find_pte_create fills at most the one on its own path.
  lemma PteCreateRootSlots(m: Mem, level: map<nat, int>, root: nat, x: Vpn, u: Slot)
    requires Sound(m, level) && IsRoot(level, root) && IsRoot(level, u.table) && u != Slot(root, x.i0)
    ensures Child(PteCreate(m, root, x).0, u) == Child(m, u)
  {
    var s := Slot(root, x.i0);
    var (m1, mid) := AddrCreate(m, s);
    AddrCreateKeeps(m, level, s);
    if !IsValid(Entry(m, s)) && |m.pool| > 0 {
      AddrCreateGrows(m, level, s);
      assert LinksOf(m1)(u) == LinksOf(m)(u);
    }
    if mid.Some? {
      var s1 := Slot(mid.value, x.i1);
      var level1 := Levels(m, level, s);
      if !IsValid(Entry(m1, s1)) && |m1.pool| > 0 {
        AddrCreateGrows(m1, level1, s1);
        assert LinksOf(AddrCreate(m1, s1).0)(u) == LinksOf(m1)(u);
      }
    }
  }

  // --- One translation at a time ---

  // Writing the entry of page x under `root` shows at page y under r exactly when it is the same page and
  // the same table, or a kernel page whose root slot both tables share.
  predicate Hits(m: Mem, root: nat, x: Vpn, r: nat, y: Vpn) {
    && y == x
    && (r == root
        || (x.i0 >= KERNEL_SLOTS && Child(m, Slot(r, x.i0)).Some? && Child(m, Slot(r, x.i0)) == Child(m, Slot(root, x.i0))))
  }

  // The memory m' translates like m except that page x of `root` is now `v`.
  ghost predicate Updates(m: Mem, m': Mem, level: map<nat, int>, root: nat, x: Vpn, v: Option<Mapping>) {
    forall r: nat, y: Vpn | IsRoot(level, r) ::
      Translate(m', r, y) == if Hits(m, root, x, r, y) then v else Translate(m, r, y)
  }

  lemma PutLeafSound(m: Mem, level: map<nat, int>, s: Slot, bits: Word)
    requires Sound(m, level) && s.table in level && level[s.table] == 2
    ensures Sound(Put(m, s, bits), level)
    ensures forall u: Slot | Inner(level, u) :: Child(Put(m, s, bits), u) == Child(m, u)
  {
    var m' := Put(m, s, bits);
    forall u: Slot | Inner(level, u)
      ensures LinksOf(m')(u) == LinksOf(m)(u)
    {
    }
  }

  lemma PutLeafTranslates(m: Mem, level: map<nat, int>, s: Slot, bits: Word, r: nat, y: Vpn)
    requires Sound(m, level) && s.table in level && level[s.table] == 2 && IsRoot(level, r)
    ensures Translate(Put(m, s, bits), r, y)
         == if Walk(LinksOf(m), r, y) == Some(s) then Leaf(bits) else Translate(m, r, y)
  {
    var m' := Put(m, s, bits);
    PutLeafSound(m, level, s, bits);
    var s0 := Slot(r, y.i0);
    assert Inner(level, s0);
    assert LinksOf(m')(s0) == LinksOf(m)(s0);
    if LinksOf(m)(s0).Some? {
      var s1 := Slot(LinksOf(m)(s0).value, y.i1);
      assert Inner(level, s1);
      assert LinksOf(m')(s1) == LinksOf(m)(s1);
    }
  }

  lemma HitsMeansSameSlot(m: Mem, level: map<nat, int>, root: nat, x: Vpn, r: nat, y: Vpn)
    requires Sound(m, level) && IsRoot(level, root) && IsRoot(level, r) && Walk(LinksOf(m), root, x).Some?
    ensures Hits(m, root, x, r, y) <==> Walk(LinksOf(m), r, y) == Walk(LinksOf(m), root, x)
  {
    if Walk(LinksOf(m), r, y) == Walk(LinksOf(m), root, x) {
      WalksMeet(LinksOf(m), level, root, x, r, y);
    }
  }

  lemma PutLeafUpdates(m: Mem, level: map<nat, int>, root: nat, x: Vpn, bits: Word)
    requires Sound(m, level) && IsRoot(level, root) && Walk(LinksOf(m), root, x).Some?
    ensures var s := Walk(LinksOf(m), root, x).value;
            && s.table in level && level[s.table] == 2
            && Sound(Put(m, s, bits), level) && KeepsLinks(m, Put(m, s, bits), level)
            && Updates(m, Put(m, s, bits), level, root, x, Leaf(bits))
  {
    var s := Walk(LinksOf(m), root, x).value;
    var s0 := Slot(root, x.i0);
    var s1 := Slot(LinksOf(m)(s0).value, x.i1);
    assert Inner(level, s0) && Inner(level, s1);
    PutLeafSound(m, level, s, bits);
    forall r: nat, y: Vpn | IsRoot(level, r)
      ensures Translate(Put(m, s, bits), r, y) == if Hits(m, root, x, r, y) then Leaf(bits) else Translate(m, r, y)
    {
      PutLeafTranslates(m, level, s, bits, r, y);
      HitsMeansSameSlot(m, level, root, x, r, y);
    }
  }

  // find_pte_create on the way does not change which translations the write will reach.
  lemma HitsKept(m: Mem, level: map<nat, int>, root: nat, x: Vpn, r: nat, y: Vpn)
    requires Sound(m, level) && IsRoot(level, root) && IsRoot(level, r)
    ensures Hits(PteCreate(m, root, x).0, root, x, r, y) <==> Hits(m, root, x, r, y)
  {
    var m' := PteCreate(m, root, x).0;
    var s, u := Slot(root, x.i0), Slot(r, x.i0);
    var level' := PteCreateKeeps(m, level, root, x);
    if r != root {
      PteCreateRootSlots(m, level, root, x, u);
      if LinksOf(m)(s).None? && LinksOf(m)(u).Some? && |m.pool| > 0 {
        var level1 := Levels(m, level, s);
        var m1 := AddrCreate(m, s).0;
        AddrCreateGrows(m, level, s);
        AddrCreateKeeps(m, level, s);
        AddrCreateKeeps(m1, level1, Slot(m.pool[0], x.i1));
        assert Child(m', s) == Child(m1, s) == Some(m.pool[0]);
      }
    }
  }

  // --- map, set_flags, unmap ---

  datatype Outcome = Ok | AlreadyMapped | NotMapped | VirtNotFound | FrameAllocFailed

  function MapPage(m: Mem, root: nat, vaddr: Word, paddr: Word, flags: Flags): (Mem, Outcome) {
    var (m1, slot) := PteCreate(m, root, VpnOf(vaddr));
    if slot.None? then (m1, FrameAllocFailed)
    else if IsValid(Entry(m1, slot.value)) then (m1, AlreadyMapped)
    else if flags == 0 then (m1, Ok)
    else (Put(m1, slot.value, SetAll(paddr, InUse(flags))), Ok)
  }

  function SetPageFlags(m: Mem, root: nat, vaddr: Word, flags: Flags): (Mem, Outcome) {
    var (m1, slot) := PteCreate(m, root, VpnOf(vaddr));
    if slot.None? then (m1, FrameAllocFailed)
    else if !IsValid(Entry(m1, slot.value)) then (m1, NotMapped)
    else (Put(m1, slot.value, WithFlags(Entry(m1, slot.value), InUse(flags))), Ok)
  }

  function UnmapPage(m: Mem, root: nat, vaddr: Word): (Mem, Outcome) {
    var slot := Walk(LinksOf(m), root, VpnOf(vaddr));
    if slot.None? then (m, VirtNotFound)
    else if !IsValid(Entry(m, slot.value)) then (m, NotMapped)
    else (Put(m, slot.value, 0), Ok)
  }

  // A write through the entry that find_pte_create returned.
  lemma CreateThenPut(m: Mem, level: map<nat, int>, root: nat, x: Vpn, bits: Word) returns (level': map<nat, int>)
    requires Sound(m, level) && IsRoot(level, root) && PteCreate(m, root, x).1.Some?
    ensures var (m1, slot) := PteCreate(m, root, x);
            && Leaf(Entry(m1, slot.value)) == Translate(m, root, x)
            && Sound(Put(m1, slot.value, bits), level') && SameRoots(level, level')
            && KeepsLinks(m, Put(m1, slot.value, bits), level)
            && Updates(m, Put(m1, slot.value, bits), level, root, x, Leaf(bits))
  {
    var (m1, slot) := PteCreate(m, root, x);
    level' := PteCreateKeeps(m, level, root, x);
    PutLeafUpdates(m1, level', root, x, bits);
    var m2 := Put(m1, slot.value, bits);
    forall r: nat, y: Vpn | IsRoot(level, r)
      ensures Translate(m2, r, y) == if Hits(m, root, x, r, y) then Leaf(bits) else Translate(m, r, y)
    {
      HitsKept(m, level, root, x, r, y);
      assert IsRoot(level', r);
    }
  }

  // InUse sets VALID, ACCESS and DIRTY and keeps the five permission bits between them.
  lemma InUseBits(flags: Flags)
    ensures InUse(flags) % 2 == 1 && InUse(flags) / 0x40 == 3 && InUse(flags) / 2 % 32 == flags / 2 % 32
  {
    var low := flags % 0x40;
    assert flags == flags / 0x40 * 0x40 + low;
    assert flags / 2 == flags / 0x40 * 32 + low / 2;
  }

  lemma MapPageRefines(m: Mem, level: map<nat, int>, root: nat, vaddr: Word, paddr: Word, flags: Flags)
      returns (level': map<nat, int>)
    requires Sound(m, level) && IsRoot(level, root)
    ensures var (m', out) := MapPage(m, root, vaddr, paddr, flags);
            var x := VpnOf(vaddr);
            && Sound(m', level') && SameRoots(level, level') && KeepsLinks(m, m', level)
            && (out == AlreadyMapped <==> Translate(m, root, x).Some?)
            && (out == FrameAllocFailed <==> |m.pool| < Missing(m, root, x))
            && (out == AlreadyMapped || out == FrameAllocFailed || out == Ok)
            && if out == Ok && flags != 0
               then Updates(m, m', level, root, x, Some(Mapping(PageOf(paddr), InUse(flags))))
               else SameTranslations(m, m', level)
  {
    var x := VpnOf(vaddr);
    PteCreateFrames(m, level, root, x);
    level' := PteCreateKeeps(m, level, root, x);
    var (m1, slot) := PteCreate(m, root, x);
    if slot.Some? {
      var bits := SetAll(paddr, InUse(flags));
      var level2 := CreateThenPut(m, level, root, x, bits);
      if !IsValid(Entry(m1, slot.value)) && flags != 0 {
        level' := level2;
        InUseBits(flags);
        EntryRoundTrip(paddr, InUse(flags));
        assert Leaf(bits) == Some(Mapping(PageOf(paddr), InUse(flags)));
      }
    } else {
      MissingMeansUnmapped(m, root, x);
    }
  }

  lemma MissingMeansUnmapped(m: Mem, root: nat, x: Vpn)
    ensures Missing(m, root, x) > 0 <==> Walk(LinksOf(m), root, x).None?
    ensures Missing(m, root, x) > 0 ==> Translate(m, root, x).None?
  {
    var s := Slot(root, x.i0);
    assert LinksOf(m)(s) == Child(m, s);
    if Child(m, s).Some? {
      var s1 := Slot(Child(m, s).value, x.i1);
      assert LinksOf(m)(s1) == Child(m, s1);
    }
  }

  // query does not look at the leaf's VALID bit.
  function QueryPage(m: Mem, root: nat, vaddr: Word): Option<Ppn> {
    var slot := Walk(LinksOf(m), root, VpnOf(vaddr));
    if slot.None? then None else Some(PpnOf(Entry(m, slot.value)))
  }

  // So it answers for every page whose leaf table exists, and is right if and only if the page is mapped or
  // has no leaf table.
  lemma QueryRightIff(m: Mem, root: nat, vaddr: Word)
    ensures var page, t := QueryPage(m, root, vaddr), Translate(m, root, VpnOf(vaddr));
            && (page.Some? <==> Missing(m, root, VpnOf(vaddr)) == 0)
            && (page == (if t.Some? then Some(t.value.page) else None) <==> t.Some? || Missing(m, root, VpnOf(vaddr)) > 0)
  {
    MissingMeansUnmapped(m, root, VpnOf(vaddr));
  }

  lemma LeafTableIsThere(m: Mem, level: map<nat, int>, root: nat, x: Vpn)
    requires Sound(m, level) && IsRoot(level, root) && Translate(m, root, x) == None && |m.pool| >= Missing(m, root, x)
    ensures var (m1, slot) := PteCreate(m, root, x);
            slot.Some? && Walk(LinksOf(m1), root, x) == slot && !IsValid(Entry(m1, slot.value)) && Translate(m1, root, x) == None
  {
    PteCreateFrames(m, level, root, x);
    var level' := PteCreateKeeps(m, level, root, x);
  }

  // Mapping a page without flags is one way to get a wrong answer.
  lemma QueryAnswersUnmapped(m: Mem, level: map<nat, int>, root: nat, vaddr: Word, paddr: Word)
    requires Sound(m, level) && IsRoot(level, root) && Translate(m, root, VpnOf(vaddr)) == None
    requires |m.pool| >= Missing(m, root, VpnOf(vaddr))
    ensures var (m', out) := MapPage(m, root, vaddr, paddr, 0);
            out == Ok && Translate(m', root, VpnOf(vaddr)) == None && QueryPage(m', root, vaddr).Some?
  {
    LeafTableIsThere(m, level, root, VpnOf(vaddr));
  }

  lemma WithFlagsLeaf(bits: Word, flags: Flags)
    requires IsValid(bits)
    ensures Leaf(WithFlags(bits, InUse(flags))) == Some(Mapping(Leaf(bits).value.page, InUse(flags)))
  {
    InUseBits(flags);
    SetFlagsKeepsPage(bits, InUse(flags));
  }

  lemma SetPageFlagsRefines(m: Mem, level: map<nat, int>, root: nat, vaddr: Word, flags: Flags)
      returns (level': map<nat, int>)
    requires Sound(m, level) && IsRoot(level, root)
    ensures var (m', out) := SetPageFlags(m, root, vaddr, flags);
            var x := VpnOf(vaddr);
            && Sound(m', level') && SameRoots(level, level') && KeepsLinks(m, m', level)
            && (out == Ok <==> Translate(m, root, x).Some?)
            && (out == FrameAllocFailed <==> |m.pool| < Missing(m, root, x))
            && (out == Ok || out == FrameAllocFailed || out == NotMapped)
            && if out == Ok
               then Updates(m, m', level, root, x, Some(Mapping(Translate(m, root, x).value.page, InUse(flags))))
               else SameTranslations(m, m', level)
  {
    var x := VpnOf(vaddr);
    PteCreateFrames(m, level, root, x);
    level' := PteCreateKeeps(m, level, root, x);
    var (m1, slot) := PteCreate(m, root, x);
    if slot.Some? {
      var bits := WithFlags(Entry(m1, slot.value), InUse(flags));
      var level2 := CreateThenPut(m, level, root, x, bits);
      if IsValid(Entry(m1, slot.value)) {
        level' := level2;
        WithFlagsLeaf(Entry(m1, slot.value), flags);
      }
    } else {
      MissingMeansUnmapped(m, root, x);
    }
  }

  lemma UnmapPageRefines(m: Mem, level: map<nat, int>, root: nat, vaddr: Word)
    requires Sound(m, level) && IsRoot(level, root)
    ensures var (m', out) := UnmapPage(m, root, vaddr);
            var x := VpnOf(vaddr);
            && Sound(m', level) && KeepsLinks(m, m', level) && m'.pool == m.pool
            && (out == Ok <==> Translate(m, root, x).Some?)
            && (out == VirtNotFound <==> Missing(m, root, x) > 0)
            && (out == Ok || out == VirtNotFound || out == NotMapped)
            && if out == Ok then Updates(m, m', level, root, x, None) else m' == m
  {
    var x := VpnOf(vaddr);
    MissingMeansUnmapped(m, root, x);
    if Walk(LinksOf(m), root, x).Some? {
      PutLeafUpdates(m, level, root, x, 0);
    }
  }

  // --- The kernel half ---

  // The memory after copying one kernel slot.
  function CopySlot(m: Mem, root: nat, kernel: nat, i: Index): Mem {
    Put(m, Slot(root, i), Entry(m, Slot(kernel, i)))
  }

  lemma CopySlotChild(m: Mem, level: map<nat, int>, root: nat, kernel: nat, i: Index, u: Slot)
    requires PagesFit(m, level) && root in level && u.table in level
    ensures Child(CopySlot(m, root, kernel, i), u) == Child(m, if u == Slot(root, i) then Slot(kernel, i) else u)
  {
  }

  lemma CopySlotSound(m: Mem, level: map<nat, int>, root: nat, kernel: nat, i: Index)
    requires Sound(m, level) && IsRoot(level, root) && IsRoot(level, kernel) && i >= KERNEL_SLOTS
    ensures Sound(CopySlot(m, root, kernel, i), level)
  {
    var m' := CopySlot(m, root, kernel, i);
    forall u: Slot | u.table in level
      ensures LinksOf(m')(u) == LinksOf(m)(if u == Slot(root, i) then Slot(kernel, i) else u)
    {
      CopySlotChild(m, level, root, kernel, i, u);
    }
    PutRootSlotForest(LinksOf(m), LinksOf(m'), level, Slot(root, i), kernel);
  }

  lemma CopySlotEntry(m: Mem, level: map<nat, int>, root: nat, kernel: nat, i: Index, s: Slot)
    requires PagesFit(m, level) && root in level && s.table != root
    ensures Entry(CopySlot(m, root, kernel, i), s) == Entry(m, s)
  {
  }

  lemma CopySlotTranslates(m: Mem, level: map<nat, int>, root: nat, kernel: nat, i: Index, r: nat, y: Vpn)
    requires Sound(m, level) && IsRoot(level, root) && IsRoot(level, kernel) && IsRoot(level, r) && i >= KERNEL_SLOTS
    ensures Translate(CopySlot(m, root, kernel, i), r, y)
         == Translate(m, if r == root && y.i0 == i then kernel else r, y)
  {
    var m' := CopySlot(m, root, kernel, i);
    var r0 := if r == root && y.i0 == i then kernel else r;
    var s0 := Slot(r0, y.i0);
    CopySlotChild(m, level, root, kernel, i, Slot(r, y.i0));
    assert LinksOf(m')(Slot(r, y.i0)) == LinksOf(m)(s0);
    assert Inner(level, s0);
    if LinksOf(m)(s0).Some? {
      var s1 := Slot(LinksOf(m)(s0).value, y.i1);
      assert Inner(level, s1);
      CopySlotChild(m, level, root, kernel, i, s1);
      assert LinksOf(m')(s1) == LinksOf(m)(s1);
      if LinksOf(m)(s1).Some? {
        CopySlotEntry(m, level, root, kernel, i, Slot(LinksOf(m)(s1).value, y.i2));
      }
    }
  }

  lemma PutRootSlotForest(links: Links, links': Links, level: map<nat, int>, s: Slot, kernel: nat)
    requires Forest(links, level) && IsRoot(level, s.table) && IsRoot(level, kernel) && s.index >= KERNEL_SLOTS
    requires forall u: Slot | u.table in level :: links'(u) == links(if u == s then Slot(kernel, s.index) else u)
    ensures Forest(links', level)
  {
    assert Inner(level, Slot(kernel, s.index));
  }

  // map_kernel_regions
  function InstallKernel(m: Mem, root: nat, kernel: nat): Mem {
    CopySlot(CopySlot(m, root, kernel, 510), root, kernel, 511)
  }

  // After map_kernel_regions the table translates every address with root index 510 or 511 as the kernel
  // does; its other addresses and all other tables are as before.
  lemma InstallKernelTranslates(m: Mem, level: map<nat, int>, root: nat, kernel: nat, r: nat, y: Vpn)
    requires Sound(m, level) && IsRoot(level, root) && IsRoot(level, kernel) && IsRoot(level, r)
    ensures Translate(InstallKernel(m, root, kernel), r, y)
         == Translate(m, if r == root && y.i0 >= KERNEL_SLOTS then kernel else r, y)
  {
    var m1 := CopySlot(m, root, kernel, 510);
    CopySlotSound(m, level, root, kernel, 510);
    CopySlotTranslates(m1, level, root, kernel, 511, r, y);
    CopySlotTranslates(m, level, root, kernel, 510, r, y);
    CopySlotTranslates(m, level, root, kernel, 510, kernel, y);
  }

  lemma InstallKernelSound(m: Mem, level: map<nat, int>, root: nat, kernel: nat)
    requires Sound(m, level) && IsRoot(level, root) && IsRoot(level, kernel)
    ensures Sound(InstallKernel(m, root, kernel), level)
    ensures forall u: Slot | u.table in level ::
              Child(InstallKernel(m, root, kernel), u)
              == Child(m, if u.table == root && u.index >= KERNEL_SLOTS then Slot(kernel, u.index) else u)
  {
    var m1 := CopySlot(m, root, kernel, 510);
    CopySlotSound(m, level, root, kernel, 510);
    CopySlotSound(m1, level, root, kernel, 511);
    forall u: Slot | u.table in level
      ensures Child(InstallKernel(m, root, kernel), u)
           == Child(m, if u.table == root && u.index >= KERNEL_SLOTS then Slot(kernel, u.index) else u)
    {
      CopySlotChild(m1, level, root, kernel, 511, u);
      CopySlotChild(m, level, root, kernel, 510, u);
      CopySlotChild(m, level, root, kernel, 510, Slot(kernel, u.index));
    }
  }

  // --- Runs over any number of tables ---

  // PageTable::new
  function NewTable(m: Mem): (Mem, Option<Ppn>) {
    if |m.pool| == 0 then (m, None)
    else (Mem(m.pages[m.pool[0] := ZeroPage()], m.pool[1..]), Some(m.pool[0]))
  }

  lemma NewTableKeeps(m: Mem, level: map<nat, int>)
    requires Sound(m, level) && |m.pool| > 0
    ensures var (m', root) := NewTable(m);
            var f := m.pool[0];
            var level' := level[f := 0];
            && f !in level && root == Some(f) && Sound(m', level') && IsRoot(level', f)
            && (forall r: nat | IsRoot(level, r) :: IsRoot(level', r))
            && SameTranslations(m, m', level) && KeepsLinks(m, m', level)
            && (forall y: Vpn :: Translate(m', f, y) == None)
  {
    var f, m' := m.pool[0], NewTable(m).0;
    var level' := level[f := 0];
    forall u: Slot
      ensures Entry(m', u) == (if u.table == f then 0 else Entry(m, u))
      ensures LinksOf(m')(u) == (if u.table == f then None else LinksOf(m)(u))
    {
    }
    NewTableForest(LinksOf(m), LinksOf(m'), level, f);
    forall r: nat, y: Vpn | IsRoot(level, r)
      ensures Translate(m', r, y) == Translate(m, r, y)
    {
      var s0 := Slot(r, y.i0);
      assert Inner(level, s0);
      if LinksOf(m)(s0).Some? {
        var s1 := Slot(LinksOf(m)(s0).value, y.i1);
        assert Inner(level, s1);
      }
    }
  }

  lemma NewTableForest(links: Links, links': Links, level: map<nat, int>, f: nat)
    requires Forest(links, level) && f !in level
    requires forall u: Slot :: links'(u) == if u.table == f then None else links(u)
    ensures Forest(links', level[f := 0])
  {
    var level' := level[f := 0];
    forall u: Slot | Inner(level', u) && links'(u).Some?
      ensures Inner(level, u) && links'(u) == links(u)
    {
    }
  }

  datatype State = State(mem: Mem, tables: set<nat>)

  datatype Op =
    | Create
    | Map(root: nat, vaddr: Word, paddr: Word, flags: Flags)
    | Protect(root: nat, vaddr: Word, flags: Flags)
    | Unmap(root: nat, vaddr: Word)
    | Install(root: nat, kernel: nat)

  function Step(s: State, op: Op): (State, Outcome) {
    match op
    case Create =>
      var (m, root) := NewTable(s.mem);
      if root.None? then (s, FrameAllocFailed) else (State(m, s.tables + {root.value}), Ok)
    case Map(root, vaddr, paddr, flags) =>
      var (m, out) := MapPage(s.mem, root, vaddr, paddr, flags);
      (s.(mem := m), out)
    case Protect(root, vaddr, flags) =>
      var (m, out) := SetPageFlags(s.mem, root, vaddr, flags);
      (s.(mem := m), out)
    case Unmap(root, vaddr) =>
      var (m, out) := UnmapPage(s.mem, root, vaddr);
      (s.(mem := m), out)
    case Install(root, kernel) => (s.(mem := InstallKernel(s.mem, root, kernel)), Ok)
  }

  // Operations are called on tables that exist.
  predicate Enabled(s: State, op: Op) {
    (op.Create? || op.root in s.tables) && (op.Install? ==> op.kernel in s.tables)
  }

  predicate RunEnabled(s: State, ops: seq<Op>)
    decreases |ops|
  {
    ops == [] || (Enabled(s, ops[0]) && RunEnabled(Step(s, ops[0]).0, ops[1..]))
  }

  function Run(s: State, ops: seq<Op>): (State, seq<Outcome>)
    decreases |ops|
  {
    if ops == [] then (s, [])
    else
      var (s', out) := Step(s, ops[0]);
      var (s'', outs) := Run(s', ops[1..]);
      (s'', [out] + outs)
  }

  ghost predicate SoundState(s: State, level: map<nat, int>) {
    Sound(s.mem, level) && forall r: nat | r in s.tables :: IsRoot(level, r)
  }

  lemma InitSound(pool: seq<Ppn>)
    requires forall i, j :: 0 <= i < j < |pool| ==> pool[i] != pool[j]
    ensures SoundState(State(Mem(map[], pool), {}), map[]) && Refines(State(Mem(map[], pool), {}), map[])
  {
  }

  // --- Refinement of a finite map from (table, page) to (page, flags) ---

  datatype Key = Key(root: nat, page: Vpn)
  type View = map<Key, Mapping>

  function Lookup(a: View, k: Key): Option<Mapping> { if k in a then Some(a[k]) else None }

  predicate UserHalf(x: Vpn) { x.i0 < KERNEL_SLOTS }

  ghost predicate Refines(s: State, a: View) {
    && (forall r: nat, y: Vpn | r in s.tables && UserHalf(y) :: Translate(s.mem, r, y) == Lookup(a, Key(r, y)))
    && (forall k: Key | k in a :: k.root in s.tables)
  }

  function ViewStep(a: View, op: Op, out: Outcome): View {
    if out != Ok then a
    else
      match op
      case Map(root, vaddr, paddr, flags) =>
        if flags == 0 || !UserHalf(VpnOf(vaddr)) then a
        else a[Key(root, VpnOf(vaddr)) := Mapping(PageOf(paddr), InUse(flags))]
      case Protect(root, vaddr, flags) =>
        var k := Key(root, VpnOf(vaddr));
        if k in a && UserHalf(k.page) then a[k := a[k].(flags := InUse(flags))] else a
      case Unmap(root, vaddr) =>
        if UserHalf(VpnOf(vaddr)) then a - {Key(root, VpnOf(vaddr))} else a
      case _ => a
  }

  // Apart from running out of frames, the map alone decides whether an operation succeeds.
  predicate OutcomeFits(a: View, op: Op, out: Outcome) {
    match op
    case Map(root, vaddr, _, _) =>
      UserHalf(VpnOf(vaddr)) ==>
        if Key(root, VpnOf(vaddr)) in a then out == AlreadyMapped else out == Ok || out == FrameAllocFailed
    case Protect(root, vaddr, _) =>
      UserHalf(VpnOf(vaddr)) ==>
        if Key(root, VpnOf(vaddr)) in a then out == Ok else out == NotMapped || out == FrameAllocFailed
    case Unmap(root, vaddr) =>
      UserHalf(VpnOf(vaddr)) ==>
        if Key(root, VpnOf(vaddr)) in a then out == Ok else out == NotMapped || out == VirtNotFound
    case Create => out == Ok || out == FrameAllocFailed
    case Install(_, _) => out == Ok
  }

  function ViewRun(a: View, ops: seq<Op>, outs: seq<Outcome>): View
    decreases |ops|
  {
    if ops == [] || outs == [] then a else ViewRun(ViewStep(a, ops[0], outs[0]), ops[1..], outs[1..])
  }

  predicate OutcomesFit(a: View, ops: seq<Op>, outs: seq<Outcome>)
    decreases |ops|
  {
    |ops| == |outs|
    && (ops == [] || (OutcomeFits(a, ops[0], outs[0]) && OutcomesFit(ViewStep(a, ops[0], outs[0]), ops[1..], outs[1..])))
  }

  lemma StepKeepsSound(s: State, level: map<nat, int>, op: Op) returns (level': map<nat, int>)
    requires SoundState(s, level) && Enabled(s, op)
    ensures SoundState(Step(s, op).0, level')
  {
    match op
    case Create =>
      level' := level;
      if |s.mem.pool| > 0 {
        NewTableKeeps(s.mem, level);
        level' := level[s.mem.pool[0] := 0];
      }
    case Map(root, vaddr, paddr, flags) => level' := MapPageRefines(s.mem, level, root, vaddr, paddr, flags);
    case Protect(root, vaddr, flags) => level' := SetPageFlagsRefines(s.mem, level, root, vaddr, flags);
    case Unmap(root, vaddr) =>
      level' := level;
      UnmapPageRefines(s.mem, level, root, vaddr);
    case Install(root, kernel) =>
      level' := level;
      InstallKernelSound(s.mem, level, root, kernel);
  }

  // From one `Updates` (or none) of the memory to the update of the map.
  lemma UpdateRefines(s: State, m': Mem, level: map<nat, int>, a: View, root: nat, x: Vpn, v: Option<Mapping>, a': View)
    requires SoundState(s, level) && Refines(s, a) && root in s.tables
    requires Updates(s.mem, m', level, root, x, v)
    requires forall k: Key :: Lookup(a', k) == if k == Key(root, x) && UserHalf(x) then v else Lookup(a, k)
    ensures Refines(s.(mem := m'), a')
  {
    forall k: Key | k in a'
      ensures k.root in s.tables
    {
      assert Lookup(a', k).Some?;
    }
    forall r: nat, y: Vpn | r in s.tables && UserHalf(y)
      ensures Translate(m', r, y) == Lookup(a', Key(r, y))
    {
      assert IsRoot(level, r);
    }
  }

  lemma MapStepRefines(s: State, level: map<nat, int>, a: View, op: Op)
    requires SoundState(s, level) && Refines(s, a) && Enabled(s, op) && op.Map?
    ensures OutcomeFits(a, op, Step(s, op).1) && Refines(Step(s, op).0, ViewStep(a, op, Step(s, op).1))
  {
    var out := Step(s, op).1;
    var level' := MapPageRefines(s.mem, level, op.root, op.vaddr, op.paddr, op.flags);
    if out == Ok && op.flags != 0 {
      UpdateRefines(s, Step(s, op).0.mem, level, a, op.root, VpnOf(op.vaddr),
                    Some(Mapping(PageOf(op.paddr), InUse(op.flags))), ViewStep(a, op, out));
    }
  }

  lemma ProtectStepRefines(s: State, level: map<nat, int>, a: View, op: Op)
    requires SoundState(s, level) && Refines(s, a) && Enabled(s, op) && op.Protect?
    ensures OutcomeFits(a, op, Step(s, op).1) && Refines(Step(s, op).0, ViewStep(a, op, Step(s, op).1))
  {
    var out := Step(s, op).1;
    var level' := SetPageFlagsRefines(s.mem, level, op.root, op.vaddr, op.flags);
    if out == Ok {
      UpdateRefines(s, Step(s, op).0.mem, level, a, op.root, VpnOf(op.vaddr),
                    Some(Mapping(Translate(s.mem, op.root, VpnOf(op.vaddr)).value.page, InUse(op.flags))),
                    ViewStep(a, op, out));
    }
  }

  lemma UnmapStepRefines(s: State, level: map<nat, int>, a: View, op: Op)
    requires SoundState(s, level) && Refines(s, a) && Enabled(s, op) && op.Unmap?
    ensures OutcomeFits(a, op, Step(s, op).1) && Refines(Step(s, op).0, ViewStep(a, op, Step(s, op).1))
  {
    var out := Step(s, op).1;
    UnmapPageRefines(s.mem, level, op.root, op.vaddr);
    if out == Ok {
      UpdateRefines(s, Step(s, op).0.mem, level, a, op.root, VpnOf(op.vaddr), None, ViewStep(a, op, out));
    }
  }

  lemma CreateStepRefines(s: State, level: map<nat, int>, a: View)
    requires SoundState(s, level) && Refines(s, a)
    ensures Refines(Step(s, Create).0, a)
  {
    if |s.mem.pool| > 0 {
      var f, s' := s.mem.pool[0], Step(s, Create).0;
      NewTableKeeps(s.mem, level);
      assert f !in s.tables by {
        assert !IsRoot(level, f);
      }
      forall r: nat, y: Vpn | r in s'.tables && UserHalf(y)
        ensures Translate(s'.mem, r, y) == Lookup(a, Key(r, y))
      {
        assert r == f || IsRoot(level, r);
      }
    }
  }

  lemma InstallStepRefines(s: State, level: map<nat, int>, a: View, root: nat, kernel: nat)
    requires SoundState(s, level) && Refines(s, a) && root in s.tables && kernel in s.tables
    ensures Refines(Step(s, Install(root, kernel)).0, a)
  {
    forall r: nat, y: Vpn | r in s.tables && UserHalf(y)
      ensures Translate(InstallKernel(s.mem, root, kernel), r, y) == Translate(s.mem, r, y)
    {
      InstallKernelTranslates(s.mem, level, root, kernel, r, y);
    }
  }

  lemma StepRefines(s: State, level: map<nat, int>, a: View, op: Op)
    requires SoundState(s, level) && Refines(s, a) && Enabled(s, op)
    ensures OutcomeFits(a, op, Step(s, op).1) && Refines(Step(s, op).0, ViewStep(a, op, Step(s, op).1))
  {
    match op
    case Create => CreateStepRefines(s, level, a);
    case Map(_, _, _, _) => MapStepRefines(s, level, a, op);
    case Protect(_, _, _) => ProtectStepRefines(s, level, a, op);
    case Unmap(_, _) => UnmapStepRefines(s, level, a, op);
    case Install(root, kernel) => InstallStepRefines(s, level, a, root, kernel);
  }

  // Every run, over any number of tables, acts on their user halves as on one finite map.
  lemma {:induction false} RunRefinesMap(s: State, level: map<nat, int>, a: View, ops: seq<Op>)
    requires SoundState(s, level) && Refines(s, a) && RunEnabled(s, ops)
    ensures OutcomesFit(a, ops, Run(s, ops).1)
    ensures Refines(Run(s, ops).0, ViewRun(a, ops, Run(s, ops).1))
    decreases |ops|
  {
    if ops != [] {
      var (s', out) := Step(s, ops[0]);
      StepRefines(s, level, a, ops[0]);
      var level' := StepKeepsSound(s, level, ops[0]);
      RunRefinesMap(s', level', ViewStep(a, ops[0], out), ops[1..]);
      assert Run(s, ops).1[1..] == Run(s', ops[1..]).1;
    }
  }

  // --- The kernel half over runs ---

  // Operations that leave the kernel half of table r alone by intent: those on user addresses of any
  // table, new tables, and installing the kernel regions elsewhere.
  predicate SparesKernelHalf(op: Op, r: nat) {
    match op
    case Create => true
    case Map(_, vaddr, _, _) => UserHalf(VpnOf(vaddr))
    case Protect(_, vaddr, _) => UserHalf(VpnOf(vaddr))
    case Unmap(_, vaddr) => UserHalf(VpnOf(vaddr))
    case Install(root, _) => root != r
  }

  lemma StepKeepsKernelHalf(s: State, level: map<nat, int>, op: Op, r: nat, y: Vpn)
    requires SoundState(s, level) && Enabled(s, op) && r in s.tables
    requires SparesKernelHalf(op, r) && !UserHalf(y)
    ensures r in Step(s, op).0.tables && Translate(Step(s, op).0.mem, r, y) == Translate(s.mem, r, y)
  {
    match op
    case Create =>
      if |s.mem.pool| > 0 {
        NewTableKeeps(s.mem, level);
      }
    case Map(root, vaddr, paddr, flags) => var level' := MapPageRefines(s.mem, level, root, vaddr, paddr, flags);
    case Protect(root, vaddr, flags) => var level' := SetPageFlagsRefines(s.mem, level, root, vaddr, flags);
    case Unmap(root, vaddr) => UnmapPageRefines(s.mem, level, root, vaddr);
    case Install(root, kernel) => InstallKernelTranslates(s.mem, level, root, kernel, r, y);
  }

  // Whatever happens to user addresses in this or any other table, no kernel-half translation changes.
  lemma {:induction false} RunKeepsKernelHalf(s: State, level: map<nat, int>, ops: seq<Op>, r: nat, y: Vpn)
    requires SoundState(s, level) && RunEnabled(s, ops) && r in s.tables && !UserHalf(y)
    requires forall op: Op | op in ops :: SparesKernelHalf(op, r)
    ensures Translate(Run(s, ops).0.mem, r, y) == Translate(s.mem, r, y)
    decreases |ops|
  {
    if ops != [] {
      StepKeepsKernelHalf(s, level, ops[0], r, y);
      var level' := StepKeepsSound(s, level, ops[0]);
      RunKeepsKernelHalf(Step(s, ops[0]).0, level', ops[1..], r, y);
    }
  }

  // Two tables share kernel slot i.
  predicate Shares(m: Mem, r: nat, kernel: nat, i: Index) {
    Child(m, Slot(r, i)).Some? && Child(m, Slot(r, i)) == Child(m, Slot(kernel, i))
  }

  lemma StepKeepsShared(s: State, level: map<nat, int>, op: Op, r: nat, kernel: nat, i: Index)
    requires SoundState(s, level) && Enabled(s, op) && r in s.tables && kernel in s.tables
    requires Shares(s.mem, r, kernel, i) && (op.Install? ==> op.root != r && op.root != kernel)
    ensures Shares(Step(s, op).0.mem, r, kernel, i)
  {
    assert Inner(level, Slot(r, i)) && Inner(level, Slot(kernel, i));
    match op
    case Create =>
      if |s.mem.pool| > 0 {
        NewTableKeeps(s.mem, level);
      }
    case Map(root, vaddr, paddr, flags) => var level' := MapPageRefines(s.mem, level, root, vaddr, paddr, flags);
    case Protect(root, vaddr, flags) => var level' := SetPageFlagsRefines(s.mem, level, root, vaddr, flags);
    case Unmap(root, vaddr) => UnmapPageRefines(s.mem, level, root, vaddr);
    case Install(root, kern) => InstallKernelSound(s.mem, level, root, kern);
  }

  lemma SharedTranslates(m: Mem, r: nat, kernel: nat, y: Vpn)
    requires Shares(m, r, kernel, y.i0)
    ensures Translate(m, r, y) == Translate(m, kernel, y)
  {
    assert LinksOf(m)(Slot(r, y.i0)) == LinksOf(m)(Slot(kernel, y.i0));
  }

  // A kernel slot that was valid when it was installed is shared for good: after any run, even one that
  // maps and unmaps kernel addresses, both tables translate its gigabyte alike.
  lemma {:induction false} RunKeepsShared(s: State, level: map<nat, int>, ops: seq<Op>, r: nat, kernel: nat, y: Vpn)
    requires SoundState(s, level) && RunEnabled(s, ops) && r in s.tables && kernel in s.tables
    requires Shares(s.mem, r, kernel, y.i0)
    requires forall op: Op | op in ops :: op.Install? ==> op.root != r && op.root != kernel
    ensures Translate(Run(s, ops).0.mem, r, y) == Translate(Run(s, ops).0.mem, kernel, y)
    decreases |ops|
  {
    if ops == [] {
      SharedTranslates(s.mem, r, kernel, y);
    } else {
      StepKeepsShared(s, level, ops[0], r, kernel, y.i0);
      var level' := StepKeepsSound(s, level, ops[0]);
      RunKeepsShared(Step(s, ops[0]).0, level', ops[1..], r, kernel, y);
    }
  }

  // A kernel slot that was empty when it was installed is not shared: the first page the kernel maps there
  // is invisible to the table.
  lemma EmptySlotDiverges(m: Mem, level: map<nat, int>, r: nat, kernel: nat, vaddr: Word, paddr: Word, flags: Flags)
    requires Sound(m, level) && IsRoot(level, r) && IsRoot(level, kernel) && r != kernel
    requires !UserHalf(VpnOf(vaddr)) && Child(m, Slot(kernel, VpnOf(vaddr).i0)).None?
    requires |m.pool| >= 2 && flags != 0
    ensures var m' := MapPage(InstallKernel(m, r, kernel), kernel, vaddr, paddr, flags).0;
            && Translate(m', r, VpnOf(vaddr)) == None
            && Translate(m', kernel, VpnOf(vaddr)) == Some(Mapping(PageOf(paddr), InUse(flags)))
  {
    var x := VpnOf(vaddr);
    var m1 := InstallKernel(m, r, kernel);
    InstallKernelSound(m, level, r, kernel);
    assert Child(m1, Slot(kernel, x.i0)) == None == Child(m1, Slot(r, x.i0));
    MissingMeansUnmapped(m1, kernel, x);
    MissingMeansUnmapped(m1, r, x);
    var level' := MapPageRefines(m1, level, kernel, vaddr, paddr, flags);
  }

  // --- The objects ---

  // The frames taken from the front of a pool, and appended to those a table owns.
  predicate TookFrames(frames0: seq<Ppn>, pool0: seq<Ppn>, frames: seq<Ppn>, pool: seq<Ppn>) {
    |pool| <= |pool0| && pool == pool0[|pool0| - |pool|..] && frames == frames0 + pool0[..|pool0| - |pool|]
  }

  lemma TakenInTurn(frames0: seq<Ppn>, pool0: seq<Ppn>, frames1: seq<Ppn>, pool1: seq<Ppn>, frames: seq<Ppn>, pool: seq<Ppn>)
    requires TookFrames(frames0, pool0, frames1, pool1) && TookFrames(frames1, pool1, frames, pool)
    ensures TookFrames(frames0, pool0, frames, pool)
  {
    var i, j := |pool0| - |pool1|, |pool1| - |pool|;
    assert pool0[..i] + pool1[..j] == pool0[..i + j];
  }

  // Physical memory and the frame allocator, shared by all page tables.
  class PhysMemory {
    var pages: map<nat, seq<Word>>
    var pool: seq<Ppn>

    function State(): Mem reads this { Mem(pages, pool) }

    constructor (frames: seq<Ppn>)
      ensures State() == Mem(map[], frames)
    {
      pages, pool := map[], frames;
    }

    // Frame::new followed by zero()
    method AllocZeroed() returns (frame: Option<Ppn>)
      modifies this
      ensures State() == NewTable(old(State())).0 && frame == NewTable(old(State())).1
    {
      if |pool| == 0 { return None; }
      frame := Some(pool[0]);
      pages, pool := pages[pool[0] := ZeroPage()], pool[1..];
    }

    method Write(s: Slot, bits: Word)
      modifies this`pages
      ensures State() == Put(old(State()), s, bits)
    {
      if s.table in pages && s.index < |pages[s.table]| {
        var page: seq<Word> := pages[s.table][s.index := bits];
        pages := pages[s.table := page];
      }
    }
  }

  class PageTable {
    const root: Ppn
    const memory: PhysMemory
    var frames: seq<Ppn>  // the frames this table owns

    constructor FromRoot(memory: PhysMemory, root: Ppn)
      ensures this.memory == memory && this.root == root && frames == []
    {
      this.memory, this.root, frames := memory, root, [];
    }

    constructor Owning(memory: PhysMemory, root: Ppn)
      ensures this.memory == memory && this.root == root && frames == [root]
    {
      this.memory, this.root, frames := memory, root, [root];
    }

    static method New(memory: PhysMemory) returns (table: PageTable?)
      modifies memory
      ensures memory.State() == NewTable(old(memory.State())).0
      ensures table == null <==> |old(memory.pool)| == 0
      ensures table != null ==>
                fresh(table) && table.memory == memory && table.root == old(memory.pool)[0] && table.frames == [table.root]
    {
      var frame := memory.AllocZeroed();
      if frame.None? { return null; }
      table := new PageTable.Owning(memory, frame.value);
    }

    // The frames taken from the allocator by one call.
    ghost predicate Took(frames0: seq<Ppn>, pool0: seq<Ppn>)
      reads this, memory
    {
      TookFrames(frames0, pool0, frames, memory.pool)
    }

    method GetAddrCreate(pte: Slot) returns (addr: Option<nat>)
      modifies this, memory
      ensures (memory.State(), addr) == AddrCreate(old(memory.State()), pte)
      ensures Took(old(frames), old(memory.pool))
    {
      if !IsValid(Entry(memory.State(), pte)) {
        var frame := memory.AllocZeroed();
        if frame.None? { return None; }
        memory.Write(pte, SetAll(AddrOf(frame.value), 1));
        frames := frames + [frame.value];
      }
      addr := Option<nat>.Some(PpnOf(Entry(memory.State(), pte)));
    }

    method FindPteCreate(vaddr: Word) returns (pte: Option<Slot>)
      modifies this, memory
      ensures (memory.State(), pte) == PteCreate(old(memory.State()), root, VpnOf(vaddr))
      ensures Took(old(frames), old(memory.pool))
    {
      var x := VpnOf(vaddr);
      var mid := GetAddrCreate(Slot(root, x.i0));
      if mid.None? { return None; }
      ghost var m1, frames1 := memory.State(), frames;
      assert (m1, mid) == AddrCreate(old(memory.State()), Slot(root, x.i0));
      var leaf := GetAddrCreate(Slot(mid.value, x.i1));
      assert (memory.State(), leaf) == AddrCreate(m1, Slot(mid.value, x.i1));
      TakenInTurn(old(frames), old(memory.pool), frames1, m1.pool, frames, memory.pool);
      if leaf.None? { return None; }
      pte := Some(Slot(leaf.value, x.i2));
    }

    method FindPte(vaddr: Word) returns (pte: Option<Slot>)
      ensures pte == Walk(LinksOf(memory.State()), root, VpnOf(vaddr))
    {
      var x := VpnOf(vaddr);
      var top := Entry(memory.State(), Slot(root, x.i0));
      if !IsValid(top) { return None; }
      var mid := Entry(memory.State(), Slot(PpnOf(top), x.i1));
      if !IsValid(mid) { return None; }
      pte := Some(Slot(PpnOf(mid), x.i2));
    }

    method MapKernelRegions(kernel: PageTable)
      requires kernel.memory == memory
      modifies memory
      ensures memory.State() == InstallKernel(old(memory.State()), root, kernel.root)
    {
      var line := 510;
      while line < 512
        invariant 510 <= line <= 512
        invariant line == 510 ==> memory.State() == old(memory.State())
        invariant line == 511 ==> memory.State() == CopySlot(old(memory.State()), root, kernel.root, 510)
        invariant line == 512 ==> memory.State() == InstallKernel(old(memory.State()), root, kernel.root)
      {
        var bits := Entry(memory.State(), Slot(kernel.root, line));
        memory.Write(Slot(root, line), bits);
        line := line + 1;
      }
    }

    method Map(vaddr: Word, paddr: Word, flags: Flags) returns (out: Outcome)
      modifies this, memory
      ensures (memory.State(), out) == MapPage(old(memory.State()), root, vaddr, paddr, flags)
      ensures Took(old(frames), old(memory.pool))
    {
      var pte := FindPteCreate(vaddr);
      if pte.None? { return FrameAllocFailed; }
      if IsValid(Entry(memory.State(), pte.value)) { return AlreadyMapped; }
      if flags != 0 {
        memory.Write(pte.value, SetAll(paddr, InUse(flags)));
      }
      out := Ok;
    }

    method SetFlags(vaddr: Word, flags: Flags) returns (out: Outcome)
      modifies this, memory
      ensures (memory.State(), out) == SetPageFlags(old(memory.State()), root, vaddr, flags)
      ensures Took(old(frames), old(memory.pool))
    {
      var pte := FindPteCreate(vaddr);
      if pte.None? { return FrameAllocFailed; }
      var bits := Entry(memory.State(), pte.value);
      if !IsValid(bits) { return NotMapped; }
      memory.Write(pte.value, WithFlags(bits, InUse(flags)));
      out := Ok;
    }

    method Unmap(vaddr: Word) returns (out: Outcome)
      modifies memory
      ensures (memory.State(), out) == UnmapPage(old(memory.State()), root, vaddr)
    {
      var pte := FindPte(vaddr);
      if pte.None? { return VirtNotFound; }
      if !IsValid(Entry(memory.State(), pte.value)) { return NotMapped; }
      memory.Write(pte.value, 0);
      out := Ok;
    }

    method Query(vaddr: Word) returns (page: Option<Ppn>)
      ensures page == QueryPage(memory.State(), root, vaddr)
    {
      var pte := FindPte(vaddr);
      if pte.None? { return None; }
      page := Some(PpnOf(Entry(memory.State(), pte.value)));
    }
  }
}
