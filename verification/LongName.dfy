// Long file names in modified_dependencies/rust-fatfs/src/dir.rs: LfnEntriesGenerator splits a name into
// LFN entries, last part first; LongNameBuilder puts it together again while the directory is read.
module LongNames {
  import opened MachineInts
  import opened DirEntries

  const MAX_ENTRIES := 20  // (255 + 12) / 13

  function LfnChecksum(shortName: seq<Byte>): Byte {
    if shortName == [] then 0
    else ChecksumStep(LfnChecksum(shortName[..|shortName| - 1]), shortName[|shortName| - 1])
  }

  // (chksum << 7) + (chksum >> 1) + b in wrapping u8 arithmetic
  function ChecksumStep(c: Byte, b: Byte): Byte { (c % 2 * 0x80 + c / 2 + b) % 0x100 }

  method ComputeChecksum(shortName: seq<Byte>) returns (chksum: Byte)
    ensures chksum == LfnChecksum(shortName)
  {
    chksum := 0;
    for i := 0 to |shortName|
      invariant chksum == LfnChecksum(shortName[..i])
    {
      assert shortName[..i + 1][..i] == shortName[..i];
      chksum := ChecksumStep(chksum, shortName[i]);
    }
    assert shortName[..|shortName|] == shortName;
  }

  // --- What a sequence of LFN entries means ---

  predicate IsLast(l: LfnEntry) { l.order / 0x40 % 2 == 1 }
  function IndexOf(l: LfnEntry): nat { l.order % 0x20 }

  function Part(l: LfnEntry): (p: seq<U16>)
    ensures LfnShape(l) ==> |p| == 13
  {
    l.name0 + l.name1 + l.name2
  }

  predicate Shapes(es: seq<LfnEntry>) { forall i :: 0 <= i < |es| ==> LfnShape(es[i]) }

  // A run counts down from an entry flagged last, all with one checksum; it may not have reached 1 yet.
  predicate OpenRun(r: seq<LfnEntry>) {
    && |r| > 0 && IsLast(r[0]) && 1 <= IndexOf(r[0]) <= MAX_ENTRIES && |r| <= IndexOf(r[0])
    && forall j :: 1 <= j < |r| ==>
         !IsLast(r[j]) && IndexOf(r[j]) == IndexOf(r[0]) - j && r[j].checksum == r[0].checksum
  }

  predicate CompleteRun(r: seq<LfnEntry>) { OpenRun(r) && |r| == IndexOf(r[0]) }

  // The parts of a run, read from its end.
  function Text(r: seq<LfnEntry>): (t: seq<U16>)
    ensures Shapes(r) ==> |t| == 13 * |r|
  {
    if r == [] then [] else Text(r[1..]) + Part(r[0])
  }

  predicate IsPadding(u: U16) { u == 0 || u == 0xFFFF }

  // A name without the padding behind its last real unit.
  function Strip(us: seq<U16>): seq<U16> {
    if us == [] || !IsPadding(us[|us| - 1]) then us else Strip(us[..|us| - 1])
  }

  lemma {:induction false} StripIsLongestUnpadded(us: seq<U16>)
    ensures Strip(us) <= us
    ensures Strip(us) == [] || !IsPadding(Strip(us)[|Strip(us)| - 1])
    ensures forall i :: |Strip(us)| <= i < |us| ==> IsPadding(us[i])
  {
    if us != [] && IsPadding(us[|us| - 1]) {
      StripIsLongestUnpadded(us[..|us| - 1]);
    }
  }

  lemma {:induction false} StripDropsPadding(us: seq<U16>, pad: seq<U16>)
    requires forall i :: 0 <= i < |pad| ==> IsPadding(pad[i])
    ensures Strip(us + pad) == Strip(us)
  {
    if pad == [] {
      assert us + pad == us;
    } else {
      assert (us + pad)[..|us + pad| - 1] == us + pad[..|pad| - 1];
      StripDropsPadding(us, pad[..|pad| - 1]);
    }
  }

  lemma StripIdentityIff(us: seq<U16>)
    ensures Strip(us) == us <==> us == [] || !IsPadding(us[|us| - 1])
  {
    StripIsLongestUnpadded(us);
  }

  // --- LongNameBuilder ---

  datatype Builder = Builder(buf: seq<U16>, chksum: Byte, index: nat)

  const NEW_BUILDER := Builder([], 0, 0)

  // The buffer always holds every index the builder may still write.
  predicate BuilderOk(b: Builder) {
    if b.index == 0 then b.buf == [] else b.index <= MAX_ENTRIES && 13 * b.index <= |b.buf|
  }

  function Resize(buf: seq<U16>, n: nat): (r: seq<U16>)
    ensures |r| == n
  {
    if n <= |buf| then buf[..n] else buf + seq(n - |buf|, _ => 0)
  }

  function Place(buf: seq<U16>, pos: nat, part: seq<U16>): (r: seq<U16>)
    requires pos + |part| <= |buf|
    ensures |r| == |buf| && r[pos..pos + |part|] == part && r[pos + |part|..] == buf[pos + |part|..]
  {
    buf[..pos] + part + buf[pos + |part|..]
  }

  function Process(b: Builder, l: LfnEntry): (b': Builder)
    requires BuilderOk(b) && LfnShape(l)
    ensures BuilderOk(b')
  {
    var index := IndexOf(l);
    if index == 0 || index > MAX_ENTRIES then NEW_BUILDER
    else if IsLast(l) then
      Builder(Place(Resize(b.buf, index * 13), 13 * (index - 1), Part(l)), l.checksum, index)
    else if b.index == 0 || index != b.index - 1 || l.checksum != b.chksum then NEW_BUILDER
    else Builder(Place(b.buf, 13 * (index - 1), Part(l)), b.chksum, index)
  }

  function ProcessAll(es: seq<LfnEntry>): (b: Builder)
    requires Shapes(es)
    ensures BuilderOk(b)
  {
    if es == [] then NEW_BUILDER else Process(ProcessAll(es[..|es| - 1]), es[|es| - 1])
  }

  function Validated(b: Builder, shortName: seq<Byte>): Builder {
    if b.index != 0 && LfnChecksum(shortName) != b.chksum then NEW_BUILDER else b
  }

  function FinishedName(b: Builder): seq<U16> { if b.index == 1 then Strip(b.buf) else [] }

  class LongNameBuilder {
    var buf: seq<U16>
    var chksum: Byte
    var index: nat

    // The checksum of a run that was dropped means nothing any more.
    function State(): Builder reads this { Builder(buf, if index == 0 then 0 else chksum, index) }
    predicate Valid() reads this { BuilderOk(State()) }

    constructor ()
      ensures State() == NEW_BUILDER
    {
      buf, chksum, index := [], 0, 0;
    }

    method Clear()
      modifies this
      ensures State() == NEW_BUILDER
    {
      buf := [];
      index := 0;
    }

    // The slice assignments below are in bounds for every entry the disk may hold.
    method ProcessEntry(data: LfnEntry)
      requires Valid() && LfnShape(data)
      modifies this
      ensures Valid() && State() == Process(old(State()), data)
    {
      var isLast := data.order / 0x40 % 2 == 1;
      var i: nat := data.order % 0x20;
      if i == 0 || i > MAX_ENTRIES {
        Clear();
        return;
      }
      if isLast {
        index := i;
        chksum := data.checksum;
        buf := Resize(buf, i * 13);
      } else if index == 0 || i != index - 1 || data.checksum != chksum {
        Clear();
        return;
      } else {
        index := index - 1;
      }
      var pos := 13 * (i - 1);
      buf := buf[..pos] + (data.name0 + data.name1 + data.name2) + buf[pos + 13..];
    }

    method ValidateChksum(shortName: seq<Byte>)
      requires Valid()
      modifies this
      ensures Valid() && State() == Validated(old(State()), shortName)
    {
      if index == 0 { return; }
      var sum := ComputeChecksum(shortName);
      if sum != chksum {
        Clear();
      }
    }

    method Truncate()
      modifies this`buf
      ensures buf == Strip(old(buf))
    {
      var n := |buf|;
      assert buf[..n] == buf;
      while n > 0 && IsPadding(buf[n - 1])
        invariant 0 <= n <= |buf| && Strip(buf) == Strip(buf[..n])
      {
        assert buf[..n][..n - 1] == buf[..n - 1];
        n := n - 1;
      }
      assert n > 0 ==> buf[..n][|buf[..n]| - 1] == buf[n - 1];
      buf := Resize(buf, n);
    }

    method IntoBuf() returns (name: seq<U16>)
      requires Valid()
      modifies this
      ensures name == FinishedName(old(State()))
    {
      if index == 1 {
        Truncate();
      } else if index != 0 {
        Clear();
      }
      name := buf;
    }
  }

  // The run, if any, that the builder is following after the entries es: it starts at entry n.
  predicate Follows(b: Builder, es: seq<LfnEntry>, n: nat)
    requires BuilderOk(b)
  {
    if b.index == 0 then forall j :: 0 <= j < |es| ==> !OpenRun(es[j..])
    else
      && n < |es| && OpenRun(es[n..])
      && b.index == IndexOf(es[n]) - (|es| - n - 1) && b.chksum == es[n].checksum
      && |b.buf| == 13 * IndexOf(es[n]) && b.buf[13 * (b.index - 1)..] == Text(es[n..])
  }

  lemma OpenRunSnoc(r: seq<LfnEntry>, e: LfnEntry)
    requires r != []
    ensures OpenRun(r + [e]) <==>
              && OpenRun(r) && |r| < IndexOf(r[0]) && !IsLast(e)
              && IndexOf(e) == IndexOf(r[0]) - |r| && e.checksum == r[0].checksum
  {
    var q := r + [e];
    assert forall j :: 0 <= j < |r| ==> q[j] == r[j];
    if OpenRun(q) {
      assert q[|r|] == e;
    }
  }

  lemma Regroup(a: seq<U16>, b: seq<U16>, c: seq<U16>)
    ensures a + b + c == a + (b + c)
  {
  }

  lemma {:induction false} TextSnoc(r: seq<LfnEntry>, e: LfnEntry)
    ensures Text(r + [e]) == Part(e) + Text(r)
  {
    if r == [] {
      assert Text([e]) == Text([]) + Part(e);
    } else {
      calc {
        Text(r + [e]);
        Text((r + [e])[1..]) + Part((r + [e])[0]);
        { assert (r + [e])[1..] == r[1..] + [e]; }
        Text(r[1..] + [e]) + Part(r[0]);
        { TextSnoc(r[1..], e); }
        Part(e) + Text(r[1..]) + Part(r[0]);
        { Regroup(Part(e), Text(r[1..]), Part(r[0])); }
        Part(e) + (Text(r[1..]) + Part(r[0]));
        Part(e) + Text(r);
      }
    }
  }

  lemma OpenRunsAfter(es: seq<LfnEntry>, e: LfnEntry, j: nat)
    requires j < |es|
    ensures (es + [e])[j..] == es[j..] + [e]
  {
  }

  // An entry flagged last starts a new run and ends every other.
  lemma LastStartsRun(b: Builder, es: seq<LfnEntry>, e: LfnEntry)
    requires LfnShape(e) && BuilderOk(b) && IsLast(e) && 1 <= IndexOf(e) <= MAX_ENTRIES
    ensures Follows(Process(b, e), es + [e], |es|)
  {
    var b' := Process(b, e);
    assert (es + [e])[|es|..] == [e];
    TextOfOne(e);
    var pos := 13 * (b'.index - 1);
    assert b'.buf[pos..] == b'.buf[pos..pos + 13];
  }

  lemma TextOfOne(e: LfnEntry)
    ensures Text([e]) == Part(e)
  {
    TextSnoc([], e);
    assert [] + [e] == [e] && Part(e) + [] == Part(e);
  }

  lemma NextContinuesRun(b: Builder, es: seq<LfnEntry>, n: nat, e: LfnEntry)
    requires LfnShape(e) && BuilderOk(b) && Follows(b, es, n)
    requires b.index > 1 && !IsLast(e) && IndexOf(e) == b.index - 1 && e.checksum == b.chksum
    ensures Follows(Process(b, e), es + [e], n)
  {
    var b' := Process(b, e);
    OpenRunsAfter(es, e, n);
    OpenRunSnoc(es[n..], e);
    TextSnoc(es[n..], e);
    var pos := 13 * (b'.index - 1);
    assert b'.buf[pos..] == b'.buf[pos..pos + 13] + b'.buf[pos + 13..];
  }

  lemma OtherBreaksRun(b: Builder, es: seq<LfnEntry>, n: nat, e: LfnEntry)
    requires LfnShape(e) && BuilderOk(b) && Follows(b, es, n)
    requires forall m: nat :: m < |es| && OpenRun(es[m..]) ==> b.index != 0 && m == n
    requires Process(b, e).index == 0
    ensures forall j :: 0 <= j < |es + [e]| ==> !OpenRun((es + [e])[j..])
  {
    forall j | 0 <= j < |es + [e]|
      ensures !OpenRun((es + [e])[j..])
    {
      if j < |es| {
        OpenRunsAfter(es, e, j);
        OpenRunSnoc(es[j..], e);
      } else {
        assert (es + [e])[j..] == [e];
      }
    }
  }

  lemma NoLaterOpenRun(es: seq<LfnEntry>, n: nat, m: nat)
    requires n < m < |es| && OpenRun(es[n..])
    ensures !OpenRun(es[m..])
  {
    assert es[m..][0] == es[n..][m - n];
    assert !IsLast(es[n..][m - n]);
  }

  lemma OneOpenRun(es: seq<LfnEntry>, n: nat, m: nat)
    requires n < |es| && m < |es| && OpenRun(es[n..]) && OpenRun(es[m..])
    ensures n == m
  {
    if n < m { NoLaterOpenRun(es, n, m); }
    if m < n { NoLaterOpenRun(es, m, n); }
  }

  // After any entries at all, the builder follows the one run they end in, or none.
  lemma {:induction false} BuilderFollows(es: seq<LfnEntry>) returns (n: nat)
    requires Shapes(es)
    ensures Follows(ProcessAll(es), es, n)
  {
    n := 0;
    if es != [] {
      var es0, e := es[..|es| - 1], es[|es| - 1];
      assert es == es0 + [e];
      var n0 := BuilderFollows(es0);
      var b := ProcessAll(es0);
      forall m: nat | m < |es0| && OpenRun(es0[m..])
        ensures b.index != 0 && m == n0
      {
        if b.index != 0 { OneOpenRun(es0, n0, m); }
      }
      if Process(b, e).index == 0 {
        OtherBreaksRun(b, es0, n0, e);
      } else if IsLast(e) {
        n := |es0|;
        LastStartsRun(b, es0, e);
      } else {
        n := n0;
        NextContinuesRun(b, es0, n0, e);
      }
    }
  }

  // What read_dir_entry takes as the long name of the short entry that follows the entries es.
  function ReadName(es: seq<LfnEntry>, shortName: seq<Byte>): seq<U16>
    requires Shapes(es)
  {
    FinishedName(Validated(ProcessAll(es), shortName))
  }

  // The entries from n on are a complete run with the short name's checksum.
  predicate NamedBy(es: seq<LfnEntry>, n: nat, shortName: seq<Byte>) {
    n < |es| && CompleteRun(es[n..]) && es[n].checksum == LfnChecksum(shortName)
  }

  // However corrupted the entries: the long name is the text of the complete run they end in, whatever
  // came before it, and empty when they do not end in one.
  lemma ReadNameMeaning(es: seq<LfnEntry>, shortName: seq<Byte>)
    requires Shapes(es)
    ensures forall n: nat :: NamedBy(es, n, shortName) ==> ReadName(es, shortName) == Strip(Text(es[n..]))
    ensures (forall n: nat :: !NamedBy(es, n, shortName)) ==> ReadName(es, shortName) == []
  {
    var b := ProcessAll(es);
    var k := BuilderFollows(es);
    if b.index == 1 {
      assert b.buf[0..] == b.buf;
    }
    forall n: nat | NamedBy(es, n, shortName)
      ensures ReadName(es, shortName) == Strip(Text(es[n..]))
    {
      if b.index != 0 { OneOpenRun(es, k, n); }
    }
    if forall n: nat :: !NamedBy(es, n, shortName) {
      assert !NamedBy(es, k, shortName);
    }
  }

  // --- LfnEntriesGenerator ---

  function EntryCount(name: seq<U16>): nat { (|name| + 12) / 13 }

  // Chunk k of the name, terminated and padded if it is short.
  function PaddedChunk(name: seq<U16>, k: nat): (p: seq<U16>)
    requires k < EntryCount(name)
    ensures |p| == 13
  {
    if 13 * k + 13 <= |name| then name[13 * k..13 * k + 13]
    else name[13 * k..] + [0] + seq(12 - (|name| - 13 * k), _ => 0xFFFF)
  }

  // order |= LFN_ENTRY_LAST_FLAG on the first entry; the index is truncated to a byte
  function OrderOf(num: nat, i: nat): Byte
    requires i < num
  {
    var low := (num - i) % 0x100;
    if i == 0 && low / 0x40 % 2 == 0 then low + 0x40 else low
  }

  function LfnOf(order: Byte, checksum: Byte, part: seq<U16>): LfnEntry
    requires |part| == 13
  {
    LfnEntry(order, part[..5], LFN_ATTRS, 0, checksum, part[5..11], 0, part[11..])
  }

  function GeneratedEntry(name: seq<U16>, checksum: Byte, i: nat): (l: LfnEntry)
    requires i < EntryCount(name)
    ensures LfnShape(l)
  {
    LfnOf(OrderOf(EntryCount(name), i), checksum, PaddedChunk(name, EntryCount(name) - 1 - i))
  }

  // All the entries of a name, in the order in which they are written.
  function Generated(name: seq<U16>, checksum: Byte): (es: seq<LfnEntry>)
    ensures |es| == EntryCount(name) && Shapes(es)
  {
    seq(EntryCount(name), i requires 0 <= i < EntryCount(name) => GeneratedEntry(name, checksum, i))
  }

  class LfnEntriesGenerator {
    const name: seq<U16>
    const checksum: Byte
    const num: nat
    var index: nat
    var chunksLeft: nat  // the reverse chunk iterator: chunks 0 .. chunksLeft remain
    var ended: bool

    predicate Valid() reads this {
      && num == EntryCount(name) && index + chunksLeft == num
      && (ended ==> chunksLeft == 0)
    }

    constructor (name: seq<U16>, checksum: Byte)
      ensures Valid() && this.name == name && this.checksum == checksum && index == 0
    {
      this.name, this.checksum, index, ended := name, checksum, 0, false;
      num := (|name| + 13 - 1) / 13;
      chunksLeft := (|name| + 13 - 1) / 13;
    }

    // ExactSizeIterator::len
    function Len(): (n: nat)
      requires Valid()
      reads this
      ensures n == EntryCount(name) - index
    {
      chunksLeft
    }

    method Next() returns (more: bool, entry: LfnEntry)
      requires Valid()
      modifies this
      ensures Valid() && (more <==> old(index) < EntryCount(name))
      ensures more ==> entry == Generated(name, checksum)[old(index)] && index == old(index) + 1
      ensures !more ==> index == old(index)
    {
      entry := LfnEntry(0, [], 0, 0, 0, [], 0, []);
      if ended { return false, entry; }
      if chunksLeft == 0 {
        ended := true;
        return false, entry;
      }
      chunksLeft := chunksLeft - 1;
      var lfnPart := PadChunk(chunksLeft);
      var order := Order();
      entry := LfnEntry(order, lfnPart[..5], LFN_ATTRS, 0, checksum, lfnPart[5..11], 0, lfnPart[11..]);
      assert entry == GeneratedEntry(name, checksum, index);
      index := index + 1;
      more := true;
    }

    method Order() returns (order: Byte)
      requires num == EntryCount(name) && index < num
      ensures order == OrderOf(num, index)
    {
      var lfnIndex := num - index;
      order := lfnIndex % 0x100;
      if index == 0 && order / 0x40 % 2 == 0 {
        order := order + 0x40;
      }
    }

    method PadChunk(k: nat) returns (lfnPart: seq<U16>)
      requires k < EntryCount(name)
      ensures lfnPart == PaddedChunk(name, k)
    {
      var namePart := name[13 * k..if 13 * k + 13 <= |name| then 13 * k + 13 else |name|];
      lfnPart := namePart + seq(13 - |namePart|, _ => 0xFFFF);
      if |namePart| < 13 {
        lfnPart := lfnPart[|namePart| := 0];
      }
    }
  }

  // The name with the terminator and padding of its last chunk.
  function Padded(name: seq<U16>): seq<U16> {
    if |name| % 13 == 0 then name else name + [0] + seq(12 - |name| % 13, _ => 0xFFFF)
  }

  lemma OrderBits(num: nat, i: nat)
    requires i < num <= MAX_ENTRIES
    ensures OrderOf(num, i) % 0x20 == num - i
    ensures OrderOf(num, i) / 0x40 % 2 == 1 <==> i == 0
    ensures OrderOf(num, i) != 0 && OrderOf(num, i) != DELETED_FLAG
  {
  }

  lemma GeneratedFields(name: seq<U16>, checksum: Byte, i: nat)
    requires i < EntryCount(name)
    ensures var l := Generated(name, checksum)[i];
            && l.order == OrderOf(EntryCount(name), i) && l.checksum == checksum && l.attrs == LFN_ATTRS
            && Part(l) == PaddedChunk(name, EntryCount(name) - 1 - i)
  {
    var p := PaddedChunk(name, EntryCount(name) - 1 - i);
    assert p[..5] + p[5..11] + p[11..] == p;
  }

  lemma PaddedChunkAt(name: seq<U16>, k: nat)
    requires k < EntryCount(name)
    ensures |Padded(name)| == 13 * EntryCount(name)
    ensures PaddedChunk(name, k) == Padded(name)[13 * k..13 * k + 13]
  {
    if 13 * k + 13 > |name| {
      assert |name| % 13 == |name| - 13 * k;
    }
  }

  lemma TextFrom(es: seq<LfnEntry>, j: nat)
    requires j < |es|
    ensures Text(es[j..]) == Text(es[j + 1..]) + Part(es[j])
  {
    assert es[j..][1..] == es[j + 1..] && es[j..][0] == es[j];
  }

  lemma JoinChunk(p: seq<U16>, k: nat)
    requires 13 * k + 13 <= |p|
    ensures p[..13 * k] + p[13 * k..13 * k + 13] == p[..13 * (k + 1)]
  {
  }

  lemma {:induction false} GeneratedText(name: seq<U16>, checksum: Byte, j: nat)
    requires j <= EntryCount(name)
    ensures |Padded(name)| == 13 * EntryCount(name)
    ensures Text(Generated(name, checksum)[j..]) == Padded(name)[..13 * (EntryCount(name) - j)]
    decreases EntryCount(name) - j
  {
    var num, es := EntryCount(name), Generated(name, checksum);
    if j < num {
      GeneratedText(name, checksum, j + 1);
      var k := num - 1 - j;
      GeneratedFields(name, checksum, j);
      PaddedChunkAt(name, k);
      TextFrom(es, j);
      JoinChunk(Padded(name), k);
    }
  }

  lemma GeneratedIsCompleteRun(name: seq<U16>, checksum: Byte)
    requires 1 <= EntryCount(name) <= MAX_ENTRIES
    ensures CompleteRun(Generated(name, checksum))
  {
    var es := Generated(name, checksum);
    forall i | 0 <= i < |es|
      ensures IndexOf(es[i]) == |es| - i && (IsLast(es[i]) <==> i == 0) && es[i].checksum == checksum
    {
      OrderBits(|es|, i);
      GeneratedFields(name, checksum, i);
    }
  }

  lemma StripPadded(name: seq<U16>)
    ensures Strip(Padded(name)) == Strip(name)
  {
    if |name| % 13 != 0 {
      var pad := [0] + seq(12 - |name| % 13, _ => 0xFFFF);
      assert Padded(name) == name + pad;
      StripDropsPadding(name, pad);
    }
  }

  // A generated name reads back without the padding units at its own end, whatever entries came before.
  lemma NameRoundTrip(before: seq<LfnEntry>, name: seq<U16>, shortName: seq<Byte>)
    requires Shapes(before) && 1 <= |name| <= 260
    ensures Shapes(before + Generated(name, LfnChecksum(shortName)))
    ensures ReadName(before + Generated(name, LfnChecksum(shortName)), shortName) == Strip(name)
  {
    var run := Generated(name, LfnChecksum(shortName));
    var es := before + run;
    assert es[|before|..] == run;
    GeneratedIsCompleteRun(name, LfnChecksum(shortName));
    assert NamedBy(es, |before|, shortName);
    ReadNameMeaning(es, shortName);
    GeneratedText(name, LfnChecksum(shortName), 0);
    assert run[0..] == run && Padded(name)[..|Padded(name)|] == Padded(name);
    StripPadded(name);
  }

  lemma NameSurvivesIff(before: seq<LfnEntry>, name: seq<U16>, shortName: seq<Byte>)
    requires Shapes(before) && 1 <= |name| <= 260
    ensures Shapes(before + Generated(name, LfnChecksum(shortName)))
    ensures ReadName(before + Generated(name, LfnChecksum(shortName)), shortName) == name <==> !IsPadding(name[|name| - 1])
  {
    NameRoundTrip(before, name, shortName);
    StripIdentityIff(name);
  }

  lemma LfnSurvivesDisk(l: LfnEntry)
    requires LfnShape(l) && l.attrs == LFN_ATTRS && l.order != 0 && l.order != DELETED_FLAG
    ensures var e := Lfn(l); |Encode(e)| == 32 && Decode(Encode(e)) == e && !IsEnd(e) && !IsDeleted(e)
  {
    EntryRoundTrip(Lfn(l));
  }

  // Nothing is lost on disk either: every generated entry decodes to itself, and is neither an end marker
  // nor deleted.
  lemma GeneratedSurvivesDisk(name: seq<U16>, checksum: Byte, i: nat)
    requires i < EntryCount(name) <= MAX_ENTRIES
    ensures var e := Lfn(Generated(name, checksum)[i]);
            |Encode(e)| == 32 && Decode(Encode(e)) == e && !IsEnd(e) && !IsDeleted(e)
  {
    GeneratedFields(name, checksum, i);
    OrderBits(EntryCount(name), i);
    LfnSurvivesDisk(Generated(name, checksum)[i]);
  }
}
