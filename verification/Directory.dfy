// A directory as an array of 32-byte slots: the iterator, the slot allocator, write_entry and remove of
// modified_dependencies/rust-fatfs/src/dir.rs.
module Directories {
  import opened MachineInts
  import opened DirEntries
  import opened LongNames

  type Slot = s: seq<Byte> | |s| == 32 witness seq(32, _ => 0)
  type SlotEntry = e: Entry | Shape(e) witness File(DefaultFile())

  // --- Iteration over the decoded slots ---

  predicate Live(e: SlotEntry) { !IsDeleted(e) && !IsEnd(e) }

  // The first end marker; reading behind the last slot yields one.
  function EndFrom(es: seq<SlotEntry>, i: nat): (n: nat)
    requires i <= |es|
    ensures i <= n <= |es| && (n < |es| ==> IsEnd(es[n])) && forall j :: i <= j < n ==> !IsEnd(es[j])
    decreases |es| - i
  {
    if i == |es| || IsEnd(es[i]) then i else EndFrom(es, i + 1)
  }

  function EndOf(es: seq<SlotEntry>): nat { EndFrom(es, 0) }

  lemma EndIsUnique(es: seq<SlotEntry>, n: nat)
    requires n <= |es| && (n < |es| ==> IsEnd(es[n])) && forall j :: 0 <= j < n ==> !IsEnd(es[j])
    ensures EndOf(es) == n
  {
  }

  // A directory entry as the iterator returns it: the short entry, its long name, and its slots.
  datatype Item = Item(data: FileEntry, lfn: seq<U16>, begin: nat, end: nat)

  predicate IsVolume(f: FileEntry) { f.attrs / 8 % 2 == 1 }

  predicate Skipped(e: SlotEntry) { IsDeleted(e) || (e.File? && IsVolume(e.file)) }

  // The items met so far, and the LFN entries pending since slot `begin`.
  datatype Scan = Scan(items: seq<Item>, begin: nat, pending: seq<LfnEntry>)

  predicate ScanShape(s: Scan) { Shapes(s.pending) }

  function ScanStep(s: Scan, e: SlotEntry, n: nat): (t: Scan)
    requires ScanShape(s)
    ensures ScanShape(t)
  {
    if Skipped(e) then Scan(s.items, n, [])
    else
      match e
      case File(f) => Scan(s.items + [Item(f, ReadName(s.pending, f.name), s.begin, n)], n, [])
      case Lfn(l) => Scan(s.items, s.begin, s.pending + [l])
  }

  function ScanTo(es: seq<SlotEntry>, n: nat): (s: Scan)
    requires n <= |es|
    ensures ScanShape(s)
  {
    if n == 0 then Scan([], 0, []) else ScanStep(ScanTo(es, n - 1), es[n - 1], n)
  }

  // Everything the directory iterator yields.
  function Items(es: seq<SlotEntry>): seq<Item> { ScanTo(es, EndOf(es)).items }

  lemma {:induction false} ScanDependsOnPrefix(es: seq<SlotEntry>, es': seq<SlotEntry>, n: nat)
    requires n <= |es| && n <= |es'| && es'[..n] == es[..n]
    ensures ScanTo(es', n) == ScanTo(es, n)
  {
    if n > 0 {
      assert es'[n - 1] == es'[..n][n - 1] == es[..n][n - 1] == es[n - 1];
      assert es'[..n - 1] == es'[..n][..n - 1] == es[..n][..n - 1] == es[..n - 1];
      ScanDependsOnPrefix(es, es', n - 1);
    }
  }

  predicate SamePlace(s: Scan, t: Scan) { s.begin == t.begin && s.pending == t.pending }

  // What one more slot adds to the items depends on the position only.
  lemma StepAlike(s: Scan, t: Scan, e: SlotEntry, n: nat) returns (more: seq<Item>)
    requires ScanShape(s) && ScanShape(t) && SamePlace(s, t)
    ensures SamePlace(ScanStep(s, e, n), ScanStep(t, e, n))
    ensures ScanStep(s, e, n).items == s.items + more && ScanStep(t, e, n).items == t.items + more
  {
    more := [];
    if !Skipped(e) && e.File? {
      more := [Item(e.file, ReadName(s.pending, e.file.name), s.begin, n)];
    }
  }

  lemma Regroup<A>(a: seq<A>, b: seq<A>, c: seq<A>)
    ensures (a + b) + c == a + (b + c)
  {
  }

  // Two scans that are in the same position go on alike.
  lemma {:induction false} ScanGoesOnAlike(es: seq<SlotEntry>, es': seq<SlotEntry>, n: nat, m: nat) returns (more: seq<Item>)
    requires n <= m <= |es| && m <= |es'| && forall i :: n <= i < m ==> es'[i] == es[i]
    requires SamePlace(ScanTo(es, n), ScanTo(es', n))
    ensures SamePlace(ScanTo(es, m), ScanTo(es', m))
    ensures ScanTo(es, m).items == ScanTo(es, n).items + more
    ensures ScanTo(es', m).items == ScanTo(es', n).items + more
    decreases m
  {
    more := [];
    if n < m {
      var more0 := ScanGoesOnAlike(es, es', n, m - 1);
      var more1 := StepAlike(ScanTo(es, m - 1), ScanTo(es', m - 1), es[m - 1], m);
      more := more0 + more1;
      Regroup(ScanTo(es, n).items, more0, more1);
      Regroup(ScanTo(es', n).items, more0, more1);
    }
  }

  // Deleted slots yield nothing and reset the scan.
  lemma {:induction false} ScanOverDeleted(es: seq<SlotEntry>, p: nat, n: nat)
    requires p < n <= |es| && forall i :: p <= i < n ==> IsDeleted(es[i])
    ensures ScanTo(es, n) == Scan(ScanTo(es, p).items, n, [])
  {
    if p < n - 1 {
      ScanOverDeleted(es, p, n - 1);
    }
  }

  // --- Writing an entry ---

  // Everything at and after the end marker is an end marker too.
  predicate CleanTail(es: seq<SlotEntry>) { forall i :: EndOf(es) <= i < |es| ==> IsEnd(es[i]) }

  // num slots from p on can be written without touching a slot in use.
  predicate IsPlace(es: seq<SlotEntry>, p: nat, num: nat) {
    p <= EndOf(es) && forall i :: p <= i < p + num && i < EndOf(es) ==> IsDeleted(es[i])
  }

  function ZeroSlot(): (s: Slot)
    ensures s[0] == 0
  {
    seq(32, _ => 0)
  }

  function ZeroSlots(n: nat): (s: seq<Slot>)
    ensures |s| == n
  {
    if n == 0 then [] else [ZeroSlot()] + ZeroSlots(n - 1)
  }

  function Decoded(slots: seq<Slot>): (es: seq<SlotEntry>)
    ensures |es| == |slots|
  {
    if slots == [] then [] else [Decode(slots[0])] + Decoded(slots[1..])
  }

  lemma {:induction false} ZeroSlotsEnd(n: nat, i: nat)
    requires i < n
    ensures IsEnd(Decoded(ZeroSlots(n))[i])
    decreases n
  {
    assert ZeroSlots(n)[1..] == ZeroSlots(n - 1);
    if i > 0 { ZeroSlotsEnd(n - 1, i - 1); }
  }

  // Writing one slot at a cursor; at the end of the last cluster a cluster of c zeroed slots is added first.
  function PutOne(es: seq<SlotEntry>, q: nat, e: SlotEntry, c: nat): (es': seq<SlotEntry>)
    requires q <= |es| && c > 0
    ensures |es| <= |es'| && q < |es'|
  {
    if q < |es| then es[q := e] else (es + Decoded(ZeroSlots(c)))[q := e]
  }

  function PutRun(es: seq<SlotEntry>, p: nat, run: seq<SlotEntry>, c: nat): (es': seq<SlotEntry>)
    requires p <= |es| && c > 0
    ensures |es| <= |es'| && p + |run| <= |es'|
  {
    if run == [] then es
    else PutOne(PutRun(es, p, run[..|run| - 1], c), p + |run| - 1, run[|run| - 1], c)
  }

  // es' is es with `run` written at p, and zero slots added at the end as needed.
  ghost predicate Wrote(es: seq<SlotEntry>, es': seq<SlotEntry>, p: nat, run: seq<SlotEntry>) {
    && |es| <= |es'| && p + |run| <= |es'| && es'[p..p + |run|] == run
    && (forall i :: 0 <= i < |es| && !(p <= i < p + |run|) ==> es'[i] == es[i])
    && (forall i :: |es| <= i < |es'| && !(p <= i < p + |run|) ==> IsEnd(es'[i]))
  }

  lemma PutOneWrites(es: seq<SlotEntry>, q: nat, e: SlotEntry, c: nat)
    requires q <= |es| && c > 0
    ensures var es' := PutOne(es, q, e, c);
            && es'[q] == e && es'[..q] == es[..q]
            && (forall i :: 0 <= i < |es| && i != q ==> es'[i] == es[i])
            && (forall i :: |es| <= i < |es'| && i != q ==> IsEnd(es'[i]))
  {
    forall i | |es| <= i < |PutOne(es, q, e, c)| && i != q
      ensures IsEnd(PutOne(es, q, e, c)[i])
    {
      ZeroSlotsEnd(c, i - |es|);
    }
  }

  lemma WroteMore(es: seq<SlotEntry>, es1: seq<SlotEntry>, p: nat, run: seq<SlotEntry>, e: SlotEntry, c: nat)
    requires Wrote(es, es1, p, run) && c > 0
    ensures Wrote(es, PutOne(es1, p + |run|, e, c), p, run + [e])
  {
    var n, es2 := p + |run|, PutOne(es1, p + |run|, e, c);
    PutOneWrites(es1, n, e, c);
    assert es2[p..n] == es2[..n][p..] == es1[..n][p..] == run;
    assert es2[p..n + 1] == es2[p..n] + [es2[n]];
  }

  lemma {:induction false} PutRunWrites(es: seq<SlotEntry>, p: nat, run: seq<SlotEntry>, c: nat)
    requires p <= |es| && c > 0
    ensures Wrote(es, PutRun(es, p, run, c), p, run)
  {
    if run != [] {
      var init, last := run[..|run| - 1], run[|run| - 1];
      PutRunWrites(es, p, init, c);
      WroteMore(es, PutRun(es, p, init, c), p, init, last, c);
      assert run == init + [last];
    }
  }

  function AsSlots(ls: seq<LfnEntry>): (es: seq<SlotEntry>)
    requires Shapes(ls)
    ensures |es| == |ls| && forall i :: 0 <= i < |ls| ==> es[i] == Lfn(ls[i])
  {
    if ls == [] then [] else [Lfn(ls[0])] + AsSlots(ls[1..])
  }

  // The LFN entries of the name, then the short entry.
  function NewRun(name: seq<U16>, f: FileEntry): (run: seq<SlotEntry>)
    requires FileShape(f)
    ensures |run| == EntryCount(name) + 1
  {
    AsSlots(Generated(name, LfnChecksum(f.name))) + [File(f)]
  }

  // A short entry that the iterator will show: not an end marker, not deleted, no volume label, no LFN.
  predicate Showable(f: FileEntry) {
    FileShape(f) && f.name[0] != 0 && f.name[0] != DELETED_FLAG && !IsVolume(f)
  }

  lemma LfnStep(s: Scan, l: LfnEntry, n: nat)
    requires ScanShape(s) && LfnShape(l) && l.order != DELETED_FLAG
    ensures ScanStep(s, Lfn(l), n) == Scan(s.items, s.begin, s.pending + [l])
  {
  }

  predicate NoneDeleted(ls: seq<LfnEntry>) {
    ls == [] || (ls[|ls| - 1].order != DELETED_FLAG && NoneDeleted(ls[..|ls| - 1]))
  }

  lemma {:induction false} ScanOverLfns(es: seq<SlotEntry>, p: nat, ls: seq<LfnEntry>)
    requires p + |ls| <= |es| && Shapes(ls) && NoneDeleted(ls) && forall i :: 0 <= i < |ls| ==> es[p + i] == Lfn(ls[i])
    ensures ScanTo(es, p + |ls|)
         == var s := ScanTo(es, p); Scan(s.items, s.begin, s.pending + ls)
  {
    var s := ScanTo(es, p);
    if ls == [] {
      assert s.pending + [] == s.pending;
    } else {
      var init, last := ls[..|ls| - 1], ls[|ls| - 1];
      ScanOverLfns(es, p, init);
      assert es[p + |ls| - 1] == Lfn(last);
      LfnStep(ScanTo(es, p + |init|), last, p + |ls|);
      assert ls == init + [last];
      Regroup(s.pending, init, [last]);
    }
  }

  lemma FileStep(s: Scan, f: FileEntry, n: nat)
    requires ScanShape(s) && Showable(f)
    ensures ScanStep(s, File(f), n) == Scan(s.items + [Item(f, ReadName(s.pending, f.name), s.begin, n)], n, [])
  {
  }

  lemma RunIsLive(name: seq<U16>, f: FileEntry, k: nat)
    requires Showable(f) && EntryCount(name) <= MAX_ENTRIES && k < |NewRun(name, f)|
    ensures !IsDeleted(NewRun(name, f)[k]) && !IsEnd(NewRun(name, f)[k])
  {
    if k < EntryCount(name) {
      var ls := Generated(name, LfnChecksum(f.name));
      GeneratedFields(name, LfnChecksum(f.name), k);
      OrderBits(EntryCount(name), k);
      assert NewRun(name, f)[k] == Lfn(ls[k]);
    }
  }

  // Where the new item begins: LFN entries that were pending at p become part of it.
  function NewItem(es: seq<SlotEntry>, p: nat, name: seq<U16>, f: FileEntry): Item
    requires p <= |es| && FileShape(f)
  {
    Item(f, Strip(name), ScanTo(es, p).begin, p + |NewRun(name, f)|)
  }

  lemma {:induction false} GeneratedNotDeleted(name: seq<U16>, checksum: Byte, k: nat)
    requires k <= EntryCount(name) <= MAX_ENTRIES
    ensures NoneDeleted(Generated(name, checksum)[..k])
  {
    if k > 0 {
      GeneratedNotDeleted(name, checksum, k - 1);
      GeneratedFields(name, checksum, k - 1);
      OrderBits(EntryCount(name), k - 1);
      assert Generated(name, checksum)[..k][..k - 1] == Generated(name, checksum)[..k - 1];
    }
  }

  // LFN entries and a short entry behind them scan as one item.
  lemma ScanOverNamed(es: seq<SlotEntry>, p: nat, ls: seq<LfnEntry>, f: FileEntry, n: nat, x: Item)
    requires Shapes(ls) && NoneDeleted(ls) && Showable(f) && n == p + |ls| + 1 <= |es|
    requires es[p..n] == AsSlots(ls) + [File(f)]
    requires var s := ScanTo(es, p); x == Item(f, ReadName(s.pending + ls, f.name), s.begin, n)
    ensures ScanTo(es, n) == Scan(ScanTo(es, p).items + [x], n, [])
  {
    var s := ScanTo(es, p);
    forall i | 0 <= i < |ls|
      ensures es[p + i] == Lfn(ls[i])
    {
      assert es[p + i] == es[p..n][i];
    }
    ScanOverLfns(es, p, ls);
    assert es[n - 1] == es[p..n][|ls|] == File(f);
    FileStep(ScanTo(es, n - 1), f, n);
  }

  lemma ScanOverNewRun(es: seq<SlotEntry>, p: nat, n: nat, name: seq<U16>, f: FileEntry)
    requires Showable(f) && 1 <= |name| <= 260 && p <= n <= |es| && es[p..n] == NewRun(name, f)
    ensures ScanTo(es, n) == Scan(ScanTo(es, p).items + [Item(f, Strip(name), ScanTo(es, p).begin, n)], n, [])
  {
    var s, ls := ScanTo(es, p), Generated(name, LfnChecksum(f.name));
    assert NoneDeleted(ls) by {
      GeneratedNotDeleted(name, LfnChecksum(f.name), |ls|);
      assert ls[..|ls|] == ls;
    }
    NameRoundTrip(s.pending, name, f.name);
    ScanOverNamed(es, p, ls, f, n, Item(f, Strip(name), s.begin, n));
  }

  lemma ScanOverRun(es: seq<SlotEntry>, es': seq<SlotEntry>, p: nat, n: nat, name: seq<U16>, f: FileEntry)
    requires p <= |es| && Showable(f) && 1 <= |name| <= 260 && Wrote(es, es', p, NewRun(name, f))
    requires n == p + |NewRun(name, f)|
    ensures ScanTo(es', n) == Scan(ScanTo(es, p).items + [NewItem(es, p, name, f)], n, [])
  {
    assert es'[..p] == es[..p];
    ScanDependsOnPrefix(es, es', p);
    ScanOverNewRun(es', p, n, name, f);
    assert NewItem(es, p, name, f) == Item(f, Strip(name), ScanTo(es', p).begin, n);
  }

  lemma EndAfterWrite(es: seq<SlotEntry>, es': seq<SlotEntry>, p: nat, n: nat, name: seq<U16>, f: FileEntry)
    requires Showable(f) && EntryCount(name) <= MAX_ENTRIES && Wrote(es, es', p, NewRun(name, f))
    requires n == p + |NewRun(name, f)| && CleanTail(es) && IsPlace(es, p, |NewRun(name, f)|)
    ensures EndOf(es') == if n <= EndOf(es) then EndOf(es) else n
    ensures CleanTail(es')
  {
    var run := NewRun(name, f);
    forall i | p <= i < n
      ensures !IsEnd(es'[i])
    {
      assert es'[i] == es'[p..n][i - p] == run[i - p];
      RunIsLive(name, f, i - p);
    }
    EndIsUnique(es', if n <= EndOf(es) then EndOf(es) else n);
  }

  lemma NothingAfterPlace(es: seq<SlotEntry>, p: nat, num: nat)
    requires IsPlace(es, p, num) && p + num > EndOf(es)
    ensures Items(es) == ScanTo(es, p).items
  {
    if p < EndOf(es) { ScanOverDeleted(es, p, EndOf(es)); }
  }

  lemma WriteInHole(es: seq<SlotEntry>, es': seq<SlotEntry>, p: nat, n: nat) returns (after: seq<Item>)
    requires p < n <= EndOf(es) == EndOf(es') && forall i :: p <= i < n ==> IsDeleted(es[i])
    requires forall i :: n <= i < EndOf(es) ==> es'[i] == es[i]
    requires ScanTo(es', n).begin == n && ScanTo(es', n).pending == []
    ensures Items(es) == ScanTo(es, p).items + after && Items(es') == ScanTo(es', n).items + after
  {
    ScanOverDeleted(es, p, n);
    after := ScanGoesOnAlike(es, es', n, EndOf(es));
  }

  // A run written in a free place [p, n), if it scans as one more item, adds just that item.
  lemma WriteInPlace(es: seq<SlotEntry>, es': seq<SlotEntry>, p: nat, n: nat, run: seq<SlotEntry>, item: Item)
      returns (after: seq<Item>)
    requires p < n == p + |run| && IsPlace(es, p, |run|) && Wrote(es, es', p, run)
    requires ScanTo(es', n) == Scan(ScanTo(es, p).items + [item], n, [])
    requires EndOf(es') == if n <= EndOf(es) then EndOf(es) else n
    ensures Items(es) == ScanTo(es, p).items + after
    ensures Items(es') == ScanTo(es, p).items + [item] + after
  {
    var before := ScanTo(es, p).items;
    if n <= EndOf(es) {
      after := WriteInHole(es, es', p, n);
    } else {
      after := [];
      NothingAfterPlace(es, p, |run|);
      assert before + [] == before && before + [item] + [] == before + [item];
    }
  }

  // write_entry on a directory whose slots behind the end are zero: the iterator yields what it yielded
  // before and, in one place, the new entry; and the slots behind the new end are zero again.
  lemma WriteAddsItem(es: seq<SlotEntry>, es': seq<SlotEntry>, p: nat, name: seq<U16>, f: FileEntry) returns (after: seq<Item>)
    requires Showable(f) && 1 <= |name| <= 260 && CleanTail(es)
    requires IsPlace(es, p, |NewRun(name, f)|) && Wrote(es, es', p, NewRun(name, f))
    ensures Items(es) == ScanTo(es, p).items + after
    ensures Items(es') == ScanTo(es, p).items + [NewItem(es, p, name, f)] + after
    ensures CleanTail(es')
  {
    var n := p + |NewRun(name, f)|;
    ScanOverRun(es, es', p, n, name, f);
    EndAfterWrite(es, es', p, n, name, f);
    after := WriteInPlace(es, es', p, n, NewRun(name, f), NewItem(es, p, name, f));
  }

  // --- Removing an entry ---

  // es' is es with the slots from b to e marked deleted.
  ghost predicate Removed(es: seq<SlotEntry>, es': seq<SlotEntry>, b: nat, e: nat) {
    && b <= e <= |es| == |es'|
    && (forall i :: b <= i < e ==> IsDeleted(es'[i]))
    && (forall i :: 0 <= i < |es| && !(b <= i < e) ==> es'[i] == es[i])
  }

  // Pending entries have added no item since the slot where they began.
  lemma {:induction false} PendingAddsNothing(es: seq<SlotEntry>, n: nat)
    requires n <= |es|
    ensures var s := ScanTo(es, n); s.begin <= n && ScanTo(es, s.begin) == Scan(s.items, s.begin, [])
  {
    if n > 0 {
      PendingAddsNothing(es, n - 1);
    }
  }

  // Item k of a scan takes the slots from its begin, where nothing was pending, to its end.
  predicate Spans(es: seq<SlotEntry>, items: seq<Item>, k: nat, n: nat)
    requires k < |items| && n <= |es|
  {
    && items[k].begin < items[k].end <= n
    && ScanTo(es, items[k].begin) == Scan(items[..k], items[k].begin, [])
    && ScanTo(es, items[k].end) == Scan(items[..k + 1], items[k].end, [])
  }

  lemma LastItemSpans(es: seq<SlotEntry>, n: nat)
    requires 0 < n <= |es| && !Skipped(es[n - 1]) && es[n - 1].File?
    ensures Spans(es, ScanTo(es, n).items, |ScanTo(es, n - 1).items|, n)
  {
    var s, t := ScanTo(es, n - 1), ScanTo(es, n);
    PendingAddsNothing(es, n - 1);
    assert t.items[..|s.items|] == s.items && t.items[..|s.items| + 1] == t.items;
  }

  lemma EarlierItemSpans(es: seq<SlotEntry>, items: seq<Item>, more: seq<Item>, k: nat, n: nat, m: nat)
    requires k < |items| && n <= m <= |es| && Spans(es, items, k, n)
    ensures Spans(es, items + more, k, m)
  {
    assert (items + more)[..k] == items[..k] && (items + more)[..k + 1] == items[..k + 1];
  }

  lemma {:induction false} ItemsSpan(es: seq<SlotEntry>, n: nat, k: nat)
    requires n <= |es| && k < |ScanTo(es, n).items|
    ensures Spans(es, ScanTo(es, n).items, k, n)
  {
    var s := ScanTo(es, n - 1);
    var more := StepAlike(s, s, es[n - 1], n);
    if k < |s.items| {
      ItemsSpan(es, n - 1, k);
      EarlierItemSpans(es, s.items, more, k, n - 1, n);
    } else {
      LastItemSpans(es, n);
    }
  }

  lemma EndAfterRemove(es: seq<SlotEntry>, es': seq<SlotEntry>, b: nat, e: nat)
    requires Removed(es, es', b, e) && e <= EndOf(es)
    ensures EndOf(es') == EndOf(es) && (CleanTail(es) ==> CleanTail(es'))
  {
    EndIsUnique(es', EndOf(es));
  }

  // remove takes away exactly the item whose slots it marks.
  lemma RemoveTakesItem(es: seq<SlotEntry>, es': seq<SlotEntry>, k: nat)
    requires k < |Items(es)| && Removed(es, es', Items(es)[k].begin, Items(es)[k].end)
    ensures Items(es') == Items(es)[..k] + Items(es)[k + 1..]
    ensures EndOf(es') == EndOf(es) && (CleanTail(es) ==> CleanTail(es'))
  {
    var items, b, e := Items(es), Items(es)[k].begin, Items(es)[k].end;
    ItemsSpan(es, EndOf(es), k);
    EndAfterRemove(es, es', b, e);
    assert es'[..b] == es[..b];
    ScanDependsOnPrefix(es, es', b);
    ScanOverDeleted(es', b, e);
    var after := ScanGoesOnAlike(es, es', e, EndOf(es));
    assert items == items[..k + 1] + after;
    assert after == items[k + 1..];
  }

  // Removing what was just written leaves the items as they were.
  lemma RemoveUndoesWrite(es: seq<SlotEntry>, es1: seq<SlotEntry>, es2: seq<SlotEntry>, p: nat, name: seq<U16>, f: FileEntry)
    requires Showable(f) && 1 <= |name| <= 260 && CleanTail(es)
    requires IsPlace(es, p, |NewRun(name, f)|) && Wrote(es, es1, p, NewRun(name, f))
    requires Removed(es1, es2, NewItem(es, p, name, f).begin, NewItem(es, p, name, f).end)
    ensures Items(es2) == Items(es) && CleanTail(es2)
  {
    var after := WriteAddsItem(es, es1, p, name, f);
    var k := |ScanTo(es, p).items|;
    assert Items(es1)[k] == NewItem(es, p, name, f);
    RemoveTakesItem(es1, es2, k);
    assert Items(es1)[..k] == ScanTo(es, p).items && Items(es1)[k + 1..] == after;
  }

  lemma MarkDeletedLeaves(es: seq<SlotEntry>, b: nat, e: nat)
    requires b <= e < |es|
    ensures MarkDeleted(es, b, e)[e] == es[e]
    ensures MarkDeleted(es, b, e + 1) == MarkDeleted(es, b, e)[e := SetDeleted(es[e])]
  {
    MarkDeletedRemoves(es, b, e);
  }

  // Marking the slots from b to e deleted, one after the other.
  function MarkDeleted(es: seq<SlotEntry>, b: nat, e: nat): (es': seq<SlotEntry>)
    requires b <= e <= |es|
    ensures |es'| == |es|
    decreases e
  {
    if b == e then es else MarkDeleted(es, b, e - 1)[e - 1 := SetDeleted(es[e - 1])]
  }

  lemma {:induction false} MarkDeletedRemoves(es: seq<SlotEntry>, b: nat, e: nat)
    requires b <= e <= |es|
    ensures Removed(es, MarkDeleted(es, b, e), b, e)
    decreases e
  {
    if b < e { MarkDeletedRemoves(es, b, e - 1); }
  }

  // --- Runs: a directory is a finite map from raw short names ---

  function RawOf(f: FileEntry): Raw { if |f.name| == 11 then f.name else [0, 0, 0, 0, 0, 0, 0, 0, 0, 0, 0] }

  // The slots the new entry goes to.
  ghost function PlaceFrom(es: seq<SlotEntry>, q: nat, num: nat): (p: nat)
    requires q <= EndOf(es)
    ensures q <= p <= EndOf(es)
    decreases EndOf(es) - q
  {
    if q == EndOf(es) || IsPlace(es, q, num) then q else PlaceFrom(es, q + 1, num)
  }

  ghost function FirstPlace(es: seq<SlotEntry>, num: nat): (p: nat)
    ensures p <= |es|
  {
    PlaceFrom(es, 0, num)
  }

  // The least place where num slots can be written without touching one in use.
  ghost predicate LeastPlace(es: seq<SlotEntry>, p: nat, num: nat) {
    IsPlace(es, p, num) && forall q :: 0 <= q < p ==> !IsPlace(es, q, num)
  }

  lemma {:induction false} PlaceFromIsLeast(es: seq<SlotEntry>, q: nat, num: nat)
    requires q <= EndOf(es) && forall j :: 0 <= j < q ==> !IsPlace(es, j, num)
    ensures LeastPlace(es, PlaceFrom(es, q, num), num)
    decreases EndOf(es) - q
  {
    if q < EndOf(es) && !IsPlace(es, q, num) { PlaceFromIsLeast(es, q + 1, num); }
  }

  lemma LeastPlaceIsFirst(es: seq<SlotEntry>, p: nat, num: nat)
    requires LeastPlace(es, p, num)
    ensures p == FirstPlace(es, num)
  {
    PlaceFromIsLeast(es, 0, num);
  }

  // The slots after write_entry, with clusters of c slots.
  ghost function Created(es: seq<SlotEntry>, name: seq<U16>, f: FileEntry, c: nat): seq<SlotEntry>
    requires FileShape(f) && c > 0
  {
    PutRun(es, FirstPlace(es, |NewRun(name, f)|), NewRun(name, f), c)
  }

  lemma CreateAddsItem(es: seq<SlotEntry>, name: seq<U16>, f: FileEntry, c: nat) returns (p: nat, after: seq<Item>)
    requires Showable(f) && 1 <= |name| <= 260 && CleanTail(es) && c > 0
    ensures p <= |es| && Items(es) == ScanTo(es, p).items + after
    ensures Items(Created(es, name, f, c)) == ScanTo(es, p).items + [NewItem(es, p, name, f)] + after
    ensures CleanTail(Created(es, name, f, c))
  {
    p := FirstPlace(es, |NewRun(name, f)|);
    PlaceFromIsLeast(es, 0, |NewRun(name, f)|);
    PutRunWrites(es, p, NewRun(name, f), c);
    after := WriteAddsItem(es, Created(es, name, f, c), p, name, f);
  }

  datatype Named = Named(data: FileEntry, lfn: seq<U16>)
  function NamedOf(x: Item): Named { Named(x.data, x.lfn) }

  function Keys(items: seq<Item>): (ks: seq<Raw>)
    ensures |ks| == |items|
  {
    if items == [] then [] else [RawOf(items[0].data)] + Keys(items[1..])
  }

  predicate NoRepeats(ks: seq<Raw>) { ks == [] || (ks[0] !in ks[1..] && NoRepeats(ks[1..])) }

  // The items are the entries of m, one each.
  ghost predicate Holds(items: seq<Item>, m: map<Raw, Named>) {
    && NoRepeats(Keys(items))
    && (forall r: Raw :: r in m <==> r in Keys(items))
    && (forall x: Item :: x in items ==> RawOf(x.data) in m && m[RawOf(x.data)] == NamedOf(x))
  }

  lemma {:induction false} KeysAppend(a: seq<Item>, b: seq<Item>)
    ensures Keys(a + b) == Keys(a) + Keys(b)
  {
    if a == [] {
      assert a + b == b;
    } else {
      assert (a + b)[1..] == a[1..] + b;
      KeysAppend(a[1..], b);
    }
  }

  lemma KeysAround(a: seq<Item>, x: Item, b: seq<Item>)
    ensures Keys(a + [x] + b) == Keys(a) + [RawOf(x.data)] + Keys(b) && Keys(a + b) == Keys(a) + Keys(b)
  {
    KeysAppend(a + [x], b);
    KeysAppend(a, [x]);
    KeysAppend(a, b);
  }

  lemma {:induction false} NoRepeatsAround(a: seq<Raw>, k: Raw, b: seq<Raw>)
    ensures NoRepeats(a + [k] + b) <==> NoRepeats(a + b) && k !in a && k !in b
  {
    if a == [] {
      assert a + [k] + b == [k] + b && a + b == b;
    } else {
      NoRepeatsAround(a[1..], k, b);
      assert (a + [k] + b)[1..] == a[1..] + [k] + b && (a + b)[1..] == a[1..] + b;
    }
  }

  lemma {:induction false} KeyOfItem(items: seq<Item>, x: Item)
    requires x in items
    ensures RawOf(x.data) in Keys(items)
  {
    if x != items[0] { KeyOfItem(items[1..], x); }
  }

  lemma HoldsInserted(a: seq<Item>, b: seq<Item>, x: Item, m: map<Raw, Named>)
    requires Holds(a + b, m) && RawOf(x.data) !in m
    ensures Holds(a + [x] + b, m[RawOf(x.data) := NamedOf(x)])
  {
    KeysAround(a, x, b);
    NoRepeatsAround(Keys(a), RawOf(x.data), Keys(b));
    forall y: Item | y in a + b
      ensures RawOf(y.data) != RawOf(x.data)
    {
      KeyOfItem(a + b, y);
    }
  }

  lemma HoldsRemoved(a: seq<Item>, b: seq<Item>, x: Item, m: map<Raw, Named>)
    requires Holds(a + [x] + b, m)
    ensures Holds(a + b, m - {RawOf(x.data)})
  {
    KeysAround(a, x, b);
    NoRepeatsAround(Keys(a), RawOf(x.data), Keys(b));
    forall y: Item | y in a + b
      ensures RawOf(y.data) != RawOf(x.data)
    {
      KeyOfItem(a + b, y);
    }
  }

  datatype Op = Create(name: seq<U16>, f: FileEntry) | Remove(index: nat)

  // create is called with a short name that no entry has, as check_for_existence makes sure.
  predicate Enabled(es: seq<SlotEntry>, op: Op) {
    match op
    case Create(name, f) =>
      Showable(f) && 1 <= |name| <= 255 && RawOf(f) !in Keys(Items(es))
    case Remove(k) => k < |Items(es)|
  }

  lemma ItemInBounds(es: seq<SlotEntry>, k: nat)
    requires k < |Items(es)|
    ensures Items(es)[k].begin <= Items(es)[k].end <= |es|
  {
    ItemsSpan(es, EndOf(es), k);
  }

  ghost function Step(es: seq<SlotEntry>, op: Op, c: nat): seq<SlotEntry>
    requires Enabled(es, op) && c > 0
  {
    match op
    case Create(name, f) => Created(es, name, f, c)
    case Remove(k) =>
      ItemInBounds(es, k);
      MarkDeleted(es, Items(es)[k].begin, Items(es)[k].end)
  }

  ghost predicate RunEnabled(es: seq<SlotEntry>, ops: seq<Op>, c: nat)
    requires c > 0
    decreases |ops|
  {
    ops == [] || (Enabled(es, ops[0]) && RunEnabled(Step(es, ops[0], c), ops[1..], c))
  }

  ghost function Run(es: seq<SlotEntry>, ops: seq<Op>, c: nat): seq<SlotEntry>
    requires c > 0 && RunEnabled(es, ops, c)
    decreases |ops|
  {
    if ops == [] then es else Run(Step(es, ops[0], c), ops[1..], c)
  }

  // What the operation does to the map: the removed entry is known by its index in the iteration.
  ghost function MapStep(m: map<Raw, Named>, es: seq<SlotEntry>, op: Op): map<Raw, Named>
    requires Enabled(es, op)
  {
    match op
    case Create(name, f) => m[RawOf(f) := Named(f, Strip(name))]
    case Remove(k) => m - {RawOf(Items(es)[k].data)}
  }

  ghost function MapRun(m: map<Raw, Named>, es: seq<SlotEntry>, ops: seq<Op>, c: nat): map<Raw, Named>
    requires c > 0 && RunEnabled(es, ops, c)
    decreases |ops|
  {
    if ops == [] then m else MapRun(MapStep(m, es, ops[0]), Step(es, ops[0], c), ops[1..], c)
  }

  lemma StepRefinesMap(es: seq<SlotEntry>, op: Op, m: map<Raw, Named>, c: nat)
    requires Enabled(es, op) && c > 0 && CleanTail(es) && Holds(Items(es), m)
    ensures CleanTail(Step(es, op, c)) && Holds(Items(Step(es, op, c)), MapStep(m, es, op))
  {
    match op
    case Create(name, f) =>
      var p, after := CreateAddsItem(es, name, f, c);
      HoldsInserted(ScanTo(es, p).items, after, NewItem(es, p, name, f), m);
    case Remove(k) =>
      ItemInBounds(es, k);
      MarkDeletedRemoves(es, Items(es)[k].begin, Items(es)[k].end);
      RemoveTakesItem(es, Step(es, op, c), k);
      assert Items(es) == Items(es)[..k] + [Items(es)[k]] + Items(es)[k + 1..];
      HoldsRemoved(Items(es)[..k], Items(es)[k + 1..], Items(es)[k], m);
  }

  // Over every run of creations and removals the iterator shows exactly the entries of a finite map from
  // short names; in particular no short name ever appears twice.
  lemma {:induction false} RunRefinesMap(es: seq<SlotEntry>, ops: seq<Op>, m: map<Raw, Named>, c: nat)
    requires c > 0 && RunEnabled(es, ops, c) && CleanTail(es) && Holds(Items(es), m)
    ensures CleanTail(Run(es, ops, c)) && Holds(Items(Run(es, ops, c)), MapRun(m, es, ops, c))
    decreases |ops|
  {
    if ops != [] {
      StepRefinesMap(es, ops[0], m, c);
      RunRefinesMap(Step(es, ops[0], c), ops[1..], MapStep(m, es, ops[0]), c);
    }
  }

  lemma NewDirectoryIsEmpty(n: nat)
    ensures CleanTail(Decoded(ZeroSlots(n))) && Items(Decoded(ZeroSlots(n))) == [] && Holds([], map[])
  {
    var es := Decoded(ZeroSlots(n));
    forall i | 0 <= i < n
      ensures IsEnd(es[i])
    {
      ZeroSlotsEnd(n, i);
    }
    EndIsUnique(es, 0);
  }
}
