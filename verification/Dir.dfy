// The directory object of modified_dependencies/rust-fatfs/src/dir.rs over its slots on disk: the entry
// iterator, find_free_entries, write_entry, create and remove.
module Dirs {
  import opened MachineInts
  import opened DirEntries
  import opened LongNames
  import opened Directories
  import opened Options
  import opened ShortNames

  lemma {:induction false} DecodedAt(slots: seq<Slot>, i: nat)
    requires i < |slots|
    ensures Decoded(slots)[i] == Decode(slots[i])
    decreases i
  {
    if i > 0 { DecodedAt(slots[1..], i - 1); }
  }

  lemma {:induction false} DecodedAppend(a: seq<Slot>, b: seq<Slot>)
    ensures Decoded(a + b) == Decoded(a) + Decoded(b)
  {
    if a == [] {
      assert a + b == b;
    } else {
      assert (a + b)[1..] == a[1..] + b;
      DecodedAppend(a[1..], b);
    }
  }

  lemma {:induction false} DecodedUpdate(slots: seq<Slot>, i: nat, bytes: Slot)
    requires i < |slots|
    ensures Decoded(slots[i := bytes]) == Decoded(slots)[i := Decode(bytes)]
    decreases i
  {
    if i == 0 {
      assert slots[i := bytes][1..] == slots[1..];
    } else {
      assert slots[i := bytes][1..] == slots[1..][i - 1 := bytes];
      DecodedUpdate(slots[1..], i - 1, bytes);
    }
  }

  lemma GeneratedKind(name: seq<U16>, checksum: Byte, i: nat)
    requires i < EntryCount(name)
    ensures OwnKind(Lfn(Generated(name, checksum)[i]))
  {
    GeneratedFields(name, checksum, i);
  }

  lemma NotVolumeNotLfn(attrs: Byte)
    requires attrs / 8 % 2 == 0
    ensures !HasLfnAttrs(attrs)
  {
  }

  // The search has come to slot i: the slots from `from` on are deleted and there is no place before them.
  ghost predicate Searched(es: seq<SlotEntry>, from: nat, i: nat, num: nat) {
    && from <= i <= EndOf(es)
    && (forall j :: from <= j < i ==> IsDeleted(es[j]))
    && (forall q :: 0 <= q < from ==> !IsPlace(es, q, num))
  }

  lemma UsedSlotBlocks(es: seq<SlotEntry>, from: nat, i: nat, num: nat)
    requires Searched(es, from, i, num) && i < |es| && Live(es[i]) && i < from + num
    ensures Searched(es, i + 1, i + 1, num)
  {
    assert i < EndOf(es);
    forall q | from <= q <= i
      ensures !IsPlace(es, q, num)
    {
      assert q <= i < q + num;
    }
  }

  lemma OneMoreDeleted(es: seq<SlotEntry>, from: nat, i: nat, num: nat)
    requires Searched(es, from, i, num) && i < |es| && IsDeleted(es[i])
    ensures Searched(es, from, i + 1, num)
  {
  }

  lemma PlaceAtEnd(es: seq<SlotEntry>, from: nat, i: nat, num: nat)
    requires Searched(es, from, i, num) && (i < |es| ==> IsEnd(es[i]))
    ensures LeastPlace(es, from, num)
  {
    EndIsUnique(es, i);
  }

  lemma PlaceInHole(es: seq<SlotEntry>, from: nat, i: nat, num: nat)
    requires Searched(es, from, i + 1, num) && from + num == i + 1
    ensures LeastPlace(es, from, num)
  {
  }

  lemma AsSlotsSnoc(ls: seq<LfnEntry>, k: nat)
    requires Shapes(ls) && k < |ls|
    ensures AsSlots(ls[..k + 1]) == AsSlots(ls[..k]) + [Lfn(ls[k])]
  {
    assert forall i :: 0 <= i < k ==> AsSlots(ls[..k + 1])[i] == Lfn(ls[i]) == AsSlots(ls[..k])[i];
  }

  lemma PutNextLfn(es: seq<SlotEntry>, p: nat, ls: seq<LfnEntry>, k: nat, pos: nat, l: LfnEntry, c: nat)
    requires p <= |es| && Shapes(ls) && k < |ls| && c > 0 && pos == p + k && l == ls[k]
    ensures PutRun(es, p, AsSlots(ls[..k + 1]), c) == PutOne(PutRun(es, p, AsSlots(ls[..k]), c), pos, Lfn(l), c)
  {
    AsSlotsSnoc(ls, k);
    var run := AsSlots(ls[..k + 1]);
    assert run[..|run| - 1] == AsSlots(ls[..k]);
  }

  lemma PutFileLast(es: seq<SlotEntry>, p: nat, name: seq<U16>, f: FileEntry, pos: nat, c: nat)
    requires p <= |es| && c > 0 && FileShape(f) && pos == p + EntryCount(name)
    ensures PutRun(es, p, NewRun(name, f), c)
         == PutOne(PutRun(es, p, AsSlots(Generated(name, LfnChecksum(f.name))), c), pos, File(f), c)
  {
    var run := NewRun(name, f);
    assert run[..|run| - 1] == AsSlots(Generated(name, LfnChecksum(f.name)));
  }

  // --- validate_long_name ---

  datatype Error = InvalidFileNameLength | UnsupportedFileNameCharacter | NotFound | DirectoryIsNotEmpty | InvalidInput | AlreadyExists

  predicate BadLength(name: string) { Utf8Len(name) == 0 || Utf8Len(name) > 255 }

  // Which of the two errors an invalid name gets.
  function NameError(name: string): Error {
    if BadLength(name) then InvalidFileNameLength else UnsupportedFileNameCharacter
  }

  function Utf8Len(name: string): (n: nat)
    ensures n >= |name|
  {
    if name == "" then 0
    else
      var c := name[0] as int;
      (if c < 0x80 then 1 else if c < 0x800 then 2 else if c < 0x1_0000 then 3 else 4) + Utf8Len(name[1..])
  }

  predicate LongNameChar(c: char) {
    'a' <= c <= 'z' || 'A' <= c <= 'Z' || '0' <= c <= '9' || 0x80 <= c as int <= 0xFFFF
    || c == ' ' || c == '!' || '#' <= c <= ')' || '+' <= c <= '.' || c == ';' || c == '=' || c == '@'
    || c == '[' || ']' <= c <= '`' || c == '{' || c == '}' || c == '~'
  }

  predicate ValidLongName(name: string) {
    0 < Utf8Len(name) <= 255 && forall i :: 0 <= i < |name| ==> LongNameChar(name[i])
  }

  // encode_utf16 on a valid name: one unit per character.
  function Utf16(name: string): (us: seq<U16>)
    requires ValidLongName(name)
    ensures |us| == |name| && forall i :: 0 <= i < |name| ==> us[i] == name[i] as int
  {
    seq(|name|, i requires 0 <= i < |name| => UnitOf(name[i]))
  }

  function UnitOf(c: char): U16
    requires LongNameChar(c)
  {
    c as int
  }

  method ValidateLongName(name: string) returns (err: Option<Error>)
    ensures err == if ValidLongName(name) then None else Some(NameError(name))
    ensures err == Some(InvalidFileNameLength) <==> BadLength(name)
  {
    if Utf8Len(name) == 0 { return Some(InvalidFileNameLength); }
    if Utf8Len(name) > 255 { return Some(InvalidFileNameLength); }
    for i := 0 to |name|
      invariant forall j :: 0 <= j < i ==> LongNameChar(name[j])
    {
      if !LongNameChar(name[i]) { return Some(UnsupportedFileNameCharacter); }
    }
    err := None;
  }

  // A valid long name comes back whole unless it ends in U+FFFF, which reading takes for padding.
  lemma ValidNameComesBackIff(name: string)
    requires ValidLongName(name)
    ensures Strip(Utf16(name)) == Utf16(name) <==> name[|name| - 1] as int != 0xFFFF
  {
    StripIdentityIff(Utf16(name));
    assert LongNameChar(name[|name| - 1]);
  }

  // --- The directory ---

  datatype Written = Done(lfn: seq<U16>, begin: nat, end: nat) | Failed(error: Error)

  class Dir {
    var slots: seq<Slot>
    const clusterSlots: nat  // slots in a cluster
    ghost var entries: seq<SlotEntry>  // what the slots decode to

    ghost predicate Valid() reads this { entries == Decoded(slots) && clusterSlots > 0 }

    constructor (slots: seq<Slot>, clusterSlots: nat)
      requires clusterSlots > 0
      ensures Valid() && this.slots == slots && this.clusterSlots == clusterSlots && entries == Decoded(slots)
    {
      this.slots, this.clusterSlots, entries := slots, clusterSlots, Decoded(slots);
    }

    // Deserialize the entry at a cursor.
    method ReadAt(pos: nat) returns (e: Entry)
      requires Valid() && pos <= |entries|
      ensures Shape(e) && OwnKind(e) && (if pos < |entries| then e == entries[pos] else IsEnd(e))
    {
      var bytes: seq<Byte> := [];
      if pos < |slots| {
        bytes := slots[pos];
        DecodedAt(slots, pos);
      }
      var rdr := new Reader(bytes);
      e := rdr.Deserialize();
    }

    static method SlotOf(e: SlotEntry) returns (bytes: Slot)
      requires OwnKind(e)
      ensures Decode(bytes) == e
    {
      var wrt := new Writer();
      wrt.Serialize(e);
      EntryRoundTrip(e);
      assert wrt.out == Encode(e);
      bytes := wrt.out;
    }

    // Serialize an entry at a cursor; past the last cluster a zeroed one is appended first.
    method WriteAt(pos: nat, e: SlotEntry)
      requires Valid() && pos <= |entries| && OwnKind(e)
      modifies this
      ensures Valid() && entries == PutOne(old(entries), pos, e, clusterSlots)
    {
      if pos == |slots| {
        DecodedAppend(slots, ZeroSlots(clusterSlots));
        slots := slots + ZeroSlots(clusterSlots);
      }
      var bytes := SlotOf(e);
      DecodedUpdate(slots, pos, bytes);
      slots := slots[pos := bytes];
      entries := Decoded(slots);
    }

    method FindFreeEntries(num: nat) returns (start: nat)
      requires Valid() && num > 0
      ensures start == FirstPlace(entries, num)
    {
      var firstFree, numFree, i := 0, 0, 0;
      ghost var es := entries;
      while true
        invariant 0 <= numFree <= i && numFree < num
        invariant numFree > 0 ==> firstFree == i - numFree
        invariant Searched(es, i - numFree, i, num)
        decreases |es| - i
      {
        var raw := ReadAt(i);
        if IsEnd(raw) {
          if numFree == 0 { firstFree := i; }
          PlaceAtEnd(es, i - numFree, i, num);
          LeastPlaceIsFirst(es, firstFree, num);
          return firstFree;
        } else if IsDeleted(raw) {
          if numFree == 0 { firstFree := i; }
          OneMoreDeleted(es, i - numFree, i, num);
          numFree := numFree + 1;
          if numFree == num {
            PlaceInHole(es, firstFree, i, num);
            LeastPlaceIsFirst(es, firstFree, num);
            return firstFree;
          }
        } else {
          UsedSlotBlocks(es, i - numFree, i, num);
          numFree := 0;
        }
        assert Searched(es, i + 1 - numFree, i + 1, num);
        i := i + 1;
      }
    }

    // Write the LFN entries that the generator yields, from a cursor on.
    method WriteLfnEntries(gen: LfnEntriesGenerator, start: nat) returns (pos: nat)
      requires Valid() && start <= |entries| && gen.Valid() && gen.index == 0
      modifies this, gen
      ensures Valid() && pos == start + EntryCount(gen.name)
      ensures entries == PutRun(old(entries), start, AsSlots(Generated(gen.name, gen.checksum)), clusterSlots)
    {
      ghost var es, ls, k: nat := entries, Generated(gen.name, gen.checksum), 0;
      pos := start;
      var more, entry := NextLfn(gen, ls, 0);
      while more
        invariant Valid() && pos == start + k && Yielded(gen, ls, k, more, entry)
        invariant entries == PutRun(es, start, AsSlots(ls[..k]), clusterSlots)
        decreases |ls| - k
      {
        WriteNextLfn(es, start, ls, k, pos, entry);
        pos, k := pos + 1, k + 1;
        more, entry := NextLfn(gen, ls, k);
      }
      assert ls[..k] == ls;
    }

    // The generator has yielded entry k of the list, or has come to its end.
    static ghost predicate Yielded(gen: LfnEntriesGenerator, ls: seq<LfnEntry>, k: nat, more: bool, entry: LfnEntry)
      reads gen
    {
      && gen.Valid() && ls == Generated(gen.name, gen.checksum) && k <= |ls|
      && if more then k < |ls| && gen.index == k + 1 && entry == ls[k] && OwnKind(Lfn(entry)) else k == |ls|
    }

    static method NextLfn(gen: LfnEntriesGenerator, ghost ls: seq<LfnEntry>, ghost k: nat) returns (more: bool, entry: LfnEntry)
      requires gen.Valid() && ls == Generated(gen.name, gen.checksum) && gen.index == k <= |ls|
      modifies gen
      ensures Yielded(gen, ls, k, more, entry)
    {
      more, entry := gen.Next();
      if more { GeneratedKind(gen.name, gen.checksum, k); }
    }

    method WriteNextLfn(ghost es: seq<SlotEntry>, ghost start: nat, ghost ls: seq<LfnEntry>, ghost k: nat, pos: nat, entry: LfnEntry)
      requires Valid() && start <= |es| && Shapes(ls) && k < |ls| && pos == start + k && entry == ls[k] && OwnKind(Lfn(entry))
      requires entries == PutRun(es, start, AsSlots(ls[..k]), clusterSlots)
      modifies this
      ensures Valid() && entries == PutRun(es, start, AsSlots(ls[..k + 1]), clusterSlots)
    {
      PutNextLfn(es, start, ls, k, pos, entry, clusterSlots);
      WriteAt(pos, Lfn(entry));
    }

    // Write the LFN entries of the name where they and the short entry fit; pos is left at the short entry.
    method AllocAndWriteLfnEntries(name: seq<U16>, shortName: seq<Byte>) returns (pos: nat, start: nat)
      requires Valid()
      modifies this
      ensures Valid() && start == FirstPlace(old(entries), EntryCount(name) + 1) && pos == start + EntryCount(name)
      ensures entries == PutRun(old(entries), start, AsSlots(Generated(name, LfnChecksum(shortName))), clusterSlots)
    {
      var chksum := ComputeChecksum(shortName);
      var gen := new LfnEntriesGenerator(name, chksum);
      start := FindFreeEntries(gen.Len() + 1);
      pos := WriteLfnEntries(gen, start);
    }

    // write_entry. `begin` and `end` are the offset range of the returned entry.
    method WriteEntry(name: string, raw: FileEntry) returns (r: Written)
      requires Valid() && Showable(raw)
      modifies this
      ensures Valid() && (r.Failed? <==> !ValidLongName(name))
      ensures r.Failed? ==> r.error == NameError(name) && entries == old(entries)
      ensures r.Done? ==>
                && r.lfn == Utf16(name) && r.begin == FirstPlace(old(entries), |NewRun(r.lfn, raw)|)
                && r.end == r.begin + |NewRun(r.lfn, raw)| && entries == Created(old(entries), r.lfn, raw, clusterSlots)
    {
      var err := ValidateLongName(name);
      if err.Some? { return Failed(err.value); }
      var lfn := Utf16(name);
      ghost var es := entries;
      var pos, start := AllocAndWriteLfnEntries(lfn, raw.name);
      NotVolumeNotLfn(raw.attrs);
      PutFileLast(es, start, lfn, raw, pos, clusterSlots);
      WriteAt(pos, File(raw));
      r := Done(lfn, start, pos + 1);
    }
  }

  // A cursor from which the iterator goes on: nothing is pending and no end marker came before.
  ghost predicate Resting(es: seq<SlotEntry>, pos: nat) {
    pos <= EndOf(es) && ScanTo(es, pos).begin == pos && ScanTo(es, pos).pending == []
  }

  // What one slot does to a scan that has not met an end marker.
  lemma ReadOne(es: seq<SlotEntry>, pos: nat)
    requires pos <= EndOf(es)
    ensures if pos < |es| && !IsEnd(es[pos])
            then pos + 1 <= EndOf(es) && ScanTo(es, pos + 1) == ScanStep(ScanTo(es, pos), es[pos], pos + 1)
            else pos == EndOf(es)
  {
  }

  lemma ProcessSnoc(pending: seq<LfnEntry>, l: LfnEntry)
    requires Shapes(pending) && LfnShape(l)
    ensures Shapes(pending + [l]) && ProcessAll(pending + [l]) == Process(ProcessAll(pending), l)
  {
    assert (pending + [l])[..|pending|] == pending;
  }

  // The first n items of the iteration lie before the cursor.
  ghost predicate Passed(es: seq<SlotEntry>, pos: nat, n: nat) {
    Resting(es, pos) && n <= |Items(es)| && ScanTo(es, pos).items == Items(es)[..n]
  }

  lemma PassedOne(es: seq<SlotEntry>, pos: nat, n: nat, to: nat, x: Item)
    requires Passed(es, pos, n) && Resting(es, to) && ScanTo(es, to).items == ScanTo(es, pos).items + [x]
    ensures n < |Items(es)| && Items(es)[n] == x && Passed(es, to, n + 1)
  {
    ItemsUpTo(es, to);
    assert ScanTo(es, to).items[n] == x;
  }

  lemma ItemsUpTo(es: seq<SlotEntry>, n: nat)
    requires n <= EndOf(es)
    ensures |ScanTo(es, n).items| <= |Items(es)| && ScanTo(es, n).items == Items(es)[..|ScanTo(es, n).items|]
  {
    var more := ScanGoesOnAlike(es, es, n, EndOf(es));
  }

  class DirIter {
    const dir: Dir
    var pos: nat
    ghost const slots: seq<SlotEntry>  // what there is to iterate over
    ghost var count: nat  // how many items have been returned

    ghost predicate Valid()
      reads this, dir
    {
      dir.Valid() && dir.entries == slots && Passed(slots, pos, count)
    }

    constructor (dir: Dir)
      requires dir.Valid()
      ensures Valid() && this.dir == dir && slots == dir.entries && count == 0
    {
      this.dir, slots, pos, count := dir, dir.entries, 0, 0;
    }

    method Next() returns (r: Option<Item>)
      requires Valid()
      modifies this
      ensures r.None? ==> old(count) == |Items(slots)|
      ensures r.Some? ==>
                Valid() && count == old(count) + 1 <= |Items(slots)| && r.value == Items(slots)[old(count)]
    {
      r := ReadDirEntry();
      if r.Some? {
        PassedOne(slots, old(pos), count, pos, r.value);
        count := count + 1;
      }
    }

    // Up to the next short entry to be shown, with the LFN entries before it in the builder.
    method ReadToShortEntry(builder: LongNameBuilder) returns (f: Option<FileEntry>, begin: nat, ghost s: Scan)
      requires dir.Valid() && Resting(dir.entries, pos) && builder.State() == NEW_BUILDER
      modifies `pos, builder
      ensures builder.Valid() && ScanShape(s) && s.items == ScanTo(dir.entries, old(pos)).items
      ensures f.None? ==> s == ScanTo(dir.entries, EndOf(dir.entries))
      ensures f.Some? ==>
                && old(pos) < pos <= EndOf(dir.entries) && FileShape(f.value) && !Skipped(File(f.value))
                && s.begin == begin && builder.State() == ProcessAll(s.pending)
                && ScanTo(dir.entries, pos) == ScanStep(s, File(f.value), pos)
    {
      ghost var es, items := dir.entries, ScanTo(dir.entries, pos).items;
      var offset := pos;
      s, begin := ScanTo(es, pos), pos;
      while true
        invariant old(pos) <= offset <= EndOf(es)
        invariant s == ScanTo(es, offset) && s.items == items && s.begin == begin
        invariant builder.Valid() && builder.State() == ProcessAll(s.pending)
        decreases |es| - offset
      {
        var raw := dir.ReadAt(offset);
        ReadOne(es, offset);
        offset := offset + 1;
        if IsEnd(raw) {
          pos := offset;
          return None, begin, s;
        }
        assert ScanTo(es, offset) == ScanStep(s, raw, offset);
        if IsDeleted(raw) || (raw.File? && IsVolume(raw.file)) {
          builder.Clear();
          begin := offset;
        } else if raw.File? {
          pos := offset;
          return Some(raw.file), begin, s;
        } else {
          ProcessSnoc(s.pending, raw.lfn);
          builder.ProcessEntry(raw.lfn);
        }
        s := ScanStep(s, raw, offset);
      }
    }

    // One call of next() with skip_volume set.
    method ReadDirEntry() returns (r: Option<Item>)
      requires dir.Valid() && Resting(dir.entries, pos)
      modifies `pos
      ensures r.None? ==> Items(dir.entries) == ScanTo(dir.entries, old(pos)).items
      ensures r.Some? ==>
                && old(pos) < pos && Resting(dir.entries, pos)
                && ScanTo(dir.entries, pos).items == ScanTo(dir.entries, old(pos)).items + [r.value]
    {
      var builder := new LongNameBuilder();
      var data, begin, s := ReadToShortEntry(builder);
      if data.None? { return None; }
      builder.ValidateChksum(data.value.name);
      var lfn := builder.IntoBuf();
      r := Some(Item(data.value, lfn, begin, pos));
    }
  }

  // --- remove, create_file and create_dir ---

  predicate FirstWhere(items: seq<Item>, matches: Item -> bool, k: nat) {
    k < |items| && matches(items[k]) && forall j :: 0 <= j < k ==> !matches(items[j])
  }

  predicate NoneWhere(items: seq<Item>, matches: Item -> bool) {
    forall j :: 0 <= j < |items| ==> !matches(items[j])
  }

  lemma PrefixMatches(items: seq<Item>, matches: Item -> bool, k: nat)
    requires k < |items| && NoneWhere(items[..k], matches)
    ensures if matches(items[k]) then FirstWhere(items, matches, k) else NoneWhere(items[..k + 1], matches)
  {
    assert forall j :: 0 <= j < k ==> items[..k][j] == items[j];
  }

  method FindEntry(dir: Dir, matches: Item -> bool) returns (r: Option<Item>, ghost k: nat)
    requires dir.Valid()
    ensures var items := Items(dir.entries);
            if r.Some? then FirstWhere(items, matches, k) && r.value == items[k] else NoneWhere(items, matches)
  {
    var iter := new DirIter(dir);
    ghost var items := Items(iter.slots);
    k := 0;
    while true
      invariant iter.Valid() && iter.dir == dir && iter.count == k <= |items|
      invariant NoneWhere(items[..k], matches)
      decreases |items| - k
    {
      r := iter.Next();
      if r.None? {
        assert items[..k] == items;
        return;
      }
      PrefixMatches(items, matches, k);
      if matches(r.value) { return; }
      k := k + 1;
    }
  }

  predicate IsDirectory(f: FileEntry) { f.attrs / 16 % 2 == 1 }

  // remove of the last path component; `subdirEmpty` is what is_empty finds in the directory itself.
  method Remove(dir: Dir, matches: Item -> bool, subdirEmpty: bool) returns (err: Option<Error>, ghost k: nat)
    requires dir.Valid()
    modifies dir
    ensures dir.Valid()
    ensures var items := Items(old(dir.entries));
            if NoneWhere(items, matches) then err == Some(Error.NotFound) && dir.entries == old(dir.entries)
            else
              && FirstWhere(items, matches, k)
              && if IsDirectory(items[k].data) && !subdirEmpty
                 then err == Some(DirectoryIsNotEmpty) && dir.entries == old(dir.entries)
                 else err == None && dir.entries == Step(old(dir.entries), Directories.Remove(k), dir.clusterSlots)
  {
    ghost var es := dir.entries;
    var found;
    found, k := FindEntry(dir, matches);
    if found.None? { return Some(Error.NotFound), k; }
    var x := found.value;
    if IsDirectory(x.data) && !subdirEmpty { return Some(DirectoryIsNotEmpty), k; }
    ItemInBounds(es, k);
    MarkSlots(dir, x.begin, x.end);
    err := None;
  }

  method MarkSlots(dir: Dir, begin: nat, end: nat)
    requires dir.Valid() && begin <= end <= |dir.entries|
    modifies dir
    ensures dir.Valid() && dir.entries == MarkDeleted(old(dir.entries), begin, end)
  {
    ghost var es := dir.entries;
    var pos := begin;
    while pos < end
      invariant begin <= pos <= end && dir.Valid() && dir.entries == MarkDeleted(es, begin, pos)
    {
      MarkDeletedLeaves(es, begin, pos);
      var data := dir.ReadAt(pos);
      DeletedKind(data);
      dir.WriteAt(pos, SetDeleted(data));
      pos := pos + 1;
    }
  }

  lemma DeletedKind(e: SlotEntry)
    requires OwnKind(e)
    ensures OwnKind(SetDeleted(e))
  {
  }

  // What check_for_existence sees of the items.
  function SeenOf(items: seq<Item>, matches: Item -> bool): (s: seq<Seen>)
    ensures |s| == |items|
  {
    if items == [] then []
    else
      var x := items[|items| - 1];
      SeenOf(items[..|items| - 1], matches) + [Seen(RawOf(x.data), matches(x), IsDirectory(x.data))]
  }

  lemma {:induction false} SeenAt(items: seq<Item>, matches: Item -> bool, k: nat)
    requires k < |items|
    ensures SeenOf(items, matches)[k] == Seen(RawOf(items[k].data), matches(items[k]), IsDirectory(items[k].data))
  {
    if k < |items| - 1 { SeenAt(items[..|items| - 1], matches, k); }
  }

  lemma {:induction false} SeenRawNames(items: seq<Item>, matches: Item -> bool)
    ensures RawNames(SeenOf(items, matches)) == Keys(items)
  {
    if items != [] {
      var init, last := items[..|items| - 1], items[|items| - 1];
      SeenRawNames(init, matches);
      KeysAppend(init, [last]);
      assert items == init + [last];
      assert SeenOf(items, matches)[..|items| - 1] == SeenOf(init, matches);
    }
  }

  method Snapshot(dir: Dir, matches: Item -> bool) returns (seen: seq<Seen>, found: seq<Item>)
    requires dir.Valid()
    ensures found == Items(dir.entries) && seen == SeenOf(found, matches)
  {
    var iter := new DirIter(dir);
    ghost var items := Items(iter.slots);
    seen, found := [], [];
    while true
      invariant iter.Valid() && iter.count == |found| <= |items| && found == items[..|found|]
      invariant seen == SeenOf(found, matches)
      decreases |items| - |found|
    {
      var r := iter.Next();
      if r.None? { return; }
      assert (found + [r.value])[..|found|] == found;
      found := found + [r.value];
      seen := seen + [Seen(RawOf(r.value.data), matches(r.value), IsDirectory(r.value.data))];
    }
  }

  // Panics: the name was sliced at a place that is no character boundary, or behind its end.
  datatype Existence = Exists(item: Item) | WrongKind | Fresh(short: Raw) | Panics

  ghost predicate ExistenceOf(items: seq<Item>, name: string, matches: Item -> bool, isDir: Option<bool>, r: Existence) {
    match r
    case Exists(x) =>
      exists k: nat :: FirstWhere(items, matches, k) && x == items[k] && (isDir.Some? ==> IsDirectory(x.data) == isDir.value)
    case WrongKind =>
      exists k: nat :: FirstWhere(items, matches, k) && isDir.Some? && IsDirectory(items[k].data) != isDir.value
    case Fresh(s) => NoneWhere(items, matches) && s !in Keys(items) && 0x20 < s[0] < 0x7F
    case Panics => !Sliceable(name)
  }

  method CheckForExistence(dir: Dir, name: string, matches: Item -> bool, isDir: Option<bool>) returns (r: Existence)
    requires dir.Valid() && |Items(dir.entries)| < 9 * 0x1_0000
    ensures ExistenceOf(Items(dir.entries), name, matches, isDir, r) && (r.Panics? <==> !Sliceable(name))
  {
    var seen, found := Snapshot(dir, matches);
    var check := ShortNames.CheckForExistence(seen, name, isDir);
    match check {
      case Panicked => r := Panics;
      case Entry(i) =>
        FirstMatchIsFirstWhere(found, matches, i);
        r := Exists(found[i]);
      case InvalidInput =>
        ghost var i: nat :| FirstMatch(seen, i) && isDir.Some? && seen[i].isDir != isDir.value;
        FirstMatchIsFirstWhere(found, matches, i);
        r := Existence.WrongKind;
      case ShortName(raw) =>
        SeenRawNames(found, matches);
        NoMatchIsNoneWhere(found, matches);
        r := Fresh(raw);
    }
  }

  datatype Made = Opened(item: Item) | Made(data: FileEntry) | Refused(error: Error) | Panicked

  // What create answers for the items of a directory: every outcome with the condition under which it occurs.
  ghost predicate MadeOf(items: seq<Item>, name: string, matches: Item -> bool, isDir: bool, r: Made) {
    && (r.Panicked? <==> !Sliceable(name))
    && (r.Opened? ==> exists k: nat :: FirstWhere(items, matches, k) && r.item == items[k] && IsDirectory(r.item.data) == isDir)
    && (r.Refused? ==>
          if r.error == Error.InvalidInput
          then exists k: nat :: FirstWhere(items, matches, k) && IsDirectory(items[k].data) != isDir
          else NoneWhere(items, matches) && !ValidLongName(name) && r.error == NameError(name))
    && (r.Made? ==> NoneWhere(items, matches) && ValidLongName(name))
  }

  // create_file, or create_dir up to the new directory's own cluster. `template` is the short entry but for
  // its name.
  method Create(dir: Dir, name: string, matches: Item -> bool, isDir: bool, template: FileEntry) returns (r: Made)
    requires dir.Valid() && |Items(dir.entries)| < 9 * 0x1_0000
    requires FileShape(template) && !IsVolume(template)
    modifies dir
    ensures dir.Valid() && MadeOf(Items(old(dir.entries)), name, matches, isDir, r)
    ensures !r.Made? ==> dir.entries == old(dir.entries)
    ensures r.Made? ==>
              && r.data == template.(name := r.data.name)
              && Enabled(old(dir.entries), Directories.Create(Utf16(name), r.data))
              && dir.entries == Step(old(dir.entries), Directories.Create(Utf16(name), r.data), dir.clusterSlots)
  {
    var check := CheckForExistence(dir, name, matches, Some(isDir));
    match check {
      case Panics => r := Made.Panicked;
      case Exists(x) => r := Opened(x);
      case WrongKind => r := Refused(Error.InvalidInput);
      case Fresh(raw) =>
        var f := template.(name := raw);
        var w := dir.WriteEntry(name, f);
        r := if w.Failed? then Refused(w.error) else Made(f);
    }
  }

  // A valid name gets an answer if and only if it starts with a one-byte character.
  lemma ValidNameAnsweredIff(items: seq<Item>, name: string, matches: Item -> bool, isDir: bool, r: Made)
    requires MadeOf(items, name, matches, isDir, r) && ValidLongName(name)
    ensures !r.Panicked? <==> name[0] as int < 0x80
    ensures !r.Panicked? ==> (r.Made? <==> NoneWhere(items, matches))
  {
  }

  // Neither the empty name nor the valid name of one accented letter does.
  lemma NamesThatPanic()
    ensures !Sliceable("") && !ValidLongName("") && NameError("") == InvalidFileNameLength
    ensures ValidLongName(['\U{00E9}']) && !Sliceable(['\U{00E9}'])
  {
    assert Utf8Len(['\U{00E9}'][1..]) == 0;
  }

  lemma FirstMatchIsFirstWhere(items: seq<Item>, matches: Item -> bool, i: nat)
    requires FirstMatch(SeenOf(items, matches), i)
    ensures FirstWhere(items, matches, i)
    ensures SeenOf(items, matches)[i].isDir == IsDirectory(items[i].data)
  {
    SeenAt(items, matches, i);
    forall j | 0 <= j < i
      ensures !matches(items[j])
    {
      SeenAt(items, matches, j);
      assert !SeenOf(items, matches)[..i][j].eqName;
    }
  }

  lemma NoMatchIsNoneWhere(items: seq<Item>, matches: Item -> bool)
    requires NoMatch(SeenOf(items, matches))
    ensures NoneWhere(items, matches)
  {
    forall j | 0 <= j < |items|
      ensures !matches(items[j])
    {
      SeenAt(items, matches, j);
    }
  }
}
