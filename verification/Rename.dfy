// rename_internal of modified_dependencies/rust-fatfs/src/dir.rs: the old entry is marked deleted before the
// new one is written.
module Renames {
  import opened MachineInts
  import opened DirEntries
  import opened LongNames
  import opened Directories
  import opened Options
  import opened ShortNames
  import opened Dirs

  // The iterator returns short entries that are no volume labels.
  predicate Shown(items: seq<Item>) {
    forall i :: 0 <= i < |items| ==> FileShape(items[i].data) && !IsVolume(items[i].data)
  }

  lemma {:induction false} ScanShows(es: seq<SlotEntry>, n: nat)
    requires n <= |es|
    ensures Shown(ScanTo(es, n).items)
  {
    if n > 0 { ScanShows(es, n - 1); }
  }

  lemma EndsDiffer(es: seq<SlotEntry>, j: nat, k: nat)
    requires j < |Items(es)| && k < |Items(es)|
    ensures Items(es)[j].end == Items(es)[k].end <==> j == k
  {
    ItemsSpan(es, EndOf(es), j);
    ItemsSpan(es, EndOf(es), k);
  }

  lemma {:induction false} KeysSubset(a: seq<Item>, k: nat, s: Raw)
    requires k < |a| && s !in Keys(a)
    ensures s !in Keys(a[..k] + a[k + 1..])
  {
    KeysAround(a[..k], a[k], a[k + 1..]);
    assert a == a[..k] + [a[k]] + a[k + 1..];
  }

  // A short name that is new in a directory is new there without entry k, too.
  lemma StaysNew(es: seq<SlotEntry>, k: nat, s: Raw, c: nat)
    requires k < |Items(es)| && s !in Keys(Items(es)) && c > 0
    ensures s !in Keys(Items(Step(es, Op.Remove(k), c)))
  {
    LostItemIsGone(es, k, c);
    KeysSubset(Items(es), k, s);
  }

  datatype Renamed = Moved(data: FileEntry) | Unchanged | Refused(error: Error) | Lost(error: Error) | Panicked

  // The outcome of a rename from a directory with the entries es, at k the source, into one with the entries
  // ds, which may be the same one.
  ghost predicate RenamedOf(es: seq<SlotEntry>, k: nat, ds: seq<SlotEntry>, same: bool, from: Item -> bool, name: string,
                            to: Item -> bool, r: Renamed) {
    if NoneWhere(Items(es), from) then r == Renamed.Refused(Error.NotFound)
    else
      && FirstWhere(Items(es), from, k)
      && (r.Panicked? <==> !Sliceable(name))
      && (r.Unchanged? ==> same && FirstWhere(Items(ds), to, k))
      && (r.Refused? ==> r.error == AlreadyExists && !NoneWhere(Items(ds), to) && !(same && FirstWhere(Items(ds), to, k)))
      && (r.Lost? ==> NoneWhere(Items(ds), to) && !ValidLongName(name) && r.error == NameError(name))
      && (r.Moved? ==> NoneWhere(Items(ds), to) && ValidLongName(name)
                       && r.data == Items(es)[k].data.(name := r.data.name) && Showable(r.data)
                       && RawOf(r.data) !in Keys(Items(ds)))
  }

  method Rename(src: Dir, from: Item -> bool, dst: Dir, name: string, to: Item -> bool) returns (r: Renamed, ghost k: nat)
    requires src.Valid() && dst.Valid() && |Items(dst.entries)| < 9 * 0x1_0000
    modifies src, dst
    ensures src.Valid() && dst.Valid()
    ensures RenamedOf(old(src.entries), k, old(dst.entries), src == dst, from, name, to, r)
    ensures r.Refused? || r.Unchanged? || r.Panicked? ==> src.entries == old(src.entries) && dst.entries == old(dst.entries)
    ensures r.Moved? || r.Lost? ==>
              && k < |Items(old(src.entries))|
              && var gone := Step(old(src.entries), Op.Remove(k), src.clusterSlots);
                 var kept := if src == dst then gone else old(dst.entries);
                 && (src != dst ==> src.entries == gone)
                 && (r.Lost? ==> dst.entries == kept)
                 && (r.Moved? ==> FileShape(r.data) && dst.entries == Created(kept, Utf16(name), r.data, dst.clusterSlots))
  {
    ghost var es := src.entries;
    var found;
    found, k := Dirs.FindEntry(src, from);
    if found.None? { return Renamed.Refused(Error.NotFound), k; }
    var x := found.value;
    var check := Dirs.CheckForExistence(dst, name, to, None);
    match check {
      case Panics => r := Renamed.Panicked;
      case WrongKind => assert false;
      case Exists(y) =>
        // is_same_entry compares the positions of the two entries on disk
        ghost var j: nat :| FirstWhere(Items(dst.entries), to, j) && y == Items(dst.entries)[j];
        if src == dst { EndsDiffer(es, j, k); }
        r := if src == dst && x.end == y.end then Unchanged else Renamed.Refused(AlreadyExists);
      case Fresh(short) =>
        ScanShows(es, EndOf(es));
        var f := x.data.(name := short);
        var w := MoveEntry(src, x, dst, name, f, k);
        r := if w.Failed? then Lost(w.error) else Moved(f);
    }
  }

  // The slots of entry k are marked, and only then is the new name looked at.
  method MoveEntry(src: Dir, x: Item, dst: Dir, name: string, f: FileEntry, ghost k: nat) returns (w: Written)
    requires src.Valid() && dst.Valid() && k < |Items(src.entries)| && x == Items(src.entries)[k] && Showable(f)
    modifies src, dst
    ensures src.Valid() && dst.Valid() && (w.Failed? <==> !ValidLongName(name)) && (w.Failed? ==> w.error == NameError(name))
    ensures var gone := Step(old(src.entries), Op.Remove(k), src.clusterSlots);
            var kept := if src == dst then gone else old(dst.entries);
            && (src != dst ==> src.entries == gone)
            && dst.entries == if w.Failed? then kept else Created(kept, Utf16(name), f, dst.clusterSlots)
  {
    ItemInBounds(src.entries, k);
    MarkSlots(src, x.begin, x.end);
    w := dst.WriteEntry(name, f);
  }

  // A rename whose source exists either succeeds, changes nothing, or loses the entry; it loses it if and only
  // if the new name is unused and can be sliced but is not valid.
  lemma LostIff(es: seq<SlotEntry>, k: nat, ds: seq<SlotEntry>, same: bool, from: Item -> bool, name: string,
                to: Item -> bool, r: Renamed)
    requires RenamedOf(es, k, ds, same, from, name, to, r) && !NoneWhere(Items(es), from)
    ensures r.Lost? <==> Sliceable(name) && NoneWhere(Items(ds), to) && !ValidLongName(name)
    ensures r.Moved? <==> Sliceable(name) && NoneWhere(Items(ds), to) && ValidLongName(name)
    ensures r.Unchanged? <==> Sliceable(name) && same && FirstWhere(Items(ds), to, k)
  {
  }

  // What is left of the source directory when the entry is lost.
  lemma LostItemIsGone(es: seq<SlotEntry>, k: nat, c: nat)
    requires k < |Items(es)| && c > 0
    ensures Items(Step(es, Op.Remove(k), c)) == Items(es)[..k] + Items(es)[k + 1..]
    ensures CleanTail(es) ==> CleanTail(Step(es, Op.Remove(k), c))
  {
    ItemInBounds(es, k);
    MarkDeletedRemoves(es, Items(es)[k].begin, Items(es)[k].end);
    RemoveTakesItem(es, Step(es, Op.Remove(k), c), k);
  }

  // For example, a question mark is a name that loses whatever is renamed to it.
  lemma QuestionMarkLoses(es: seq<SlotEntry>, k: nat, ds: seq<SlotEntry>, same: bool, from: Item -> bool, to: Item -> bool, r: Renamed)
    requires RenamedOf(es, k, ds, same, from, "?", to, r) && !NoneWhere(Items(es), from) && NoneWhere(Items(ds), to)
    ensures r == Lost(UnsupportedFileNameCharacter)
  {
    assert !LongNameChar("?"[0]);
    assert Utf8Len("?"[1..]) == 0;
    LostIff(es, k, ds, same, from, "?", to, r);
  }

  // A rename that succeeds within one directory replaces one entry of the map by one with the same data under
  // the new names.
  lemma RenameRefinesMap(es: seq<SlotEntry>, k: nat, name: string, f: FileEntry, m: map<Raw, Named>, c: nat)
    requires CleanTail(es) && Holds(Items(es), m) && k < |Items(es)| && c > 0
    requires ValidLongName(name) && Showable(f) && RawOf(f) !in Keys(Items(es))
    ensures var es' := Created(Step(es, Op.Remove(k), c), Utf16(name), f, c);
            && CleanTail(es')
            && Holds(Items(es'), (m - {RawOf(Items(es)[k].data)})[RawOf(f) := Named(f, Strip(Utf16(name)))])
  {
    var gone := Step(es, Op.Remove(k), c);
    StepRefinesMap(es, Op.Remove(k), m, c);
    StaysNew(es, k, RawOf(f), c);
    ShortEnough(name);
    StepRefinesMap(gone, Op.Create(Utf16(name), f), m - {RawOf(Items(es)[k].data)}, c);
  }

  lemma ShortEnough(name: string)
    requires ValidLongName(name)
    ensures 1 <= |Utf16(name)| <= 255
  {
  }
}
