// The 32-byte directory slots of modified_dependencies/rust-fatfs/src/dir_entry.rs: short entries and
// long-name (LFN) entries, and their byte layout (section "FAT Long Directory Entries" of the Microsoft
// FAT32 File System Specification 1.03).
module DirEntries {
  import opened MachineInts

  // A raw short name: eight bytes of base name and three of extension, padded with spaces.
  type Raw = s: seq<Byte> | |s| == 11 witness [0, 0, 0, 0, 0, 0, 0, 0, 0, 0, 0]

  const DELETED_FLAG: Byte := 0xE5
  const LFN_ATTRS: Byte := 0x0F

  datatype FileEntry = FileEntry(
    name: seq<Byte>, attrs: Byte, reserved0: Byte, createTime0: Byte, createTime1: U16, createDate: U16,
    accessDate: U16, clusterHi: U16, modifyTime: U16, modifyDate: U16, clusterLo: U16, size: U32)

  datatype LfnEntry = LfnEntry(
    order: Byte, name0: seq<U16>, attrs: Byte, entryType: Byte, checksum: Byte, name1: seq<U16>,
    reserved0: U16, name2: seq<U16>)

  datatype Entry = File(file: FileEntry) | Lfn(lfn: LfnEntry)

  // The array lengths and attribute bits the Rust types guarantee.
  predicate FileShape(f: FileEntry) { |f.name| == 11 && f.attrs < 0x40 }
  predicate LfnShape(l: LfnEntry) { |l.name0| == 5 && |l.name1| == 6 && |l.name2| == 2 && l.attrs < 0x40 }
  predicate Shape(e: Entry) {
    match e
    case File(f) => FileShape(f)
    case Lfn(l) => LfnShape(l)
  }

  // attrs & LFN == LFN
  predicate HasLfnAttrs(attrs: Byte) { attrs % 0x10 == 0x0F }

  function DefaultFile(): (f: FileEntry)
    ensures FileShape(f) && FirstByte(File(f)) == 0
  {
    FileEntry([0, 0, 0, 0, 0, 0, 0, 0, 0, 0, 0], 0, 0, 0, 0, 0, 0, 0, 0, 0, 0, 0)
  }

  function FirstByte(e: Entry): Byte
    requires Shape(e)
  {
    match e
    case File(f) => f.name[0]
    case Lfn(l) => l.order
  }

  predicate IsEnd(e: Entry) requires Shape(e) { FirstByte(e) == 0 }
  predicate IsDeleted(e: Entry) requires Shape(e) { FirstByte(e) == DELETED_FLAG }

  function SetDeleted(e: Entry): (d: Entry)
    requires Shape(e)
    ensures Shape(d) && IsDeleted(d)
  {
    match e
    case File(f) => File(f.(name := f.name[0 := DELETED_FLAG]))
    case Lfn(l) => Lfn(l.(order := DELETED_FLAG))
  }

  // --- Layout ---

  function Le16(u: U16): seq<Byte> { [u % 0x100, u / 0x100] }
  function Le32(u: U32): seq<Byte> { Le16(u % 0x1_0000) + Le16(u / 0x1_0000) }

  function Units(us: seq<U16>): (s: seq<Byte>)
    ensures |s| == 2 * |us|
  {
    if us == [] then [] else Le16(us[0]) + Units(us[1..])
  }

  function Join16(low: int, high: int): U16
    requires 0 <= low < 0x100 && 0 <= high < 0x100
  {
    low + 0x100 * high
  }

  function Join32(low: int, high: int): U32
    requires 0 <= low < 0x1_0000 && 0 <= high < 0x1_0000
  {
    low + 0x1_0000 * high
  }

  function U16At(b: seq<Byte>, i: nat): U16
    requires i + 2 <= |b|
  {
    Join16(b[i], b[i + 1])
  }

  function U32At(b: seq<Byte>, i: nat): U32
    requires i + 4 <= |b|
  {
    Join32(U16At(b, i), U16At(b, i + 2))
  }

  function UnitsAt(b: seq<Byte>, i: nat, n: nat): (us: seq<U16>)
    requires i + 2 * n <= |b|
    ensures |us| == n
    decreases n
  {
    if n == 0 then [] else [U16At(b, i)] + UnitsAt(b, i + 2, n - 1)
  }

  function FileHead(f: FileEntry): seq<Byte> {
    f.name + [f.attrs, f.reserved0, f.createTime0] + Le16(f.createTime1) + Le16(f.createDate)
  }

  function FileTail(f: FileEntry): seq<Byte> {
    Le16(f.accessDate) + Le16(f.clusterHi) + Le16(f.modifyTime) + Le16(f.modifyDate) + Le16(f.clusterLo) + Le32(f.size)
  }

  function EncodeFile(f: FileEntry): seq<Byte> { FileHead(f) + FileTail(f) }

  function LfnHead(l: LfnEntry): seq<Byte> {
    [l.order] + Units(l.name0) + [l.attrs, l.entryType, l.checksum]
  }

  function LfnTail(l: LfnEntry): seq<Byte> {
    Units(l.name1) + Le16(l.reserved0) + Units(l.name2)
  }

  function EncodeLfn(l: LfnEntry): seq<Byte> { LfnHead(l) + LfnTail(l) }

  function Encode(e: Entry): (b: seq<Byte>)
    ensures Shape(e) ==> |b| == 32
  {
    match e
    case File(f) => EncodeFile(f)
    case Lfn(l) => EncodeLfn(l)
  }

  function DecodeFile(b: seq<Byte>): FileEntry
    requires |b| == 32
  {
    FileEntry(b[..11], b[11] % 0x40, b[12], b[13], U16At(b, 14), U16At(b, 16), U16At(b, 18), U16At(b, 20),
              U16At(b, 22), U16At(b, 24), U16At(b, 26), U32At(b, 28))
  }

  function DecodeLfn(b: seq<Byte>): LfnEntry
    requires |b| == 32
  {
    LfnEntry(b[0], UnitsAt(b, 1, 5), b[11] % 0x40, b[12], b[13], UnitsAt(b, 14, 6), U16At(b, 26), UnitsAt(b, 28, 2))
  }

  function Decode(b: seq<Byte>): (e: Entry)
    requires |b| == 32
    ensures Shape(e) && FirstByte(e) == b[0]
  {
    if HasLfnAttrs(b[11] % 0x40) then Lfn(DecodeLfn(b)) else File(DecodeFile(b))
  }

  // A directory may fill its clusters without an end marker: reading past them yields an empty entry.
  function DecodeSlot(b: seq<Byte>): (e: Entry)
    requires |b| == 32 || |b| == 0
    ensures Shape(e) && (|b| == 0 ==> IsEnd(e))
  {
    if |b| == 0 then File(DefaultFile()) else Decode(b)
  }

  lemma {:induction false} UnitsDecode(us: seq<U16>, b: seq<Byte>, i: nat)
    requires i + 2 * |us| <= |b| && b[i..i + 2 * |us|] == Units(us)
    ensures UnitsAt(b, i, |us|) == us
    decreases |us|
  {
    if us != [] {
      var s := b[i..i + 2 * |us|];
      assert s[0] == b[i] && s[1] == b[i + 1];
      assert s[2..] == b[i + 2..i + 2 + 2 * |us[1..]|];
      assert s[2..] == Units(us[1..]);
      UnitsDecode(us[1..], b, i + 2);
    }
  }

  lemma {:induction false} UnitsEncode(b: seq<Byte>, i: nat, n: nat)
    requires i + 2 * n <= |b|
    ensures Units(UnitsAt(b, i, n)) == b[i..i + 2 * n]
    decreases n
  {
    if n > 0 {
      UnitsEncode(b, i + 2, n - 1);
      var us := UnitsAt(b, i, n);
      assert us[0] == U16At(b, i) && us[1..] == UnitsAt(b, i + 2, n - 1);
      Le16Back(b, i);
      Join(b, i, i + 2, i + 2 * n);
    }
  }

  lemma LfnDecodesBack(l: LfnEntry)
    requires LfnShape(l)
    ensures DecodeLfn(EncodeLfn(l)) == l
  {
    var b := EncodeLfn(l);
    assert b[1..11] == Units(l.name0);
    UnitsDecode(l.name0, b, 1);
    assert b[14..26] == Units(l.name1);
    UnitsDecode(l.name1, b, 14);
    assert b[28..32] == Units(l.name2);
    UnitsDecode(l.name2, b, 28);
  }

  lemma FileDecodesBack(f: FileEntry)
    requires FileShape(f)
    ensures DecodeFile(EncodeFile(f)) == f
  {
    assert EncodeFile(f)[..11] == f.name;
  }

  // The attributes say which kind of entry this is.
  predicate OwnKind(e: Entry) { if e.Lfn? then HasLfnAttrs(e.lfn.attrs) else !HasLfnAttrs(e.file.attrs) }

  // Reading a written entry gives it back exactly when its attributes name its own kind.
  lemma EntryRoundTrip(e: Entry)
    requires Shape(e)
    ensures |Encode(e)| == 32
    ensures Decode(Encode(e)) == e <==> OwnKind(e)
  {
    match e
    case File(f) => FileDecodesBack(f);
    case Lfn(l) => LfnDecodesBack(l);
  }

  // The bytes that survive decoding: all but the two unknown attribute bits.
  function Known(b: seq<Byte>): seq<Byte>
    requires |b| == 32
  {
    b[11 := b[11] % 0x40]
  }

  lemma KnownSplits(b: seq<Byte>, i: nat)
    requires |b| == 32 && 12 <= i <= 32
    ensures Known(b)[..i] + b[i..] == Known(b)
  {
  }

  // Neighbouring slices join.
  lemma Join(b: seq<Byte>, i: nat, j: nat, k: nat)
    requires i <= j <= k <= |b|
    ensures b[i..j] + b[j..k] == b[i..k]
  {
  }

  lemma LfnHeadBack(b: seq<Byte>)
    requires |b| == 32
    ensures LfnHead(DecodeLfn(b)) == Known(b)[..14]
  {
    UnitsEncode(b, 1, 5);
    HeadJoins(b, Units(UnitsAt(b, 1, 5)));
  }

  lemma HeadJoins(b: seq<Byte>, units: seq<Byte>)
    requires |b| == 32 && units == b[1..11]
    ensures [b[0]] + units + [b[11] % 0x40, b[12], b[13]] == Known(b)[..14]
  {
  }

  lemma LfnTailBack(b: seq<Byte>)
    requires |b| == 32
    ensures LfnTail(DecodeLfn(b)) == b[14..]
  {
    UnitsEncode(b, 14, 6);
    Le16Back(b, 26);
    UnitsEncode(b, 28, 2);
    Join(b, 14, 26, 28);
    Join(b, 14, 28, 32);
  }

  lemma LfnEncodesBack(b: seq<Byte>)
    requires |b| == 32
    ensures EncodeLfn(DecodeLfn(b)) == Known(b)
  {
    LfnHeadBack(b);
    LfnTailBack(b);
    KnownSplits(b, 14);
  }

  lemma Le16Back(b: seq<Byte>, i: nat)
    requires i + 2 <= |b|
    ensures Le16(U16At(b, i)) == b[i..i + 2]
  {
  }

  lemma FileHeadBack(b: seq<Byte>)
    requires |b| == 32
    ensures FileHead(DecodeFile(b)) == Known(b)[..18]
  {
    Le16Back(b, 14);
    Le16Back(b, 16);
    assert FileHead(DecodeFile(b)) == b[..11] + [b[11] % 0x40, b[12], b[13]] + b[14..16] + b[16..18];
  }

  lemma JoinSix(b: seq<Byte>, s0: seq<Byte>, s1: seq<Byte>, s2: seq<Byte>, s3: seq<Byte>, s4: seq<Byte>, s5: seq<Byte>)
    requires |b| == 32 && s0 == b[18..20] && s1 == b[20..22] && s2 == b[22..24] && s3 == b[24..26]
    requires s4 == b[26..28] && s5 == b[28..32]
    ensures s0 + s1 + s2 + s3 + s4 + s5 == b[18..]
  {
    Join(b, 18, 20, 22);
    Join(b, 18, 22, 24);
    Join(b, 18, 24, 26);
    Join(b, 18, 26, 28);
    Join(b, 18, 28, 32);
  }

  lemma FileTailBack(b: seq<Byte>)
    requires |b| == 32
    ensures FileTail(DecodeFile(b)) == b[18..]
  {
    var f := DecodeFile(b);
    Le16Back(b, 18);
    Le16Back(b, 20);
    Le16Back(b, 22);
    Le16Back(b, 24);
    Le16Back(b, 26);
    Le32Back(b, 28);
    JoinSix(b, Le16(f.accessDate), Le16(f.clusterHi), Le16(f.modifyTime), Le16(f.modifyDate), Le16(f.clusterLo), Le32(f.size));
  }

  lemma SplitJoin32(low: U16, high: U16)
    ensures Join32(low, high) % 0x1_0000 == low && Join32(low, high) / 0x1_0000 == high
  {
  }

  lemma Le32Back(b: seq<Byte>, i: nat)
    requires i + 4 <= |b|
    ensures Le32(U32At(b, i)) == b[i..i + 4]
  {
    SplitJoin32(U16At(b, i), U16At(b, i + 2));
    Le16Back(b, i);
    Le16Back(b, i + 2);
    Join(b, i, i + 2, i + 4);
  }

  lemma FileEncodesBack(b: seq<Byte>)
    requires |b| == 32
    ensures EncodeFile(DecodeFile(b)) == Known(b)
  {
    FileHeadBack(b);
    FileTailBack(b);
    KnownSplits(b, 18);
  }

  // Rewriting a slot that was read keeps every byte except the two unknown attribute bits.
  lemma SlotRoundTrip(b: seq<Byte>)
    requires |b| == 32
    ensures Encode(Decode(b)) == Known(b)
  {
    LfnEncodesBack(b);
    FileEncodesBack(b);
  }

  lemma DeletedEncodes(e: Entry)
    requires Shape(e)
    ensures Encode(SetDeleted(e)) == Encode(e)[0 := DELETED_FLAG]
  {
    match e
    case File(f) =>
      assert FileHead(SetDeleted(e).file) == FileHead(f)[0 := DELETED_FLAG];
    case Lfn(l) =>
      assert LfnHead(SetDeleted(e).lfn) == LfnHead(l)[0 := DELETED_FLAG];
  }

  // Marking a slot deleted changes its first byte only, and what is read back is deleted.
  lemma DeletedSlot(b: seq<Byte>)
    requires |b| == 32
    ensures Encode(SetDeleted(Decode(b))) == Known(b)[0 := DELETED_FLAG]
    ensures IsDeleted(Decode(Encode(SetDeleted(Decode(b)))))
  {
    SlotRoundTrip(b);
    DeletedEncodes(Decode(b));
  }

  // --- Serializing and deserializing step by step ---

  class Writer {
    var out: seq<Byte>

    constructor ()
      ensures out == []
    {
      out := [];
    }

    method WriteAll(bytes: seq<Byte>)
      modifies this
      ensures out == old(out) + bytes
    {
      out := out + bytes;
    }

    method WriteU16Le(u: U16)
      modifies this
      ensures out == old(out) + Le16(u)
    {
      out := out + Le16(u);
    }

    method WriteUnits(us: seq<U16>)
      modifies this
      ensures out == old(out) + Units(us)
    {
      for i := 0 to |us|
        invariant out + Units(us[i..]) == old(out) + Units(us)
      {
        assert us[i..][1..] == us[i + 1..];
        WriteU16Le(us[i]);
      }
    }

    method SerializeLfn(l: LfnEntry)
      modifies this
      ensures out == old(out) + EncodeLfn(l)
    {
      WriteAll([l.order]);
      WriteUnits(l.name0);
      WriteAll([l.attrs]);
      WriteAll([l.entryType]);
      WriteAll([l.checksum]);
      assert out == old(out) + LfnHead(l);
      WriteUnits(l.name1);
      WriteU16Le(l.reserved0);
      WriteUnits(l.name2);
      assert out == old(out) + LfnHead(l) + LfnTail(l);
    }

    method SerializeFile(f: FileEntry)
      modifies this
      ensures out == old(out) + EncodeFile(f)
    {
      SerializeFileHead(f);
      SerializeFileTail(f);
    }

    method SerializeFileHead(f: FileEntry)
      modifies this
      ensures out == old(out) + FileHead(f)
    {
      WriteAll(f.name);
      WriteAll([f.attrs]);
      WriteAll([f.reserved0]);
      WriteAll([f.createTime0]);
      WriteU16Le(f.createTime1);
      WriteU16Le(f.createDate);
      assert out == old(out) + FileHead(f);
    }

    method SerializeFileTail(f: FileEntry)
      modifies this
      ensures out == old(out) + FileTail(f)
    {
      WriteU16Le(f.accessDate);
      WriteU16Le(f.clusterHi);
      WriteU16Le(f.modifyTime);
      WriteU16Le(f.modifyDate);
      WriteU16Le(f.clusterLo);
      WriteAll(Le32(f.size));
      assert out == old(out) + FileTail(f);
    }

    method Serialize(e: Entry)
      modifies this
      ensures out == old(out) + Encode(e)
    {
      match e
      case File(f) => SerializeFile(f);
      case Lfn(l) => SerializeLfn(l);
    }
  }

  class Reader {
    const data: seq<Byte>
    var pos: nat

    constructor (data: seq<Byte>)
      ensures this.data == data && pos == 0
    {
      this.data, pos := data, 0;
    }

    method ReadU8() returns (b: Byte)
      requires pos < |data|
      modifies this
      ensures b == data[old(pos)] && pos == old(pos) + 1
    {
      b := data[pos];
      pos := pos + 1;
    }

    method ReadU16Le() returns (u: U16)
      requires pos + 2 <= |data|
      modifies this
      ensures u == U16At(data, old(pos)) && pos == old(pos) + 2
    {
      var low := ReadU8();
      var high := ReadU8();
      u := Join16(low, high);
    }

    method ReadUnits(n: nat) returns (us: seq<U16>)
      requires pos + 2 * n <= |data|
      modifies this
      ensures us == UnitsAt(data, old(pos), n) && pos == old(pos) + 2 * n
    {
      us := [];
      for i := 0 to n
        invariant pos == old(pos) + 2 * i
        invariant us + UnitsAt(data, pos, n - i) == UnitsAt(data, old(pos), n)
      {
        var u := ReadU16Le();
        us := us + [u];
      }
    }

    method ReadFile(name: seq<Byte>, attrs: Byte) returns (f: FileEntry)
      requires |data| == 32 && pos == 12 && name == data[..11] && attrs == data[11] % 0x40
      modifies this
      ensures f == DecodeFile(data)
    {
      var reserved0 := ReadU8();
      var createTime0 := ReadU8();
      var createTime1 := ReadU16Le();
      var createDate := ReadU16Le();
      var accessDate := ReadU16Le();
      var clusterHi := ReadU16Le();
      var modifyTime := ReadU16Le();
      var modifyDate := ReadU16Le();
      var clusterLo := ReadU16Le();
      var sizeLow := ReadU16Le();
      var sizeHigh := ReadU16Le();
      f := FileEntry(name, attrs, reserved0, createTime0, createTime1, createDate, accessDate, clusterHi,
                     modifyTime, modifyDate, clusterLo, Join32(sizeLow, sizeHigh));
    }

    method ReadLfn(name: seq<Byte>, attrs: Byte) returns (l: LfnEntry)
      requires |data| == 32 && pos == 12 && name == data[..11] && attrs == data[11] % 0x40
      modifies this
      ensures l == DecodeLfn(data)
    {
      var entryType := ReadU8();
      var checksum := ReadU8();
      var name1 := ReadUnits(6);
      var reserved0 := ReadU16Le();
      var name2 := ReadUnits(2);
      assert UnitsAt(name, 1, 5) == UnitsAt(data, 1, 5) by {
        assert name[1..1 + 2 * 5] == data[1..1 + 2 * 5];
        SameUnits(name, 1, data, 1, 5);
      }
      l := LfnEntry(name[0], UnitsAt(name, 1, 5), attrs, entryType, checksum, name1, reserved0, name2);
    }

    // The reader holds one slot, or nothing past the end of the directory's last cluster.
    method Deserialize() returns (e: Entry)
      requires pos == 0 && (|data| == 32 || |data| == 0)
      modifies this
      ensures e == DecodeSlot(data)
    {
      if pos == |data| { return File(DefaultFile()); }
      var name := data[..11];
      pos := 11;
      var bits := ReadU8();
      var attrs := bits % 0x40;
      if HasLfnAttrs(attrs) {
        var l := ReadLfn(name, attrs);
        e := Lfn(l);
      } else {
        var f := ReadFile(name, attrs);
        e := File(f);
      }
    }
  }

  lemma {:induction false} SameUnits(b: seq<Byte>, i: nat, c: seq<Byte>, j: nat, n: nat)
    requires i + 2 * n <= |b| && j + 2 * n <= |c| && b[i..i + 2 * n] == c[j..j + 2 * n]
    ensures UnitsAt(b, i, n) == UnitsAt(c, j, n)
    decreases n
  {
    if n > 0 {
      var s, t := b[i..i + 2 * n], c[j..j + 2 * n];
      assert s[0] == t[0] && s[1] == t[1];
      assert b[i + 2..i + 2 + 2 * (n - 1)] == s[2..] == t[2..] == c[j + 2..j + 2 + 2 * (n - 1)];
      SameUnits(b, i + 2, c, j + 2, n - 1);
    }
  }
}
