// Short (8.3) names: ShortNameGenerator and the retry loop of check_for_existence in
// modified_dependencies/rust-fatfs/src/dir.rs.
module ShortNames {
  import opened MachineInts
  import opened DirEntries
  import opened Options

  const SPACE: Byte := 0x20
  const TILDE: Byte := 0x7E

  // --- Characters ---

  predicate Stripped(c: char) { c == ' ' || c == '.' }

  predicate Allowed(c: char) {
    'A' <= c <= 'Z' || 'a' <= c <= 'z' || '0' <= c <= '9'
    || c == '!' || '#' <= c <= ')' || c == '-' || c == '@' || '^' <= c <= '`' || c == '{' || c == '}' || c == '~'
  }

  function Fixed(c: char): char { if Allowed(c) then c else '_' }
  function Upper(c: char): char { if 'a' <= c <= 'z' then c - 'a' + 'A' else c }

  function ShortByte(c: char): (b: Byte)
    ensures 0x20 < b < 0x7F
  {
    Upper(Fixed(c)) as int
  }

  // --- copy_short_name_part ---

  datatype Copied = Copied(bytes: seq<Byte>, fits: bool, lossy: bool)

  function CopyPart(src: string, n: nat, done: seq<Byte>, lossy: bool): Copied {
    if src == "" then Copied(done, true, lossy)
    else if |done| == n then Copied(done, false, lossy)
    else if Stripped(src[0]) then CopyPart(src[1..], n, done, true)
    else CopyPart(src[1..], n, done + [ShortByte(src[0])], lossy || Fixed(src[0]) != src[0])
  }

  method CopyShortNamePart(src: string, n: nat) returns (part: Copied)
    ensures part == CopyPart(src, n, [], false)
  {
    var dst: seq<Byte>, lossyConv := [], false;
    for i := 0 to |src|
      invariant CopyPart(src[i..], n, dst, lossyConv) == CopyPart(src, n, [], false)
    {
      assert src[i..][1..] == src[i + 1..];
      if |dst| == n { return Copied(dst, false, lossyConv); }
      if src[i] == ' ' || src[i] == '.' {
        lossyConv := true;
        continue;
      }
      var fixed := if Allowed(src[i]) then src[i] else '_';
      lossyConv := lossyConv || fixed != src[i];
      dst := dst + [Upper(fixed) as int];
    }
    part := Copied(dst, true, lossyConv);
  }

  predicate Printable(bytes: seq<Byte>) { forall i :: 0 <= i < |bytes| ==> 0x20 < bytes[i] < 0x7F }

  lemma {:induction false} CopyPartShape(src: string, n: nat, done: seq<Byte>, lossy: bool)
    requires |done| <= n && Printable(done)
    ensures var p := CopyPart(src, n, done, lossy); done <= p.bytes && |p.bytes| <= n && Printable(p.bytes)
  {
    if src != "" && |done| < n {
      if Stripped(src[0]) {
        CopyPartShape(src[1..], n, done, true);
      } else {
        CopyPartShape(src[1..], n, done + [ShortByte(src[0])], lossy || Fixed(src[0]) != src[0]);
      }
    }
  }

  function Uppercase(src: string): seq<char> { seq(|src|, i requires 0 <= i < |src| => Upper(src[i])) }
  function Bytes(src: string): seq<int> { seq(|src|, i requires 0 <= i < |src| => src[i] as int) }

  // A part that fits without loss is the source in upper case.
  lemma {:induction false} LosslessPart(src: string, n: nat, done: seq<Byte>, lossy: bool)
    requires var p := CopyPart(src, n, done, lossy); p.fits && !p.lossy
    ensures !lossy && CopyPart(src, n, done, lossy).bytes == done + Bytes(Uppercase(src))
  {
    if src == "" {
      assert done + Bytes(Uppercase(src)) == done;
    } else {
      var c := src[0];
      if Stripped(c) {
        LossyStays(src[1..], n, done);
      } else {
        var lossy' := lossy || Fixed(c) != c;
        LosslessPart(src[1..], n, done + [ShortByte(c)], lossy');
        assert Bytes(Uppercase(src)) == [ShortByte(c)] + Bytes(Uppercase(src[1..]));
      }
    }
  }

  lemma {:induction false} LossyStays(src: string, n: nat, done: seq<Byte>)
    ensures CopyPart(src, n, done, true).lossy
  {
    if src != "" && |done| != n {
      LossyStays(src[1..], n, if Stripped(src[0]) then done else done + [ShortByte(src[0])]);
    }
  }

  // --- Checksums in short names ---

  function HexDigit(d: int): Byte
    requires 0 <= d < 16
  {
    if d < 10 then 0x30 + d else 0x41 + d - 10
  }

  function U16ToHex(x: U16): seq<Byte> {
    [HexDigit(x / 0x1000 % 16), HexDigit(x / 0x100 % 16), HexDigit(x / 0x10 % 16), HexDigit(x % 16)]
  }

  function HexValue(b: Byte): Option<int> {
    if 0x30 <= b <= 0x39 then Some(b - 0x30)
    else if 0x41 <= b <= 0x46 then Some(b - 0x41 + 10)
    else if 0x61 <= b <= 0x66 then Some(b - 0x61 + 10)
    else None
  }

  function ParseDigits(s: seq<Byte>): Option<int> {
    if s == [] then Some(0)
    else
      var high, low := ParseDigits(s[..|s| - 1]), HexValue(s[|s| - 1]);
      if high.Some? && low.Some? then Some(high.value * 16 + low.value) else None
  }

  // str::from_utf8 and u16::from_str_radix(_, 16): lower case and one leading plus sign are accepted.
  function ParseHex(s: seq<Byte>): Option<int> {
    if |s| == 0 then None
    else if s[0] == 0x2B then (if |s| == 1 then None else ParseDigits(s[1..]))
    else ParseDigits(s)
  }

  lemma HexDigitValue(d: int)
    requires 0 <= d < 16
    ensures HexValue(HexDigit(d)) == Some(d)
  {
  }

  lemma ParseSnoc(s: seq<Byte>, d: int, high: int)
    requires 0 <= d < 16 && ParseDigits(s) == Some(high)
    ensures ParseDigits(s + [HexDigit(d)]) == Some(high * 16 + d)
  {
    var t := s + [HexDigit(d)];
    HexDigitValue(d);
    assert t[..|t| - 1] == s;
  }

  lemma HexDigits(x: U16)
    ensures ((x / 0x1000 % 16 * 16 + x / 0x100 % 16) * 16 + x / 0x10 % 16) * 16 + x % 16 == x
  {
    var a, b, c := x / 0x10, x / 0x100, x / 0x1000;
    assert a == b * 16 + a % 16 && b == c * 16 + b % 16;
  }

  lemma HexRoundTrip(x: U16)
    ensures ParseHex(U16ToHex(x)) == Some(x)
  {
    var d0, d1, d2, d3 := x / 0x1000 % 16, x / 0x100 % 16, x / 0x10 % 16, x % 16;
    HexDigits(x);
    var s1: seq<Byte>, s2: seq<Byte> := [HexDigit(d0)], [HexDigit(d0), HexDigit(d1)];
    var s3: seq<Byte> := [HexDigit(d0), HexDigit(d1), HexDigit(d2)];
    assert [] + [HexDigit(d0)] == s1 && s1 + [HexDigit(d1)] == s2;
    assert s2 + [HexDigit(d2)] == s3 && s3 + [HexDigit(d3)] == U16ToHex(x);
    ParseSnoc([], d0, 0);
    ParseSnoc(s1, d1, d0);
    ParseSnoc(s2, d2, d0 * 16 + d1);
    ParseSnoc(s3, d3, (d0 * 16 + d1) * 16 + d2);
  }

  // --- The generator ---

  // A 16-bit bitmap is the set of its set bits.
  datatype Gen = Gen(
    chksum: U16, longBits: set<nat>, chksumBits: set<nat>,
    nameFits: bool, lossy: bool, exact: bool, basenameLen: nat, short: Raw)

  predicate GenOk(g: Gen) { g.basenameLen <= 8 }

  function Min(a: nat, b: nat): nat { if a < b then a else b }
  function LongLen(g: Gen): nat { Min(g.basenameLen, 6) }
  function ShortLen(g: Gen): nat { Min(g.basenameLen, 2) }

  // name[1..].rfind('.'): the last dot that is not the first character.
  function LastDot(name: string): (r: Option<nat>)
    ensures r.Some? ==> 1 <= r.value < |name| && name[r.value] == '.' && '.' !in name[r.value + 1..]
    ensures r.None? ==> |name| == 0 || '.' !in name[1..]
  {
    if |name| <= 1 then None
    else if name[|name| - 1] == '.' then Some(|name| - 1)
    else
      var r := LastDot(name[..|name| - 1]);
      assert name[1..] == name[..|name| - 1][1..] + [name[|name| - 1]];
      assert r.Some? ==> name[r.value + 1..] == name[..|name| - 1][r.value + 1..] + [name[|name| - 1]];
      r
  }

  function Pad(bytes: seq<Byte>, n: nat): (p: seq<Byte>)
    ensures |p| == if |bytes| <= n then n else |bytes|
  {
    bytes + (if |bytes| <= n then seq(n - |bytes|, _ => SPACE) else [])
  }

  // The BSD checksum over characters truncated to 16 bits, in wrapping arithmetic.
  function NameChecksum(name: string): U16 {
    if name == "" then 0
    else
      var c := NameChecksum(name[..|name| - 1]);
      (c / 2 + c % 2 * 0x8000 + name[|name| - 1] as int % 0x1_0000) % 0x1_0000
  }

  function BasePart(name: string): Copied {
    CopyPart(if LastDot(name).None? then name else name[..LastDot(name).value], 8, [], false)
  }

  function ExtPart(name: string): Copied {
    if LastDot(name).None? then Copied([], true, false) else CopyPart(name[LastDot(name).value + 1..], 3, [], false)
  }

  lemma PartShapes(name: string)
    ensures |BasePart(name).bytes| <= 8 && Printable(BasePart(name).bytes)
    ensures |ExtPart(name).bytes| <= 3 && Printable(ExtPart(name).bytes)
  {
    CopyPartShape(if LastDot(name).None? then name else name[..LastDot(name).value], 8, [], false);
    if LastDot(name).Some? {
      CopyPartShape(name[LastDot(name).value + 1..], 3, [], false);
    }
  }

  function NewGen(name: string): (g: Gen)
    ensures GenOk(g)
  {
    PartShapes(name);
    var base, ext := BasePart(name), ExtPart(name);
    Gen(NameChecksum(name), {}, {}, base.fits && ext.fits, base.lossy || ext.lossy, false, |base.bytes|,
        Pad(base.bytes, 8) + Pad(ext.bytes, 3))
  }

  function Digit(b: Byte): Option<nat> { if 0x30 <= b <= 0x39 then Some(b - 0x30) else None }

  // The name `sn` is the long-prefix form with digit d (TEXTFI~1.TXT).
  predicate TakesLong(g: Gen, sn: Raw, d: nat)
    requires GenOk(g)
  {
    var n := LongLen(g);
    sn[n] == TILDE && Digit(sn[n + 1]) == Some(d) && sn[..n] == g.short[..n] && sn[8..] == g.short[8..]
  }

  // The name `sn` is the short prefix, something that parses as the checksum c, and digit d (TE021F~1.TXT).
  predicate TakesChecksum(g: Gen, sn: Raw, c: U16, d: nat)
    requires GenOk(g)
  {
    var n := ShortLen(g);
    && sn[n + 4] == TILDE && Digit(sn[n + 5]) == Some(d) && sn[..n] == g.short[..n] && sn[8..] == g.short[8..]
    && ParseHex(sn[n..n + 4]) == Some(c)
  }

  // The digits that an existing name takes, as the two collision checks read them off.
  function LongHit(g: Gen, sn: Raw): set<nat>
    requires GenOk(g)
  {
    var n := LongLen(g);
    if sn[n] == TILDE && Digit(sn[n + 1]).Some? && sn[..n] == g.short[..n] && sn[8..] == g.short[8..]
    then {Digit(sn[n + 1]).value} else {}
  }

  function ChecksumHit(g: Gen, sn: Raw): set<nat>
    requires GenOk(g)
  {
    var n := ShortLen(g);
    if && sn[n + 4] == TILDE && Digit(sn[n + 5]).Some? && sn[..n] == g.short[..n] && sn[8..] == g.short[8..]
       && ParseHex(sn[n..n + 4]) == Some(g.chksum)
    then {Digit(sn[n + 5]).value} else {}
  }

  function AddExisting(g: Gen, sn: Raw): (g': Gen)
    requires GenOk(g)
    ensures GenOk(g')
  {
    g.(exact := g.exact || sn == g.short, longBits := g.longBits + LongHit(g, sn),
       chksumBits := g.chksumBits + ChecksumHit(g, sn))
  }

  function AddAll(g: Gen, names: seq<Raw>): (g': Gen)
    requires GenOk(g)
    ensures GenOk(g')
  {
    if names == [] then g else AddExisting(AddAll(g, names[..|names| - 1]), names[|names| - 1])
  }

  function NextIteration(g: Gen): Gen {
    g.(chksum := (g.chksum + 1) % 0x1_0000, longBits := {}, chksumBits := {})
  }

  function BuildPrefixed(g: Gen, num: nat, withChksum: bool): Raw
    requires GenOk(g) && 1 <= num <= 9
  {
    var prefix := if withChksum then g.short[..ShortLen(g)] + U16ToHex(g.chksum) else g.short[..LongLen(g)];
    Pad(prefix + [TILDE, 0x30 + num], 8) + g.short[8..]
  }

  // The least of lo .. hi that is not in bits.
  function FirstClear(bits: set<nat>, lo: nat, hi: nat): (r: Option<nat>)
    ensures r.Some? ==> lo <= r.value < hi && r.value !in bits
    ensures r.None? ==> forall i :: lo <= i < hi ==> i in bits
    decreases hi - lo
  {
    if lo >= hi then None else if lo !in bits then Some(lo) else FirstClear(bits, lo + 1, hi)
  }

  function Generate(g: Gen): Option<Raw>
    requires GenOk(g)
  {
    if !g.lossy && g.nameFits && !g.exact then Some(g.short)
    else
      match FirstClear(g.longBits, 1, 5)
      case Some(i) => Some(BuildPrefixed(g, i, false))
      case None =>
        match FirstClear(g.chksumBits, 1, 10)
        case Some(i) => Some(BuildPrefixed(g, i, true))
        case None => None
  }

  // name[1..] is taken before the name is validated: it panics unless a one-byte character comes first.
  predicate Sliceable(name: string) { |name| > 0 && name[0] as int < 0x80 }

  class ShortNameGenerator {
    var chksum: U16
    var longPrefixBitmap: set<nat>
    var prefixChksumBitmap: set<nat>
    var nameFits: bool
    var lossyConv: bool
    var exactMatch: bool
    var basenameLen: nat
    var shortName: Raw

    function State(): Gen reads this {
      Gen(chksum, longPrefixBitmap, prefixChksumBitmap, nameFits, lossyConv, exactMatch, basenameLen, shortName)
    }

    predicate Valid() reads this { GenOk(State()) }

    constructor (name: string)
      requires Sliceable(name)
      ensures State() == NewGen(name)
    {
      PartShapes(name);
      var dot := LastDot(name);
      var base := CopyShortNamePart(if dot.Some? then name[..dot.value] else name, 8);
      var raw := base.bytes + seq(8 - |base.bytes|, _ => SPACE);
      var fits, lossy := base.fits, base.lossy;
      var extBytes: seq<Byte> := [];
      if dot.Some? {
        var ext := CopyShortNamePart(name[dot.value + 1..], 3);
        extBytes := ext.bytes;
        fits, lossy := fits && ext.fits, lossy || ext.lossy;
      }
      var sum := Checksum(name);
      chksum, nameFits, lossyConv, basenameLen := sum, fits, lossy, |base.bytes|;
      shortName := raw + (extBytes + seq(3 - |extBytes|, _ => SPACE));
      longPrefixBitmap, prefixChksumBitmap, exactMatch := {}, {}, false;
    }

    static method Checksum(name: string) returns (sum: U16)
      ensures sum == NameChecksum(name)
    {
      sum := 0;
      for i := 0 to |name|
        invariant sum == NameChecksum(name[..i])
      {
        assert name[..i + 1][..i] == name[..i];
        sum := (sum / 2 + sum % 2 * 0x8000 + name[i] as int % 0x1_0000) % 0x1_0000;
      }
      assert name[..|name|] == name;
    }

    method AddExistingName(sn: Raw)
      requires Valid()
      modifies this
      ensures Valid() && State() == AddExisting(old(State()), sn)
    {
      if sn == shortName {
        exactMatch := true;
      }
      CheckForLongPrefixCollision(sn);
      CheckForShortPrefixCollision(sn);
    }

    method CheckForLongPrefixCollision(sn: Raw)
      requires Valid()
      modifies this`longPrefixBitmap
      ensures longPrefixBitmap == old(longPrefixBitmap) + LongHit(old(State()), sn)
    {
      var n := Min(basenameLen, 6);
      if sn[n] != TILDE { return; }
      var num := Digit(sn[n + 1]);
      if num.Some? && sn[..n] == shortName[..n] && sn[8..] == shortName[8..] {
        longPrefixBitmap := longPrefixBitmap + {num.value};
      }
    }

    method CheckForShortPrefixCollision(sn: Raw)
      requires Valid()
      modifies this`prefixChksumBitmap
      ensures prefixChksumBitmap == old(prefixChksumBitmap) + ChecksumHit(old(State()), sn)
    {
      var n := Min(basenameLen, 2);
      if sn[n + 4] != TILDE { return; }
      var num := Digit(sn[n + 4 + 1]);
      if num.Some? && sn[..n] == shortName[..n] && sn[8..] == shortName[8..] {
        if ParseHex(sn[n..n + 4]) == Some(chksum) {
          prefixChksumBitmap := prefixChksumBitmap + {num.value};
        }
      }
    }

    method GenerateName() returns (name: Option<Raw>)
      requires Valid()
      ensures name == Generate(State())
    {
      if !lossyConv && nameFits && !exactMatch { return Some(shortName); }
      for i := 1 to 5
        invariant FirstClear(longPrefixBitmap, i, 5) == FirstClear(longPrefixBitmap, 1, 5)
      {
        if i !in longPrefixBitmap { return Some(BuildPrefixed(State(), i, false)); }
      }
      for i := 1 to 10
        invariant FirstClear(prefixChksumBitmap, i, 10) == FirstClear(prefixChksumBitmap, 1, 10)
      {
        if i !in prefixChksumBitmap { return Some(BuildPrefixed(State(), i, true)); }
      }
      name := None;
    }

    method Advance()
      modifies this
      ensures State() == NextIteration(old(State()))
    {
      chksum := (chksum + 1) % 0x1_0000;
      longPrefixBitmap, prefixChksumBitmap := {}, {};
    }
  }

  // --- What a scan of the directory leaves in the generator ---

  // The parts of the generator that no scan and no retry changes.
  predicate SameName(g: Gen, h: Gen) {
    g.nameFits == h.nameFits && g.lossy == h.lossy && g.basenameLen == h.basenameLen && g.short == h.short
  }

  predicate LongTaken(g: Gen, names: seq<Raw>, d: nat)
    requires GenOk(g)
  {
    exists k :: 0 <= k < |names| && TakesLong(g, names[k], d)
  }

  predicate ChecksumTaken(g: Gen, names: seq<Raw>, c: U16, d: nat)
    requires GenOk(g)
  {
    exists k :: 0 <= k < |names| && TakesChecksum(g, names[k], c, d)
  }

  lemma {:induction false} AddAllKeepsName(g: Gen, names: seq<Raw>)
    requires GenOk(g)
    ensures SameName(g, AddAll(g, names)) && AddAll(g, names).chksum == g.chksum
    ensures AddAll(g, names).exact <==> g.exact || g.short in names
  {
    if names != [] {
      var init, last := names[..|names| - 1], names[|names| - 1];
      AddAllKeepsName(g, init);
      assert names == init + [last];
    }
  }

  lemma {:induction false} AddAllLong(g: Gen, names: seq<Raw>, d: nat)
    requires GenOk(g)
    ensures d in AddAll(g, names).longBits <==> d in g.longBits || LongTaken(g, names, d)
  {
    if names != [] {
      var init, last := names[..|names| - 1], names[|names| - 1];
      AddAllKeepsName(g, init);
      AddAllLong(g, init, d);
      assert LongTaken(g, names, d) <==> LongTaken(g, init, d) || TakesLong(g, last, d) by {
        if LongTaken(g, init, d) {
          var k :| 0 <= k < |init| && TakesLong(g, init[k], d);
          assert TakesLong(g, names[k], d);
        }
        if TakesLong(g, last, d) { assert TakesLong(g, names[|names| - 1], d); }
        if LongTaken(g, names, d) {
          var k :| 0 <= k < |names| && TakesLong(g, names[k], d);
          assert k < |init| ==> TakesLong(g, init[k], d);
        }
      }
    }
  }

  lemma {:induction false} AddAllChecksum(g: Gen, names: seq<Raw>, d: nat)
    requires GenOk(g)
    ensures d in AddAll(g, names).chksumBits <==> d in g.chksumBits || ChecksumTaken(g, names, g.chksum, d)
  {
    if names != [] {
      var init, last := names[..|names| - 1], names[|names| - 1];
      AddAllKeepsName(g, init);
      AddAllChecksum(g, init, d);
      assert ChecksumTaken(g, names, g.chksum, d) <==> ChecksumTaken(g, init, g.chksum, d) || TakesChecksum(g, last, g.chksum, d) by {
        if ChecksumTaken(g, init, g.chksum, d) {
          var k :| 0 <= k < |init| && TakesChecksum(g, init[k], g.chksum, d);
          assert TakesChecksum(g, names[k], g.chksum, d);
        }
        if TakesChecksum(g, last, g.chksum, d) { assert TakesChecksum(g, names[|names| - 1], g.chksum, d); }
        if ChecksumTaken(g, names, g.chksum, d) {
          var k :| 0 <= k < |names| && TakesChecksum(g, names[k], g.chksum, d);
          assert k < |init| ==> TakesChecksum(g, init[k], g.chksum, d);
        }
      }
    }
  }

  // Each collision check covers the form it is named after.
  lemma LongFormTakes(g: Gen, i: nat)
    requires GenOk(g) && 1 <= i <= 9
    ensures TakesLong(g, BuildPrefixed(g, i, false), i)
  {
    var n, s := LongLen(g), BuildPrefixed(g, i, false);
    assert s[..n] == g.short[..n] && s[8..] == g.short[8..];
  }

  lemma ChecksumFormTakes(g: Gen, i: nat)
    requires GenOk(g) && 1 <= i <= 9
    ensures TakesChecksum(g, BuildPrefixed(g, i, true), g.chksum, i)
  {
    var n, s := ShortLen(g), BuildPrefixed(g, i, true);
    assert s[..n] == g.short[..n] && s[8..] == g.short[8..];
    assert s[n..n + 4] == U16ToHex(g.chksum);
    HexRoundTrip(g.chksum);
  }

  // The generator after k failed rounds, and with the directory scanned once more.
  function Retried(g: Gen, names: seq<Raw>, k: nat): (h: Gen)
    requires GenOk(g)
    ensures GenOk(h)
    decreases k, 0
  {
    if k == 0 then g else NextIteration(Scanned(g, names, k - 1))
  }

  function Scanned(g: Gen, names: seq<Raw>, k: nat): (h: Gen)
    requires GenOk(g)
    ensures GenOk(h)
    decreases k, 1
  {
    AddAll(Retried(g, names, k), names)
  }

  predicate Fresh(g: Gen) { g.longBits == {} && g.chksumBits == {} && !g.exact && GenOk(g) }

  function ChecksumAt(g: Gen, k: nat): U16 { (g.chksum + k) % 0x1_0000 }

  lemma NextChecksum(c: U16, k: nat)
    ensures ((c + k) % 0x1_0000 + 1) % 0x1_0000 == (c + (k + 1)) % 0x1_0000
  {
  }

  lemma {:induction false} ScannedKeeps(g: Gen, names: seq<Raw>, k: nat)
    requires Fresh(g)
    ensures var h := Scanned(g, names, k);
            SameName(g, h) && (h.exact <==> g.short in names) && h.chksum == ChecksumAt(g, k)
    decreases k, 1
  {
    RetriedKeeps(g, names, k);
    AddAllKeepsName(Retried(g, names, k), names);
  }

  lemma {:induction false} RetriedKeeps(g: Gen, names: seq<Raw>, k: nat)
    requires Fresh(g)
    ensures var h := Retried(g, names, k);
            SameName(g, h) && h.chksum == ChecksumAt(g, k) && h.longBits == {} && h.chksumBits == {}
            && (h.exact ==> g.short in names)
    decreases k, 0
  {
    if k > 0 {
      ScannedKeeps(g, names, k - 1);
      NextChecksum(g.chksum, k - 1);
    }
  }

  lemma SameTaken(g: Gen, h: Gen, names: seq<Raw>, c: U16, d: nat)
    requires GenOk(g) && GenOk(h) && SameName(g, h)
    ensures LongTaken(g, names, d) == LongTaken(h, names, d)
    ensures ChecksumTaken(g, names, c, d) == ChecksumTaken(h, names, c, d)
  {
    assert forall sn: Raw :: TakesLong(g, sn, d) == TakesLong(h, sn, d);
    assert forall sn: Raw :: TakesChecksum(g, sn, c, d) == TakesChecksum(h, sn, c, d);
  }

  lemma ScannedBits(g: Gen, names: seq<Raw>, k: nat, d: nat)
    requires Fresh(g)
    ensures d in Scanned(g, names, k).longBits <==> LongTaken(g, names, d)
    ensures d in Scanned(g, names, k).chksumBits <==> ChecksumTaken(g, names, ChecksumAt(g, k), d)
  {
    var h := Retried(g, names, k);
    RetriedKeeps(g, names, k);
    AddAllLong(h, names, d);
    AddAllChecksum(h, names, d);
    SameTaken(g, h, names, ChecksumAt(g, k), d);
  }

  lemma NotTakenIsNew(g: Gen, names: seq<Raw>, s: Raw, c: U16, d: nat)
    requires GenOk(g)
    requires (TakesLong(g, s, d) && !LongTaken(g, names, d)) || (TakesChecksum(g, s, c, d) && !ChecksumTaken(g, names, c, d))
    ensures s !in names
  {
  }

  // In every round, in each of the three forms, the generated name is none of the directory's raw names.
  lemma GeneratedNameIsNew(g: Gen, names: seq<Raw>, k: nat)
    requires Fresh(g) && Generate(Scanned(g, names, k)).Some?
    ensures Generate(Scanned(g, names, k)).value !in names
  {
    var h := Scanned(g, names, k);
    var s := Generate(h).value;
    ScannedKeeps(g, names, k);
    if h.lossy || !h.nameFits || h.exact {
      match FirstClear(h.longBits, 1, 5)
      case Some(i) =>
        LongFormTakes(h, i);
        ScannedBits(g, names, k, i);
        NotTakenIsNew(g, names, s, h.chksum, i);
      case None =>
        var i := FirstClear(h.chksumBits, 1, 10).value;
        ChecksumFormTakes(h, i);
        ScannedBits(g, names, k, i);
        NotTakenIsNew(g, names, s, h.chksum, i);
    }
  }

  // --- Termination ---

  predicate Blocked(g: Gen, names: seq<Raw>, c: U16)
    requires GenOk(g)
  {
    forall d: nat :: 1 <= d < 10 ==> ChecksumTaken(g, names, c, d)
  }

  // Neither the name as it is nor a long prefix can be used; this is the same in every round.
  predicate PlainFormsTaken(g: Gen, names: seq<Raw>)
    requires GenOk(g)
  {
    (g.lossy || !g.nameFits || g.short in names) && forall d: nat :: 1 <= d < 5 ==> LongTaken(g, names, d)
  }

  lemma RoundFailsIff(g: Gen, names: seq<Raw>, k: nat)
    requires Fresh(g)
    ensures Generate(Scanned(g, names, k)).None? <==> PlainFormsTaken(g, names) && Blocked(g, names, ChecksumAt(g, k))
  {
    var h := Scanned(g, names, k);
    ScannedKeeps(g, names, k);
    forall d: nat
      ensures d in h.longBits <==> LongTaken(g, names, d)
      ensures d in h.chksumBits <==> ChecksumTaken(g, names, ChecksumAt(g, k), d)
    {
      ScannedBits(g, names, k, d);
    }
  }

  predicate FailsAt(g: Gen, names: seq<Raw>, k: nat)
    requires GenOk(g)
  {
    Generate(Scanned(g, names, k)).None?
  }

  lemma FailsAlwaysBlocks(g: Gen, names: seq<Raw>, c: U16)
    requires Fresh(g) && forall k: nat :: FailsAt(g, names, k)
    ensures PlainFormsTaken(g, names) && Blocked(g, names, c)
  {
    var k: nat := if c >= g.chksum then c - g.chksum else c - g.chksum + 0x1_0000;
    assert ChecksumAt(g, k) == c;
    assert FailsAt(g, names, k);
    RoundFailsIff(g, names, k);
  }

  // The retry loop never ends exactly when the plain forms are taken and every checksum is blocked.
  lemma LoopsForeverIff(g: Gen, names: seq<Raw>)
    requires Fresh(g)
    ensures (forall k: nat :: FailsAt(g, names, k))
            <==> PlainFormsTaken(g, names) && forall c: U16 :: Blocked(g, names, c)
  {
    if forall k: nat :: FailsAt(g, names, k) {
      FailsAlwaysBlocks(g, names, 0);
      forall c: U16
        ensures Blocked(g, names, c)
      {
        FailsAlwaysBlocks(g, names, c);
      }
    } else {
      var k: nat :| !FailsAt(g, names, k);
      RoundFailsIff(g, names, k);
    }
  }

  // Nine names, one for each digit, that block the checksum c.
  lemma {:induction false} BlockingNames(g: Gen, names: seq<Raw>, c: U16, n: nat) returns (s: set<Raw>)
    requires GenOk(g) && Blocked(g, names, c) && n <= 9
    ensures |s| == n
    ensures forall x :: x in s ==> x in names && exists d: nat :: 1 <= d <= n && TakesChecksum(g, x, c, d)
  {
    if n == 0 {
      s := {};
    } else {
      var s0 := BlockingNames(g, names, c, n - 1);
      assert ChecksumTaken(g, names, c, n);
      var k :| 0 <= k < |names| && TakesChecksum(g, names[k], c, n);
      assert names[k] !in s0;
      s := s0 + {names[k]};
    }
  }

  lemma {:induction false} FailuresNeedNames(g: Gen, names: seq<Raw>, k: nat) returns (s: set<Raw>)
    requires GenOk(g) && k <= 0x1_0000
    requires forall j: nat :: j < k ==> Blocked(g, names, ChecksumAt(g, j))
    ensures |s| == 9 * k
    ensures forall x :: x in s ==> x in names && exists j: nat, d: nat :: j < k && TakesChecksum(g, x, ChecksumAt(g, j), d)
  {
    if k == 0 {
      s := {};
    } else {
      var s0 := FailuresNeedNames(g, names, k - 1);
      var s1 := BlockingNames(g, names, ChecksumAt(g, k - 1), 9);
      forall x | x in s1
        ensures x !in s0
      {
        forall j: nat, d: nat | j < k - 1
          ensures !TakesChecksum(g, x, ChecksumAt(g, j), d)
        {
          assert ChecksumAt(g, j) != ChecksumAt(g, k - 1);
        }
      }
      assert |s0 + s1| == |s0| + |s1| by { assert s0 !! s1; }
      s := s0 + s1;
    }
  }

  lemma {:induction false} SetOfSeq(names: seq<Raw>, s: set<Raw>)
    requires forall x :: x in s ==> x in names
    ensures |s| <= |names|
  {
    if names == [] {
      assert s == {};
    } else {
      var last := names[|names| - 1];
      SetOfSeq(names[..|names| - 1], s - {last});
    }
  }

  // k rounds in a row can fail only in a directory with at least 9 * k entries.
  lemma FailedRoundsBound(g: Gen, names: seq<Raw>, k: nat)
    requires Fresh(g) && k <= 0x1_0000
    requires forall j: nat :: j < k ==> FailsAt(g, names, j)
    ensures 9 * k <= |names|
  {
    forall j: nat | j < k
      ensures Blocked(g, names, ChecksumAt(g, j))
    {
      assert FailsAt(g, names, j);
      RoundFailsIff(g, names, j);
    }
    var s := FailuresNeedNames(g, names, k);
    SetOfSeq(names, s);
  }

  // --- The shape of generated names ---

  // No generated name starts like an end marker or a deleted slot.
  lemma GeneratedNameIsLive(name: string, names: seq<Raw>, k: nat)
    requires |name| > 0 && Generate(Scanned(NewGen(name), names, k)).Some?
    ensures 0x20 < Generate(Scanned(NewGen(name), names, k)).value[0] < 0x7F
  {
    var g := NewGen(name);
    var h := Scanned(g, names, k);
    ScannedKeeps(g, names, k);
    PartShapes(name);
    if g.basenameLen > 0 {
      assert g.short[0] == BasePart(name).bytes[0];
    } else if !g.lossy {
      NothingCopiedIsLossy(if LastDot(name).None? then name else name[..LastDot(name).value], 8, false);
    }
  }

  lemma {:induction false} NothingCopiedIsLossy(src: string, n: nat, lossy: bool)
    requires n > 0 && (src != "" || lossy) && CopyPart(src, n, [], lossy).bytes == []
    ensures CopyPart(src, n, [], lossy).lossy
  {
    if src != "" {
      if Stripped(src[0]) {
        NothingCopiedIsLossy(src[1..], n, true);
      } else {
        CopyPartShape(src[1..], n, [] + [ShortByte(src[0])], lossy || Fixed(src[0]) != src[0]);
      }
    }
  }

  // --- check_for_existence ---

  // What the loop sees of a directory entry: its raw short name, whether its name matches the wanted one,
  // and whether it is a directory.
  datatype Seen = Seen(raw: Raw, eqName: bool, isDir: bool)

  datatype Found = Existing(index: nat) | WrongKind | NotFound
  datatype Check = Entry(index: nat) | InvalidInput | ShortName(name: Raw) | Panicked

  function RawNames(entries: seq<Seen>): (names: seq<Raw>)
    ensures |names| == |entries|
  {
    if entries == [] then [] else RawNames(entries[..|entries| - 1]) + [entries[|entries| - 1].raw]
  }

  predicate NoMatch(entries: seq<Seen>) { forall k :: 0 <= k < |entries| ==> !entries[k].eqName }

  predicate FirstMatch(entries: seq<Seen>, i: nat) { i < |entries| && entries[i].eqName && NoMatch(entries[..i]) }

  lemma AddNext(g: Gen, entries: seq<Seen>, i: nat)
    requires GenOk(g) && i < |entries|
    ensures AddAll(g, RawNames(entries[..i + 1])) == AddExisting(AddAll(g, RawNames(entries[..i])), entries[i].raw)
    ensures NoMatch(entries[..i]) && !entries[i].eqName ==> NoMatch(entries[..i + 1])
  {
    assert entries[..i + 1][..i] == entries[..i];
    var names := RawNames(entries[..i + 1]);
    assert names[..|names| - 1] == RawNames(entries[..i]);
  }

  method FindEntry(entries: seq<Seen>, isDir: Option<bool>, gen: ShortNameGenerator) returns (r: Found)
    requires gen.Valid()
    modifies gen
    ensures gen.Valid()
    ensures r.NotFound? ==> NoMatch(entries) && gen.State() == AddAll(old(gen.State()), RawNames(entries))
    ensures r.Existing? ==> FirstMatch(entries, r.index) && (isDir.Some? ==> entries[r.index].isDir == isDir.value)
    ensures r.WrongKind? ==> exists i: nat :: FirstMatch(entries, i) && isDir.Some? && entries[i].isDir != isDir.value
  {
    for i := 0 to |entries|
      invariant gen.Valid() && NoMatch(entries[..i])
      invariant gen.State() == AddAll(old(gen.State()), RawNames(entries[..i]))
    {
      if entries[i].eqName {
        assert FirstMatch(entries, i);
        if isDir.Some? && entries[i].isDir != isDir.value { return WrongKind; }
        return Existing(i);
      }
      gen.AddExistingName(entries[i].raw);
      AddNext(old(gen.State()), entries, i);
    }
    assert entries[..|entries|] == entries;
    r := NotFound;
  }

  // A name that check_for_existence may return for the raw names of a directory.
  ghost predicate GoodName(name: string, names: seq<Raw>, s: Raw) {
    && s !in names && 0x20 < s[0] < 0x7F
    && exists k: nat :: 9 * k <= |names| && Generate(Scanned(NewGen(name), names, k)) == Some(s)
  }

  predicate FailedBefore(g: Gen, names: seq<Raw>, k: nat)
    requires GenOk(g)
  {
    k <= 0x1_0000 && 9 * k <= |names| && forall j: nat :: j < k ==> FailsAt(g, names, j)
  }

  lemma NextFailure(g: Gen, names: seq<Raw>, k: nat)
    requires Fresh(g) && FailedBefore(g, names, k) && FailsAt(g, names, k) && |names| < 9 * 0x1_0000
    ensures FailedBefore(g, names, k + 1) && k < 0x1_0000
  {
    FailedRoundsBound(g, names, k + 1);
  }

  lemma SuccessIsGood(name: string, names: seq<Raw>, k: nat)
    requires |name| > 0 && FailedBefore(NewGen(name), names, k) && !FailsAt(NewGen(name), names, k)
    ensures GoodName(name, names, Generate(Scanned(NewGen(name), names, k)).value)
  {
    GeneratedNameIsNew(NewGen(name), names, k);
    GeneratedNameIsLive(name, names, k);
  }

  ghost predicate CheckAnswers(entries: seq<Seen>, name: string, isDir: Option<bool>, r: Check) {
    match r
    case Entry(i) => FirstMatch(entries, i) && (isDir.Some? ==> entries[i].isDir == isDir.value)
    case InvalidInput => exists i: nat :: FirstMatch(entries, i) && isDir.Some? && entries[i].isDir != isDir.value
    case ShortName(s) => NoMatch(entries) && GoodName(name, RawNames(entries), s)
    case Panicked => !Sliceable(name)
  }

  // The generator stands before round k, after k failures.
  ghost predicate AtRound(h: Gen, name: string, names: seq<Raw>, k: nat) {
    h == Retried(NewGen(name), names, k) && FailedBefore(NewGen(name), names, k)
  }

  lemma RoundSucceeds(h: Gen, name: string, names: seq<Raw>, k: nat)
    requires |name| > 0 && AtRound(h, name, names, k) && Generate(AddAll(h, names)).Some?
    ensures GoodName(name, names, Generate(AddAll(h, names)).value)
  {
    SuccessIsGood(name, names, k);
  }

  lemma RoundFails(h: Gen, name: string, names: seq<Raw>, k: nat)
    requires AtRound(h, name, names, k) && Generate(AddAll(h, names)).None? && |names| < 9 * 0x1_0000
    ensures AtRound(NextIteration(AddAll(h, names)), name, names, k + 1) && k < 0x1_0000
  {
    NextFailure(NewGen(name), names, k);
  }

  // A generated name is new in the directory, whichever round produced it, and the loop ends within
  // |entries| / 9 + 1 rounds. Slicing the name comes first, so a name that cannot be sliced has no answer.
  method CheckForExistence(entries: seq<Seen>, name: string, isDir: Option<bool>) returns (r: Check)
    requires |entries| < 9 * 0x1_0000
    ensures CheckAnswers(entries, name, isDir, r) && (r.Panicked? <==> !Sliceable(name))
  {
    if !Sliceable(name) { return Panicked; }
    ghost var names, k: nat := RawNames(entries), 0;
    var gen := new ShortNameGenerator(name);
    while true
      invariant gen.Valid() && fresh(gen) && AtRound(gen.State(), name, names, k)
      decreases 0x1_0000 - k
    {
      ghost var h := gen.State();
      var found := FindEntry(entries, isDir, gen);
      if found.Existing? { return Entry(found.index); }
      if found.WrongKind? { return InvalidInput; }
      var short := gen.GenerateName();
      if short.Some? {
        RoundSucceeds(h, name, names, k);
        return ShortName(short.value);
      }
      gen.Advance();
      RoundFails(h, name, names, k);
      k := k + 1;
    }
  }
}
