// The geometry of a FAT volume: modified_dependencies/rust-fatfs/src/boot_sector.rs, with the cluster
// thresholds of fs.rs (section "FAT Type Determination" of the Microsoft FAT32 File System Specification 1.03).
module FatGeometry {
  import opened Options

  datatype FatType = Fat12 | Fat16 | Fat32

  const U32_SIZE := 0x1_0000_0000
  const RESERVED_FAT_ENTRIES := 2

  function FromClusters(clusters: int): FatType {
    if clusters < 4085 then Fat12 else if clusters < 65525 then Fat16 else Fat32
  }

  function BitsPerFatEntry(t: FatType): nat {
    match t
    case Fat12 => 12
    case Fat16 => 16
    case Fat32 => 32
  }

  function MaxClusters(t: FatType): nat {
    match t
    case Fat12 => 4084
    case Fat16 => 65524
    case Fat32 => 0x0FFF_FFF4
  }

  predicate SectorSize(bps: nat) { bps == 512 || bps == 1024 || bps == 2048 || bps == 4096 }

  // --- Powers of two ---

  function CountOnes(n: nat): nat { if n == 0 then 0 else n % 2 + CountOnes(n / 2) }

  predicate IsPow2(n: nat) { n == 1 || (n > 1 && n % 2 == 0 && IsPow2(n / 2)) }

  lemma {:induction false} CountOnesZero(n: nat)
    ensures CountOnes(n) == 0 <==> n == 0
  {
    if n > 0 { CountOnesZero(n / 2); }
  }

  lemma {:induction false} OneBitIff(n: nat)
    ensures CountOnes(n) == 1 <==> IsPow2(n)
  {
    if n > 1 {
      OneBitIff(n / 2);
      CountOnesZero(n / 2);
    }
  }

  // u64::next_power_of_two
  function NextPow2(n: nat): (p: nat)
    ensures p >= n && p >= 1
  {
    if n <= 1 then 1 else 2 * NextPow2((n + 1) / 2)
  }

  lemma {:induction false} NextPow2IsLeast(n: nat)
    ensures IsPow2(NextPow2(n)) && (n >= 1 ==> NextPow2(n) < 2 * n)
  {
    if n > 1 { NextPow2IsLeast((n + 1) / 2); }
  }

  lemma {:induction false} QuotientIsPow2(n: nat, d: nat)
    requires IsPow2(n) && IsPow2(d) && d <= n
    ensures n / d >= 1 && IsPow2(n / d) && n / d * d == n
  {
    if d > 1 {
      QuotientIsPow2(n / 2, d / 2);
      HalveBoth(n / 2, d / 2);
      DoubleBoth(n / 2 / (d / 2), d / 2, n / 2);
    }
  }

  lemma DoubleBoth(q: nat, d: nat, n: nat)
    requires q * d == n
    ensures q * (2 * d) == 2 * n
  {
  }

  lemma HalveBoth(n: nat, d: nat)
    requires d > 0
    ensures (2 * n) / (2 * d) == n / d
  {
    var q := n / d;
    assert n == q * d + n % d;
    DivIs(2 * n, 2 * d, q);
  }

  lemma DivIs(n: nat, d: nat, q: nat)
    requires d > 0 && q * d <= n < q * d + d
    ensures n / d == q
  {
    var q' := n / d;
    assert n == q' * d + n % d;
    if q' < q { MulMono(q' + 1, q, d); }
    if q < q' { MulMono(q + 1, q', d); }
  }

  lemma MulMono(a: int, b: int, c: nat)
    requires a <= b
    ensures a * c <= b * c
  {
  }

  lemma MulCancel(a: int, b: int, c: nat)
    requires c > 0 && a * c <= b * c
    ensures a <= b
  {
    if a > b { MulMono(b + 1, a, c); }
  }

  // --- The size of the FAT ---

  // FAT entries for a cluster's worth of sectors
  function EntriesPerRow(bps: nat, spc: nat, t: FatType): nat { spc * bps * 8 / BitsPerFatEntry(t) }

  // determine_sectors_per_fat
  function SectorsPerFat(total: nat, bps: nat, spc: nat, t: FatType, reserved: nat, root: nat, fats: nat): nat
    requires reserved + root <= total && fats > 0
  {
    var t0 := total - reserved - root;
    var t1 := t0 + 2 * spc;
    var t2 := EntriesPerRow(bps, spc, t) + fats;
    (t1 + t2 - 1) / t2
  }

  lemma CeilDiv(n: nat, d: nat)
    requires d > 0
    ensures var s := (n + d - 1) / d; n <= s * d < n + d
  {
    var s := (n + d - 1) / d;
    assert n + d - 1 == s * d + (n + d - 1) % d;
  }

  // What the formula says about s sectors for each of f FATs, with q FAT entries for a cluster's worth of
  // sectors, t0 sectors for FATs and data, and c sectors in a cluster.
  predicate Solves(s: nat, t0: nat, c: nat, q: nat, f: nat) { t0 + 2 * c <= s * (q + f) < t0 + 2 * c + q + f }

  lemma FormulaSolves(total: nat, bps: nat, spc: nat, t: FatType, reserved: nat, root: nat, fats: nat)
    requires reserved + root <= total && fats > 0
    ensures Solves(SectorsPerFat(total, bps, spc, t, reserved, root, fats),
                   total - reserved - root, spc, EntriesPerRow(bps, spc, t), fats)
  {
    CeilDiv(total - reserved - root + 2 * spc, EntriesPerRow(bps, spc, t) + fats);
  }

  // The FATs leave room for data.
  lemma FatsFit(s: nat, t0: nat, c: nat, q: nat, f: nat)
    requires Solves(s, t0, c, q, f) && 1 <= f <= 2 && c >= 1 && q >= 128 * c && t0 >= 9
    ensures f * s < t0
  {
    if f * s >= t0 {
      assert s >= 5;
      assert s * (q + f) == s * q + s * f;
      assert (s - 1) * q == s * q - q;
      MulMono(4, s - 1, q);
    }
  }

  // There is an entry for every cluster and two more.
  lemma FatIsBigEnough(s: nat, t0: nat, c: nat, b: nat, e: nat, f: nat, k: nat)
    requires c >= 1 && e >= 1 && Solves(s, t0, c, c * b / e, f) && f * s <= t0 && k == (t0 - f * s) / c
    ensures e * (k + 2) <= s * b
  {
    var q := c * b / e;
    var data := t0 - f * s;
    assert s * (q + f) == s * q + f * s;
    assert k * c <= data;
    assert (k + 2) * c <= s * q;
    assert q * e <= c * b;
    MulMono((k + 2) * c, s * q, e);
    MulMono(q * e, c * b, s);
    assert e * (k + 2) * c == (k + 2) * c * e;
    assert s * b * c == c * b * s;
    assert s * q * e == q * e * s;
    MulCancel(e * (k + 2), s * b, c);
  }

  // c * floor(b / e) <= floor(c * b / e)
  lemma FloorOfProduct(c: nat, b: nat, e: nat)
    requires e >= 1
    ensures c * (b / e) <= c * b / e
  {
    var r := b / e;
    MulMono(r * e, b, c);
    assert r * e * c == c * r * e;
    var q := c * b / e;
    assert c * b == q * e + (c * b) % e;
    if q < c * r { MulMono(q + 1, c * r, e); }
  }

  lemma FatRowsBound(s: nat, t0: nat, c: nat, b: nat, e: nat, f: nat, k: nat)
    requires c >= 1 && e >= 1 && Solves(s, t0, c, c * b / e, f) && 1 <= f <= 2 && f * s <= t0 && k == (t0 - f * s) / c && s >= 1
    ensures (s - 1) * (b / e) <= k + 3
  {
    var q := c * b / e;
    FloorOfProduct(c, b, e);
    ClustersAtLeastIff(t0 - f * s, c, k + 1);
    RowsBoundWith(s, t0, c, b / e, q, f, k);
  }

  lemma RowsBoundWith(s: nat, t0: nat, c: nat, r: nat, q: nat, f: nat, k: nat)
    requires c * r <= q && Solves(s, t0, c, q, f) && 1 <= f <= 2 && t0 - f * s < (k + 1) * c && s >= 1 && c >= 1
    ensures (s - 1) * r <= k + 3
  {
    RowsBelow(s, t0, c, q, f, k);
    RowsCancel(s - 1, r, c, q, k + 3);
  }

  lemma RowsBelow(s: nat, t0: nat, c: nat, q: nat, f: nat, k: nat)
    requires Solves(s, t0, c, q, f) && 1 <= f <= 2 && t0 - f * s < (k + 1) * c && s >= 1
    ensures (s - 1) * q <= (k + 3) * c
  {
    assert s * (q + f) == s * q + f * s && (s - 1) * q == s * q - q;
    assert (k + 3) * c == (k + 1) * c + 2 * c;
  }

  lemma RowsCancel(s: nat, r: nat, c: nat, q: nat, m: nat)
    requires c > 0 && c * r <= q && s * q <= m * c
    ensures s * r <= m
  {
    MulMono(c * r, q, s);
    assert s * r * c == c * r * s;
    MulCancel(s * r, m, c);
  }

  // At most two sectors' worth of entries are spare. A FAT12 table loses a fraction of an entry in each
  // sector, but has at most twelve sectors.
  lemma Fat12IsNotTooBig(s: nat, b: nat, k: nat)
    requires b >= 4096 && s >= 1 && (s - 1) * (b / 12) <= k + 3 && k <= 4084
    ensures s * b / 12 <= k + 2 + 2 * (b / 12) && s <= 12
  {
    var r := b / 12;
    assert r >= 341;
    assert s <= 12 by {
      if s > 12 {
        MulMono(12, s - 1, r);
        assert false;
      }
    }
    assert (s - 1) * r == s * r - r;
    MulMono(b, r * 12 + 11, s);
    assert s * (r * 12 + 11) == 12 * (s * r) + 11 * s;
  }

  lemma WholeEntries(s: nat, b: nat, e: nat)
    requires e > 0 && b % e == 0
    ensures s * b / e == s * (b / e)
  {
    assert b == b / e * e;
    assert s * b == s * (b / e) * e;
    DivIs(s * b, e, s * (b / e));
  }

  lemma Fat16IsNotTooBig(s: nat, b: nat, k: nat)
    requires b == 4096 || b == 8192 || b == 16384 || b == 32768
    requires s >= 1 && (s - 1) * (b / 16) <= k + 3 && k <= 65524
    ensures s * b / 16 <= k + 2 + 2 * (b / 16) && s <= 257
  {
    WholeEntries(s, b, 16);
  }

  lemma Fat32IsNotTooBig(s: nat, b: nat, k: nat)
    requires b == 4096 || b == 8192 || b == 16384 || b == 32768
    requires s >= 1 && (s - 1) * (b / 32) <= k + 3
    ensures s * b / 32 <= k + 2 + 2 * (b / 32)
  {
    WholeEntries(s, b, 32);
  }

  lemma FatIsNotTooBig(s: nat, b: nat, t: FatType, k: nat)
    requires b == 4096 || b == 8192 || b == 16384 || b == 32768
    requires s >= 1 && (s - 1) * (b / BitsPerFatEntry(t)) <= k + 3 && k <= MaxClusters(t)
    ensures s * b / BitsPerFatEntry(t) <= k + 2 + 2 * (b / BitsPerFatEntry(t))
    ensures t != Fat32 ==> s <= 257
  {
    match t
    case Fat12 => Fat12IsNotTooBig(s, b, k);
    case Fat16 => Fat16IsNotTooBig(s, b, k);
    case Fat32 => Fat32IsNotTooBig(s, b, k);
  }

  lemma DivAtLeast(n: nat, d: nat, q: nat)
    requires d > 0 && d * q <= n
    ensures q <= n / d
  {
    if n / d < q { MulMono(n / d + 1, q, d); }
  }

  // --- try_fs_geometry ---

  function ReservedSectors(t: FatType): nat { if t == Fat32 then 8 else 1 }

  datatype Geometry = Geometry(reserved: nat, sectorsPerFat: nat)

  function Clusters(total: int, reserved: int, root: int, spf: int, fats: nat, spc: nat): int
    requires spc > 0
  {
    (total - reserved - root - spf * fats) / spc
  }

  // "Volume is too small"
  predicate TooSmall(total: nat, root: nat, t: FatType) { total <= ReservedSectors(t) + root + 8 }

  function TryGeometry(total: nat, bps: nat, spc: nat, t: FatType, root: nat, fats: nat): Option<Geometry>
    requires spc > 0 && fats > 0
  {
    var reserved := ReservedSectors(t);
    if TooSmall(total, root, t) then None
    else
      var spf := SectorsPerFat(total, bps, spc, t, reserved, root, fats);
      var k := Clusters(total, reserved, root, spf, fats, spc);
      if t != FromClusters(k) then None else if k > MaxClusters(t) then None else Some(Geometry(reserved, spf))
  }

  // What the option setters and the check in format_bpb leave of the parameters.
  predicate Parameters(bps: nat, spc: nat, fats: nat) { SectorSize(bps) && 1 <= spc <= 128 && 1 <= fats <= 2 }

  lemma EntriesPerCluster(bps: nat, spc: nat, t: FatType)
    requires SectorSize(bps) && spc >= 1
    ensures spc * bps * 8 == spc * (bps * 8) && spc * (bps * 8) / BitsPerFatEntry(t) >= 128 * spc
  {
    var r := bps * 8 / BitsPerFatEntry(t);
    assert r >= 128;
    FloorOfProduct(spc, bps * 8, BitsPerFatEntry(t));
    MulMono(128, r, spc);
  }

  // Once the "too small" check has passed, subtracting the FATs from the total never goes below zero.
  lemma DataSectorsDontUnderflow(total: nat, bps: nat, spc: nat, t: FatType, root: nat, fats: nat)
    requires Parameters(bps, spc, fats) && total > ReservedSectors(t) + root + 8
    ensures var spf := SectorsPerFat(total, bps, spc, t, ReservedSectors(t), root, fats);
            0 < spf && spf * fats < total - ReservedSectors(t) - root
  {
    var reserved := ReservedSectors(t);
    var spf := SectorsPerFat(total, bps, spc, t, reserved, root, fats);
    EntriesPerCluster(bps, spc, t);
    FormulaSolves(total, bps, spc, t, reserved, root, fats);
    FatsFit(spf, total - reserved - root, spc, spc * (bps * 8) / BitsPerFatEntry(t), fats);
  }

  lemma FatSizeIsRight(s: nat, t0: nat, c: nat, b: nat, t: FatType, f: nat, k: nat)
    requires b == 4096 || b == 8192 || b == 16384 || b == 32768
    requires c >= 1 && Solves(s, t0, c, c * b / BitsPerFatEntry(t), f) && 1 <= f <= 2
    requires s >= 1 && f * s <= t0 && k == (t0 - f * s) / c && k <= MaxClusters(t)
    ensures k + RESERVED_FAT_ENTRIES <= s * b / BitsPerFatEntry(t)
    ensures s * b / BitsPerFatEntry(t) <= k + RESERVED_FAT_ENTRIES + 2 * (b / BitsPerFatEntry(t))
    ensures t != Fat32 ==> s <= 257
  {
    var e := BitsPerFatEntry(t);
    FatIsBigEnough(s, t0, c, b, e, f, k);
    FatRowsBound(s, t0, c, b, e, f, k);
    FatIsNotTooBig(s, b, t, k);
    DivAtLeast(s * b, e, k + 2);
  }

  // What is right about a geometry: the data sectors exist, the cluster count is one of the FAT type, the FAT
  // has an entry for every cluster plus the two reserved ones, and at most two sectors of it are spare.
  predicate Right(g: Geometry, total: nat, bps: nat, spc: nat, t: FatType, root: nat, fats: nat)
    requires spc > 0
  {
    var k := Clusters(total, g.reserved, root, g.sectorsPerFat, fats, spc);
    var entries := g.sectorsPerFat * (bps * 8) / BitsPerFatEntry(t);
    && g.reserved + root + g.sectorsPerFat * fats < total
    && 0 <= k <= MaxClusters(t) && FromClusters(k) == t
    && k + RESERVED_FAT_ENTRIES <= entries <= k + RESERVED_FAT_ENTRIES + 2 * (bps * 8 / BitsPerFatEntry(t))
    && 0 < g.sectorsPerFat && (t != Fat32 ==> g.sectorsPerFat <= 257)
  }

  lemma ClustersOf(total: nat, reserved: nat, root: nat, spf: nat, fats: nat, spc: nat)
    requires spc > 0 && reserved + root + spf * fats <= total
    ensures Clusters(total, reserved, root, spf, fats, spc) == (total - reserved - root - fats * spf) / spc >= 0
  {
  }

  lemma GeometryIsRight(total: nat, bps: nat, spc: nat, t: FatType, root: nat, fats: nat)
    requires Parameters(bps, spc, fats) && TryGeometry(total, bps, spc, t, root, fats).Some?
    ensures var g := TryGeometry(total, bps, spc, t, root, fats).value;
            g.reserved == ReservedSectors(t) && Right(g, total, bps, spc, t, root, fats)
  {
    var g := TryGeometry(total, bps, spc, t, root, fats).value;
    var t0 := total - g.reserved - root;
    var k := Clusters(total, g.reserved, root, g.sectorsPerFat, fats, spc);
    EntriesPerCluster(bps, spc, t);
    FormulaSolves(total, bps, spc, t, g.reserved, root, fats);
    DataSectorsDontUnderflow(total, bps, spc, t, root, fats);
    ClustersOf(total, g.reserved, root, g.sectorsPerFat, fats, spc);
    FatSizeIsRight(g.sectorsPerFat, t0, spc, bps * 8, t, fats, k);
  }

  // --- determine_fs_geometry ---

  function RootDirSectors(entries: nat, bps: nat, t: FatType): nat
    requires bps > 0
  {
    if t == Fat32 then 0 else (entries * 32 + bps - 1) / bps
  }

  // A volume that is too small for every FAT type is refused before anything is divided by the cluster size.
  predicate TooSmallForAll(total: nat, bps: nat, rootEntries: nat)
    requires bps > 0
  {
    forall t: FatType :: TooSmall(total, RootDirSectors(rootEntries, bps, t), t)
  }

  datatype Chosen = Chosen(fatType: FatType, geometry: Geometry)

  function TryType(total: nat, bps: nat, spc: nat, rootEntries: nat, fats: nat, t: FatType): Option<Geometry>
    requires bps > 0 && spc > 0 && fats > 0
  {
    TryGeometry(total, bps, spc, t, RootDirSectors(rootEntries, bps, t), fats)
  }

  // FAT32 if it is possible, else FAT16, else FAT12.
  function FsGeometry(total: nat, bps: nat, spc: nat, rootEntries: nat, fats: nat): Option<Chosen>
    requires bps > 0 && spc > 0 && fats > 0
  {
    var g32, g16, g12 := TryType(total, bps, spc, rootEntries, fats, Fat32), TryType(total, bps, spc, rootEntries, fats, Fat16),
                         TryType(total, bps, spc, rootEntries, fats, Fat12);
    if g32.Some? then Some(Chosen(Fat32, g32.value))
    else if g16.Some? then Some(Chosen(Fat16, g16.value))
    else if g12.Some? then Some(Chosen(Fat12, g12.value))
    else None
  }

  method DetermineFsGeometry(total: nat, bps: nat, spc: nat, rootEntries: nat, fats: nat) returns (r: Option<Chosen>)
    requires bps > 0 && spc > 0 && fats > 0
    ensures r == FsGeometry(total, bps, spc, rootEntries, fats)
  {
    var types := [Fat32, Fat16, Fat12];
    for i := 0 to 3
      invariant forall j :: 0 <= j < i ==> TryType(total, bps, spc, rootEntries, fats, types[j]).None?
    {
      var result := TryGeometry(total, bps, spc, types[i], RootDirSectors(rootEntries, bps, types[i]), fats);
      if result.Some? {
        assert i > 0 ==> TryType(total, bps, spc, rootEntries, fats, types[0]).None?;
        assert i > 1 ==> TryType(total, bps, spc, rootEntries, fats, types[1]).None?;
        return Some(Chosen(types[i], result.value));
      }
    }
    assert TryType(total, bps, spc, rootEntries, fats, types[0]).None?;
    assert TryType(total, bps, spc, rootEntries, fats, types[1]).None?;
    assert TryType(total, bps, spc, rootEntries, fats, types[2]).None?;
    r := None;
  }

  // --- format_bpb ---

  const MB := 0x10_0000
  const GB := 0x4000_0000

  function EstimateFatType(totalBytes: nat): FatType {
    if totalBytes < 4 * MB then Fat12 else if totalBytes < 512 * MB then Fat16 else Fat32
  }

  // The cluster size before clamping, with the casts to u32.
  function Fat12ClusterBytes(p: nat): nat { p / 0x10_0000 * 512 % 0x1_0000_0000 }
  function Fat16ClusterBytes(p: nat): nat { p / 0x400_0000 % 0x1_0000_0000 * 1024 }
  function Fat32ClusterBytes(p: nat): nat { p / 0x8000_0000 % 0x1_0000_0000 * 1024 }

  function RawClusterBytes(totalBytes: nat, t: FatType): nat {
    match t
    case Fat12 => Fat12ClusterBytes(NextPow2(totalBytes))
    case Fat16 =>
      if totalBytes <= 16 * MB then 1024
      else if totalBytes <= 128 * MB then 2048
      else Fat16ClusterBytes(NextPow2(totalBytes))
    case Fat32 =>
      if totalBytes <= 260 * MB then 512
      else if totalBytes <= 8 * GB then 4096
      else Fat32ClusterBytes(NextPow2(totalBytes))
  }

  function Clamp(n: nat, bps: nat): nat {
    var m := if n > bps then n else bps;
    if m < 32768 then m else 32768
  }

  // determine_bytes_per_cluster
  function BytesPerCluster(totalBytes: nat, bps: nat, fatType: Option<FatType>): nat {
    Clamp(RawClusterBytes(totalBytes, if fatType.Some? then fatType.value else EstimateFatType(totalBytes)), bps)
  }

  datatype FormatOptions = FormatOptions(bytesPerCluster: Option<nat>, fatType: Option<FatType>, fats: nat, rootEntries: nat)

  const DEFAULT_OPTIONS := FormatOptions(None, None, 2, 512)

  // What the setters of FormatVolumeOptions accept.
  predicate ValidOptions(o: FormatOptions) {
    && (o.bytesPerCluster.Some? ==> IsPow2(o.bytesPerCluster.value) && o.bytesPerCluster.value >= 512)
    && 1 <= o.fats <= 2 && o.rootEntries < 0x1_0000
  }

  datatype Bpb = Bpb(
    bytesPerSector: nat, sectorsPerCluster: nat, reservedSectors: nat, fats: nat, rootEntries: nat,
    totalSectors16: nat, sectorsPerFat16: nat, totalSectors32: nat, sectorsPerFat32: nat, extendedFlags: nat,
    fsVersion: nat, rootDirFirstCluster: nat, fsInfoSector: nat, backupBootSector: nat)

  // Panics: the cluster does not fit the u8 field, or it is smaller than a sector and a volume that is large
  // enough for some FAT type is divided by zero.
  datatype Formatted = Formatted(bpb: Bpb, fatType: FatType) | InvalidInput | Panics

  function BpbOf(total: nat, bps: nat, spc: nat, o: FormatOptions, c: Chosen): Bpb {
    var fat32 := c.fatType == Fat32;
    Bpb(bps, spc, c.geometry.reserved, o.fats, if fat32 then 0 else o.rootEntries,
        if total < 0x1_0000 then total else 0,
        if fat32 then 0 else c.geometry.sectorsPerFat % 0x1_0000,
        if total >= 0x1_0000 then total else 0,
        if fat32 then c.geometry.sectorsPerFat else 0,
        0, 0, if fat32 then 2 else 0, if fat32 then 1 else 0, if fat32 then 6 else 0)
  }

  function Bytes(sectors: nat, bps: nat): nat { sectors * bps }

  function ClusterBytes(o: FormatOptions, total: nat, bps: nat): nat {
    if o.bytesPerCluster.Some? then o.bytesPerCluster.value else BytesPerCluster(Bytes(total, bps), bps, o.fatType)
  }

  function SectorsPerCluster(o: FormatOptions, total: nat, bps: nat): nat
    requires bps > 0
  {
    ClusterBytes(o, total, bps) / bps
  }

  function FormatBpb(o: FormatOptions, total: nat, bps: nat): Formatted
    requires bps > 0 && o.fats > 0
  {
    var spc := SectorsPerCluster(o, total, bps);
    if spc > 255 then Panics
    else if spc == 0 then if TooSmallForAll(total, bps, o.rootEntries) then InvalidInput else Panics
    else
      match FsGeometry(total, bps, spc, o.rootEntries, o.fats)
      case None => InvalidInput
      case Some(c) =>
        var bpb := BpbOf(total, bps, spc, o, c);
        if FromClusters(TotalClusters(bpb)) != c.fatType then InvalidInput else Formatted(bpb, c.fatType)
  }

  // --- Size accessors and validate ---

  predicate IsFat32(b: Bpb) { b.sectorsPerFat16 == 0 }
  function BpbSectorsPerFat(b: Bpb): nat { if IsFat32(b) then b.sectorsPerFat32 else b.sectorsPerFat16 }
  function TotalSectors(b: Bpb): nat { if b.totalSectors16 == 0 then b.totalSectors32 else b.totalSectors16 }
  function BpbRootDirSectors(b: Bpb): nat requires b.bytesPerSector > 0 {
    (b.rootEntries * 32 + b.bytesPerSector - 1) / b.bytesPerSector
  }
  function FirstDataSector(b: Bpb): nat requires b.bytesPerSector > 0 {
    b.reservedSectors + b.fats * BpbSectorsPerFat(b) + BpbRootDirSectors(b)
  }
  function TotalClusters(b: Bpb): int requires b.bytesPerSector > 0 && b.sectorsPerCluster > 0 {
    (TotalSectors(b) - FirstDataSector(b)) / b.sectorsPerCluster
  }

  // Overflows: a product or sum does not fit the u32 it is computed in.
  datatype Verdict = Accepted | Corrupted | Overflows

  function Validate(b: Bpb): Verdict {
    if b.fsVersion != 0 then Corrupted
    else if CountOnes(b.bytesPerSector) != 1 || b.bytesPerSector < 512 || b.bytesPerSector > 4096 then Corrupted
    else if CountOnes(b.sectorsPerCluster) != 1 || b.sectorsPerCluster < 1 || b.sectorsPerCluster > 128 then Corrupted
    else if b.reservedSectors < 1 then Corrupted
    else if IsFat32(b) && (b.backupBootSector >= b.reservedSectors || b.fsInfoSector >= b.reservedSectors) then Corrupted
    else if b.fats == 0 then Corrupted
    else if IsFat32(b) && b.rootEntries != 0 then Corrupted
    else if !IsFat32(b) && b.rootEntries == 0 then Corrupted
    else if IsFat32(b) && b.totalSectors16 != 0 then Corrupted
    else if (b.totalSectors16 == 0) == (b.totalSectors32 == 0) then Corrupted
    else if FirstDataSector(b) >= U32_SIZE then Overflows
    else if TotalSectors(b) <= FirstDataSector(b) then Corrupted
    else if IsFat32(b) && b.sectorsPerFat32 == 0 then Corrupted
    else
      var k := TotalClusters(b);
      if IsFat32(b) != (FromClusters(k) == Fat32) then Corrupted
      else if FromClusters(k) == Fat32 && k > 0x0FFF_FFFF then Corrupted
      else if BpbSectorsPerFat(b) * b.bytesPerSector * 8 >= U32_SIZE then Overflows
      else if BpbSectorsPerFat(b) * b.bytesPerSector * 8 / BitsPerFatEntry(FromClusters(k)) < RESERVED_FAT_ENTRIES then Overflows
      else Accepted
  }

  lemma SectorSizeIsPow2(bps: nat)
    requires SectorSize(bps)
    ensures IsPow2(bps) && CountOnes(bps) == 1
  {
    assert IsPow2(1) && IsPow2(2) && IsPow2(4) && IsPow2(8) && IsPow2(16) && IsPow2(32) && IsPow2(64);
    assert IsPow2(128) && IsPow2(256) && IsPow2(512) && IsPow2(1024) && IsPow2(2048) && IsPow2(4096);
    OneBitIff(bps);
  }

  // No power of two lies strictly between one and its double.
  lemma {:induction false} Pow2Gap(n: nat, p: nat)
    requires IsPow2(n) && IsPow2(p) && p < n
    ensures n >= 2 * p
  {
    if p > 1 { Pow2Gap(n / 2, p / 2); }
  }

  lemma {:induction false} ProductIsPow2(n: nat, m: nat)
    requires IsPow2(n) && IsPow2(m)
    ensures IsPow2(n * m)
  {
    if n > 1 {
      ProductIsPow2(n / 2, m);
      assert n * m == 2 * (n / 2 * m);
      DivIs(n * m, 2, n / 2 * m);
    }
  }

  lemma Constants()
    ensures IsPow2(128) && IsPow2(512) && IsPow2(1024) && IsPow2(2048) && IsPow2(4096) && IsPow2(32768)
    ensures IsPow2(0x10_0000) && IsPow2(0x400_0000) && IsPow2(0x8000_0000) && IsPow2(0x1_0000_0000)
  {
    assert IsPow2(1) && IsPow2(2) && IsPow2(4) && IsPow2(8) && IsPow2(16) && IsPow2(32) && IsPow2(64);
    ProductIsPow2(2, 64);
    ProductIsPow2(8, 64);
    ProductIsPow2(16, 64);
    ProductIsPow2(32, 64);
    ProductIsPow2(64, 64);
    ProductIsPow2(8, 4096);
    ProductIsPow2(1024, 1024);
    ProductIsPow2(64, 0x10_0000);
    ProductIsPow2(32, 0x400_0000);
    ProductIsPow2(64, 0x400_0000);
  }

  predicate Pow2OrZero(n: int) { n == 0 || (n > 0 && IsPow2(n)) }

  lemma ModOfMultiple(n: nat, m: nat)
    requires m > 0 && n / m * m == n
    ensures n % m == 0
  {
  }

  lemma ModOfSmall(n: nat, m: nat)
    requires n < m
    ensures n % m == n
  {
  }

  lemma CutAt(n: nat, m: nat)
    requires Pow2OrZero(n) && IsPow2(m)
    ensures Pow2OrZero(n % m)
  {
    if n >= m {
      QuotientIsPow2(n, m);
      ModOfMultiple(n, m);
    } else {
      ModOfSmall(n, m);
    }
  }

  lemma ScaleDown(p: nat, d: nat)
    requires IsPow2(p) && IsPow2(d)
    ensures Pow2OrZero(p / d)
  {
    if p >= d {
      QuotientIsPow2(p, d);
    } else {
      DivIs(p, d, 0);
    }
  }

  lemma ScaleUp(n: nat, m: nat)
    requires Pow2OrZero(n) && IsPow2(m)
    ensures Pow2OrZero(n * m)
  {
    if n > 0 { ProductIsPow2(n, m); }
  }

  lemma Fat12ClusterIsPow2(p: nat)
    requires IsPow2(p)
    ensures Pow2OrZero(Fat12ClusterBytes(p))
  {
    Constants();
    ScaleDown(p, 0x10_0000);
    ScaleUp(p / 0x10_0000, 512);
    CutAt(p / 0x10_0000 * 512, 0x1_0000_0000);
  }

  lemma Fat16ClusterIsPow2(p: nat)
    requires IsPow2(p)
    ensures Pow2OrZero(Fat16ClusterBytes(p))
  {
    Constants();
    ScaleDown(p, 0x400_0000);
    CutAt(p / 0x400_0000, 0x1_0000_0000);
    ScaleUp(p / 0x400_0000 % 0x1_0000_0000, 1024);
  }

  lemma Fat32ClusterIsPow2(p: nat)
    requires IsPow2(p)
    ensures Pow2OrZero(Fat32ClusterBytes(p))
  {
    Constants();
    ScaleDown(p, 0x8000_0000);
    CutAt(p / 0x8000_0000, 0x1_0000_0000);
    ScaleUp(p / 0x8000_0000 % 0x1_0000_0000, 1024);
  }

  lemma ClampIsPow2(n: nat, bps: nat)
    requires Pow2OrZero(n) && SectorSize(bps)
    ensures IsPow2(Clamp(n, bps)) && bps <= Clamp(n, bps) <= 32768
  {
    SectorSizeIsPow2(bps);
    Constants();
  }

  lemma RawClusterIsPow2(totalBytes: nat, t: FatType)
    ensures Pow2OrZero(RawClusterBytes(totalBytes, t))
  {
    NextPow2IsLeast(totalBytes);
    Constants();
    match t
    case Fat12 => Fat12ClusterIsPow2(NextPow2(totalBytes));
    case Fat16 => Fat16ClusterIsPow2(NextPow2(totalBytes));
    case Fat32 => Fat32ClusterIsPow2(NextPow2(totalBytes));
  }

  lemma BytesPerClusterIsPow2(totalBytes: nat, bps: nat, fatType: Option<FatType>)
    requires SectorSize(bps)
    ensures IsPow2(BytesPerCluster(totalBytes, bps, fatType)) && bps <= BytesPerCluster(totalBytes, bps, fatType) <= 32768
  {
    var t := if fatType.Some? then fatType.value else EstimateFatType(totalBytes);
    RawClusterIsPow2(totalBytes, t);
    ClampIsPow2(RawClusterBytes(totalBytes, t), bps);
  }

  predicate ValidSpc(spc: nat) { IsPow2(spc) && CountOnes(spc) == 1 && 1 <= spc <= 128 }

  lemma QuotientIsValidSpc(bpc: nat, bps: nat)
    requires IsPow2(bpc) && IsPow2(bps)
    ensures var spc := bpc / bps; spc == 0 || spc > 255 || (spc > 0 && ValidSpc(spc))
  {
    if bpc >= bps {
      QuotientIsPow2(bpc, bps);
      var spc: nat := bpc / bps;
      OneBitIff(spc);
      Constants();
      if spc > 128 { Pow2Gap(spc, 128); }
    } else {
      DivIs(bpc, bps, 0);
    }
  }

  // A cluster that format_bpb accepts is a power of two of sectors, at most 128.
  lemma SectorsPerClusterIsValid(o: FormatOptions, total: nat, bps: nat)
    requires SectorSize(bps) && ValidOptions(o)
    ensures var spc := SectorsPerCluster(o, total, bps); spc == 0 || spc > 255 || ValidSpc(spc)
  {
    BytesPerClusterIsPow2(Bytes(total, bps), bps, o.fatType);
    SectorSizeIsPow2(bps);
    QuotientIsValidSpc(ClusterBytes(o, total, bps), bps);
  }

  // --- What format_bpb produces passes validate ---

  // A choice of geometry that was made for these parameters.
  predicate Fits(c: Chosen, o: FormatOptions, total: nat, bps: nat, spc: nat)
    requires bps > 0 && spc > 0
  {
    c.geometry.reserved == ReservedSectors(c.fatType)
    && Right(c.geometry, total, bps, spc, c.fatType, RootDirSectors(o.rootEntries, bps, c.fatType), o.fats)
  }

  lemma ChosenFits(o: FormatOptions, total: nat, bps: nat, spc: nat)
    requires Parameters(bps, spc, o.fats) && FsGeometry(total, bps, spc, o.rootEntries, o.fats).Some?
    ensures Fits(FsGeometry(total, bps, spc, o.rootEntries, o.fats).value, o, total, bps, spc)
  {
    var c := FsGeometry(total, bps, spc, o.rootEntries, o.fats).value;
    GeometryIsRight(total, bps, spc, c.fatType, RootDirSectors(o.rootEntries, bps, c.fatType), o.fats);
  }

  lemma ClustersTakeSectors(k: int, data: nat, spc: nat)
    requires spc >= 1 && k == data / spc && k >= 0
    ensures k <= k * spc <= data
  {
    assert data == data / spc * spc + data % spc;
    MulMono(1, spc, k);
  }

  // A FAT32 volume has at least 0x10000 sectors.
  lemma Fat32IsLarge(g: Geometry, total: nat, bps: nat, spc: nat, fats: nat)
    requires Parameters(bps, spc, fats) && g.reserved == 8 && Right(g, total, bps, spc, Fat32, 0, fats)
    ensures total >= 0x1_0000
  {
    var k := Clusters(total, g.reserved, 0, g.sectorsPerFat, fats, spc);
    var data := total - g.reserved - g.sectorsPerFat * fats;
    ClustersTakeSectors(k, data, spc);
    MulMono(1, fats, g.sectorsPerFat);
    assert g.sectorsPerFat >= 64 by {
      if g.sectorsPerFat < 64 { MulMono(g.sectorsPerFat, 63, bps * 8); }
    }
  }

  lemma NoRootSectors(bps: nat)
    requires bps > 0
    ensures (0 * 32 + bps - 1) / bps == 0
  {
    DivIs(bps - 1, bps, 0);
  }

  lemma BpbAgrees(o: FormatOptions, total: nat, bps: nat, spc: nat, c: Chosen)
    requires Parameters(bps, spc, o.fats) && total < U32_SIZE && Fits(c, o, total, bps, spc)
    ensures var b := BpbOf(total, bps, spc, o, c);
            var root := RootDirSectors(o.rootEntries, bps, c.fatType);
            && (IsFat32(b) <==> c.fatType == Fat32) && TotalSectors(b) == total
            && (c.fatType == Fat32 ==> b.totalSectors16 == 0 && total >= 0x1_0000)
            && BpbSectorsPerFat(b) == c.geometry.sectorsPerFat && BpbRootDirSectors(b) == root
            && FirstDataSector(b) == c.geometry.reserved + root + c.geometry.sectorsPerFat * o.fats < total
            && TotalClusters(b) == Clusters(total, c.geometry.reserved, root, c.geometry.sectorsPerFat, o.fats, spc)
  {
    NoRootSectors(bps);
    if c.fatType == Fat32 { Fat32IsLarge(c.geometry, total, bps, spc, o.fats); }
  }

  // The verdict on a block whose fields other than the root entries and the FAT size cannot be faulted.
  lemma VerdictOf(b: Bpb, t: FatType)
    requires b.fsVersion == 0 && SectorSize(b.bytesPerSector) && ValidSpc(b.sectorsPerCluster) && b.fats > 0
    requires b.reservedSectors > (if t == Fat32 then 6 else 0) && b.backupBootSector <= 6 && b.fsInfoSector <= 6
    requires (IsFat32(b) <==> t == Fat32) && (t == Fat32 ==> b.rootEntries == 0 && b.totalSectors16 == 0)
    requires (b.totalSectors16 == 0) != (b.totalSectors32 == 0)
    requires FirstDataSector(b) < TotalSectors(b) < U32_SIZE && BpbSectorsPerFat(b) > 0
    requires FromClusters(TotalClusters(b)) == t && TotalClusters(b) <= MaxClusters(t)
    requires BpbSectorsPerFat(b) * b.bytesPerSector * 8 / BitsPerFatEntry(t) >= RESERVED_FAT_ENTRIES
    ensures Validate(b) == (if t != Fat32 && b.rootEntries == 0 then Corrupted
                            else if BpbSectorsPerFat(b) * b.bytesPerSector * 8 >= U32_SIZE then Overflows
                            else Accepted)
  {
    SectorSizeIsPow2(b.bytesPerSector);
  }

  lemma Regroup(s: nat, bps: nat)
    ensures s * bps * 8 == s * (bps * 8)
  {
  }

  lemma AgreedBpbVerdict(o: FormatOptions, total: nat, bps: nat, spc: nat, c: Chosen)
    requires Parameters(bps, spc, o.fats) && ValidSpc(spc) && total < U32_SIZE && Fits(c, o, total, bps, spc)
    ensures var b := BpbOf(total, bps, spc, o, c);
            && FromClusters(TotalClusters(b)) == c.fatType
            && Validate(b) == (if c.fatType != Fat32 && o.rootEntries == 0 then Corrupted
                               else if c.geometry.sectorsPerFat * bps * 8 >= U32_SIZE then Overflows
                               else Accepted)
  {
    BpbAgrees(o, total, bps, spc, c);
    Regroup(c.geometry.sectorsPerFat, bps);
    VerdictOf(BpbOf(total, bps, spc, o, c), c.fatType);
  }

  lemma TooSmallForAllIff(total: nat, bps: nat, rootEntries: nat)
    requires bps > 0
    ensures TooSmallForAll(total, bps, rootEntries) <==> total <= 16 && total <= 9 + RootDirSectors(rootEntries, bps, Fat12)
  {
    assert RootDirSectors(rootEntries, bps, Fat16) == RootDirSectors(rootEntries, bps, Fat12);
    assert TooSmall(total, RootDirSectors(rootEntries, bps, Fat12), Fat12) <==> total <= 9 + RootDirSectors(rootEntries, bps, Fat12);
    assert TooSmall(total, RootDirSectors(rootEntries, bps, Fat32), Fat32) <==> total <= 16;
  }

  // For all options that the setters accept and any 32-bit sector count: format_bpb panics exactly when the
  // cluster is too large for a byte, or smaller than a sector on a volume that is not too small; otherwise it
  // fails exactly when no FAT type fits; and what it returns passes validate unless a FAT12 or FAT16 volume
  // was asked for without root entries, or the bits of a FAT do not fit a u32.
  lemma FormattedValidates(o: FormatOptions, total: nat, bps: nat)
    requires ValidOptions(o) && SectorSize(bps) && total < U32_SIZE
    ensures var r, spc := FormatBpb(o, total, bps), SectorsPerCluster(o, total, bps);
            var small := total <= 16 && total <= 9 + RootDirSectors(o.rootEntries, bps, Fat12);
            && (r.Panics? <==> spc > 255 || (spc == 0 && !small))
            && (r.InvalidInput? <==> if spc == 0 then small else spc <= 255 && FsGeometry(total, bps, spc, o.rootEntries, o.fats).None?)
            && (r.Formatted? ==>
                  && TotalSectors(r.bpb) == total && (IsFat32(r.bpb) <==> r.fatType == Fat32)
                  && Validate(r.bpb) == (if r.fatType != Fat32 && o.rootEntries == 0 then Corrupted
                                         else if BpbSectorsPerFat(r.bpb) * bps * 8 >= U32_SIZE then Overflows
                                         else Accepted))
  {
    var spc := SectorsPerCluster(o, total, bps);
    TooSmallForAllIff(total, bps, o.rootEntries);
    SectorsPerClusterIsValid(o, total, bps);
    if 0 < spc <= 255 && FsGeometry(total, bps, spc, o.rootEntries, o.fats).Some? {
      var c := FsGeometry(total, bps, spc, o.rootEntries, o.fats).value;
      ChosenFits(o, total, bps, spc);
      AgreedBpbVerdict(o, total, bps, spc, c);
      BpbAgrees(o, total, bps, spc, c);
    }
  }

  // A cluster smaller than a sector panics, unless the volume is tiny.
  lemma ClusterSmallerThanSector()
    ensures FormatBpb(FormatOptions(Some(512), None, 2, 512), 5, 4096) == InvalidInput
    ensures FormatBpb(FormatOptions(Some(512), None, 2, 512), 100, 4096) == Panics
  {
    TooSmallForAllIff(5, 4096, 512);
    TooSmallForAllIff(100, 4096, 512);
  }

  lemma LargestGeometry()
    ensures FsGeometry(0xFFFF_FFFF, 512, 16, 512, 2) == Some(Chosen(Fat32, Geometry(8, 2095107)))
  {
    assert FatRow(16, Fat32) == 2050;
    assert (0xFFFF_FFF7 + 32 + 2049) / 2050 == 2095107;
    assert (0xFFFF_FFF7 - 2 * 2095107) / 16 == 268173567;
    TryDefault(0xFFFF_FFFF, 16, Fat32, 0xFFFF_FFF7);
  }

  // The largest volume with 512-byte sectors and 8 KB clusters is formatted, and then overflows in validate.
  lemma LargestVolumeOverflows()
    ensures var o := FormatOptions(Some(8192), None, 2, 512);
            var r := FormatBpb(o, 0xFFFF_FFFF, 512);
            ValidOptions(o) && r.Formatted? && Validate(r.bpb) == Overflows
  {
    var o, c := FormatOptions(Some(8192), None, 2, 512), Chosen(Fat32, Geometry(8, 2095107));
    Constants();
    ProductIsPow2(2, 4096);
    LargestGeometry();
    LargestVerdict(o, c);
    assert SectorsPerCluster(o, 0xFFFF_FFFF, 512) == 16;
  }

  lemma LargestVerdict(o: FormatOptions, c: Chosen)
    requires o.fats == 2 && o.rootEntries == 512 && c == Chosen(Fat32, Geometry(8, 2095107))
    ensures var b := BpbOf(0xFFFF_FFFF, 512, 16, o, c); FromClusters(TotalClusters(b)) == Fat32 && Validate(b) == Overflows
  {
    LargestGeometry();
    ChosenFits(o, 0xFFFF_FFFF, 512, 16);
    Constants();
    ProductIsPow2(2, 8);
    OneBitIff(16);
    AgreedBpbVerdict(o, 0xFFFF_FFFF, 512, 16, c);
  }

  // --- Default options and 512-byte sectors, for every size ---

  function DefaultSpc(total: nat): nat {
    if total <= 0x800 then 1
    else if total <= 0x1000 then 2
    else if total < 0x2000 then 4
    else if total <= 0x8000 then 2
    else if total <= 0x4_0000 then 4
    else if total <= 0x8_0000 then 8
    else if total < 0x10_0000 then 16
    else if total <= 0x100_0000 then 8
    else if total <= 0x200_0000 then 16
    else if total <= 0x400_0000 then 32
    else 64
  }

  lemma NextPow2Is(n: nat, p: nat)
    requires IsPow2(p) && p < 2 * n && n <= p
    ensures NextPow2(n) == p
  {
    NextPow2IsLeast(n);
    var q := NextPow2(n);
    if q < p { Pow2Gap(p, q); }
    if p < q { Pow2Gap(q, p); }
  }

  lemma SmallBands(n: nat)
    ensures n <= 0x8_0000 ==> NextPow2(n) / 0x10_0000 == 0
    ensures 0x8_0000 < n <= 0x10_0000 ==> NextPow2(n) == 0x10_0000
    ensures 0x10_0000 < n <= 0x20_0000 ==> NextPow2(n) == 0x20_0000
    ensures 0x20_0000 < n <= 0x40_0000 ==> NextPow2(n) == 0x40_0000
  {
    Constants();
    ProductIsPow2(0x10_0000, 2);
    ProductIsPow2(0x10_0000, 4);
    NextPow2IsLeast(n);
    if 0x8_0000 < n <= 0x10_0000 { NextPow2Is(n, 0x10_0000); }
    if 0x10_0000 < n <= 0x20_0000 { NextPow2Is(n, 0x20_0000); }
    if 0x20_0000 < n <= 0x40_0000 { NextPow2Is(n, 0x40_0000); }
  }

  lemma MediumBands(n: nat)
    ensures 0x800_0000 < n <= 0x1000_0000 ==> NextPow2(n) == 0x1000_0000
    ensures 0x1000_0000 < n <= 0x2000_0000 ==> NextPow2(n) == 0x2000_0000
  {
    Constants();
    ProductIsPow2(0x400_0000, 4);
    ProductIsPow2(0x400_0000, 8);
    if 0x800_0000 < n <= 0x1000_0000 { NextPow2Is(n, 0x1000_0000); }
    if 0x1000_0000 < n <= 0x2000_0000 { NextPow2Is(n, 0x2000_0000); }
  }

  lemma LargePowers()
    ensures IsPow2(0x4_0000_0000) && IsPow2(0x8_0000_0000)
  {
    Constants();
    ProductIsPow2(0x8000_0000, 8);
    ProductIsPow2(0x8000_0000, 16);
  }

  lemma LargeBands(n: nat)
    ensures 0x2_0000_0000 < n <= 0x4_0000_0000 ==> NextPow2(n) == 0x4_0000_0000
    ensures 0x4_0000_0000 < n <= 0x8_0000_0000 ==> NextPow2(n) == 0x8_0000_0000
    ensures 0x8_0000_0000 < n ==> 0x10_0000_0000 <= NextPow2(n) < 2 * n
  {
    LargePowers();
    NextPow2IsLeast(n);
    if 0x2_0000_0000 < n <= 0x4_0000_0000 { NextPow2Is(n, 0x4_0000_0000); }
    if 0x4_0000_0000 < n <= 0x8_0000_0000 { NextPow2Is(n, 0x8_0000_0000); }
    if 0x8_0000_0000 < n { Pow2Gap(NextPow2(n), 0x8_0000_0000); }
  }

  lemma DefaultCluster12(total: nat, n: nat)
    requires total < 0x2000 && n == total * 512
    ensures BytesPerCluster(n, 512, None) == DefaultSpc(total) * 512
  {
    SmallBands(n);
    if total <= 0x400 {
      assert Fat12ClusterBytes(NextPow2(n)) == 0;
    } else if total <= 0x800 {
      assert Fat12ClusterBytes(0x10_0000) == 512;
    } else if total <= 0x1000 {
      assert Fat12ClusterBytes(0x20_0000) == 1024;
    } else {
      assert Fat12ClusterBytes(0x40_0000) == 2048;
    }
  }

  lemma DefaultCluster16(total: nat, n: nat)
    requires 0x2000 <= total < 0x10_0000 && n == total * 512
    ensures BytesPerCluster(n, 512, None) == DefaultSpc(total) * 512
  {
    assert RawClusterBytes(n, Fat16) == DefaultSpc(total) * 512 by {
      if total > 0x4_0000 {
        MediumBands(n);
        assert Fat16ClusterBytes(0x1000_0000) == 4096 && Fat16ClusterBytes(0x2000_0000) == 8192;
      }
    }
  }

  lemma DefaultCluster32(total: nat, n: nat)
    requires 0x10_0000 <= total < U32_SIZE && n == total * 512
    ensures BytesPerCluster(n, 512, None) == DefaultSpc(total) * 512
  {
    if total <= 0x100_0000 {
    } else if total <= 0x200_0000 {
      LargeBands(n);
      assert Fat32ClusterBytes(0x4_0000_0000) == 8192;
    } else if total <= 0x400_0000 {
      LargeBands(n);
      assert Fat32ClusterBytes(0x8_0000_0000) == 16384;
    } else {
      LargeBands(n);
      ClampedCluster(NextPow2(n));
    }
  }

  lemma ClampedCluster(p: nat)
    requires 0x10_0000_0000 <= p < 0x400_0000_0000
    ensures Fat32ClusterBytes(p) >= 32768
  {
  }

  lemma DefaultCluster(total: nat)
    requires total < U32_SIZE
    ensures SectorsPerCluster(DEFAULT_OPTIONS, total, 512) == DefaultSpc(total)
  {
    var n := Bytes(total, 512);
    if total < 0x2000 {
      DefaultCluster12(total, n);
    } else if total < 0x10_0000 {
      DefaultCluster16(total, n);
    } else {
      DefaultCluster32(total, n);
    }
  }

  // Which FAT type a default format picks; between the FAT12 and the FAT16 sizes there is a gap of eight
  // sizes that fit neither.
  function DefaultType(total: nat): Option<FatType> {
    if total <= 41 || 8227 <= total <= 8234 then None
    else if total < 8227 then Some(Fat12)
    else if total < 0x10_0000 then Some(Fat16)
    else Some(Fat32)
  }

  lemma CeilAtMost(n: nat, d: nat, m: nat)
    requires d > 0 && n <= m * d
    ensures (n + d - 1) / d <= m
  {
    CeilDiv(n, d);
    if (n + d - 1) / d > m { MulMono(m + 1, (n + d - 1) / d, d); }
  }

  lemma CeilAtLeast(n: nat, d: nat, m: nat)
    requires d > 0 && n > m * d
    ensures (n + d - 1) / d > m
  {
    CeilDiv(n, d);
    if (n + d - 1) / d <= m { MulMono((n + d - 1) / d, m, d); }
  }

  lemma ClustersAtLeastIff(data: int, spc: nat, k: int)
    requires spc > 0
    ensures data / spc >= k <==> data >= k * spc
  {
    assert data == data / spc * spc + data % spc;
    if data / spc < k { MulMono(data / spc + 1, k, spc); } else { MulMono(k, data / spc, spc); }
  }

  // The divisor in the formula with 512-byte sectors and two FATs.
  function FatRow(spc: nat, t: FatType): nat { spc * 4096 / BitsPerFatEntry(t) + 2 }

  function Rows(n: nat, spc: nat, t: FatType): nat { (n + 2 * spc + FatRow(spc, t) - 1) / FatRow(spc, t) }

  function DefaultClusters(n: nat, spc: nat, t: FatType): int
    requires spc > 0
  {
    (n - 2 * Rows(n, spc, t)) / spc
  }

  // Sectors that are neither for data nor for FATs
  function Overhead(t: FatType): nat { if t == Fat32 then 8 else 33 }

  // What trying a type comes to with the default options; n sectors are left for FATs and data.
  lemma TryDefault(total: nat, spc: nat, t: FatType, n: nat)
    requires 1 <= spc <= 128 && total == n + Overhead(t)
    ensures n > 8 ==> n - 2 * Rows(n, spc, t) >= 0
    ensures var k := DefaultClusters(n, spc, t);
            TryType(total, 512, spc, 512, 2, t) == if n > 8 && FromClusters(k) == t && k <= MaxClusters(t)
                                                   then Some(Geometry(ReservedSectors(t), Rows(n, spc, t))) else None
  {
    var root := RootDirSectors(512, 512, t);
    assert root == if t == Fat32 then 0 else 32;
    if n > 8 {
      DataSectorsDontUnderflow(total, 512, spc, t, root, 2);
      assert SectorsPerFat(total, 512, spc, t, ReservedSectors(t), root, 2) == Rows(n, spc, t);
    }
  }

  lemma Fat12Rows(n: nat, spc: nat)
    requires 1 <= spc
    ensures DefaultClusters(n, spc, Fat12) < 4085 <==> n < 4085 * spc + 24
  {
    var d, s := FatRow(spc, Fat12), Rows(n, spc, Fat12);
    assert 1024 * spc + 4 <= 3 * d <= 1024 * spc + 6;
    ClustersAtLeastIff(n - 2 * s, spc, 4085);
    if n >= 4085 * spc + 24 {
      Tail(n + 2 * spc, d, 12);
    } else if n >= 4085 * spc {
      CeilAtLeast(n + 2 * spc, d, 11);
    }
  }

  // FAT12 fits from 42 sectors up to the last size with at most 4084 clusters.
  lemma Fat12FitsIff(total: nat, spc: nat)
    requires 1 <= spc <= 128
    ensures TryType(total, 512, spc, 512, 2, Fat12).Some? <==> 42 <= total <= 4085 * spc + 56
  {
    if total >= 33 {
      TryDefault(total, spc, Fat12, total - 33);
      Fat12Rows(total - 33, spc);
    }
  }

  // Beyond m rows, two FATs grow by less than the volume does.
  lemma Tail(n: nat, d: nat, m: nat)
    requires d >= 100
    ensures var s := (n + d - 1) / d; s <= m || (s - m - 1) * 100 < n - m * d
  {
    CeilDiv(n, d);
    var s := (n + d - 1) / d;
    if s > m {
      assert (s - 1) * d == (s - m - 1) * d + m * d;
      MulMono(100, d, s - m - 1);
    }
  }

  lemma Fat16Rows(n: nat, spc: nat)
    requires 1 <= spc <= 32 && n <= 0x1_0000 * spc
    ensures DefaultClusters(n, spc, Fat16) >= 4085 <==> n >= 4085 * spc + 32
    ensures DefaultClusters(n, spc, Fat16) < 65525
  {
    var d, s := FatRow(spc, Fat16), Rows(n, spc, Fat16);
    assert d == 256 * spc + 2;
    ClustersAtLeastIff(n - 2 * s, spc, 4085);
    ClustersAtLeastIff(n - 2 * s, spc, 65525);
    if n >= 4085 * spc { CeilAtLeast(n + 2 * spc, d, 15); }
    if n >= 4085 * spc + 32 { Tail(n + 2 * spc, d, 16); }
    if n >= 65525 * spc { CeilAtLeast(n + 2 * spc, d, 250); }
  }

  // FAT16 fits from 4085 clusters on; the upper bound is far enough for the default cluster sizes.
  lemma Fat16FitsIff(total: nat, spc: nat)
    requires 1 <= spc <= 32 && total <= 0x1_0000 * spc
    ensures TryType(total, 512, spc, 512, 2, Fat16).Some? <==> total >= 4085 * spc + 65
  {
    if total >= 33 {
      TryDefault(total, spc, Fat16, total - 33);
      Fat16Rows(total - 33, spc);
    }
  }

  lemma Fat32Fails(total: nat, spc: nat)
    requires 1 <= spc <= 64 && total <= 0x1_0000 * spc
    ensures TryType(total, 512, spc, 512, 2, Fat32).None?
  {
    if total >= 8 {
      var n, d := total - 8, FatRow(spc, Fat32);
      TryDefault(total, spc, Fat32, n);
      assert d == 128 * spc + 2;
      ClustersAtLeastIff(n - 2 * Rows(n, spc, Fat32), spc, 65525);
      if n >= 65525 * spc { CeilAtLeast(n + 2 * spc, d, 500); }
    }
  }

  lemma Fat32Fits(total: nat, spc: nat)
    requires 1 <= spc <= 128 && 0x2_0000 * spc <= total <= 0x400_0000 * spc
    ensures var g := TryType(total, 512, spc, 512, 2, Fat32); g.Some? && g.value.sectorsPerFat < 0x10_0000
  {
    var n, d, s := total - 8, FatRow(spc, Fat32), Rows(total - 8, spc, Fat32);
    TryDefault(total, spc, Fat32, n);
    assert d == 128 * spc + 2;
    ClustersAtLeastIff(n - 2 * s, spc, 65525);
    ClustersAtLeastIff(n - 2 * s, spc, 0x400_0001);
    Tail(n + 2 * spc, d, 0);
    CeilAtMost(n + 2 * spc, d, 0x8_0001);
  }

  lemma DefaultGeometry(total: nat)
    requires total < U32_SIZE
    ensures var r := FsGeometry(total, 512, DefaultSpc(total), 512, 2);
            if DefaultType(total).None? then r.None?
            else r.Some? && r.value.fatType == DefaultType(total).value && r.value.geometry.sectorsPerFat < 0x10_0000
  {
    var spc := DefaultSpc(total);
    if total < 0x10_0000 {
      Fat32Fails(total, spc);
      Fat16FitsIff(total, spc);
      Fat12FitsIff(total, spc);
    } else {
      Fat32Fits(total, spc);
    }
    if DefaultType(total).Some? {
      ChosenFits(DEFAULT_OPTIONS, total, 512, DefaultSpc(total));
    }
  }

  // With default options and 512-byte sectors, formatting fails for exactly 50 sizes: up to 41 sectors, and
  // from 8227 to 8234, where the FAT12 cluster count is too high and the FAT16 one too low. Otherwise the
  // result is of the expected type and passes validate.
  lemma DefaultFormat(total: nat)
    requires total < U32_SIZE
    ensures var r := FormatBpb(DEFAULT_OPTIONS, total, 512);
            if DefaultType(total).None? then r == InvalidInput
            else r.Formatted? && r.fatType == DefaultType(total).value && Validate(r.bpb) == Accepted
  {
    DefaultCluster(total);
    DefaultGeometry(total);
    if DefaultType(total).Some? {
      var spc := DefaultSpc(total);
      var c := FsGeometry(total, 512, spc, 512, 2).value;
      SectorsPerClusterIsValid(DEFAULT_OPTIONS, total, 512);
      ChosenFits(DEFAULT_OPTIONS, total, 512, spc);
      AgreedBpbVerdict(DEFAULT_OPTIONS, total, 512, spc, c);
    }
  }
}
