// The segment-tree bitmap allocator of dependencies/bitmap-allocator/src/lib.rs.
//
// A node of level 0 is a BitAlloc16; a node of level n is a BitAllocCascade16 over sixteen nodes of
// level n - 1. Either way its own state is one u16, kept here as its sixteen bits, lowest first.
module BitAlloc {
  import opened Options

  type Word = w: seq<bool> | |w| == 16 witness seq(16, _ => false)

  // Number of indices under a node: 16, 256, 4K, 64K, 1M, ...
  function Cap(level: nat): (c: nat)
    ensures c >= 16
  {
    if level == 0 then 16 else 16 * Cap(level - 1)
  }

  predicate Within(lo: nat, x: nat, hi: nat) { lo <= x < hi }

  function Range(lo: nat, hi: nat): set<nat> { set x: nat | x < hi && Within(lo, x, hi) }

  // The free set after insert or remove over a range.
  function Marked(free: set<nat>, lo: nat, hi: nat, available: bool): set<nat> {
    if available then free + Range(lo, hi) else free - Range(lo, hi)
  }

  // u16::trailing_zeros
  function TrailingZeros(w: Word, from: nat := 0): (i: nat)
    requires from <= 16
    ensures from <= i <= 16 && (i < 16 ==> w[i]) && forall j :: from <= j < i ==> !w[j]
    decreases 16 - from
  {
    if from == 16 || w[from] then from else TrailingZeros(w, from + 1)
  }

  function SetBits(w: Word, lo: nat, hi: nat, b: bool): Word {
    seq(16, i requires 0 <= i < 16 => if lo <= i < hi then b else w[i])
  }

  function Bits(w: Word): set<nat> { set i: nat | i < 16 && w[i] }

  // --- Sixteen blocks of c indices, side by side ---

  predicate InBlock(blocks: seq<set<nat>>, c: nat, x: nat)
    requires c > 0
  {
    x / c < |blocks| && x % c in blocks[x / c]
  }

  function Glue(blocks: seq<set<nat>>, c: nat): set<nat>
    requires c > 0
  {
    set x: nat | x < 16 * c && InBlock(blocks, c, x)
  }

  lemma MulAtLeast(k: int, c: int)
    requires c >= 0
    ensures k >= 1 ==> k * c >= c
    ensures k <= -1 ==> k * c <= -c
  {
  }

  lemma MulMono(a: int, b: int, c: int)
    requires c > 0
    ensures a <= b <==> a * c <= b * c
  {
    MulAtLeast(b - a, c);
    assert (b - a) * c == b * c - a * c;
  }

  lemma DivMod(c: nat, i: nat, r: nat)
    requires r < c
    ensures (i * c + r) / c == i && (i * c + r) % c == r
    ensures i < 16 ==> i * c + r < 16 * c
  {
    var q, m := (i * c + r) / c, (i * c + r) % c;
    assert i * c + r == q * c + m;
    assert (q - i) * c == r - m;
    MulAtLeast(q - i, c);
    if i < 16 {
      assert (i + 1) * c <= 16 * c;
    }
  }

  lemma Split(c: nat, x: nat)
    requires c > 0
    ensures x == (x / c) * c + x % c && x % c < c && x / c >= 0
    ensures x < 16 * c <==> x / c < 16
  {
    if x / c >= 16 {
      assert (x / c) * c >= 16 * c;
    } else {
      DivMod(c, x / c, x % c);
    }
  }

  lemma GlueAt(blocks: seq<set<nat>>, c: nat, i: nat, r: nat)
    requires |blocks| == 16 && i < 16 && r < c
    ensures i * c + r in Glue(blocks, c) <==> r in blocks[i]
  {
    DivMod(c, i, r);
  }

  ghost predicate Bounded(blocks: seq<set<nat>>, c: nat) {
    |blocks| == 16 && c > 0 && forall i, x | 0 <= i < 16 && x in blocks[i] :: x < c
  }

  lemma GlueEmpty(blocks: seq<set<nat>>, c: nat)
    requires Bounded(blocks, c)
    ensures Glue(blocks, c) == {} <==> forall i | 0 <= i < 16 :: blocks[i] == {}
  {
    forall i, r | 0 <= i < 16 && r in blocks[i] ensures i * c + r in Glue(blocks, c) {
      GlueAt(blocks, c, i, r);
    }
    forall x | x in Glue(blocks, c) ensures blocks[x / c] != {} { Split(c, x); }
  }

  // Replacing block i by b gives any set that agrees with b there and with the rest elsewhere.
  lemma GlueReplace(blocks: seq<set<nat>>, c: nat, i: nat, b: set<nat>, free: set<nat>)
    requires Bounded(blocks, c) && i < 16
    requires forall r: nat | r < c :: r in b <==> i * c + r in free
    requires forall x | x < 16 * c && x / c != i :: x in free <==> x in Glue(blocks, c)
    requires forall x | x in free :: x < 16 * c
    ensures Glue(blocks[i := b], c) == free
  {
    forall x: nat | x < 16 * c
      ensures x in Glue(blocks[i := b], c) <==> x in free
    {
      Split(c, x);
    }
  }

  lemma GlueToggle(blocks: seq<set<nat>>, c: nat, i: nat, r: nat)
    requires Bounded(blocks, c) && i < 16 && r < c
    ensures Glue(blocks[i := blocks[i] + {r}], c) == Glue(blocks, c) + {i * c + r}
    ensures Glue(blocks[i := blocks[i] - {r}], c) == Glue(blocks, c) - {i * c + r}
  {
    DivMod(c, i, r);
    forall r': nat | r' < c ensures (i * c + r' in Glue(blocks, c) <==> r' in blocks[i]) && (i * c + r' == i * c + r <==> r' == r) {
      GlueAt(blocks, c, i, r');
    }
    GlueReplace(blocks, c, i, blocks[i] + {r}, Glue(blocks, c) + {i * c + r});
    GlueReplace(blocks, c, i, blocks[i] - {r}, Glue(blocks, c) - {i * c + r});
  }

  lemma LaterBlock(c: nat, i: nat, r: nat, j: nat, r': nat)
    requires r < c
    requires i < j || (i == j && r <= r')
    ensures i * c + r <= j * c + r'
  {
    MulAtLeast(j - i, c);
    assert (j - i) * c == j * c - i * c;
  }

  lemma BlockOrder(c: nat, i: nat, r: nat, j: nat, r': nat)
    requires r < c && r' < c
    ensures i * c + r <= j * c + r' <==> i < j || (i == j && r <= r')
  {
    if i < j || (i == j && r <= r') {
      LaterBlock(c, i, r, j, r');
    } else {
      LaterBlock(c, j, r', i, r);
      DivMod(c, i, r);
      DivMod(c, j, r');
    }
  }

  lemma GlueMin(blocks: seq<set<nat>>, c: nat, i: nat, r: nat)
    requires Bounded(blocks, c) && i < 16 && r in blocks[i]
    requires forall j | 0 <= j < i :: blocks[j] == {}
    requires forall r' | r' in blocks[i] :: r <= r'
    ensures i * c + r in Glue(blocks, c) && forall x | x in Glue(blocks, c) :: i * c + r <= x
  {
    GlueAt(blocks, c, i, r);
    forall x | x in Glue(blocks, c) ensures i * c + r <= x {
      Split(c, x);
      LaterBlock(c, i, r, x / c, x % c);
    }
  }

  // Taking the least index r of the first non-empty block takes the least index of all.
  lemma GlueTakeMin(blocks: seq<set<nat>>, c: nat, i: nat, r: nat, free: set<nat>)
    requires Bounded(blocks, c) && i < 16 && r in blocks[i] && free == Glue(blocks, c)
    requires forall j | 0 <= j < i :: blocks[j] == {}
    requires forall r' | r' in blocks[i] :: r <= r'
    ensures i * c + r in free && forall x | x in free :: i * c + r <= x
    ensures Glue(blocks[i := blocks[i] - {r}], c) == free - {i * c + r}
  {
    GlueMin(blocks, c, i, r);
    GlueToggle(blocks, c, i, r);
  }

  // Where the node above sees index r of block i, the least free index of all.
  method TakeKey(ghost blocks: seq<set<nat>>, c: nat, i: nat, r: nat, ghost free: set<nat>) returns (key: nat)
    requires Bounded(blocks, c) && i < 16 && r in blocks[i] && free == Glue(blocks, c)
    requires forall j | 0 <= j < i :: blocks[j] == {}
    requires forall r' | r' in blocks[i] :: r <= r'
    ensures key in free && forall x | x in free :: key <= x
    ensures Glue(blocks[i := blocks[i] - {r}], c) == free - {key}
  {
    GlueTakeMin(blocks, c, i, r, free);
    key := i * c + r;
  }

  // The part of [lo, hi) that for_range hands to block i.
  function Begin(lo: nat, c: nat, i: nat): nat requires c > 0 { if lo / c == i then lo % c else 0 }
  function End(hi: nat, c: nat, i: nat): nat requires c > 0 { if hi / c == i then hi % c else c }

  lemma LastBlock(c: nat, hi: nat)
    requires c > 0 && hi > 0
    ensures (hi - 1) / c == if hi % c == 0 then hi / c - 1 else hi / c
  {
    Split(c, hi);
    if hi % c == 0 {
      MulAtLeast(hi / c, c);
      assert (hi / c - 1) * c == (hi / c) * c - c;
      DivMod(c, hi / c - 1, c - 1);
    } else {
      DivMod(c, hi / c, hi % c - 1);
    }
  }

  // Indices compare by block first, then by offset.
  lemma InOrder(c: nat, x: nat, y: nat)
    requires c > 0
    ensures x <= y <==> x / c < y / c || (x / c == y / c && x % c <= y % c)
    ensures x % c < c && y % c < c
  {
    Split(c, x);
    Split(c, y);
    PartOrder(c, x, x / c, x % c, y, y / c, y % c);
  }

  lemma PartOrder(c: nat, x: nat, i: int, r: int, y: nat, j: int, r': int)
    requires x == i * c + r && y == j * c + r' && 0 <= r < c && 0 <= r' < c && i >= 0 && j >= 0
    ensures x <= y <==> i < j || (i == j && r <= r')
  {
    BlockOrder(c, i, r, j, r');
  }

  lemma FromLoByBlock(c: nat, lo: nat, x: nat)
    requires c > 0
    ensures lo <= x <==> lo / c <= x / c && Begin(lo, c, x / c) <= x % c
  {
    InOrder(c, lo, x);
  }

  lemma BeforeHiByBlock(c: nat, hi: nat, x: nat)
    requires c > 0 && hi > 0
    ensures x < hi <==> x / c <= (hi - 1) / c && x % c < End(hi, c, x / c)
  {
    InOrder(c, hi, x);
    LastBlock(c, hi);
  }

  lemma BlocksOfRange(c: nat, lo: nat, hi: nat)
    requires c > 0 && lo < hi <= 16 * c
    ensures lo / c <= (hi - 1) / c < 16
  {
    InOrder(c, lo, hi - 1);
    Split(c, hi - 1);
  }

  lemma PartBounds(c: nat, lo: nat, hi: nat, i: nat)
    requires c > 0 && lo < hi && lo / c <= i <= (hi - 1) / c
    ensures Begin(lo, c, i) < End(hi, c, i) <= c
    ensures hi <= 16 * c ==> i < 16
  {
    InOrder(c, hi, lo);
    LastBlock(c, hi);
    if hi <= 16 * c {
      BlocksOfRange(c, lo, hi);
    }
  }

  function MarkedPart(block: set<nat>, c: nat, lo: nat, hi: nat, i: nat, available: bool): set<nat>
    requires c > 0 && hi > 0
  {
    if lo / c <= i <= (hi - 1) / c then Marked(block, Begin(lo, c, i), End(hi, c, i), available) else block
  }

  function MarkedBlocks(blocks: seq<set<nat>>, c: nat, lo: nat, hi: nat, available: bool): (marked: seq<set<nat>>)
    requires |blocks| == 16 && c > 0 && hi > 0
    ensures |marked| == 16
    ensures forall i | 0 <= i < 16 :: marked[i] == MarkedPart(blocks[i], c, lo, hi, i, available)
    ensures forall i | 0 <= i < 16 && !(lo / c <= i <= (hi - 1) / c) :: marked[i] == blocks[i]
  {
    seq(16, i requires 0 <= i < 16 => MarkedPart(blocks[i], c, lo, hi, i, available))
  }

  lemma MarkedPartAt(block: set<nat>, c: nat, lo: nat, hi: nat, x: nat, available: bool)
    requires c > 0 && hi > 0
    ensures x % c in MarkedPart(block, c, lo, hi, x / c, available) <==>
      if lo <= x < hi then available else x % c in block
  {
    FromLoByBlock(c, lo, x);
    BeforeHiByBlock(c, hi, x);
  }

  // Marking each block's part of a range marks the range.
  lemma GlueMark(blocks: seq<set<nat>>, c: nat, lo: nat, hi: nat, available: bool, marked: seq<set<nat>>)
    requires Bounded(blocks, c) && lo < hi <= 16 * c && |marked| == 16
    requires forall i | 0 <= i < 16 :: marked[i] == MarkedPart(blocks[i], c, lo, hi, i, available)
    ensures Glue(marked, c) == Marked(Glue(blocks, c), lo, hi, available)
  {
    forall x: nat | x < 16 * c
      ensures x in Glue(marked, c) <==> if lo <= x < hi then available else x in Glue(blocks, c)
    {
      GlueMarkAt(blocks, c, lo, hi, available, marked, x);
    }
  }

  lemma GlueMarkAt(blocks: seq<set<nat>>, c: nat, lo: nat, hi: nat, available: bool, marked: seq<set<nat>>, x: nat)
    requires Bounded(blocks, c) && 0 < hi && |marked| == 16 && x < 16 * c
    requires forall i | 0 <= i < 16 :: marked[i] == MarkedPart(blocks[i], c, lo, hi, i, available)
    ensures x in Glue(marked, c) <==> if lo <= x < hi then available else x in Glue(blocks, c)
  {
    Split(c, x);
    MarkedPartAt(blocks[x / c], c, lo, hi, x, available);
  }

  // r is the least free index not below key, if there is one.
  ghost predicate IsNext(free: set<nat>, key: nat, r: Option<nat>) {
    match r
    case None => forall x | x in free :: x < key
    case Some(y) => y in free && key <= y && forall x | x in free :: x < key || y <= x
  }

  // The blocks from key's own up to i, without i, have nothing free at or after key.
  ghost predicate NoneBefore(blocks: seq<set<nat>>, c: nat, key: nat, i: nat)
    requires c > 0
  {
    && (forall j | key / c < j < i && j < |blocks| :: blocks[j] == {})
    && (key / c < i && key / c < |blocks| ==> forall r | r in blocks[key / c] :: r < key % c)
  }

  lemma GlueNextNone(blocks: seq<set<nat>>, c: nat, key: nat)
    requires Bounded(blocks, c) && (key / c < 16 ==> NoneBefore(blocks, c, key, 16))
    ensures IsNext(Glue(blocks, c), key, None)
  {
    forall x | x in Glue(blocks, c) ensures x < key {
      Split(c, x);
      InOrder(c, key, x);
    }
  }

  lemma GlueNextSome(blocks: seq<set<nat>>, c: nat, key: nat, i: nat, y: nat)
    requires Bounded(blocks, c) && key / c <= i < 16 && NoneBefore(blocks, c, key, i)
    requires IsNext(blocks[i], if i == key / c then key % c else 0, Some(y))
    ensures IsNext(Glue(blocks, c), key, Some(i * c + y))
  {
    GlueAt(blocks, c, i, y);
    DivMod(c, i, y);
    InOrder(c, key, i * c + y);
    forall x | x in Glue(blocks, c) ensures x < key || i * c + y <= x {
      Split(c, x);
      InOrder(c, key, x);
      InOrder(c, i * c + y, x);
    }
  }

  // --- First fit ---

  function Pow2(n: nat): (p: nat)
    ensures p > 0
  {
    if n == 0 then 1 else 2 * Pow2(n - 1)
  }

  predicate Fits(free: set<nat>, base: nat, size: nat) {
    forall x: nat | base <= x < base + size :: x in free
  }

  // r is the least aligned base of `size` free indices. No base exists for a block of size 0, or
  // for an alignment above the capacity.
  ghost predicate IsFirstFit(free: set<nat>, capacity: nat, size: nat, alignLog2: nat, r: Option<nat>) {
    var p := Pow2(alignLog2);
    match r
    case None => size == 0 || capacity < p || forall b: nat | b % p == 0 :: !Fits(free, b, size)
    case Some(base) =>
      && size > 0 && p <= capacity && base % p == 0 && Fits(free, base, size)
      && forall b: nat | b < base && b % p == 0 :: !Fits(free, b, size)
  }

  // ((next - 1) >> alignLog2) + 1 << alignLog2 is the least multiple of the alignment not below next.
  function AlignUp(next: nat, p: nat): nat
    requires next > 0 && p > 0
  {
    ((next - 1) / p + 1) * p
  }

  lemma AlignUpIsLeast(next: nat, p: nat, b: nat)
    requires next > 0 && p > 0 && b % p == 0
    ensures AlignUp(next, p) >= next && AlignUp(next, p) % p == 0
    ensures b >= next ==> b >= AlignUp(next, p)
  {
    var q, k := (next - 1) / p, b / p;
    Split(p, next - 1);
    Split(p, b);
    DivMod(p, q + 1, 0);
    assert (q + 1) * p == q * p + p;
    MulMono(k, q, p);
    MulMono(q + 1, k, p);
  }

  ghost predicate NoFitBelow(free: set<nat>, p: nat, size: nat, bound: nat)
    requires p > 0
  {
    size == 0 || forall b: nat | b < bound && b % p == 0 :: !Fits(free, b, size)
  }

  // A gap from offset to next rules out every base before the next aligned position.
  lemma GapRulesOut(free: set<nat>, p: nat, size: nat, base: nat, offset: nat, next: nat)
    requires p > 0 && NoFitBelow(free, p, size, base) && base <= offset < next
    requires size > 0 ==> offset - base < size
    requires IsNext(free, offset, Some(next))
    ensures NoFitBelow(free, p, size, AlignUp(next, p))
    ensures AlignUp(next, p) >= next && AlignUp(next, p) % p == 0
  {
    AlignUpIsLeast(next, p, 0);
    if size > 0 {
      forall b: nat | b < AlignUp(next, p) && b % p == 0 ensures !Fits(free, b, size) {
        AlignUpIsLeast(next, p, b);
        assert b >= base ==> (if b <= offset then offset else b) !in free;
      }
    }
  }

  // With nothing free from offset on, no base is left.
  lemma EndRulesOut(free: set<nat>, p: nat, size: nat, base: nat, offset: nat)
    requires p > 0 && NoFitBelow(free, p, size, base) && base <= offset
    requires size > 0 ==> offset - base < size
    requires forall x | x in free :: x < offset
    ensures size == 0 || forall b: nat | b % p == 0 :: !Fits(free, b, size)
  {
    if size > 0 {
      forall b: nat | b % p == 0 && b >= base ensures !Fits(free, b, size) {
        assert b + size - 1 !in free;
      }
    }
  }

  lemma BitsEmpty(w: Word)
    ensures Bits(w) == {} <==> w == seq(16, _ => false)
  {
    if Bits(w) == {} {
      assert forall i: nat | i < 16 :: w[i] ==> i in Bits(w);
    }
  }

  // --- The allocator ---

  class Node {
    const level: nat
    var bitset: Word
    const sub: seq<Node>
    ghost var free: set<nat>
    ghost const Repr: set<object>

    // The tree of nodes never changes, only the words in it do.
    ghost predicate Shape()
      decreases level
    {
      && this in Repr
      && (level == 0 ==> sub == [])
      && (level > 0 ==>
          && |sub| == 16
          && (forall i | 0 <= i < 16 :: sub[i] in Repr && sub[i].level == level - 1 && sub[i].Repr <= Repr
                                        && this !in sub[i].Repr && sub[i].Shape())
          && (forall i, j | 0 <= i < 16 && 0 <= j < 16 && i != j :: sub[i].Repr !! sub[j].Repr))
    }

    ghost function Blocks(): (b: seq<set<nat>>)
      requires Shape()
      reads Repr
      ensures |b| == |sub| && forall i | 0 <= i < |sub| :: b[i] == sub[i].free
    {
      seq(|sub|, i requires 0 <= i < |sub| reads Repr => sub[i].free)
    }

    // At every depth, a summary bit is set iff its subtree has a free index.
    ghost predicate Valid()
      reads Repr
      decreases level
    {
      && Shape()
      && (level == 0 ==> free == Bits(bitset))
      && (level > 0 ==>
          && (forall i | 0 <= i < 16 :: sub[i].Valid() && (bitset[i] <==> sub[i].free != {}))
          && free == Glue(Blocks(), Cap(level - 1)))
    }

    lemma FreeIsBounded()
      requires Valid()
      ensures forall x | x in free :: x < Cap(level)
    {
    }

    lemma BlocksAreBounded()
      requires Valid() && level > 0
      ensures Bounded(Blocks(), Cap(level - 1))
    {
      forall i | 0 <= i < 16 ensures forall x | x in Blocks()[i] :: x < Cap(level - 1) {
        sub[i].FreeIsBounded();
      }
    }

    // Child i has changed, its summary bit and the free set have followed, the rest is untouched.
    twostate lemma ChildChanged(i: nat)
      requires old(Valid()) && level > 0 && i < 16 && sub[i].Valid()
      requires forall j | 0 <= j < 16 && j != i :: unchanged(sub[j].Repr)
      requires bitset == old(bitset)[i := sub[i].free != {}]
      requires free == Glue(old(Blocks())[i := sub[i].free], Cap(level - 1))
      ensures Valid()
    {
      forall j | 0 <= j < 16 && j != i ensures sub[j].Valid() && sub[j].free == old(sub[j].free) {
      }
      assert Blocks() == old(Blocks())[i := sub[i].free];
    }

    // BitAlloc::DEFAULT: nothing is free.
    constructor (n: nat)
      ensures Valid() && fresh(Repr) && level == n && free == {}
      decreases n, 0
    {
      var children: seq<Node> := [];
      ghost var repr: set<object> := {};
      if n > 0 {
        children, repr := Defaults(n - 1);
      }
      level := n;
      bitset := seq(16, _ => false);
      sub := children;
      free := {};
      Repr := repr + {this};
    }

    static method Defaults(n: nat) returns (children: seq<Node>, ghost repr: set<object>)
      ensures |children| == 16 && fresh(repr)
      ensures forall i | 0 <= i < 16 ::
        children[i] in repr && children[i].Repr <= repr && children[i].Valid() && children[i].level == n && children[i].free == {}
      ensures forall i, j | 0 <= i < 16 && 0 <= j < 16 && i != j :: children[i].Repr !! children[j].Repr
      decreases n, 1
    {
      children, repr := [], {};
      while |children| < 16
        invariant |children| <= 16 && fresh(repr)
        invariant forall i | 0 <= i < |children| ::
          children[i] in repr && children[i].Repr <= repr && children[i].Valid() && children[i].level == n && children[i].free == {}
        invariant forall i, j | 0 <= i < |children| && 0 <= j < |children| && i != j :: children[i].Repr !! children[j].Repr
      {
        var child := new Node(n);
        children := children + [child];
        repr := repr + child.Repr;
      }
    }

    method IsEmpty() returns (r: bool)
      requires Valid()
      ensures r <==> free == {}
    {
      r := bitset == seq(16, _ => false);
      if level == 0 {
        BitsEmpty(bitset);
      } else {
        BlocksAreBounded();
        GlueEmpty(Blocks(), Cap(level - 1));
        assert r <==> forall i | 0 <= i < 16 :: !bitset[i];
      }
    }

    method Test(key: nat) returns (r: bool)
      requires Valid() && key < Cap(level)
      ensures r <==> key in free
      decreases level
    {
      if level == 0 {
        r := bitset[key];
      } else {
        Split(Cap(level - 1), key);
        r := sub[key / Cap(level - 1)].Test(key % Cap(level - 1));
      }
    }

    // Take the least free index.
    method Alloc() returns (r: Option<nat>)
      requires Valid()
      modifies Repr
      ensures Valid()
      ensures r.None? ==> old(free) == {} && free == {}
      ensures r.Some? ==> r.value in old(free) && free == old(free) - {r.value}
                          && forall x | x in old(free) :: r.value <= x
      decreases level, 1
    {
      if level == 0 {
        r := Alloc16();
      } else {
        r := AllocCascade();
      }
    }

    method Alloc16() returns (r: Option<nat>)
      requires Valid() && level == 0
      modifies Repr
      ensures Valid()
      ensures r.None? ==> old(free) == {} && free == {}
      ensures r.Some? ==> r.value in old(free) && free == old(free) - {r.value}
                          && forall x | x in old(free) :: r.value <= x
      decreases level, 0
    {
      var i := TrailingZeros(bitset);
      if i < 16 {
        bitset := bitset[i := false];
        free := free - {i};
        r := Some(i);
      } else {
        r := None;
      }
    }

    method AllocCascade() returns (r: Option<nat>)
      requires Valid() && level > 0
      modifies Repr
      ensures Valid()
      ensures r.None? ==> old(free) == {} && free == {}
      ensures r.Some? ==> r.value in old(free) && free == old(free) - {r.value}
                          && forall x | x in old(free) :: r.value <= x
      decreases level, 0, 1
    {
      var empty := IsEmpty();
      if empty {
        return None;
      }
      var key := AllocBelow();
      r := Some(key);
    }

    lemma FirstBlock()
      requires Valid() && level > 0 && free != {}
      ensures Bounded(Blocks(), Cap(level - 1))
      ensures var i := TrailingZeros(bitset);
              i < 16 && Blocks()[i] != {} && forall j | 0 <= j < i :: Blocks()[j] == {}
    {
      BlocksAreBounded();
      GlueEmpty(Blocks(), Cap(level - 1));
    }

    // The least free index is the least of the first block that has one.
    method AllocBelow() returns (key: nat)
      requires Valid() && level > 0 && free != {}
      modifies Repr
      ensures Valid() && key in old(free) && free == old(free) - {key}
      ensures forall x | x in old(free) :: key <= x
      decreases level, 0, 0
    {
      var c := Cap(level - 1);
      ghost var before, f := Blocks(), free;
      FirstBlock();
      var i := TrailingZeros(bitset);
      var x := sub[i].Alloc();
      key := TakeKey(before, c, i, x.value, f);
      var isEmpty := sub[i].IsEmpty();
      bitset := bitset[i := !isEmpty];
      free := f - {key};
      ChildChanged(i);
    }

    // Give an allocated index back. Freeing a free index trips the assertion of the source.
    method Dealloc(key: nat)
      requires Valid() && key < Cap(level) && key !in free
      modifies Repr
      ensures Valid() && free == old(free) + {key}
      decreases level
    {
      if level == 0 {
        bitset := bitset[key := true];
        free := free + {key};
      } else {
        var c := Cap(level - 1);
        ghost var before, f := Blocks(), free;
        BlocksAreBounded();
        Split(c, key);
        var i := key / c;
        GlueAt(before, c, i, key % c);
        GlueToggle(before, c, i, key % c);
        sub[i].Dealloc(key % c);
        bitset := bitset[i := true];
        free := f + {key};
        ChildChanged(i);
      }
    }

    // Mark a non-empty range as available.
    method Insert(lo: nat, hi: nat)
      requires Valid() && lo < hi <= Cap(level)
      modifies Repr
      ensures Valid() && free == old(free) + Range(lo, hi)
      decreases level, 2
    {
      if level == 0 {
        bitset := SetBits(bitset, lo, hi, true);
        free := free + Range(lo, hi);
      } else {
        ForRange(lo, hi, true);
      }
    }

    // Mark a non-empty range as taken.
    method Remove(lo: nat, hi: nat)
      requires Valid() && lo < hi <= Cap(level)
      modifies Repr
      ensures Valid() && free == old(free) - Range(lo, hi)
      decreases level, 2
    {
      if level == 0 {
        bitset := SetBits(bitset, lo, hi, false);
        free := free - Range(lo, hi);
      } else {
        ForRange(lo, hi, false);
      }
    }

    // for_range, with the closure it is given: insert or remove on each child.
    method ForRange(lo: nat, hi: nat, available: bool)
      requires Valid() && level > 0 && lo < hi <= Cap(level)
      modifies Repr
      ensures Valid() && free == Marked(old(free), lo, hi, available)
      decreases level, 1
    {
      var c := Cap(level - 1);
      ghost var before := Blocks();
      ghost var after := MarkedBlocks(before, c, lo, hi, available);
      BlocksAreBounded();
      BlocksOfRange(c, lo, hi);
      var i, last := lo / c, (hi - 1) / c;
      while i <= last
        invariant lo / c <= i <= last + 1
        invariant free == old(free) && ChildrenAre(before, after, i)
      {
        MarkChild(i, lo, hi, available);
        i := i + 1;
      }
      GlueMark(before, c, lo, hi, available, after);
      free := Marked(free, lo, hi, available);
      assert Blocks() == after;
    }

    // The children before i are as in `after`, the others as in `before`; all are sound.
    ghost predicate ChildrenAre(before: seq<set<nat>>, after: seq<set<nat>>, i: nat)
      requires Shape() && level > 0 && |before| == |after| == 16
      reads Repr
    {
      forall j | 0 <= j < 16 ::
        && sub[j].Valid() && (bitset[j] <==> sub[j].free != {})
        && sub[j].free == (if j < i then after[j] else before[j])
    }

    // One turn of the loop: the closure on child i with its part of the range, then its summary bit.
    method MarkChild(i: nat, lo: nat, hi: nat, available: bool)
      requires Shape() && level > 0 && lo < hi <= Cap(level)
      requires lo / Cap(level - 1) <= i <= (hi - 1) / Cap(level - 1) && i < 16 && sub[i].Valid()
      modifies `bitset, sub[i].Repr
      ensures sub[i].Valid() && sub[i].free == MarkedPart(old(sub[i].free), Cap(level - 1), lo, hi, i, available)
      ensures bitset == old(bitset)[i := sub[i].free != {}]
      decreases level, 0
    {
      var c := Cap(level - 1);
      PartBounds(c, lo, hi, i);
      sub[i].InsertOrRemove(if lo / c == i then lo % c else 0, if hi / c == i then hi % c else c, available);
      var isEmpty := sub[i].IsEmpty();
      bitset := bitset[i := !isEmpty];
    }

    // The closure.
    method InsertOrRemove(lo: nat, hi: nat, available: bool)
      requires Valid() && lo < hi <= Cap(level)
      modifies Repr
      ensures Valid() && free == Marked(old(free), lo, hi, available)
      decreases level, 3
    {
      if available {
        Insert(lo, hi);
      } else {
        Remove(lo, hi);
      }
    }

    // The least free index not below key.
    method Next(key: nat) returns (r: Option<nat>)
      requires Valid()
      ensures IsNext(free, key, r)
      decreases level
    {
      var i: nat;
      if level == 0 {
        i := key;
        while i < 16
          invariant key <= i
          invariant forall x | x in free :: x < key || i <= x
        {
          if bitset[i] {
            return Some(i);
          }
          i := i + 1;
        }
        return None;
      }
      var c := Cap(level - 1);
      BlocksAreBounded();
      i := key / c;
      while i < 16
        invariant key / c <= i && NoneBefore(Blocks(), c, key, i)
        decreases 16 - i
      {
        if bitset[i] {
          Split(c, key);
          var k := if i == key / c then key - c * i else 0;
          var x := sub[i].Next(k);
          if x.Some? {
            GlueNextSome(Blocks(), c, key, i, x.value);
            return Some(x.value + c * i);
          }
        }
        i := i + 1;
      }
      GlueNextNone(Blocks(), c, key);
      return None;
    }

    // find_contiguous: the base jumps past every index that turns out not to be free.
    method FindContiguous(capacity: nat, size: nat, alignLog2: nat) returns (r: Option<nat>)
      requires Valid() && capacity == Cap(level)
      ensures IsFirstFit(free, capacity, size, alignLog2, r)
    {
      var p := Pow2(alignLog2);
      var empty := IsEmpty();
      if capacity < p {
        return None;
      }
      if empty {
        EndRulesOut(free, p, size, 0, 0);
        return None;
      }
      FreeIsBounded();
      var base: nat, offset: nat := 0, 0;
      while offset < capacity
        invariant base <= offset && base % p == 0 && (size > 0 ==> offset - base < size)
        invariant Fits(free, base, offset - base) && NoFitBelow(free, p, size, base)
        decreases capacity - offset
      {
        var next := Next(offset);
        if next.None? {
          EndRulesOut(free, p, size, base, offset);
          return None;
        }
        if next.value != offset {
          GapRulesOut(free, p, size, base, offset, next.value);
          base := AlignUp(next.value, p);
          offset := base;
          continue;
        }
        offset := offset + 1;
        if offset - base == size {
          return Some(base);
        }
      }
      EndRulesOut(free, p, size, base, offset);
      r := None;
    }

    // Take the first aligned block of free indices.
    method AllocContiguous(size: nat, alignLog2: nat) returns (r: Option<nat>)
      requires Valid()
      modifies Repr
      ensures Valid() && IsFirstFit(old(free), Cap(level), size, alignLog2, r)
      ensures free == if r.Some? then old(free) - Range(r.value, r.value + size) else old(free)
    {
      r := FindContiguous(Cap(level), size, alignLog2);
      if r.Some? {
        FreeIsBounded();
        assert r.value + size - 1 in free;
        Remove(r.value, r.value + size);
      }
    }
  }
}
