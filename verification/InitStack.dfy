// The initial user stack: InitStack of kernel/src/loaders/init_stack.rs pushes downwards into a buffer, and
// InitInfo::serialize of kernel/src/loaders/init_info.rs lays out what a new program reads upwards from sp.
module InitStacks {
  import opened MachineInts

  const INIT_STACK_SIZE := 0x4000
  const AT_RANDOM: Byte := 25
  const RANDOM: seq<U64> := [3703830112808742751, 7081108068768079778]

  // --- Little-endian words ---

  function Pow256(n: nat): nat { if n == 0 then 1 else 256 * Pow256(n - 1) }

  function LeBytes(w: nat, n: nat): (b: seq<Byte>)
    ensures |b| == n
  {
    if n == 0 then [] else [w % 256] + LeBytes(w / 256, n - 1)
  }

  function FromLe(b: seq<Byte>): nat { if b == [] then 0 else b[0] + 256 * FromLe(b[1..]) }

  lemma {:induction false} LeRoundTrip(w: nat, n: nat)
    requires w < Pow256(n)
    ensures FromLe(LeBytes(w, n)) == w
  {
    if n > 0 {
      assert w / 256 < Pow256(n - 1);
      LeRoundTrip(w / 256, n - 1);
      assert LeBytes(w, n)[1..] == LeBytes(w / 256, n - 1);
    }
  }

  function WordBytes(ws: seq<U64>): (b: seq<Byte>)
    ensures |b| == 8 * |ws|
  {
    if ws == [] then [] else LeBytes(ws[0], 8) + WordBytes(ws[1..])
  }

  lemma {:induction false} WordBytesAppend(a: seq<U64>, b: seq<U64>)
    ensures WordBytes(a + b) == WordBytes(a) + WordBytes(b)
  {
    if a == [] {
      assert a + b == b;
    } else {
      assert (a + b)[1..] == a[1..] + b;
      WordBytesAppend(a[1..], b);
    }
  }

  // --- The stack ---

  // Addresses run from sp up to bottom; the last byte of data is the one below bottom. A push that trips the
  // assertion, or takes sp below zero, clears ok.
  datatype Stack = Stack(ok: bool, sp: U64, bottom: U64, data: seq<Byte>)

  predicate StackOk(s: Stack) { s.sp <= s.bottom && s.bottom - s.sp <= |s.data| }

  function Offset(s: Stack, a: nat): int { |s.data| - (s.bottom - a) }

  // The n bytes at address a, all of them pushed.
  function Slice(s: Stack, a: nat, n: nat): (b: seq<Byte>)
    requires StackOk(s) && s.sp <= a && a + n <= s.bottom
    ensures |b| == n
  {
    s.data[Offset(s, a)..Offset(s, a) + n]
  }

  // sp %= align_of::<T>(), for bytes and for words
  predicate Align(align: nat) { align == 1 || align == 8 }
  function Excess(a: nat, align: nat): nat { if align == 8 then a % 8 else 0 }

  predicate Fits(s: Stack, n: nat, align: nat) {
    s.ok && n <= s.sp && s.bottom - (s.sp - n - Excess(s.sp - n, align)) <= |s.data|
  }

  // push_slice of elements that take |w| bytes together
  function Push(s: Stack, w: seq<Byte>, align: nat): (t: Stack)
    requires StackOk(s) && Align(align)
    ensures StackOk(t) && (t.ok <==> Fits(s, |w|, align))
  {
    if !Fits(s, |w|, align) then s.(ok := false)
    else
      var sp: U64 := s.sp - |w| - Excess(s.sp - |w|, align);
      var o := |s.data| - (s.bottom - sp);
      Stack(true, sp, s.bottom, s.data[..o] + w + s.data[o + |w|..])
  }

  // t is s with more pushed on top: nothing that s held has been overwritten.
  predicate Extends(s: Stack, t: Stack) {
    && StackOk(s) && StackOk(t) && t.bottom == s.bottom && |t.data| == |s.data| && t.sp <= s.sp
    && t.data[Offset(s, s.sp)..] == s.data[Offset(s, s.sp)..]
  }

  lemma PushExtends(s: Stack, w: seq<Byte>, align: nat)
    requires StackOk(s) && Align(align) && Push(s, w, align).ok
    ensures var t := Push(s, w, align);
            s.ok && Extends(s, t) && t.sp + |w| <= s.sp && Slice(t, t.sp, |w|) == w && Excess(t.sp, align) == 0
            && (align == 1 || s.sp % 8 == |w| % 8 == 0 ==> t.sp + |w| == s.sp)
  {
  }

  lemma ExtendsTransitive(s: Stack, t: Stack, u: Stack)
    requires Extends(s, t) && Extends(t, u)
    ensures Extends(s, u)
  {
    var o := Offset(s, s.sp);
    assert u.data[o..] == u.data[Offset(t, t.sp)..][o - Offset(t, t.sp)..];
    assert t.data[o..] == t.data[Offset(t, t.sp)..][o - Offset(t, t.sp)..];
  }

  lemma ExtendsKeeps(s: Stack, t: Stack, a: nat, n: nat)
    requires Extends(s, t) && s.sp <= a && a + n <= s.bottom
    ensures Slice(t, a, n) == Slice(s, a, n)
  {
    var o := Offset(s, s.sp);
    assert Slice(t, a, n) == t.data[o..][a - s.sp..a - s.sp + n];
    assert Slice(s, a, n) == s.data[o..][a - s.sp..a - s.sp + n];
  }

  // --- Strings and words on the stack ---

  ghost predicate HasStr(s: Stack, p: nat, str: seq<Byte>) {
    StackOk(s) && s.sp <= p && p + |str| + 1 <= s.bottom && Slice(s, p, |str| + 1) == str + [0]
  }

  ghost predicate HasWords(s: Stack, a: nat, ws: seq<U64>) {
    StackOk(s) && s.sp <= a && a + 8 * |ws| <= s.bottom && Slice(s, a, 8 * |ws|) == WordBytes(ws)
  }

  lemma StrStays(s: Stack, t: Stack, p: nat, str: seq<Byte>)
    requires Extends(s, t) && HasStr(s, p, str)
    ensures HasStr(t, p, str)
  {
    ExtendsKeeps(s, t, p, |str| + 1);
  }

  lemma WordsStay(s: Stack, t: Stack, a: nat, ws: seq<U64>)
    requires Extends(s, t) && HasWords(s, a, ws)
    ensures HasWords(t, a, ws)
  {
    ExtendsKeeps(s, t, a, 8 * |ws|);
  }

  function PushStr(s: Stack, str: seq<Byte>): (t: Stack)
    requires StackOk(s)
    ensures StackOk(t)
  {
    Push(Push(s, [0], 1), str, 1)
  }

  lemma PushStrHolds(s: Stack, str: seq<Byte>)
    requires StackOk(s) && PushStr(s, str).ok
    ensures var t := PushStr(s, str); s.ok && Extends(s, t) && t.sp < s.sp && HasStr(t, t.sp, str)
  {
    var m, t := Push(s, [0], 1), PushStr(s, str);
    PushExtends(m, str, 1);
    PushExtends(s, [0], 1);
    ExtendsTransitive(s, m, t);
    ExtendsKeeps(m, t, m.sp, 1);
    assert Slice(t, t.sp, |str| + 1) == Slice(t, t.sp, |str|) + Slice(t, m.sp, 1);
  }

  // The strings in order, and where each of them begins.
  function PushStrs(s: Stack, strs: seq<seq<Byte>>): (r: (Stack, seq<U64>))
    requires StackOk(s)
    ensures StackOk(r.0) && |r.1| == |strs|
  {
    if strs == [] then (s, [])
    else
      var (m, ps) := PushStrs(s, strs[..|strs| - 1]);
      var t := PushStr(m, strs[|strs| - 1]);
      (t, ps + [t.sp])
  }

  ghost predicate HasStrs(s: Stack, ps: seq<U64>, strs: seq<seq<Byte>>) {
    |ps| == |strs| && forall i :: 0 <= i < |ps| ==> HasStr(s, ps[i], strs[i])
  }

  lemma StrsStay(s: Stack, t: Stack, ps: seq<U64>, strs: seq<seq<Byte>>)
    requires Extends(s, t) && HasStrs(s, ps, strs)
    ensures HasStrs(t, ps, strs)
  {
    forall i | 0 <= i < |ps|
      ensures HasStr(t, ps[i], strs[i])
    {
      StrStays(s, t, ps[i], strs[i]);
    }
  }

  lemma {:induction false} PushStrsHold(s: Stack, strs: seq<seq<Byte>>)
    requires StackOk(s) && PushStrs(s, strs).0.ok
    ensures var (t, ps) := PushStrs(s, strs); s.ok && Extends(s, t) && HasStrs(t, ps, strs)
  {
    if strs != [] {
      var init, last := strs[..|strs| - 1], strs[|strs| - 1];
      var (m, ps) := PushStrs(s, init);
      var t := PushStr(m, last);
      PushStrHolds(m, last);
      PushStrsHold(s, init);
      ExtendsTransitive(s, m, t);
      StrsStay(m, t, ps, init);
    }
  }

  function PushWords(s: Stack, ws: seq<U64>): (t: Stack)
    requires StackOk(s)
    ensures StackOk(t)
  {
    Push(s, WordBytes(ws), 8)
  }

  lemma PushWordsHolds(s: Stack, ws: seq<U64>)
    requires StackOk(s) && PushWords(s, ws).ok
    ensures var t := PushWords(s, ws);
            s.ok && Extends(s, t) && HasWords(t, t.sp, ws) && t.sp % 8 == 0
            && (s.sp % 8 == 0 ==> t.sp + 8 * |ws| == s.sp)
  {
    PushExtends(s, WordBytes(ws), 8);
  }

  // On an aligned stack words join up with the words above them.
  lemma PushWordsJoins(s: Stack, ws: seq<U64>, above: seq<U64>)
    requires StackOk(s) && PushWords(s, ws).ok && s.sp % 8 == 0 && HasWords(s, s.sp, above)
    ensures var t := PushWords(s, ws);
            s.ok && Extends(s, t) && t.sp % 8 == 0 && HasWords(t, t.sp, ws + above)
  {
    var t := PushWords(s, ws);
    PushWordsHolds(s, ws);
    WordsStay(s, t, s.sp, above);
    WordBytesAppend(ws, above);
    assert Slice(t, t.sp, 8 * |ws + above|) == Slice(t, t.sp, 8 * |ws|) + Slice(t, s.sp, 8 * |above|);
  }

  // --- InitInfo::serialize ---

  datatype Aux = Aux(key: Byte, value: U64)

  // auxv in the ascending key order in which a BTreeMap iterates.
  datatype InitInfo = InitInfo(args: seq<seq<Byte>>, envs: seq<seq<Byte>>, auxv: seq<Aux>)

  function AuxValue(a: Aux, randomPos: U64): U64 { if a.key == AT_RANDOM then randomPos else a.value }

  function PushAux(s: Stack, auxv: seq<Aux>, randomPos: U64): (t: Stack)
    requires StackOk(s)
    ensures StackOk(t)
  {
    if auxv == [] then s
    else
      var last := auxv[|auxv| - 1];
      PushWords(PushAux(s, auxv[..|auxv| - 1], randomPos), [last.key, AuxValue(last, randomPos)])
  }

  // The same words as they are read, from the last pushed.
  function AuxWords(auxv: seq<Aux>, randomPos: U64): seq<U64> {
    if auxv == [] then []
    else
      var last := auxv[|auxv| - 1];
      [last.key, AuxValue(last, randomPos)] + AuxWords(auxv[..|auxv| - 1], randomPos)
  }

  lemma {:induction false} PushAuxJoins(s: Stack, auxv: seq<Aux>, randomPos: U64, above: seq<U64>)
    requires StackOk(s) && PushAux(s, auxv, randomPos).ok && s.sp % 8 == 0 && HasWords(s, s.sp, above)
    ensures var t := PushAux(s, auxv, randomPos);
            s.ok && Extends(s, t) && t.sp % 8 == 0 && HasWords(t, t.sp, AuxWords(auxv, randomPos) + above)
  {
    if auxv == [] {
      assert AuxWords(auxv, randomPos) + above == above;
    } else {
      var init, last := auxv[..|auxv| - 1], auxv[|auxv| - 1];
      var m, ws := PushAux(s, init, randomPos), [last.key, AuxValue(last, randomPos)];
      PushedWasOk(m, ws);
      PushAuxJoins(s, init, randomPos, above);
      PushWordsJoins(m, ws, AuxWords(init, randomPos) + above);
      ExtendsTransitive(s, m, PushWords(m, ws));
      assert ws + (AuxWords(init, randomPos) + above) == AuxWords(auxv, randomPos) + above;
    }
  }

  lemma PushedWasOk(s: Stack, ws: seq<U64>)
    requires StackOk(s) && PushWords(s, ws).ok
    ensures s.ok
  {
  }

  datatype Written = Written(stack: Stack, argv: seq<U64>, envp: seq<U64>, randomPos: U64)

  // The strings and the random bytes, then everything that a program finds from sp on.
  function SerializeStrings(info: InitInfo, s0: Stack): (w: Written)
    requires |info.args| > 0 && StackOk(s0)
    ensures StackOk(w.stack)
  {
    var s2 := PushWords(PushStr(s0, info.args[0]), RANDOM);
    var (s3, envp) := PushStrs(s2, info.envs);
    var (s4, argv) := PushStrs(s3, info.args);
    Written(s4, argv, envp, s2.sp)
  }

  function SerializeWords(info: InitInfo, w: Written): (t: Stack)
    requires StackOk(w.stack) && |w.argv| < 0x1_0000_0000_0000_0000
    ensures StackOk(t)
  {
    var s6 := PushAux(PushWords(w.stack, [0, 0]), info.auxv, w.randomPos);
    PushWords(PushWords(PushWords(PushWords(PushWords(s6, [0]), w.envp), [0]), w.argv), [|w.argv|])
  }

  function InitialStack(top: U64, data: seq<Byte>): (s: Stack)
    ensures StackOk(s)
  {
    Stack(true, top, top, data)
  }

  function Serialize(info: InitInfo, top: U64, data: seq<Byte>): (w: Written)
    requires 0 < |info.args| < 0x1_0000_0000_0000_0000
    ensures StackOk(w.stack)
  {
    var w := SerializeStrings(info, InitialStack(top, data));
    assert |w.argv| == |info.args|;
    w.(stack := SerializeWords(info, w))
  }

  // What lies above sp, in reading order.
  function Layout(info: InitInfo, w: Written): seq<U64>
    requires |w.argv| < 0x1_0000_0000_0000_0000
  {
    [|w.argv|] + (w.argv + ([0] + (w.envp + ([0] + (AuxWords(info.auxv, w.randomPos) + [0, 0])))))
  }

  lemma WordsAreLaidOut(info: InitInfo, w: Written)
    requires StackOk(w.stack) && |w.argv| < 0x1_0000_0000_0000_0000 && SerializeWords(info, w).ok
    ensures var t := SerializeWords(info, w);
            w.stack.ok && Extends(w.stack, t) && t.sp < w.stack.sp && t.sp % 8 == 0 && HasWords(t, t.sp, Layout(info, w))
  {
    var s5 := PushWords(w.stack, [0, 0]);
    var s6 := PushAux(s5, info.auxv, w.randomPos);
    var s7 := PushWords(s6, [0]);
    var s8 := PushWords(s7, w.envp);
    var s9 := PushWords(s8, [0]);
    var s10 := PushWords(s9, w.argv);
    var s11 := PushWords(s10, [|w.argv|]);
    PushedWasOk(s10, [|w.argv|]);
    PushedWasOk(s9, w.argv);
    PushedWasOk(s8, [0]);
    PushedWasOk(s7, w.envp);
    PushedWasOk(s6, [0]);
    AuxWasOk(s5, info.auxv, w.randomPos);
    PushWordsHolds(w.stack, [0, 0]);
    PushAuxJoins(s5, info.auxv, w.randomPos, [0, 0]);
    var aux := AuxWords(info.auxv, w.randomPos) + [0, 0];
    PushWordsJoins(s6, [0], aux);
    PushWordsJoins(s7, w.envp, [0] + aux);
    PushWordsJoins(s8, [0], w.envp + ([0] + aux));
    PushWordsJoins(s9, w.argv, [0] + (w.envp + ([0] + aux)));
    PushWordsJoins(s10, [|w.argv|], w.argv + ([0] + (w.envp + ([0] + aux))));
    ExtendsTransitive(w.stack, s5, s6);
    ExtendsTransitive(w.stack, s6, s7);
    ExtendsTransitive(w.stack, s7, s8);
    ExtendsTransitive(w.stack, s8, s9);
    ExtendsTransitive(w.stack, s9, s10);
    ExtendsTransitive(w.stack, s10, s11);
  }

  lemma {:induction false} AuxWasOk(s: Stack, auxv: seq<Aux>, randomPos: U64)
    requires StackOk(s) && PushAux(s, auxv, randomPos).ok
    ensures s.ok
  {
    if auxv != [] { AuxWasOk(s, auxv[..|auxv| - 1], randomPos); }
  }

  lemma StringsAreLaidOut(info: InitInfo, s0: Stack)
    requires |info.args| > 0 && StackOk(s0) && SerializeStrings(info, s0).stack.ok
    ensures var w := SerializeStrings(info, s0);
            && s0.ok && Extends(s0, w.stack)
            && HasStrs(w.stack, w.argv, info.args) && HasStrs(w.stack, w.envp, info.envs)
            && HasWords(w.stack, w.randomPos, RANDOM)
  {
    var s1 := PushStr(s0, info.args[0]);
    var s2 := PushWords(s1, RANDOM);
    var (s3, envp) := PushStrs(s2, info.envs);
    var (s4, argv) := PushStrs(s3, info.args);
    PushStrsHold(s3, info.args);
    PushStrsHold(s2, info.envs);
    PushWordsHolds(s1, RANDOM);
    PushStrHolds(s0, info.args[0]);
    ExtendsTransitive(s0, s1, s2);
    ExtendsTransitive(s0, s2, s3);
    ExtendsTransitive(s0, s3, s4);
    StrsStay(s3, s4, envp, info.envs);
    WordsStay(s2, s3, s2.sp, RANDOM);
    WordsStay(s3, s4, s2.sp, RANDOM);
  }

  // --- Reading it back ---

  function ReadWord(s: Stack, a: nat): nat
    requires StackOk(s)
  {
    if s.sp <= a && a + 8 <= s.bottom then FromLe(Slice(s, a, 8)) else 0
  }

  // n words
  function ReadWords(s: Stack, a: nat, n: nat): (ws: seq<nat>)
    requires StackOk(s)
    ensures |ws| == n
    decreases n
  {
    if n == 0 then [] else [ReadWord(s, a)] + ReadWords(s, a + 8, n - 1)
  }

  // words up to a null
  function ReadList(s: Stack, a: nat): seq<nat>
    requires StackOk(s)
    decreases s.bottom - a
  {
    if a >= s.bottom || ReadWord(s, a) == 0 then [] else [ReadWord(s, a)] + ReadList(s, a + 8)
  }

  // pairs up to a null key
  function ReadPairs(s: Stack, a: nat): seq<(nat, nat)>
    requires StackOk(s)
    decreases s.bottom - a
  {
    if a >= s.bottom || ReadWord(s, a) == 0 then [] else [(ReadWord(s, a), ReadWord(s, a + 8))] + ReadPairs(s, a + 16)
  }

  // bytes up to a NUL
  function ReadStr(s: Stack, p: nat): seq<Byte>
    requires StackOk(s)
    decreases s.bottom - p
  {
    if p < s.sp || p >= s.bottom || Slice(s, p, 1)[0] == 0 then [] else [Slice(s, p, 1)[0]] + ReadStr(s, p + 1)
  }

  function UpToNul(str: seq<Byte>): seq<Byte> {
    if str == [] || str[0] == 0 then [] else [str[0]] + UpToNul(str[1..])
  }

  lemma {:induction false} UpToNulIdentityIff(str: seq<Byte>)
    ensures UpToNul(str) == str <==> 0 !in str
  {
    if str != [] { UpToNulIdentityIff(str[1..]); }
  }

  lemma {:induction false} StrReadsBack(s: Stack, p: nat, str: seq<Byte>)
    requires HasStr(s, p, str)
    ensures ReadStr(s, p) == UpToNul(str)
    decreases |str|
  {
    var all := Slice(s, p, |str| + 1);
    assert Slice(s, p, 1)[0] == all[0];
    if str != [] && str[0] != 0 {
      assert Slice(s, p + 1, |str[1..]| + 1) == all[1..] == str[1..] + [0];
      StrReadsBack(s, p + 1, str[1..]);
    }
  }

  lemma SliceSplits(s: Stack, a: nat, n: nat, b: nat, m: nat)
    requires StackOk(s) && s.sp <= a && b == a + n && b + m <= s.bottom
    ensures Slice(s, a, n + m) == Slice(s, a, n) + Slice(s, b, m)
  {
  }

  lemma SameSplit(p: seq<Byte>, q: seq<Byte>, u: seq<Byte>, v: seq<Byte>)
    requires p + q == u + v && |p| == |u|
    ensures p == u && q == v
  {
    assert p == (p + q)[..|p|] && q == (p + q)[|p|..];
    assert u == (u + v)[..|p|] && v == (u + v)[|p|..];
  }

  lemma SplitWords(s: Stack, a: nat, x: seq<U64>, y: seq<U64>, b: nat)
    requires HasWords(s, a, x + y) && b == a + 8 * |x|
    ensures HasWords(s, a, x) && HasWords(s, b, y)
  {
    WordBytesAppend(x, y);
    SliceSplits(s, a, 8 * |x|, b, 8 * |y|);
    SameSplit(Slice(s, a, 8 * |x|), Slice(s, b, 8 * |y|), WordBytes(x), WordBytes(y));
  }

  lemma WordReadsBack(s: Stack, a: nat, w: U64, rest: seq<U64>, b: nat)
    requires HasWords(s, a, [w] + rest) && b == a + 8
    ensures ReadWord(s, a) == w && HasWords(s, b, rest)
  {
    SplitWords(s, a, [w], rest, b);
    assert WordBytes([w]) == LeBytes(w, 8);
    assert Pow256(8) == 0x1_0000_0000_0000_0000;
    LeRoundTrip(w, 8);
  }

  lemma {:induction false} WordsReadBack(s: Stack, a: nat, ws: seq<U64>)
    requires HasWords(s, a, ws)
    ensures ReadWords(s, a, |ws|) == ws
    decreases |ws|
  {
    if ws != [] {
      assert ws == [ws[0]] + ws[1..];
      WordReadsBack(s, a, ws[0], ws[1..], a + 8);
      WordsReadBack(s, a + 8, ws[1..]);
    }
  }

  lemma {:induction false} ListReadsBack(s: Stack, a: nat, ws: seq<U64>, rest: seq<U64>)
    requires HasWords(s, a, ws + ([0] + rest)) && 0 !in ws
    ensures ReadList(s, a) == ws
    decreases |ws|
  {
    if ws == [] {
      assert ws + ([0] + rest) == [0] + rest;
      WordReadsBack(s, a, 0, rest, a + 8);
    } else {
      assert ws + ([0] + rest) == [ws[0]] + (ws[1..] + ([0] + rest));
      WordReadsBack(s, a, ws[0], ws[1..] + ([0] + rest), a + 8);
      ListReadsBack(s, a + 8, ws[1..], rest);
    }
  }

  // The entries that a reader finds: from the last, up to a null key.
  function AuxPairs(auxv: seq<Aux>, randomPos: U64): seq<(nat, nat)> {
    if auxv == [] || auxv[|auxv| - 1].key == 0 then []
    else
      var last := auxv[|auxv| - 1];
      [(last.key as nat, AuxValue(last, randomPos) as nat)] + AuxPairs(auxv[..|auxv| - 1], randomPos)
  }

  lemma {:induction false} AuxReadsBack(s: Stack, a: nat, auxv: seq<Aux>, randomPos: U64)
    requires HasWords(s, a, AuxWords(auxv, randomPos) + [0, 0])
    ensures ReadPairs(s, a) == AuxPairs(auxv, randomPos)
    decreases |auxv|
  {
    if auxv == [] {
      assert AuxWords(auxv, randomPos) + [0, 0] == [0] + [0];
      WordReadsBack(s, a, 0, [0], a + 8);
    } else {
      var init, last := auxv[..|auxv| - 1], auxv[|auxv| - 1];
      var rest := AuxWords(init, randomPos) + [0, 0];
      var value := AuxValue(last, randomPos);
      assert AuxWords(auxv, randomPos) + [0, 0] == [last.key] + ([value] + rest);
      WordReadsBack(s, a, last.key, [value] + rest, a + 8);
      WordReadsBack(s, a + 8, value, rest, a + 16);
      AuxReadsBack(s, a + 16, init, randomPos);
    }
  }

  // In ascending order only the first key can be null, so every other entry is found, exactly once.
  predicate Ascending(auxv: seq<Aux>) { forall i, j :: 0 <= i < j < |auxv| ==> auxv[i].key < auxv[j].key }

  lemma {:induction false} AuxPairsAreAll(auxv: seq<Aux>, randomPos: U64)
    requires Ascending(auxv)
    ensures var ps := AuxPairs(auxv, randomPos);
            var n := |auxv| - (if auxv != [] && auxv[0].key == 0 then 1 else 0);
            |ps| == n && forall i :: 0 <= i < n ==> ps[i] == (auxv[|auxv| - 1 - i].key as nat, AuxValue(auxv[|auxv| - 1 - i], randomPos) as nat)
  {
    if auxv != [] && auxv[|auxv| - 1].key != 0 { AuxPairsAreAll(auxv[..|auxv| - 1], randomPos); }
  }

  lemma PointersAreNotNull(s: Stack, t: Stack, ps: seq<U64>, strs: seq<seq<Byte>>)
    requires Extends(s, t) && t.sp < s.sp && HasStrs(s, ps, strs)
    ensures 0 !in ps
  {
    forall i | 0 <= i < |ps|
      ensures ps[i] != 0
    {
      assert HasStr(s, ps[i], strs[i]);
    }
  }

  // Every pointer leads to its string.
  predicate StrsRead(t: Stack, ps: seq<U64>, strs: seq<seq<Byte>>)
    requires StackOk(t)
  {
    |ps| == |strs| && forall i :: 0 <= i < |ps| ==> ReadStr(t, ps[i]) == UpToNul(strs[i])
  }

  lemma StrsReadBack(t: Stack, ps: seq<U64>, strs: seq<seq<Byte>>)
    requires StackOk(t) && HasStrs(t, ps, strs)
    ensures StrsRead(t, ps, strs)
  {
    forall i | 0 <= i < |ps|
      ensures ReadStr(t, ps[i]) == UpToNul(strs[i])
    {
      StrReadsBack(t, ps[i], strs[i]);
    }
  }

  // What a new program reads upwards: argc at a, argv and a null; from b on the environment pointers and a
  // null; from c on the auxiliary pairs.
  ghost predicate ArgsRead(t: Stack, a: nat, argv: seq<U64>, b: nat)
    requires StackOk(t)
  {
    && ReadWord(t, a) == |argv| && ReadWords(t, a + 8, |argv|) == argv
    && b == a + 8 * |argv| + 16 && ReadWord(t, b - 8) == 0
  }

  ghost predicate EnvsRead(t: Stack, b: nat, envp: seq<U64>, c: nat)
    requires StackOk(t)
  {
    ReadList(t, b) == envp && c == b + 8 * |envp| + 8
  }

  function EnvAddr(t: Stack, argv: seq<U64>): nat { t.sp + 8 * |argv| + 16 }
  function AuxAddr(t: Stack, argv: seq<U64>, envp: seq<U64>): nat { EnvAddr(t, argv) + 8 * |envp| + 8 }

  ghost predicate ReadsBack(t: Stack, info: InitInfo, argv: seq<U64>, envp: seq<U64>, randomPos: U64) {
    && StackOk(t) && t.sp % 8 == 0
    && ArgsRead(t, t.sp, argv, EnvAddr(t, argv)) && EnvsRead(t, EnvAddr(t, argv), envp, AuxAddr(t, argv, envp))
    && ReadPairs(t, AuxAddr(t, argv, envp)) == AuxPairs(info.auxv, randomPos)
    && StrsRead(t, argv, info.args) && StrsRead(t, envp, info.envs)
    && HasWords(t, randomPos, RANDOM)
  }

  lemma ArgsReadBack(t: Stack, a: nat, argv: seq<U64>, rest: seq<U64>, b: nat)
    requires |argv| < 0x1_0000_0000_0000_0000 && HasWords(t, a, [|argv|] + (argv + ([0] + rest)))
    requires b == a + 8 * |argv| + 16
    ensures ArgsRead(t, a, argv, b) && HasWords(t, b, rest)
  {
    WordReadsBack(t, a, |argv|, argv + ([0] + rest), a + 8);
    ArgvReadsBack(t, a + 8, argv, rest, b);
  }

  lemma ArgvReadsBack(t: Stack, a: nat, argv: seq<U64>, rest: seq<U64>, b: nat)
    requires HasWords(t, a, argv + ([0] + rest)) && b == a + 8 * |argv| + 8
    ensures ReadWords(t, a, |argv|) == argv && ReadWord(t, b - 8) == 0 && HasWords(t, b, rest)
  {
    SplitWords(t, a, argv, [0] + rest, b - 8);
    WordsReadBack(t, a, argv);
    WordReadsBack(t, b - 8, 0, rest, b);
  }

  lemma EnvsReadBack(t: Stack, b: nat, envp: seq<U64>, rest: seq<U64>, c: nat)
    requires 0 !in envp && HasWords(t, b, envp + ([0] + rest)) && c == b + 8 * |envp| + 8
    ensures EnvsRead(t, b, envp, c) && HasWords(t, c, rest)
  {
    ListReadsBack(t, b, envp, rest);
    SplitWords(t, b, envp, [0] + rest, c - 8);
    WordReadsBack(t, c - 8, 0, rest, c);
  }

  lemma LayoutReadsBack(t: Stack, info: InitInfo, w: Written, b: nat, c: nat)
    requires |w.argv| < 0x1_0000_0000_0000_0000 && 0 !in w.envp && HasWords(t, t.sp, Layout(info, w))
    requires b == t.sp + 8 * |w.argv| + 16 && c == b + 8 * |w.envp| + 8
    ensures ArgsRead(t, t.sp, w.argv, b) && EnvsRead(t, b, w.envp, c)
    ensures ReadPairs(t, c) == AuxPairs(info.auxv, w.randomPos)
  {
    var aux := AuxWords(info.auxv, w.randomPos) + [0, 0];
    ArgsReadBack(t, t.sp, w.argv, w.envp + ([0] + aux), b);
    EnvsReadBack(t, b, w.envp, aux, c);
    AuxReadsBack(t, c, info.auxv, w.randomPos);
  }

  lemma StringsReadBack(s: Stack, t: Stack, info: InitInfo, w: Written)
    requires Extends(s, t) && t.sp < s.sp && HasStrs(s, w.argv, info.args) && HasStrs(s, w.envp, info.envs)
    requires HasWords(s, w.randomPos, RANDOM)
    ensures StrsRead(t, w.argv, info.args) && StrsRead(t, w.envp, info.envs) && HasWords(t, w.randomPos, RANDOM)
    ensures 0 !in w.envp
  {
    PointersAreNotNull(s, t, w.envp, info.envs);
    StrsStay(s, t, w.argv, info.args);
    StrsStay(s, t, w.envp, info.envs);
    WordsStay(s, t, w.randomPos, RANDOM);
    StrsReadBack(t, w.argv, info.args);
    StrsReadBack(t, w.envp, info.envs);
  }

  lemma WrittenReadsBack(s: Stack, t: Stack, info: InitInfo, w: Written)
    requires Extends(s, t) && t.sp < s.sp && HasStrs(s, w.argv, info.args) && HasStrs(s, w.envp, info.envs)
    requires HasWords(s, w.randomPos, RANDOM) && t.sp % 8 == 0
    requires |w.argv| < 0x1_0000_0000_0000_0000 && HasWords(t, t.sp, Layout(info, w))
    ensures ReadsBack(t, info, w.argv, w.envp, w.randomPos)
  {
    StringsReadBack(s, t, info, w);
    LayoutReadsBack(t, info, w, EnvAddr(t, w.argv), AuxAddr(t, w.argv, w.envp));
  }

  // Whenever everything fits, the stack reads back: no gaps, and every pointer leads to its own string.
  lemma SerializeReadsBack(info: InitInfo, top: U64, data: seq<Byte>)
    requires 0 < |info.args| < 0x1_0000_0000_0000_0000 && Serialize(info, top, data).stack.ok
    ensures var w := Serialize(info, top, data); ReadsBack(w.stack, info, w.argv, w.envp, w.randomPos) && w.stack.sp < top
  {
    var s0 := InitialStack(top, data);
    var w := SerializeStrings(info, s0);
    var t := SerializeWords(info, w);
    assert |w.argv| == |info.args|;
    WordsAreLaidOut(info, w);
    StringsAreLaidOut(info, s0);
    WrittenReadsBack(w.stack, t, info, w);
  }

  // --- The object ---

  class InitStack {
    var ok: bool  // cleared where the source panics; nothing happens after that
    var sp: U64
    const bottom: U64
    const data: array<Byte>

    predicate Valid() reads this { sp <= bottom && bottom - sp <= data.Length }

    function State(): Stack reads this, data { Stack(ok, sp, bottom, data[..]) }

    // The buffer is not initialized.
    constructor (sp: U64)
      ensures Valid() && fresh(data) && data.Length == INIT_STACK_SIZE && State() == InitialStack(sp, data[..])
    {
      ok, this.sp, bottom := true, sp, sp;
      data := new Byte[INIT_STACK_SIZE];
    }

    method PushSlice(vs: seq<Byte>, align: nat)
      requires Valid() && Align(align)
      modifies this, data
      ensures Valid() && State() == Push(old(State()), vs, align)
    {
      if !ok || sp < |vs| {
        ok := false;
        return;
      }
      var newSp := sp - |vs|;
      newSp := newSp - Excess(newSp, align);
      if bottom - newSp > data.Length {
        ok := false;
        return;
      }
      sp := newSp;
      var offset := data.Length - (bottom - sp);
      CopyIn(vs, offset);
    }

    // copy_nonoverlapping
    method CopyIn(vs: seq<Byte>, offset: nat)
      requires offset + |vs| <= data.Length
      modifies data
      ensures data[..] == old(data[..])[..offset] + vs + old(data[..])[offset + |vs|..]
    {
      forall i | 0 <= i < |vs| {
        data[offset + i] := vs[i];
      }
      assert data[..offset] == old(data[..])[..offset] && data[offset + |vs|..] == old(data[..])[offset + |vs|..];
      assert data[offset..offset + |vs|] == vs;
    }

    method PushString(str: seq<Byte>) returns (at: U64)
      requires Valid()
      modifies this, data
      ensures Valid() && State() == PushStr(old(State()), str) && at == sp
    {
      PushSlice([0], 1);
      PushSlice(str, 1);
      at := sp;
    }

    method PushWordSlice(ws: seq<U64>)
      requires Valid()
      modifies this, data
      ensures Valid() && State() == PushWords(old(State()), ws)
    {
      PushSlice(WordBytes(ws), 8);
    }

    // iter().map(|item| writer.push_str(item)).collect()
    method PushStrings(strs: seq<seq<Byte>>) returns (ps: seq<U64>)
      requires Valid()
      modifies this, data
      ensures Valid() && (State(), ps) == PushStrs(old(State()), strs)
    {
      ps := [];
      for i := 0 to |strs|
        invariant Valid() && (State(), ps) == PushStrs(old(State()), strs[..i])
      {
        assert strs[..i + 1][..i] == strs[..i];
        var at := PushString(strs[i]);
        ps := ps + [at];
      }
      assert strs[..|strs|] == strs;
    }

    method PushAuxv(auxv: seq<Aux>, randomPos: U64)
      requires Valid()
      modifies this, data
      ensures Valid() && State() == PushAux(old(State()), auxv, randomPos)
    {
      for i := 0 to |auxv|
        invariant Valid() && State() == PushAux(old(State()), auxv[..i], randomPos)
      {
        assert auxv[..i + 1][..i] == auxv[..i];
        if auxv[i].key == AT_RANDOM {
          PushWordSlice([auxv[i].key, randomPos]);
        } else {
          PushWordSlice([auxv[i].key, auxv[i].value]);
        }
      }
      assert auxv[..|auxv|] == auxv;
    }
  }

  // The serialized stack reads back, whatever the uninitialized buffer held.
  method SerializeInfo(info: InitInfo, top: U64) returns (writer: InitStack, ghost w: Written, ghost noise: seq<Byte>)
    requires 0 < |info.args| < 0x1_0000_0000_0000_0000
    ensures fresh(writer) && writer.Valid() && |noise| == INIT_STACK_SIZE
    ensures w == Serialize(info, top, noise) && writer.State() == w.stack
    ensures writer.ok ==> ReadsBack(writer.State(), info, w.argv, w.envp, w.randomPos)
  {
    writer := new InitStack(top);
    noise := writer.data[..];
    w := Serialize(info, top, noise);
    var name := writer.PushString(info.args[0]);
    writer.PushWordSlice(RANDOM);
    var randomPos := writer.sp;
    var envs := writer.PushStrings(info.envs);
    var argv := writer.PushStrings(info.args);
    assert SerializeStrings(info, InitialStack(top, noise)) == Written(writer.State(), argv, envs, randomPos);
    writer.PushWordSlice([0, 0]);
    writer.PushAuxv(info.auxv, randomPos);
    writer.PushWordSlice([0]);
    writer.PushWordSlice(envs);
    writer.PushWordSlice([0]);
    writer.PushWordSlice(argv);
    writer.PushWordSlice([|argv|]);
    assert writer.State() == w.stack;
    if writer.ok { SerializeReadsBack(info, top, noise); }
  }
}
