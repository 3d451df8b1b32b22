// Byte streams of modified_dependencies/fscommon: a plain seekable stream, BufStream, which puts a 512-byte
// cache in front of one, and StreamSlice, which shows a window of one.
module Streams {
  import opened MachineInts

  // --- What a stream does ---

  // Contents and one position; the position may be past the end.
  datatype Stream = Stream(data: seq<Byte>, pos: nat)

  datatype From = Start(offset: nat) | Current(delta: int) | End(delta: int)

  datatype Op = Read(n: nat) | Write(bytes: seq<Byte>) | Seek(from: From) | Flush

  // A call that succeeds returns bytes, a count, or a position.
  datatype Out = Bytes(bytes: seq<Byte>) | Count(n: nat) | Position(pos: nat) | Done

  function Zeros(n: nat): (z: seq<Byte>)
    ensures |z| == n
  {
    seq(n, _ => 0)
  }

  // d with w written at p; a gap between the end of d and p is filled with zeros.
  function Overwrite(d: seq<Byte>, p: nat, w: seq<Byte>): (r: seq<Byte>)
  {
    if w == [] then d
    else
      var base := if p <= |d| then d[..p] else d + Zeros(p - |d|);
      base + w + (if p + |w| <= |d| then d[p + |w|..] else [])
  }

  // A stream with bytes that are still to be written at its position, or have just been.
  function Buffered(s: Stream, pending: seq<Byte>): Stream {
    Stream(Overwrite(s.data, s.pos, pending), s.pos + |pending|)
  }

  function Target(s: Stream, from: From): int {
    match from
    case Start(x) => x
    case Current(x) => s.pos + x
    case End(x) => |s.data| + x
  }

  // One successful call on a stream. Reads and writes may be short, but a read that could return something
  // does.
  ghost predicate StepOk(s: Stream, op: Op, out: Out, t: Stream) {
    match op
    case Read(n) =>
      && out.Bytes? && |out.bytes| <= n && t == s.(pos := s.pos + |out.bytes|)
      && (out.bytes != [] ==> t.pos <= |s.data| && out.bytes == s.data[s.pos..t.pos])
      && (n > 0 && s.pos < |s.data| ==> out.bytes != [])
    case Write(w) =>
      out.Count? && out.n <= |w| && t == Buffered(s, w[..out.n])
    case Seek(from) => Target(s, from) >= 0 && out == Position(Target(s, from)) && t == s.(pos := Target(s, from))
    case Flush => out == Done && t == s
  }

  // A call is determined by how many bytes it moves.
  function Moved(out: Out): nat {
    match out
    case Bytes(b) => |b|
    case Count(n) => n
    case _ => 0
  }

  lemma StepIsDetermined(s: Stream, op: Op, out: Out, t: Stream, out': Out, t': Stream)
    requires StepOk(s, op, out, t) && StepOk(s, op, out', t') && Moved(out) == Moved(out')
    ensures out == out' && t == t'
  {
  }

  // A run of successful calls.
  ghost predicate RunOk(states: seq<Stream>, ops: seq<Op>, outs: seq<Out>) {
    && |outs| <= |ops| && |states| == |outs| + 1
    && forall i :: 0 <= i < |outs| ==> StepOk(states[i], ops[i], outs[i], states[i + 1])
  }

  // Two streams that start alike and move as many bytes in each call agree all the way: same bytes read,
  // same positions, same contents.
  lemma {:induction false} RunsAgree(states: seq<Stream>, states': seq<Stream>, ops: seq<Op>, outs: seq<Out>, outs': seq<Out>, k: nat)
    requires RunOk(states, ops, outs) && RunOk(states', ops, outs') && states[0] == states'[0]
    requires |outs| == |outs'| && forall i :: 0 <= i < |outs| ==> Moved(outs[i]) == Moved(outs'[i])
    requires k <= |outs|
    ensures states[..k + 1] == states'[..k + 1] && outs[..k] == outs'[..k]
  {
    if k > 0 {
      RunsAgree(states, states', ops, outs, outs', k - 1);
      assert states[k - 1] == states[..k][k - 1] == states'[..k][k - 1] == states'[k - 1];
      StepIsDetermined(states[k - 1], ops[k - 1], outs[k - 1], states[k], outs'[k - 1], states'[k]);
      assert states[..k + 1] == states[..k] + [states[k]] && states'[..k + 1] == states'[..k] + [states'[k]];
      assert outs[..k] == outs[..k - 1] + [outs[k - 1]] && outs'[..k] == outs'[..k - 1] + [outs'[k - 1]];
    }
  }

  lemma RunGrows(states: seq<Stream>, ops: seq<Op>, outs: seq<Out>, out: Out, t: Stream)
    requires RunOk(states, ops, outs) && |outs| < |ops| && StepOk(states[|outs|], ops[|outs|], out, t)
    ensures RunOk(states + [t], ops, outs + [out])
  {
  }

  lemma OverwriteLength(d: seq<Byte>, p: nat, w: seq<Byte>)
    ensures |Overwrite(d, p, w)| == if w == [] || p + |w| <= |d| then |d| else p + |w|
  {
  }

  lemma OverwriteMore(d: seq<Byte>, p: nat, a: seq<Byte>, b: seq<Byte>)
    ensures Overwrite(Overwrite(d, p, a), p + |a|, b) == Overwrite(d, p, a + b)
  {
    if a == [] {
      assert a + b == b;
    } else if b == [] {
      assert a + b == a;
    } else {
      OverwriteLength(d, p, a);
      var e := Overwrite(d, p, a);
      var base := if p <= |d| then d[..p] else d + Zeros(p - |d|);
      assert e[..p + |a|] == base + a;
    }
  }

  lemma BufferedPrefix(s: Stream, w: seq<Byte>, done: nat, k: nat)
    requires done + k <= |w|
    ensures Buffered(Buffered(s, w[..done]), w[done..][..k]) == Buffered(s, w[..done + k])
  {
    OverwriteMore(s.data, s.pos, w[..done], w[done..][..k]);
    assert w[..done] + w[done..][..k] == w[..done + k];
  }

  lemma SlicePrefix(d: seq<Byte>, a: nat, b: nat, k: nat)
    requires a + k <= b <= |d|
    ensures d[a..b][..k] == d[a..a + k]
  {
  }

  // --- The plain stream ---

  function Room(pos: nat, limit: nat): nat { if pos < limit then limit - pos else 0 }

  // Writing stops at `limit`, the capacity of the storage.
  class RawStream {
    var data: seq<Byte>
    var pos: nat
    const limit: nat

    function State(): Stream reads this { Stream(data, pos) }

    constructor (data: seq<Byte>, limit: nat)
      ensures State() == Stream(data, 0) && this.limit == limit
    {
      this.data, pos, this.limit := data, 0, limit;
    }

    method Read(n: nat) returns (bytes: seq<Byte>)
      modifies this`pos
      ensures StepOk(old(State()), Op.Read(n), Bytes(bytes), State())
    {
      var avail := if pos < |data| then |data| - pos else 0;
      var most := if n < avail then n else avail;
      var k: nat :| k <= most && (most > 0 ==> k > 0);
      bytes := data[if k == 0 then 0 else pos..if k == 0 then 0 else pos + k];
      pos := pos + k;
    }

    // Zero bytes are written for a non-empty request exactly if the limit is reached.
    method Write(bytes: seq<Byte>) returns (k: nat)
      modifies this
      ensures StepOk(old(State()), Op.Write(bytes), Count(k), State())
      ensures k <= Room(old(pos), limit) && (k == 0 <==> bytes == [] || old(pos) >= limit)
    {
      var room := Room(pos, limit);
      var most := if |bytes| < room then |bytes| else room;
      k :| 0 <= k <= most && (most > 0 ==> k > 0);
      data := Overwrite(data, pos, bytes[..k]);
      pos := pos + k;
    }

    method WriteAll(bytes: seq<Byte>) returns (ok: bool)
      modifies this
      ensures ok <==> |bytes| <= Room(old(pos), limit)
      ensures State() == Written(old(State()), bytes, limit)
    {
      ghost var s := State();
      var done: nat := 0;
      assert bytes[..0] == [];
      while done < |bytes|
        invariant done <= |bytes| && done <= Room(s.pos, limit)
        invariant State() == Buffered(s, bytes[..done])
      {
        var k := WriteFrom(s, bytes, done);
        if k == 0 { return false; }
        done := done + k;
      }
      ok := true;
    }

    // The bytes before done have been written from the state s on.
    method WriteFrom(ghost s: Stream, bytes: seq<Byte>, done: nat) returns (k: nat)
      requires done < |bytes| && done <= Room(s.pos, limit) && State() == Buffered(s, bytes[..done])
      modifies this
      ensures done + k <= |bytes| && State() == Buffered(s, bytes[..done + k])
      ensures done + k <= Room(s.pos, limit) && (k == 0 <==> done == Room(s.pos, limit))
    {
      k := Write(bytes[done..]);
      BufferedPrefix(s, bytes, done, k);
    }

    method Seek(from: From) returns (ok: bool, at: nat)
      modifies this`pos
      ensures ok <==> Target(old(State()), from) >= 0
      ensures ok ==> StepOk(old(State()), Op.Seek(from), Position(at), State())
      ensures !ok ==> State() == old(State())
    {
      var target := Target(State(), from);
      if target < 0 { return false, 0; }
      pos, at, ok := target, target, true;
    }
  }

  // As many bytes written as there is room for.
  function Written(s: Stream, bytes: seq<Byte>, limit: nat): Stream {
    var n := if |bytes| <= Room(s.pos, limit) then |bytes| else Room(s.pos, limit);
    Buffered(s, bytes[..n])
  }

  // After a flush that fails the inner stream has moved past the bytes it took, and all are still to be written.
  function StuckOf(s: Stream, pending: seq<Byte>, limit: nat): Stream {
    Buffered(Written(s, pending, limit), pending)
  }

  // So a flush that fails leaves what the callers see as it was if and only if it could not write anything.
  lemma FailedFlushKeepsIff(s: Stream, pending: seq<Byte>, limit: nat)
    requires |pending| > Room(s.pos, limit)
    ensures StuckOf(s, pending, limit) == Buffered(s, pending) <==> s.pos >= limit
  {
    if s.pos >= limit { assert pending[..0] == []; }
  }

  // Two bytes where there is room for one: the first will be there twice.
  lemma FailedFlushRepeats()
    ensures Buffered(Stream([], 0), [7, 8]) == Stream([7, 8], 2)
    ensures StuckOf(Stream([], 0), [7, 8], 1) == Stream([7, 7, 8], 3)
  {
    assert Written(Stream([], 0), [7, 8], 1) == Stream([7], 1);
  }

  // --- BufStream ---

  const BUF_SIZE := 512

  class BufStream {
    const inner: RawStream
    const buf: array<Byte>
    var len: nat
    var pos: nat
    var write: bool

    // Reading, buf[pos..len] is what the inner stream holds just before its position; writing, buf[..pos]
    // is still to be written at the inner position.
    ghost predicate Valid()
      reads this, inner, buf
    {
      && buf.Length == BUF_SIZE
      && if write then len == 0 && pos <= BUF_SIZE
         else
           && pos <= len <= BUF_SIZE && len - pos <= inner.pos
           && (pos < len ==> inner.pos <= |inner.data| && buf[pos..len] == inner.data[inner.pos - (len - pos)..inner.pos])
    }

    // The stream that the callers see.
    ghost function State(): Stream
      requires Valid()
      reads this, inner, buf
    {
      if write then Buffered(inner.State(), buf[..pos])
      else Stream(inner.data, inner.pos - (len - pos))
    }

    // What is still to be written fits into the inner stream.
    ghost predicate Flushes()
      requires Valid()
      reads this, inner, buf
    {
      write ==> pos <= Room(inner.pos, inner.limit)
    }

    // What the callers see after a flush that fails.
    ghost function Stuck(): Stream
      requires Valid()
      reads this, inner, buf
    {
      StuckOf(inner.State(), buf[..pos], inner.limit)
    }

    constructor (inner: RawStream)
      ensures Valid() && this.inner == inner && State() == inner.State() && fresh(buf) && !write && pos == len
    {
      this.inner := inner;
      buf := new Byte[BUF_SIZE](_ => 0);
      len, pos, write := 0, 0, false;
    }

    method FlushBuf() returns (ok: bool)
      requires Valid()
      modifies this`pos, inner
      ensures Valid() && (ok <==> old(Flushes()))
      ensures ok ==> State() == old(State()) && (write ==> pos == 0) && (!write ==> pos == old(pos) && inner.State() == old(inner.State()))
      ensures ok && write ==> inner.State() == old(State())
      ensures !ok ==> State() == old(Stuck())
    {
      if write {
        assert buf[..pos][..pos] == buf[..pos];
        ok := inner.WriteAll(buf[..pos]);
        if !ok { return; }
        pos := 0;
        assert buf[..pos] == [];
      }
      ok := true;
    }

    method MakeReader() returns (ok: bool)
      requires Valid()
      modifies this, inner
      ensures Valid() && (ok <==> old(Flushes())) && (ok ==> State() == old(State()) && !write)
      ensures ok && !old(write) ==> pos == old(pos) && len == old(len)
      ensures !ok ==> State() == old(Stuck())
    {
      if write {
        ok := FlushBuf();
        if !ok { return; }
        write, len, pos := false, 0, 0;
      }
      ok := true;
    }

    method MakeWriter() returns (ok: bool)
      requires Valid()
      modifies this, inner
      ensures Valid() && ok && State() == old(State()) && write
      ensures if old(write) then pos == old(pos) && inner.State() == old(inner.State()) else pos == 0
    {
      if !write {
        var at;
        ok, at := inner.Seek(Current(-(len - pos)));
        write, len, pos := true, 0, 0;
        assert buf[..pos] == [];
      }
      ok := true;
    }

    // Fill the empty buffer.
    method FillBuf() returns (ok: bool)
      requires Valid()
      modifies this, inner, buf
      ensures Valid() && (ok <==> old(Flushes())) && (ok ==> State() == old(State()) && !write)
      ensures ok && State().pos < |State().data| ==> pos < len
      ensures !ok ==> State() == old(Stuck())
    {
      ok := MakeReader();
      if !ok { return; }
      if pos >= len {
        ghost var before := inner.State();
        var bytes := inner.Read(BUF_SIZE);
        forall i | 0 <= i < |bytes| {
          buf[i] := bytes[i];
        }
        len, pos := |bytes|, 0;
        assert buf[..len] == bytes;
      }
    }

    method ReadBytes(n: nat) returns (ok: bool, bytes: seq<Byte>)
      requires Valid()
      modifies this, inner, buf
      ensures Valid() && (ok <==> old(Flushes())) && (ok ==> StepOk(old(State()), Op.Read(n), Bytes(bytes), State()))
      ensures !ok ==> State() == old(Stuck())
    {
      bytes := [];
      ok := MakeReader();
      if !ok { return; }
      if pos == len && n >= BUF_SIZE {
        bytes := inner.Read(n);
        return true, bytes;
      }
      ok := FillBuf();
      if !ok { return; }
      bytes := TakeBuffered(n);
    }

    // rem.read(buf) and consume
    method TakeBuffered(n: nat) returns (bytes: seq<Byte>)
      requires Valid() && !write && (State().pos < |State().data| ==> pos < len)
      modifies this`pos
      ensures Valid() && StepOk(old(State()), Op.Read(n), Bytes(bytes), State())
    {
      var k := if n < len - pos then n else len - pos;
      var rem := buf[pos..len];
      bytes := rem[..k];
      if k > 0 { SlicePrefix(inner.data, inner.pos - (len - pos), inner.pos, k); }
      Consume(k);
    }

    method Consume(amount: nat)
      requires Valid() && !write && amount <= len - pos
      modifies this`pos
      ensures Valid() && State() == old(State()).(pos := old(State()).pos + amount)
      ensures pos == old(pos) + amount
    {
      pos := if pos + amount < len then pos + amount else len;
    }

    method WriteBytes(bytes: seq<Byte>) returns (ok: bool, k: nat)
      requires Valid()
      modifies this, inner, buf
      ensures Valid() && (ok ==> StepOk(old(State()), Op.Write(bytes), Count(k), State()))
      ensures ok && |bytes| < BUF_SIZE ==> k == |bytes|
      ensures ok <==> old(Flushes()) || old(pos) + |bytes| <= BUF_SIZE
      ensures !ok ==> State() == old(Stuck())
    {
      k := 0;
      ok := MakeWriter();
      if pos + |bytes| > BUF_SIZE {
        ok := FlushBuf();
        if !ok { return; }
        if |bytes| >= BUF_SIZE {
          k := WriteAround(bytes);
          return;
        }
      }
      k := |bytes|;
      assert bytes[..k] == bytes;
      Append(bytes);
    }

    // A large write bypasses the empty buffer.
    method WriteAround(bytes: seq<Byte>) returns (k: nat)
      requires Valid() && write && pos == 0
      modifies inner
      ensures Valid() && StepOk(old(State()), Op.Write(bytes), Count(k), State())
    {
      assert buf[..pos] == [];
      k := inner.Write(bytes);
    }

    method Append(bytes: seq<Byte>)
      requires Valid() && write && pos + |bytes| <= BUF_SIZE
      modifies this`pos, buf
      ensures Valid() && State() == Buffered(old(State()), bytes)
    {
      ghost var pending := buf[..pos];
      forall i | 0 <= i < |bytes| {
        buf[pos + i] := bytes[i];
      }
      pos := pos + |bytes|;
      assert buf[..pos] == pending + bytes;
      OverwriteMore(inner.data, inner.pos, pending, bytes);
    }

    // After a flush the inner stream holds what the callers see.
    method Flush() returns (ok: bool)
      requires Valid()
      modifies this, inner
      ensures Valid() && (ok <==> old(Flushes()))
      ensures ok ==> StepOk(old(State()), Op.Flush, Done, State()) && inner.data == State().data
      ensures !ok ==> State() == old(Stuck())
    {
      ok := FlushBuf();
    }

    // A seek that fails after its flush drops the bytes read ahead, and so moves the position past them.
    method SeekTo(from: From) returns (ok: bool, at: nat)
      requires Valid()
      modifies this, inner
      ensures Valid() && (ok ==> StepOk(old(State()), Op.Seek(from), Position(at), State()))
      ensures ok <==> old(Flushes()) && Target(old(State()), from) >= 0
      ensures !old(Flushes()) ==> State() == old(Stuck())
      ensures old(Flushes()) && !ok ==>
                && State() == (if write then old(State()) else old(State()).(pos := old(State()).pos + old(len - pos)))
                && (State() == old(State()) <==> old(write || pos == len))
    {
      at := 0;
      ok := FlushBuf();
      if !ok { return; }
      assert buf[..0] == [];
      var inside := match from
        case Current(x) => Current(x - (len - pos))
        case _ => from;
      pos, len := 0, 0;
      ok, at := inner.Seek(inside);
    }
  }

  // A refused seek that skips a byte which was read ahead.
  method FailedSeekSkips() returns (before: Stream, ok: bool, after: Stream)
    ensures !ok && before == Stream([7], 0) && after == Stream([7], 1)
  {
    var inner := new RawStream([7], 1);
    var s := new BufStream(inner);
    ok := s.FillBuf();
    before := Stream(inner.data, inner.pos - (s.len - s.pos));
    var at;
    ok, at := s.SeekTo(Current(-1));
    after := Stream(inner.data, inner.pos - (s.len - s.pos));
  }

  // Any sequence of calls through the buffer, up to the first that fails, is a run of one plain stream.
  method RunBuffered(s: BufStream, ops: seq<Op>) returns (outs: seq<Out>, ghost states: seq<Stream>)
    requires s.Valid()
    modifies s, s.inner, s.buf
    ensures s.Valid() && RunOk(states, ops, outs) && states[0] == old(s.State())
    ensures |outs| == |ops| ==> states[|ops|] == s.State()
  {
    outs, states := [], [s.State()];
    for i := 0 to |ops|
      invariant s.Valid() && |outs| == i && RunOk(states, ops, outs)
      invariant states[0] == old(s.State()) && states[i] == s.State()
    {
      var ok, out := CallBuffered(s, ops[i]);
      if !ok { return; }
      RunGrows(states, ops, outs, out, s.State());
      outs, states := outs + [out], states + [s.State()];
    }
  }

  method CallBuffered(s: BufStream, op: Op) returns (ok: bool, out: Out)
    requires s.Valid()
    modifies s, s.inner, s.buf
    ensures s.Valid() && (ok ==> StepOk(old(s.State()), op, out, s.State()))
  {
    match op
    case Read(n) =>
      var bytes;
      ok, bytes := s.ReadBytes(n);
      out := Bytes(bytes);
    case Write(w) =>
      var k;
      ok, k := s.WriteBytes(w);
      out := Count(k);
    case Seek(from) =>
      var at;
      ok, at := s.SeekTo(from);
      out := Position(at);
    case Flush =>
      ok := s.Flush();
      out := Done;
  }

  // The same for the plain stream itself, so that RunsAgree compares the two.
  method RunPlain(s: RawStream, ops: seq<Op>) returns (outs: seq<Out>, ghost states: seq<Stream>)
    modifies s
    ensures RunOk(states, ops, outs) && states[0] == old(s.State())
    ensures |outs| == |ops| ==> states[|ops|] == s.State()
  {
    outs, states := [], [s.State()];
    for i := 0 to |ops|
      invariant |outs| == i && RunOk(states, ops, outs)
      invariant states[0] == old(s.State()) && states[i] == s.State()
    {
      var ok, out := CallPlain(s, ops[i]);
      if !ok { return; }
      RunGrows(states, ops, outs, out, s.State());
      outs, states := outs + [out], states + [s.State()];
    }
  }

  method CallPlain(s: RawStream, op: Op) returns (ok: bool, out: Out)
    modifies s
    ensures ok ==> StepOk(old(s.State()), op, out, s.State())
    ensures ok <==> op.Seek? ==> Target(old(s.State()), op.from) >= 0
  {
    ok, out := true, Done;
    match op
    case Read(n) =>
      var bytes := s.Read(n);
      out := Bytes(bytes);
    case Write(w) =>
      var k := s.Write(w);
      out := Count(k);
    case Seek(from) =>
      var at;
      ok, at := s.Seek(from);
      out := Position(at);
    case Flush =>
  }

  // --- StreamSlice ---

  // The bytes from `start` on, at most `size` of them.
  function Window(data: seq<Byte>, start: nat, size: nat): seq<Byte> {
    if |data| <= start then [] else if |data| <= start + size then data[start..] else data[start..start + size]
  }

  // Nothing outside the window has changed.
  predicate SameOutside(d: seq<Byte>, e: seq<Byte>, start: nat, size: nat) {
    && |d| <= |e| && (|e| == |d| || |e| <= start + size)
    && forall i :: 0 <= i < |d| && !(start <= i < start + size) ==> e[i] == d[i]
  }

  lemma WindowRead(d: seq<Byte>, start: nat, size: nat, at: nat, n: nat)
    requires at + n <= size && start + at + n <= |d|
    ensures at + n <= |Window(d, start, size)|
    ensures d[start + at..start + at + n] == Window(d, start, size)[at..at + n]
  {
    var w := Window(d, start, size);
    assert forall i :: 0 <= i < |w| ==> w[i] == d[start + i];
  }

  class StreamSlice {
    const inner: RawStream
    const start: nat
    const size: nat
    var current: nat

    ghost predicate Valid()
      reads this, inner
    {
      current <= size && inner.pos == start + current
    }

    // What the slice's callers see.
    ghost function State(): Stream
      reads this, inner
    {
      Stream(Window(inner.data, start, size), current)
    }

    constructor (inner: RawStream, start: nat, end: nat)
      requires start <= end
      modifies inner
      ensures Valid() && this.inner == inner && this.start == start && size == end - start && current == 0
      ensures inner.data == old(inner.data)
    {
      this.inner, this.start, size, current := inner, start, end - start, 0;
      new;
      var ok, at := inner.Seek(Start(start));
    }

    method ReadBytes(n: nat) returns (bytes: seq<Byte>)
      requires Valid()
      modifies this`current, inner`pos
      ensures Valid() && StepOk(old(State()), Op.Read(n), Bytes(bytes), State())
    {
      var most := if n < size - current then n else size - current;
      bytes := inner.Read(most);
      if bytes != [] {
        WindowRead(inner.data, start, size, current, |bytes|);
      }
      current := current + |bytes|;
    }

    method WriteBytes(bytes: seq<Byte>) returns (k: nat)
      requires Valid()
      modifies this`current, inner
      ensures Valid() && k <= |bytes| && current == old(current) + k
      ensures k == 0 <==> bytes == [] || old(current) == size || start + old(current) >= inner.limit
      ensures State() == Stream(Overwrite(old(State()).data, old(current), bytes[..k]), old(current) + k)
      ensures SameOutside(old(inner.data), inner.data, start, size)
    {
      var most := if |bytes| < size - current then |bytes| else size - current;
      ghost var d, at := inner.data, current;
      k := inner.Write(bytes[..most]);
      SlicePrefix(bytes, 0, most, k);
      assert inner.data == Overwrite(d, start + at, bytes[..k]);
      WindowOverwrite(d, start, size, at, bytes[..k]);
      current := current + k;
    }

    // Seeks end inside the slice, its end included; a refused seek changes nothing.
    method SeekTo(from: From) returns (ok: bool, at: nat)
      requires Valid()
      modifies this`current, inner`pos
      ensures var target := match from case Start(x) => x case Current(x) => old(current) + x case End(x) => size + x;
              && (ok <==> 0 <= target <= size)
              && (ok ==> at == current == target)
      ensures Valid() && State().data == old(State()).data && (!ok ==> current == old(current))
    {
      var target := match from
        case Start(x) => x as int
        case Current(x) => current + x
        case End(x) => size + x;
      if target < 0 || target > size { return false, 0; }
      ok, at := inner.Seek(Start(start + target));
      current := target;
      at := current;
    }
  }

  // Writing below the window's end shows in the window as a write, and nowhere else.
  lemma WindowOverwrite(d: seq<Byte>, start: nat, size: nat, at: nat, w: seq<Byte>)
    requires at + |w| <= size
    ensures Window(Overwrite(d, start + at, w), start, size) == Overwrite(Window(d, start, size), at, w)
    ensures SameOutside(d, Overwrite(d, start + at, w), start, size)
  {
  }
}
