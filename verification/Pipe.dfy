// The pipe of kernel/src/file/pipe.rs: a ring buffer in a growing file, and the two ends that retry around
// task switches.
module Pipes {
  import opened MachineInts
  import opened Options

  // What the ring buffer uses of the in-memory file (kernel/src/file/vfs/virt_file.rs).
  class BufferFile {
    var data: seq<Byte>
    var pos: nat

    constructor ()
      ensures data == [] && pos == 0
    {
      data, pos := [], 0;
    }

    method SetPos(p: nat)
      modifies this`pos
      ensures pos == p
    {
      pos := p;
    }

    // The length to read is cut at the file size; a position behind it would underflow.
    method ReadInner(n: nat) returns (bytes: seq<Byte>)
      requires pos <= |data|
      modifies this`pos
      ensures pos == old(pos) + |bytes| <= |data| && bytes == data[old(pos)..pos]
      ensures |bytes| == if n <= |data| - old(pos) then n else |data| - old(pos)
    {
      var k := if n <= |data| - pos then n else |data| - pos;
      bytes := data[pos..pos + k];
      pos := pos + k;
    }

    method WriteInner(bytes: seq<Byte>)
      requires pos <= |data|
      modifies this
      ensures pos == old(pos) + |bytes| && data == PutAt(old(data), old(pos), bytes)
    {
      data := data[..pos] + bytes + if pos + |bytes| <= |data| then data[pos + |bytes|..] else [];
      pos := pos + |bytes|;
    }
  }

  function PutAt(d: seq<Byte>, p: nat, w: seq<Byte>): (e: seq<Byte>)
    requires p <= |d|
    ensures |e| == if p + |w| <= |d| then |d| else p + |w|
  {
    d[..p] + w + if p + |w| <= |d| then d[p + |w|..] else []
  }

  // The queue in a ring of the given limit: from head on, around the end if need be.
  function Queue(data: seq<Byte>, head: nat, len: nat, limit: nat): (q: seq<Byte>)
    requires Fits(data, head, len, limit)
    ensures |q| == len
  {
    if head + len <= limit then data[head..head + len] else data[head..limit] + data[..head + len - limit]
  }

  predicate Fits(data: seq<Byte>, head: nat, len: nat, limit: nat) {
    && head <= limit && len <= limit && |data| <= limit
    && if head + len <= limit then head + len <= |data| else |data| == limit
  }

  lemma QueueAt(d: seq<Byte>, head: nat, len: nat, limit: nat, i: nat)
    requires Fits(d, head, len, limit) && i < len
    ensures Queue(d, head, len, limit)[i] == d[if head + i < limit then head + i else head + i - limit]
  {
  }

  // Where the next byte goes: head and end may rest at the limit itself, which is the same place as 0.
  predicate EndsAt(data: seq<Byte>, head: nat, len: nat, end: nat, limit: nat) {
    && Fits(data, head, len, limit)
    && end <= limit && end <= |data| && (head + len == end || (head + len == end + limit && end > 0))
  }

  lemma WriteStraight(d: seq<Byte>, head: nat, len: nat, end: nat, limit: nat, w: seq<Byte>)
    requires EndsAt(d, head, len, end, limit) && len + |w| <= limit && end + |w| <= limit
    ensures EndsAt(PutAt(d, end, w), head, len + |w|, end + |w|, limit)
    ensures Queue(PutAt(d, end, w), head, len + |w|, limit) == Queue(d, head, len, limit) + w
  {
    var e := PutAt(d, end, w);
    var q, q' := Queue(d, head, len, limit), Queue(e, head, len + |w|, limit);
    forall i | 0 <= i < len + |w|
      ensures q'[i] == (q + w)[i]
    {
      QueueAt(e, head, len + |w|, limit, i);
      if i < len { QueueAt(d, head, len, limit, i); }
    }
  }

  lemma WriteAround(d: seq<Byte>, head: nat, len: nat, end: nat, limit: nat, w: seq<Byte>, k: nat)
    requires EndsAt(d, head, len, end, limit) && len + |w| <= limit && end + |w| > limit && k == limit - end
    ensures var e := PutAt(PutAt(d, end, w[..k]), 0, w[k..]);
            && EndsAt(e, head, len + |w|, end + |w| - limit, limit)
            && Queue(e, head, len + |w|, limit) == Queue(d, head, len, limit) + w
  {
    var d1 := PutAt(d, end, w[..k]);
    var e := PutAt(d1, 0, w[k..]);
    var q, q' := Queue(d, head, len, limit), Queue(e, head, len + |w|, limit);
    forall i | 0 <= i < len + |w|
      ensures q'[i] == (q + w)[i]
    {
      QueueAt(e, head, len + |w|, limit, i);
      if i < len {
        QueueAt(d, head, len, limit, i);
        assert e[head + i] == d1[head + i] == d[head + i];
      } else if head + i < limit {
        assert e[head + i] == d1[head + i] == w[..k][head + i - end];
      } else {
        assert e[head + i - limit] == w[k..][head + i - limit];
      }
    }
  }

  lemma ReadStraight(d: seq<Byte>, head: nat, len: nat, end: nat, limit: nat, n: nat)
    requires EndsAt(d, head, len, end, limit) && n <= len && head + n <= limit
    ensures EndsAt(d, head + n, len - n, end, limit) && head + n <= |d|
    ensures Queue(d, head, len, limit) == d[head..head + n] + Queue(d, head + n, len - n, limit)
  {
    QueueFront(d, head, len, limit, n);
  }

  lemma QueueFront(d: seq<Byte>, head: nat, len: nat, limit: nat, n: nat)
    requires Fits(d, head, len, limit) && n <= len && head + n <= limit && Fits(d, head + n, len - n, limit) && head + n <= |d|
    ensures Queue(d, head, len, limit) == d[head..head + n] + Queue(d, head + n, len - n, limit)
  {
    if head + len <= limit {
      assert d[head..head + len] == d[head..head + n] + d[head + n..head + len];
    } else {
      assert d[head..limit] == d[head..head + n] + d[head + n..limit];
    }
  }

  lemma ReadAround(d: seq<Byte>, head: nat, len: nat, end: nat, limit: nat, n: nat)
    requires EndsAt(d, head, len, end, limit) && n <= len && head + n > limit
    ensures EndsAt(d, head + n - limit, len - n, end, limit) && |d| == limit
    ensures Queue(d, head, len, limit) == d[head..limit] + d[..head + n - limit] + Queue(d, head + n - limit, len - n, limit)
  {
  }

  lemma TakeFront(accepted: seq<Byte>, delivered: seq<Byte>, q: seq<Byte>, taken: seq<Byte>, rest: seq<Byte>)
    requires accepted == delivered + q && q == taken + rest
    ensures accepted == delivered + taken + rest
  {
  }

  lemma AddBack(accepted: seq<Byte>, delivered: seq<Byte>, q: seq<Byte>, added: seq<Byte>, all: seq<Byte>)
    requires accepted == delivered + q && all == q + added
    ensures accepted + added == delivered + all
  {
  }

  class RingBuffer {
    const data: BufferFile
    var head: nat
    var end: nat
    var len: nat
    const sizeLimit: nat
    ghost var accepted: seq<Byte>  // all bytes ever written
    ghost var delivered: seq<Byte>  // all bytes ever read

    ghost predicate Valid()
      reads this, data
    {
      && EndsAt(data.data, head, len, end, sizeLimit)
      && accepted == delivered + Contents()
    }

    ghost function Contents(): seq<Byte>
      requires Fits(data.data, head, len, sizeLimit)
      reads this, data
    {
      Queue(data.data, head, len, sizeLimit)
    }

    constructor (sizeLimit: nat)
      ensures Valid() && fresh(data) && this.sizeLimit == sizeLimit && accepted == [] && delivered == [] && len == 0
    {
      data := new BufferFile();
      head, end, len, this.sizeLimit := 0, 0, 0, sizeLimit;
      accepted, delivered := [], [];
    }

    // As many bytes as there are, oldest first.
    method Read(n: nat) returns (bytes: seq<Byte>)
      requires Valid()
      modifies this, data
      ensures Valid() && accepted == old(accepted) && delivered == old(delivered) + bytes
      ensures |bytes| == if n < old(len) then n else old(len)
      ensures len == old(len) - |bytes|
    {
      var maxLen := if n < len then n else len;
      ghost var q := Contents();
      bytes := TakeOut(maxLen);
      TakeFront(accepted, delivered, q, bytes, Contents());
      delivered := delivered + bytes;
    }

    method TakeOut(maxLen: nat) returns (bytes: seq<Byte>)
      requires EndsAt(data.data, head, len, end, sizeLimit) && maxLen <= len
      modifies `head, `len, data`pos
      ensures EndsAt(data.data, head, len, end, sizeLimit) && len == old(len) - maxLen
      ensures |bytes| == maxLen && old(Contents()) == bytes + Contents()
    {
      if head + maxLen <= sizeLimit {
        ReadStraight(data.data, head, len, end, sizeLimit, maxLen);
        len := len - maxLen;
        data.SetPos(head);
        bytes := data.ReadInner(maxLen);
        head := head + maxLen;
      } else {
        bytes := TakeAround(maxLen);
      }
    }

    // The bytes up to the limit, then the rest from the start.
    method TakeAround(maxLen: nat) returns (bytes: seq<Byte>)
      requires EndsAt(data.data, head, len, end, sizeLimit) && maxLen <= len && head + maxLen > sizeLimit
      modifies `head, `len, data`pos
      ensures EndsAt(data.data, head, len, end, sizeLimit) && len == old(len) - maxLen
      ensures |bytes| == maxLen && old(Contents()) == bytes + Contents()
    {
      ReadAround(data.data, head, len, end, sizeLimit, maxLen);
      len := len - maxLen;
      data.SetPos(head);
      bytes := data.ReadInner(sizeLimit - head);
      data.SetPos(0);
      var second := data.ReadInner(maxLen - (sizeLimit - head));
      bytes := bytes + second;
      head := head + maxLen - sizeLimit;
    }

    // As many bytes as fit.
    method Write(bytes: seq<Byte>) returns (n: nat)
      requires Valid()
      modifies this, data
      ensures Valid() && delivered == old(delivered) && n <= |bytes| && accepted == old(accepted) + bytes[..n]
      ensures n == if |bytes| < sizeLimit - old(len) then |bytes| else sizeLimit - old(len)
      ensures len == old(len) + n
    {
      n := if |bytes| < sizeLimit - len then |bytes| else sizeLimit - len;
      ghost var q := Contents();
      PutIn(bytes[..n]);
      AddBack(accepted, delivered, q, bytes[..n], Contents());
      accepted := accepted + bytes[..n];
    }

    method PutIn(bytes: seq<Byte>)
      requires EndsAt(data.data, head, len, end, sizeLimit) && len + |bytes| <= sizeLimit
      modifies `end, `len, data
      ensures EndsAt(data.data, head, len, end, sizeLimit) && len == old(len) + |bytes|
      ensures Contents() == old(Contents()) + bytes
    {
      if end + |bytes| <= sizeLimit {
        WriteStraight(data.data, head, len, end, sizeLimit, bytes);
        len := len + |bytes|;
        data.SetPos(end);
        data.WriteInner(bytes);
        end := end + |bytes|;
      } else {
        PutAround(bytes);
      }
    }

    method PutAround(bytes: seq<Byte>)
      requires EndsAt(data.data, head, len, end, sizeLimit) && len + |bytes| <= sizeLimit && end + |bytes| > sizeLimit
      modifies `end, `len, data
      ensures EndsAt(data.data, head, len, end, sizeLimit) && len == old(len) + |bytes|
      ensures Contents() == old(Contents()) + bytes
    {
      WriteAround(data.data, head, len, end, sizeLimit, bytes, sizeLimit - end);
      len := len + |bytes|;
      data.SetPos(end);
      data.WriteInner(bytes[..sizeLimit - end]);
      data.SetPos(0);
      data.WriteInner(bytes[sizeLimit - end..]);
      end := end + |bytes| - sizeLimit;
    }

    method IsFull() returns (b: bool)
      ensures b <==> len == sizeLimit
    {
      b := len == sizeLimit;
    }

    method IsEmpty() returns (b: bool)
      ensures b <==> len == 0
    {
      b := len == 0;
    }
  }

  // --- The two ends ---

  // What other tasks do to the ring while a task is suspended.
  datatype RingOp = Put(bytes: seq<Byte>) | Take(n: nat)

  // One look at the reference count, and the suspension that follows if both ends are alive.
  datatype Turn = Turn(bothAlive: bool, others: seq<RingOp>)

  // How many bytes the ring holds after these operations.
  function LenAfter(len: nat, limit: nat, ops: seq<RingOp>): (n: nat)
    requires len <= limit
    ensures n <= limit
  {
    if ops == [] then len
    else
      var n := LenAfter(len, limit, ops[..|ops| - 1]);
      match ops[|ops| - 1]
      case Put(bytes) => if |bytes| < limit - n then n + |bytes| else limit
      case Take(k) => if k < n then n - k else 0
  }

  // What a reader finds in cnt + 1 attempts: what the ring holds, and, as long as the writer is alive, what
  // others leave in the emptied ring during each suspension.
  function SupplyUpTo(len: nat, limit: nat, turns: seq<Turn>, cnt: nat): nat
    requires cnt <= |turns| && len <= limit
  {
    if cnt == 0 then len
    else SupplyUpTo(len, limit, turns, cnt - 1) + LenAfter(0, limit, turns[cnt - 1].others)
  }

  // The same for the room that a writer finds.
  function SpaceUpTo(len: nat, limit: nat, turns: seq<Turn>, cnt: nat): nat
    requires cnt <= |turns| && len <= limit
  {
    if cnt == 0 then limit - len
    else SpaceUpTo(len, limit, turns, cnt - 1) + (limit - LenAfter(limit, limit, turns[cnt - 1].others))
  }

  // At most two suspensions, and none when the other end is gone.
  function Waits(turns: seq<Turn>): nat
    requires |turns| >= 3
  {
    if !turns[0].bothAlive then 0 else if !turns[1].bothAlive then 1 else 2
  }

  function Supply(len: nat, limit: nat, turns: seq<Turn>): nat
    requires |turns| >= 3 && len <= limit
  {
    SupplyUpTo(len, limit, turns, Waits(turns))
  }

  function Space(len: nat, limit: nat, turns: seq<Turn>): nat
    requires |turns| >= 3 && len <= limit
  {
    SpaceUpTo(len, limit, turns, Waits(turns))
  }

  lemma {:induction false} SupplyGrows(len: nat, limit: nat, turns: seq<Turn>, j: nat, k: nat)
    requires j <= k <= |turns| && len <= limit
    ensures SupplyUpTo(len, limit, turns, j) <= SupplyUpTo(len, limit, turns, k)
    ensures SpaceUpTo(len, limit, turns, j) <= SpaceUpTo(len, limit, turns, k)
  {
    if j < k { SupplyGrows(len, limit, turns, j, k - 1); }
  }

  // Attempts that have got everything they wanted would not have got more from the rest.
  lemma Enough(len: nat, limit: nat, turns: seq<Turn>, waits: nat, n: nat)
    requires |turns| >= 3 && len <= limit && waits <= Waits(turns)
    ensures SupplyUpTo(len, limit, turns, waits) >= n || waits == Waits(turns) ==>
              Least(n, SupplyUpTo(len, limit, turns, waits)) == Least(n, Supply(len, limit, turns))
    ensures SpaceUpTo(len, limit, turns, waits) >= n || waits == Waits(turns) ==>
              Least(n, SpaceUpTo(len, limit, turns, waits)) == Least(n, Space(len, limit, turns))
  {
    SupplyGrows(len, limit, turns, waits, Waits(turns));
  }

  // One more attempt after a short one.
  lemma AnotherAttempt(len: nat, limit: nat, turns: seq<Turn>, waits: nat, n: nat)
    requires waits < |turns| && len <= limit
    ensures var found := SupplyUpTo(len, limit, turns, waits);
            found < n ==> found + Least(n - found, LenAfter(0, limit, turns[waits].others))
                          == Least(n, SupplyUpTo(len, limit, turns, waits + 1))
    ensures var found := SpaceUpTo(len, limit, turns, waits);
            found < n ==> found + Least(n - found, limit - LenAfter(limit, limit, turns[waits].others))
                          == Least(n, SpaceUpTo(len, limit, turns, waits + 1))
  {
  }

  function Least(a: nat, b: nat): nat { if a < b then a else b }

  // With both ends alive, and though the others write a byte to the ring or read it empty during a third
  // suspension, one more would have been needed.
  lemma ShortThoughAlive()
    ensures exists turns: seq<Turn> ::
      && |turns| == 3 && (forall i :: 0 <= i < 3 ==> turns[i].bothAlive)
      && LenAfter(0, 1, turns[2].others) == 1 && Supply(0, 1, turns) == 0
    ensures exists turns: seq<Turn> ::
      && |turns| == 3 && (forall i :: 0 <= i < 3 ==> turns[i].bothAlive)
      && LenAfter(1, 1, turns[2].others) == 0 && Space(1, 1, turns) == 0
  {
    var put: seq<RingOp>, take: seq<RingOp> := [Put([7])], [Take(1)];
    assert put[..0] == [] && take[..0] == [];
    var reader, writer := [Turn(true, []), Turn(true, []), Turn(true, put)], [Turn(true, []), Turn(true, []), Turn(true, take)];
    assert SupplyUpTo(0, 1, reader, 1) == 0 && SpaceUpTo(1, 1, writer, 1) == 0;
    assert LenAfter(0, 1, reader[2].others) == 1 && Supply(0, 1, reader) == 0;
    assert LenAfter(1, 1, writer[2].others) == 0 && Space(1, 1, writer) == 0;
  }

  predicate OnlyPuts(ops: seq<RingOp>) { forall i :: 0 <= i < |ops| ==> ops[i].Put? }
  predicate OnlyTakes(ops: seq<RingOp>) { forall i :: 0 <= i < |ops| ==> ops[i].Take? }

  predicate NoOtherReader(turns: seq<Turn>) { forall i :: 0 <= i < |turns| ==> OnlyPuts(turns[i].others) }
  predicate NoOtherWriter(turns: seq<Turn>) { forall i :: 0 <= i < |turns| ==> OnlyTakes(turns[i].others) }

  // Any interleaving of reads and writes keeps the ring in order: what was delivered stays a prefix of what
  // was accepted, with at most the limit between them.
  method RunOthers(ring: RingBuffer, ops: seq<RingOp>)
    requires ring.Valid()
    modifies ring, ring.data
    ensures ring.Valid() && old(ring.accepted) <= ring.accepted && old(ring.delivered) <= ring.delivered
    ensures ring.delivered <= ring.accepted && |ring.accepted| == |ring.delivered| + ring.len && ring.len <= ring.sizeLimit
    ensures OnlyPuts(ops) ==> ring.delivered == old(ring.delivered)
    ensures OnlyTakes(ops) ==> ring.accepted == old(ring.accepted)
    ensures ring.len == LenAfter(old(ring.len), ring.sizeLimit, ops)
  {
    for i := 0 to |ops|
      invariant ring.len == LenAfter(old(ring.len), ring.sizeLimit, ops[..i])
      invariant ring.Valid() && old(ring.accepted) <= ring.accepted && old(ring.delivered) <= ring.delivered
      invariant OnlyPuts(ops) ==> ring.delivered == old(ring.delivered)
      invariant OnlyTakes(ops) ==> ring.accepted == old(ring.accepted)
    {
      assert ops[..i + 1][..i] == ops[..i];
      match ops[i]
      case Put(bytes) => var n := ring.Write(bytes);
      case Take(n) => var bytes := ring.Read(n);
    }
    assert ops[..|ops|] == ops;
  }

  lemma Resume(accepted: seq<Byte>, bytes: seq<Byte>, done: nat, more: nat)
    requires done + more <= |bytes|
    ensures accepted + bytes[..done] + bytes[done..][..more] == accepted + bytes[..done + more]
  {
    assert bytes[..done] + bytes[done..][..more] == bytes[..done + more];
  }

  // A ring's state before a call.
  datatype Record = Record(len: nat, limit: nat, accepted: seq<Byte>, delivered: seq<Byte>)

  class Pipe {
    const isRead: bool
    const ring: RingBuffer

    constructor (isRead: bool, ring: RingBuffer)
      ensures this.isRead == isRead && this.ring == ring
    {
      this.isRead, this.ring := isRead, ring;
    }

    static method NewPipe(limit: nat) returns (reader: Pipe, writer: Pipe)
      ensures fresh(reader.ring) && reader.ring == writer.ring && reader.ring.Valid()
      ensures reader.isRead && !writer.isRead && reader.ring.sizeLimit == limit && reader.ring.accepted == []
    {
      var ring := new RingBuffer(limit);
      reader := new Pipe(true, ring);
      writer := new Pipe(false, ring);
    }

    // After some attempts to read n bytes, from the ring's former state on.
    ghost predicate ReadSoFar(was: Record, n: nat, turns: seq<Turn>, waits: nat, bytes: seq<Byte>)
      requires was.len <= was.limit && waits <= |turns|
      reads ring, ring.data
    {
      && ring.Valid() && ring.sizeLimit == was.limit && was.accepted <= ring.accepted
      && |bytes| == Least(n, SupplyUpTo(was.len, was.limit, turns, waits)) && (|bytes| < n ==> ring.len == 0)
      && (NoOtherReader(turns) ==> ring.delivered == was.delivered + bytes)
    }

    ghost predicate WrittenSoFar(was: Record, bytes: seq<Byte>, turns: seq<Turn>, waits: nat, done: nat)
      requires was.len <= was.limit && waits <= |turns|
      reads ring, ring.data
    {
      && ring.Valid() && ring.sizeLimit == was.limit && was.delivered <= ring.delivered
      && done == Least(|bytes|, SpaceUpTo(was.len, was.limit, turns, waits)) && (done < |bytes| ==> ring.len == was.limit)
      && (NoOtherWriter(turns) ==> ring.accepted == was.accepted + bytes[..done])
    }

    // Up to three attempts, with a task switch before each but the first. The read is short if and only if the
    // attempts find less than n bytes; then the ring is left empty. If no other task reads meanwhile, the
    // bytes returned are exactly those delivered.
    method Read(n: nat, turns: seq<Turn>) returns (r: Option<seq<Byte>>)
      requires ring.Valid() && |turns| >= 3
      modifies ring, ring.data
      ensures ring.Valid() && (r.Some? <==> isRead) && old(ring.accepted) <= ring.accepted
      ensures r.None? ==> ring.accepted == old(ring.accepted) && ring.delivered == old(ring.delivered)
      ensures r.Some? ==> |r.value| == Least(n, Supply(old(ring.len), ring.sizeLimit, turns)) && (|r.value| < n ==> ring.len == 0)
      ensures r.Some? && NoOtherReader(turns) ==> ring.delivered == old(ring.delivered) + r.value
    {
      if !isRead { return None; }
      ghost var was, waits: nat := Record(ring.len, ring.sizeLimit, ring.accepted, ring.delivered), 0;
      var bytes := ring.Read(n);
      assert ReadSoFar(was, n, turns, 0, bytes);
      var cnt := 0;
      while |bytes| < n && turns[cnt].bothAlive
        invariant 0 <= cnt <= 2 && waits == cnt <= Waits(turns) && ReadSoFar(was, n, turns, waits, bytes)
        decreases 2 - cnt
      {
        cnt := cnt + 1;
        if cnt > 2 { break; }
        bytes := ReadAgain(was, n, turns, cnt - 1, bytes);
        waits := waits + 1;
      }
      Enough(was.len, was.limit, turns, waits, n);
      r := Some(bytes);
    }

    // A suspension, and another attempt on what the others have left in the empty ring.
    method ReadAgain(ghost was: Record, n: nat, turns: seq<Turn>, waits: nat, bytes: seq<Byte>) returns (all: seq<Byte>)
      requires was.len <= was.limit && waits < |turns| && |bytes| < n && ReadSoFar(was, n, turns, waits, bytes)
      modifies ring, ring.data
      ensures ReadSoFar(was, n, turns, waits + 1, all)
    {
      AnotherAttempt(was.len, was.limit, turns, waits, n);
      RunOthers(ring, turns[waits].others);
      var more := ring.Read(n - |bytes|);
      all := bytes + more;
    }

    // The same for writing; a short write leaves the ring full.
    method Write(bytes: seq<Byte>, turns: seq<Turn>) returns (r: Option<nat>)
      requires ring.Valid() && |turns| >= 3
      modifies ring, ring.data
      ensures ring.Valid() && (r.Some? <==> !isRead) && old(ring.delivered) <= ring.delivered
      ensures r.None? ==> ring.accepted == old(ring.accepted) && ring.delivered == old(ring.delivered)
      ensures r.Some? ==>
                && r.value == Least(|bytes|, Space(old(ring.len), ring.sizeLimit, turns))
                && (r.value < |bytes| ==> ring.len == ring.sizeLimit)
      ensures r.Some? && NoOtherWriter(turns) ==> ring.accepted == old(ring.accepted) + bytes[..r.value]
    {
      if isRead { return None; }
      ghost var was, waits: nat := Record(ring.len, ring.sizeLimit, ring.accepted, ring.delivered), 0;
      var done: nat := ring.Write(bytes);
      assert WrittenSoFar(was, bytes, turns, 0, done);
      var cnt := 0;
      while done < |bytes| && turns[cnt].bothAlive
        invariant 0 <= cnt <= 2 && waits == cnt <= Waits(turns) && WrittenSoFar(was, bytes, turns, waits, done)
        decreases 2 - cnt
      {
        cnt := cnt + 1;
        if cnt > 2 { break; }
        done := WriteAgain(was, bytes, turns, cnt - 1, done);
        waits := waits + 1;
      }
      Enough(was.len, was.limit, turns, waits, |bytes|);
      r := Some(done);
    }

    method WriteAgain(ghost was: Record, bytes: seq<Byte>, turns: seq<Turn>, waits: nat, done: nat) returns (all: nat)
      requires was.len <= was.limit && waits < |turns| && done < |bytes| && WrittenSoFar(was, bytes, turns, waits, done)
      modifies ring, ring.data
      ensures WrittenSoFar(was, bytes, turns, waits + 1, all)
    {
      AnotherAttempt(was.len, was.limit, turns, waits, |bytes|);
      RunOthers(ring, turns[waits].others);
      var more := ring.Write(bytes[done..]);
      Resume(was.accepted, bytes, done, more);
      all := done + more;
    }
  }
}
