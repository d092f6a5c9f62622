/**
 Runs of `put` and `get` by one producer and one consumer, compared with a
 bounded FIFO of bodies that knows nothing of indices, headers or wrapping.
 */
module RingRuns {
  import opened Bytes
  import opened Ring

  datatype Op = OpPut(body: seq<byte>) | OpGet
  datatype Out = Said(p: Putting) | Got(t: Taking)

  // ---------- the queue as coded ----------

  /** One call; `num` is the producer's `frame_counter`. */
  function Step(q: QState, num: nat, op: Op, crc: Crc, decodes: seq<byte> -> bool): (r: (QState, nat, Out))
    requires q.Shaped() && Sane(q)
    ensures r.0.Shaped()
  {
    match op
    case OpPut(body) =>
      var (q', num', p) := Put(q, num, body, crc);
      (q', num', Said(p))
    case OpGet =>
      var (q', t) := Get(q, crc, decodes);
      (q', num, Got(t))
  }

  /** The answers of a run, up to a point (never met by the runs below) where the
      memory at `exe_index` would stop `get` being defined. */
  function Outputs(q: QState, num: nat, ops: seq<Op>, crc: Crc, decodes: seq<byte> -> bool): seq<Out>
    requires q.Shaped()
    decreases |ops|
  {
    if |ops| == 0 || !Sane(q) then [] else
    var (q', num', out) := Step(q, num, ops[0], crc, decodes);
    [out] + Outputs(q', num', ops[1..], crc, decodes)
  }

  // ---------- the queue as promised ----------

  function Used(bodies: seq<seq<byte>>): nat {
    if |bodies| == 0 then 0 else FRAME_HEADER_SIZE + |bodies[0]| + Used(bodies[1..])
  }

  /** Room for the frame, and no more than nine tenths of the memory in use. */
  predicate HasRoom(ring: nat, bodies: seq<seq<byte>>, body: seq<byte>) {
    && 10 * Used(bodies) <= 9 * (ring + Q_CONTROL_SIZE)
    && Used(bodies) + FRAME_HEADER_SIZE + |body| <= ring
  }

  function FifoStep(ring: nat, bodies: seq<seq<byte>>, op: Op): (seq<seq<byte>>, Out) {
    match op
    case OpPut(body) =>
      if HasRoom(ring, bodies, body) then (bodies + [body], Said(Accepted)) else (bodies, Said(Refused))
    case OpGet => if |bodies| == 0 then (bodies, Got(Nothing)) else (bodies[1..], Got(Taken(bodies[0])))
  }

  function FifoOutputs(ring: nat, bodies: seq<seq<byte>>, ops: seq<Op>): seq<Out>
    decreases |ops|
  {
    if |ops| == 0 then [] else
    var (bodies', out) := FifoStep(ring, bodies, ops[0]);
    [out] + FifoOutputs(ring, bodies', ops[1..])
  }

  /** The `put` the code gets wrong: the ring is filled to the last byte, and the
      frame would fit an empty one. */
  predicate Overfull(ring: nat, bodies: seq<seq<byte>>, op: Op) {
    op.OpPut? && Used(bodies) == ring && FRAME_HEADER_SIZE + |op.body| <= ring
  }

  /** How many more frames the 4-byte frame number and counter can count. */
  function CountsLeft(q: QState, num: nat): nat {
    if num >= WORD_LIMIT || q.allocCount + 1 >= WORD_LIMIT then 0
    else if num <= q.allocCount then WORD_LIMIT - 1 - q.allocCount
    else WORD_LIMIT - num
  }

  /** A call that is answered as promised: not an overfull `put`, and no frame more than can be counted. */
  predicate Sound(ring: nat, bodies: seq<seq<byte>>, left: nat, op: Op) {
    && !Overfull(ring, bodies, op)
    && (op.OpPut? && HasRoom(ring, bodies, op.body) ==> left > 0)
  }

  function LeftAfter(ring: nat, bodies: seq<seq<byte>>, left: nat, op: Op): nat {
    if op.OpPut? && HasRoom(ring, bodies, op.body) && left > 0 then left - 1 else left
  }

  predicate Clean(ring: nat, bodies: seq<seq<byte>>, left: nat, ops: seq<Op>)
    decreases |ops|
  {
    |ops| > 0 ==>
      && Sound(ring, bodies, left, ops[0])
      && Clean(ring, FifoStep(ring, bodies, ops[0]).0, LeftAfter(ring, bodies, left, ops[0]), ops[1..])
  }

  // ---------- one step ----------

  function Bodies(pending: seq<seq<byte>>): (r: seq<seq<byte>>)
    requires Headed(pending)
    ensures |r| == |pending|
    ensures forall i :: 0 <= i < |r| ==> r[i] == Body(pending[i])
  {
    seq(|pending|, i requires 0 <= i < |pending| => Body(pending[i]))
  }

  lemma {:induction false} UsedIsFlat(pending: seq<seq<byte>>)
    requires Headed(pending)
    ensures Used(Bodies(pending)) == |Flat(pending)|
  {
    if |pending| == 0 {
    } else {
      assert Bodies(pending)[1..] == Bodies(pending[1..]);
      UsedIsFlat(pending[1..]);
    }
  }

  /** Conservation of space: `free_space` is the ring less the frames in it, except
      that a ring filled to the last byte reports itself empty. */
  lemma FreeSpaceIsConserved(q: QState, pending: seq<seq<byte>>, lost: nat, crc: Crc)
    requires Represents(q, pending, lost, crc)
    ensures Used(Bodies(pending)) <= |q.data|
    ensures q.FreeSpace() == if Used(Bodies(pending)) == |q.data| then |q.data| else |q.data| - Used(Bodies(pending))
    ensures q.alloc == q.exe <==> |pending| == 0 || Used(Bodies(pending)) == |q.data|
    ensures |pending| == 0 <==> Used(Bodies(pending)) == 0
  {
    UsedIsFlat(pending);
  }

  /** A caller can see a full ring: the indices meet although frames are pending. */
  lemma FullIsVisible(q: QState, pending: seq<seq<byte>>, crc: Crc)
    requires Represents(q, pending, 0, crc)
    ensures Used(Bodies(pending)) == |q.data| <==> q.alloc == q.exe && q.allocCount != q.exeCount
  {
    FreeSpaceIsConserved(q, pending, 0, crc);
  }

  lemma BodiesAppend(pending: seq<seq<byte>>, num: Word, body: seq<byte>, crc: Crc)
    requires Headed(pending)
    requires FRAME_HEADER_SIZE + |body| < WORD_LIMIT
    ensures Bodies(pending + [Packet(body, num, crc)]) == Bodies(pending) + [body]
  {
    PacketIsWellFormed(body, num, crc);
  }

  lemma BodiesTail(pending: seq<seq<byte>>)
    requires |pending| > 0 && Headed(pending)
    ensures Bodies(pending[1..]) == Bodies(pending)[1..]
  {
  }

  /** `put` does what the FIFO does, if and only if it is a sound one. */
  lemma PutIsFifoIff(q: QState, pending: seq<seq<byte>>, lost: nat, num: nat, body: seq<byte>, crc: Crc)
    requires Represents(q, pending, lost, crc)
    ensures var n, bodies, left, op := |q.data|, Bodies(pending), CountsLeft(q, num), OpPut(body);
            var (q', num', p) := Put(q, num, body, crc);
            && (Sound(n, bodies, left, op) <==> Said(p) == FifoStep(n, bodies, op).1)
            && (Sound(n, bodies, left, op) ==>
                  |q'.data| == n && CountsLeft(q', num') == LeftAfter(n, bodies, left, op))
            && (Sound(n, bodies, left, op) && p == Accepted ==>
                  num < WORD_LIMIT && Represents(q', pending + [Packet(body, num, crc)], lost, crc))
            && (Overfull(n, bodies, op) ==> p == if left > 0 then Accepted else Overflowed)
  {
    FreeSpaceIsConserved(q, pending, lost, crc);
    UsedIsFlat(pending);
    if Put(q, num, body, crc).2 == Accepted && Used(Bodies(pending)) < |q.data| {
      PacketIsWellFormed(body, num, crc);
      PushRepresents(q, pending, lost, crc, Packet(body, num, crc));
    }
  }

  lemma CountMoves(q: QState, pending: seq<seq<byte>>, lost: nat, crc: Crc)
    requires Represents(q, pending, lost + 1, crc)
    ensures q.exeCount + 1 < WORD_LIMIT && Represents(q.(exeCount := q.exeCount + 1), pending, lost, crc)
  {
    var r := q.(exeCount := q.exeCount + 1);
    forall k | 0 <= k < |r.data|
      ensures r.At(k) == if k < |Flat(pending)| then Flat(pending)[k] else 0
    {
      assert r.At(k) == q.At(k);
    }
  }

  /** `get` returns the oldest body and removes exactly it; `lost` grows only when the body does not decode. */
  lemma GetIsFifo(q: QState, pending: seq<seq<byte>>, lost: nat, crc: Crc, decodes: seq<byte> -> bool)
    requires Represents(q, pending, lost, crc)
    ensures Sane(q)
    ensures |pending| == 0 ==> Get(q, crc, decodes) == (q, Nothing)
    ensures |pending| > 0 ==>
      && Get(q, crc, decodes).1 == Taken(Body(pending[0]))
      && Represents(Get(q, crc, decodes).0, pending[1..], if decodes(Body(pending[0])) then lost else lost + 1, crc)
  {
    TakeRepresents(q, pending, lost, crc);
    if |pending| > 0 {
      GetCounts(q, pending, lost, crc, decodes);
    }
  }

  lemma GetCounts(q: QState, pending: seq<seq<byte>>, lost: nat, crc: Crc, decodes: seq<byte> -> bool)
    requires Represents(q, pending, lost, crc) && |pending| > 0 && Sane(q)
    requires Take(q, crc).1 == Taken(Body(pending[0])) && Represents(Take(q, crc).0, pending[1..], lost + 1, crc)
    ensures Get(q, crc, decodes).1 == Taken(Body(pending[0]))
    ensures Represents(Get(q, crc, decodes).0, pending[1..], if decodes(Body(pending[0])) then lost else lost + 1, crc)
  {
    CountMoves(Take(q, crc).0, pending[1..], lost, crc);
  }

  lemma PutStep(q: QState, pending: seq<seq<byte>>, lost: nat, num: nat, body: seq<byte>, crc: Crc)
    returns (pending': seq<seq<byte>>)
    requires Represents(q, pending, lost, crc)
    ensures var n, bodies, left, op := |q.data|, Bodies(pending), CountsLeft(q, num), OpPut(body);
            var (q', num', p) := Put(q, num, body, crc);
            && (Sound(n, bodies, left, op) <==> Said(p) == FifoStep(n, bodies, op).1)
            && (Sound(n, bodies, left, op) ==>
                  && Represents(q', pending', lost, crc) && |q'.data| == n
                  && CountsLeft(q', num') == LeftAfter(n, bodies, left, op)
                  && Bodies(pending') == FifoStep(n, bodies, op).0)
  {
    pending' := pending;
    PutIsFifoIff(q, pending, lost, num, body, crc);
    if Sound(|q.data|, Bodies(pending), CountsLeft(q, num), OpPut(body)) && Put(q, num, body, crc).2 == Accepted {
      BodiesAppend(pending, num, body, crc);
      pending' := pending + [Packet(body, num, crc)];
    }
  }

  /** One call refines one step of the FIFO; an unsound `put` answers differently. */
  lemma StepIsFifo(q: QState, pending: seq<seq<byte>>, lost: nat, num: nat, op: Op, crc: Crc,
      decodes: seq<byte> -> bool) returns (pending': seq<seq<byte>>, lost': nat)
    requires Represents(q, pending, lost, crc)
    ensures Sane(q)
    ensures var n, bodies, left := |q.data|, Bodies(pending), CountsLeft(q, num);
            var (q', num', out) := Step(q, num, op, crc, decodes);
            && (Sound(n, bodies, left, op) <==> out == FifoStep(n, bodies, op).1)
            && (Sound(n, bodies, left, op) ==>
                  && Represents(q', pending', lost', crc) && |q'.data| == n
                  && CountsLeft(q', num') == LeftAfter(n, bodies, left, op)
                  && Bodies(pending') == FifoStep(n, bodies, op).0)
    ensures (forall b :: decodes(b)) ==> lost' == lost
  {
    match op
    case OpPut(body) =>
      HeadOfRing(q, pending, lost, crc);
      pending' := PutStep(q, pending, lost, num, body, crc);
      lost' := lost;
    case OpGet =>
      GetIsFifo(q, pending, lost, crc, decodes);
      pending', lost' := pending, lost;
      if |pending| > 0 {
        BodiesTail(pending);
        pending', lost' := pending[1..], if decodes(Body(pending[0])) then lost else lost + 1;
      }
  }

  // ---------- whole runs ----------

  /** Over every run, the ring answers exactly as the FIFO does if and only if no
      `put` of the run meets a full ring or counters that have come to their end.
      The wrap may fall anywhere. */
  lemma {:induction false} RunIsFifoIff(q: QState, pending: seq<seq<byte>>, lost: nat, num: nat, ops: seq<Op>,
      crc: Crc, decodes: seq<byte> -> bool)
    requires Represents(q, pending, lost, crc)
    ensures Outputs(q, num, ops, crc, decodes) == FifoOutputs(|q.data|, Bodies(pending), ops)
       <==> Clean(|q.data|, Bodies(pending), CountsLeft(q, num), ops)
    decreases |ops|
  {
    if |ops| > 0 {
      var n, bodies, left := |q.data|, Bodies(pending), CountsLeft(q, num);
      var pending', lost' := StepIsFifo(q, pending, lost, num, ops[0], crc, decodes);
      var (q', num', out) := Step(q, num, ops[0], crc, decodes);
      var (bodies', out') := FifoStep(n, bodies, ops[0]);
      if Sound(n, bodies, left, ops[0]) {
        RunIsFifoIff(q', pending', lost', num', ops[1..], crc, decodes);
      }
      SameTails(out, out', Outputs(q', num', ops[1..], crc, decodes), FifoOutputs(n, bodies', ops[1..]));
    }
  }

  lemma SameTails<T>(x: T, y: T, s: seq<T>, t: seq<T>)
    ensures [x] + s == [y] + t <==> x == y && s == t
  {
    if [x] + s == [y] + t {
      assert x == ([x] + s)[0] == ([y] + t)[0] == y;
      assert s == ([x] + s)[1..] == ([y] + t)[1..] == t;
    }
  }

  function After(q: QState, num: nat, ops: seq<Op>, crc: Crc, decodes: seq<byte> -> bool): QState
    requires q.Shaped()
    decreases |ops|
  {
    if |ops| == 0 || !Sane(q) then q else
    var (q', num', _) := Step(q, num, ops[0], crc, decodes);
    After(q', num', ops[1..], crc, decodes)
  }

  function FifoAfter(ring: nat, bodies: seq<seq<byte>>, ops: seq<Op>): seq<seq<byte>>
    decreases |ops|
  {
    if |ops| == 0 then bodies else FifoAfter(ring, FifoStep(ring, bodies, ops[0]).0, ops[1..])
  }

  /** After every clean run the ring still represents what the FIFO holds, byte for
      byte; and when every body decodes, the counters differ by exactly its length. */
  lemma {:induction false} RunKeepsRepresentation(q: QState, pending: seq<seq<byte>>, lost: nat, num: nat,
      ops: seq<Op>, crc: Crc, decodes: seq<byte> -> bool) returns (pending': seq<seq<byte>>, lost': nat)
    requires Represents(q, pending, lost, crc)
    requires Clean(|q.data|, Bodies(pending), CountsLeft(q, num), ops)
    ensures Represents(After(q, num, ops, crc, decodes), pending', lost', crc)
    ensures Bodies(pending') == FifoAfter(|q.data|, Bodies(pending), ops)
    ensures (forall b :: decodes(b)) ==> lost' == lost
    decreases |ops|
  {
    pending', lost' := pending, lost;
    if |ops| > 0 {
      var p, l := StepIsFifo(q, pending, lost, num, ops[0], crc, decodes);
      var (q', num', _) := Step(q, num, ops[0], crc, decodes);
      pending', lost' := RunKeepsRepresentation(q', p, l, num', ops[1..], crc, decodes);
    }
  }

  // ---------- the overfull put ----------

  /** What the overfull `put` costs: the next `get` returns the newest body, not the
      oldest, whatever was pending. */
  lemma OverfullPutServesNewest(q: QState, pending: seq<seq<byte>>, num: nat, body: seq<byte>, crc: Crc,
      decodes: seq<byte> -> bool)
    requires Represents(q, pending, 0, crc) && CountsLeft(q, num) > 0
    requires Overfull(|q.data|, Bodies(pending), OpPut(body))
    ensures var (q', _, p) := Put(q, num, body, crc);
            && p == Accepted && Sane(q')
            && Get(q', crc, decodes).1 == Taken(body)
  {
    PutIsFifoIff(q, pending, 0, num, body, crc);
    FreeSpaceIsConserved(q, pending, 0, crc);
    PacketIsWellFormed(body, num, crc);
    ReadBack(q.data, q.alloc, Packet(body, num, crc));
    PacketAtHead(Put(q, num, body, crc).0, Packet(body, num, crc), crc, decodes);
  }

  /** A well-formed packet at `exe_index` is what `get` finds, whatever else is in memory. */
  lemma PacketAtHead(q: QState, p: seq<byte>, crc: Crc, decodes: seq<byte> -> bool)
    requires q.Shaped() && WellFormed(p, crc) && |p| <= |q.data| && ReadAt(q.data, q.exe, |p|) == p
    requires q.allocCount != q.exeCount && q.exeCount + 1 < WORD_LIMIT
    ensures Sane(q) && Get(q, crc, decodes).1 == Taken(Body(p))
  {
    var h := ReadAt(q.data, q.exe, FRAME_HEADER_SIZE);
    assert h == p[..FRAME_HEADER_SIZE];
    assert h[2..6] == p[2..6] && h[6..14] == p[6..14] && h[14..18] == p[14..18];
  }

  /** A body that fills the ring and any second one: both are accepted, and `get` returns the second. */
  lemma TwoPutsLoseOne(size: nat, a: seq<byte>, b: seq<byte>, crc: Crc, decodes: seq<byte> -> bool)
    requires MIN_Q_SIZE <= size <= WORD_LIMIT
    requires |a| == size - Q_CONTROL_SIZE - FRAME_HEADER_SIZE && |b| <= |a|
    ensures var (q1, num1, p1) := Put(Init(size), 0, a, crc);
            var (q2, num2, p2) := Put(q1, num1, b, crc);
            && Sane(Init(size)) && Sane(q1) && Sane(q2)
            && p1 == p2 == Accepted
            && Get(q2, crc, decodes).1 == Taken(b)
  {
    var q0 := Init(size);
    InitRepresents(size, crc);
    HeadOfRing(q0, [], 0, crc);
    assert Bodies([]) == [];
    PutIsFifoIff(q0, [], 0, 0, a, crc);
    var q1, pending := Put(q0, 0, a, crc).0, [Packet(a, 0, crc)];
    assert [] + pending == pending;
    BodiesAppend([], 0, a, crc);
    assert Bodies(pending) == [a];
    assert Used([a]) == FRAME_HEADER_SIZE + |a|;
    HeadOfRing(q1, pending, 0, crc);
    OverfullPutServesNewest(q1, pending, 1, b, crc, decodes);
  }
}
