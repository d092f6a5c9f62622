/** Frames in, frames out: the codec and the ring together, over whole runs. */
module EndToEnd {
  import opened Bytes
  import opened Results
  import opened Codec
  import opened Ring
  import RingRuns
  import opened DataFrames
  import opened MemQueues

  datatype Op = PutFrame(fields: Fields) | GetFrame
  datatype Out = Answered(r: Result<bool>) | Returned(f: Result<Option<seq<DataField>>>)

  // ---------- the queue object, as its contracts describe it ----------

  function Call(q: QState, num: nat, op: Op, crc: Crc): (r: (QState, nat, Out))
    requires q.Shaped() && Sane(q)
    ensures r.0.Shaped()
  {
    match op
    case PutFrame(fields) =>
      var (q', num', answer) := Enqueue(q, num, EncodeFrame(fields), crc);
      (q', num', Answered(answer))
    case GetFrame =>
      var (q', t) := Get(q, crc, Decodes);
      (q', num, Returned(FrameOf(t)))
  }

  function FrameOf(t: Taking): Result<Option<seq<DataField>>> {
    match t
    case Nothing => Ok(None)
    case Broken(f) => Err(ErrorOf(f))
    case Taken(body) =>
      var fields :- DecodeFrame(body);
      Ok(Some(fields))
  }

  function Outs(q: QState, num: nat, ops: seq<Op>, crc: Crc): seq<Out>
    requires q.Shaped()
    decreases |ops|
  {
    if |ops| == 0 || !Sane(q) then [] else
    var (q', num', out) := Call(q, num, ops[0], crc);
    [out] + Outs(q', num', ops[1..], crc)
  }

  // ---------- a bounded FIFO of frames ----------

  function SpaceOf(frames: seq<Fields>): nat {
    if |frames| == 0 then 0 else FRAME_HEADER_SIZE + FrameSize(frames[0]) + SpaceOf(frames[1..])
  }

  predicate OverCapacity(ring: nat, space: nat) {
    10 * space > 9 * (ring + Q_CONTROL_SIZE)
  }

  /** What `put` promises to answer when the frames pending take up `space`. */
  function Promised(ring: nat, space: nat, fields: Fields): Result<bool> {
    if OverCapacity(ring, space) then Ok(false)
    else if EncodeFrame(fields).Err? then Err(EncodeFrame(fields).error)
    else Ok(space + FRAME_HEADER_SIZE + FrameSize(fields) <= ring)
  }

  function Promise(ring: nat, frames: seq<Fields>, op: Op): (seq<Fields>, Out) {
    match op
    case PutFrame(fields) =>
      var answer := Promised(ring, SpaceOf(frames), fields);
      (if answer == Ok(true) then frames + [fields] else frames, Answered(answer))
    case GetFrame =>
      if |frames| == 0 then (frames, Returned(Ok(None)))
      else (frames[1..], Returned(Ok(Some(TrimFields(frames[0])))))
  }

  function Promises(ring: nat, frames: seq<Fields>, ops: seq<Op>): seq<Out>
    decreases |ops|
  {
    if |ops| == 0 then [] else
    var (frames', out) := Promise(ring, frames, ops[0]);
    [out] + Promises(ring, frames', ops[1..])
  }

  // ---------- the calls that keep the promise ----------

  /** A full ring reports itself empty.  A frame that fits an empty one is then stored
      over the others; one that does not encode raises where nine tenths were to decline it. */
  predicate KeptWhenFull(ring: nat, fields: Fields) {
    if EncodeFrame(fields).Ok? then FRAME_HEADER_SIZE + FrameSize(fields) > ring else !OverCapacity(ring, ring)
  }

  /** `left` more frames can be counted. */
  predicate Sound(ring: nat, frames: seq<Fields>, left: nat, op: Op) {
    op.PutFrame? ==>
      if SpaceOf(frames) == ring then KeptWhenFull(ring, op.fields)
      else Promised(ring, SpaceOf(frames), op.fields) == Ok(true) ==> left > 0
  }

  function LeftAfter(ring: nat, frames: seq<Fields>, left: nat, op: Op): nat {
    if op.PutFrame? && Promised(ring, SpaceOf(frames), op.fields) == Ok(true) && left > 0 then left - 1 else left
  }

  predicate Clean(ring: nat, frames: seq<Fields>, left: nat, ops: seq<Op>)
    decreases |ops|
  {
    |ops| > 0 ==>
      && Sound(ring, frames, left, ops[0])
      && Clean(ring, Promise(ring, frames, ops[0]).0, LeftAfter(ring, frames, left, ops[0]), ops[1..])
  }

  /** Frames are dictionaries. */
  predicate Dictionaries(ops: seq<Op>) {
    forall i :: 0 <= i < |ops| && ops[i].PutFrame? ==> DistinctKeys(ops[i].fields)
  }

  // ---------- one call ----------

  /** The packets in the ring carry the encodings of the frames. */
  predicate Carries(pending: seq<seq<byte>>, frames: seq<Fields>) {
    && |pending| == |frames|
    && forall i :: 0 <= i < |frames| ==>
         && |pending[i]| >= FRAME_HEADER_SIZE
         && DistinctKeys(frames[i])
         && EncodeFrame(frames[i]) == Ok(Body(pending[i]))
  }

  /** The queue holds `frames`, and every frame that was removed was counted. */
  ghost predicate Holds(q: QState, pending: seq<seq<byte>>, frames: seq<Fields>, crc: Crc) {
    Represents(q, pending, 0, crc) && Carries(pending, frames)
  }

  lemma {:induction false} SpaceIsUsed(pending: seq<seq<byte>>, frames: seq<Fields>)
    requires Carries(pending, frames)
    ensures SpaceOf(frames) == RingRuns.Used(RingRuns.Bodies(pending))
  {
    if |frames| > 0 {
      FrameEncodesIff(frames[0]);
      RingRuns.BodiesTail(pending);
      SpaceIsUsed(pending[1..], frames[1..]);
    }
  }

  lemma CarriesOneMore(pending: seq<seq<byte>>, frames: seq<Fields>, num: Word, fields: Fields, crc: Crc)
    requires Carries(pending, frames) && DistinctKeys(fields)
    requires EncodeFrame(fields).Ok? && FRAME_HEADER_SIZE + |EncodeFrame(fields).value| < WORD_LIMIT
    ensures Carries(pending + [Packet(EncodeFrame(fields).value, num, crc)], frames + [fields])
  {
    PacketIsWellFormed(EncodeFrame(fields).value, num, crc);
  }

  /** What keeps the promise of a `put` is a queue that holds what was promised, with as many counts left. */
  ghost predicate PutKept(n: nat, frames: seq<Fields>, left: nat, fields: Fields, q': QState, num': nat,
      pending': seq<seq<byte>>, crc: Crc)
  {
    && Holds(q', pending', Promise(n, frames, PutFrame(fields)).0, crc) && |q'.data| == n
    && RingRuns.CountsLeft(q', num') == LeftAfter(n, frames, left, PutFrame(fields))
  }

  /** A frame that does not encode changes nothing; it raises unless it is declined first. */
  lemma UnencodableKeepsPromise(q: QState, pending: seq<seq<byte>>, frames: seq<Fields>, num: nat, fields: Fields,
      crc: Crc)
    requires Holds(q, pending, frames, crc) && EncodeFrame(fields).Err?
    ensures Enqueue(q, num, EncodeFrame(fields), crc).0 == q && Enqueue(q, num, EncodeFrame(fields), crc).1 == num
    ensures Sound(|q.data|, frames, RingRuns.CountsLeft(q, num), PutFrame(fields))
       <==> Enqueue(q, num, EncodeFrame(fields), crc).2 == Promised(|q.data|, SpaceOf(frames), fields)
  {
    SpaceIsUsed(pending, frames);
    RingRuns.FreeSpaceIsConserved(q, pending, 0, crc);
  }

  /** A frame that encodes is put as its bytes are. */
  lemma EncodedIsPut(q: QState, num: nat, body: seq<byte>, crc: Crc)
    requires q.Shaped()
    ensures var (q', num', p) := Put(q, num, body, crc); Enqueue(q, num, Ok(body), crc) == (q', num', AnswerOf(p))
  {
  }

  /** On frames the FIFO of bodies is the FIFO of frames. */
  lemma PromisedIsFifo(n: nat, pending: seq<seq<byte>>, frames: seq<Fields>, left: nat, fields: Fields)
    requires Carries(pending, frames) && EncodeFrame(fields).Ok?
    ensures var body, bodies := EncodeFrame(fields).value, RingRuns.Bodies(pending);
            && (RingRuns.HasRoom(n, bodies, body) <==> Promised(n, SpaceOf(frames), fields) == Ok(true))
            && (Promised(n, SpaceOf(frames), fields) != Ok(true) ==> Promised(n, SpaceOf(frames), fields) == Ok(false))
            && (RingRuns.Sound(n, bodies, left, RingRuns.OpPut(body)) <==> Sound(n, frames, left, PutFrame(fields)))
            && RingRuns.LeftAfter(n, bodies, left, RingRuns.OpPut(body)) == LeftAfter(n, frames, left, PutFrame(fields))
  {
    SpaceIsUsed(pending, frames);
    FrameEncodesIff(fields);
  }

  lemma EncodedKeepsPromise(q: QState, pending: seq<seq<byte>>, frames: seq<Fields>, num: nat, fields: Fields, crc: Crc)
    returns (pending': seq<seq<byte>>)
    requires Holds(q, pending, frames, crc) && DistinctKeys(fields) && EncodeFrame(fields).Ok?
    ensures var n, left := |q.data|, RingRuns.CountsLeft(q, num);
            var (q', num', r) := Enqueue(q, num, EncodeFrame(fields), crc);
            && (Sound(n, frames, left, PutFrame(fields)) <==> r == Promised(n, SpaceOf(frames), fields))
            && (Sound(n, frames, left, PutFrame(fields)) ==>
                  PutKept(n, frames, left, fields, q', num', pending', crc))
  {
    pending' := pending;
    var n, left, body := |q.data|, RingRuns.CountsLeft(q, num), EncodeFrame(fields).value;
    EncodedIsPut(q, num, body, crc);
    RingRuns.PutIsFifoIff(q, pending, 0, num, body, crc);
    PromisedIsFifo(n, pending, frames, left, fields);
    if Put(q, num, body, crc).2 == Accepted && Sound(n, frames, left, PutFrame(fields)) {
      CarriesOneMore(pending, frames, num, fields, crc);
      pending' := pending + [Packet(body, num, crc)];
    }
  }

  lemma PutKeepsPromise(q: QState, pending: seq<seq<byte>>, frames: seq<Fields>, num: nat, fields: Fields, crc: Crc)
    returns (pending': seq<seq<byte>>)
    requires Holds(q, pending, frames, crc) && DistinctKeys(fields)
    ensures var n, left := |q.data|, RingRuns.CountsLeft(q, num);
            var (q', num', r) := Enqueue(q, num, EncodeFrame(fields), crc);
            && (Sound(n, frames, left, PutFrame(fields)) <==> r == Promised(n, SpaceOf(frames), fields))
            && (Sound(n, frames, left, PutFrame(fields)) ==>
                  PutKept(n, frames, left, fields, q', num', pending', crc))
  {
    if EncodeFrame(fields).Ok? {
      pending' := EncodedKeepsPromise(q, pending, frames, num, fields, crc);
    } else {
      UnencodableKeepsPromise(q, pending, frames, num, fields, crc);
      pending' := pending;
    }
  }

  /** A pending frame decodes, so `get` never fails on it. */
  lemma GetKeepsPromise(q: QState, pending: seq<seq<byte>>, frames: seq<Fields>, crc: Crc)
    returns (pending': seq<seq<byte>>)
    requires Holds(q, pending, frames, crc)
    ensures Sane(q)
    ensures var (q', t) := Get(q, crc, Decodes);
            var (frames', promised) := Promise(|q.data|, frames, GetFrame);
            && Returned(FrameOf(t)) == promised
            && Holds(q', pending', frames', crc) && |q'.data| == |q.data| && q'.allocCount == q.allocCount
  {
    RingRuns.GetIsFifo(q, pending, 0, crc, Decodes);
    pending' := pending;
    if |pending| > 0 {
      FrameRoundTrip(frames[0]);
      pending' := pending[1..];
      assert Carries(pending', frames[1..]);
    }
  }

  /** Either call, exactly. */
  lemma CallKeepsPromiseIff(q: QState, pending: seq<seq<byte>>, frames: seq<Fields>, num: nat, op: Op, crc: Crc)
    returns (pending': seq<seq<byte>>)
    requires Holds(q, pending, frames, crc) && (op.PutFrame? ==> DistinctKeys(op.fields))
    ensures Sane(q)
    ensures var n, left := |q.data|, RingRuns.CountsLeft(q, num);
            var (q', num', out) := Call(q, num, op, crc);
            && (Sound(n, frames, left, op) <==> out == Promise(n, frames, op).1)
            && (Sound(n, frames, left, op) ==>
                  && Holds(q', pending', Promise(n, frames, op).0, crc) && |q'.data| == n
                  && RingRuns.CountsLeft(q', num') == LeftAfter(n, frames, left, op))
  {
    HeadOfRing(q, pending, 0, crc);
    match op
    case PutFrame(fields) => pending' := PutKeepsPromise(q, pending, frames, num, fields, crc);
    case GetFrame => pending' := GetKeepsPromise(q, pending, frames, crc);
  }

  // ---------- whole runs ----------

  /** Over every run, what `put` accepted comes out of `get` in order, with the same
      fields in the same order and every value at most trimmed, and every other call
      answers as promised, if and only if the run is clean. */
  lemma {:induction false} FramesComeThrough(q: QState, pending: seq<seq<byte>>, frames: seq<Fields>, num: nat,
      ops: seq<Op>, crc: Crc)
    requires Holds(q, pending, frames, crc) && Dictionaries(ops)
    ensures Outs(q, num, ops, crc) == Promises(|q.data|, frames, ops)
       <==> Clean(|q.data|, frames, RingRuns.CountsLeft(q, num), ops)
    decreases |ops|
  {
    if |ops| > 0 {
      var n := |q.data|;
      var pending' := CallKeepsPromiseIff(q, pending, frames, num, ops[0], crc);
      var (q', num', out) := Call(q, num, ops[0], crc);
      var (frames', promised) := Promise(n, frames, ops[0]);
      if out == promised {
        FramesComeThrough(q', pending', frames', num', ops[1..], crc);
      }
      RingRuns.SameTails(out, promised, Outs(q', num', ops[1..], crc), Promises(n, frames', ops[1..]));
    }
  }

  /** The execution id, the `last` mark and every other field arrive under their
      keys, trimmed; text and numbers are not touched by trimming. */
  lemma {:induction false} FieldsKeepTheirKeys(fs: Fields, key: seq<byte>)
    ensures Lookup(TrimFields(fs), key)
         == match Lookup(fs, key) case None => None case Some(v) => Some(Trim(v))
  {
    if |fs| > 0 && fs[0].key != key {
      FieldsKeepTheirKeys(fs[1..], key);
      assert TrimFields(fs)[1..] == TrimFields(fs[1..]);
    }
  }

  // ---------- which queues can be filled to the last byte ----------

  /** A frame that fills an empty queue: one nameless text, or no field at all. */
  function Filler(size: nat): (fs: Fields)
    requires size == MIN_Q_SIZE || size >= 107
  {
    if size == MIN_Q_SIZE then [] else [DataField([], Str(Zeros(size - 107)), STR)]
  }

  lemma FillerFills(size: nat)
    requires (size == MIN_Q_SIZE || size >= 107) && size <= WORD_LIMIT
    ensures DistinctKeys(Filler(size)) && EncodeFrame(Filler(size)).Ok?
    ensures FRAME_HEADER_SIZE + FrameSize(Filler(size)) == size - Q_CONTROL_SIZE
    ensures SpaceOf([Filler(size)]) == size - Q_CONTROL_SIZE
  {
    var fs := Filler(size);
    FrameEncodesIff(fs);
    if |fs| > 0 {
      assert FrameSize(fs[1..]) == 1;
      assert ValueSize(fs[0]) == size - 107;
    }
    assert SpaceOf([fs][1..]) == 0;
  }

  lemma {:induction false} FrameSizes(fs: Fields)
    ensures FrameSize(fs) == 1 || FrameSize(fs) >= 11
  {
    if |fs| > 0 {
      FrameSizes(fs[1..]);
    }
  }

  lemma SpaceSizes(frames: seq<Fields>)
    ensures SpaceOf(frames) == 0 || SpaceOf(frames) == 33 || SpaceOf(frames) >= 43
  {
    if |frames| > 0 {
      FrameSizes(frames[0]);
      if |frames| > 1 {
        FrameSizes(frames[1]);
      }
    }
  }

  /** Frames that can be put. */
  predicate Sendable(frames: seq<Fields>) {
    forall i :: 0 <= i < |frames| ==> DistinctKeys(frames[i]) && EncodeFrame(frames[i]).Ok?
  }

  /** Frames can fill the ring to the last byte at exactly these sizes. */
  lemma CanBeFilledIff(size: nat)
    requires MIN_Q_SIZE <= size <= WORD_LIMIT
    ensures (exists frames :: Sendable(frames) && SpaceOf(frames) == size - Q_CONTROL_SIZE)
       <==> size == MIN_Q_SIZE || size >= 107
  {
    if size == MIN_Q_SIZE || size >= 107 {
      FillerFills(size);
      assert Sendable([Filler(size)]);
    } else {
      forall frames
        ensures SpaceOf(frames) != size - Q_CONTROL_SIZE
      {
        SpaceSizes(frames);
      }
    }
  }

  /** At each of those sizes a frame is lost: two `put`s are accepted where the second
      was to be declined, and `get` returns the second frame. */
  lemma TwoFramesLoseOne(size: nat, fields: Fields, crc: Crc)
    requires (size == MIN_Q_SIZE || size >= 107) && size <= WORD_LIMIT
    requires DistinctKeys(fields) && EncodeFrame(fields).Ok? && FrameSize(fields) <= FrameSize(Filler(size))
    ensures var ops := [PutFrame(Filler(size)), PutFrame(fields), GetFrame];
            && Outs(Init(size), 0, ops, crc)
               == [Answered(Ok(true)), Answered(Ok(true)), Returned(Ok(Some(TrimFields(fields))))]
            && Promises(size - Q_CONTROL_SIZE, [], ops)
               == [Answered(Ok(true)), Answered(Ok(false)), Returned(Ok(Some(TrimFields(Filler(size)))))]
  {
    FillerFills(size);
    SecondComesOut(size, Filler(size), fields, crc);
    ThreePromises(size - Q_CONTROL_SIZE, Filler(size), fields);
  }

  lemma SecondComesOut(size: nat, f: Fields, g: Fields, crc: Crc)
    requires MIN_Q_SIZE <= size <= WORD_LIMIT && EncodeFrame(f).Ok? && EncodeFrame(g).Ok? && DistinctKeys(g)
    requires FRAME_HEADER_SIZE + FrameSize(f) == size - Q_CONTROL_SIZE && FrameSize(g) <= FrameSize(f)
    ensures Outs(Init(size), 0, [PutFrame(f), PutFrame(g), GetFrame], crc)
         == [Answered(Ok(true)), Answered(Ok(true)), Returned(Ok(Some(TrimFields(g))))]
  {
    FrameRoundTrip(g);
    var q1, num1, q2, num2 := TwoAccepted(size, f, g, crc);
    ThreeOuts(Init(size), 0, q1, num1, q2, num2, f, g, crc);
  }

  lemma TwoAccepted(size: nat, f: Fields, g: Fields, crc: Crc) returns (q1: QState, num1: nat, q2: QState, num2: nat)
    requires MIN_Q_SIZE <= size <= WORD_LIMIT && EncodeFrame(f).Ok? && EncodeFrame(g).Ok?
    requires FRAME_HEADER_SIZE + FrameSize(f) == size - Q_CONTROL_SIZE && FrameSize(g) <= FrameSize(f)
    ensures q1.Shaped() && q2.Shaped() && Sane(Init(size)) && Sane(q1) && Sane(q2)
    ensures Enqueue(Init(size), 0, EncodeFrame(f), crc) == (q1, num1, Ok(true))
    ensures Enqueue(q1, num1, EncodeFrame(g), crc) == (q2, num2, Ok(true))
    ensures Get(q2, crc, Decodes).1 == Taken(EncodeFrame(g).value)
  {
    var a, b := EncodeFrame(f).value, EncodeFrame(g).value;
    FrameEncodesIff(f);
    FrameEncodesIff(g);
    RingRuns.TwoPutsLoseOne(size, a, b, crc, Decodes);
    EncodedIsPut(Init(size), 0, a, crc);
    q1, num1 := Put(Init(size), 0, a, crc).0, Put(Init(size), 0, a, crc).1;
    EncodedIsPut(q1, num1, b, crc);
    q2, num2 := Put(q1, num1, b, crc).0, Put(q1, num1, b, crc).1;
  }

  lemma ThreeOuts(q0: QState, num0: nat, q1: QState, num1: nat, q2: QState, num2: nat, f: Fields, g: Fields, crc: Crc)
    requires q0.Shaped() && q1.Shaped() && q2.Shaped() && Sane(q0) && Sane(q1) && Sane(q2)
    requires Enqueue(q0, num0, EncodeFrame(f), crc) == (q1, num1, Ok(true))
    requires Enqueue(q1, num1, EncodeFrame(g), crc) == (q2, num2, Ok(true))
    ensures Outs(q0, num0, [PutFrame(f), PutFrame(g), GetFrame], crc)
         == [Answered(Ok(true)), Answered(Ok(true)), Returned(FrameOf(Get(q2, crc, Decodes).1))]
  {
    assert [PutFrame(f), PutFrame(g), GetFrame][1..] == [PutFrame(g), GetFrame];
    assert [PutFrame(g), GetFrame][1..] == [GetFrame];
    assert Outs(q2, num2, [GetFrame], crc) == [Returned(FrameOf(Get(q2, crc, Decodes).1))];
    assert Outs(q1, num1, [PutFrame(g), GetFrame], crc)
        == [Answered(Ok(true))] + Outs(q2, num2, [GetFrame], crc);
  }

  lemma ThreePromises(ring: nat, f: Fields, g: Fields)
    requires EncodeFrame(f).Ok? && EncodeFrame(g).Ok? && FRAME_HEADER_SIZE + FrameSize(f) == ring
    ensures Promises(ring, [], [PutFrame(f), PutFrame(g), GetFrame])
         == [Answered(Ok(true)), Answered(Ok(false)), Returned(Ok(Some(TrimFields(f))))]
  {
    assert [PutFrame(f), PutFrame(g), GetFrame][1..] == [PutFrame(g), GetFrame];
    assert [PutFrame(g), GetFrame][1..] == [GetFrame];
    assert SpaceOf([f]) == ring + SpaceOf([f][1..]) == ring;
    assert [] + [f] == [f];
    assert Promises(ring, [f], [GetFrame]) == [Returned(Ok(Some(TrimFields(f))))];
    assert Promises(ring, [f], [PutFrame(g), GetFrame]) == [Answered(Ok(false))] + Promises(ring, [f], [GetFrame]);
  }

  // ---------- two objects on the same memory ----------

  /** A sound `put` on a queue that holds `frames`. */
  method PutOne(queue: MemQueue, df: DataFrame, nowMs: nat, ghost pending: seq<seq<byte>>, ghost frames: seq<Fields>)
    returns (r: Result<bool>, ghost pending': seq<seq<byte>>)
    requires queue.Legal() && df.Valid() && Holds(queue.View(), pending, frames, queue.crc)
    requires Sound(|queue.View().data|, frames, RingRuns.CountsLeft(queue.View(), queue.frameCounter), PutFrame(df.fields))
    modifies queue.buf, queue`frameCounter
    ensures queue.Legal() && df.fields == old(df.fields)
    ensures Answered(r) == Promise(|old(queue.View()).data|, frames, PutFrame(df.fields)).1
    ensures Holds(queue.View(), pending', Promise(|old(queue.View()).data|, frames, PutFrame(df.fields)).0, queue.crc)
  {
    pending' := PutKeepsPromise(queue.View(), pending, frames, queue.frameCounter, df.fields, queue.crc);
    r := queue.Put(df, nowMs);
  }

  /** A `get` on a queue that holds `frames`. */
  method GetOne(queue: MemQueue, nowMs: nat, ghost pending: seq<seq<byte>>, ghost frames: seq<Fields>)
    returns (r: Result<Option<DataFrame>>, ghost pending': seq<seq<byte>>)
    requires queue.Legal() && Holds(queue.View(), pending, frames, queue.crc)
    modifies queue.buf
    ensures queue.Legal()
    ensures |frames| == 0 ==> r == Ok(None) && Holds(queue.View(), pending', [], queue.crc)
    ensures |frames| > 0 ==>
      && r.Ok? && r.value.Some? && r.value.value.fields == TrimFields(frames[0])
      && Holds(queue.View(), pending', frames[1..], queue.crc)
  {
    pending' := GetKeepsPromise(queue.View(), pending, frames, queue.crc);
    r := queue.Get(nowMs);
  }

  /** A producer and a consumer that opened the same memory: what is put on an empty
      queue is what `get` returns, and the queue is empty again. */
  method PutThenGet(producer: MemQueue, consumer: MemQueue, df: DataFrame, nowMs: nat)
    returns (put: Result<bool>, got: Result<Option<DataFrame>>)
    requires producer.buf == consumer.buf && producer.crc == consumer.crc && producer.Legal() && consumer.Legal()
    requires Represents(producer.View(), [], 0, producer.crc) && df.Valid()
    requires RingRuns.CountsLeft(producer.View(), producer.frameCounter) > 0
    modifies producer.buf, producer`frameCounter
    ensures producer.Legal() && Represents(producer.View(), [], 0, producer.crc)
    ensures put == Promised(|old(producer.View()).data|, 0, old(df.fields))
    ensures put == Ok(true) ==>
      got.Ok? && got.value.Some? && got.value.value.fields == TrimFields(old(df.fields))
    ensures put != Ok(true) ==> got == Ok(None)
  {
    ghost var pending;
    put, pending := PutOne(producer, df, nowMs, [], []);
    assert consumer.View() == producer.View();
    got, pending := GetOne(consumer, nowMs, pending, if put == Ok(true) then [df.fields] else []);
    assert consumer.View() == producer.View() && pending == [];
  }
}
