/**
 The micro-steps of one process, run without the other, amount to the one-call
 functions of module Ring, and a consumer left alone drains the queue.
 */
module Undisturbed {
  import opened Bytes
  import opened Ring
  import RingRuns
  import opened Interleaving

  function Times(t: Turn, m: nat): (r: seq<Turn>)
    ensures |r| == m
  {
    seq(m, _ => t)
  }

  /** The process that takes turn `t` stands between two calls. */
  predicate BetweenCalls(s: State, t: Turn) {
    if t.Produce? then s.w.WIdle? else s.r.RIdle? || s.r.RFailed?
  }

  /** `m` turns of a process are one call: after each of them but the last it is under way. */
  predicate OneCall(s: State, t: Turn, m: nat, crc: Crc)
    requires s.Shaped()
  {
    m > 0 && forall k :: 0 < k < m ==> !BetweenCalls(Run(s, Times(t, k), crc), t)
  }

  // ---------- turns of one process ----------

  predicate WorksFor(s: State, t: Turn, m: nat, s2: State, crc: Crc)
    requires s.Shaped()
    decreases m
  {
    if m == 0 then s == s2 else !BetweenCalls(s, t) && WorksFor(Step(s, t, crc), t, m - 1, s2, crc)
  }

  /** `m` turns take `s` to `s2`, and before each of them the call is under way.  The
      quantifier keeps the recursion folded where only the ends matter. */
  ghost predicate Works(s: State, t: Turn, m: nat, s2: State, crc: Crc) {
    s.Shaped() && forall n :: n == m ==> WorksFor(s, t, n, s2, crc)
  }

  lemma WorksForUnfolds(s: State, t: Turn, m: nat, s': State, s2: State, crc: Crc)
    requires s.Shaped() && m > 0 && s' == Step(s, t, crc) && !BetweenCalls(s, t) && WorksFor(s', t, m - 1, s2, crc)
    ensures WorksFor(s, t, m, s2, crc)
  {
  }

  lemma {:induction false} WorksForOn(s: State, t: Turn, m: nat, s1: State, k: nat, s2: State, crc: Crc)
    requires s.Shaped() && s1.Shaped() && WorksFor(s, t, m, s1, crc) && WorksFor(s1, t, k, s2, crc)
    ensures WorksFor(s, t, m + k, s2, crc)
    decreases m
  {
    if m > 0 {
      var s' := Step(s, t, crc);
      WorksForOn(s', t, m - 1, s1, k, s2, crc);
      WorksForUnfolds(s, t, m + k, s', s2, crc);
    }
  }

  lemma WorksOn(s: State, t: Turn, m: nat, s1: State, k: nat, s2: State, crc: Crc)
    requires Works(s, t, m, s1, crc) && Works(s1, t, k, s2, crc)
    ensures Works(s, t, m + k, s2, crc)
  {
    WorksForOn(s, t, m, s1, k, s2, crc);
  }

  lemma WorksNone(s: State, t: Turn, crc: Crc)
    requires s.Shaped()
    ensures Works(s, t, 0, s, crc)
  {
  }

  lemma WorksOne(s: State, t: Turn, crc: Crc)
    requires s.Shaped() && !BetweenCalls(s, t)
    ensures Works(s, t, 1, Step(s, t, crc), crc)
  {
    assert WorksFor(Step(s, t, crc), t, 0, Step(s, t, crc), crc);
  }

  /** One turn, and then more. */
  lemma WorksThen(s: State, t: Turn, m: nat, s2: State, crc: Crc)
    requires s.Shaped() && !BetweenCalls(s, t) && Works(Step(s, t, crc), t, m, s2, crc)
    ensures Works(s, t, m + 1, s2, crc)
  {
    assert WorksFor(Step(s, t, crc), t, m, s2, crc);
  }

  lemma OneTurn(s: State, t: Turn, m: nat, crc: Crc)
    requires s.Shaped()
    ensures Run(s, Times(t, m + 1), crc) == Run(Step(s, t, crc), Times(t, m), crc)
  {
    assert Times(t, m + 1)[1..] == Times(t, m);
  }

  lemma {:induction false} WorksIsRun(s: State, t: Turn, m: nat, s2: State, k: nat, crc: Crc)
    requires s.Shaped() && WorksFor(s, t, m, s2, crc) && k <= m
    ensures Run(s, Times(t, m), crc) == s2
    ensures k < m ==> !BetweenCalls(Run(s, Times(t, k), crc), t)
    decreases m
  {
    if m > 0 {
      OneTurn(s, t, m - 1, crc);
      WorksIsRun(Step(s, t, crc), t, m - 1, s2, if k == 0 then 0 else k - 1, crc);
      if k > 0 { OneTurn(s, t, k - 1, crc); }
    }
  }

  lemma CallAt(s: State, t: Turn, s1: State, m: nat, s2: State, k: nat, crc: Crc)
    requires s.Shaped() && s1 == Step(s, t, crc) && Works(s1, t, m, s2, crc) && k <= m
    ensures k < m ==> !BetweenCalls(Run(s, Times(t, k + 1), crc), t)
    ensures k == m ==> Run(s, Times(t, k + 1), crc) == s2
  {
    OneTurn(s, t, k, crc);
    assert WorksFor(s1, t, m, s2, crc);
    WorksIsRun(s1, t, m, s2, k, crc);
  }

  /** A turn that enters a call, and the turns that finish it. */
  lemma CallIsRun(s: State, t: Turn, m: nat, s2: State, crc: Crc)
    requires s.Shaped() && Works(Step(s, t, crc), t, m, s2, crc)
    ensures OneCall(s, t, m + 1, crc) && Run(s, Times(t, m + 1), crc) == s2
  {
    CallAt(s, t, Step(s, t, crc), m, s2, m, crc);
    forall k | 0 < k < m + 1
      ensures !BetweenCalls(Run(s, Times(t, k), crc), t)
    {
      CallAt(s, t, Step(s, t, crc), m, s2, k - 1, crc);
    }
  }

  // ---------- the writer ----------

  lemma WriteNext(data: seq<byte>, p: nat, bytes: seq<byte>, done: nat)
    requires p < |data| && done < |bytes| <= |data|
    ensures WriteAt(data, p, bytes[..done])[Fwd(p, done, |data|) := bytes[done]] == WriteAt(data, p, bytes[..done + 1])
  {
    forall i | 0 <= i < |data|
      ensures Fwd(p, done, |data|) == i <==> Dist(p, i, |data|) == done
    {
    }
  }

  lemma {:induction false} StoresWholePacket(s: State, data: seq<byte>, body: seq<byte>, crc: Crc)
    requires s.Shaped() && s.w.WStore? && s.w.done <= |s.w.packet| <= |data| == |s.q.data|
    requires s.q.data == WriteAt(data, s.q.alloc, s.w.packet[..s.w.done])
    ensures var p := s.w.packet;
            Works(s, Produce(body), |p| - s.w.done,
                  s.(q := s.q.(data := WriteAt(data, s.q.alloc, p)), w := WStore(p, |p|)), crc)
    decreases |s.w.packet| - s.w.done
  {
    var p, done := s.w.packet, s.w.done;
    if done == |p| {
      assert p[..done] == p;
      WorksNone(s, Produce(body), crc);
    } else {
      WriteNext(data, s.q.alloc, p, done);
      StoresWholePacket(WStep(s, body, crc), data, body, crc);
      WorksThen(s, Produce(body), |p| - done - 1,
                s.(q := s.q.(data := WriteAt(data, s.q.alloc, p)), w := WStore(p, |p|)), crc);
    }
  }

  /** `alloc_index` and `alloc_counter`. */
  lemma PublishAlone(s: State, body: seq<byte>, crc: Crc)
    requires s.Shaped() && s.w.WStore? && s.w.done == |s.w.packet| <= |s.q.data|
    ensures var p := s.w.packet;
            var q := s.q.(alloc := Fwd(s.q.alloc, |p|, |s.q.data|));
            var q' := if q.allocCount + 1 < WORD_LIMIT then q.(allocCount := q.allocCount + 1) else q;
            Works(s, Produce(body), 2, s.(q := q', w := WIdle, sent := s.sent + [p]), crc)
  {
    var s1 := WStep(s, body, crc);
    WorksOne(s1, Produce(body), crc);
    WorksThen(s, Produce(body), 1, WStep(s1, body, crc), crc);
  }

  /** From an admitted frame to the end of `put`. */
  lemma StoreAlone(s: State, p: seq<byte>, body: seq<byte>, crc: Crc)
    requires s.Shaped() && s.w == WStore(p, 0) && |p| <= |s.q.data|
    ensures var q := Push(s.q, p);
            var q' := if q.allocCount < WORD_LIMIT then q else q.(allocCount := s.q.allocCount);
            Works(s, Produce(body), |p| + 2, s.(q := q', w := WIdle, sent := s.sent + [p]), crc)
  {
    var s1 := s.(q := s.q.(data := WriteAt(s.q.data, s.q.alloc, p)), w := WStore(p, |p|));
    assert WriteAt(s.q.data, s.q.alloc, p[..0]) == s.q.data;
    StoresWholePacket(s, s.q.data, body, crc);
    PublishAlone(s1, body, crc);
    var q := Push(s.q, p);
    var q' := if q.allocCount < WORD_LIMIT then q else q.(allocCount := s.q.allocCount);
    WorksOn(s, Produce(body), |p|, s1, 2, s.(q := q', w := WIdle, sent := s.sent + [p]), crc);
  }

  /** The capacity test. */
  lemma CapacityAlone(s: State, body: seq<byte>, crc: Crc)
    requires s.Shaped() && s.w == WCapacity(body, s.q.exe)
    ensures s.q.OverCapacity() ==> Works(s, Produce(body), 1, s.(w := WIdle), crc)
    ensures !s.q.OverCapacity() ==> Works(s, Produce(body), 2, s.(w := WSpace(body, s.q.exe)), crc)
  {
    var s1 := WStep(s, body, crc);
    WorksOne(s, Produce(body), crc);
    if !s.q.OverCapacity() {
      WorksOne(s1, Produce(body), crc);
      WorksThen(s, Produce(body), 1, WStep(s1, body, crc), crc);
    }
  }

  /** The size test, and the rest of `put` when it succeeds. */
  lemma SpaceAlone(s: State, body: seq<byte>, crc: Crc) returns (m: nat)
    requires s.Shaped() && s.w == WSpace(body, s.q.exe) && !s.q.OverCapacity()
    ensures Works(s, Produce(body), m, AfterPut(s, body, crc), crc)
  {
    var s1 := WStep(s, body, crc);
    WorksOne(s, Produce(body), crc);
    m := 1;
    if s1.w.WStore? {
      StoreAlone(s1, s1.w.packet, body, crc);
      WorksOn(s, Produce(body), 1, s1, |s1.w.packet| + 2, AfterPut(s, body, crc), crc);
      m := 1 + |s1.w.packet| + 2;
    }
  }

  /** The state in which `put`, as one call, leaves queue and producer. */
  function AfterPut(s: State, body: seq<byte>, crc: Crc): State
    requires s.Shaped()
  {
    var (q', num', _) := Put(s.q, s.frameCounter, body, crc);
    s.(q := q', w := WIdle, frameCounter := num',
       sent := if num' == s.frameCounter then s.sent else s.sent + [Packet(body, s.frameCounter, crc)])
  }

  /** `put` running alone, from its first access to the one it returns after, is `Put`,
      whether it accepts, refuses or raises. */
  lemma PutAlone(s: State, body: seq<byte>, crc: Crc) returns (m: nat)
    requires s.Shaped() && s.w.WIdle?
    ensures OneCall(s, Produce(body), m, crc)
    ensures Run(s, Times(Produce(body), m), crc) == AfterPut(s, body, crc)
  {
    var t, s1 := Produce(body), WStep(s, body, crc);
    CapacityAlone(s1, body, crc);
    var k := 1;
    if !s.q.OverCapacity() {
      var s3 := s1.(w := WSpace(body, s.q.exe));
      var l := SpaceAlone(s3, body, crc);
      WorksOn(s1, t, 2, s3, l, AfterPut(s, body, crc), crc);
      k := 2 + l;
    }
    CallIsRun(s, t, k, AfterPut(s, body, crc), crc);
    m := k + 1;
  }

  // ---------- the reader ----------

  /** The header at `exe_index` copied; the body behind it copied. */
  function WithHeader(s: State): (s': State)
    requires s.Shaped()
    ensures s'.Shaped()
  {
    s.(r := RHeader(ReadAt(s.q.data, s.q.exe, FRAME_HEADER_SIZE)))
  }

  function WithBody(s: State): (s': State)
    requires s.Shaped() && s.r.RBody?
    ensures s'.Shaped()
  {
    s.(r := RBody(s.r.h, Body(ReadAt(s.q.data, s.q.exe, SizeOf(s.r.h)))))
  }

  lemma {:induction false} CopiesHeader(s: State, crc: Crc)
    requires s.Shaped() && s.r.RHeader? && s.r.h == ReadAt(s.q.data, s.q.exe, |s.r.h|)
    ensures Works(s, Consume, FRAME_HEADER_SIZE - |s.r.h|, WithHeader(s), crc)
    decreases FRAME_HEADER_SIZE - |s.r.h|
  {
    var k := |s.r.h|;
    if k < FRAME_HEADER_SIZE {
      assert s.r.h + [s.q.At(k)] == ReadAt(s.q.data, s.q.exe, k + 1);
      CopiesHeader(RStep(s, crc), crc);
      WorksThen(s, Consume, FRAME_HEADER_SIZE - k - 1, WithHeader(s), crc);
    } else {
      WorksNone(s, Consume, crc);
    }
  }

  lemma {:induction false} CopiesBody(s: State, crc: Crc)
    requires s.Shaped() && s.r.RBody?
    requires s.r.b == Body(ReadAt(s.q.data, s.q.exe, FRAME_HEADER_SIZE + |s.r.b|))
    ensures Works(s, Consume, SizeOf(s.r.h) - FRAME_HEADER_SIZE - |s.r.b|, WithBody(s), crc)
    decreases SizeOf(s.r.h) - |s.r.b|
  {
    var k := FRAME_HEADER_SIZE + |s.r.b|;
    if k < SizeOf(s.r.h) {
      assert s.r.b + [s.q.At(k)] == Body(ReadAt(s.q.data, s.q.exe, k + 1));
      CopiesBody(RStep(s, crc), crc);
      WorksThen(s, Consume, SizeOf(s.r.h) - k - 1, WithBody(s), crc);
    } else {
      WorksNone(s, Consume, crc);
    }
  }

  lemma {:induction false} ClearsFrame(s: State, data: seq<byte>, crc: Crc)
    requires s.Shaped() && s.r.RClear? && |data| == |s.q.data|
    requires s.q.data == WriteAt(data, s.q.exe, Zeros(s.r.done))
    ensures var n := SizeOf(s.r.h);
            Works(s, Consume, n - s.r.done,
                  s.(q := s.q.(data := WriteAt(data, s.q.exe, Zeros(n))), r := RClear(s.r.h, s.r.b, n)), crc)
    decreases SizeOf(s.r.h) - s.r.done
  {
    var n, done := SizeOf(s.r.h), s.r.done;
    if done < n {
      WriteNext(data, s.q.exe, Zeros(n), done);
      assert Zeros(n)[..done] == Zeros(done) && Zeros(n)[..done + 1] == Zeros(done + 1);
      ClearsFrame(RStep(s, crc), data, crc);
      WorksThen(s, Consume, n - done - 1,
                s.(q := s.q.(data := WriteAt(data, s.q.exe, Zeros(n))), r := RClear(s.r.h, s.r.b, n)), crc);
    } else {
      WorksNone(s, Consume, crc);
    }
  }

  /** `exe_index` moved, CRC compared, counter moved. */
  function Finished(s: State, crc: Crc): State
    requires s.Shaped() && s.r.RClear?
  {
    var s1 := s.(q := s.q.(exe := Fwd(s.q.exe, SizeOf(s.r.h), |s.q.data|)), taken := s.taken + 1);
    if s.r.h[14..18] != ToLE(crc(s.r.b), 4) then s1.(r := RFailed(Fault(BadChecksum)))
    else if s.q.exeCount + 1 >= WORD_LIMIT then s1.(r := RFailed(Fault(CountOverflow)))
    else s1.(q := s1.q.(exeCount := s.q.exeCount + 1), r := RIdle, received := s.received + [s.r.b])
  }

  lemma TailAlone(s: State, crc: Crc) returns (m: nat)
    requires s.Shaped() && s.r.RClear? && s.r.done == SizeOf(s.r.h)
    ensures Works(s, Consume, m, Finished(s, crc), crc)
  {
    var s1 := RStep(s, crc);
    var s2 := RStep(s1, crc);
    m := 0;
    if s2.r.RCount? {
      WorksOne(s2, Consume, crc);
      m := 1;
    } else {
      WorksNone(s2, Consume, crc);
    }
    WorksThen(s1, Consume, m, Finished(s, crc), crc);
    WorksThen(s, Consume, m + 1, Finished(s, crc), crc);
    m := m + 2;
  }

  /** From an accepted header: when the body is copied, and when the frame is cleared. */
  function Copied(s: State): (s': State)
    requires s.Shaped() && s.r.RBody?
    ensures s'.Shaped()
  {
    s.(r := RClear(s.r.h, Body(ReadAt(s.q.data, s.q.exe, SizeOf(s.r.h))), 0))
  }

  function Wiped(s: State): (s': State)
    requires s.Shaped() && s.r.RClear?
    ensures s'.Shaped()
  {
    var n := SizeOf(s.r.h);
    s.(q := s.q.(data := WriteAt(s.q.data, s.q.exe, Zeros(n))), r := RClear(s.r.h, s.r.b, n))
  }

  lemma BodyAlone(s: State, crc: Crc)
    requires s.Shaped() && s.r.RBody? && s.r.b == []
    ensures Works(s, Consume, SizeOf(s.r.h) - FRAME_HEADER_SIZE + 1, Copied(s), crc)
  {
    CopiesBody(s, crc);
    WorksOne(WithBody(s), Consume, crc);
    WorksOn(s, Consume, SizeOf(s.r.h) - FRAME_HEADER_SIZE, WithBody(s), 1, Copied(s), crc);
  }

  lemma ClearAlone(s: State, crc: Crc) returns (m: nat)
    requires s.Shaped() && s.r.RClear? && s.r.done == 0
    ensures Works(s, Consume, m, Finished(Wiped(s), crc), crc)
  {
    assert WriteAt(s.q.data, s.q.exe, Zeros(0)) == s.q.data;
    ClearsFrame(s, s.q.data, crc);
    var k := TailAlone(Wiped(s), crc);
    WorksOn(s, Consume, SizeOf(s.r.h), Wiped(s), k, Finished(Wiped(s), crc), crc);
    m := SizeOf(s.r.h) + k;
  }

  lemma TakeAlone(s: State, crc: Crc) returns (m: nat)
    requires s.Shaped() && s.r.RBody? && s.r.b == []
    ensures Works(s, Consume, m, Finished(Wiped(Copied(s)), crc), crc)
  {
    BodyAlone(s, crc);
    var k := ClearAlone(Copied(s), crc);
    WorksOn(s, Consume, SizeOf(s.r.h) - FRAME_HEADER_SIZE + 1, Copied(s), k, Finished(Wiped(Copied(s)), crc), crc);
    m := SizeOf(s.r.h) - FRAME_HEADER_SIZE + 1 + k;
  }

  lemma HeaderAlone(s: State, crc: Crc)
    requires s.Shaped() && s.r.RIdle? && s.q.allocCount != s.q.exeCount
    ensures Works(RStep(s, crc), Consume, FRAME_HEADER_SIZE + 1, RStep(WithHeader(s), crc), crc)
  {
    var s0 := s.(r := RHeader([]));
    CopiesHeader(s0, crc);
    WorksOne(WithHeader(s), Consume, crc);
    WorksOn(s0, Consume, FRAME_HEADER_SIZE, WithHeader(s), 1, RStep(WithHeader(s), crc), crc);
  }

  /** The state a finished `get` leaves agrees with the one-call function. */
  predicate AgreesWithGet(s: State, s': State, crc: Crc)
    requires s.Shaped() && Sane(s.q)
  {
    var (q', t) := Get(s.q, crc, _ => true);
    match t
    case Nothing => s' == s
    case Broken(f) => s'.r == RFailed(Fault(f)) && s'.q == q' && s'.received == s.received
    case Taken(b) => s' == s.(q := q', taken := s.taken + 1, received := s.received + [b])
  }

  lemma FinishedAgrees(s: State, crc: Crc)
    requires s.Shaped() && s.r.RIdle? && Sane(s.q) && s.q.allocCount != s.q.exeCount
    requires HeaderOk(ReadAt(s.q.data, s.q.exe, FRAME_HEADER_SIZE))
    ensures RStep(WithHeader(s), crc) == s.(r := RBody(WithHeader(s).r.h, []))
    ensures AgreesWithGet(s, Finished(Wiped(Copied(RStep(WithHeader(s), crc))), crc), crc)
  {
  }

  /** `get` running alone, from its pending check to the access it returns or raises
      after, is `Get` up to the decoding, which touches no shared memory. */
  lemma GetAlone(s: State, crc: Crc) returns (m: nat)
    requires s.Shaped() && s.r.RIdle? && Sane(s.q)
    ensures OneCall(s, Consume, m, crc)
    ensures AgreesWithGet(s, Run(s, Times(Consume, m), crc), crc)
  {
    if s.q.allocCount == s.q.exeCount {
      WorksNone(s, Consume, crc);
      CallIsRun(s, Consume, 0, s, crc);
      m := 1;
    } else {
      var s1 := RStep(WithHeader(s), crc);
      HeaderAlone(s, crc);
      if !HeaderOk(WithHeader(s).r.h) {
        CallIsRun(s, Consume, FRAME_HEADER_SIZE + 1, s1, crc);
        m := FRAME_HEADER_SIZE + 2;
      } else {
        FinishedAgrees(s, crc);
        m := AcceptedAlone(s, s1, crc);
      }
    }
  }

  lemma AcceptedAlone(s: State, s1: State, crc: Crc) returns (m: nat)
    requires s.Shaped() && s1.Shaped() && s1.r.RBody? && s1.r.b == []
    requires Works(RStep(s, crc), Consume, FRAME_HEADER_SIZE + 1, s1, crc)
    ensures OneCall(s, Consume, m, crc)
    ensures Run(s, Times(Consume, m), crc) == Finished(Wiped(Copied(s1)), crc)
  {
    var k := TakeAlone(s1, crc);
    WorksOn(RStep(s, crc), Consume, FRAME_HEADER_SIZE + 1, s1, k, Finished(Wiped(Copied(s1)), crc), crc);
    CallIsRun(s, Consume, FRAME_HEADER_SIZE + 1 + k, Finished(Wiped(Copied(s1)), crc), crc);
    m := FRAME_HEADER_SIZE + 1 + k + 1;
  }

  // ---------- draining ----------

  /** What is left of a call: the program point, and the bytes it has still to touch. */
  function Stage(r: Reader): nat {
    match r
    case RIdle => 6 case RHeader(_) => 5 case RBody(_, _) => 4 case RClear(_, _, _) => 3
    case RCheck(_, _) => 2 case RCount(_) => 1 case RFailed(_) => 0
  }

  function BytesLeft(s: State): nat
    requires s.Shaped()
  {
    match s.r
    case RHeader(h) => FRAME_HEADER_SIZE - |h|
    case RBody(h, b) => SizeOf(h) - |b|
    case RClear(h, _, done) => SizeOf(h) - done
    case _ => 0
  }

  /** A turn of the reader gets on with its call, or ends it with one frame more. */
  lemma ReaderGetsOn(s: State, crc: Crc)
    requires Inv(s, crc) && (s.r.RIdle? ==> s.q.allocCount != s.q.exeCount)
    ensures var s' := RStep(s, crc);
            && s'.sent == s.sent && s'.q.allocCount == s.q.allocCount
            && s'.q.exeCount >= s.q.exeCount
            && (s'.q.exeCount == s.q.exeCount ==>
                  Stage(s'.r) < Stage(s.r) || (Stage(s'.r) == Stage(s.r) && BytesLeft(s') < BytesLeft(s)))
  {
    if s.r.RHeader? && |s.r.h| == FRAME_HEADER_SIZE {
      HeaderOfPacket(s.r.h, s.sent[s.taken]);
    }
  }

  lemma CountsInOrder(s: State, crc: Crc)
    requires Inv(s, crc)
    ensures s.q.exeCount <= s.q.allocCount <= |s.sent|
    ensures s.r.RIdle? && s.q.allocCount == s.q.exeCount ==>
      s.received == RingRuns.Bodies(s.sent[..s.q.allocCount])
  {
  }

  /** Wherever the consumer stands, left alone it ends with every counted frame received. */
  lemma {:induction false} ConsumerDrains(s: State, crc: Crc) returns (m: nat)
    requires Inv(s, crc)
    ensures var s' := Run(s, Times(Consume, m), crc);
            s'.r.RIdle? && s'.sent == s.sent && s'.received == RingRuns.Bodies(s.sent[..s.q.allocCount])
    decreases s.q.allocCount - s.q.exeCount, Stage(s.r), BytesLeft(s)
  {
    CountsInOrder(s, crc);
    if s.r.RIdle? && s.q.allocCount == s.q.exeCount {
      m := 0;
    } else {
      ReaderKeepsInv(s, crc);
      ReaderGetsOn(s, crc);
      CountsInOrder(RStep(s, crc), crc);
      var k := ConsumerDrains(RStep(s, crc), crc);
      OneTurn(s, Consume, k, crc);
      m := k + 1;
    }
  }

  /** After any clean interleaving the consumer can still receive, in order and byte
      for byte, every frame whose `put` has counted it. */
  lemma EveryRunCanBeDrained(size: nat, turns: seq<Turn>, crc: Crc) returns (m: nat)
    requires MIN_Q_SIZE <= size <= WORD_LIMIT
    requires Clean(Start(size), turns, crc)
    ensures var s := Run(Start(size), turns, crc);
            && AllWellFormed(s.sent, crc)
            && s.q.allocCount <= |s.sent|
            && (!s.w.WCount? && |s.sent| < WORD_LIMIT ==> s.q.allocCount == |s.sent|)
            && Run(s, Times(Consume, m), crc).received == RingRuns.Bodies(s.sent[..s.q.allocCount])
  {
    StartInv(size, crc);
    RunKeepsInv(Start(size), turns, crc);
    var s := Run(Start(size), turns, crc);
    CountsInOrder(s, crc);
    m := ConsumerDrains(s, crc);
  }
}
