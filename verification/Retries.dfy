/**
 Emitting a frame until `emit` returns true, while consumers take from the queues:
 what the attempts leave in the queues, counted in the bytes of the rings.
 */
module Retries {
  import opened Bytes
  import opened Results
  import opened Ring
  import opened DataFrames
  import opened MemQueues
  import opened Delivery
  import RingRuns

  /** A queue with its producer's frame counter, and the bodies its consumer has taken so far. */
  datatype Line = Line(feed: Feed, taken: seq<seq<byte>>)

  /** One more attempt, or a `get` by the consumer of queue `i`. */
  datatype Move = Attempt | Consumed(i: nat)

  predicate Lined(lines: seq<Line>) {
    forall i :: 0 <= i < |lines| ==> lines[i].feed.q.Shaped()
  }

  function FeedsOf(lines: seq<Line>): (r: seq<Feed>)
    requires Lined(lines)
    ensures |r| == |lines| && AllShaped(r)
  {
    seq(|lines|, i requires 0 <= i < |lines| => lines[i].feed)
  }

  function AfterAttempt(lines: seq<Line>, encoded: Result<seq<byte>>, crc: Crc): (r: seq<Line>)
    requires Lined(lines)
    ensures |r| == |lines| && Lined(r)
  {
    var feeds := FannedOut(FeedsOf(lines), encoded, crc, |lines|);
    seq(|lines|, i requires 0 <= i < |lines| => lines[i].(feed := feeds[i]))
  }

  function TakenFrom(l: Line, crc: Crc): (r: Line)
    requires l.feed.q.Shaped()
    ensures r.feed.q.Shaped()
  {
    if !Sane(l.feed.q) then l else
    var (q', t) := Get(l.feed.q, crc, Decodes);
    Line(l.feed.(q := q'), if t.Taken? then l.taken + [t.body] else l.taken)
  }

  function After(lines: seq<Line>, m: Move, encoded: Result<seq<byte>>, crc: Crc): (r: seq<Line>)
    requires Lined(lines)
    ensures |r| == |lines| && Lined(r)
  {
    match m
    case Attempt => AfterAttempt(lines, encoded, crc)
    case Consumed(i) => if i < |lines| then lines[i := TakenFrom(lines[i], crc)] else lines
  }

  function AfterAll(lines: seq<Line>, moves: seq<Move>, encoded: Result<seq<byte>>, crc: Crc): (r: seq<Line>)
    requires Lined(lines)
    ensures |r| == |lines| && Lined(r)
    decreases |moves|
  {
    if |moves| == 0 then lines else AfterAll(After(lines, moves[0], encoded, crc), moves[1..], encoded, crc)
  }

  /** What the queues answered to each attempt. */
  function Attempts(lines: seq<Line>, moves: seq<Move>, encoded: Result<seq<byte>>, crc: Crc): seq<seq<Result<bool>>>
    requires Lined(lines)
    decreases |moves|
  {
    if |moves| == 0 then [] else
    (if moves[0].Attempt? then [Answers(FeedsOf(lines), encoded, crc)] else [])
      + Attempts(After(lines, moves[0], encoded, crc), moves[1..], encoded, crc)
  }

  /** No attempt meets queue `i` filled to the last byte or with its counters at their end. */
  predicate Clean(lines: seq<Line>, moves: seq<Move>, i: nat, encoded: Result<seq<byte>>, crc: Crc)
    requires Lined(lines) && i < |lines|
    decreases |moves|
  {
    |moves| > 0 ==>
      && (moves[0].Attempt? ==>
            var f := lines[i].feed;
            !(f.q.alloc == f.q.exe && f.q.allocCount != f.q.exeCount) && RingRuns.CountsLeft(f.q, f.num) > 0)
      && Clean(After(lines, moves[0], encoded, crc), moves[1..], i, encoded, crc)
  }

  /** Queue and consumer together hold exactly `bodies`, in order: first what was taken, then what is pending. */
  ghost predicate HoldsAll(l: Line, pending: seq<seq<byte>>, bodies: seq<seq<byte>>, crc: Crc) {
    && Represents(l.feed.q, pending, 0, crc)
    && (forall k :: 0 <= k < |pending| ==> Decodes(Body(pending[k])))
    && l.taken + RingRuns.Bodies(pending) == bodies
  }

  /** A queue that is reached holds the body once more; one that is not is as it was. */
  lemma AttemptAddsCopy(l: Line, pending: seq<seq<byte>>, bodies: seq<seq<byte>>, body: seq<byte>, crc: Crc)
    returns (pending': seq<seq<byte>>)
    requires HoldsAll(l, pending, bodies, crc) && Decodes(body)
    requires !(l.feed.q.alloc == l.feed.q.exe && l.feed.q.allocCount != l.feed.q.exeCount)
    requires RingRuns.CountsLeft(l.feed.q, l.feed.num) > 0
    ensures var (f, answer) := Fed(l.feed, Ok(body), crc);
            && (answer == Ok(true) ==> HoldsAll(l.(feed := f), pending', bodies + [body], crc))
            && (answer != Ok(true) ==> f == l.feed)
  {
    pending' := pending;
    RingRuns.FullIsVisible(l.feed.q, pending, crc);
    RingRuns.PutIsFifoIff(l.feed.q, pending, 0, l.feed.num, body, crc);
    if Put(l.feed.q, l.feed.num, body, crc).2 == Accepted {
      PacketIsWellFormed(body, l.feed.num, crc);
      RingRuns.BodiesAppend(pending, l.feed.num, body, crc);
      pending' := pending + [Packet(body, l.feed.num, crc)];
      assert l.taken + (RingRuns.Bodies(pending) + [body]) == (l.taken + RingRuns.Bodies(pending)) + [body];
    }
  }

  lemma FirstMoves(s: seq<seq<byte>>, t: seq<seq<byte>>)
    requires |t| > 0
    ensures (s + [t[0]]) + t[1..] == s + t
  {
  }

  lemma TakingMoves(l: Line, pending: seq<seq<byte>>, bodies: seq<seq<byte>>, crc: Crc)
    returns (pending': seq<seq<byte>>)
    requires HoldsAll(l, pending, bodies, crc)
    ensures HoldsAll(TakenFrom(l, crc), pending', bodies, crc)
  {
    pending' := pending;
    RingRuns.GetIsFifo(l.feed.q, pending, 0, crc, Decodes);
    if |pending| > 0 {
      RingRuns.BodiesTail(pending);
      pending' := pending[1..];
      FirstMoves(l.taken, RingRuns.Bodies(pending));
    }
  }

  function Repeat(body: seq<byte>, n: nat): (r: seq<seq<byte>>)
    ensures |r| == n && forall k :: 0 <= k < n ==> r[k] == body
  {
    seq(n, _ => body)
  }

  lemma RepeatTwice(s: seq<seq<byte>>, body: seq<byte>, m: nat, n: nat)
    ensures (s + Repeat(body, m)) + Repeat(body, n) == s + Repeat(body, m + n)
    ensures s + Repeat(body, 0) == s && s + Repeat(body, 1) == s + [body]
  {
    assert Repeat(body, m) + Repeat(body, n) == Repeat(body, m + n);
    assert Repeat(body, 1) == [body];
  }

  /** What one move does to queue `i`. */
  lemma MoveAddsCopy(lines: seq<Line>, m: Move, i: nat, pending: seq<seq<byte>>, bodies: seq<seq<byte>>,
      body: seq<byte>, crc: Crc) returns (pending': seq<seq<byte>>)
    requires Lined(lines) && i < |lines| && HoldsAll(lines[i], pending, bodies, crc) && Decodes(body)
    requires Clean(lines, [m], i, Ok(body), crc)
    ensures var reached := m.Attempt? && i < Reached(Answers(FeedsOf(lines), Ok(body), crc));
            HoldsAll(After(lines, m, Ok(body), crc)[i], pending', bodies + Repeat(body, if reached then 1 else 0), crc)
  {
    RepeatTwice(bodies, body, 0, 0);
    pending' := pending;
    match m
    case Attempt =>
      BehindThePrefix(FeedsOf(lines), Ok(body), crc, i);
      var p := AttemptAddsCopy(lines[i], pending, bodies, body, crc);
      if i < Reached(Answers(FeedsOf(lines), Ok(body), crc)) {
        pending' := p;
      }
    case Consumed(k) =>
      if k == i {
        pending' := TakingMoves(lines[i], pending, bodies, crc);
      }
  }

  /** Over any moves, queue `i` and its consumer end with what they had and, behind it,
      one copy for every attempt that reached the queue. */
  lemma {:induction false} CopiesAreInTheQueue(lines: seq<Line>, moves: seq<Move>, i: nat, pending: seq<seq<byte>>,
      bodies: seq<seq<byte>>, body: seq<byte>, crc: Crc) returns (pending': seq<seq<byte>>)
    requires Lined(lines) && i < |lines| && HoldsAll(lines[i], pending, bodies, crc) && Decodes(body)
    requires Clean(lines, moves, i, Ok(body), crc)
    ensures HoldsAll(AfterAll(lines, moves, Ok(body), crc)[i], pending',
                     bodies + Repeat(body, Copies(Attempts(lines, moves, Ok(body), crc), i)), crc)
    decreases |moves|
  {
    if |moves| == 0 {
      pending' := pending;
      RepeatTwice(bodies, body, 0, 0);
    } else {
      var m, answers := moves[0], Answers(FeedsOf(lines), Ok(body), crc);
      var reached := m.Attempt? && i < Reached(answers);
      var lines' := After(lines, m, Ok(body), crc);
      var rest := Attempts(lines', moves[1..], Ok(body), crc);
      var one := if reached then 1 else 0;
      var p := MoveAddsCopy(lines, m, i, pending, bodies, body, crc);
      pending' := CopiesAreInTheQueue(lines', moves[1..], i, p, bodies + Repeat(body, one), body, crc);
      CopiesSplit(answers, rest, m.Attempt?, i);
      RepeatTwice(bodies, body, one, Copies(rest, i));
    }
  }

  lemma CopiesSplit(answers: seq<Result<bool>>, rest: seq<seq<Result<bool>>>, attempt: bool, i: nat)
    ensures Copies((if attempt then [answers] else []) + rest, i)
         == (if attempt && i < Reached(answers) then 1 else 0) + Copies(rest, i)
  {
    assert ([answers] + rest)[1..] == rest;
    assert [] + rest == rest;
  }

  lemma {:induction false} AttemptsAreRounds(lines: seq<Line>, moves: seq<Move>, encoded: Result<seq<byte>>, crc: Crc)
    requires Lined(lines)
    ensures forall a :: 0 <= a < |Attempts(lines, moves, encoded, crc)| ==>
              |Attempts(lines, moves, encoded, crc)[a]| == |lines|
    decreases |moves|
  {
    if |moves| > 0 {
      AttemptsAreRounds(After(lines, moves[0], encoded, crc), moves[1..], encoded, crc);
    }
  }

  lemma EncodingDecodes(fields: Fields, body: seq<byte>)
    requires DistinctKeys(fields) && EncodeFrame(fields) == Ok(body)
    ensures Decodes(body)
  {
    FrameRoundTrip(fields);
  }

  /** A frame emitted until `emit` returns true, whatever the consumers take in between:
      queue `i` and its consumer have all they had and then copies of the frame, at least
      one, no fewer than any later queue, and exactly one in the last queue. */
  lemma RetriesLeaveCopies(lines: seq<Line>, moves: seq<Move>, i: nat, j: nat, pending: seq<seq<byte>>,
      bodies: seq<seq<byte>>, fields: Fields, body: seq<byte>, crc: Crc)
      returns (pending': seq<seq<byte>>, copies: nat)
    requires Lined(lines) && i <= j < |lines| && HoldsAll(lines[i], pending, bodies, crc)
    requires DistinctKeys(fields) && EncodeFrame(fields) == Ok(body)
    requires Clean(lines, moves, i, Ok(body), crc) && UntilTrue(Attempts(lines, moves, Ok(body), crc))
    ensures HoldsAll(AfterAll(lines, moves, Ok(body), crc)[i], pending', bodies + Repeat(body, copies), crc)
    ensures copies == Copies(Attempts(lines, moves, Ok(body), crc), i)
    ensures 1 <= Copies(Attempts(lines, moves, Ok(body), crc), j) <= copies
    ensures i == |lines| - 1 ==> copies == 1
  {
    EncodingDecodes(fields, body);
    CountsOfCopies(lines, moves, i, j, Ok(body), crc);
    copies := Copies(Attempts(lines, moves, Ok(body), crc), i);
    pending' := CopiesAreInTheQueue(lines, moves, i, pending, bodies, body, crc);
  }

  lemma CountsOfCopies(lines: seq<Line>, moves: seq<Move>, i: nat, j: nat, encoded: Result<seq<byte>>, crc: Crc)
    requires Lined(lines) && i <= j < |lines| && UntilTrue(Attempts(lines, moves, encoded, crc))
    ensures var attempts := Attempts(lines, moves, encoded, crc);
            && 1 <= Copies(attempts, j) <= Copies(attempts, i)
            && (i == |lines| - 1 ==> Copies(attempts, i) == 1)
  {
    AttemptsAreRounds(lines, moves, encoded, crc);
    RetryCopies(Attempts(lines, moves, encoded, crc), |lines|, i, j);
  }
}
