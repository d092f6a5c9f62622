/** How a worker's `get` polls its queues and how `emit` fans out, on the states of the queues. */
module Delivery {
  import opened Bytes
  import opened Results
  import opened Ring
  import opened DataFrames
  import opened MemQueues
  import RingIndex
  import RingRuns

  // ---------- polling ----------

  /** What one `get` on one queue came to. */
  datatype Outcome = Silent | Raised(error: Error) | Served(fields: seq<DataField>)

  function OutcomeOf(q: QState, crc: Crc): Outcome
    requires q.Shaped() && Sane(q)
  {
    match Get(q, crc, Decodes).1
    case Nothing => Silent
    case Broken(f) => Raised(ErrorOf(f))
    case Taken(body) =>
      match DecodeFrame(body)
      case Err(e) => Raised(e)
      case Ok(fields) => Served(fields)
  }

  predicate Pollable(qs: seq<QState>) {
    forall i :: 0 <= i < |qs| ==> qs[i].Shaped() && Sane(qs[i])
  }

  function Outcomes(qs: seq<QState>, crc: Crc): (r: seq<Outcome>)
    requires Pollable(qs)
    ensures |r| == |qs|
    ensures forall i :: 0 <= i < |qs| ==> r[i] == OutcomeOf(qs[i], crc)
  {
    seq(|qs|, i requires 0 <= i < |qs| => OutcomeOf(qs[i], crc))
  }

  /** The queue that ends the round which is at its `i`-th turn, if any does. */
  function FirstToAnswer(outs: seq<Outcome>, next: nat, i: nat): (r: Option<nat>)
    ensures r.Some? ==> r.value < |outs| && outs[r.value] != Silent
    decreases |outs| - i
  {
    if i >= |outs| then None
    else if outs[(next + i) % |outs|] != Silent then Some((next + i) % |outs|)
    else FirstToAnswer(outs, next, i + 1)
  }

  /** Some turn of a round of `n` comes to queue `j`. */
  lemma TurnOf(next: nat, n: nat, j: nat) returns (i: nat)
    requires j < n
    ensures i < n && (next + i) % n == j
  {
    var d, r := next / n, next % n;
    assert next == d * n + r;
    if r <= j {
      i := j - r;
      RingIndex.ModUnique(next + i, d, j, n);
    } else {
      i := j + n - r;
      assert (d + 1) * n == d * n + n;
      RingIndex.ModUnique(next + i, d + 1, j, n);
    }
  }

  lemma {:induction false} NoAnswerMeansSilent(outs: seq<Outcome>, next: nat, i: nat, k: nat)
    requires FirstToAnswer(outs, next, i) == None && i <= k < |outs|
    ensures (next + k) % |outs| < |outs| && outs[(next + k) % |outs|] == Silent
    decreases k - i
  {
    if i < k {
      NoAnswerMeansSilent(outs, next, i + 1, k);
    }
  }

  /** A round finds nothing exactly when every queue has nothing, wherever it starts. */
  lemma NothingFoundIffAllSilent(outs: seq<Outcome>, next: nat)
    ensures FirstToAnswer(outs, next, 0) == None <==> forall j :: 0 <= j < |outs| ==> outs[j] == Silent
  {
    if FirstToAnswer(outs, next, 0) == None {
      forall j | 0 <= j < |outs|
        ensures outs[j] == Silent
      {
        var i := TurnOf(next, |outs|, j);
        NoAnswerMeansSilent(outs, next, 0, i);
      }
    }
  }

  /** With one consumer: a round finds nothing exactly when all the queues are empty. */
  lemma NothingFoundIffAllEmpty(qs: seq<QState>, held: seq<seq<seq<byte>>>, next: nat, crc: Crc)
    requires |held| == |qs| && forall i :: 0 <= i < |qs| ==> Represents(qs[i], held[i], 0, crc)
    ensures Pollable(qs)
    ensures FirstToAnswer(Outcomes(qs, crc), next, 0) == None <==> forall i :: 0 <= i < |qs| ==> |held[i]| == 0
  {
    forall i | 0 <= i < |qs|
      ensures qs[i].Shaped() && Sane(qs[i]) && (OutcomeOf(qs[i], crc) == Silent <==> |held[i]| == 0)
    {
      RingRuns.GetIsFifo(qs[i], held[i], 0, crc, Decodes);
    }
    NothingFoundIffAllSilent(Outcomes(qs, crc), next);
  }

  function AfterGet(q: QState, crc: Crc): QState
    requires q.Shaped() && Sane(q)
  {
    Get(q, crc, Decodes).0
  }

  /** What a round comes to, and the queues behind it: only the one that answers changes. */
  function RoundOutcome(outs: seq<Outcome>, next: nat): Outcome {
    var first := FirstToAnswer(outs, next, 0);
    if first.None? then Silent else outs[first.value]
  }

  function AfterRound(qs: seq<QState>, next: nat, crc: Crc): (r: seq<QState>)
    requires Pollable(qs)
    ensures |r| == |qs|
  {
    var first := FirstToAnswer(Outcomes(qs, crc), next, 0);
    if first.None? then qs else qs[first.value := AfterGet(qs[first.value], crc)]
  }

  /** A queue with nothing to say is left as it is. */
  lemma SilentChangesNothing(q: QState, crc: Crc)
    requires q.Shaped() && Sane(q) && OutcomeOf(q, crc) == Silent
    ensures AfterGet(q, crc) == q
  {
  }

  /** The turn of queue `j`: it ends the round, or nothing has changed and the next one follows. */
  lemma TurnOfRound(qs: seq<QState>, next: nat, i: nat, j: nat, crc: Crc)
    requires Pollable(qs) && i < |qs| && j == (next + i) % |qs| && j < |qs|
    requires FirstToAnswer(Outcomes(qs, crc), next, 0) == FirstToAnswer(Outcomes(qs, crc), next, i)
    ensures var out, after := OutcomeOf(qs[j], crc), qs[j := AfterGet(qs[j], crc)];
            && (out != Silent ==> after == AfterRound(qs, next, crc) && out == RoundOutcome(Outcomes(qs, crc), next))
            && (out == Silent ==>
                  && after == qs
                  && FirstToAnswer(Outcomes(qs, crc), next, 0) == FirstToAnswer(Outcomes(qs, crc), next, i + 1))
  {
    if OutcomeOf(qs[j], crc) == Silent {
      SilentChangesNothing(qs[j], crc);
    }
  }

  /** A run of `get` calls: `rounds[a]` is what the queues hold for call `a`, and
      only a frame moves the start of the next round. */
  function Polls(rounds: seq<seq<Outcome>>, next: nat): (r: seq<Option<nat>>)
    ensures |r| == |rounds|
  {
    if |rounds| == 0 then [] else
    var first := FirstToAnswer(rounds[0], next, 0);
    [first] + Polls(rounds[1..], NextStart(rounds[0], next))
  }

  /** `consumer_next_q_index` after a call. */
  function NextStart(outs: seq<Outcome>, next: nat): (r: nat)
    ensures r == if RoundOutcome(outs, next).Served? then next + 1 else next
  {
    var first := FirstToAnswer(outs, next, 0);
    if first.Some? && outs[first.value].Served? then next + 1 else next
  }

  /** How many of the calls return a frame. */
  function ServedCalls(rounds: seq<seq<Outcome>>, next: nat): nat {
    if |rounds| == 0 then 0
    else (if RoundOutcome(rounds[0], next).Served? then 1 else 0)
         + ServedCalls(rounds[1..], NextStart(rounds[0], next))
  }

  /** `n` queues of which queue `j` has a frame. */
  predicate HasFrame(outs: seq<Outcome>, n: nat, j: nat) {
    |outs| == n && j < n && outs[j].Served?
  }

  /** Queue `j` is `i` places behind the start: it is served once `i` other calls were. */
  lemma {:induction false} ServedInTurn(rounds: seq<seq<Outcome>>, n: nat, next: nat, j: nat, i: nat)
    requires forall b :: 0 <= b < |rounds| ==> HasFrame(rounds[b], n, j)
    requires n > 0 && (next + i) % n == j && ServedCalls(rounds, next) > i
    ensures Some(j) in Polls(rounds, next)
    decreases |rounds|
  {
    assert HasFrame(rounds[0], n, j);
    if i == 0 {
      assert FirstToAnswer(rounds[0], next, 0) == Some(j);
      assert Polls(rounds, next)[0] == Some(j);
    } else {
      var served := RoundOutcome(rounds[0], next).Served?;
      ServedInTurn(rounds[1..], n, NextStart(rounds[0], next), j, if served then i - 1 else i);
    }
  }

  /** Bounded bypass: whatever the other queues hold, raise, or have happen to them, a
      queue that has a frame at each call is served within `n` calls that return a frame. */
  lemma ServedWithinOneRound(rounds: seq<seq<Outcome>>, n: nat, next: nat, j: nat)
    requires j < n && forall b :: 0 <= b < |rounds| ==> HasFrame(rounds[b], n, j)
    requires ServedCalls(rounds, next) >= n
    ensures Some(j) in Polls(rounds, next)
  {
    var i := TurnOf(next, n, j);
    ServedInTurn(rounds, n, next, j, i);
  }

  /** When no queue raises every call returns a frame, so `n` calls are enough. */
  lemma {:induction false} AllCallsServe(rounds: seq<seq<Outcome>>, n: nat, next: nat, j: nat)
    requires forall b :: 0 <= b < |rounds| ==> HasFrame(rounds[b], n, j)
    requires forall b, k :: 0 <= b < |rounds| && 0 <= k < |rounds[b]| ==> !rounds[b][k].Raised?
    ensures ServedCalls(rounds, next) == |rounds|
    decreases |rounds|
  {
    if |rounds| > 0 {
      assert HasFrame(rounds[0], n, j);
      NothingFoundIffAllSilent(rounds[0], next);
      AllCallsServe(rounds[1..], n, NextStart(rounds[0], next), j);
    }
  }

  // ---------- fan-out ----------

  /** A queue and the frame counter of the process that puts on it. */
  datatype Feed = Feed(q: QState, num: nat)

  predicate AllShaped(feeds: seq<Feed>) {
    forall i :: 0 <= i < |feeds| ==> feeds[i].q.Shaped()
  }

  function Fed(f: Feed, encoded: Result<seq<byte>>, crc: Crc): (r: (Feed, Result<bool>))
    requires f.q.Shaped()
    ensures r.0.q.Shaped()
  {
    var (q', num', answer) := Enqueue(f.q, f.num, encoded, crc);
    (Feed(q', num'), answer)
  }

  /** What each queue would answer. */
  function Answers(feeds: seq<Feed>, encoded: Result<seq<byte>>, crc: Crc): (r: seq<Result<bool>>)
    requires AllShaped(feeds)
    ensures |r| == |feeds|
    ensures forall i :: 0 <= i < |feeds| ==> r[i] == Fed(feeds[i], encoded, crc).1
  {
    seq(|feeds|, i requires 0 <= i < |feeds| => Fed(feeds[i], encoded, crc).1)
  }

  /** How many queues, from the first on, accept the frame before one does not. */
  function Reached(answers: seq<Result<bool>>): (k: nat)
    ensures k <= |answers|
    ensures forall i :: 0 <= i < k ==> answers[i] == Ok(true)
    ensures k < |answers| ==> answers[k] != Ok(true)
  {
    if |answers| == 0 || answers[0] != Ok(true) then 0 else 1 + Reached(answers[1..])
  }

  /** The queues after `turns` turns of a fan-out: the frame went to those that accept, from
      the first on, and the first that does not was the last to be asked. */
  function FannedOut(feeds: seq<Feed>, encoded: Result<seq<byte>>, crc: Crc, turns: nat): (r: seq<Feed>)
    requires AllShaped(feeds)
    ensures |r| == |feeds| && AllShaped(r)
  {
    var k := Reached(Answers(feeds, encoded, crc));
    seq(|feeds|, i requires 0 <= i < |feeds| =>
      if i < turns && i <= k then Fed(feeds[i], encoded, crc).0 else feeds[i])
  }

  /** What the loop has come to after `turns` turns: true, or what the first queue that did not accept said. */
  function AnswerAfter(answers: seq<Result<bool>>, turns: nat): (r: Result<bool>)
    ensures r == Ok(true) <==> turns <= Reached(answers) || Reached(answers) == |answers|
  {
    var k := Reached(answers);
    if turns <= k || k == |answers| then Ok(true) else answers[k]
  }

  /** A fan-out succeeds exactly when it reaches every queue. */
  function FanOutAnswer(answers: seq<Result<bool>>): Result<bool> {
    AnswerAfter(answers, |answers|)
  }

  /** One turn: a queue that accepts extends the prefix, the first that does not ends it. */
  lemma FanOutTurn(feeds: seq<Feed>, encoded: Result<seq<byte>>, crc: Crc, i: nat)
    requires AllShaped(feeds) && i < |feeds|
    ensures var answers := Answers(feeds, encoded, crc);
            var before, after := FannedOut(feeds, encoded, crc, i), FannedOut(feeds, encoded, crc, i + 1);
            && before[i] == feeds[i]
            && (AnswerAfter(answers, i) == Ok(true) ==>
                  after == before[i := Fed(feeds[i], encoded, crc).0] && AnswerAfter(answers, i + 1) == answers[i])
            && (AnswerAfter(answers, i) != Ok(true) ==>
                  after == before && AnswerAfter(answers, i + 1) == AnswerAfter(answers, i))
  {
  }

  /** Behind the prefix that accepted nothing changes, and the queue that ended it
      changes only if it raised because its counter had come to its end. */
  lemma BehindThePrefix(feeds: seq<Feed>, encoded: Result<seq<byte>>, crc: Crc, i: nat)
    requires AllShaped(feeds) && i < |feeds|
    ensures var answers, after := Answers(feeds, encoded, crc), FannedOut(feeds, encoded, crc, |feeds|);
            && (i < Reached(answers) ==> answers[i] == Ok(true) && after[i] == Fed(feeds[i], encoded, crc).0)
            && (i >= Reached(answers) && after[i] != feeds[i] ==>
                  i == Reached(answers) && answers[i] == Err(OverflowError) && feeds[i].q.allocCount + 1 >= WORD_LIMIT)
  {
  }

  /** Output queues, the sink if there is one, and `processed_counter`. */
  datatype Outlet = Outlet(feeds: seq<Feed>, sink: Option<Feed>, processed: nat) {
    predicate Shaped() {
      AllShaped(feeds) && (sink.Some? ==> sink.value.q.Shaped())
    }
  }

  /** `emit` of an encoded frame: an attempt on output queues is counted whatever comes
      of it, a frame for the sink only if it is accepted. */
  function Emitted(o: Outlet, encoded: Result<seq<byte>>, crc: Crc): (r: (Outlet, Result<bool>))
    requires o.Shaped()
    ensures r.0.Shaped()
  {
    if |o.feeds| > 0 then
      (o.(feeds := FannedOut(o.feeds, encoded, crc, |o.feeds|), processed := o.processed + 1),
       FanOutAnswer(Answers(o.feeds, encoded, crc)))
    else if o.sink.Some? then
      var (sink, answer) := Fed(o.sink.value, encoded, crc);
      (o.(sink := Some(sink), processed := o.processed + if answer == Ok(true) then 1 else 0), answer)
    else (o, Ok(false))
  }

  lemma EmittedToAll(o: Outlet, encoded: Result<seq<byte>>, crc: Crc, o': Outlet, r: Result<bool>)
    requires o.Shaped() && |o.feeds| > 0 && o'.sink == o.sink && o'.processed == o.processed + 1
    requires o'.feeds == FannedOut(o.feeds, encoded, crc, |o.feeds|) && r == FanOutAnswer(Answers(o.feeds, encoded, crc))
    ensures (o', r) == Emitted(o, encoded, crc)
  {
  }

  lemma EmittedToSink(o: Outlet, encoded: Result<seq<byte>>, crc: Crc, o': Outlet, r: Result<bool>)
    requires o.Shaped() && o.feeds == o'.feeds == [] && o.sink.Some? && o'.sink.Some?
    requires (o'.sink.value, r) == Fed(o.sink.value, encoded, crc)
    requires o'.processed == o.processed + if r == Ok(true) then 1 else 0
    ensures (o', r) == Emitted(o, encoded, crc)
  {
  }

  /** Copies of the frame that attempts leave in queue `i`; `attempts[a]` is what
      each queue answers, or would have answered, to attempt `a`. */
  function Copies(attempts: seq<seq<Result<bool>>>, i: nat): nat {
    if |attempts| == 0 then 0
    else (if i < Reached(attempts[0]) then 1 else 0) + Copies(attempts[1..], i)
  }

  /** The attempts of a caller that emits the frame until `emit` returns true. */
  predicate UntilTrue(attempts: seq<seq<Result<bool>>>) {
    && |attempts| > 0
    && (forall a :: 0 <= a < |attempts| - 1 ==> FanOutAnswer(attempts[a]) != Ok(true))
    && FanOutAnswer(attempts[|attempts| - 1]) == Ok(true)
  }

  /** Retrying until success leaves at least as many copies in an earlier queue as
      in a later one, at least one in each, and exactly one in the last. */
  lemma {:induction false} RetryCopies(attempts: seq<seq<Result<bool>>>, n: nat, i: nat, j: nat)
    requires UntilTrue(attempts) && i <= j < n
    requires forall a :: 0 <= a < |attempts| ==> |attempts[a]| == n
    ensures Copies(attempts, n - 1) == 1
    ensures 1 <= Copies(attempts, j) <= Copies(attempts, i) <= |attempts|
    decreases |attempts|
  {
    var rest := attempts[1..];
    if |attempts| > 1 {
      assert forall a :: 0 <= a < |rest| ==> rest[a] == attempts[a + 1];
      assert FanOutAnswer(attempts[0]) != Ok(true);
      RetryCopies(rest, n, i, j);
    } else {
      assert Copies(rest, i) == Copies(rest, j) == Copies(rest, n - 1) == 0;
    }
  }

  /** A fan-out answers true exactly when it reached every queue. */
  lemma FanOutTrueIffAll(answers: seq<Result<bool>>)
    ensures FanOutAnswer(answers) == Ok(true) <==> forall i :: 0 <= i < |answers| ==> answers[i] == Ok(true)
  {
  }
}
