/** The worker object: `get` polls its input queues in rotation, `emit` puts a frame on every output queue. */
module Workers {
  import opened Bytes
  import opened Results
  import opened Codec
  import opened Ring
  import opened DataFrames
  import opened MemQueues
  import opened Delivery
  import Dicts

  /** The `data` property of a frame: field "d", or the first field that is not reserved. */
  function DataOf(fields: seq<DataField>): Result<Value> {
    if Lookup(fields, KEY_D).Some? then Ok(Lookup(fields, KEY_D).value) else FirstPlain(fields)
  }

  function FirstPlain(fields: seq<DataField>): Result<Value> {
    if |fields| == 0 then Err(ValueError)
    else if Reserved(fields[0].key) then FirstPlain(fields[1..])
    else Ok(fields[0].value)
  }

  predicate Reserved(key: seq<byte>) {
    key in [KEY_D, KEY_PID, KEY_LAST]
  }

  lemma {:induction false} FirstPlainAt(fields: seq<DataField>, i: nat)
    requires i < |fields| && !Reserved(fields[i].key) && forall j :: 0 <= j < i ==> Reserved(fields[j].key)
    ensures FirstPlain(fields) == Ok(fields[i].value)
  {
    if i > 0 {
      FirstPlainAt(fields[1..], i - 1);
    }
  }

  lemma {:induction false} NonePlain(fields: seq<DataField>)
    requires forall j :: 0 <= j < |fields| ==> Reserved(fields[j].key)
    ensures FirstPlain(fields) == Err(ValueError)
  {
    if |fields| > 0 {
      NonePlain(fields[1..]);
    }
  }

  lemma {:induction false} LookupAt(fields: seq<DataField>, i: nat)
    requires DistinctKeys(fields) && i < |fields|
    ensures Lookup(fields, fields[i].key) == Some(fields[i].value)
  {
    if i > 0 {
      assert KeyOf(fields[0]) != KeyOf(fields[i]);
      LookupAt(fields[1..], i - 1);
    }
  }

  /** Field "d" is the data, wherever it stands. */
  lemma DataIsD(fields: seq<DataField>, i: nat)
    requires DistinctKeys(fields) && i < |fields| && fields[i].key == KEY_D
    ensures DataOf(fields) == Ok(fields[i].value)
  {
    LookupAt(fields, i);
  }

  /** Without one it is the first field under a plain key, and an error exactly if there is none. */
  lemma DataIsFirstPlain(fields: seq<DataField>, i: nat)
    requires forall j :: 0 <= j < |fields| ==> fields[j].key != KEY_D
    ensures i < |fields| && !Reserved(fields[i].key) && (forall j :: 0 <= j < i ==> Reserved(fields[j].key)) ==>
              DataOf(fields) == Ok(fields[i].value)
    ensures DataOf(fields) == Err(ValueError) <==> forall j :: 0 <= j < |fields| ==> Reserved(fields[j].key)
  {
    assert Lookup(fields, KEY_D).None?;
    if i < |fields| && !Reserved(fields[i].key) && forall j :: 0 <= j < i ==> Reserved(fields[j].key) {
      FirstPlainAt(fields, i);
    }
    if forall j :: 0 <= j < |fields| ==> Reserved(fields[j].key) {
      NonePlain(fields);
    } else {
      var k := FirstUnreserved(fields, 0);
      FirstPlainAt(fields, k);
    }
  }

  lemma FirstUnreserved(fields: seq<DataField>, lo: nat) returns (i: nat)
    requires lo <= |fields| && forall j :: 0 <= j < lo ==> Reserved(fields[j].key)
    requires exists j :: 0 <= j < |fields| && !Reserved(fields[j].key)
    ensures i < |fields| && !Reserved(fields[i].key) && forall j :: 0 <= j < i ==> Reserved(fields[j].key)
    decreases |fields| - lo
  {
    if lo < |fields| && Reserved(fields[lo].key) {
      i := FirstUnreserved(fields, lo + 1);
    } else {
      i := lo;
    }
  }

  /** The execution id `get` remembers of a frame; which values count as true is up to `truthy`. */
  function IdOf(fields: seq<DataField>, truthy: Value -> bool): Option<Value> {
    var id := Lookup(fields, KEY_PID);
    if id.Some? && truthy(id.value) then id else None
  }

  /** It is the value of field "pid", if there is one and it is a true one. */
  lemma IdIsPid(fields: seq<DataField>, truthy: Value -> bool, v: Value)
    requires DistinctKeys(fields)
    ensures IdOf(fields, truthy) == Some(v)
       <==> truthy(v) && exists i :: 0 <= i < |fields| && fields[i].key == KEY_PID && fields[i].value == v
  {
    if i :| 0 <= i < |fields| && fields[i].key == KEY_PID && fields[i].value == v {
      LookupAt(fields, i);
    }
  }

  /** The frame as it is emitted: the id of the frame being processed goes along. */
  function Stamped(fields: Fields, id: Option<Value>): (r: Fields)
    requires DistinctKeys(fields)
    ensures DistinctKeys(r)
  {
    if id.None? then fields else
    var f := DataField(KEY_PID, id.value, GetDataType(id.value));
    StoreKeepsFields(fields, f);
    Dicts.Store(KeyOf, fields, f)
  }

  /** With an id at hand that id is found under "pid" and under every other key what
      was there before; without one nothing is changed. */
  ghost predicate CarriesId(before: seq<DataField>, after: seq<DataField>, id: Option<Value>) {
    if id.Some?
    then Lookup(after, KEY_PID) == id && forall key :: key != KEY_PID ==> Lookup(after, key) == Lookup(before, key)
    else after == before
  }

  lemma StampedCarriesId(fields: Fields, id: Option<Value>)
    requires DistinctKeys(fields)
    ensures CarriesId(fields, Stamped(fields, id), id)
  {
    if id.Some? {
      var f := DataField(KEY_PID, id.value, GetDataType(id.value));
      LookupStored(fields, f, KEY_PID);
      forall key | key != KEY_PID
        ensures Lookup(Dicts.Store(KeyOf, fields, f), key) == Lookup(fields, key)
      {
        LookupStored(fields, f, key);
      }
    }
  }

  /** Separate queues. */
  ghost predicate Apart(qs: seq<MemQueue>) {
    forall i, j {:trigger qs[i].buf, qs[j].buf} ::
      0 <= i < |qs| && 0 <= j < |qs| && i != j ==> qs[i].buf != qs[j].buf
  }

  ghost function Buffers(qs: seq<MemQueue>): set<array<byte>> {
    set q | q in qs :: q.buf
  }

  ghost predicate ReadyTo(qs: seq<MemQueue>, crc: Crc, n: nat)
    requires n <= |qs|
    reads qs, Buffers(qs)
    decreases n
  {
    n == 0 || (qs[n - 1].Legal() && qs[n - 1].crc == crc && ReadyTo(qs, crc, n - 1))
  }

  /** Queues in good order, checked with the same CRC. */
  ghost predicate Ready(qs: seq<MemQueue>, crc: Crc)
    reads qs, Buffers(qs)
  {
    ReadyTo(qs, crc, |qs|)
  }

  lemma {:induction false} ReadyEach(qs: seq<MemQueue>, crc: Crc, n: nat)
    requires n <= |qs|
    ensures ReadyTo(qs, crc, n) <==> forall i :: 0 <= i < n ==> qs[i].Legal() && qs[i].crc == crc
    decreases n
  {
    if n > 0 {
      ReadyEach(qs, crc, n - 1);
    }
  }

  /** The states of the queues. */
  ghost function Views(qs: seq<MemQueue>, crc: Crc): (r: seq<QState>)
    requires Ready(qs, crc)
    reads qs, Buffers(qs)
    ensures |r| == |qs| && forall i :: 0 <= i < |r| ==> r[i].Shaped()
  {
    ReadyEach(qs, crc, |qs|);
    seq(|qs|, i requires 0 <= i < |qs| reads qs, Buffers(qs) requires qs[i].Legal() => qs[i].View())
  }

  ghost function FeedOf(q: MemQueue): (f: Feed)
    requires q.Legal()
    reads q, q.buf
    ensures f.q.Shaped()
  {
    Feed(q.View(), q.frameCounter)
  }

  /** The states of the queues, each with its producer's frame counter. */
  ghost function Feeds(qs: seq<MemQueue>, crc: Crc): (r: seq<Feed>)
    requires Ready(qs, crc)
    reads qs, Buffers(qs)
    ensures |r| == |qs| && AllShaped(r)
  {
    ReadyEach(qs, crc, |qs|);
    seq(|qs|, i requires 0 <= i < |qs| reads qs, Buffers(qs) requires qs[i].Legal() => FeedOf(qs[i]))
  }

  /** A queue in good order whose state is `view`. */
  ghost predicate Shows(q: MemQueue, view: QState, crc: Crc)
    reads q, q.buf
  {
    q.Legal() && q.crc == crc && q.View() == view
  }

  lemma ViewsAre(qs: seq<MemQueue>, views: seq<QState>, crc: Crc)
    requires |views| == |qs| && forall i :: 0 <= i < |qs| ==> Shows(qs[i], views[i], crc)
    ensures Ready(qs, crc) && Views(qs, crc) == views
  {
    ReadyEach(qs, crc, |qs|);
  }

  lemma FeedsAre(qs: seq<MemQueue>, feeds: seq<Feed>, crc: Crc)
    requires |feeds| == |qs|
    requires forall i :: 0 <= i < |qs| ==> Shows(qs[i], feeds[i].q, crc) && qs[i].frameCounter == feeds[i].num
    ensures Ready(qs, crc) && Feeds(qs, crc) == feeds
  {
    ReadyEach(qs, crc, |qs|);
  }

  ghost predicate RepliesAs(r: Result<Option<DataFrame>>, out: Outcome)
    reads if r.Ok? && r.value.Some? then {r.value.value} else {}
  {
    match out
    case Silent => r == Ok(None)
    case Raised(e) => r == Err(e)
    case Served(fields) => r.Ok? && r.value.Some? && r.value.value.fields == fields
  }

  /** `await q.get()` on one of a worker's input queues. */
  method GetFrom(qs: seq<MemQueue>, j: nat, nowMs: nat, crc: Crc) returns (r: Result<Option<DataFrame>>)
    requires j < |qs| && Apart(qs) && Ready(qs, crc) && Sane(Views(qs, crc)[j])
    modifies qs[j].buf
    ensures Ready(qs, crc)
    ensures Views(qs, crc) == old(Views(qs, crc))[j := AfterGet(old(Views(qs, crc)[j]), crc)]
    ensures RepliesAs(r, OutcomeOf(old(Views(qs, crc)[j]), crc))
    ensures r.Ok? && r.value.Some? ==> fresh(r.value.value)
  {
    ghost var views := Views(qs, crc);
    ghost var views' := views[j := AfterGet(views[j], crc)];
    ReadyEach(qs, crc, |qs|);
    r := qs[j].Get(nowMs);
    forall i | 0 <= i < |qs|
      ensures Shows(qs[i], views'[i], crc)
    {
      if i != j { assert qs[i].buf != qs[j].buf; }
    }
    ViewsAre(qs, views', crc);
  }

  /** The `i`-th turn of a round: an answer ends it, otherwise nothing has changed. */
  method Turn(qs: seq<MemQueue>, next: nat, i: nat, nowMs: nat, crc: Crc) returns (r: Result<Option<DataFrame>>)
    requires Apart(qs) && Ready(qs, crc) && Pollable(Views(qs, crc)) && i < |qs|
    requires var outs := Outcomes(Views(qs, crc), crc); FirstToAnswer(outs, next, 0) == FirstToAnswer(outs, next, i)
    modifies Buffers(qs)
    ensures Ready(qs, crc)
    ensures r == Ok(None) ==>
      && Views(qs, crc) == old(Views(qs, crc))
      && var outs := Outcomes(old(Views(qs, crc)), crc); FirstToAnswer(outs, next, 0) == FirstToAnswer(outs, next, i + 1)
    ensures r != Ok(None) ==>
      && Views(qs, crc) == AfterRound(old(Views(qs, crc)), next, crc)
      && RepliesAs(r, RoundOutcome(Outcomes(old(Views(qs, crc)), crc), next))
    ensures r.Ok? && r.value.Some? ==> fresh(r.value.value)
  {
    var nextIndex := (next + i) % |qs|;
    TurnOfRound(Views(qs, crc), next, i, nextIndex, crc);
    r := GetFrom(qs, nextIndex, nowMs, crc);
  }

  /** One round over the input queues, up to the first that answers. */
  method Round(qs: seq<MemQueue>, next: nat, nowMs: nat, crc: Crc) returns (r: Result<Option<DataFrame>>)
    requires Apart(qs) && Ready(qs, crc) && Pollable(Views(qs, crc))
    modifies Buffers(qs)
    ensures Ready(qs, crc)
    ensures Views(qs, crc) == AfterRound(old(Views(qs, crc)), next, crc)
    ensures RepliesAs(r, RoundOutcome(Outcomes(old(Views(qs, crc)), crc), next))
    ensures r.Ok? && r.value.Some? ==> fresh(r.value.value)
  {
    ghost var views := Views(qs, crc);
    for i := 0 to |qs|
      invariant Ready(qs, crc) && Views(qs, crc) == views
      invariant FirstToAnswer(Outcomes(views, crc), next, 0) == FirstToAnswer(Outcomes(views, crc), next, i)
    {
      r := Turn(qs, next, i, nowMs, crc);
      if r != Ok(None) {
        return;
      }
    }
    r := Ok(None);
  }

  /** `_enqueue` on one of a worker's output queues. */
  method PutOn(qs: seq<MemQueue>, j: nat, frame: DataFrame, nowMs: nat, crc: Crc) returns (r: Result<bool>)
    requires j < |qs| && Apart(qs) && Ready(qs, crc) && frame.Valid()
    modifies qs[j].buf, qs[j]
    ensures frame.fields == old(frame.fields) && Ready(qs, crc)
    ensures var (feed, answer) := Fed(old(Feeds(qs, crc)[j]), EncodeFrame(frame.fields), crc);
            r == answer && Feeds(qs, crc) == old(Feeds(qs, crc))[j := feed]
  {
    ghost var feeds := Feeds(qs, crc);
    ghost var feeds' := feeds[j := Fed(feeds[j], EncodeFrame(frame.fields), crc).0];
    ReadyEach(qs, crc, |qs|);
    r := qs[j].Put(frame, nowMs);
    forall i | 0 <= i < |qs|
      ensures Shows(qs[i], feeds'[i].q, crc) && qs[i].frameCounter == feeds'[i].num
    {
      if i != j { assert qs[i].buf != qs[j].buf; }
    }
    FeedsAre(qs, feeds', crc);
  }

  /** The `i`-th turn of a fan-out in which every queue so far has accepted. */
  method FanOutNext(qs: seq<MemQueue>, i: nat, frame: DataFrame, nowMs: nat, crc: Crc, ghost feeds: seq<Feed>)
    returns (r: Result<bool>)
    requires i < |qs| && Apart(qs) && Ready(qs, crc) && frame.Valid() && AllShaped(feeds)
    requires Feeds(qs, crc) == FannedOut(feeds, EncodeFrame(frame.fields), crc, i)
    requires AnswerAfter(Answers(feeds, EncodeFrame(frame.fields), crc), i) == Ok(true)
    modifies qs[i].buf, qs[i]
    ensures frame.fields == old(frame.fields) && Ready(qs, crc)
    ensures Feeds(qs, crc) == FannedOut(feeds, EncodeFrame(frame.fields), crc, i + 1)
    ensures r == AnswerAfter(Answers(feeds, EncodeFrame(frame.fields), crc), i + 1)
  {
    FanOutTurn(feeds, EncodeFrame(frame.fields), crc, i);
    r := PutOn(qs, i, frame, nowMs, crc);
  }

  /** The fan-out loop: once one queue declines, or raises, the ones behind it are not asked. */
  method FanOut(qs: seq<MemQueue>, frame: DataFrame, nowMs: nat, crc: Crc) returns (r: Result<bool>)
    requires Apart(qs) && Ready(qs, crc) && frame.Valid()
    modifies Buffers(qs), qs
    ensures frame.fields == old(frame.fields) && Ready(qs, crc)
    ensures Feeds(qs, crc) == FannedOut(old(Feeds(qs, crc)), EncodeFrame(frame.fields), crc, |qs|)
    ensures r == FanOutAnswer(Answers(old(Feeds(qs, crc)), EncodeFrame(frame.fields), crc))
  {
    r := Ok(true);
    ghost var fields, feeds := frame.fields, Feeds(qs, crc);
    for i := 0 to |qs|
      invariant frame.fields == fields && Ready(qs, crc)
      invariant Feeds(qs, crc) == FannedOut(feeds, EncodeFrame(fields), crc, i)
      invariant r == AnswerAfter(Answers(feeds, EncodeFrame(fields), crc), i)
    {
      if r == Ok(true) {
        r := FanOutNext(qs, i, frame, nowMs, crc, feeds);
      } else {
        FanOutTurn(feeds, EncodeFrame(fields), crc, i);
      }
    }
  }

  class Worker {
    const crc: Crc
    const truthy: Value -> bool
    var inQs: seq<MemQueue>
    var outQs: seq<MemQueue>
    var sinkQ: MemQueue?
    var consumerNextQIndex: nat
    var processedCounter: nat
    var receivedCounter: nat
    var currentPipeExecutionId: Option<Value>

    constructor (crc: Crc, truthy: Value -> bool, inQs: seq<MemQueue>, outQs: seq<MemQueue>,
        sinkQ: MemQueue?)
      ensures this.crc == crc && this.truthy == truthy && this.inQs == inQs && this.outQs == outQs
      ensures this.sinkQ == sinkQ
      ensures consumerNextQIndex == 0 && processedCounter == 0 && receivedCounter == 0
      ensures currentPipeExecutionId == None
    {
      this.crc, this.truthy, this.inQs, this.outQs, this.sinkQ := crc, truthy, inQs, outQs, sinkQ;
      consumerNextQIndex, processedCounter, receivedCounter := 0, 0, 0;
      currentPipeExecutionId := None;
    }

    /** Only the queue that answers changes, and it changes as its own `get` says;
        a frame moves the start, and its id and its data are what the caller sees. */
    method Get(nowMs: nat) returns (r: Result<Option<Value>>)
      requires Apart(inQs) && Ready(inQs, crc) && Pollable(Views(inQs, crc))
      modifies `consumerNextQIndex, `receivedCounter, `currentPipeExecutionId, Buffers(inQs)
      ensures Ready(inQs, crc)
      ensures Views(inQs, crc) == AfterRound(old(Views(inQs, crc)), old(consumerNextQIndex), crc)
      ensures consumerNextQIndex == NextStart(Outcomes(old(Views(inQs, crc)), crc), old(consumerNextQIndex))
      ensures match RoundOutcome(Outcomes(old(Views(inQs, crc)), crc), old(consumerNextQIndex))
              case Silent => r == Ok(None) && SameBookkeeping()
              case Raised(e) => r == Err(e) && SameBookkeeping()
              case Served(fields) =>
                && consumerNextQIndex == old(consumerNextQIndex) + 1
                && receivedCounter == old(receivedCounter) + 1
                && currentPipeExecutionId == IdOf(fields, truthy)
                && r == match DataOf(fields) case Ok(v) => Ok(Some(v)) case Err(e) => Err(e)
    {
      var got := Round(inQs, consumerNextQIndex, nowMs, crc);
      if got.Err? {
        return Err(got.error);
      }
      if got.value.None? {
        return Ok(None);
      }
      r := Receive(got.value.value);
    }

    twostate predicate SameBookkeeping()
      reads this
    {
      && consumerNextQIndex == old(consumerNextQIndex) && receivedCounter == old(receivedCounter)
      && currentPipeExecutionId == old(currentPipeExecutionId)
    }

    /** A frame has come: the counters, the id, and its data. */
    method Receive(frame: DataFrame) returns (r: Result<Option<Value>>)
      modifies `consumerNextQIndex, `receivedCounter, `currentPipeExecutionId
      ensures consumerNextQIndex == old(consumerNextQIndex) + 1
      ensures receivedCounter == old(receivedCounter) + 1
      ensures currentPipeExecutionId == IdOf(frame.fields, truthy)
      ensures r == match DataOf(frame.fields) case Ok(v) => Ok(Some(v)) case Err(e) => Err(e)
    {
      consumerNextQIndex := consumerNextQIndex + 1;
      currentPipeExecutionId := IdOf(frame.fields, truthy);
      receivedCounter := receivedCounter + 1;
      var data := DataOf(frame.fields);
      r := if data.Ok? then Ok(Some(data.value)) else Err(data.error);
    }

    /** What `emit` works on: the output queues, the sink if there is one, and the counter. */
    ghost predicate CanEmit()
      reads this, outQs, Buffers(outQs), if sinkQ == null then {} else {sinkQ, sinkQ.buf}
    {
      && Apart(outQs) && Ready(outQs, crc)
      && (sinkQ != null ==> sinkQ.Legal() && sinkQ.crc == crc && sinkQ !in outQs && sinkQ.buf !in Buffers(outQs))
    }

    ghost function Outlets(): (o: Outlet)
      requires CanEmit()
      reads this, outQs, Buffers(outQs), if sinkQ == null then {} else {sinkQ, sinkQ.buf}
      ensures o.Shaped() && |o.feeds| == |outQs| && (o.sink.Some? <==> sinkQ != null)
      ensures o.processed == processedCounter
    {
      Outlet(Feeds(outQs, crc), if sinkQ == null then None else Some(FeedOf(sinkQ)), processedCounter)
    }

    /** The frame with the id of the frame being processed, if there is one. */
    method Stamp(frame: DataFrame)
      requires frame.Valid()
      modifies frame
      ensures frame.Valid() && frame.fields == Stamped(old(frame.fields), currentPipeExecutionId)
    {
      if currentPipeExecutionId.Some? {
        frame.SetPipeExeId(currentPipeExecutionId, []);
      }
    }

    /** `emit` with output queues. */
    method EmitToAll(frame: DataFrame, nowMs: nat) returns (r: Result<bool>)
      requires frame.Valid() && CanEmit() && |outQs| > 0
      modifies `processedCounter, frame, Buffers(outQs), outQs
      ensures CanEmit() && frame.Valid() && frame.fields == Stamped(old(frame.fields), currentPipeExecutionId)
      ensures (Outlets(), r) == Emitted(old(Outlets()), EncodeFrame(frame.fields), crc)
    {
      ghost var o := Outlets();
      Stamp(frame);
      processedCounter := processedCounter + 1;
      assert Feeds(outQs, crc) == o.feeds;
      r := FanOut(outQs, frame, nowMs, crc);
      assert sinkQ != null ==> sinkQ.Legal() && Some(FeedOf(sinkQ)) == o.sink;
      EmittedToAll(o, EncodeFrame(frame.fields), crc, Outlets(), r);
    }

    /** `emit` with a sink only. */
    method EmitToSink(frame: DataFrame, nowMs: nat) returns (r: Result<bool>)
      requires frame.Valid() && CanEmit() && |outQs| == 0 && sinkQ != null
      modifies `processedCounter, frame, sinkQ, sinkQ.buf
      ensures CanEmit() && frame.Valid() && frame.fields == Stamped(old(frame.fields), currentPipeExecutionId)
      ensures (Outlets(), r) == Emitted(old(Outlets()), EncodeFrame(frame.fields), crc)
    {
      ghost var o := Outlets();
      Stamp(frame);
      r := sinkQ.Put(frame, nowMs);
      if r == Ok(true) {
        processedCounter := processedCounter + 1;
      }
      EmittedToSink(o, EncodeFrame(frame.fields), crc, Outlets(), r);
    }

    /** `emit`: the stamped frame goes to every output queue in order until one declines;
        with no output queue, to the sink; with neither, it is dropped. */
    method Emit(frame: DataFrame, nowMs: nat) returns (r: Result<bool>)
      requires frame.Valid() && CanEmit()
      modifies `processedCounter, frame, Buffers(outQs), outQs
      modifies if sinkQ == null || |outQs| > 0 then {} else {sinkQ, sinkQ.buf}
      ensures CanEmit() && frame.Valid() && frame.fields == Stamped(old(frame.fields), currentPipeExecutionId)
      ensures CarriesId(old(frame.fields), frame.fields, currentPipeExecutionId)
      ensures (Outlets(), r) == Emitted(old(Outlets()), EncodeFrame(frame.fields), crc)
      ensures |outQs| > 0 ==> processedCounter == old(processedCounter) + 1
      ensures |outQs| == 0 && sinkQ != null ==> processedCounter == old(processedCounter) + if r == Ok(true) then 1 else 0
      ensures |outQs| == 0 && sinkQ == null ==> r == Ok(false) && processedCounter == old(processedCounter)
    {
      StampedCarriesId(frame.fields, currentPipeExecutionId);
      if |outQs| > 0 {
        r := EmitToAll(frame, nowMs);
      } else if sinkQ != null {
        r := EmitToSink(frame, nowMs);
      } else {
        Stamp(frame);
        r := Ok(false);
      }
    }
  }
}
