/** From one worker to the next: what one emits the other gets, with its execution id. */
module HandOver {
  import opened Bytes
  import opened Results
  import opened Codec
  import opened Ring
  import opened DataFrames
  import opened MemQueues
  import opened Delivery
  import opened Workers
  import EndToEnd
  import RingRuns

  /** A queue stands for its oldest frame. */
  lemma StandsForOldest(q: QState, pending: seq<seq<byte>>, frames: seq<Fields>, crc: Crc)
    requires EndToEnd.Holds(q, pending, frames, crc)
    ensures Sane(q)
    ensures OutcomeOf(q, crc) == if |frames| == 0 then Silent else Served(TrimFields(frames[0]))
  {
    RingRuns.GetIsFifo(q, pending, 0, crc, Decodes);
    if |frames| > 0 {
      FrameRoundTrip(frames[0]);
    }
  }

  /** What is put on an empty queue is what a `get` on it serves. */
  lemma PutIsServed(q: QState, num: nat, fields: Fields, crc: Crc)
    requires Represents(q, [], 0, crc) && RingRuns.CountsLeft(q, num) > 0 && DistinctKeys(fields)
    ensures var (q', _, r) := Enqueue(q, num, EncodeFrame(fields), crc);
            && Sane(q')
            && OutcomeOf(q', crc) == if r == Ok(true) then Served(TrimFields(fields)) else Silent
  {
    var pending := EndToEnd.PutKeepsPromise(q, [], [], num, fields, crc);
    var (q', _, r) := Enqueue(q, num, EncodeFrame(fields), crc);
    assert [] + [fields] == [fields];
    StandsForOldest(q', pending, if r == Ok(true) then [fields] else [], crc);
  }

  /** The data of an emitted frame as it arrives. */
  lemma DataArrives(fields: Fields, id: Option<Value>, v: Value)
    requires DistinctKeys(fields) && Lookup(fields, KEY_D) == Some(v)
    ensures DataOf(TrimFields(Stamped(fields, id))) == Ok(Trim(v))
  {
    StampedCarriesId(fields, id);
    EndToEnd.FieldsKeepTheirKeys(Stamped(fields, id), KEY_D);
    assert KEY_D[0] != KEY_PID[0];
  }

  /** The execution id of the emitting worker as it arrives. */
  lemma IdArrives(fields: Fields, id: Value, truthy: Value -> bool)
    requires DistinctKeys(fields)
    ensures IdOf(TrimFields(Stamped(fields, Some(id))), truthy) == if truthy(Trim(id)) then Some(Trim(id)) else None
  {
    StampedCarriesId(fields, Some(id));
    EndToEnd.FieldsKeepTheirKeys(Stamped(fields, Some(id)), KEY_PID);
  }

  /** A worker emits a frame and the next one gets it.  `feeds` are the output queues of
      the first, queue `i` is empty and is reached; the next worker's `get` that comes to
      that queue is served, finds the data (trimmed at most) and takes over the id. */
  lemma EmittedIsGot(feeds: seq<Feed>, i: nat, fields: Fields, id: Option<Value>, crc: Crc, truthy: Value -> bool)
    requires AllShaped(feeds) && i < |feeds| && DistinctKeys(fields)
    requires Represents(feeds[i].q, [], 0, crc) && RingRuns.CountsLeft(feeds[i].q, feeds[i].num) > 0
    requires i < Reached(Answers(feeds, EncodeFrame(Stamped(fields, id)), crc))
    ensures var q, arrived := FannedOut(feeds, EncodeFrame(Stamped(fields, id)), crc, |feeds|)[i].q,
                              TrimFields(Stamped(fields, id));
            && Sane(q) && OutcomeOf(q, crc) == Served(arrived)
            && (Lookup(fields, KEY_D).Some? ==> DataOf(arrived) == Ok(Trim(Lookup(fields, KEY_D).value)))
            && (id.Some? ==> IdOf(arrived, truthy) == if truthy(Trim(id.value)) then Some(Trim(id.value)) else None)
  {
    var encoded := EncodeFrame(Stamped(fields, id));
    BehindThePrefix(feeds, encoded, crc, i);
    PutIsServed(feeds[i].q, feeds[i].num, Stamped(fields, id), crc);
    if Lookup(fields, KEY_D).Some? {
      DataArrives(fields, id, Lookup(fields, KEY_D).value);
    }
    if id.Some? {
      IdArrives(fields, id.value, truthy);
    }
  }

  /** The next worker's `get`: the outcome of the queue that ends its round is what it
      returns, and that queue gives up the frame. */
  lemma GetComesTo(qs: seq<QState>, j: nat, fields: seq<DataField>, next: nat, crc: Crc)
    requires Pollable(qs) && j < |qs| && OutcomeOf(qs[j], crc) == Served(fields)
    requires forall k :: 0 <= k < |qs| && k != j ==> OutcomeOf(qs[k], crc) == Silent
    ensures RoundOutcome(Outcomes(qs, crc), next) == Served(fields)
    ensures AfterRound(qs, next, crc) == qs[j := AfterGet(qs[j], crc)]
  {
    var outs := Outcomes(qs, crc);
    NothingFoundIffAllSilent(outs, next);
    assert outs[j] != Silent;
  }
}
