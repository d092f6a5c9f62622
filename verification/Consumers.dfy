/**
 One producer and any number of consumers of the same queue.  Neither side holds a
 lock while it checks: the producer tests for space, each consumer tests
 `pending_counter`, and by the time a lock is held the check may be stale.  A
 locked section is one step here; a lock is the name of its holder and is gone
 once closed.
 */
module Consumers {
  import opened Bytes
  import opened Ring
  import RingRuns

  /** A consumer has passed the check and waits for the lock, holds it, or is neither. */
  datatype Phase = Outside | Waiting | Holding

  /** The producer is between two calls, or has found space for a body. */
  datatype Producer = Ready | Admitted(body: seq<byte>)

  datatype State = State(q: QState, producer: Producer, phases: seq<Phase>, num: nat,
                         sent: seq<seq<byte>>, log: seq<(nat, seq<byte>)>, failed: bool)
  {
    /** What keeps every step defined. */
    predicate Shaped() {
      q.Shaped() && (producer.Admitted? ==> FRAME_HEADER_SIZE + |producer.body| <= |q.data|)
    }
  }

  datatype Event = Admit(body: seq<byte>) | Commit | Check(i: nat) | Acquire(i: nat) | Section(i: nat)

  function Start(size: nat, consumers: nat): State
    requires MIN_Q_SIZE <= size
  {
    State(Init(size), Ready, seq(consumers, _ => Outside), 0, [], [], false)
  }

  /** The name exists exactly while one consumer holds it. */
  predicate LockFree(s: State) {
    forall i :: 0 <= i < |s.phases| ==> s.phases[i] != Holding
  }

  /** An event that is not enabled leaves the state as it is. */
  function Next(s: State, e: Event, crc: Crc): (s': State)
    requires s.Shaped()
    ensures s'.Shaped() && |s'.phases| == |s.phases|
  {
    match e
    case Admit(body) =>
      if s.producer.Ready? && s.q.Admits(FRAME_HEADER_SIZE + |body|) then s.(producer := Admitted(body)) else s
    case Commit =>
      if s.producer.Admitted? then
        var (q', num', _) := Store(s.q, s.num, s.producer.body, crc);
        s.(q := q', producer := Ready, num := num',
           sent := if num' == s.num then s.sent else s.sent + [s.producer.body])
      else s
    case Check(i) =>
      if i < |s.phases| && s.phases[i] == Outside && s.q.allocCount != s.q.exeCount
      then s.(phases := s.phases[i := Waiting]) else s
    case Acquire(i) =>
      if i < |s.phases| && s.phases[i] == Waiting && LockFree(s)
      then s.(phases := s.phases[i := Holding]) else s
    case Section(i) =>
      if i < |s.phases| && s.phases[i] == Holding then
        if !Sane(s.q) then s.(failed := true) else
        var (q', t) := Take(s.q, crc);
        var s1 := s.(phases := s.phases[i := Outside]);
        match t
        case Nothing => s1
        case Broken(_) => s1.(q := q', failed := true)
        case Taken(b) =>
          if q'.exeCount + 1 >= WORD_LIMIT then s1.(q := q', failed := true)
          else s1.(q := q'.(exeCount := q'.exeCount + 1), log := s.log + [(i, b)])
      else s
  }

  function Run(s: State, events: seq<Event>, crc: Crc): (s': State)
    requires s.Shaped()
    ensures s'.Shaped() && |s'.phases| == |s.phases|
    decreases |events|
  {
    if |events| == 0 then s else Run(Next(s, events[0], crc), events[1..], crc)
  }

  /** `put` is neither entered while the ring is filled to the last byte nor asked
      for a frame more than four bytes can count. */
  predicate Allowed(s: State, e: Event) {
    && (e.Admit? && s.producer.Ready? ==> !(s.q.alloc == s.q.exe && s.q.allocCount != s.q.exeCount))
    && (e.Commit? && s.producer.Admitted? ==> s.num + 1 < WORD_LIMIT)
  }

  predicate Clean(s: State, events: seq<Event>, crc: Crc)
    requires s.Shaped()
    decreases |events|
  {
    |events| > 0 ==> Allowed(s, events[0]) && Clean(Next(s, events[0], crc), events[1..], crc)
  }

  function Delivered(log: seq<(nat, seq<byte>)>): (r: seq<seq<byte>>)
    ensures |r| == |log|
    ensures forall k :: 0 <= k < |r| ==> r[k] == log[k].1
  {
    seq(|log|, k requires 0 <= k < |log| => log[k].1)
  }

  /** What was delivered, followed by what is pending, is what was sent. */
  ghost predicate Inv(s: State, pending: seq<seq<byte>>, crc: Crc) {
    && Represents(s.q, pending, 0, crc)
    && Delivered(s.log) + RingRuns.Bodies(pending) == s.sent
    && s.q.exeCount == |s.log|
    && s.num == |s.sent|
    && !s.failed
    && (s.producer.Admitted? ==>
          FRAME_HEADER_SIZE + |s.producer.body| + RingRuns.Used(RingRuns.Bodies(pending)) <= |s.q.data|)
    && forall i, j :: 0 <= i < j < |s.phases| ==> s.phases[i] != Holding || s.phases[j] != Holding
  }

  /** A consumer whose check is stale finds status 0, gets nothing and changes nothing. */
  lemma LateConsumerGetsNothing(s: State, i: nat, crc: Crc)
    requires Inv(s, [], crc) && i < |s.phases| && s.phases[i] == Holding
    ensures Next(s, Section(i), crc) == s.(phases := s.phases[i := Outside])
  {
    TakeRepresents(s.q, [], 0, crc);
  }

  /** What was found free stays free: only the producer uses it up. */
  lemma AdmitKeepsInv(s: State, pending: seq<seq<byte>>, body: seq<byte>, crc: Crc)
    requires Inv(s, pending, crc) && Allowed(s, Admit(body))
    ensures Inv(Next(s, Admit(body), crc), pending, crc)
  {
    RingRuns.FullIsVisible(s.q, pending, crc);
    RingRuns.FreeSpaceIsConserved(s.q, pending, 0, crc);
  }

  lemma CommitKeepsInv(s: State, pending: seq<seq<byte>>, crc: Crc) returns (pending': seq<seq<byte>>)
    requires Inv(s, pending, crc) && Allowed(s, Commit)
    ensures Inv(Next(s, Commit, crc), pending', crc)
  {
    pending' := pending;
    if s.producer.Admitted? {
      var body := s.producer.body;
      CountsAgree(s, pending, crc);
      PacketIsWellFormed(body, s.num, crc);
      RingRuns.UsedIsFlat(pending);
      PushRepresents(s.q, pending, 0, crc, Packet(body, s.num, crc));
      pending' := pending + [Packet(body, s.num, crc)];
      RingRuns.BodiesAppend(pending, s.num, body, crc);
      assert Delivered(s.log) + (RingRuns.Bodies(pending) + [body]) == s.sent + [body];
    }
  }

  lemma CountsAgree(s: State, pending: seq<seq<byte>>, crc: Crc)
    requires Inv(s, pending, crc)
    ensures s.q.allocCount == s.num && s.q.exeCount <= s.q.allocCount
  {
    assert |Delivered(s.log) + RingRuns.Bodies(pending)| == |s.sent|;
  }

  /** The oldest pending body moves from the ring to the log. */
  lemma DeliveryMoves(log: seq<(nat, seq<byte>)>, pending: seq<seq<byte>>, i: nat)
    requires |pending| > 0 && Headed(pending)
    ensures Delivered(log + [(i, Body(pending[0]))]) + RingRuns.Bodies(pending[1..])
         == Delivered(log) + RingRuns.Bodies(pending)
  {
    RingRuns.BodiesTail(pending);
    var b := Body(pending[0]);
    var rest := RingRuns.Bodies(pending[1..]);
    assert Delivered(log + [(i, b)]) == Delivered(log) + [b];
    assert (Delivered(log) + [b]) + rest == Delivered(log) + ([b] + rest);
    assert RingRuns.Bodies(pending) == [b] + RingRuns.Bodies(pending[1..]);
  }

  /** The queue after its oldest frame was taken and counted. */
  lemma TakenAndCounted(q: QState, pending: seq<seq<byte>>, crc: Crc) returns (q': QState)
    requires Represents(q, pending, 0, crc) && |pending| > 0
    ensures Sane(q) && Take(q, crc) == (q', Taken(Body(pending[0])))
    ensures q'.exeCount == q.exeCount && |q'.data| == |q.data| && q'.exeCount + 1 < WORD_LIMIT
    ensures Represents(q'.(exeCount := q'.exeCount + 1), pending[1..], 0, crc)
  {
    TakeRepresents(q, pending, 0, crc);
    q' := Take(q, crc).0;
    RingRuns.CountMoves(q', pending[1..], 0, crc);
  }

  /** What the locked section does when it finds a frame. */
  lemma SectionTakes(s: State, i: nat, q': QState, b: seq<byte>, crc: Crc)
    requires s.Shaped() && i < |s.phases| && s.phases[i] == Holding
    requires Sane(s.q) && Take(s.q, crc) == (q', Taken(b)) && q'.exeCount + 1 < WORD_LIMIT
    ensures Next(s, Section(i), crc) == s.(q := q'.(exeCount := q'.exeCount + 1), phases := s.phases[i := Outside],
                                           log := s.log + [(i, b)])
  {
  }

  /** The oldest pending frame goes to the holder. */
  lemma TakingKeepsInv(s: State, pending: seq<seq<byte>>, i: nat, crc: Crc)
    requires Inv(s, pending, crc) && |pending| > 0 && i < |s.phases| && s.phases[i] == Holding
    ensures Inv(Next(s, Section(i), crc), pending[1..], crc)
  {
    var q' := TakenAndCounted(s.q, pending, crc);
    SectionTakes(s, i, q', Body(pending[0]), crc);
    DeliveryMoves(s.log, pending, i);
    RingRuns.BodiesTail(pending);
  }

  lemma SectionKeepsInv(s: State, pending: seq<seq<byte>>, i: nat, crc: Crc) returns (pending': seq<seq<byte>>)
    requires Inv(s, pending, crc)
    ensures Inv(Next(s, Section(i), crc), pending', crc)
  {
    pending' := pending;
    if i < |s.phases| && s.phases[i] == Holding {
      if |pending| > 0 {
        TakingKeepsInv(s, pending, i, crc);
        pending' := pending[1..];
      } else {
        LateConsumerGetsNothing(s, i, crc);
      }
    }
  }

  lemma {:induction false} RunKeepsInv(s: State, pending: seq<seq<byte>>, events: seq<Event>, crc: Crc)
    returns (pending': seq<seq<byte>>)
    requires Inv(s, pending, crc) && Clean(s, events, crc)
    ensures Inv(Run(s, events, crc), pending', crc)
    decreases |events|
  {
    pending' := pending;
    if |events| > 0 {
      match events[0] {
        case Admit(body) => AdmitKeepsInv(s, pending, body, crc);
        case Commit => pending' := CommitKeepsInv(s, pending, crc);
        case Section(i) => pending' := SectionKeepsInv(s, pending, i, crc);
        case _ =>
      }
      pending' := RunKeepsInv(Next(s, events[0], crc), pending', events[1..], crc);
    }
  }

  /** Whatever the consumers do, each committed frame is delivered to at most one of
      them, in order and unchanged, none is skipped, no `get` raises, and the
      counters say how many are still to come. */
  lemma EachFrameOnce(size: nat, consumers: nat, events: seq<Event>, crc: Crc)
    requires MIN_Q_SIZE <= size <= WORD_LIMIT
    requires Clean(Start(size, consumers), events, crc)
    ensures var s := Run(Start(size, consumers), events, crc);
            && !s.failed
            && Delivered(s.log) <= s.sent
            && |s.sent| - |s.log| == s.q.allocCount - s.q.exeCount
            && (s.q.allocCount == s.q.exeCount ==> Delivered(s.log) == s.sent)
  {
    InitRepresents(size, crc);
    assert RingRuns.Bodies([]) == [];
    var pending' := RunKeepsInv(Start(size, consumers), [], events, crc);
  }

  // ---------- progress ----------

  /** The producer's two events on their own are a `put`. */
  lemma AdmitAndCommit(s: State, body: seq<byte>, crc: Crc)
    requires s.Shaped() && s.producer.Ready?
    ensures var (q', num', p) := Put(s.q, s.num, body, crc);
            Next(Next(s, Admit(body), crc), Commit, crc)
              == s.(q := q', num := num', sent := if num' == s.num then s.sent else s.sent + [body])
  {
  }

  /** A consumer that is outside while the lock is free: check, lock and section. */
  function OneGet(i: nat): seq<Event> {
    [Check(i), Acquire(i), Section(i)]
  }

  lemma RunThree(s: State, i: nat, crc: Crc)
    requires s.Shaped()
    ensures Run(s, OneGet(i), crc) == Next(Next(Next(s, Check(i), crc), Acquire(i), crc), Section(i), crc)
  {
    var s1 := Next(s, Check(i), crc);
    var s2 := Next(s1, Acquire(i), crc);
    assert OneGet(i)[1..] == [Acquire(i), Section(i)];
    assert [Acquire(i), Section(i)][1..] == [Section(i)];
    assert Run(s2, [Section(i)], crc) == Next(s2, Section(i), crc);
  }

  /** With frames pending and the lock free a consumer gets the oldest one, under its own
      name, and nothing else changes for anyone. */
  lemma ConsumerGets(s: State, pending: seq<seq<byte>>, i: nat, crc: Crc)
    requires Inv(s, pending, crc) && |pending| > 0 && LockFree(s) && i < |s.phases| && s.phases[i] == Outside
    ensures var s' := Run(s, OneGet(i), crc);
            && s'.log == s.log + [(i, Body(pending[0]))]
            && s' == s.(q := s'.q, log := s'.log)
            && Inv(s', pending[1..], crc)
  {
    var s2 := s.(phases := s.phases[i := Holding]);
    Enters(s, i, crc);
    var q' := TakenAndCounted(s.q, pending, crc);
    SectionTakes(s2, i, q', Body(pending[0]), crc);
    TakingKeepsInv(s2, pending, i, crc);
    assert s2.phases[i := Outside] == s.phases;
  }

  /** The check finds something pending and the lock is free. */
  lemma Enters(s: State, i: nat, crc: Crc)
    requires s.Shaped() && s.q.allocCount != s.q.exeCount && LockFree(s) && i < |s.phases| && s.phases[i] == Outside
    ensures Run(s, OneGet(i), crc) == Next(s.(phases := s.phases[i := Holding]), Section(i), crc)
  {
    var s1 := s.(phases := s.phases[i := Waiting]);
    RunThree(s, i, crc);
    assert Next(s, Check(i), crc) == s1;
    forall k | 0 <= k < |s1.phases|
      ensures s1.phases[k] != Holding
    {
      assert k != i ==> s1.phases[k] == s.phases[k];
    }
    TakesLock(s1, i, crc);
    assert s1.phases[i := Holding] == s.phases[i := Holding];
  }

  lemma TakesLock(s: State, i: nat, crc: Crc)
    requires s.Shaped() && LockFree(s) && i < |s.phases| && s.phases[i] == Waiting
    ensures Next(s, Acquire(i), crc) == s.(phases := s.phases[i := Holding])
  {
  }

  /** With nothing pending it gets nothing. */
  lemma ConsumerGetsNothing(s: State, i: nat, crc: Crc)
    requires Inv(s, [], crc) && i < |s.phases| && s.phases[i] == Outside
    ensures Run(s, OneGet(i), crc) == s
  {
    RunThree(s, i, crc);
  }

  predicate OnlyConsumers(events: seq<Event>) {
    forall k :: 0 <= k < |events| ==> !events[k].Admit? && !events[k].Commit?
  }

  lemma {:induction false} RunSplits(s: State, a: seq<Event>, b: seq<Event>, crc: Crc)
    requires s.Shaped()
    ensures Run(s, a + b, crc) == Run(Run(s, a, crc), b, crc)
    decreases |a|
  {
    if |a| == 0 {
      assert a + b == b;
    } else {
      assert (a + b)[1..] == a[1..] + b;
      RunSplits(Next(s, a[0], crc), a[1..], b, crc);
    }
  }

  lemma OneEvent(s: State, e: Event, crc: Crc)
    requires s.Shaped()
    ensures Run(s, [e], crc) == Next(s, e, crc)
  {
    assert Run(Next(s, e, crc), [e][1..], crc) == Next(s, e, crc);
  }

  /** Whoever holds the lock leaves. */
  lemma FreeTheLock(s: State, pending: seq<seq<byte>>, crc: Crc) returns (more: seq<Event>, pending': seq<seq<byte>>)
    requires Inv(s, pending, crc)
    ensures OnlyConsumers(more) && Inv(Run(s, more, crc), pending', crc)
    ensures LockFree(Run(s, more, crc)) && Run(s, more, crc).sent == s.sent
    ensures |Run(s, more, crc).phases| == |s.phases|
  {
    more, pending' := [], pending;
    if !LockFree(s) {
      var h :| 0 <= h < |s.phases| && s.phases[h] == Holding;
      more := [Section(h)];
      OneEvent(s, Section(h), crc);
      pending' := SectionKeepsInv(s, pending, h, crc);
      HolderLeaves(s, pending, h, crc);
    }
  }

  lemma HolderLeaves(s: State, pending: seq<seq<byte>>, h: nat, crc: Crc)
    requires Inv(s, pending, crc) && h < |s.phases| && s.phases[h] == Holding
    ensures Next(s, Section(h), crc).phases == s.phases[h := Outside] && Next(s, Section(h), crc).sent == s.sent
    ensures LockFree(Next(s, Section(h), crc))
  {
    if |pending| > 0 {
      var q' := TakenAndCounted(s.q, pending, crc);
      SectionTakes(s, h, q', Body(pending[0]), crc);
    } else {
      LateConsumerGetsNothing(s, h, crc);
    }
    forall i | 0 <= i < |s.phases| && i != h
      ensures s.phases[i] != Holding
    {
      assert i < h || h < i;
    }
  }

  /** A consumer that waits for the free lock takes it, finds what it finds, and is outside again. */
  lemma WaiterGoes(s: State, pending: seq<seq<byte>>, i: nat, crc: Crc) returns (pending': seq<seq<byte>>)
    requires Inv(s, pending, crc) && LockFree(s) && i < |s.phases| && s.phases[i] == Waiting
    ensures var s' := Run(s, [Acquire(i), Section(i)], crc);
            Inv(s', pending', crc) && LockFree(s') && s'.phases == s.phases[i := Outside] && s'.sent == s.sent
  {
    var s1 := s.(phases := s.phases[i := Holding]);
    TakesLock(s, i, crc);
    assert [Acquire(i), Section(i)][1..] == [Section(i)];
    OneEvent(s1, Section(i), crc);
    pending' := SectionKeepsInv(s1, pending, i, crc);
    HolderLeaves(s1, pending, i, crc);
    assert s1.phases[i := Outside] == s.phases[i := Outside];
  }

  /** Consumer `i` alone empties the queue. */
  lemma {:induction false} ConsumerEmpties(s: State, pending: seq<seq<byte>>, i: nat, crc: Crc) returns (more: seq<Event>)
    requires Inv(s, pending, crc) && LockFree(s) && i < |s.phases| && s.phases[i] == Outside
    ensures OnlyConsumers(more) && Inv(Run(s, more, crc), [], crc) && Run(s, more, crc).sent == s.sent
    decreases |pending|
  {
    if |pending| == 0 {
      more := [];
    } else {
      var s' := Run(s, OneGet(i), crc);
      ConsumerGets(s, pending, i, crc);
      var rest := ConsumerEmpties(s', pending[1..], i, crc);
      RunSplits(s, OneGet(i), rest, crc);
      more := OneGet(i) + rest;
    }
  }

  /** From every state with a consumer, whatever phase each is in, the consumers can go
      on so that everything sent is delivered. */
  lemma AllCanBeDelivered(s: State, pending: seq<seq<byte>>, crc: Crc) returns (more: seq<Event>)
    requires Inv(s, pending, crc) && |s.phases| > 0
    ensures OnlyConsumers(more) && Delivered(Run(s, more, crc).log) == s.sent
  {
    var a, p1 := FreeTheLock(s, pending, crc);
    var s1 := Run(s, a, crc);
    var b, p2, s2 := [], p1, s1;
    if s1.phases[0] == Waiting {
      b := [Acquire(0), Section(0)];
      p2 := WaiterGoes(s1, p1, 0, crc);
      s2 := Run(s1, b, crc);
    }
    var c := ConsumerEmpties(s2, p2, 0, crc);
    RunSplits(s1, b, c, crc);
    RunSplits(s, a, b + c, crc);
    more := a + (b + c);
    EmptyMeansDelivered(Run(s2, c, crc), crc);
  }

  lemma EmptyMeansDelivered(s: State, crc: Crc)
    requires Inv(s, [], crc)
    ensures Delivered(s.log) == s.sent
  {
    assert RingRuns.Bodies([]) == [];
    assert Delivered(s.log) + [] == Delivered(s.log);
  }

  /** After every clean run, with at least one consumer, some events of consumers alone
      deliver everything that was sent, each frame once and in order. */
  lemma EveryRunCanBeDelivered(size: nat, consumers: nat, events: seq<Event>, crc: Crc) returns (more: seq<Event>)
    requires MIN_Q_SIZE <= size <= WORD_LIMIT && consumers > 0
    requires Clean(Start(size, consumers), events, crc)
    ensures var s := Run(Start(size, consumers), events, crc);
            OnlyConsumers(more) && Delivered(Run(s, more, crc).log) == s.sent
  {
    InitRepresents(size, crc);
    assert RingRuns.Bodies([]) == [];
    var pending := RunKeepsInv(Start(size, consumers), [], events, crc);
    more := AllCanBeDelivered(Run(Start(size, consumers), events, crc), pending, crc);
  }
}
