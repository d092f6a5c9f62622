/**
 One producer in `put` and one consumer in `get` on the same memory, at the grain
 of single loads and stores: one byte of a slice, or one 4-byte control word.

 The scheduler picks whose access comes next, so a schedule is any interleaving.
 Each program point below is the code between two accesses to shared memory.
 */
module Interleaving {
  import opened Bytes
  import opened Ring
  import RingRuns

  datatype Writer =
    | WIdle
    | WCapacity(body: seq<byte>, exe1: nat) // `free_space` for the capacity test has loaded `exe_index` once
    | WUnderCapacity(body: seq<byte>)
    | WSpace(body: seq<byte>, exe1: nat)    // the same for the size test
    | WStore(packet: seq<byte>, done: nat)  // `done` bytes of the frame stored, `alloc_index` not yet moved
    | WCount                                // `alloc_index` moved, `alloc_counter` not yet

  datatype Failure = Fault(fault: Fault) | BadSize

  datatype Reader =
    | RIdle
    | RHeader(h: seq<byte>)
    | RBody(h: seq<byte>, b: seq<byte>)
    | RClear(h: seq<byte>, b: seq<byte>, done: nat)
    | RCheck(h: seq<byte>, b: seq<byte>)    // `exe_index` moved, the CRC not yet compared
    | RCount(b: seq<byte>)                  // `exe_counter` not yet moved
    | RFailed(why: Failure)

  /** `sent`: the frames whose `alloc_index` was published; `taken`: how many had
      their `exe_index` published; `received`: the bodies `get` returned. */
  datatype State = State(q: QState, w: Writer, r: Reader, frameCounter: nat,
                         sent: seq<seq<byte>>, taken: nat, received: seq<seq<byte>>)
  {
    /** What keeps every step defined. */
    predicate Shaped() {
      && q.Shaped()
      && match r {
           case RHeader(h) => |h| <= FRAME_HEADER_SIZE
           case RBody(h, b) => |h| == FRAME_HEADER_SIZE && FRAME_HEADER_SIZE + |b| <= SizeOf(h) <= |q.data|
           case RClear(h, b, done) => |h| == FRAME_HEADER_SIZE && done <= SizeOf(h) <= |q.data|
           case RCheck(h, b) => |h| == FRAME_HEADER_SIZE
           case _ => true
         }
    }
  }

  datatype Turn = Produce(body: seq<byte>) | Consume

  function Start(size: nat): State
    requires MIN_Q_SIZE <= size
  {
    State(Init(size), WIdle, RIdle, 0, [], 0, [])
  }

  /** `free_space` when its comparison used `exe1` and its arithmetic loads `exe_index` again. */
  function FreeSpaceTwoLoads(q: QState, exe1: nat): int
    requires q.Shaped()
  {
    if q.alloc < exe1 then q.exe - q.alloc else |q.data| - (q.alloc - q.exe)
  }

  function StoreByte(q: QState, i: nat, v: byte): (r: QState)
    requires q.Shaped() && i < |q.data|
    ensures r.Shaped() && |r.data| == |q.data|
  {
    q.(data := q.data[i := v])
  }

  function WStep(s: State, body: seq<byte>, crc: Crc): (s': State)
    requires s.Shaped()
    ensures s'.Shaped()
  {
    var q, n := s.q, |s.q.data|;
    match s.w
    case WIdle => s.(w := WCapacity(body, q.exe))
    case WCapacity(b, exe1) =>
      if 10 * (n - FreeSpaceTwoLoads(q, exe1)) > 9 * q.Size() then s.(w := WIdle) else s.(w := WUnderCapacity(b))
    case WUnderCapacity(b) => s.(w := WSpace(b, q.exe))
    case WSpace(b, exe1) =>
      // a number that does not fit four bytes raises before anything is stored
      if FRAME_HEADER_SIZE + |b| > FreeSpaceTwoLoads(q, exe1)
         || FRAME_HEADER_SIZE + |b| >= WORD_LIMIT || s.frameCounter >= WORD_LIMIT
      then s.(w := WIdle)
      else s.(w := WStore(Packet(b, s.frameCounter, crc), 0), frameCounter := s.frameCounter + 1)
    case WStore(p, done) =>
      if |p| > n then s.(w := WIdle) // a slice assignment past the end raises
      else if done < |p| then s.(q := StoreByte(q, Fwd(q.alloc, done, n), p[done]), w := WStore(p, done + 1))
      else s.(q := q.(alloc := Fwd(q.alloc, |p|, n)), w := WCount, sent := s.sent + [p])
    case WCount =>
      // a count that does not fit four bytes raises
      if q.allocCount + 1 >= WORD_LIMIT then s.(w := WIdle)
      else s.(q := q.(allocCount := q.allocCount + 1), w := WIdle)
  }

  function RStep(s: State, crc: Crc): (s': State)
    requires s.Shaped()
    ensures s'.Shaped()
  {
    var q, n := s.q, |s.q.data|;
    match s.r
    case RIdle => if q.allocCount == q.exeCount then s else s.(r := RHeader([]))
    case RHeader(h) =>
      if |h| < FRAME_HEADER_SIZE then s.(r := RHeader(h + [q.At(|h|)]))
      else if h[0] != CREATED then s.(r := RIdle)
      else if h[6..14] != WATER_MARK then s.(r := RFailed(Fault(MissingWatermark)))
      else if !(FRAME_HEADER_SIZE <= SizeOf(h) <= n) then s.(r := RFailed(BadSize))
      else s.(r := RBody(h, []))
    case RBody(h, b) =>
      if FRAME_HEADER_SIZE + |b| < SizeOf(h) then s.(r := RBody(h, b + [q.At(FRAME_HEADER_SIZE + |b|)]))
      else s.(r := RClear(h, b, 0))
    case RClear(h, b, done) =>
      if done < SizeOf(h) then s.(q := StoreByte(q, Fwd(q.exe, done, n), 0), r := RClear(h, b, done + 1))
      else s.(q := q.(exe := Fwd(q.exe, SizeOf(h), n)), r := RCheck(h, b), taken := s.taken + 1)
    case RCheck(h, b) =>
      if h[14..18] == ToLE(crc(b), 4) then s.(r := RCount(b)) else s.(r := RFailed(Fault(BadChecksum)))
    case RCount(b) =>
      if q.exeCount + 1 >= WORD_LIMIT then s.(r := RFailed(Fault(CountOverflow)))
      else s.(q := q.(exeCount := q.exeCount + 1), r := RIdle, received := s.received + [b])
    case RFailed(_) => s
  }

  function Step(s: State, t: Turn, crc: Crc): (s': State)
    requires s.Shaped()
    ensures s'.Shaped()
  {
    match t
    case Produce(body) => WStep(s, body, crc)
    case Consume => RStep(s, crc)
  }

  function Run(s: State, turns: seq<Turn>, crc: Crc): (s': State)
    requires s.Shaped()
    ensures s'.Shaped()
    decreases |turns|
  {
    if |turns| == 0 then s else Run(Step(s, turns[0], crc), turns[1..], crc)
  }

  // ---------- the invariant ----------

  function Pending(s: State): seq<seq<byte>>
    requires s.taken <= |s.sent|
  {
    s.sent[s.taken..]
  }

  function Cleared(r: Reader): nat { if r.RClear? then r.done else 0 }

  function Stored(w: Writer): seq<byte> {
    if w.WStore? && w.done <= |w.packet| then w.packet[..w.done] else []
  }

  /** Byte `k` from `exe` on: the cleared part of the oldest frame, the rest of the
      pending frames, the stored part of the next one, then zeros. */
  function Expected(flat: seq<byte>, cleared: nat, stored: seq<byte>, k: nat): byte {
    if k < cleared then 0
    else if k < |flat| then flat[k]
    else if k < |flat| + |stored| then stored[k - |flat|]
    else 0
  }

  ghost predicate MemoryInv(s: State)
    requires s.Shaped() && s.taken <= |s.sent|
  {
    var flat := Flat(Pending(s));
    && |flat| <= |s.q.data|
    && s.q.alloc == Fwd(s.q.exe, |flat|, |s.q.data|)
    && forall k :: 0 <= k < |s.q.data| ==> s.q.At(k) == Expected(flat, Cleared(s.r), Stored(s.w), k)
  }

  predicate CountInv(s: State)
    requires s.taken <= |s.sent|
  {
    && |s.sent| + (if s.w.WStore? then 1 else 0) <= s.frameCounter <= WORD_LIMIT
    && s.q.allocCount + (if s.w.WCount? || |s.sent| == WORD_LIMIT then 1 else 0) == |s.sent|
    && s.q.exeCount + (if s.r.RCheck? || s.r.RCount? then 1 else 0) == s.taken
    && s.taken + (if s.r.RHeader? || s.r.RBody? || s.r.RClear? then 1 else 0) <= s.q.allocCount
    && |s.received| == s.q.exeCount
    && forall i :: 0 <= i < |s.received| ==> |s.sent[i]| >= FRAME_HEADER_SIZE && s.received[i] == Body(s.sent[i])
  }

  predicate WriterInv(s: State, crc: Crc)
    requires s.Shaped() && s.taken <= |s.sent|
  {
    var used, n := |Flat(Pending(s))|, |s.q.data|;
    match s.w
    case WIdle => true
    case WCapacity(_, exe1) => used < n && (exe1 <= s.q.alloc ==> s.q.exe <= s.q.alloc)
    case WUnderCapacity(_) => used < n
    case WSpace(_, exe1) => used < n && (exe1 <= s.q.alloc ==> s.q.exe <= s.q.alloc)
    case WStore(p, done) => WellFormed(p, crc) && done <= |p| && used + |p| <= n
    case WCount => true
  }

  predicate ReaderInv(s: State)
    requires s.Shaped() && s.taken <= |s.sent|
    requires Headed(s.sent)
  {
    match s.r
    case RIdle => true
    case RHeader(h) => s.taken < |s.sent| && h <= s.sent[s.taken]
    case RBody(h, b) => s.taken < |s.sent| && h <= s.sent[s.taken] && b <= Body(s.sent[s.taken])
    case RClear(h, b, done) => s.taken < |s.sent| && h <= s.sent[s.taken] && b == Body(s.sent[s.taken])
    case RCheck(h, b) => s.taken > 0 && h <= s.sent[s.taken - 1] && b == Body(s.sent[s.taken - 1])
    case RCount(b) => s.taken > 0 && b == Body(s.sent[s.taken - 1])
    case RFailed(_) => false
  }

  ghost predicate Inv(s: State, crc: Crc) {
    && s.Shaped()
    && s.taken <= |s.sent|
    && AllWellFormed(s.sent, crc)
    && MemoryInv(s)
    && CountInv(s)
    && WriterInv(s, crc)
    && ReaderInv(s)
  }

  lemma StartInv(size: nat, crc: Crc)
    requires MIN_Q_SIZE <= size <= WORD_LIMIT
    ensures Inv(Start(size), crc)
  {
    assert Pending(Start(size)) == [];
  }

  /** The unlocked check is safe: however far the reader moved between the two
      loads, the result never exceeds what is free now. */
  lemma TwoLoadsNeverOverestimate(s: State, crc: Crc)
    requires Inv(s, crc) && s.w.WSpace?
    ensures FreeSpaceTwoLoads(s.q, s.w.exe1) <= |s.q.data| - |Flat(Pending(s))|
  {
  }

  // ---------- every step keeps it ----------

  /** A step that touches neither the ring nor the two indices. */
  lemma SameMemory(s: State, s': State)
    requires s.Shaped() && s'.Shaped() && s.taken == s'.taken <= |s.sent| && s.sent == s'.sent
    requires MemoryInv(s)
    requires s'.q == s.q.(allocCount := s'.q.allocCount, exeCount := s'.q.exeCount)
    requires Cleared(s'.r) == Cleared(s.r) && Stored(s'.w) == Stored(s.w)
    ensures MemoryInv(s')
  {
    forall k | 0 <= k < |s.q.data|
      ensures s'.q.At(k) == Expected(Flat(Pending(s)), Cleared(s'.r), Stored(s'.w), k)
    {
      assert s.q.At(k) == Expected(Flat(Pending(s)), Cleared(s.r), Stored(s.w), k);
    }
  }

  lemma StoreKeepsMemory(s: State, body: seq<byte>, crc: Crc)
    requires s.Shaped() && s.taken <= |s.sent| && MemoryInv(s)
    requires s.w.WStore? && s.w.done < |s.w.packet| && |Flat(Pending(s))| + |s.w.packet| <= |s.q.data|
    requires Cleared(s.r) <= |Flat(Pending(s))|
    ensures MemoryInv(WStep(s, body, crc))
  {
    var s' := WStep(s, body, crc);
    var q, n, flat, p, done := s.q, |s.q.data|, Flat(Pending(s)), s.w.packet, s.w.done;
    assert Pending(s') == Pending(s);
    assert Stored(s'.w) == Stored(s.w) + [p[done]];
    forall k | 0 <= k < n
      ensures s'.q.At(k) == Expected(flat, Cleared(s'.r), Stored(s'.w), k)
    {
      assert s.q.At(k) == Expected(flat, Cleared(s.r), Stored(s.w), k);
      assert Fwd(q.exe, k, n) == Fwd(q.alloc, done, n) <==> k == |flat| + done;
    }
  }

  lemma PublishKeepsMemory(s: State, body: seq<byte>, crc: Crc)
    requires s.Shaped() && s.taken <= |s.sent| && MemoryInv(s)
    requires s.w.WStore? && s.w.done == |s.w.packet| && |Flat(Pending(s))| + |s.w.packet| <= |s.q.data|
    ensures MemoryInv(WStep(s, body, crc))
    ensures Flat(Pending(WStep(s, body, crc))) == Flat(Pending(s)) + s.w.packet
  {
    var s' := WStep(s, body, crc);
    var n, flat, p := |s.q.data|, Flat(Pending(s)), s.w.packet;
    assert Pending(s') == Pending(s) + [p];
    FlatAppend(Pending(s), p);
    assert Stored(s.w) == p;
    forall k | 0 <= k < n
      ensures s'.q.At(k) == Expected(flat + p, Cleared(s'.r), Stored(s'.w), k)
    {
      assert s.q.At(k) == Expected(flat, Cleared(s.r), Stored(s.w), k);
    }
  }

  lemma ClearedIsPending(s: State, crc: Crc)
    requires Inv(s, crc)
    ensures Cleared(s.r) <= |Flat(Pending(s))|
  {
    if s.r.RClear? {
      HeadFits(s, crc);
      HeaderOfPacket(s.r.h, s.sent[s.taken]);
    }
  }

  /** A step of the writer does not disturb what the reader holds. */
  lemma ReaderUndisturbed(s: State, s': State, crc: Crc)
    requires s.Shaped() && s'.Shaped() && s.taken <= |s.sent|
    requires AllWellFormed(s.sent, crc) && AllWellFormed(s'.sent, crc)
    requires ReaderInv(s)
    requires s'.r == s.r && s'.taken == s.taken && s.sent <= s'.sent
    ensures ReaderInv(s')
  {
  }

  /** A step of the writer between stores: nothing in memory changes but, at the end, the counter. */
  lemma QuietWriterKeepsInv(s: State, s': State, crc: Crc)
    requires Inv(s, crc)
    requires s' == s.(q := s'.q, w := s'.w, frameCounter := s'.frameCounter)
    requires s'.q == s.q.(allocCount := s'.q.allocCount)
    requires Stored(s'.w) == Stored(s.w) == [] && s'.q.allocCount >= s.q.allocCount
    requires WriterInv(s', crc) && CountInv(s')
    ensures Inv(s', crc)
  {
    SameMemory(s, s');
    ReaderUndisturbed(s, s', crc);
  }

  lemma EnterKeepsInv(s: State, body: seq<byte>, crc: Crc)
    requires Inv(s, crc) && s.w.WIdle? && |Flat(Pending(s))| < |s.q.data|
    ensures Inv(WStep(s, body, crc), crc)
  {
    QuietWriterKeepsInv(s, WStep(s, body, crc), crc);
  }

  lemma CapacityKeepsInv(s: State, body: seq<byte>, crc: Crc)
    requires Inv(s, crc) && s.w.WCapacity?
    ensures Inv(WStep(s, body, crc), crc)
  {
    QuietWriterKeepsInv(s, WStep(s, body, crc), crc);
  }

  lemma UnderCapacityKeepsInv(s: State, body: seq<byte>, crc: Crc)
    requires Inv(s, crc) && s.w.WUnderCapacity?
    ensures Inv(WStep(s, body, crc), crc)
  {
    QuietWriterKeepsInv(s, WStep(s, body, crc), crc);
  }

  lemma CountedKeepsInv(s: State, body: seq<byte>, crc: Crc)
    requires Inv(s, crc) && s.w.WCount?
    ensures Inv(WStep(s, body, crc), crc)
  {
    QuietWriterKeepsInv(s, WStep(s, body, crc), crc);
  }

  lemma AdmitKeepsInv(s: State, body: seq<byte>, crc: Crc)
    requires Inv(s, crc) && s.w.WSpace?
    ensures Inv(WStep(s, body, crc), crc)
  {
    if WStep(s, body, crc).w.WStore? {
      AdmittedKeepsInv(s, body, crc);
    } else {
      assert WStep(s, body, crc) == s.(w := WIdle);
      QuietWriterKeepsInv(s, s.(w := WIdle), crc);
    }
  }

  lemma AdmittedKeepsInv(s: State, body: seq<byte>, crc: Crc)
    requires Inv(s, crc) && s.w.WSpace? && WStep(s, body, crc).w.WStore?
    ensures Inv(WStep(s, body, crc), crc)
  {
    var p := Packet(s.w.body, s.frameCounter, crc);
    assert WStep(s, body, crc) == s.(w := WStore(p, 0), frameCounter := s.frameCounter + 1);
    TwoLoadsNeverOverestimate(s, crc);
    PacketIsWellFormed(s.w.body, s.frameCounter, crc);
    StartsStoring(s, p, crc);
  }

  lemma StartsStoring(s: State, p: seq<byte>, crc: Crc)
    requires Inv(s, crc) && s.w.WSpace? && s.frameCounter < WORD_LIMIT
    requires WellFormed(p, crc) && |Flat(Pending(s))| + |p| <= |s.q.data|
    ensures Inv(s.(w := WStore(p, 0), frameCounter := s.frameCounter + 1), crc)
  {
    QuietWriterKeepsInv(s, s.(w := WStore(p, 0), frameCounter := s.frameCounter + 1), crc);
  }

  lemma StoreKeepsInv(s: State, body: seq<byte>, crc: Crc)
    requires Inv(s, crc) && s.w.WStore? && s.w.done < |s.w.packet|
    ensures Inv(WStep(s, body, crc), crc)
  {
    ClearedIsPending(s, crc);
    StoreKeepsMemory(s, body, crc);
    ReaderUndisturbed(s, WStep(s, body, crc), crc);
  }

  lemma PublishKeepsInv(s: State, body: seq<byte>, crc: Crc)
    requires Inv(s, crc) && s.w.WStore? && s.w.done == |s.w.packet|
    ensures Inv(WStep(s, body, crc), crc)
  {
    var s' := WStep(s, body, crc);
    PublishKeepsMemory(s, body, crc);
    assert AllWellFormed(s'.sent, crc);
    ReaderUndisturbed(s, s', crc);
  }

  lemma WriterKeepsInv(s: State, body: seq<byte>, crc: Crc)
    requires Inv(s, crc)
    requires s.w.WIdle? ==> |Flat(Pending(s))| < |s.q.data|
    ensures Inv(WStep(s, body, crc), crc)
  {
    match s.w
    case WStore(p, done) =>
      if done < |p| { StoreKeepsInv(s, body, crc); } else { PublishKeepsInv(s, body, crc); }
    case WSpace(_, _) => AdmitKeepsInv(s, body, crc);
    case WIdle => EnterKeepsInv(s, body, crc);
    case WCount => CountedKeepsInv(s, body, crc);
    case WCapacity(_, _) => CapacityKeepsInv(s, body, crc);
    case WUnderCapacity(_) => UnderCapacityKeepsInv(s, body, crc);
  }

  lemma HeadFits(s: State, crc: Crc)
    requires s.Shaped() && s.taken < |s.sent| && MemoryInv(s)
    ensures Flat(Pending(s)) == s.sent[s.taken] + Flat(s.sent[s.taken + 1..])
    ensures |s.sent[s.taken]| <= |s.q.data|
  {
    assert Pending(s)[0] == s.sent[s.taken];
    assert Pending(s)[1..] == s.sent[s.taken + 1..];
  }

  /** A copied byte is the byte of the oldest frame, whatever the writer is storing. */
  lemma ReadsHead(s: State, crc: Crc, k: nat)
    requires s.Shaped() && s.taken < |s.sent| && MemoryInv(s)
    requires Cleared(s.r) <= k < |s.sent[s.taken]|
    ensures k < |s.q.data| && s.q.At(k) == s.sent[s.taken][k]
  {
    HeadFits(s, crc);
    assert s.q.At(k) == Expected(Flat(Pending(s)), Cleared(s.r), Stored(s.w), k);
  }

  lemma HeaderOfPacket(h: seq<byte>, p: seq<byte>)
    requires |h| == FRAME_HEADER_SIZE && h <= p
    ensures h[0] == p[0] && h[6..14] == p[6..14] && h[14..18] == p[14..18] && SizeOf(h) == SizeOf(p)
  {
    assert h[6..14] == p[6..14] && h[14..18] == p[14..18] && h[2..6] == p[2..6];
  }

  /** A step of the reader that leaves `exe_index` alone does not disturb the writer. */
  lemma WriterUndisturbed(s: State, s': State, crc: Crc)
    requires s.Shaped() && s'.Shaped() && s.taken == s'.taken <= |s.sent|
    requires WriterInv(s, crc)
    requires s'.w == s.w && s'.sent == s.sent
    requires s'.q.alloc == s.q.alloc && s'.q.exe == s.q.exe && |s'.q.data| == |s.q.data|
    ensures WriterInv(s', crc)
  {
  }

  /** A step of the reader between clears: nothing in memory changes but, at the end, the counter. */
  lemma QuietReaderKeepsInv(s: State, s': State, crc: Crc)
    requires Inv(s, crc)
    requires s' == s.(q := s'.q, r := s'.r, received := s'.received) && s'.q == s.q.(exeCount := s'.q.exeCount)
    requires Cleared(s'.r) == Cleared(s.r) && s'.Shaped()
    requires ReaderInv(s') && CountInv(s')
    ensures Inv(s', crc)
  {
    SameMemory(s, s');
    WriterUndisturbed(s, s', crc);
  }

  lemma CopyHeaderKeepsInv(s: State, crc: Crc)
    requires Inv(s, crc) && s.r.RHeader? && |s.r.h| < FRAME_HEADER_SIZE
    ensures Inv(RStep(s, crc), crc)
  {
    var h, p := s.r.h, s.sent[s.taken];
    ReadsHead(s, crc, |h|);
    assert h + [p[|h|]] <= p;
    QuietReaderKeepsInv(s, RStep(s, crc), crc);
  }

  lemma AcceptHeaderKeepsInv(s: State, crc: Crc)
    requires Inv(s, crc) && s.r.RHeader? && |s.r.h| == FRAME_HEADER_SIZE
    ensures Inv(RStep(s, crc), crc)
  {
    HeadFits(s, crc);
    HeaderOfPacket(s.r.h, s.sent[s.taken]);
    QuietReaderKeepsInv(s, RStep(s, crc), crc);
  }

  lemma CopyBodyKeepsInv(s: State, crc: Crc)
    requires Inv(s, crc) && s.r.RBody? && FRAME_HEADER_SIZE + |s.r.b| < SizeOf(s.r.h)
    ensures Inv(RStep(s, crc), crc)
  {
    var h, b, p := s.r.h, s.r.b, s.sent[s.taken];
    HeaderOfPacket(h, p);
    ReadsHead(s, crc, FRAME_HEADER_SIZE + |b|);
    assert b + [Body(p)[|b|]] <= Body(p);
    assert RStep(s, crc) == s.(r := RBody(h, b + [Body(p)[|b|]]));
    QuietReaderKeepsInv(s, RStep(s, crc), crc);
  }

  lemma BodyCopiedKeepsInv(s: State, crc: Crc)
    requires Inv(s, crc) && s.r.RBody? && FRAME_HEADER_SIZE + |s.r.b| == SizeOf(s.r.h)
    ensures Inv(RStep(s, crc), crc)
  {
    HeaderOfPacket(s.r.h, s.sent[s.taken]);
    QuietReaderKeepsInv(s, RStep(s, crc), crc);
  }

  lemma ClearKeepsMemory(s: State, crc: Crc)
    requires s.Shaped() && s.taken < |s.sent| && MemoryInv(s)
    requires s.r.RClear? && s.r.done < SizeOf(s.r.h) <= |Flat(Pending(s))|
    ensures MemoryInv(RStep(s, crc))
  {
    var s' := RStep(s, crc);
    var q, n, flat, done := s.q, |s.q.data|, Flat(Pending(s)), s.r.done;
    assert Pending(s') == Pending(s);
    forall k | 0 <= k < n
      ensures s'.q.At(k) == Expected(flat, Cleared(s'.r), Stored(s'.w), k)
    {
      assert s.q.At(k) == Expected(flat, Cleared(s.r), Stored(s.w), k);
      assert Fwd(q.exe, k, n) == Fwd(q.exe, done, n) <==> k == done;
    }
  }

  lemma RetireKeepsMemory(s: State, crc: Crc)
    requires s.Shaped() && s.taken < |s.sent| && MemoryInv(s)
    requires s.r.RClear? && s.r.done == SizeOf(s.r.h) == |s.sent[s.taken]|
    requires |Flat(Pending(s))| + |Stored(s.w)| <= |s.q.data|
    ensures MemoryInv(RStep(s, crc))
  {
    var s' := RStep(s, crc);
    var q, n, p, rest := s.q, |s.q.data|, s.sent[s.taken], Flat(s.sent[s.taken + 1..]);
    HeadFits(s, crc);
    assert Pending(s') == s.sent[s.taken + 1..];
    forall k | 0 <= k < n
      ensures s'.q.At(k) == Expected(rest, 0, Stored(s'.w), k)
    {
      var k' := if k < n - |p| then k + |p| else k - (n - |p|);
      assert Fwd(s'.q.exe, k, n) == Fwd(q.exe, k', n);
      assert s.q.At(k') == Expected(p + rest, |p|, Stored(s.w), k');
    }
  }

  lemma ClearKeepsInv(s: State, crc: Crc)
    requires Inv(s, crc) && s.r.RClear? && s.r.done < SizeOf(s.r.h)
    ensures Inv(RStep(s, crc), crc)
  {
    HeadFits(s, crc);
    HeaderOfPacket(s.r.h, s.sent[s.taken]);
    ClearKeepsMemory(s, crc);
    WriterUndisturbed(s, RStep(s, crc), crc);
  }

  /** Moving `exe_index` only ever helps the writer. */
  lemma RetireKeepsInv(s: State, crc: Crc)
    requires Inv(s, crc) && s.r.RClear? && s.r.done == SizeOf(s.r.h)
    ensures Inv(RStep(s, crc), crc)
  {
    var s' := RStep(s, crc);
    HeadFits(s, crc);
    HeaderOfPacket(s.r.h, s.sent[s.taken]);
    RetireKeepsMemory(s, crc);
    assert Pending(s') == s.sent[s.taken + 1..];
    assert WriterInv(s', crc);
  }

  lemma ReaderKeepsInv(s: State, crc: Crc)
    requires Inv(s, crc)
    ensures Inv(RStep(s, crc), crc)
  {
    match s.r
    case RHeader(h) =>
      if |h| < FRAME_HEADER_SIZE { CopyHeaderKeepsInv(s, crc); } else { AcceptHeaderKeepsInv(s, crc); }
    case RBody(h, b) =>
      if FRAME_HEADER_SIZE + |b| < SizeOf(h) { CopyBodyKeepsInv(s, crc); } else { BodyCopiedKeepsInv(s, crc); }
    case RClear(h, _, done) =>
      if done < SizeOf(h) { ClearKeepsInv(s, crc); } else { RetireKeepsInv(s, crc); }
    case RIdle => IdleKeepsInv(s, crc);
    case RCheck(_, _) => CheckKeepsInv(s, crc);
    case RCount(_) => CountKeepsInv(s, crc);
  }

  lemma IdleKeepsInv(s: State, crc: Crc)
    requires Inv(s, crc) && s.r.RIdle?
    ensures Inv(RStep(s, crc), crc)
  {
    QuietReaderKeepsInv(s, RStep(s, crc), crc);
  }

  lemma CheckKeepsInv(s: State, crc: Crc)
    requires Inv(s, crc) && s.r.RCheck?
    ensures Inv(RStep(s, crc), crc)
  {
    HeaderOfPacket(s.r.h, s.sent[s.taken - 1]);
    QuietReaderKeepsInv(s, RStep(s, crc), crc);
  }

  lemma CountKeepsInv(s: State, crc: Crc)
    requires Inv(s, crc) && s.r.RCount?
    ensures Inv(RStep(s, crc), crc)
  {
    QuietReaderKeepsInv(s, RStep(s, crc), crc);
  }

  // ---------- whole runs ----------

  /** `put` is entered while the ring is filled to the last byte. */
  predicate EntersFull(s: State, t: Turn) {
    t.Produce? && s.w.WIdle? && s.q.alloc == s.q.exe && s.taken < |s.sent|
  }

  predicate Clean(s: State, turns: seq<Turn>, crc: Crc)
    requires s.Shaped()
    decreases |turns|
  {
    |turns| > 0 ==> !EntersFull(s, turns[0]) && Clean(Step(s, turns[0], crc), turns[1..], crc)
  }

  lemma {:induction false} RunKeepsInv(s: State, turns: seq<Turn>, crc: Crc)
    requires Inv(s, crc) && Clean(s, turns, crc)
    ensures Inv(Run(s, turns, crc), crc)
    decreases |turns|
  {
    if |turns| == 0 {
    } else {
      match turns[0] {
        case Produce(body) =>
          if s.taken == |s.sent| { assert Pending(s) == []; }
          WriterKeepsInv(s, body, crc);
        case Consume => ReaderKeepsInv(s, crc);
      }
      RunKeepsInv(Step(s, turns[0], crc), turns[1..], crc);
    }
  }

  /** Under every interleaving, what the consumer received is an in-order,
      byte-identical prefix of what the producer committed, and `get` never raises. */
  lemma EveryInterleavingIsFifo(size: nat, turns: seq<Turn>, crc: Crc)
    requires MIN_Q_SIZE <= size <= WORD_LIMIT
    requires Clean(Start(size), turns, crc)
    ensures var s := Run(Start(size), turns, crc);
            && AllWellFormed(s.sent, crc)
            && s.received <= RingRuns.Bodies(s.sent)
            && |s.sent| - |s.received| <= s.q.allocCount - s.q.exeCount + 1
            && !s.r.RFailed?
  {
    StartInv(size, crc);
    RunKeepsInv(Start(size), turns, crc);
  }

  /** A published frame leaves the ring filled to the last byte. */
  predicate FillsExactly(s: State, t: Turn, crc: Crc)
    requires s.Shaped()
  {
    t.Produce? && s.w.WStore? && WStep(s, t.body, crc).w.WCount?
      && WStep(s, t.body, crc).q.alloc == s.q.exe
  }

  predicate NoExactFill(s: State, turns: seq<Turn>, crc: Crc)
    requires s.Shaped()
    decreases |turns|
  {
    |turns| > 0 ==> !FillsExactly(s, turns[0], crc) && NoExactFill(Step(s, turns[0], crc), turns[1..], crc)
  }

  lemma PublishStaysPartial(s: State, body: seq<byte>, crc: Crc)
    requires s.Shaped() && s.taken <= |s.sent| && MemoryInv(s) && WriterInv(s, crc)
    requires s.w.WStore? && s.w.done == |s.w.packet| && WStep(s, body, crc).q.alloc != s.q.exe
    ensures |Flat(Pending(WStep(s, body, crc)))| < |s.q.data|
  {
    PublishKeepsMemory(s, body, crc);
  }

  lemma WriterStaysPartial(s: State, body: seq<byte>, crc: Crc)
    requires Inv(s, crc) && |Flat(Pending(s))| < |s.q.data| && !FillsExactly(s, Produce(body), crc)
    ensures var s' := WStep(s, body, crc); s'.taken <= |s'.sent| && |Flat(Pending(s'))| < |s'.q.data|
  {
    if s.w.WStore? && s.w.done == |s.w.packet| {
      PublishStaysPartial(s, body, crc);
    } else {
      QuietSendsNothing(s, body, crc);
    }
  }

  lemma QuietSendsNothing(s: State, body: seq<byte>, crc: Crc)
    requires s.Shaped() && !(s.w.WStore? && s.w.done == |s.w.packet|)
    requires s.w.WStore? ==> s.w.done <= |s.w.packet|
    ensures var s' := WStep(s, body, crc); s'.sent == s.sent && s'.taken == s.taken && |s'.q.data| == |s.q.data|
  {
  }

  lemma ReaderStaysPartial(s: State, crc: Crc)
    requires Inv(s, crc) && |Flat(Pending(s))| < |s.q.data|
    ensures var s' := RStep(s, crc); s'.taken <= |s'.sent| && |Flat(Pending(s'))| < |s'.q.data|
  {
    var s' := RStep(s, crc);
    if s.r.RClear? && s.r.done == SizeOf(s.r.h) {
      HeadFits(s, crc);
      assert Pending(s') == s.sent[s.taken + 1..];
    } else {
      UnretiredTakesNothing(s, crc);
    }
  }

  lemma UnretiredTakesNothing(s: State, crc: Crc)
    requires s.Shaped() && !(s.r.RClear? && s.r.done == SizeOf(s.r.h))
    ensures var s' := RStep(s, crc); s'.sent == s.sent && s'.taken == s.taken && |s'.q.data| == |s.q.data|
  {
  }

  /** A run in which no frame fills the ring exactly is a clean one. */
  lemma {:induction false} NoExactFillIsClean(s: State, turns: seq<Turn>, crc: Crc)
    requires Inv(s, crc) && |Flat(Pending(s))| < |s.q.data| && NoExactFill(s, turns, crc)
    ensures Clean(s, turns, crc)
    decreases |turns|
  {
    if |turns| > 0 {
      if s.taken < |s.sent| { HeadFits(s, crc); }
      match turns[0] {
        case Produce(body) =>
          WriterKeepsInv(s, body, crc);
          WriterStaysPartial(s, body, crc);
        case Consume =>
          ReaderKeepsInv(s, crc);
          ReaderStaysPartial(s, crc);
      }
      NoExactFillIsClean(Step(s, turns[0], crc), turns[1..], crc);
    }
  }
}
