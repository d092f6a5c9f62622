/**
 The ring of a `MemQueue`: the bytes from address 64 to the end of the shared
 memory, with the two index words and the two counter words of the control block.

 Positions here are ring offsets: a stored index minus `Q_CONTROL_SIZE`.  The
 functions say what one call does to the ring byte by byte; `Represents` relates
 the ring to the queue of packets it holds.
 */
module Ring {
  import opened Bytes

  const FRAME_HEADER_SIZE := 32
  const Q_CONTROL_SIZE := 64
  const MIN_Q_SIZE := Q_CONTROL_SIZE + FRAME_HEADER_SIZE + 1
  const CREATED: byte := 1
  const FRAME_TYPE: byte := 13
  /** "d@tal0op" */
  const WATER_MARK: seq<byte> := [100, 64, 116, 97, 108, 48, 111, 112]

  type Crc = seq<byte> -> Word

  // ---------- packets: a 32-byte header followed by the body ----------

  /** status, type, size, watermark, CRC, frame number, padding. */
  function Header(size: Word, checksum: Word, num: Word): (h: seq<byte>)
    ensures |h| == FRAME_HEADER_SIZE
  {
    [CREATED, FRAME_TYPE] + ToLE(size, 4) + WATER_MARK + ToLE(checksum, 4) + ToLE(num, 4) + Zeros(10)
  }

  function Packet(body: seq<byte>, num: Word, crc: Crc): seq<byte>
    requires FRAME_HEADER_SIZE + |body| < WORD_LIMIT
  {
    Header(FRAME_HEADER_SIZE + |body|, crc(body), num) + body
  }

  predicate HeaderOk(h: seq<byte>)
    requires |h| >= FRAME_HEADER_SIZE
  {
    h[0] == CREATED && h[6..14] == WATER_MARK
  }

  function SizeOf(h: seq<byte>): nat
    requires |h| >= FRAME_HEADER_SIZE
  {
    FromLE(h[2..6])
  }

  function Body(p: seq<byte>): seq<byte>
    requires |p| >= FRAME_HEADER_SIZE
  {
    p[FRAME_HEADER_SIZE..]
  }

  /** What the reader checks of the bytes it finds at `exe_index`. */
  predicate WellFormed(p: seq<byte>, crc: Crc) {
    && FRAME_HEADER_SIZE <= |p|
    && HeaderOk(p)
    && SizeOf(p) == |p|
    && p[14..18] == ToLE(crc(Body(p)), 4)
  }

  predicate AllWellFormed(ps: seq<seq<byte>>, crc: Crc) {
    forall i :: 0 <= i < |ps| ==> WellFormed(ps[i], crc)
  }

  predicate Headed(ps: seq<seq<byte>>) {
    forall i :: 0 <= i < |ps| ==> |ps[i]| >= FRAME_HEADER_SIZE
  }

  lemma PacketIsWellFormed(body: seq<byte>, num: Word, crc: Crc)
    requires FRAME_HEADER_SIZE + |body| < WORD_LIMIT
    ensures WellFormed(Packet(body, num, crc), crc)
    ensures Body(Packet(body, num, crc)) == body
    ensures Packet(body, num, crc)[1] == FRAME_TYPE && FromLE(Packet(body, num, crc)[18..22]) == num
    ensures forall i :: 22 <= i < FRAME_HEADER_SIZE ==> Packet(body, num, crc)[i] == 0
  {
    var p := Packet(body, num, crc);
    assert p[2..6] == ToLE(|p|, 4);
    assert p[6..14] == WATER_MARK;
    assert p[14..18] == ToLE(crc(body), 4);
    assert p[18..22] == ToLE(num, 4);
    assert Body(p) == body;
    WordRoundTrip(|p|);
    WordRoundTrip(num);
  }

  /** The packets end to end. */
  function Flat(ps: seq<seq<byte>>): seq<byte> {
    if |ps| == 0 then [] else ps[0] + Flat(ps[1..])
  }

  lemma {:induction false} FlatAppend(ps: seq<seq<byte>>, p: seq<byte>)
    ensures Flat(ps + [p]) == Flat(ps) + p
  {
    if |ps| == 0 {
      assert ps + [p] == [p];
      assert Flat([p]) == p + Flat([]);
    } else {
      assert (ps + [p])[1..] == ps[1..] + [p];
      FlatAppend(ps[1..], p);
    }
  }

  // ---------- ring addition ----------

  /** `k` bytes on from offset `p` in a ring of `n` bytes. */
  function Fwd(p: nat, k: nat, n: nat): (r: nat)
    requires p < n && k <= n
    ensures r < n
  {
    if p + k < n then p + k else p + k - n
  }

  /** How far on from `p` the offset `i` lies. */
  function Dist(p: nat, i: nat, n: nat): (k: nat)
    requires p < n && i < n
    ensures k < n && Fwd(p, k, n) == i
  {
    if p <= i then i - p else i + n - p
  }

  // ---------- the state of one queue ----------

  datatype QState = QState(data: seq<byte>, alloc: nat, exe: nat, allocCount: nat, exeCount: nat) {
    predicate Shaped() {
      && MIN_Q_SIZE <= Size() <= WORD_LIMIT
      && alloc < |data| && exe < |data|
    }

    function Size(): nat { |data| + Q_CONTROL_SIZE }

    /** The `free_space` property. */
    function FreeSpace(): (free: int)
      requires Shaped()
      ensures 0 < free <= |data|
    {
      if alloc < exe then exe - alloc else |data| - (alloc - exe)
    }

    /** `capacity > MAX_CAPACITY`, with 0.90 as the rational 9/10. */
    predicate OverCapacity()
      requires Shaped()
    {
      10 * (|data| - FreeSpace()) > 9 * Size()
    }

    predicate Admits(frameSize: nat)
      requires Shaped()
    {
      !OverCapacity() && frameSize <= FreeSpace()
    }

    /** The byte `k` places on from `exe`. */
    function At(k: nat): byte
      requires Shaped() && k < |data|
    {
      data[Fwd(exe, k, |data|)]
    }
  }

  /** `n` bytes from offset `p` on, round the end of the ring if need be. */
  function ReadAt(data: seq<byte>, p: nat, n: nat): (s: seq<byte>)
    requires p < |data| && n <= |data|
    ensures |s| == n
    ensures forall k :: 0 <= k < n ==> s[k] == data[Fwd(p, k, |data|)]
  {
    seq(n, k requires 0 <= k < n => data[Fwd(p, k, |data|)])
  }

  /** `data` with `bytes` stored from offset `p` on, round the end if need be. */
  function WriteAt(data: seq<byte>, p: nat, bytes: seq<byte>): (r: seq<byte>)
    requires p < |data| && |bytes| <= |data|
    ensures |r| == |data|
    ensures forall i :: 0 <= i < |data| ==>
      r[i] == if Dist(p, i, |data|) < |bytes| then bytes[Dist(p, i, |data|)] else data[i]
  {
    seq(|data|, i requires 0 <= i < |data| =>
      if Dist(p, i, |data|) < |bytes| then bytes[Dist(p, i, |data|)] else data[i])
  }

  lemma ReadBack(data: seq<byte>, p: nat, bytes: seq<byte>)
    requires p < |data| && |bytes| <= |data|
    ensures ReadAt(WriteAt(data, p, bytes), p, |bytes|) == bytes
  {
    var r := WriteAt(data, p, bytes);
    forall k | 0 <= k < |bytes|
      ensures r[Fwd(p, k, |data|)] == bytes[k]
    {
      assert Dist(p, Fwd(p, k, |data|), |data|) == k;
    }
    assert ReadAt(r, p, |bytes|) == bytes;
  }

  /** The effect of an admitted `put`. */
  function Push(q: QState, packet: seq<byte>): (r: QState)
    requires q.Shaped() && |packet| <= |q.data|
    ensures r.Shaped()
  {
    q.(data := WriteAt(q.data, q.alloc, packet),
       alloc := Fwd(q.alloc, |packet|, |q.data|),
       allocCount := q.allocCount + 1)
  }

  datatype Putting = Accepted | Refused | Overflowed

  /** The part of `put` under the write lock; `num` is the producer's `frame_counter`.
      A number past four bytes raises before anything is stored; a count past four
      bytes raises when the frame is already published. */
  function Store(q: QState, num: nat, body: seq<byte>, crc: Crc): (r: (QState, nat, Putting))
    requires q.Shaped() && FRAME_HEADER_SIZE + |body| <= |q.data|
    ensures r.0.Shaped()
  {
    if num >= WORD_LIMIT then (q, num, Overflowed)
    else
      var q' := Push(q, Packet(body, num, crc));
      if q'.allocCount < WORD_LIMIT then (q', num + 1, Accepted)
      else (q'.(allocCount := q.allocCount), num + 1, Overflowed)
  }

  /** `put` of an encoded frame. */
  function Put(q: QState, num: nat, body: seq<byte>, crc: Crc): (r: (QState, nat, Putting))
    requires q.Shaped()
    ensures r.0.Shaped()
  {
    if q.Admits(FRAME_HEADER_SIZE + |body|) then Store(q, num, body, crc) else (q, num, Refused)
  }

  // ---------- taking a frame: the part of `get` under the read lock ----------

  datatype Fault = MissingWatermark | BadChecksum | CountOverflow

  datatype Taking = Nothing | Broken(fault: Fault) | Taken(body: seq<byte>)

  /** A frame that carries the status and the watermark also carries a size that fits the ring. */
  predicate Sane(q: QState)
    requires q.Shaped()
  {
    var h := ReadAt(q.data, q.exe, FRAME_HEADER_SIZE);
    HeaderOk(h) ==> FRAME_HEADER_SIZE <= SizeOf(h) <= |q.data|
  }

  function Clear(q: QState, n: nat): (r: QState)
    requires q.Shaped() && n <= |q.data|
    ensures r.Shaped()
  {
    q.(data := WriteAt(q.data, q.exe, Zeros(n)), exe := Fwd(q.exe, n, |q.data|))
  }

  function Take(q: QState, crc: Crc): (r: (QState, Taking))
    requires q.Shaped() && Sane(q)
    ensures r.0.Shaped()
  {
    var h := ReadAt(q.data, q.exe, FRAME_HEADER_SIZE);
    if h[0] != CREATED then (q, Nothing)
    else if h[6..14] != WATER_MARK then (q, Broken(MissingWatermark))
    else
      var packet := ReadAt(q.data, q.exe, SizeOf(h));
      var body := Body(packet);
      (Clear(q, SizeOf(h)), if h[14..18] == ToLE(crc(body), 4) then Taken(body) else Broken(BadChecksum))
  }

  /** `get`: the pending check, the locked section, and the counter, which only a body
      that decodes moves and which must still fit its four bytes. */
  function Get(q: QState, crc: Crc, decodes: seq<byte> -> bool): (r: (QState, Taking))
    requires q.Shaped() && Sane(q)
    ensures r.0.Shaped()
  {
    if q.allocCount == q.exeCount then (q, Nothing)
    else
      var (q', t) := Take(q, crc);
      if !t.Taken? || !decodes(t.body) then (q', t)
      else if q'.exeCount + 1 < WORD_LIMIT then (q'.(exeCount := q'.exeCount + 1), t)
      else (q', Broken(CountOverflow))
  }

  // ---------- the representation invariant ----------

  /** `q` holds exactly the packets `pending`, oldest first, and `lost` counts the
      frames that were removed without moving `exe_counter`. */
  ghost predicate Represents(q: QState, pending: seq<seq<byte>>, lost: nat, crc: Crc) {
    && q.Shaped()
    && AllWellFormed(pending, crc)
    && var flat := Flat(pending);
    && |flat| <= |q.data|
    && q.alloc == Fwd(q.exe, |flat|, |q.data|)
    && q.allocCount == q.exeCount + |pending| + lost < WORD_LIMIT
    && (forall k :: 0 <= k < |q.data| ==> q.At(k) == if k < |flat| then flat[k] else 0)
  }

  function Init(size: nat): QState
    requires MIN_Q_SIZE <= size
  {
    QState(Zeros(size - Q_CONTROL_SIZE), 0, 0, 0, 0)
  }

  lemma InitRepresents(size: nat, crc: Crc)
    requires MIN_Q_SIZE <= size <= WORD_LIMIT
    ensures Represents(Init(size), [], 0, crc)
  {
  }

  lemma PushRepresents(q: QState, pending: seq<seq<byte>>, lost: nat, crc: Crc, packet: seq<byte>)
    requires Represents(q, pending, lost, crc)
    requires WellFormed(packet, crc) && |packet| <= |q.data| - |Flat(pending)| && q.allocCount + 1 < WORD_LIMIT
    ensures Represents(Push(q, packet), pending + [packet], lost, crc)
  {
    var n, flat := |q.data|, Flat(pending);
    var r := Push(q, packet);
    FlatAppend(pending, packet);
    forall k | 0 <= k < n
      ensures r.At(k) == if k < |flat| + |packet| then (flat + packet)[k] else 0
    {
      assert q.At(k) == q.data[Fwd(q.exe, k, n)];
      DistFromEnd(q.exe, |flat|, k, n);
    }
  }

  /** Byte `k` from `p` on, seen from `used` bytes further. */
  lemma DistFromEnd(p: nat, used: nat, k: nat, n: nat)
    requires p < n && used <= n && k < n
    ensures Dist(Fwd(p, used, n), Fwd(p, k, n), n) == if k < used then n - used + k else k - used
  {
  }

  /** With packets pending the oldest one lies at `exe`; with none the status byte there is 0. */
  lemma HeadOfRing(q: QState, pending: seq<seq<byte>>, lost: nat, crc: Crc)
    requires Represents(q, pending, lost, crc)
    ensures Sane(q)
    ensures |pending| == 0 ==> ReadAt(q.data, q.exe, FRAME_HEADER_SIZE)[0] == 0
    ensures |pending| > 0 ==>
      && |pending[0]| <= |q.data|
      && ReadAt(q.data, q.exe, |pending[0]|) == pending[0]
      && ReadAt(q.data, q.exe, FRAME_HEADER_SIZE) == pending[0][..FRAME_HEADER_SIZE]
  {
    var h := ReadAt(q.data, q.exe, FRAME_HEADER_SIZE);
    assert h[0] == q.At(0);
    if |pending| > 0 {
      var p := pending[0];
      forall k | 0 <= k < |p|
        ensures q.data[Fwd(q.exe, k, |q.data|)] == p[k]
      {
        assert q.At(k) == Flat(pending)[k];
      }
      assert ReadAt(q.data, q.exe, |p|) == p;
      assert h == p[..FRAME_HEADER_SIZE];
      assert h[2..6] == p[2..6] && h[6..14] == p[6..14];
    }
  }

  lemma ClearRepresents(q: QState, pending: seq<seq<byte>>, lost: nat, crc: Crc)
    requires Represents(q, pending, lost, crc) && |pending| > 0
    ensures |pending[0]| <= |q.data|
    ensures Represents(Clear(q, |pending[0]|), pending[1..], lost + 1, crc)
  {
    var n, flat, p := |q.data|, Flat(pending), pending[0];
    assert flat == p + Flat(pending[1..]);
    var r := Clear(q, |p|);
    forall k | 0 <= k < n
      ensures r.At(k) == if k < |flat| - |p| then Flat(pending[1..])[k] else 0
    {
      var i := Fwd(r.exe, k, n);
      var k' := if k < n - |p| then k + |p| else k - (n - |p|);
      assert i == Fwd(q.exe, k', n) && Dist(q.exe, i, n) == k';
      assert q.At(k') == q.data[i];
    }
  }

  /** `Take` returns the oldest body byte for byte and removes exactly it; on an empty ring it returns nothing. */
  lemma TakeRepresents(q: QState, pending: seq<seq<byte>>, lost: nat, crc: Crc)
    requires Represents(q, pending, lost, crc)
    ensures Sane(q)
    ensures |pending| == 0 ==> Take(q, crc) == (q, Nothing)
    ensures |pending| > 0 ==>
      && Take(q, crc).1 == Taken(Body(pending[0]))
      && Represents(Take(q, crc).0, pending[1..], lost + 1, crc)
  {
    HeadOfRing(q, pending, lost, crc);
    if |pending| > 0 {
      var p := pending[0];
      var h := ReadAt(q.data, q.exe, FRAME_HEADER_SIZE);
      assert h[2..6] == p[2..6] && h[6..14] == p[6..14] && h[14..18] == p[14..18];
      ClearRepresents(q, pending, lost, crc);
    }
  }

  // ---------- counters at their end ----------

  /** A frame that cannot be numbered changes nothing; one that cannot be counted is
      published, and its bytes lie behind those pending, but the counter stands still. */
  lemma PutAtTheEnd(q: QState, num: nat, body: seq<byte>, crc: Crc)
    requires q.Shaped() && q.Admits(FRAME_HEADER_SIZE + |body|)
    ensures num >= WORD_LIMIT ==> Put(q, num, body, crc) == (q, num, Overflowed)
    ensures num < WORD_LIMIT && q.allocCount + 1 >= WORD_LIMIT ==>
      var (q', num', p) := Put(q, num, body, crc);
      && p == Overflowed && num' == num + 1
      && q'.allocCount == q.allocCount && q'.exeCount == q.exeCount && q'.exe == q.exe
      && q'.alloc == Fwd(q.alloc, FRAME_HEADER_SIZE + |body|, |q.data|)
      && |q'.data| == |q.data|
      && ReadAt(q'.data, q.alloc, FRAME_HEADER_SIZE + |body|) == Packet(body, num, crc)
  {
    if num < WORD_LIMIT {
      ReadBack(q.data, q.alloc, Packet(body, num, crc));
    }
  }

  // ---------- one damaged byte ----------

  /** The queue with byte `k` of its oldest frame changed to `v`. */
  function Damaged(q: QState, k: nat, v: byte): (r: QState)
    requires q.Shaped() && k < |q.data|
    ensures r.Shaped() && |r.data| == |q.data|
  {
    q.(data := q.data[Fwd(q.exe, k, |q.data|) := v])
  }

  lemma DamageShows(q: QState, pending: seq<seq<byte>>, lost: nat, crc: Crc, k: nat, v: byte)
    requires Represents(q, pending, lost, crc) && |pending| > 0 && k < |pending[0]|
    ensures |pending[0]| <= |q.data|
    ensures ReadAt(Damaged(q, k, v).data, q.exe, |pending[0]|) == pending[0][k := v]
    ensures ReadAt(Damaged(q, k, v).data, q.exe, FRAME_HEADER_SIZE) == pending[0][k := v][..FRAME_HEADER_SIZE]
    ensures Clear(Damaged(q, k, v), |pending[0]|) == Clear(q, |pending[0]|)
  {
    HeadOfRing(q, pending, lost, crc);
    var n, p, d := |q.data|, pending[0], Damaged(q, k, v);
    assert ReadAt(q.data, q.exe, |p|) == p;
    forall j | 0 <= j < |p|
      ensures d.data[Fwd(q.exe, j, n)] == p[k := v][j]
    {
      assert q.data[Fwd(q.exe, j, n)] == ReadAt(q.data, q.exe, |p|)[j];
      assert Fwd(q.exe, j, n) == Fwd(q.exe, k, n) <==> j == k;
    }
    assert ReadAt(d.data, q.exe, |p|) == p[k := v];
    assert ReadAt(d.data, q.exe, FRAME_HEADER_SIZE) == p[k := v][..FRAME_HEADER_SIZE];
    forall i | 0 <= i < n
      ensures WriteAt(d.data, q.exe, Zeros(|p|))[i] == WriteAt(q.data, q.exe, Zeros(|p|))[i]
    {
      assert Dist(q.exe, Fwd(q.exe, k, n), n) == k;
    }
    assert WriteAt(d.data, q.exe, Zeros(|p|)) == WriteAt(q.data, q.exe, Zeros(|p|));
  }

  /** What the reader notices of one damaged byte that is none of the size: a missing
      status hides the frame, a wrong watermark is an error that leaves memory alone, a
      wrong CRC word or a body of another CRC is an error that removes the frame. */
  lemma DamageIsNoticed(q: QState, pending: seq<seq<byte>>, lost: nat, crc: Crc, k: nat, v: byte)
    requires Represents(q, pending, lost, crc) && |pending| > 0 && k < |pending[0]| && v != pending[0][k]
    requires k < 2 || 6 <= k
    ensures |pending[0]| <= |q.data| && Sane(Damaged(q, k, v))
    ensures var d := Damaged(q, k, v);
            var (q', t) := Take(d, crc);
            if k == 0 then (q', t) == (d, Nothing)
            else if 6 <= k < 14 then (q', t) == (d, Broken(MissingWatermark))
            else
              && Represents(q', pending[1..], lost + 1, crc)
              && t == if 14 <= k < 18 then Broken(BadChecksum)
                      else if k < FRAME_HEADER_SIZE then Taken(Body(pending[0]))
                      else
                        var b := Body(pending[0])[k - FRAME_HEADER_SIZE := v];
                        if ToLE(crc(b), 4) == ToLE(crc(Body(pending[0])), 4) then Taken(b) else Broken(BadChecksum)
  {
    var p := pending[0];
    DamageShows(q, pending, lost, crc, k, v);
    ClearRepresents(q, pending, lost, crc);
    DamagedHeader(p, k, v);
  }

  /** The parts of a packet with one byte changed. */
  lemma DamagedHeader(p: seq<byte>, k: nat, v: byte)
    requires |p| >= FRAME_HEADER_SIZE && k < |p| && v != p[k] && (k < 2 || 6 <= k)
    ensures var h := p[k := v][..FRAME_HEADER_SIZE];
            && h[0] == p[k := v][0]
            && SizeOf(h) == SizeOf(p)
            && (h[6..14] == p[6..14] <==> !(6 <= k < 14))
            && (h[14..18] == p[14..18] <==> !(14 <= k < 18))
    ensures Body(p[k := v]) == if k < FRAME_HEADER_SIZE then Body(p) else Body(p)[k - FRAME_HEADER_SIZE := v]
  {
    var h := p[k := v][..FRAME_HEADER_SIZE];
    assert h[2..6] == p[2..6];
    if 6 <= k < 14 { assert h[6..14][k - 6] != p[6..14][k - 6]; }
    if 14 <= k < 18 { assert h[14..18][k - 14] != p[14..18][k - 14]; }
  }
}
