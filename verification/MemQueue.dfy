/**
 The `MemQueue` object: `put` and `get` on a flat byte array, with the branches,
 slices and control-word updates of the code, proved against module Ring.
 */
module MemQueues {
  import opened Bytes
  import opened Results
  import opened Ring
  import RingIndex
  import opened ControlBlock
  import opened DataFrames

  const OPEN: byte := 1
  const NORMAL: byte := 1

  predicate Decodes(body: seq<byte>) {
    DecodeFrame(body).Ok?
  }

  /** `put` on a queue state, given the encoded frame: the capacity test comes before the encoding. */
  function Enqueue(q: QState, num: nat, encoded: Result<seq<byte>>, crc: Crc): (r: (QState, nat, Result<bool>))
    requires q.Shaped()
    ensures r.0.Shaped()
  {
    if q.OverCapacity() then (q, num, Ok(false))
    else if encoded.Err? then (q, num, Err(encoded.error))
    else
      var (q', num', p) := Put(q, num, encoded.value, crc);
      (q', num', AnswerOf(p))
  }

  function AnswerOf(p: Putting): Result<bool> {
    match p
    case Accepted => Ok(true)
    case Refused => Ok(false)
    case Overflowed => Err(OverflowError)
  }

  function ErrorOf(f: Fault): Error {
    if f == CountOverflow then OverflowError else BrokenPipeError
  }

  class MemQueue {
    const size: nat
    const crc: Crc
    const buf: array<byte>
    var frameCounter: nat

    /** The constructor of the code, which raises when not even one byte could be sent. */
    static method Make(size: nat, crc: Crc) returns (r: Result<MemQueue>)
      requires size <= WORD_LIMIT
      ensures size < MIN_Q_SIZE ==> r == Err(MemoryError)
      ensures size >= MIN_Q_SIZE ==>
        && r.Ok? && fresh(r.value) && fresh(r.value.buf) && r.value.size == size && r.value.crc == crc
        && r.value.Legal() && r.value.View() == Init(size) && r.value.frameCounter == 0
    {
      if size < MIN_Q_SIZE {
        return Err(MemoryError);
      }
      var queue := new MemQueue.Create(size, crc);
      r := Ok(queue);
    }

    ghost predicate Legal()
      reads this, buf
    {
      size == buf.Length && LegalMemory(buf[..])
    }

    ghost function View(): (q: QState)
      requires Legal()
      reads this, buf
      ensures q.Shaped()
    {
      ViewOf(buf[..])
    }

    /** Creating the shared memory. */
    constructor Create(size: nat, crc: Crc)
      requires MIN_Q_SIZE <= size <= WORD_LIMIT
      ensures Legal() && fresh(buf) && View() == Init(size)
      ensures this.size == size && this.crc == crc && frameCounter == 0
    {
      this.size, this.crc, this.frameCounter := size, crc, 0;
      this.buf := new byte[size](_ => 0);
      new;
      assert buf[..] == Zeros(size);
      Store(STATUS_POINTER, [OPEN]);
      Store(DIRECTION_POINTER, [NORMAL]);
      Store(ALLOC_POINTER, ToLE(Q_CONTROL_SIZE, 4));
      Store(EXE_POINTER, ToLE(Q_CONTROL_SIZE, 4));
      CreatedView(size, OPEN, NORMAL);
      SetDfpsInterval();
    }

    /** Opening memory that another process created. */
    constructor Attach(mem: array<byte>, crc: Crc)
      requires LegalMemory(mem[..])
      modifies mem
      ensures Legal() && buf == mem && View() == ViewOf(old(mem[..]))
      ensures this.crc == crc && frameCounter == 0
    {
      this.size, this.crc, this.frameCounter, this.buf := mem.Length, crc, 0, mem;
      new;
      SetDfpsInterval();
    }

    method SetDfpsInterval()
      requires Legal()
      modifies buf
      ensures Legal() && View() == old(View())
    {
      StoreOtherView(buf[..], DFPS_CALC_INTERVAL, ToLE(1000, 4));
      Store(DFPS_CALC_INTERVAL, ToLE(1000, 4));
    }

    /** Assignment to a slice of `mem.buf`. */
    method Store(at: nat, bytes: seq<byte>)
      requires at + |bytes| <= buf.Length
      modifies buf
      ensures buf[..] == Stored(old(buf[..]), at, bytes)
    {
      forall i | 0 <= i < |bytes| {
        buf[at + i] := bytes[i];
      }
    }

    function AllocIndex(): nat
      requires buf.Length >= Q_CONTROL_SIZE
      reads this, buf
    {
      FromLE(buf[ALLOC_POINTER..ALLOC_POINTER + 4])
    }

    function ExeIndex(): nat
      requires buf.Length >= Q_CONTROL_SIZE
      reads this, buf
    {
      FromLE(buf[EXE_POINTER..EXE_POINTER + 4])
    }

    function AllocCounter(): nat
      requires buf.Length >= Q_CONTROL_SIZE
      reads this, buf
    {
      FromLE(buf[ALLOC_COUNTER_POINTER..ALLOC_COUNTER_POINTER + 4])
    }

    function ExeCounter(): nat
      requires buf.Length >= Q_CONTROL_SIZE
      reads this, buf
    {
      FromLE(buf[EXE_COUNTER_POINTER..EXE_COUNTER_POINTER + 4])
    }

    /** The getters read what `View` shows. */
    lemma GettersAreView()
      requires Legal()
      ensures AllocIndex() == View().alloc + Q_CONTROL_SIZE && ExeIndex() == View().exe + Q_CONTROL_SIZE
      ensures AllocCounter() == View().allocCount && ExeCounter() == View().exeCount
      ensures buf.Length == |View().data| + Q_CONTROL_SIZE
      ensures View().data == buf[Q_CONTROL_SIZE..]
    {
      assert buf[..][26..30] == buf[26..30] && buf[..][30..34] == buf[30..34];
      assert buf[..][34..38] == buf[34..38] && buf[..][38..42] == buf[38..42];
      assert buf[..][64..] == buf[64..];
    }

    function FreeSpace(): (free: int)
      requires Legal()
      reads this, buf
      ensures free == View().FreeSpace()
    {
      GettersAreView();
      if AllocIndex() < ExeIndex() then ExeIndex() - AllocIndex()
      else (size - Q_CONTROL_SIZE) - (AllocIndex() - ExeIndex())
    }

    method SetWord(at: nat, v: Word)
      requires Legal()
      requires at in VIEW_WORDS
      requires at == ALLOC_POINTER || at == EXE_POINTER ==> Q_CONTROL_SIZE <= v < size
      modifies buf
      ensures Legal()
      ensures View() == if at == ALLOC_POINTER then old(View()).(alloc := v - Q_CONTROL_SIZE)
                        else if at == EXE_POINTER then old(View()).(exe := v - Q_CONTROL_SIZE)
                        else if at == ALLOC_COUNTER_POINTER then old(View()).(allocCount := v)
                        else old(View()).(exeCount := v)
    {
      StoreWordView(buf[..], at, v);
      Store(at, ToLE(v, 4));
    }

    method StoreData(at: nat, bytes: seq<byte>)
      requires Legal() && Q_CONTROL_SIZE <= at && at + |bytes| <= size
      modifies buf
      ensures Legal()
      ensures View() == old(View()).(data := Stored(old(View()).data, at - Q_CONTROL_SIZE, bytes))
      ensures buf[..Q_CONTROL_SIZE] == old(buf[..Q_CONTROL_SIZE])
    {
      StoreDataView(buf[..], at, bytes);
      DataKeepsControl(buf[..], at, bytes);
      Store(at, bytes);
      assert buf[..Q_CONTROL_SIZE] == buf[..][..Q_CONTROL_SIZE];
    }

    method SetDirection()
      requires Legal()
      modifies buf
      ensures Legal() && View() == old(View())
    {
      StoreOtherView(buf[..], DIRECTION_POINTER, [NORMAL]);
      Store(DIRECTION_POINTER, [NORMAL]);
    }

    method SetDfpsWord(at: nat, v: nat, bytes: nat)
      requires Legal() && DFPS_CALC_INTERVAL <= at && at + bytes <= Q_CONTROL_SIZE
      modifies buf
      ensures Legal() && View() == old(View())
    {
      StoreOtherView(buf[..], at, ToLE(v, bytes));
      Store(at, ToLE(v, bytes));
    }

    /** `update_dfps` at the given clock. */
    method UpdateDfps(nowMs: nat)
      requires Legal()
      modifies buf
      ensures Legal() && View() == old(View())
    {
      var last := FromLE(buf[LAST_DFPS_CALC_TIME..LAST_DFPS_CALC_TIME + 8]);
      var interval := FromLE(buf[DFPS_CALC_INTERVAL..DFPS_CALC_INTERVAL + 4]);
      if nowMs - last < interval {
        return;
      }
      SetDfpsWord(DFPS_LAST_EXE_COUNTER, ExeCounter(), 4);
      SetDfpsWord(DFPS_LAST_ALLOC_COUNTER, AllocCounter(), 4);
      SetDfpsWord(LAST_DFPS_CALC_TIME, nowMs, 8);
    }

    method SpaceAvailable(df: DataFrame) returns (r: Result<bool>)
      requires Legal() && df.Valid()
      ensures r == match EncodeFrame(df.fields)
                   case Ok(body) => Ok(FRAME_HEADER_SIZE + |body| <= View().FreeSpace())
                   case Err(e) => Err(e)
    {
      var body := df.ToByteArr();
      if body.Err? {
        return Err(body.error);
      }
      r := Ok(!(|body.value| + FRAME_HEADER_SIZE > FreeSpace()));
    }

    /** A store split where the buffer ends. */
    method StoreSlices(at: nat, bytes: seq<byte>)
      requires Legal() && Q_CONTROL_SIZE <= at < size && |bytes| <= size - Q_CONTROL_SIZE
      modifies buf
      ensures Legal()
      ensures View() == old(View()).(data := StoredInSlices(old(View()).data, at - Q_CONTROL_SIZE, bytes))
    {
      var endOfBufferSpace := size - at;
      ghost var data := View().data;
      GettersAreView();
      if |bytes| >= endOfBufferSpace {
        StoreData(at, bytes[..endOfBufferSpace]);
        assert View().data == Stored(data, at - Q_CONTROL_SIZE, bytes[..endOfBufferSpace]);
        StoreData(Q_CONTROL_SIZE, bytes[endOfBufferSpace..]);
      } else {
        StoreData(at, bytes);
      }
    }

    method StoreSplit(at: nat, bytes: seq<byte>)
      requires Legal() && Q_CONTROL_SIZE <= at < size && |bytes| <= size - Q_CONTROL_SIZE
      modifies buf
      ensures Legal()
      ensures View() == old(View()).(data := WriteAt(old(View()).data, at - Q_CONTROL_SIZE, bytes))
    {
      SlicesWrite(View().data, at - Q_CONTROL_SIZE, bytes);
      StoreSlices(at, bytes);
    }

    /** The locked section of `put`. */
    method WriteFrame(frame: seq<byte>)
      requires Legal() && |frame| <= size - Q_CONTROL_SIZE
      modifies buf
      ensures Legal()
      ensures View() == Push(old(View()), frame).(allocCount := old(View()).allocCount)
    {
      GettersAreView();
      var frameSize := |frame|;
      var frameAddress := AllocIndex();
      var endOfBufferSpace := size - frameAddress;
      StoreSplit(frameAddress, frame);
      if frameSize >= endOfBufferSpace {
        var sizeLeft := frameSize - endOfBufferSpace;
        SetWord(ALLOC_POINTER, Q_CONTROL_SIZE + sizeLeft);
      } else {
        SetWord(ALLOC_POINTER, frameAddress + frameSize);
      }
      SetDirection();
    }

    /** `put` from the lock on. */
    method Commit(body: seq<byte>, nowMs: nat) returns (p: Putting)
      requires Legal() && View().Admits(FRAME_HEADER_SIZE + |body|)
      modifies buf, `frameCounter
      ensures Legal() && (View(), frameCounter, p) == Ring.Put(old(View()), old(frameCounter), body, crc)
      ensures frameCounter == old(frameCounter) ==> buf[..] == old(buf[..])
    {
      var frameSize := |body| + FRAME_HEADER_SIZE;
      if frameCounter >= WORD_LIMIT {
        return Overflowed;
      }
      var frame := Header(frameSize, crc(body), frameCounter) + body;
      frameCounter := frameCounter + 1;
      WriteFrame(frame);
      UpdateDfps(nowMs);
      p := CountAllocated();
    }

    /** `alloc_counter += 1`, which raises when the sum does not fit its four bytes. */
    method CountAllocated() returns (p: Putting)
      requires Legal()
      modifies buf
      ensures Legal()
      ensures p == if old(View()).allocCount + 1 < WORD_LIMIT then Accepted else Overflowed
      ensures View() == if p == Accepted then old(View()).(allocCount := old(View()).allocCount + 1) else old(View())
    {
      GettersAreView();
      if AllocCounter() + 1 >= WORD_LIMIT {
        return Overflowed;
      }
      SetWord(ALLOC_COUNTER_POINTER, AllocCounter() + 1);
      p := Accepted;
    }

    /** `put`: what `Enqueue` says; and unless a frame number was used up, not one byte of memory changes. */
    method Put(df: DataFrame, nowMs: nat) returns (r: Result<bool>)
      requires Legal() && df.Valid()
      modifies buf, `frameCounter
      ensures Legal() && df.fields == old(df.fields)
      ensures (View(), frameCounter, r) == Enqueue(old(View()), old(frameCounter), EncodeFrame(df.fields), crc)
      ensures frameCounter == old(frameCounter) ==> buf[..] == old(buf[..])
    {
      if 10 * (size - Q_CONTROL_SIZE - FreeSpace()) > 9 * size {
        return Ok(false);
      }
      var body := df.ToByteArr();
      if body.Err? {
        return Err(body.error);
      }
      var frameSize := |body.value| + FRAME_HEADER_SIZE;
      if frameSize > FreeSpace() {
        return Ok(false);
      }
      var p := Commit(body.value, nowMs);
      r := AnswerOf(p);
    }

    /** A read that may run over the end of the buffer. */
    method CopyOut(at: nat, n: nat) returns (s: seq<byte>)
      requires Legal() && Q_CONTROL_SIZE <= at < size && n <= size - Q_CONTROL_SIZE
      ensures s == ReadAt(View().data, at - Q_CONTROL_SIZE, n)
    {
      ghost var mem := buf[..];
      SlicesRead(View().data, at - Q_CONTROL_SIZE, n);
      if at + n < size {
        s := buf[at..at + n];
        SliceBehind(mem, Q_CONTROL_SIZE, at, at + n);
      } else {
        var spaceLeft := size - at;
        s := buf[at..] + buf[Q_CONTROL_SIZE..Q_CONTROL_SIZE + n - spaceLeft];
        SliceBehind(mem, Q_CONTROL_SIZE, at, size);
        SliceBehind(mem, Q_CONTROL_SIZE, Q_CONTROL_SIZE, Q_CONTROL_SIZE + n - spaceLeft);
      }
    }

    /** Zeroing an executed frame and moving `exe_index` behind it. */
    method ClearFrame(frameSize: nat)
      requires Legal() && frameSize <= size - Q_CONTROL_SIZE
      modifies buf
      ensures Legal() && View() == Clear(old(View()), frameSize)
    {
      GettersAreView();
      var exe := ExeIndex();
      StoreSplit(exe, Zeros(frameSize));
      RingIndex.BothAreRingAddition(size, exe, frameSize);
      if exe + frameSize < size {
        SetWord(EXE_POINTER, exe + frameSize);
      } else {
        SetWord(EXE_POINTER, Q_CONTROL_SIZE + (exe + frameSize) % size);
      }
    }

    /** The body of the frame at `exe`, from behind its header. */
    method ReadBody(frameSize: nat) returns (body: seq<byte>)
      requires Legal() && FRAME_HEADER_SIZE <= frameSize <= size - Q_CONTROL_SIZE
      ensures body == Body(ReadAt(View().data, View().exe, frameSize))
    {
      GettersAreView();
      var exe := ExeIndex();
      var bodyStart;
      RingIndex.BothAreRingAddition(size, exe, FRAME_HEADER_SIZE);
      if exe + FRAME_HEADER_SIZE >= size {
        bodyStart := Q_CONTROL_SIZE + (exe + FRAME_HEADER_SIZE) % size;
      } else {
        bodyStart := exe + FRAME_HEADER_SIZE;
      }
      body := CopyOut(bodyStart, frameSize - FRAME_HEADER_SIZE);
      BodyBehindHeader(View().data, View().exe, frameSize);
    }

    method ReadHeader() returns (header: seq<byte>)
      requires Legal()
      ensures header == ReadAt(View().data, View().exe, FRAME_HEADER_SIZE)
    {
      GettersAreView();
      header := CopyOut(ExeIndex(), FRAME_HEADER_SIZE);
    }

    /** `get` from the lock to the CRC comparison. */
    method TakeBody() returns (t: Taking)
      requires Legal() && Sane(View())
      modifies buf
      ensures Legal() && (View(), t) == Take(old(View()), crc)
      ensures t == Nothing ==> buf[..] == old(buf[..])
    {
      var header := ReadHeader();
      if header[0] != CREATED {
        return Nothing;
      }
      if header[6..14] != WATER_MARK {
        return Broken(MissingWatermark);
      }
      var frameSize := FromLE(header[2..6]);
      var frameData := ReadBody(frameSize);
      ClearFrame(frameSize);
      if header[14..18] != ToLE(crc(frameData), 4) {
        return Broken(BadChecksum);
      }
      t := Taken(frameData);
    }

    /** `exe_counter += 1`, which raises when the sum does not fit its four bytes. */
    method CountExecuted(nowMs: nat) returns (counted: bool)
      requires Legal()
      modifies buf
      ensures Legal() && counted == (old(View()).exeCount + 1 < WORD_LIMIT)
      ensures View() == if counted then old(View()).(exeCount := old(View()).exeCount + 1) else old(View())
    {
      UpdateDfps(nowMs);
      GettersAreView();
      counted := ExeCounter() + 1 < WORD_LIMIT;
      if counted {
        SetWord(EXE_COUNTER_POINTER, ExeCounter() + 1);
      }
    }

    /** `get` */
    method Get(nowMs: nat) returns (r: Result<Option<DataFrame>>)
      requires Legal() && Sane(View())
      modifies buf
      ensures Legal()
      ensures View() == Ring.Get(old(View()), crc, Decodes).0
      ensures match Ring.Get(old(View()), crc, Decodes).1
              case Nothing => r == Ok(None) && buf[..] == old(buf[..])
              case Broken(f) => r == Err(if f == CountOverflow then OverflowError else BrokenPipeError)
              case Taken(body) =>
                match DecodeFrame(body)
                case Err(e) => r == Err(e)
                case Ok(fields) =>
                  r.Ok? && r.value.Some? && fresh(r.value.value) && r.value.value.Valid() && r.value.value.fields == fields
    {
      GettersAreView();
      if AllocCounter() - ExeCounter() == 0 {
        return Ok(None);
      }
      var taking := TakeBody();
      match taking {
        case Nothing => return Ok(None);
        case Broken(f) => return Err(ErrorOf(f));
        case Taken(body) =>
          var frame := DataFrame.FromByteArr(body);
          if frame.Err? {
            return Err(frame.error);
          }
          var counted := CountExecuted(nowMs);
          r := if counted then Ok(Some(frame.value)) else Err(OverflowError);
      }
    }
  }

  /** A slice of memory is the slice of the ring that lies `from` bytes lower. */
  lemma SliceBehind(mem: seq<byte>, from: nat, lo: nat, hi: nat)
    requires from <= lo <= hi <= |mem|
    ensures mem[lo..hi] == mem[from..][lo - from..hi - from]
  {
  }

  /** Reading the body from behind the header is reading the frame and dropping the header. */
  lemma BodyBehindHeader(data: seq<byte>, p: nat, n: nat)
    requires p < |data| && FRAME_HEADER_SIZE <= n <= |data|
    ensures ReadAt(data, Fwd(p, FRAME_HEADER_SIZE, |data|), n - FRAME_HEADER_SIZE) == Body(ReadAt(data, p, n))
  {
    forall k | 0 <= k < n - FRAME_HEADER_SIZE
      ensures Fwd(Fwd(p, FRAME_HEADER_SIZE, |data|), k, |data|) == Fwd(p, FRAME_HEADER_SIZE + k, |data|)
    {
    }
  }
}
