/** The shared memory of a queue as one sequence of bytes: 64 control bytes, then the ring. */
module ControlBlock {
  import opened Bytes
  import opened Ring

  const R_LOCK_POINTER := 6
  const R_LOCK_COUNTER_POINTER := 10
  const W_LOCK_POINTER := 14
  const W_LOCK_COUNTER_POINTER := 20
  const STATUS_POINTER := 24
  const DIRECTION_POINTER := 25
  const ALLOC_POINTER := 26
  const EXE_POINTER := 30
  const ALLOC_COUNTER_POINTER := 34
  const EXE_COUNTER_POINTER := 38
  const DFPS_CALC_INTERVAL := 42
  const LAST_DFPS_CALC_TIME := 46
  const DFPS_LAST_ALLOC_COUNTER := 54
  const DFPS_LAST_EXE_COUNTER := 58

  /** Address and size of every control word. */
  const WORDS: seq<(nat, nat)> := [
    (R_LOCK_POINTER, 4), (R_LOCK_COUNTER_POINTER, 4), (W_LOCK_POINTER, 4), (W_LOCK_COUNTER_POINTER, 4),
    (STATUS_POINTER, 1), (DIRECTION_POINTER, 1),
    (ALLOC_POINTER, 4), (EXE_POINTER, 4), (ALLOC_COUNTER_POINTER, 4), (EXE_COUNTER_POINTER, 4),
    (DFPS_CALC_INTERVAL, 4), (LAST_DFPS_CALC_TIME, 8), (DFPS_LAST_ALLOC_COUNTER, 4), (DFPS_LAST_EXE_COUNTER, 4)]

  /** `mem.buf[at:at + len(bytes)] = bytes` */
  function Stored(mem: seq<byte>, at: nat, bytes: seq<byte>): (r: seq<byte>)
    requires at + |bytes| <= |mem|
    ensures |r| == |mem|
  {
    mem[..at] + bytes + mem[at + |bytes|..]
  }

  function NumberAt(mem: seq<byte>, at: nat, size: nat): nat
    requires at + size <= |mem|
  {
    FromLE(mem[at..at + size])
  }

  lemma StoredAt(mem: seq<byte>, at: nat, bytes: seq<byte>, i: nat)
    requires at + |bytes| <= |mem| && i < |mem|
    ensures Stored(mem, at, bytes)[i] == if at <= i < at + |bytes| then bytes[i - at] else mem[i]
  {
  }

  lemma StoredKeepsApart(mem: seq<byte>, at: nat, bytes: seq<byte>, lo: nat, hi: nat)
    requires at + |bytes| <= |mem| && lo <= hi <= |mem|
    requires hi <= at || at + |bytes| <= lo
    ensures Stored(mem, at, bytes)[lo..hi] == mem[lo..hi]
  {
  }

  lemma StoredReadsBack(mem: seq<byte>, at: nat, bytes: seq<byte>)
    requires at + |bytes| <= |mem|
    ensures Stored(mem, at, bytes)[at..at + |bytes|] == bytes
  {
  }

  lemma WordsApart(i: nat, j: nat)
    requires i < j < |WORDS|
    ensures WORDS[i].0 + WORDS[i].1 <= WORDS[j].0 && WORDS[j].0 + WORDS[j].1 <= Q_CONTROL_SIZE
  {
    var next := WORDS[i + 1].0;
    assert WORDS[i].0 + WORDS[i].1 <= next <= WORDS[j].0;
  }

  /** Control word `j` reads the same in both. */
  predicate SameWordIn(mem: seq<byte>, mem': seq<byte>, j: nat)
    requires |mem| == |mem'| >= Q_CONTROL_SIZE && j < |WORDS|
  {
    && WORDS[j].0 + WORDS[j].1 <= Q_CONTROL_SIZE
    && NumberAt(mem', WORDS[j].0, WORDS[j].1) == NumberAt(mem, WORDS[j].0, WORDS[j].1)
  }

  lemma OtherWordKept(mem: seq<byte>, i: nat, bytes: seq<byte>, j: nat)
    requires |mem| >= Q_CONTROL_SIZE && i < |WORDS| && j < |WORDS| && i != j && |bytes| == WORDS[i].1
    ensures WORDS[i].0 + WORDS[i].1 <= Q_CONTROL_SIZE
    ensures SameWordIn(mem, Stored(mem, WORDS[i].0, bytes), j)
  {
    if j < i { WordsApart(j, i); } else { WordsApart(i, j); }
    StoredKeepsApart(mem, WORDS[i].0, bytes, WORDS[j].0, WORDS[j].0 + WORDS[j].1);
  }

  /** Every setter is undone by its getter and changes no other control word and no
      byte of the ring. */
  lemma SetterChangesOneWord(mem: seq<byte>, i: nat, v: nat)
    requires |mem| >= Q_CONTROL_SIZE && i < |WORDS| && v < Pow256(WORDS[i].1)
    ensures WORDS[i].0 + WORDS[i].1 <= Q_CONTROL_SIZE
    ensures var mem' := Stored(mem, WORDS[i].0, ToLE(v, WORDS[i].1));
            && NumberAt(mem', WORDS[i].0, WORDS[i].1) == v
            && mem'[Q_CONTROL_SIZE..] == mem[Q_CONTROL_SIZE..]
            && forall j :: 0 <= j < |WORDS| && j != i ==> SameWordIn(mem, mem', j)
  {
    var at, bytes := WORDS[i].0, ToLE(v, WORDS[i].1);
    OtherWordKept(mem, i, bytes, if i == 0 then 1 else 0);
    forall j | 0 <= j < |WORDS| && j != i
      ensures SameWordIn(mem, Stored(mem, at, bytes), j)
    {
      OtherWordKept(mem, i, bytes, j);
    }
    FromToLE(v, WORDS[i].1);
    StoredReadsBack(mem, at, bytes);
    StoredKeepsApart(mem, at, bytes, Q_CONTROL_SIZE, |mem|);
  }

  /** A store at or above address 64 - a frame or a clear - leaves every control byte alone. */
  lemma DataKeepsControl(mem: seq<byte>, at: nat, bytes: seq<byte>)
    requires Q_CONTROL_SIZE <= at && at + |bytes| <= |mem|
    ensures Stored(mem, at, bytes)[..Q_CONTROL_SIZE] == mem[..Q_CONTROL_SIZE]
    ensures Stored(mem, at, bytes)[Q_CONTROL_SIZE..] == Stored(mem[Q_CONTROL_SIZE..], at - Q_CONTROL_SIZE, bytes)
  {
  }

  // ---------- memory as a queue state ----------

  predicate LegalMemory(mem: seq<byte>) {
    && MIN_Q_SIZE <= |mem| <= WORD_LIMIT
    && Q_CONTROL_SIZE <= NumberAt(mem, ALLOC_POINTER, 4) < |mem|
    && Q_CONTROL_SIZE <= NumberAt(mem, EXE_POINTER, 4) < |mem|
  }

  function ViewOf(mem: seq<byte>): (q: QState)
    requires LegalMemory(mem)
    ensures q.Shaped() && q.Size() == |mem|
  {
    QState(mem[Q_CONTROL_SIZE..], NumberAt(mem, ALLOC_POINTER, 4) - Q_CONTROL_SIZE,
           NumberAt(mem, EXE_POINTER, 4) - Q_CONTROL_SIZE,
           NumberAt(mem, ALLOC_COUNTER_POINTER, 4), NumberAt(mem, EXE_COUNTER_POINTER, 4))
  }

  /** The control bytes a queue's state is read from. */
  lemma ViewReads(mem: seq<byte>, mem': seq<byte>)
    requires LegalMemory(mem) && |mem'| == |mem|
    requires mem'[ALLOC_POINTER..DFPS_CALC_INTERVAL] == mem[ALLOC_POINTER..DFPS_CALC_INTERVAL]
    ensures LegalMemory(mem')
    ensures ViewOf(mem') == ViewOf(mem).(data := mem'[Q_CONTROL_SIZE..])
  {
    SameWord(mem, mem', ALLOC_POINTER);
    SameWord(mem, mem', EXE_POINTER);
    SameWord(mem, mem', ALLOC_COUNTER_POINTER);
    SameWord(mem, mem', EXE_COUNTER_POINTER);
  }

  lemma SameWord(mem: seq<byte>, mem': seq<byte>, at: nat)
    requires |mem| == |mem'| >= Q_CONTROL_SIZE
    requires mem'[ALLOC_POINTER..DFPS_CALC_INTERVAL] == mem[ALLOC_POINTER..DFPS_CALC_INTERVAL]
    requires ALLOC_POINTER <= at && at + 4 <= DFPS_CALC_INTERVAL
    ensures mem'[at..at + 4] == mem[at..at + 4]
  {
    var w, w' := mem[ALLOC_POINTER..DFPS_CALC_INTERVAL], mem'[ALLOC_POINTER..DFPS_CALC_INTERVAL];
    forall i | at <= i < at + 4
      ensures mem'[i] == mem[i]
    {
      assert w[i - ALLOC_POINTER] == mem[i] && w'[i - ALLOC_POINTER] == mem'[i];
    }
  }

  lemma StoreDataView(mem: seq<byte>, at: nat, bytes: seq<byte>)
    requires LegalMemory(mem) && Q_CONTROL_SIZE <= at && at + |bytes| <= |mem|
    ensures var mem' := Stored(mem, at, bytes);
            && LegalMemory(mem')
            && ViewOf(mem') == ViewOf(mem).(data := Stored(mem[Q_CONTROL_SIZE..], at - Q_CONTROL_SIZE, bytes))
  {
    var mem' := Stored(mem, at, bytes);
    DataKeepsControl(mem, at, bytes);
    StoredKeepsApart(mem, at, bytes, ALLOC_POINTER, DFPS_CALC_INTERVAL);
    ViewReads(mem, mem');
  }

  /** Storing one of the four words of a queue state. */
  lemma StoreWordView(mem: seq<byte>, at: nat, v: Word)
    requires LegalMemory(mem)
    requires at in VIEW_WORDS
    requires at == ALLOC_POINTER || at == EXE_POINTER ==> Q_CONTROL_SIZE <= v < |mem|
    ensures var mem', q := Stored(mem, at, ToLE(v, 4)), ViewOf(mem);
            && LegalMemory(mem')
            && ViewOf(mem') == if at == ALLOC_POINTER then q.(alloc := v - Q_CONTROL_SIZE)
                               else if at == EXE_POINTER then q.(exe := v - Q_CONTROL_SIZE)
                               else if at == ALLOC_COUNTER_POINTER then q.(allocCount := v)
                               else q.(exeCount := v)
  {
    var bytes := ToLE(v, 4);
    WordRoundTrip(v);
    StoredReadsBack(mem, at, bytes);
    StoredKeepsApart(mem, at, bytes, Q_CONTROL_SIZE, |mem|);
    forall other | other in VIEW_WORDS && other != at
      ensures NumberAt(Stored(mem, at, bytes), other, 4) == NumberAt(mem, other, 4)
    {
      ViewWordsApart(at, other);
      StoredKeepsApart(mem, at, bytes, other, other + 4);
    }
    ViewWithWord(mem, Stored(mem, at, bytes), at, v);
  }

  /** The words a queue's state is read from. */
  const VIEW_WORDS: seq<nat> := [ALLOC_POINTER, EXE_POINTER, ALLOC_COUNTER_POINTER, EXE_COUNTER_POINTER]

  lemma ViewWordsApart(w: nat, w': nat)
    requires w in VIEW_WORDS && w' in VIEW_WORDS && w != w'
    ensures w + 4 <= w' || w' + 4 <= w
    ensures w + 4 <= Q_CONTROL_SIZE && w' + 4 <= Q_CONTROL_SIZE
  {
    var i :| 0 <= i < |VIEW_WORDS| && VIEW_WORDS[i] == w;
    var j :| 0 <= j < |VIEW_WORDS| && VIEW_WORDS[j] == w';
  }

  lemma ViewWithWord(mem: seq<byte>, mem': seq<byte>, at: nat, v: Word)
    requires LegalMemory(mem) && |mem'| == |mem| && mem'[Q_CONTROL_SIZE..] == mem[Q_CONTROL_SIZE..]
    requires at in VIEW_WORDS && NumberAt(mem', at, 4) == v
    requires at == ALLOC_POINTER || at == EXE_POINTER ==> Q_CONTROL_SIZE <= v < |mem|
    requires forall other :: other in VIEW_WORDS && other != at ==> NumberAt(mem', other, 4) == NumberAt(mem, other, 4)
    ensures LegalMemory(mem')
    ensures var q := ViewOf(mem);
            ViewOf(mem') == if at == ALLOC_POINTER then q.(alloc := v - Q_CONTROL_SIZE)
                            else if at == EXE_POINTER then q.(exe := v - Q_CONTROL_SIZE)
                            else if at == ALLOC_COUNTER_POINTER then q.(allocCount := v)
                            else q.(exeCount := v)
  {
    assert VIEW_WORDS[0] == ALLOC_POINTER && VIEW_WORDS[1] == EXE_POINTER;
    assert VIEW_WORDS[2] == ALLOC_COUNTER_POINTER && VIEW_WORDS[3] == EXE_COUNTER_POINTER;
  }

  /** Control words that are no part of a queue state. */
  lemma StoreOtherView(mem: seq<byte>, at: nat, bytes: seq<byte>)
    requires LegalMemory(mem) && at + |bytes| <= Q_CONTROL_SIZE
    requires at + |bytes| <= ALLOC_POINTER || DFPS_CALC_INTERVAL <= at
    ensures var mem' := Stored(mem, at, bytes); LegalMemory(mem') && ViewOf(mem') == ViewOf(mem)
  {
    StoredKeepsApart(mem, at, bytes, ALLOC_POINTER, DFPS_CALC_INTERVAL);
    StoredKeepsApart(mem, at, bytes, Q_CONTROL_SIZE, |mem|);
    ViewReads(mem, Stored(mem, at, bytes));
  }

  /** Zeroed memory once the status, direction and index words are set. */
  function Created(size: nat, status: byte, direction: byte): (mem: seq<byte>)
    requires size >= MIN_Q_SIZE
    ensures |mem| == size
  {
    var flags := Stored(Stored(Zeros(size), STATUS_POINTER, [status]), DIRECTION_POINTER, [direction]);
    Stored(Stored(flags, ALLOC_POINTER, ToLE(Q_CONTROL_SIZE, 4)), EXE_POINTER, ToLE(Q_CONTROL_SIZE, 4))
  }

  lemma ZeroNumber(mem: seq<byte>, at: nat)
    requires at + 4 <= |mem| && forall i :: at <= i < at + 4 ==> mem[i] == 0
    ensures NumberAt(mem, at, 4) == 0
  {
    var s := mem[at..at + 4];
    var s1 := s[1..];
    var s2 := s1[1..];
    assert FromLE(s2[1..]) == 0;
    assert FromLE(s2) == 0 && FromLE(s1) == 0;
  }

  lemma StoredBefore(mem: seq<byte>, at: nat, bytes: seq<byte>)
    requires at + |bytes| <= |mem|
    ensures forall i :: at + |bytes| <= i < |mem| ==> Stored(mem, at, bytes)[i] == mem[i]
  {
  }

  lemma CreatedIsZero(size: nat, status: byte, direction: byte)
    requires size >= MIN_Q_SIZE
    ensures forall i :: ALLOC_COUNTER_POINTER <= i < size ==> Created(size, status, direction)[i] == 0
  {
    var m1 := Stored(Zeros(size), STATUS_POINTER, [status]);
    var m2 := Stored(m1, DIRECTION_POINTER, [direction]);
    var m3 := Stored(m2, ALLOC_POINTER, ToLE(Q_CONTROL_SIZE, 4));
    StoredBefore(Zeros(size), STATUS_POINTER, [status]);
    StoredBefore(m1, DIRECTION_POINTER, [direction]);
    StoredBefore(m2, ALLOC_POINTER, ToLE(Q_CONTROL_SIZE, 4));
    StoredBefore(m3, EXE_POINTER, ToLE(Q_CONTROL_SIZE, 4));
  }

  lemma CreatedView(size: nat, status: byte, direction: byte)
    requires MIN_Q_SIZE <= size <= WORD_LIMIT
    ensures LegalMemory(Created(size, status, direction))
    ensures ViewOf(Created(size, status, direction)) == Init(size)
  {
    var mem := Created(size, status, direction);
    WordRoundTrip(Q_CONTROL_SIZE);
    CreatedIsZero(size, status, direction);
    assert mem[26..30] == ToLE(Q_CONTROL_SIZE, 4) && mem[30..34] == ToLE(Q_CONTROL_SIZE, 4);
    ZeroNumber(mem, ALLOC_COUNTER_POINTER);
    ZeroNumber(mem, EXE_COUNTER_POINTER);
    assert mem[Q_CONTROL_SIZE..] == Zeros(size - Q_CONTROL_SIZE);
  }

  // ---------- the two-slice forms of the code ----------

  /** One slice when it ends before the end of the ring, two when it reaches it. */
  lemma SlicesRead(data: seq<byte>, p: nat, n: nat)
    requires p < |data| && n <= |data|
    ensures ReadAt(data, p, n)
         == if p + n < |data| then data[p..p + n] else data[p..] + data[..n - (|data| - p)]
  {
  }

  function StoredInSlices(data: seq<byte>, p: nat, bytes: seq<byte>): seq<byte>
    requires p < |data| && |bytes| <= |data|
  {
    var end := |data| - p;
    if |bytes| < end then Stored(data, p, bytes) else Stored(Stored(data, p, bytes[..end]), 0, bytes[end..])
  }

  lemma SlicesWrite(data: seq<byte>, p: nat, bytes: seq<byte>)
    requires p < |data| && |bytes| <= |data|
    ensures StoredInSlices(data, p, bytes) == WriteAt(data, p, bytes)
  {
    var r := StoredInSlices(data, p, bytes);
    forall i | 0 <= i < |data|
      ensures r[i] == if Dist(p, i, |data|) < |bytes| then bytes[Dist(p, i, |data|)] else data[i]
    {
      var end := |data| - p;
      if |bytes| < end {
        StoredAt(data, p, bytes, i);
      } else {
        StoredAt(data, p, bytes[..end], i);
        StoredAt(Stored(data, p, bytes[..end]), 0, bytes[end..], i);
      }
    }
  }
}
