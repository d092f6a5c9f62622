/**
 The byte format of values: `data_to_byte_arr` and `data_from_byte_arr`.

 Text, JSON and pickled objects are the bytes their libraries produce.
 */
module Codec {
  import opened Bytes
  import opened Results

  datatype DType = U8 | U16 | U32 | U64 | STR | JSON | ARRAY | TUPLE | ND_ARR
                 | CUSTOM_TYPE_START | CUSTOM_TYPE_END | UNKNOWN
  {
    function Id(): byte {
      match this
      case U8 => 1 case U16 => 2 case U32 => 3 case U64 => 4
      case STR => 5 case JSON => 6 case ARRAY => 7 case TUPLE => 8 case ND_ARR => 9
      case CUSTOM_TYPE_START => 100 case CUSTOM_TYPE_END => 200 case UNKNOWN => 230
    }

    predicate IsInt() { U8? || U16? || U32? || U64? }

    function IntSize(): nat
      requires IsInt()
    {
      match this
      case U8 => 1 case U16 => 2 case U32 => 4 case U64 => 8
    }
  }

  /** `DType(b)`. */
  function DTypeOf(b: byte): (r: Result<DType>)
    ensures r.Ok? ==> r.value.Id() == b
    ensures r.Err? ==> r.error == ValueError && forall t: DType :: t.Id() != b
  {
    if b == 1 then Ok(U8) else if b == 2 then Ok(U16) else if b == 3 then Ok(U32) else if b == 4 then Ok(U64)
    else if b == 5 then Ok(STR) else if b == 6 then Ok(JSON) else if b == 7 then Ok(ARRAY)
    else if b == 8 then Ok(TUPLE) else if b == 9 then Ok(ND_ARR)
    else if b == 100 then Ok(CUSTOM_TYPE_START) else if b == 200 then Ok(CUSTOM_TYPE_END)
    else if b == 230 then Ok(UNKNOWN) else Err(ValueError)
  }

  lemma DTypeOfId(t: DType)
    ensures DTypeOf(t.Id()) == Ok(t)
  {
    match t
    case U8 => case U16 => case U32 => case U64 => case STR => case JSON => case ARRAY => case TUPLE =>
    case ND_ARR => case CUSTOM_TYPE_START => case CUSTOM_TYPE_END => case UNKNOWN =>
  }

  datatype Value =
    | Int(n: int)
    | Str(bytes: seq<byte>)
    | Json(bytes: seq<byte>)
    | Tuple(bytes: seq<byte>)
    | NdArr(bytes: seq<byte>)
    | Unknown(bytes: seq<byte>)
    | List(items: seq<Value>)

  /** `get_data_type`. */
  function GetDataType(v: Value): DType {
    match v
    case Int(_) => U32
    case Str(_) => STR
    case Json(_) => JSON
    case Tuple(_) => TUPLE
    case NdArr(_) => ND_ARR
    case Unknown(_) => UNKNOWN
    case List(_) => ARRAY
  }

  /** A field's type is its value's own, or for an integer any integer type. */
  predicate Suits(v: Value, t: DType) {
    t == GetDataType(v) || (v.Int? && t.IsInt())
  }

  const ITEM_HEADER := 5

  function Encode(v: Value, t: DType): Result<seq<byte>>
    requires Suits(v, t)
    decreases v, 1
  {
    match v
    case Int(n) => if 0 <= n < Pow256(t.IntSize()) then Ok(ToLE(n, t.IntSize())) else Err(OverflowError)
    case List(items) => EncodeItems(items)
    case _ => Ok(v.bytes)
  }

  /** Type, size and bytes of each item, one after the other. */
  function EncodeItems(items: seq<Value>): Result<seq<byte>>
    decreases items, 0
  {
    if |items| == 0 then Ok([]) else
    var b :- Encode(items[0], GetDataType(items[0]));
    if |b| >= WORD_LIMIT then Err(OverflowError) else
    var rest :- EncodeItems(items[1..]);
    Ok([GetDataType(items[0]).Id()] + ToLE(|b|, 4) + b + rest)
  }

  /** `arr[lo:hi]`, which stops at the end of `arr`. */
  function Slice(arr: seq<byte>, lo: nat, hi: nat): (s: seq<byte>)
    requires lo <= hi
    ensures |s| <= |arr|
    ensures hi <= |arr| ==> s == arr[lo..hi]
    ensures lo <= |arr| <= hi ==> s == arr[lo..]
    ensures lo >= |arr| ==> s == []
  {
    var n := |arr|;
    arr[if lo < n then lo else n..if hi < n then hi else n]
  }

  function Decode(arr: seq<byte>, t: DType): Result<Value>
    decreases |arr|, 1
  {
    match t
    case U8 => Ok(Int(FromLE(arr)))
    case U16 => Ok(Int(FromLE(arr)))
    case U32 => Ok(Int(FromLE(arr)))
    case U64 => Ok(Int(FromLE(arr)))
    case JSON => Ok(Json(arr))
    case TUPLE => Ok(Tuple(arr))
    case STR => Ok(Str(arr))
    case ARRAY =>
      var items :- DecodeItems(arr);
      Ok(List(items))
    case ND_ARR => Ok(NdArr(arr))
    case UNKNOWN => Ok(Unknown(arr))
    case CUSTOM_TYPE_START => Err(LookupError)
    case CUSTOM_TYPE_END => Err(LookupError)
  }

  /** The array loop, from wherever it has got to: it goes on only while more than a header is left. */
  function DecodeItems(arr: seq<byte>): Result<seq<Value>>
    decreases |arr|, 0
  {
    if ITEM_HEADER >= |arr| then Ok([]) else
    var t :- DTypeOf(arr[0]);
    var size := FromLE(arr[1..5]);
    var v :- Decode(Slice(arr[ITEM_HEADER..], 0, size), t);
    var rest :- DecodeItems(Slice(arr[ITEM_HEADER..], size, |arr| + size));
    Ok([v] + rest)
  }

  // ---------- what can be encoded ----------

  /** The size of the encoding. */
  function Size(v: Value): nat
    decreases v, 1
  {
    match v
    case Int(_) => 4
    case List(items) => SizeOfItems(items)
    case _ => |v.bytes|
  }

  function SizeOfItems(items: seq<Value>): nat
    decreases items, 0
  {
    if |items| == 0 then 0 else ITEM_HEADER + Size(items[0]) + SizeOfItems(items[1..])
  }

  /** Integers fit four bytes and the size of every item does. */
  predicate Encodable(v: Value)
    decreases v, 1
  {
    match v
    case Int(n) => 0 <= n < WORD_LIMIT
    case List(items) => ItemsEncodable(items)
    case _ => true
  }

  predicate ItemsEncodable(items: seq<Value>)
    decreases items, 0
  {
    |items| > 0 ==>
      Encodable(items[0]) && Size(items[0]) < WORD_LIMIT && ItemsEncodable(items[1..])
  }

  lemma {:induction false} EncodeOk(v: Value)
    ensures Encode(v, GetDataType(v)).Ok? <==> Encodable(v)
    ensures Encodable(v) ==> |Encode(v, GetDataType(v)).value| == Size(v)
    decreases v, 1
  {
    match v
    case Int(n) => Pow256Word();
    case List(items) => EncodeItemsOk(items);
    case _ =>
  }

  lemma {:induction false} EncodeItemsOk(items: seq<Value>)
    ensures EncodeItems(items).Ok? <==> ItemsEncodable(items)
    ensures ItemsEncodable(items) ==> |EncodeItems(items).value| == SizeOfItems(items)
    decreases items, 0
  {
    if |items| > 0 {
      EncodeOk(items[0]);
      EncodeItemsOk(items[1..]);
    }
  }

  /** What does not encode is out of range of its bytes. */
  lemma {:induction false} EncodeOverflows(v: Value, t: DType)
    requires Suits(v, t) && Encode(v, t).Err?
    ensures Encode(v, t) == Err(OverflowError)
    decreases v, 1
  {
    match v
    case List(items) => EncodeItemsOverflow(items);
    case _ =>
  }

  lemma {:induction false} EncodeItemsOverflow(items: seq<Value>)
    requires EncodeItems(items).Err?
    ensures EncodeItems(items) == Err(OverflowError)
    decreases items, 0
  {
    if Encode(items[0], GetDataType(items[0])).Err? {
      EncodeOverflows(items[0], GetDataType(items[0]));
    } else if EncodeItems(items[1..]).Err? {
      EncodeItemsOverflow(items[1..]);
    }
  }

  // ---------- the bytes of an encoding ----------

  const NUMBERED_TYPES := [U8, U16, U32, U64, STR, JSON, ARRAY, TUPLE, ND_ARR]

  /** Ids count up from 1, and so do, in powers of two, the sizes of the integers. */
  lemma TypeIds(k: nat)
    requires k < |NUMBERED_TYPES|
    ensures NUMBERED_TYPES[k].Id() == k + 1
    ensures NUMBERED_TYPES[k].IsInt() <==> k < 4
    ensures NUMBERED_TYPES[0].IntSize() == 1
    ensures 0 < k < 4 ==> NUMBERED_TYPES[k].IntSize() == 2 * NUMBERED_TYPES[k - 1].IntSize()
    ensures CUSTOM_TYPE_START.Id() == 100 && CUSTOM_TYPE_END.Id() == 200 && UNKNOWN.Id() == 230
  {
  }

  /** An integer is its bytes, least significant first; anything else but a list is the bytes it stands for. */
  lemma ScalarLayout(v: Value, t: DType)
    requires Suits(v, t) && !v.List? && Encode(v, t).Ok?
    ensures var arr := Encode(v, t).value;
            if v.Int? then |arr| == t.IntSize() && forall i :: 0 <= i < |arr| ==> arr[i] == ByteAt(v.n, i)
            else arr == v.bytes
  {
    if v.Int? {
      forall i | 0 <= i < t.IntSize()
        ensures ToLE(v.n, t.IntSize())[i] == ByteAt(v.n, i)
      {
        BytesOfLE(v.n, t.IntSize(), i);
      }
    }
  }

  /** Four bytes at `at` that hold the number `n`. */
  predicate HoldsNumber(arr: seq<byte>, at: nat, n: nat) {
    at + 4 <= |arr| && forall i :: 0 <= i < 4 ==> arr[at + i] == ByteAt(n, i)
  }

  lemma NumberHeld(arr: seq<byte>, at: nat, n: nat)
    requires at + 4 <= |arr| && arr[at..at + 4] == ToLE(n, 4)
    ensures HoldsNumber(arr, at, n)
  {
    forall i | 0 <= i < 4
      ensures arr[at + i] == ByteAt(n, i)
    {
      assert arr[at..at + 4][i] == arr[at + i];
      BytesOfLE(n, 4, i);
    }
  }

  /** Where item `k` begins. */
  function ItemStart(items: seq<Value>, k: nat): nat
    requires k <= |items|
  {
    if k == 0 then 0 else ItemStart(items, k - 1) + ITEM_HEADER + Size(items[k - 1])
  }

  lemma {:induction false} ItemStartShifts(items: seq<Value>, k: nat)
    requires 0 < k <= |items|
    ensures ItemStart(items, k) == ITEM_HEADER + Size(items[0]) + ItemStart(items[1..], k - 1)
  {
    if k > 1 {
      ItemStartShifts(items, k - 1);
    }
  }

  /** Item `k` of an encoded list: its type id, four bytes of size, its encoding; nothing follows the last. */
  predicate ItemLaidOut(arr: seq<byte>, items: seq<Value>, k: nat, at: nat)
    requires k < |items|
  {
    var end := at + ITEM_HEADER + Size(items[k]);
    && end <= |arr|
    && arr[at] == GetDataType(items[k]).Id()
    && HoldsNumber(arr, at + 1, Size(items[k]))
    && Encode(items[k], GetDataType(items[k])) == Ok(arr[at + ITEM_HEADER..end])
    && (k == |items| - 1 ==> end == |arr|)
  }

  lemma LayoutShifts(arr: seq<byte>, head: seq<byte>, tail: seq<byte>, items: seq<Value>, k: nat, at: nat)
    requires arr == head + tail && 0 < k < |items| && ItemLaidOut(tail, items[1..], k - 1, at)
    ensures ItemLaidOut(arr, items, k, |head| + at)
  {
    var v := items[k];
    assert v == items[1..][k - 1];
    var end := at + ITEM_HEADER + Size(v);
    assert arr[|head| + at + ITEM_HEADER..|head| + end] == tail[at + ITEM_HEADER..end];
    forall i | 0 <= i < 4
      ensures arr[|head| + at + 1 + i] == ByteAt(Size(v), i)
    {
      assert tail[at + 1 + i] == ByteAt(Size(v), i);
    }
  }

  lemma FirstLaidOut(arr: seq<byte>, head: seq<byte>, b: seq<byte>, tail: seq<byte>, items: seq<Value>)
    requires |items| > 0 && arr == head + b + tail && Encode(items[0], GetDataType(items[0])) == Ok(b)
    requires head == [GetDataType(items[0]).Id()] + ToLE(|b|, 4) && |b| == Size(items[0])
    requires |items| == 1 ==> tail == []
    ensures ItemLaidOut(arr, items, 0, 0)
  {
    PartsOf(arr, head, b, tail);
    assert arr[0] == head[0] && arr[1..5] == head[1..] == ToLE(|b|, 4);
    NumberHeld(arr, 1, |b|);
    assert arr[ITEM_HEADER..ITEM_HEADER + |b|] == arr[ITEM_HEADER..][..|b|];
  }

  lemma {:induction false} ItemLayout(items: seq<Value>, k: nat)
    requires EncodeItems(items).Ok? && k < |items|
    ensures ItemLaidOut(EncodeItems(items).value, items, k, ItemStart(items, k))
    decreases k
  {
    var v, rest := items[0], items[1..];
    var b, tail, arr := Encode(v, GetDataType(v)).value, EncodeItems(rest).value, EncodeItems(items).value;
    var head := [GetDataType(v).Id()] + ToLE(|b|, 4);
    EncodeOk(v);
    assert arr == head + b + tail;
    if k == 0 {
      FirstLaidOut(arr, head, b, tail, items);
    } else {
      ItemLayout(rest, k - 1);
      ItemStartShifts(items, k);
      LayoutShifts(arr, head + b, tail, items, k, ItemStart(rest, k - 1));
    }
  }

  // ---------- any bytes at all ----------

  /** Where the item at `at` ends, as its size bytes say. */
  function ItemEnd(arr: seq<byte>, at: nat): (end: nat)
    requires at + ITEM_HEADER < |arr|
    ensures end >= at + ITEM_HEADER
  {
    at + ITEM_HEADER + FromLE(arr[at + 1..at + 5])
  }

  /** What the array loop makes of the bytes at `at`: a type, a size, and as many bytes as there are of that size. */
  function ItemAt(arr: seq<byte>, at: nat): Result<Value>
    requires at + ITEM_HEADER < |arr|
  {
    var t :- DTypeOf(arr[at]);
    Decode(Slice(arr, at + ITEM_HEADER, ItemEnd(arr, at)), t)
  }

  /** Where turn `k` of the array loop reads, as long as it goes on. */
  function TurnStart(arr: seq<byte>, k: nat): nat {
    if k == 0 then 0 else
    var at := TurnStart(arr, k - 1);
    if at + ITEM_HEADER < |arr| then ItemEnd(arr, at) else at
  }

  /** Turn `k` reads item `k`. */
  predicate TurnReads(arr: seq<byte>, k: nat, r: Result<Value>) {
    TurnStart(arr, k) + ITEM_HEADER < |arr| && ItemAt(arr, TurnStart(arr, k)) == r
  }

  /** The first turns read `items`. */
  predicate TurnsRead(arr: seq<byte>, items: seq<Value>) {
    forall k :: 0 <= k < |items| ==> TurnReads(arr, k, Ok(items[k]))
  }

  /** Some turn fails, and all before it read something. */
  ghost predicate TurnFails(arr: seq<byte>, e: Error) {
    exists items :: TurnsRead(arr, items) && TurnReads(arr, |items|, Err(e))
  }

  lemma OneMoreRead(arr: seq<byte>, done: seq<Value>, v: Value)
    requires TurnsRead(arr, done) && TurnReads(arr, |done|, Ok(v))
    ensures TurnsRead(arr, done + [v])
    ensures TurnStart(arr, |done + [v]|) == ItemEnd(arr, TurnStart(arr, |done|))
  {
  }

  lemma {:induction false} LoopReads(arr: seq<byte>, done: seq<Value>, at: nat)
    requires TurnsRead(arr, done) && at == TurnStart(arr, |done|)
    ensures DecodeItems(Left(arr, at)).Ok? ==>
      var items := done + DecodeItems(Left(arr, at)).value;
      TurnsRead(arr, items) && TurnStart(arr, |items|) + ITEM_HEADER >= |arr|
    ensures DecodeItems(Left(arr, at)).Err? ==> TurnFails(arr, DecodeItems(Left(arr, at)).error)
    decreases |arr| - at
  {
    if at + ITEM_HEADER >= |arr| {
      assert DecodeItems(Left(arr, at)) == Ok([]);
      assert done + [] == done;
    } else {
      var item, next := ItemAt(arr, at), ItemEnd(arr, at);
      TurnAt(arr, at);
      if item.Ok? {
        OneMoreRead(arr, done, item.value);
        LoopReads(arr, done + [item.value], next);
        PrependTwice(done, [item.value], DecodeItems(Left(arr, next)));
      }
    }
  }

  /** Cutting the item at `at` out of the whole array, or out of what is left of it. */
  lemma SameItem(arr: seq<byte>, at: nat)
    requires at + ITEM_HEADER < |arr|
    ensures var left := Left(arr, at);
            && |left| > ITEM_HEADER
            && ItemAt(arr, at) == ItemAt(left, 0)
            && Left(arr, ItemEnd(arr, at)) == Left(left, ItemEnd(left, 0))
  {
    var left := Left(arr, at);
    var size := FromLE(arr[at + 1..at + 5]);
    assert left[0] == arr[at] && left[1..5] == arr[at + 1..at + 5];
    SliceOfRest(arr, at, ITEM_HEADER, ITEM_HEADER + size);
  }

  lemma SliceOfRest(arr: seq<byte>, at: nat, lo: nat, hi: nat)
    requires at <= |arr| && lo <= hi
    ensures Slice(arr, at + lo, at + hi) == Slice(Left(arr, at), lo, hi)
    ensures Left(arr, at + hi) == Left(Left(arr, at), hi)
  {
  }

  lemma SliceToEnd(s: seq<byte>, lo: nat, hi: nat)
    requires lo <= hi && |s| <= hi
    ensures Slice(s, lo, hi) == Left(s, lo)
  {
  }

  lemma FirstTurnSlices(left: seq<byte>, size: nat)
    requires |left| > ITEM_HEADER
    ensures Slice(left[ITEM_HEADER..], 0, size) == Slice(left, ITEM_HEADER, ITEM_HEADER + size)
    ensures Slice(left[ITEM_HEADER..], size, |left| + size) == Left(left, ITEM_HEADER + size)
  {
    SliceOfRest(left, ITEM_HEADER, 0, size);
    SliceOfRest(left, ITEM_HEADER, size, |left| + size);
    SliceToEnd(left[ITEM_HEADER..], size, |left| + size);
  }

  /** The first turn, on any bytes. */
  lemma TurnOnBytes(left: seq<byte>)
    requires |left| > ITEM_HEADER
    ensures DecodeItems(left)
         == if ItemAt(left, 0).Ok? then Prepend([ItemAt(left, 0).value], DecodeItems(Left(left, ItemEnd(left, 0))))
            else Err(ItemAt(left, 0).error)
  {
    FirstTurnSlices(left, FromLE(left[1..5]));
  }

  /** A turn of the array loop at `at`. */
  lemma TurnAt(arr: seq<byte>, at: nat)
    requires at + ITEM_HEADER < |arr|
    ensures DecodeItems(Left(arr, at))
         == if ItemAt(arr, at).Ok? then Prepend([ItemAt(arr, at).value], DecodeItems(Left(arr, ItemEnd(arr, at))))
            else Err(ItemAt(arr, at).error)
  {
    SameItem(arr, at);
    TurnOnBytes(Left(arr, at));
  }

  /** Arbitrary bytes decode item by item, a size that runs over the end taking what
      there is, until no byte is left behind a header; the first item that fails is the error. */
  lemma AnyBytesDecode(arr: seq<byte>)
    ensures DecodeItems(arr).Ok? ==>
      var items := DecodeItems(arr).value;
      TurnsRead(arr, items) && TurnStart(arr, |items|) + ITEM_HEADER >= |arr|
    ensures DecodeItems(arr).Err? ==> TurnFails(arr, DecodeItems(arr).error)
  {
    LoopReads(arr, [], 0);
    PrependTwice([], [], DecodeItems(arr));
    assert Left(arr, 0) == arr;
  }

  // ---------- what one hop does to a value ----------

  /** Drops the last item of a list, at any depth, when its encoding is empty. */
  function Trim(v: Value): Value
    decreases v, 1
  {
    match v
    case List(items) => List(TrimItems(items))
    case _ => v
  }

  function TrimItems(items: seq<Value>): seq<Value>
    decreases items, 0
  {
    if |items| == 0 || (|items| == 1 && Size(items[0]) == 0) then []
    else [Trim(items[0])] + TrimItems(items[1..])
  }

  /** Decoding what was encoded gives the trimmed value: the array loop needs one
      byte beyond the header to go on. */
  lemma {:induction false} RoundTripTrims(v: Value, t: DType)
    requires Suits(v, t) && Encode(v, t).Ok?
    ensures Decode(Encode(v, t).value, t) == Ok(Trim(v))
    decreases v, 1
  {
    match v
    case Int(n) => FromToLE(n, t.IntSize());
    case List(items) => ItemsRoundTrip(items);
    case _ =>
  }

  lemma {:induction false} ItemsRoundTrip(items: seq<Value>)
    requires EncodeItems(items).Ok?
    ensures DecodeItems(EncodeItems(items).value) == Ok(TrimItems(items))
    decreases items, 0
  {
    if |items| > 0 {
      var v, rest := items[0], items[1..];
      var t := GetDataType(v);
      var b, tail := Encode(v, t).value, EncodeItems(rest).value;
      EncodeOk(v);
      EncodeItemsOk(rest);
      if |b + tail| > 0 {
        RoundTripTrims(v, t);
        ItemsRoundTrip(rest);
        var arr := EncodeItems(items).value;
        ItemComesApart(t, b, tail, arr);
        FirstTurn(arr, t, |b|, Trim(v), TrimItems(rest));
      }
    }
  }

  lemma PartsOf(arr: seq<byte>, h: seq<byte>, b: seq<byte>, tail: seq<byte>)
    requires arr == h + b + tail
    ensures arr[..|h|] == h && arr[|h|..] == b + tail
    ensures (b + tail)[..|b|] == b && (b + tail)[|b|..] == tail
  {
  }

  /** An encoded item and what follows it, cut as the array loop cuts them. */
  lemma ItemComesApart(t: DType, b: seq<byte>, tail: seq<byte>, arr: seq<byte>)
    requires |b| < WORD_LIMIT && arr == [t.Id()] + ToLE(|b|, 4) + b + tail
    ensures |arr| == ITEM_HEADER + |b + tail|
    ensures arr[0] == t.Id() && FromLE(arr[1..5]) == |b|
    ensures Slice(arr[ITEM_HEADER..], 0, |b|) == b
    ensures Slice(arr[ITEM_HEADER..], |b|, |arr| + |b|) == tail
  {
    var h := [t.Id()] + ToLE(|b|, 4);
    PartsOf(arr, h, b, tail);
    assert arr[0] == h[0] && arr[1..5] == h[1..] == ToLE(|b|, 4);
    WordRoundTrip(|b|);
  }

  /** The first turn of the array loop. */
  lemma FirstTurn(arr: seq<byte>, t: DType, size: nat, v: Value, rest: seq<Value>)
    requires |arr| > ITEM_HEADER && arr[0] == t.Id() && FromLE(arr[1..5]) == size
    requires Decode(Slice(arr[ITEM_HEADER..], 0, size), t) == Ok(v)
    requires DecodeItems(Slice(arr[ITEM_HEADER..], size, |arr| + size)) == Ok(rest)
    ensures DecodeItems(arr) == Ok([v] + rest)
  {
    DTypeOfId(t);
  }

  /** No list at any depth ends in an item of size zero. */
  predicate Stable(v: Value)
    decreases v, 1
  {
    match v
    case List(items) => ItemsStable(items)
    case _ => true
  }

  predicate ItemsStable(items: seq<Value>)
    decreases items, 0
  {
    |items| > 0 ==> Stable(items[0]) && (|items| == 1 ==> Size(items[0]) != 0) && ItemsStable(items[1..])
  }

  /** A value survives a hop unchanged exactly when it is stable; otherwise its encoding shrinks. */
  lemma {:induction false} TrimIsIdentityIffStable(v: Value)
    ensures Trim(v) == v <==> Stable(v)
    ensures Size(Trim(v)) <= Size(v)
    ensures !Stable(v) ==> Size(Trim(v)) < Size(v)
    ensures Encodable(v) ==> Encodable(Trim(v))
    ensures GetDataType(Trim(v)) == GetDataType(v)
    decreases v, 1
  {
    match v
    case List(items) => TrimItemsIsIdentityIffStable(items);
    case _ =>
  }

  lemma {:induction false} TrimItemsIsIdentityIffStable(items: seq<Value>)
    ensures TrimItems(items) == items <==> ItemsStable(items)
    ensures SizeOfItems(TrimItems(items)) <= SizeOfItems(items)
    ensures !ItemsStable(items) ==> SizeOfItems(TrimItems(items)) < SizeOfItems(items)
    ensures ItemsEncodable(items) ==> ItemsEncodable(TrimItems(items))
    decreases items, 0
  {
    if |items| == 0 || (|items| == 1 && Size(items[0]) == 0) {
    } else {
      var v, rest := items[0], items[1..];
      TrimIsIdentityIffStable(v);
      TrimItemsIsIdentityIffStable(rest);
      assert TrimItems(items)[0] == Trim(v) && TrimItems(items)[1..] == TrimItems(rest);
      assert items == [v] + rest;
    }
  }

  // ---------- many hops ----------

  /** The value after `n` trips through the codec. */
  function Hops(v: Value, n: nat): Result<Value>
    decreases n
  {
    if n == 0 then Ok(v) else
    var b :- Encode(v, GetDataType(v));
    var v' :- Decode(b, GetDataType(v));
    Hops(v', n - 1)
  }

  /** One trip, exactly. */
  lemma RecoveredIffStable(v: Value)
    requires Encodable(v)
    ensures Hops(v, 1) == Ok(Trim(v))
    ensures Hops(v, 1) == Ok(v) <==> Stable(v)
  {
    EncodeOk(v);
    RoundTripTrims(v, GetDataType(v));
    TrimIsIdentityIffStable(v);
    assert Hops(v, 1) == Hops(Trim(v), 0);
  }

  /** The smallest value that does not survive: a list of one empty text comes back empty. */
  lemma EmptyLastItemIsLost()
    ensures Hops(List([Str([])]), 1) == Ok(List([]))
  {
    var v := List([Str([])]);
    assert Encodable(v);
    RecoveredIffStable(v);
    assert Trim(v) == List([]);
  }

  /** However long the route no trip fails, and after as many trips as the first
      encoding has bytes the value no longer changes. */
  lemma {:induction false} HopsSettle(v: Value, n: nat)
    requires Encodable(v)
    ensures Hops(v, n).Ok? && Encodable(Hops(v, n).value)
    ensures Size(Hops(v, n).value) <= Size(v)
    ensures n >= Size(v) ==> Stable(Hops(v, n).value)
    decreases n
  {
    TrimIsIdentityIffStable(v);
    if Stable(v) {
      StableStays(v, n);
    } else if n > 0 {
      EncodeOk(v);
      RoundTripTrims(v, GetDataType(v));
      HopsSettle(Trim(v), n - 1);
    }
  }

  lemma {:induction false} StableStays(v: Value, m: nat)
    requires Encodable(v) && Stable(v)
    ensures Hops(v, m) == Ok(v)
    decreases m
  {
    if m > 0 {
      EncodeOk(v);
      RoundTripTrims(v, GetDataType(v));
      TrimIsIdentityIffStable(v);
      StableStays(v, m - 1);
    }
  }

  // ---------- the loops that compute it ----------

  function Prepend<T>(done: seq<T>, rest: Result<seq<T>>): Result<seq<T>> {
    if rest.Ok? then Ok(done + rest.value) else rest
  }

  lemma PrependTwice<T>(a: seq<T>, b: seq<T>, rest: Result<seq<T>>)
    ensures Prepend(a, Prepend(b, rest)) == Prepend(a + b, rest)
    ensures Prepend([], rest) == rest
    ensures Prepend(a, Ok([])) == Ok(a)
  {
    assert a + [] == a;
    if rest.Ok? {
      assert a + (b + rest.value) == (a + b) + rest.value;
      assert [] + rest.value == rest.value;
    }
  }

  method DataToByteArr(data: Value, dType: DType) returns (r: Result<seq<byte>>)
    requires Suits(data, dType)
    ensures r == Encode(data, dType)
    decreases data
  {
    match data {
      case List(items) =>
        var dataArr: seq<byte> := [];
        PrependTwice([], [], EncodeItems(items));
        assert items[0..] == items;
        for i := 0 to |items|
          invariant EncodeItems(items) == Prepend(dataArr, EncodeItems(items[i..]))
        {
          var datumType := GetDataType(items[i]);
          var datum := DataToByteArr(items[i], datumType);
          assert items[i..][0] == items[i] && items[i..][1..] == items[i + 1..];
          if datum.Err? {
            return datum;
          }
          var datumSize := |datum.value|;
          if datumSize >= WORD_LIMIT {
            return Err(OverflowError);
          }
          var chunk := [datumType.Id()] + ToLE(datumSize, 4) + datum.value;
          assert EncodeItems(items[i..]) == Prepend(chunk, EncodeItems(items[i + 1..]));
          PrependTwice(dataArr, chunk, EncodeItems(items[i + 1..]));
          dataArr := dataArr + chunk;
        }
        PrependTwice(dataArr, [], Ok([]));
        r := Ok(dataArr);
      case Int(n) =>
        r := if n < 0 || n >= Pow256(dType.IntSize()) then Err(OverflowError) else Ok(ToLE(n, dType.IntSize()));
      case _ =>
        r := Ok(data.bytes);
    }
  }

  method DataFromByteArr(arr: seq<byte>, dType: DType) returns (r: Result<Value>)
    ensures r == Decode(arr, dType)
    decreases |arr|, 2
  {
    if dType.IsInt() {
      return Ok(Int(FromLE(arr)));
    }
    match dType {
      case JSON => r := Ok(Json(arr));
      case TUPLE => r := Ok(Tuple(arr));
      case STR => r := Ok(Str(arr));
      case ND_ARR => r := Ok(NdArr(arr));
      case UNKNOWN => r := Ok(Unknown(arr));
      case ARRAY =>
        var items := ArrayFromByteArr(arr);
        r := if items.Ok? then Ok(List(items.value)) else Err(items.error);
      case _ => r := Err(LookupError);
    }
  }

  /** What the array loop has still to read at `index`, which may lie past the end. */
  function Left(arr: seq<byte>, index: nat): seq<byte> {
    if index <= |arr| then arr[index..] else []
  }

  method ArrayFromByteArr(arr: seq<byte>) returns (r: Result<seq<Value>>)
    ensures r == DecodeItems(arr)
    decreases |arr|, 1
  {
    var data: seq<Value> := [];
    var index := 0;
    PrependTwice([], [], DecodeItems(arr));
    while index + ITEM_HEADER < |arr|
      invariant DecodeItems(arr) == Prepend(data, DecodeItems(Left(arr, index)))
    {
      TurnAt(arr, index);
      var datum, next := ReadItem(arr, index);
      if datum.Err? {
        return Err(datum.error);
      }
      PrependTwice(data, [datum.value], DecodeItems(Left(arr, next)));
      data := data + [datum.value];
      index := next;
    }
    PrependTwice(data, [], Ok([]));
    r := Ok(data);
  }

  /** The item at `index` and the index behind it. */
  method ReadItem(arr: seq<byte>, index: nat) returns (datum: Result<Value>, next: nat)
    requires index + ITEM_HEADER < |arr|
    ensures datum == ItemAt(arr, index) && next == ItemEnd(arr, index)
    decreases |arr|, 0
  {
    next := index + ITEM_HEADER + FromLE(arr[index + 1..index + 5]);
    var datumType := DTypeOf(arr[index]);
    if datumType.Err? {
      return Err(datumType.error), next;
    }
    datum := DataFromByteArr(Slice(arr, index + ITEM_HEADER, next), datumType.value);
  }
}
