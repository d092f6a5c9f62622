/**
 Frames: an insertion-ordered dictionary of typed fields, their byte format, and
 the `DataFrame` object.
 */
module DataFrames {
  import opened Bytes
  import opened Results
  import opened Codec
  import Dicts

  datatype DataField = DataField(key: seq<byte>, value: Value, dType: DType) {
    predicate Typed() { Suits(value, dType) }
  }

  type Fields = fs: seq<DataField> | AllTyped(fs)

  predicate AllTyped(fs: seq<DataField>) {
    forall i :: 0 <= i < |fs| ==> fs[i].Typed()
  }

  function KeyOf(f: DataField): seq<byte> { f.key }

  predicate DistinctKeys(fs: seq<DataField>) {
    Dicts.Distinct(KeyOf, fs)
  }

  const MAX_FIELD_LIMIT := 255
  const KEY_D: seq<byte> := [100]
  const KEY_PID: seq<byte> := [112, 105, 100]
  const KEY_LAST: seq<byte> := [108, 97, 115, 116]

  // ---------- one field ----------

  /** `DataField.byte_arr`: type, key length, key, value size, value. */
  function EncodeField(f: DataField): Result<seq<byte>>
    requires f.Typed()
  {
    if |f.key| > 255 then Err(ValueError) else
    var b :- Encode(f.value, f.dType);
    if |b| >= WORD_LIMIT then Err(OverflowError) else
    Ok([f.dType.Id(), |f.key|] + f.key + ToLE(|b|, 4) + b)
  }

  /** Where the key of an encoded field ends. */
  function KeyEnd(arr: seq<byte>): nat
    requires |arr| >= 2
  {
    var keySize: int := arr[1];
    2 + keySize
  }

  function ValueBytes(arr: seq<byte>): seq<byte>
    requires |arr| >= 2
  {
    var start := KeyEnd(arr) + 4;
    Slice(arr, start, start + FromLE(Slice(arr, KeyEnd(arr), start)))
  }

  /** `DataField.from_byte_arr` on any bytes at all. */
  function DecodeField(arr: seq<byte>): Result<DataField> {
    if |arr| == 0 then Err(IndexError) else
    var t :- DTypeOf(arr[0]);
    if |arr| == 1 then Err(IndexError) else
    var v :- Decode(ValueBytes(arr), t);
    Ok(DataField(Slice(arr, 2, KeyEnd(arr)), v, t))
  }

  function TrimField(f: DataField): (r: DataField)
    ensures f.Typed() ==> r.Typed()
  {
    TrimIsIdentityIffStable(f.value);
    f.(value := Trim(f.value))
  }

  lemma FieldParts(arr: seq<byte>, first: byte, key: seq<byte>, num: seq<byte>, rest: seq<byte>)
    requires |key| <= 255 && |num| == 4 && arr == [first, |key|] + key + num + rest
    ensures |arr| == 6 + |key| + |rest| && arr[0] == first && arr[1] == |key|
    ensures Slice(arr, 2, 2 + |key|) == key && Slice(arr, 2 + |key|, 6 + |key|) == num
    ensures arr[6 + |key|..] == rest
  {
  }

  lemma CutSum(head: seq<byte>, b: seq<byte>, cut: nat)
    requires cut <= |b|
    ensures (head + b)[..|head + b| - cut] == head + b[..|b| - cut]
  {
  }

  /** A field as its value decodes. */
  function FieldWith(key: seq<byte>, t: DType, v: Result<Value>): Result<DataField> {
    if v.Ok? then Ok(DataField(key, v.value, t)) else Err(v.error)
  }

  /** A field of `n` value bytes, of which `rest` are there. */
  lemma FieldOfParts(arr: seq<byte>, t: DType, key: seq<byte>, n: nat, rest: seq<byte>)
    requires |key| <= 255 && |rest| <= n < WORD_LIMIT && arr == [t.Id(), |key|] + key + ToLE(n, 4) + rest
    ensures DecodeField(arr) == FieldWith(key, t, Decode(rest, t))
  {
    FieldParts(arr, t.Id(), key, ToLE(n, 4), rest);
    WordRoundTrip(n);
    DTypeOfId(t);
    assert Slice(arr, 6 + |key|, 6 + |key| + n) == rest;
  }

  lemma FieldRoundTrip(f: DataField)
    requires f.Typed() && EncodeField(f).Ok?
    ensures DecodeField(EncodeField(f).value) == Ok(TrimField(f))
  {
    var b := Encode(f.value, f.dType).value;
    FieldOfParts(EncodeField(f).value, f.dType, f.key, |b|, b);
    RoundTripTrims(f.value, f.dType);
  }

  lemma DecodedFieldIsTyped(arr: seq<byte>)
    ensures DecodeField(arr).Ok? ==> DecodeField(arr).value.Typed()
  {
  }

  // ---------- the frame ----------

  function EncodeFields(fs: Fields): Result<seq<byte>> {
    if |fs| == 0 then Ok([]) else
    var fb :- EncodeField(fs[0]);
    if |fb| >= WORD_LIMIT then Err(OverflowError) else
    var rest :- EncodeFields(fs[1..]);
    Ok(ToLE(|fb|, 4) + fb + rest)
  }

  /** `DataFrame.to_byte_arr` */
  function EncodeFrame(fs: Fields): Result<seq<byte>> {
    if |fs| > 255 then Err(ValueError) else
    var b :- EncodeFields(fs);
    Ok([|fs| as byte] + b)
  }

  /** The index behind the field whose size stands at index `next`, and that field. */
  function NextField(arr: seq<byte>, next: nat): (r: nat)
    ensures r >= next + 4
  {
    next + 4 + FromLE(Slice(arr, next, next + 4))
  }

  function FieldAt(arr: seq<byte>, next: nat): Result<DataField> {
    DecodeField(Slice(arr, next + 4, NextField(arr, next)))
  }

  /** The field loop from index `next` on, `done` being the fields read so far. */
  function DecodeFields(arr: seq<byte>, next: nat, done: seq<DataField>): Result<seq<DataField>>
    decreases |arr| - next
  {
    if next >= |arr| then Ok(done) else
    var f :- FieldAt(arr, next);
    if |done| > MAX_FIELD_LIMIT then Err(KeyError) else
    DecodeFields(arr, NextField(arr, next), Dicts.Store(KeyOf, done, f))
  }

  /** `DataFrame.from_byte_arr`; the count in the first byte is not looked at. */
  function DecodeFrame(arr: seq<byte>): Result<seq<DataField>> {
    if |arr| == 0 then Err(IndexError) else DecodeFields(arr, 1, [])
  }

  function TrimFields(fs: Fields): (r: Fields)
    ensures |r| == |fs|
    ensures forall i :: 0 <= i < |fs| ==> r[i] == TrimField(fs[i])
  {
    seq(|fs|, i requires 0 <= i < |fs| => TrimField(fs[i]))
  }

  lemma CutThree(arr: seq<byte>, next: nat, prefix: seq<byte>, mid: seq<byte>, tail: seq<byte>)
    requires next <= |arr| && arr[next..] == prefix + mid + tail && |prefix| == 4
    ensures Slice(arr, next, next + 4) == prefix
    ensures Slice(arr, next + 4, next + 4 + |mid|) == mid
    ensures next + 4 + |mid| <= |arr| && arr[next + 4 + |mid|..] == tail
  {
    var left := arr[next..];
    assert Slice(arr, next, next + 4) == left[..4];
    assert Slice(arr, next + 4, next + 4 + |mid|) == left[4..4 + |mid|];
    assert arr[next + 4 + |mid|..] == left[4 + |mid|..];
  }

  lemma FieldCut(arr: seq<byte>, next: nat, fb: seq<byte>, tail: seq<byte>)
    requires next <= |arr| && |fb| < WORD_LIMIT && arr[next..] == ToLE(|fb|, 4) + fb + tail
    ensures NextField(arr, next) == next + 4 + |fb| <= |arr|
    ensures Slice(arr, next + 4, NextField(arr, next)) == fb
    ensures arr[NextField(arr, next)..] == tail
  {
    WordRoundTrip(|fb|);
    FieldCutAt(arr, next, ToLE(|fb|, 4), fb, tail);
  }

  lemma FieldCutAt(arr: seq<byte>, next: nat, prefix: seq<byte>, fb: seq<byte>, tail: seq<byte>)
    requires next <= |arr| && arr[next..] == prefix + fb + tail && |prefix| == 4 && FromLE(prefix) == |fb|
    ensures NextField(arr, next) == next + 4 + |fb| <= |arr|
    ensures Slice(arr, next + 4, NextField(arr, next)) == fb
    ensures arr[NextField(arr, next)..] == tail
  {
    CutThree(arr, next, prefix, fb, tail);
  }

  lemma EncodeFieldsSplits(fs: Fields)
    requires |fs| > 0 && EncodeFields(fs).Ok?
    ensures EncodeField(fs[0]).Ok? && |EncodeField(fs[0]).value| < WORD_LIMIT && EncodeFields(fs[1..]).Ok?
    ensures var fb := EncodeField(fs[0]).value;
            EncodeFields(fs).value == ToLE(|fb|, 4) + fb + EncodeFields(fs[1..]).value
  {
  }

  lemma FirstFieldDecodes(arr: seq<byte>, next: nat, f: DataField)
    requires f.Typed() && EncodeField(f).Ok?
    requires Slice(arr, next + 4, NextField(arr, next)) == EncodeField(f).value
    ensures FieldAt(arr, next) == Ok(TrimField(f))
  {
    FieldRoundTrip(f);
  }

  lemma StoreNext(done: Fields, fs: Fields)
    requires |fs| > 0 && DistinctKeys(done + fs)
    ensures var g := TrimField(fs[0]);
            && Dicts.Store(KeyOf, done, g) == done + [g]
            && DistinctKeys((done + [g]) + fs[1..])
  {
    var g := TrimField(fs[0]);
    var all := done + fs;
    assert all[|done|] == fs[0];
    forall i | 0 <= i < |done|
      ensures KeyOf(done[i]) != KeyOf(g)
    {
      assert KeyOf(all[i]) != KeyOf(all[|done|]);
    }
    Dicts.StoreNew(KeyOf, done, g);
    SameKeysDistinct(all, (done + [g]) + fs[1..]);
  }

  lemma TrimFieldsSplit(done: Fields, fs: Fields)
    requires |fs| > 0
    ensures (done + [TrimField(fs[0])]) + TrimFields(fs[1..]) == done + TrimFields(fs)
  {
  }

  /** One turn of the field loop on what the encoder wrote. */
  lemma DecodeOne(arr: seq<byte>, next: nat, fs: Fields, done: Fields)
    requires |fs| > 0 && DistinctKeys(done + fs) && |done| + |fs| <= 255 && EncodeFields(fs).Ok?
    requires next <= |arr| && arr[next..] == EncodeFields(fs).value
    ensures EncodeFields(fs[1..]).Ok?
    ensures NextField(arr, next) <= |arr| && arr[NextField(arr, next)..] == EncodeFields(fs[1..]).value
    ensures DecodeFields(arr, next, done) == DecodeFields(arr, NextField(arr, next), done + [TrimField(fs[0])])
  {
    EncodeFieldsSplits(fs);
    FieldCut(arr, next, EncodeField(fs[0]).value, EncodeFields(fs[1..]).value);
    FirstFieldDecodes(arr, next, fs[0]);
    StoreNext(done, fs);
  }

  lemma {:induction false} FieldsRoundTrip(arr: seq<byte>, next: nat, fs: Fields, done: Fields)
    requires DistinctKeys(done + fs) && |done| + |fs| <= 255 && EncodeFields(fs).Ok?
    requires next <= |arr| && arr[next..] == EncodeFields(fs).value
    ensures DecodeFields(arr, next, done) == Ok(done + TrimFields(fs))
    decreases |fs|
  {
    if |fs| == 0 {
      assert done + TrimFields(fs) == done;
    } else {
      var done' := done + [TrimField(fs[0])];
      DecodeOne(arr, next, fs, done);
      StoreNext(done, fs);
      TrimFieldsSplit(done, fs);
      FieldsRoundTrip(arr, NextField(arr, next), fs[1..], done');
    }
  }

  lemma SameKeysDistinct(fs: seq<DataField>, gs: seq<DataField>)
    requires |fs| == |gs| && DistinctKeys(fs)
    requires forall i :: 0 <= i < |fs| ==> fs[i].key == gs[i].key
    ensures DistinctKeys(gs)
  {
    forall i, j | 0 <= i < j < |gs|
      ensures KeyOf(gs[i]) != KeyOf(gs[j])
    {
      assert KeyOf(fs[i]) != KeyOf(fs[j]);
    }
  }

  /** A frame that encodes decodes, to the same fields in the same order, each value
      trimmed; it is recovered exactly when all its values are stable. */
  lemma FrameRoundTrip(fs: Fields)
    requires DistinctKeys(fs) && EncodeFrame(fs).Ok?
    ensures DecodeFrame(EncodeFrame(fs).value) == Ok(TrimFields(fs))
    ensures DecodeFrame(EncodeFrame(fs).value) == Ok(fs) <==> forall i :: 0 <= i < |fs| ==> Stable(fs[i].value)
  {
    assert [] + fs == fs;
    assert EncodeFrame(fs).value[1..] == EncodeFields(fs).value;
    FieldsRoundTrip(EncodeFrame(fs).value, 1, fs, []);
    assert [] + TrimFields(fs) == TrimFields(fs);
    forall i | 0 <= i < |fs|
      ensures TrimFields(fs)[i] == fs[i] <==> Stable(fs[i].value)
    {
      TrimIsIdentityIffStable(fs[i].value);
    }
    if forall i :: 0 <= i < |fs| ==> Stable(fs[i].value) {
      assert TrimFields(fs) == fs;
    }
  }

  /** A field whose value fits its type and whose sizes fit their prefixes. */
  predicate FieldEncodable(f: DataField)
    requires f.Typed()
  {
    && |f.key| <= 255
    && (if f.dType.IsInt() then 0 <= f.value.n < Pow256(f.dType.IntSize()) else Encodable(f.value))
    && 6 + |f.key| + ValueSize(f) < WORD_LIMIT
  }

  function ValueSize(f: DataField): nat
    requires f.Typed()
  {
    if f.dType.IsInt() then f.dType.IntSize() else Size(f.value)
  }

  function FrameSize(fs: Fields): nat {
    if |fs| == 0 then 1 else FrameSize(fs[1..]) + 10 + |fs[0].key| + ValueSize(fs[0])
  }

  lemma FieldEncodesIff(f: DataField)
    requires f.Typed()
    ensures FieldEncodable(f) <==> EncodeField(f).Ok? && |EncodeField(f).value| < WORD_LIMIT
    ensures EncodeField(f).Ok? ==> |EncodeField(f).value| == 6 + |f.key| + ValueSize(f)
  {
    if !f.dType.IsInt() {
      EncodeOk(f.value);
    }
  }

  lemma {:induction false} FieldsEncodeIff(fs: Fields)
    ensures EncodeFields(fs).Ok? <==> forall i :: 0 <= i < |fs| ==> FieldEncodable(fs[i])
    ensures EncodeFields(fs).Ok? ==> 1 + |EncodeFields(fs).value| == FrameSize(fs)
  {
    if |fs| > 0 {
      FieldEncodesIff(fs[0]);
      FieldsEncodeIff(fs[1..]);
      assert (forall i :: 0 <= i < |fs| ==> FieldEncodable(fs[i]))
        <==> FieldEncodable(fs[0]) && forall i :: 0 <= i < |fs| - 1 ==> FieldEncodable(fs[1..][i]) by {
        assert forall i :: 0 < i < |fs| ==> fs[i] == fs[1..][i - 1];
      }
    }
  }

  /** Exactly which frames encode, and to how many bytes. */
  lemma FrameEncodesIff(fs: Fields)
    ensures EncodeFrame(fs).Ok? <==> |fs| <= 255 && forall i :: 0 <= i < |fs| ==> FieldEncodable(fs[i])
    ensures EncodeFrame(fs).Ok? ==> |EncodeFrame(fs).value| == FrameSize(fs)
  {
    FieldsEncodeIff(fs);
  }

  /** Too many fields or too long a key is a value error, anything out of its range an
      overflow; of several fields that do not encode the first decides. */
  lemma FrameErrors(fs: Fields, k: nat)
    ensures |fs| > 255 ==> EncodeFrame(fs) == Err(ValueError)
    ensures |fs| <= 255 && k < |fs| && !FieldEncodable(fs[k]) && (forall j :: 0 <= j < k ==> FieldEncodable(fs[j])) ==>
      EncodeFrame(fs) == Err(if |fs[k].key| > 255 then ValueError else OverflowError)
  {
    if |fs| <= 255 && k < |fs| && !FieldEncodable(fs[k]) && forall j :: 0 <= j < k ==> FieldEncodable(fs[j]) {
      FieldsErrors(fs, k);
    }
  }

  lemma {:induction false} FieldsErrors(fs: Fields, k: nat)
    requires k < |fs| && !FieldEncodable(fs[k]) && forall j :: 0 <= j < k ==> FieldEncodable(fs[j])
    ensures EncodeFields(fs) == Err(if |fs[k].key| > 255 then ValueError else OverflowError)
  {
    FieldEncodesIff(fs[0]);
    if k > 0 {
      FieldsErrors(fs[1..], k - 1);
    } else if |fs[0].key| <= 255 && Encode(fs[0].value, fs[0].dType).Err? {
      EncodeOverflows(fs[0].value, fs[0].dType);
    }
  }

  // ---------- the bytes of a frame ----------

  /** An encoded field: type id, key length, key, four bytes of value size, value. */
  predicate FieldLaidOut(arr: seq<byte>, f: DataField)
    requires f.Typed()
  {
    && |arr| == 6 + |f.key| + ValueSize(f)
    && arr[0] == f.dType.Id()
    && arr[1] == |f.key|
    && arr[2..2 + |f.key|] == f.key
    && HoldsNumber(arr, 2 + |f.key|, ValueSize(f))
    && Encode(f.value, f.dType) == Ok(arr[6 + |f.key|..])
  }

  lemma FieldLayout(f: DataField)
    requires f.Typed() && EncodeField(f).Ok?
    ensures FieldLaidOut(EncodeField(f).value, f)
  {
    var b, arr := Encode(f.value, f.dType).value, EncodeField(f).value;
    FieldEncodesIff(f);
    var head := [f.dType.Id(), |f.key|] + f.key;
    PartsOf(arr, head, ToLE(|b|, 4), b);
    assert arr[..2 + |f.key|] == head;
    assert arr[2..2 + |f.key|] == head[2..];
    assert arr[0] == head[0] && arr[1] == head[1];
    assert arr[2 + |f.key|..6 + |f.key|] == arr[2 + |f.key|..][..4];
    NumberHeld(arr, 2 + |f.key|, |b|);
    assert arr[6 + |f.key|..] == arr[2 + |f.key|..][4..];
  }

  /** Where field `k` begins: the fields before it take their size and four bytes each. */
  function FieldStart(fs: Fields, k: nat): nat
    requires k <= |fs|
  {
    if k == 0 then 0 else FieldStart(fs, k - 1) + 10 + |fs[k - 1].key| + ValueSize(fs[k - 1])
  }

  lemma {:induction false} FieldStartShifts(fs: Fields, k: nat)
    requires 0 < k <= |fs|
    ensures FieldStart(fs, k) == 10 + |fs[0].key| + ValueSize(fs[0]) + FieldStart(fs[1..], k - 1)
  {
    if k > 1 {
      FieldStartShifts(fs, k - 1);
    }
  }

  /** `chunk` stands at index `at`. */
  predicate StandsAt(arr: seq<byte>, chunk: seq<byte>, at: nat) {
    at + |chunk| <= |arr| && arr[at..at + |chunk|] == chunk
  }

  lemma StandsBehind(head: seq<byte>, tail: seq<byte>, chunk: seq<byte>, at: nat)
    requires StandsAt(tail, chunk, at)
    ensures StandsAt(head + tail, chunk, |head| + at)
  {
    assert (head + tail)[|head| + at..|head| + at + |chunk|] == tail[at..at + |chunk|];
  }

  lemma StandsFirst(chunk: seq<byte>, tail: seq<byte>)
    ensures StandsAt(chunk + tail, chunk, 0)
  {
  }

  /** A field with its size in front. */
  function Chunk(f: DataField): seq<byte>
    requires f.Typed() && EncodeField(f).Ok?
  {
    ToLE(|EncodeField(f).value|, 4) + EncodeField(f).value
  }

  /** Four bytes of size, then the field. */
  lemma ChunkLayout(f: DataField)
    requires f.Typed() && EncodeField(f).Ok?
    ensures |Chunk(f)| == 10 + |f.key| + ValueSize(f)
    ensures HoldsNumber(Chunk(f), 0, 6 + |f.key| + ValueSize(f)) && FieldLaidOut(Chunk(f)[4..], f)
  {
    var fb := EncodeField(f).value;
    FieldLayout(f);
    assert Chunk(f)[0..4] == ToLE(|fb|, 4) && Chunk(f)[4..] == fb;
    NumberHeld(Chunk(f), 0, |fb|);
  }

  lemma FirstChunk(fs: Fields)
    requires |fs| > 0 && EncodeFields(fs).Ok?
    ensures EncodeField(fs[0]).Ok? && EncodeFields(fs[1..]).Ok?
    ensures EncodeFields(fs).value == Chunk(fs[0]) + EncodeFields(fs[1..]).value
    ensures |Chunk(fs[0])| == 10 + |fs[0].key| + ValueSize(fs[0])
  {
    EncodeFieldsSplits(fs);
    ChunkLayout(fs[0]);
  }

  /** Chunk `k` stands where the ones before it end; behind the last there is nothing. */
  predicate ChunkStands(fs: Fields, arr: seq<byte>, k: nat, at: nat)
    requires k < |fs|
  {
    && EncodeField(fs[k]).Ok? && StandsAt(arr, Chunk(fs[k]), at)
    && (k == |fs| - 1 ==> at + |Chunk(fs[k])| == |arr|)
  }

  lemma ChunkBehind(fs: Fields, gs: Fields, head: seq<byte>, tail: seq<byte>, k: nat, l: nat, at: nat)
    requires k < |fs| && l < |gs| && fs[k] == gs[l] && (k == |fs| - 1 <==> l == |gs| - 1)
    requires ChunkStands(gs, tail, l, at)
    ensures ChunkStands(fs, head + tail, k, |head| + at)
  {
    StandsBehind(head, tail, Chunk(gs[l]), at);
  }

  lemma {:induction false} FieldsLayout(fs: Fields, k: nat)
    requires EncodeFields(fs).Ok? && k < |fs|
    ensures ChunkStands(fs, EncodeFields(fs).value, k, FieldStart(fs, k))
    decreases k
  {
    if k == 0 {
      FirstStands(fs);
    } else {
      FirstChunk(fs);
      FieldsLayout(fs[1..], k - 1);
      LayoutBehindFirst(fs, k);
    }
  }

  lemma LayoutBehindFirst(fs: Fields, k: nat)
    requires EncodeFields(fs).Ok? && 0 < k < |fs| && EncodeFields(fs[1..]).Ok?
    requires ChunkStands(fs[1..], EncodeFields(fs[1..]).value, k - 1, FieldStart(fs[1..], k - 1))
    ensures ChunkStands(fs, EncodeFields(fs).value, k, FieldStart(fs, k))
  {
    FirstChunk(fs);
    FieldStartShifts(fs, k);
    ChunkBehind(fs, fs[1..], Chunk(fs[0]), EncodeFields(fs[1..]).value, k, k - 1, FieldStart(fs[1..], k - 1));
  }

  lemma FirstStands(fs: Fields)
    requires |fs| > 0 && EncodeFields(fs).Ok?
    ensures ChunkStands(fs, EncodeFields(fs).value, 0, 0)
  {
    FirstChunk(fs);
    StandsFirst(Chunk(fs[0]), EncodeFields(fs[1..]).value);
  }

  lemma FirstByteCounts(fs: Fields)
    requires EncodeFrame(fs).Ok?
    ensures EncodeFields(fs).Ok? && |fs| <= 255
    ensures EncodeFrame(fs).value == [|fs| as byte] + EncodeFields(fs).value
    ensures EncodeFrame(fs).value[0] == |fs| && (|fs| == 0 ==> |EncodeFrame(fs).value| == 1)
  {
  }

  /** The bytes of a frame: the number of fields, and from index 1 on chunk after chunk to the end. */
  lemma FrameLayout(fs: Fields, k: nat)
    requires EncodeFrame(fs).Ok?
    ensures |EncodeFrame(fs).value| > 0 && EncodeFrame(fs).value[0] == |fs|
    ensures |fs| == 0 ==> |EncodeFrame(fs).value| == 1
    ensures k < |fs| ==> ChunkStands(fs, EncodeFrame(fs).value, k, 1 + FieldStart(fs, k))
  {
    FirstByteCounts(fs);
    if k < |fs| {
      FieldsLayout(fs, k);
      ChunkBehind(fs, fs, [|fs| as byte], EncodeFields(fs).value, k, k, FieldStart(fs, k));
    }
  }

  // ---------- any bytes at all ----------

  /** Nothing at all, or no key size behind the type, is an index error; a type that does
      not exist is a value error, and one nobody registered a lookup error. */
  lemma BadBytes(arr: seq<byte>)
    ensures DecodeFrame([]) == Err(IndexError) && DecodeField([]) == Err(IndexError)
    ensures |arr| > 0 && (forall t: DType :: t.Id() != arr[0]) ==> DecodeField(arr) == Err(ValueError)
    ensures |arr| == 1 && (exists t: DType :: t.Id() == arr[0]) ==> DecodeField(arr) == Err(IndexError)
    ensures |arr| > 1 && arr[0] in [CUSTOM_TYPE_START.Id(), CUSTOM_TYPE_END.Id()] ==> DecodeField(arr) == Err(LookupError)
  {
    if |arr| > 0 && exists t: DType :: t.Id() == arr[0] {
      var t: DType :| t.Id() == arr[0];
      DTypeOfId(t);
    }
    DTypeOfId(CUSTOM_TYPE_START);
    DTypeOfId(CUSTOM_TYPE_END);
  }

  /** A field cut short inside its value decodes to what is left of the value. */
  lemma CutFieldDecodes(f: DataField, arr: seq<byte>, b: seq<byte>, cut: nat)
    requires f.Typed() && EncodeField(f) == Ok(arr) && Encode(f.value, f.dType) == Ok(b) && cut <= |b|
    ensures |b| <= |arr|
    ensures DecodeField(arr[..|arr| - cut]) == FieldWith(f.key, f.dType, Decode(b[..|b| - cut], f.dType))
  {
    FieldIsParts(f);
    CutParts(f.dType.Id(), f.key, ToLE(|b|, 4), b, cut);
    FieldOfParts(arr[..|arr| - cut], f.dType, f.key, |b|, b[..|b| - cut]);
  }

  lemma FieldIsParts(f: DataField)
    requires f.Typed() && EncodeField(f).Ok?
    ensures Encode(f.value, f.dType).Ok? && |f.key| <= 255 && |Encode(f.value, f.dType).value| < WORD_LIMIT
    ensures var b := Encode(f.value, f.dType).value;
            EncodeField(f).value == [f.dType.Id(), |f.key|] + f.key + ToLE(|b|, 4) + b
  {
  }

  lemma CutParts(first: byte, key: seq<byte>, num: seq<byte>, b: seq<byte>, cut: nat)
    requires |key| <= 255 && cut <= |b|
    ensures var arr := [first, |key|] + key + num + b; |arr| >= cut && arr[..|arr| - cut] == [first, |key|] + key + num + b[..|b| - cut]
  {
    CutSum([first, |key|] + key + num, b, cut);
  }

  /** The value of the last field under `key` from index `next` on. */
  function LastUnder(arr: seq<byte>, next: nat, key: seq<byte>): Option<Value>
    decreases |arr| - next
  {
    if next >= |arr| || FieldAt(arr, next).Err? then None else
    var later := LastUnder(arr, NextField(arr, next), key);
    if later.Some? then later
    else if FieldAt(arr, next).value.key == key then Some(FieldAt(arr, next).value.value)
    else None
  }

  lemma {:induction false} LaterFieldWins(arr: seq<byte>, next: nat, done: seq<DataField>, key: seq<byte>)
    requires DecodeFields(arr, next, done).Ok?
    ensures Lookup(DecodeFields(arr, next, done).value, key)
         == if LastUnder(arr, next, key).Some? then LastUnder(arr, next, key) else Lookup(done, key)
    decreases |arr| - next
  {
    if next < |arr| {
      var f := FieldAt(arr, next).value;
      LookupStored(done, f, key);
      LaterFieldWins(arr, NextField(arr, next), Dicts.Store(KeyOf, done, f), key);
    }
  }

  /** Of several fields under one key in arbitrary bytes the last one counts; a field that fails is the error. */
  lemma LastFieldWins(arr: seq<byte>, key: seq<byte>)
    requires DecodeFrame(arr).Ok?
    ensures Lookup(DecodeFrame(arr).value, key) == LastUnder(arr, 1, key)
  {
    LaterFieldWins(arr, 1, [], key);
  }

  /** What every decoded frame is. */
  predicate IsFrame(fs: seq<DataField>) {
    AllTyped(fs) && DistinctKeys(fs) && |fs| <= MAX_FIELD_LIMIT + 1
  }

  lemma StoreKeepsFields(fs: Fields, f: DataField)
    requires DistinctKeys(fs) && f.Typed()
    ensures var r := Dicts.Store(KeyOf, fs, f); AllTyped(r) && DistinctKeys(r) && |r| <= |fs| + 1
  {
    Dicts.StoreDistinct(KeyOf, fs, f);
    var r := Dicts.Store(KeyOf, fs, f);
    forall i | 0 <= i < |r|
      ensures r[i].Typed()
    {
      assert r[i] in r;
    }
  }

  lemma DropKeepsFields(fs: Fields, key: seq<byte>)
    requires DistinctKeys(fs)
    ensures var r := Dicts.Drop(KeyOf, fs, key);
            AllTyped(r) && DistinctKeys(r) && !Dicts.HasKey(KeyOf, r, key)
  {
    Dicts.DropDistinct(KeyOf, fs, key);
    Dicts.DropKnown(KeyOf, fs, key);
  }

  predicate FrameOrError(r: Result<seq<DataField>>) {
    r.Ok? ==> IsFrame(r.value)
  }

  lemma StoreKeepsFrame(arr: seq<byte>, next: nat, done: seq<DataField>)
    requires IsFrame(done) && |done| <= MAX_FIELD_LIMIT && FieldAt(arr, next).Ok?
    ensures IsFrame(Dicts.Store(KeyOf, done, FieldAt(arr, next).value))
  {
    DecodedFieldIsTyped(Slice(arr, next + 4, NextField(arr, next)));
    StoreKeepsFields(done, FieldAt(arr, next).value);
  }

  lemma {:induction false} DecodedFieldsAreAFrame(arr: seq<byte>, next: nat, done: seq<DataField>)
    requires IsFrame(done)
    ensures FrameOrError(DecodeFields(arr, next, done))
    decreases |arr| - next
  {
    if next < |arr| && FieldAt(arr, next).Ok? && |done| <= MAX_FIELD_LIMIT {
      StoreKeepsFrame(arr, next, done);
      DecodedFieldsAreAFrame(arr, NextField(arr, next), Dicts.Store(KeyOf, done, FieldAt(arr, next).value));
    }
  }

  /** Whatever the bytes, the decoder ends in an error or in at most 256 well-typed
      fields with distinct keys. */
  lemma DecodedFrameIsAFrame(arr: seq<byte>)
    ensures FrameOrError(DecodeFrame(arr))
  {
    if |arr| > 0 {
      DecodedFieldsAreAFrame(arr, 1, []);
    }
  }

  // ---------- the object ----------

  /** `self.fields[key].value`, if there is such a field. */
  function Lookup(fs: seq<DataField>, key: seq<byte>): (r: Option<Value>)
    ensures r.Some? ==> exists i :: 0 <= i < |fs| && fs[i].key == key && fs[i].value == r.value
    ensures r.None? <==> !Dicts.HasKey(KeyOf, fs, key)
  {
    if |fs| == 0 then None
    else if fs[0].key == key then
      assert KeyOf(fs[0]) == key;
      Some(fs[0].value)
    else
      var r := Lookup(fs[1..], key);
      assert r.None? ==> forall i :: 0 < i < |fs| ==> KeyOf(fs[i]) == KeyOf(fs[1..][i - 1]) != key;
      assert r.Some? ==> exists i :: 0 <= i < |fs| - 1 && fs[1..][i].key == key && fs[1..][i].value == r.value;
      assert r.Some? ==> exists i :: 0 < i < |fs| && fs[i].key == key && fs[i].value == r.value by {
        if r.Some? {
          var i :| 0 <= i < |fs| - 1 && fs[1..][i].key == key && fs[1..][i].value == r.value;
          assert fs[i + 1].key == key && KeyOf(fs[i + 1]) == key;
        }
      }
      r
  }

  /** What a dictionary finds after an assignment. */
  lemma {:induction false} LookupStored(fs: seq<DataField>, f: DataField, key: seq<byte>)
    ensures Lookup(Dicts.Store(KeyOf, fs, f), key) == if key == f.key then Some(f.value) else Lookup(fs, key)
  {
    if |fs| > 0 && fs[0].key != f.key {
      LookupStored(fs[1..], f, key);
      assert Dicts.Store(KeyOf, fs, f)[1..] == Dicts.Store(KeyOf, fs[1..], f);
    }
  }

  class DataFrame {
    var fields: seq<DataField>

    ghost predicate Valid()
      reads this
    {
      AllTyped(fields) && DistinctKeys(fields)
    }

    constructor (data: Option<Value>)
      ensures Valid()
      ensures fields == if data.Some? then [DataField(KEY_D, data.value, GetDataType(data.value))] else []
    {
      fields := if data.Some? then [DataField(KEY_D, data.value, GetDataType(data.value))] else [];
    }

    /** `_add_field` */
    method AddTypedField(field: DataField, allowReserve: bool) returns (r: Result<()>)
      requires Valid() && field.Typed()
      modifies this
      ensures Valid()
      ensures r == if (!allowReserve && field.key in [KEY_D, KEY_PID, KEY_LAST]) || |old(fields)| > MAX_FIELD_LIMIT
                   then Err(KeyError) else Ok(())
      ensures fields == if r.Ok? then Dicts.Store(KeyOf, old(fields), field) else old(fields)
    {
      if field.key in [KEY_D, KEY_PID, KEY_LAST] && !allowReserve {
        return Err(KeyError);
      }
      if |fields| > MAX_FIELD_LIMIT {
        return Err(KeyError);
      }
      StoreKeepsFields(fields, field);
      fields := Dicts.Store(KeyOf, fields, field);
      r := Ok(());
    }

    /** `add_field` */
    method AddField(key: seq<byte>, value: Value) returns (r: Result<()>)
      requires Valid()
      modifies this
      ensures Valid()
      ensures r.Ok? <==> key !in [KEY_D, KEY_PID, KEY_LAST] && |old(fields)| <= MAX_FIELD_LIMIT
      ensures r.Ok? ==> fields == Dicts.Store(KeyOf, old(fields), DataField(key, value, GetDataType(value)))
      ensures r.Err? ==> fields == old(fields)
    {
      r := AddTypedField(DataField(key, value, GetDataType(value)), false);
    }

    /** The `last` setter: the mark is a one-byte 1. */
    method SetLast(flag: bool)
      requires Valid()
      modifies this
      ensures Valid()
      ensures fields == if flag then Dicts.Store(KeyOf, old(fields), DataField(KEY_LAST, Int(1), U8))
                        else Dicts.Drop(KeyOf, old(fields), KEY_LAST)
    {
      if !flag {
        DropKeepsFields(fields, KEY_LAST);
        fields := Dicts.Drop(KeyOf, fields, KEY_LAST);
        return;
      }
      StoreKeepsFields(fields, DataField(KEY_LAST, Int(1), U8));
      fields := Dicts.Store(KeyOf, fields, DataField(KEY_LAST, Int(1), U8));
    }

    /** `set_pipe_exe_id`; `uuid` is the text to use when no id is given. */
    method SetPipeExeId(id: Option<Value>, uuid: seq<byte>)
      requires Valid()
      modifies this
      ensures Valid()
      ensures var v := if id.Some? then id.value else Str(uuid);
              fields == Dicts.Store(KeyOf, old(fields), DataField(KEY_PID, v, GetDataType(v)))
    {
      var field := DataField(KEY_PID, Str(uuid), STR);
      if id.Some? {
        field := DataField(KEY_PID, id.value, GetDataType(id.value));
      }
      StoreKeepsFields(fields, field);
      fields := Dicts.Store(KeyOf, fields, field);
    }

    method ToByteArr() returns (r: Result<seq<byte>>)
      requires Valid()
      ensures r == EncodeFrame(fields)
      ensures r.Ok? ==> |r.value| > 0 && r.value[0] == |fields|
    {
      if |fields| > 255 {
        return Err(ValueError);
      }
      var body: seq<byte> := [];
      PrependTwice([], [], EncodeFields(fields));
      assert fields[0..] == fields;
      for i := 0 to |fields|
        invariant EncodeFields(fields) == Prepend(body, EncodeFields(fields[i..]))
      {
        assert fields[i..][0] == fields[i] && fields[i..][1..] == fields[i + 1..];
        var fieldBytes := FieldByteArr(fields[i]);
        if fieldBytes.Err? {
          return Err(fieldBytes.error);
        }
        if |fieldBytes.value| >= WORD_LIMIT {
          return Err(OverflowError);
        }
        var chunk := ToLE(|fieldBytes.value|, 4) + fieldBytes.value;
        assert EncodeFields(fields[i..]) == Prepend(chunk, EncodeFields(fields[i + 1..]));
        PrependTwice(body, chunk, EncodeFields(fields[i + 1..]));
        body := body + chunk;
      }
      PrependTwice(body, [], Ok([]));
      r := Ok([|fields| as byte] + body);
    }

    static method FromByteArr(arr: seq<byte>) returns (r: Result<DataFrame>)
      ensures r.Ok? <==> DecodeFrame(arr).Ok?
      ensures r.Ok? ==> fresh(r.value) && r.value.Valid() && DecodeFrame(arr) == Ok(r.value.fields)
      ensures r.Err? ==> DecodeFrame(arr) == Err(r.error)
    {
      var frame := new DataFrame(None);
      if |arr| == 0 {
        return Err(IndexError);
      }
      var next := 1;
      while next < |arr|
        invariant 1 <= next && frame.Valid() && fresh(frame)
        invariant DecodeFrame(arr) == DecodeFields(arr, next, frame.fields)
        decreases |arr| - next
      {
        var f, after := ReadField(arr, next);
        if f.Err? {
          return Err(f.error);
        }
        var added := frame.AddTypedField(f.value, true);
        if added.Err? {
          return Err(added.error);
        }
        next := after;
      }
      r := Ok(frame);
    }
  }

  method ReadField(arr: seq<byte>, next: nat) returns (f: Result<DataField>, after: nat)
    ensures f == FieldAt(arr, next) && after == NextField(arr, next)
    ensures f.Ok? ==> f.value.Typed()
  {
    var fieldStart := next + 4;
    var fieldSize := FromLE(Slice(arr, next, fieldStart));
    f := FieldFromByteArr(Slice(arr, fieldStart, fieldStart + fieldSize));
    after := next + 4 + fieldSize;
  }

  method FieldByteArr(f: DataField) returns (r: Result<seq<byte>>)
    requires f.Typed()
    ensures r == EncodeField(f)
  {
    if |f.key| > 255 {
      return Err(ValueError);
    }
    var arr: seq<byte> := [f.dType.Id(), |f.key|] + f.key;
    var valueBytes := DataToByteArr(f.value, f.dType);
    if valueBytes.Err? {
      return valueBytes;
    }
    if |valueBytes.value| >= WORD_LIMIT {
      return Err(OverflowError);
    }
    r := Ok(arr + ToLE(|valueBytes.value|, 4) + valueBytes.value);
  }

  method FieldFromByteArr(arr: seq<byte>) returns (r: Result<DataField>)
    ensures r == DecodeField(arr)
    ensures r.Ok? ==> r.value.Typed()
  {
    if |arr| == 0 {
      return Err(IndexError);
    }
    var t := DTypeOf(arr[0]);
    if t.Err? {
      return Err(t.error);
    }
    if |arr| == 1 {
      return Err(IndexError);
    }
    var keyEnd := KeyEnd(arr);
    var valueSize := FromLE(Slice(arr, keyEnd, keyEnd + 4));
    var valueBytes := Slice(arr, keyEnd + 4, keyEnd + 4 + valueSize);
    var v := DataFromByteArr(valueBytes, t.value);
    if v.Err? {
      return Err(v.error);
    }
    DecodedFieldIsTyped(arr);
    r := Ok(DataField(Slice(arr, 2, keyEnd), v.value, t.value));
  }
}
