/** Which streams are accepted: exactly those that start with the encoding of a header that fits,
    payload that nobody reads excepted. */
module GgufGrammar {
  import opened Wrappers
  import opened Bytes
  import opened Gguf
  import opened GgufPrefix
  import opened GgufEncode

  /** The stream agrees with `enc` from `pos` on, as far as it goes. */
  ghost predicate StartsAt(data: seq<byte>, pos: nat, enc: seq<byte>)
  {
    forall i | 0 <= i < |enc| && pos + i < |data| :: enc[i] == data[pos + i]
  }

  lemma StartsAppend(data: seq<byte>, pos: nat, a: seq<byte>, b: seq<byte>)
    requires StartsAt(data, pos, a) && StartsAt(data, pos + |a|, b)
    ensures StartsAt(data, pos, a + b)
  {
    forall i | 0 <= i < |a + b| && pos + i < |data| ensures (a + b)[i] == data[pos + i] {
      if i >= |a| {
        assert b[i - |a|] == data[pos + |a| + (i - |a|)];
      }
    }
  }

  // ----- Scalars

  lemma {:induction false} LittleEndianInverse(b: seq<byte>)
    ensures LittleEndian(FromLittleEndian(b), |b|) == b
    decreases |b|
  {
    if b != [] {
      LittleEndianInverse(b[1..]);
      assert (b[0] + 256 * FromLittleEndian(b[1..])) / 256 == FromLittleEndian(b[1..]);
      assert b == [b[0]] + b[1..];
    }
  }

  lemma TakenStarts(src: Source, c: Cursor, n: nat)
    requires Sound(src, c) && Take(src, c, n).Done?
    ensures StartsAt(src.data, c.pos, Take(src, c, n).value)
  {
  }

  lemma UnsignedDecodes(src: Source, c: Cursor, w: nat)
    requires Sound(src, c) && 0 < w && TakeUnsigned(src, c, w).Done?
    ensures var n := TakeUnsigned(src, c, w).value; n < Span(w) && StartsAt(src.data, c.pos, LittleEndian(n, w))
  {
    var raw := Take(src, c, w).value;
    TakenStarts(src, c, w);
    LittleEndianInverse(raw);
  }

  /** The value of type `t` that is written as `raw`. */
  function Scalar(t: nat, raw: seq<byte>): Value
    requires ItemWidth(t) == Some(|raw|)
  {
    var n := FromLittleEndian(raw);
    if t == 6 || t == 12 then Float(raw)
    else if t == 7 then Bool(raw[0])
    else if IsSigned(t) then Signed(|raw|, FromTwosComplement(n, |raw|))
    else Unsigned(|raw|, n)
  }

  lemma IntegersAre(raw: seq<byte>)
    requires |raw| in {1, 2, 4, 8}
    ensures var v := Unsigned(|raw|, FromLittleEndian(raw)); ScalarFits(v) && EncodeScalar(v) == raw
    ensures var v := Signed(|raw|, FromTwosComplement(FromLittleEndian(raw), |raw|));
            ScalarFits(v) && EncodeScalar(v) == raw
  {
    LittleEndianInverse(raw);
    TwosComplementInverse(FromLittleEndian(raw), |raw|);
  }

  lemma TwosComplementInverse(n: nat, w: nat)
    requires w > 0 && n < Span(w)
    ensures var i := FromTwosComplement(n, w);
            0 <= 2 * i + Span(w) && 2 * i < Span(w) && ToTwosComplement(i, w) == n
  {
    assert Span(w) == 256 * Span(w - 1);
  }

  lemma ScalarIs(t: nat, raw: seq<byte>)
    requires ItemWidth(t) == Some(|raw|)
    ensures var v := Scalar(t, raw); !v.Arr? && !v.Str? && ScalarFits(v) && Code(v) == t && EncodeScalar(v) == raw
  {
    if t !in {6, 7, 12} {
      IntegersAre(raw);
    }
  }

  // ----- Items

  predicate AllFit(x: Text, t: nat, items: seq<Value>)
  {
    forall i | 0 <= i < |items| :: Code(items[i]) == t && Fits(x, items[i])
  }

  function EncodeAll(x: Text, t: nat, items: seq<Value>): seq<byte>
    requires AllFit(x, t, items)
    decreases |items|
  {
    if items == [] then [] else Encode(x, items[0]) + EncodeAll(x, t, items[1..])
  }

  lemma {:induction false} ItemsAreAll(x: Text, v: Value, i: nat)
    requires v.Arr? && Fits(x, v) && i <= |v.items|
    ensures AllFit(x, v.itemType, v.items[i..])
    ensures EncodeItems(x, v, i) == EncodeAll(x, v.itemType, v.items[i..])
    decreases |v.items| - i
  {
    if i < |v.items| {
      ItemsAreAll(x, v, i + 1);
      assert v.items[i..][1..] == v.items[i + 1..];
    }
  }

  /** `w` bytes of the stream, zeros beyond its end. */
  function Window(data: seq<byte>, pos: nat, w: nat): seq<byte>
  {
    seq(w, i requires 0 <= i < w => if pos + i < |data| then data[pos + i] else 0)
  }

  /** The items of a fixed-width payload. */
  function Payload(data: seq<byte>, pos: nat, t: nat, count: nat): (items: seq<Value>)
    requires ItemWidth(t).Some?
    ensures |items| == count
    decreases count
  {
    var w := ItemWidth(t).value;
    if count == 0 then [] else [Scalar(t, Window(data, pos, w))] + Payload(data, pos + w, t, count - 1)
  }

  /** The items, all of type `t`, are written from `pos` on. */
  ghost predicate AllStart(x: Text, data: seq<byte>, pos: nat, t: nat, items: seq<Value>)
  {
    AllFit(x, t, items) && StartsAt(data, pos, EncodeAll(x, t, items))
  }

  lemma AllCons(x: Text, data: seq<byte>, pos: nat, t: nat, v: Value, rest: seq<Value>)
    requires Code(v) == t && Fits(x, v) && StartsAt(data, pos, Encode(x, v))
    requires AllStart(x, data, pos + |Encode(x, v)|, t, rest)
    ensures AllStart(x, data, pos, t, [v] + rest)
    ensures EncodeAll(x, t, [v] + rest) == Encode(x, v) + EncodeAll(x, t, rest)
  {
    assert ([v] + rest)[1..] == rest;
    StartsAppend(data, pos, Encode(x, v), EncodeAll(x, t, rest));
  }

  lemma ScalarEncodes(x: Text, t: nat, raw: seq<byte>)
    requires ItemWidth(t) == Some(|raw|)
    ensures var v := Scalar(t, raw); !v.Arr? && Code(v) == t && Fits(x, v) && Encode(x, v) == raw
  {
    ScalarIs(t, raw);
  }

  lemma ItemAt(x: Text, data: seq<byte>, pos: nat, t: nat) returns (v: Value)
    requires ItemWidth(t).Some?
    ensures v == Scalar(t, Window(data, pos, ItemWidth(t).value)) && Code(v) == t && Fits(x, v)
    ensures StartsAt(data, pos, Encode(x, v)) && |Encode(x, v)| == ItemWidth(t).value
  {
    var raw := Window(data, pos, ItemWidth(t).value);
    v := Scalar(t, raw);
    ScalarEncodes(x, t, raw);
  }

  lemma PayloadCons(data: seq<byte>, pos: nat, t: nat, count: nat)
    requires ItemWidth(t).Some? && count > 0
    ensures var w := ItemWidth(t).value;
            Payload(data, pos, t, count) == [Scalar(t, Window(data, pos, w))] + Payload(data, pos + w, t, count - 1)
  {
  }

  lemma {:induction false} PayloadDecodes(x: Text, data: seq<byte>, pos: nat, t: nat, count: nat)
    requires ItemWidth(t).Some?
    ensures AllStart(x, data, pos, t, Payload(data, pos, t, count))
    decreases count
  {
    if count > 0 {
      var v := ItemAt(x, data, pos, t);
      var w := ItemWidth(t).value;
      PayloadDecodes(x, data, pos + w, t, count - 1);
      AllCons(x, data, pos, t, v, Payload(data, pos + w, t, count - 1));
      PayloadCons(data, pos, t, count);
    } else {
      assert Payload(data, pos, t, count) == [];
    }
  }

  // ----- Values

  lemma StringDecodes(x: Text, src: Source, c: Cursor) returns (utf8: seq<byte>)
    requires Sound(src, c) && TakeString(x, src, c).Done?
    ensures |utf8| <= MAX_STRING && x.decode(utf8).Some? && StartsAt(src.data, c.pos, EncodeString(utf8))
    ensures var e := c.pos + |EncodeString(utf8)|; TakeString(x, src, c).at == Cursor(e, e)
  {
    Spans();
    UnsignedDecodes(src, c, 8);
    var len := TakeUnsigned(src, c, 8).value;
    utf8 := Take(src, Cursor(c.pos + 8, c.pos + 8), len).value;
    StartsAppend(src.data, c.pos, LittleEndian(len, 8), utf8);
  }

  /** `v` is written at `c`, and a reader of it ends at `at`. */
  ghost predicate Written(x: Text, src: Source, c: Cursor, v: Value, at: Cursor)
  {
    && Fits(x, v) && StartsAt(src.data, c.pos, Encode(x, v)) && Unread(v) <= |Encode(x, v)|
    && at.pos == c.pos + |Encode(x, v)| <= src.seekLimit && at.touched == at.pos - Unread(v)
  }

  /** Whatever the reader accepts as a value of type `t` is the encoding of one. */
  lemma {:induction false} ValueDecodes(x: Text, src: Source, c: Cursor, t: nat) returns (v: Value)
    requires Addressable(src) && Sound(src, c) && t <= U32_MAX && ReadValue(x, src, c, t).Done?
    ensures Code(v) == t && Written(x, src, c, v, ReadValue(x, src, c, t).at)
    decreases Left(src, c), 0, 1
  {
    if t == STRING {
      var utf8 := StringDecodes(x, src, c);
      v := Str(utf8);
    } else if t == ARRAY {
      v := ArrayDecodes(x, src, c);
    } else {
      v := ScalarDecodes(x, src, c, t);
    }
  }

  lemma ScalarDecodes(x: Text, src: Source, c: Cursor, t: nat) returns (v: Value)
    requires Addressable(src) && Sound(src, c) && t !in {STRING, ARRAY} && ReadValue(x, src, c, t).Done?
    ensures Code(v) == t && Written(x, src, c, v, ReadValue(x, src, c, t).at)
  {
    var raw := Take(src, c, ItemWidth(t).value).value;
    v := Scalar(t, raw);
    ScalarEncodes(x, t, raw);
    TakenStarts(src, c, |raw|);
  }

  /** The header of an array, and the cursor after it. */
  lemma HeadDecodes(x: Text, src: Source, c: Cursor) returns (itemType: nat, count: nat)
    requires Sound(src, c) && ReadValue(x, src, c, ARRAY).Done?
    ensures itemType <= U32_MAX && count <= U64_MAX && StartsAt(src.data, c.pos, ArrayHead(itemType, count))
    ensures var c2 := Cursor(c.pos + 12, c.pos + 12);
            && Sound(src, c2) && SkipPayload(x, src, c2, itemType, count).Done?
            && SkipPayload(x, src, c2, itemType, count).at == ReadValue(x, src, c, ARRAY).at
  {
    Spans();
    var c1 := Cursor(c.pos + 4, c.pos + 4);
    UnsignedDecodes(src, c, 4);
    itemType := TakeUnsigned(src, c, 4).value;
    UnsignedDecodes(src, c1, 8);
    count := TakeUnsigned(src, c1, 8).value;
    StartsAppend(src.data, c.pos, LittleEndian(itemType, 4), LittleEndian(count, 8));
  }

  lemma {:induction false} ArrayDecodes(x: Text, src: Source, c: Cursor) returns (v: Value)
    requires Addressable(src) && Sound(src, c) && ReadValue(x, src, c, ARRAY).Done?
    ensures v.Arr? && Written(x, src, c, v, ReadValue(x, src, c, ARRAY).at)
    decreases Left(src, c), 0, 0
  {
    var itemType, count := HeadDecodes(x, src, c);
    var c2 := Cursor(c.pos + 12, c.pos + 12);
    var at := SkipPayload(x, src, c2, itemType, count).at;
    var items;
    if ItemWidth(itemType).Some? {
      items := Payload(src.data, c2.pos, itemType, count);
      PayloadDecodes(x, src.data, c2.pos, itemType, count);
      FixedWritten(x, src, c, itemType, items, at);
    } else {
      items := ItemsDecode(x, src, c2, itemType, count);
      VariableWritten(x, src, c, itemType, items, at);
    }
    v := Arr(itemType, items);
  }

  lemma ArrayStarts(x: Text, data: seq<byte>, pos: nat, v: Value)
    requires v.Arr? && Fits(x, v) && StartsAt(data, pos, ArrayHead(v.itemType, |v.items|))
    requires AllFit(x, v.itemType, v.items) && StartsAt(data, pos + 12, EncodeAll(x, v.itemType, v.items))
    ensures StartsAt(data, pos, Encode(x, v))
    ensures |Encode(x, v)| == 12 + |EncodeAll(x, v.itemType, v.items)|
  {
    ItemsAreAll(x, v, 0);
    assert v.items[0..] == v.items;
    StartsAppend(data, pos, ArrayHead(v.itemType, |v.items|), EncodeItems(x, v, 0));
  }

  lemma FixedWritten(x: Text, src: Source, c: Cursor, t: nat, items: seq<Value>, at: Cursor)
    requires t <= U32_MAX && |items| <= U64_MAX && ItemWidth(t).Some? && AllFit(x, t, items)
    requires StartsAt(src.data, c.pos, ArrayHead(t, |items|)) && StartsAt(src.data, c.pos + 12, EncodeAll(x, t, items))
    requires SeekOver(src, Cursor(c.pos + 12, c.pos + 12), |items|, ItemWidth(t).value) == Done((), at)
    ensures Written(x, src, c, Arr(t, items), at)
  {
    var v := Arr(t, items);
    ArrayStarts(x, src.data, c.pos, v);
    FixedItemsLength(x, v, 0);
  }

  lemma VariableWritten(x: Text, src: Source, c: Cursor, t: nat, items: seq<Value>, at: Cursor)
    requires t <= U32_MAX && |items| <= MAX_SKIP && ItemWidth(t).None? && AllFit(x, t, items)
    requires StartsAt(src.data, c.pos, ArrayHead(t, |items|))
    requires AllWritten(x, src, Cursor(c.pos + 12, c.pos + 12), t, items, at)
    ensures Written(x, src, c, Arr(t, items), at)
  {
    ArrayStarts(x, src.data, c.pos, Arr(t, items));
  }

  /** The same as `Written` for values one after the other. */
  ghost predicate AllWritten(x: Text, src: Source, c: Cursor, t: nat, items: seq<Value>, at: Cursor)
    requires AllFit(x, t, items)
  {
    && StartsAt(src.data, c.pos, EncodeAll(x, t, items))
    && at.pos == c.pos + |EncodeAll(x, t, items)| <= src.seekLimit
    && if items == [] then at == c
       else Unread(items[|items| - 1]) <= |EncodeAll(x, t, items)|
            && at.touched == at.pos - Unread(items[|items| - 1])
  }

  lemma AllWrittenCons(x: Text, src: Source, c: Cursor, t: nat, v: Value, c1: Cursor, rest: seq<Value>, at: Cursor)
    requires Code(v) == t && AllFit(x, t, rest)
    requires Written(x, src, c, v, c1) && AllWritten(x, src, c1, t, rest, at)
    ensures AllFit(x, t, [v] + rest) && AllWritten(x, src, c, t, [v] + rest, at)
  {
    AllCons(x, src.data, c.pos, t, v, rest);
  }

  lemma {:induction false} ItemsDecode(x: Text, src: Source, c: Cursor, t: nat, n: nat) returns (items: seq<Value>)
    requires Addressable(src) && Sound(src, c) && c.pos <= src.seekLimit && t <= U32_MAX
    requires SkipItems(x, src, c, t, n).Done?
    ensures |items| == n && AllFit(x, t, items) && AllWritten(x, src, c, t, items, SkipItems(x, src, c, t, n).at)
    decreases Left(src, c), 1, n
  {
    if n == 0 {
      items := [];
    } else {
      var c1 := ReadValue(x, src, c, t).at;
      var v := ValueDecodes(x, src, c, t);
      var rest := ItemsDecode(x, src, c1, t, n - 1);
      items := [v] + rest;
      AllWrittenCons(x, src, c, t, v, c1, rest, SkipItems(x, src, c, t, n).at);
    }
  }

  // ----- Headers

  /** The pairs are written at `c`, and a reader of them ends at `at`. */
  ghost predicate PairsWritten(x: Text, src: Source, c: Cursor, kvs: seq<KeyValue>, at: Cursor)
  {
    && PairsFit(x, kvs) && StartsAt(src.data, c.pos, EncodePairs(x, kvs))
    && at.pos == c.pos + |EncodePairs(x, kvs)| <= src.seekLimit && UnreadTail(kvs) <= |EncodePairs(x, kvs)|
    && if kvs == [] then at == c else at.touched == at.pos - UnreadTail(kvs)
  }

  lemma TypedDecodes(x: Text, src: Source, c: Cursor) returns (v: Value, at: Cursor)
    requires Addressable(src) && Sound(src, c) && TakeUnsigned(src, c, 4).Done?
    requires var t := TakeUnsigned(src, c, 4); ReadValue(x, src, t.at, t.value).Done?
    ensures var t := TakeUnsigned(src, c, 4); at == ReadValue(x, src, t.at, t.value).at
    ensures Code(v) < Span(4) && StartsAt(src.data, c.pos, LittleEndian(Code(v), 4))
    ensures Written(x, src, Cursor(c.pos + 4, c.pos + 4), v, at)
  {
    var t := TakeUnsigned(src, c, 4);
    UnsignedDecodes(src, c, 4);
    Spans();
    v := ValueDecodes(x, src, t.at, t.value);
    at := ReadValue(x, src, t.at, t.value).at;
  }

  lemma PairParts(x: Text, src: Source, c: Cursor) returns (c1: Cursor)
    requires Sound(src, c) && ReadPair(x, src, c).Done?
    ensures TakeString(x, src, c).Done? && c1 == TakeString(x, src, c).at && Sound(src, c1)
    ensures var t := TakeUnsigned(src, c1, 4);
            && t.Done? && ReadValue(x, src, t.at, t.value).Done?
            && ReadPair(x, src, c).at == ReadValue(x, src, t.at, t.value).at
  {
    c1 := TakeString(x, src, c).at;
  }

  lemma PairDecodes(x: Text, src: Source, c: Cursor) returns (kv: KeyValue)
    requires Addressable(src) && Sound(src, c) && ReadPair(x, src, c).Done?
    ensures PairFits(x, kv) && PairsWritten(x, src, c, [kv], ReadPair(x, src, c).at)
  {
    var c1 := PairParts(x, src, c);
    var key := StringDecodes(x, src, c);
    var v, at := TypedDecodes(x, src, c1);
    PairWritten(x, src, c, key, c1, v, at);
    kv := KeyValue(key, v);
  }

  lemma PairWritten(x: Text, src: Source, c: Cursor, key: seq<byte>, c1: Cursor, v: Value, at: Cursor)
    requires |key| <= MAX_STRING && x.decode(key).Some? && Code(v) < Span(4)
    requires StartsAt(src.data, c.pos, EncodeString(key)) && c1.pos == c.pos + |EncodeString(key)|
    requires StartsAt(src.data, c1.pos, LittleEndian(Code(v), 4))
    requires Written(x, src, Cursor(c1.pos + 4, c1.pos + 4), v, at)
    ensures PairFits(x, KeyValue(key, v)) && PairsWritten(x, src, c, [KeyValue(key, v)], at)
  {
    PairStarts(x, src.data, c.pos, KeyValue(key, v));
    OnePair(x, KeyValue(key, v));
  }

  lemma PairStarts(x: Text, data: seq<byte>, pos: nat, kv: KeyValue)
    requires PairFits(x, kv) && Code(kv.value) < Span(4)
    requires var k := pos + |EncodeString(kv.key)|;
             && StartsAt(data, pos, EncodeString(kv.key)) && StartsAt(data, k, LittleEndian(Code(kv.value), 4))
             && StartsAt(data, k + 4, Encode(x, kv.value))
    ensures StartsAt(data, pos, EncodePair(x, kv))
    ensures |EncodePair(x, kv)| == |EncodeString(kv.key)| + 4 + |Encode(x, kv.value)|
  {
    var t := LittleEndian(Code(kv.value), 4);
    StartsAppend(data, pos + |EncodeString(kv.key)|, t, Encode(x, kv.value));
    StartsAppend(data, pos, EncodeString(kv.key), t + Encode(x, kv.value));
  }

  lemma OnePair(x: Text, kv: KeyValue)
    ensures PairsFit(x, [kv]) <==> PairFits(x, kv)
    ensures PairFits(x, kv) ==> EncodePairs(x, [kv]) == EncodePair(x, kv)
  {
    assert PairsFit(x, [kv]) ==> PairFits(x, [kv][0]);
    if PairFits(x, kv) {
      assert EncodePairs(x, [kv]) == EncodePair(x, kv) + [];
    }
  }

  lemma PairsWrittenCons(x: Text, src: Source, c: Cursor, kv: KeyValue, c1: Cursor, rest: seq<KeyValue>, at: Cursor)
    requires PairsWritten(x, src, c, [kv], c1) && PairsWritten(x, src, c1, rest, at)
    ensures PairsWritten(x, src, c, [kv] + rest, at)
  {
    OnePair(x, kv);
    assert ([kv] + rest)[1..] == rest;
    StartsAppend(src.data, c.pos, EncodePair(x, kv), EncodePairs(x, rest));
  }

  lemma {:induction false} PairsDecode(x: Text, src: Source, c: Cursor, n: nat) returns (kvs: seq<KeyValue>)
    requires Addressable(src) && Sound(src, c) && c.pos <= src.seekLimit && ReadPairs(x, src, c, n).Done?
    ensures |kvs| == n && PairsWritten(x, src, c, kvs, ReadPairs(x, src, c, n).at)
    decreases n
  {
    if n == 0 {
      kvs := [];
    } else {
      var c1 := ReadPair(x, src, c).at;
      var kv := PairDecodes(x, src, c);
      var rest := PairsDecode(x, src, c1, n - 1);
      kvs := [kv] + rest;
      PairsWrittenCons(x, src, c, kv, c1, rest, ReadPairs(x, src, c, n).at);
    }
  }

  /** The stream starts with the encoding of `h`, of which at most the unread end is missing. */
  ghost predicate Carries(x: Text, src: Source, h: Header)
  {
    && HeaderFits(x, h) && |EncodeHeader(x, h)| <= src.seekLimit && StartsAt(src.data, 0, EncodeHeader(x, h))
    && |EncodeHeader(x, h)| <= |src.data| + UnreadTail(h.pairs)
  }

  /** The stream starts with the fixed part of a header. */
  ghost predicate Opens(data: seq<byte>, version: nat, tensors: nat, n: nat)
  {
    && 2 <= version <= 3 && tensors <= U64_MAX && n <= MAX_PAIRS
    && version < Span(4) && tensors < Span(8) && n < Span(8)
    && StartsAt(data, 0, MAGIC) && StartsAt(data, 4, LittleEndian(version, 4))
    && StartsAt(data, 8, LittleEndian(tensors, 8)) && StartsAt(data, 16, LittleEndian(n, 8))
  }

  lemma HeaderStarts(x: Text, data: seq<byte>, h: Header)
    requires HeaderFits(x, h) && Opens(data, h.version, h.tensorCount, |h.pairs|)
    requires StartsAt(data, 24, EncodePairs(x, h.pairs))
    ensures StartsAt(data, 0, EncodeHeader(x, h)) && |EncodeHeader(x, h)| == 24 + |EncodePairs(x, h.pairs)|
  {
    var version, tensors := LittleEndian(h.version, 4), LittleEndian(h.tensorCount, 8);
    var count, pairs := LittleEndian(|h.pairs|, 8), EncodePairs(x, h.pairs);
    StartsAppend(data, 16, count, pairs);
    StartsAppend(data, 8, tensors, count + pairs);
    StartsAppend(data, 4, version, tensors + (count + pairs));
    StartsAppend(data, 0, MAGIC, version + (tensors + (count + pairs)));
  }

  lemma OpensAccepted(x: Text, src: Source) returns (version: nat, tensors: nat, n: nat)
    requires Addressable(src) && ReadHeader(x, src).Done?
    ensures 24 <= |src.data| && Opens(src.data, version, tensors, n) && ReadPairs(x, src, Cursor(24, 24), n).Done?
  {
    var c1, c2, c3 := Cursor(4, 4), Cursor(8, 8), Cursor(16, 16);
    TakenStarts(src, Cursor(0, 0), 4);
    UnsignedDecodes(src, c1, 4);
    UnsignedDecodes(src, c2, 8);
    UnsignedDecodes(src, c3, 8);
    Spans();
    version, tensors := TakeUnsigned(src, c1, 4).value, TakeUnsigned(src, c2, 8).value;
    n := TakeUnsigned(src, c3, 8).value;
  }

  lemma CarriesWritten(x: Text, src: Source, version: nat, tensors: nat, n: nat, kvs: seq<KeyValue>, at: Cursor)
    requires 24 <= |src.data| <= src.seekLimit && Opens(src.data, version, tensors, n) && |kvs| == n
    requires PairsWritten(x, src, Cursor(24, 24), kvs, at) && Sound(src, at)
    ensures Carries(x, src, Header(version, tensors, kvs))
  {
    HeaderStarts(x, src.data, Header(version, tensors, kvs));
  }

  /** Whatever the reader accepts starts with a header. */
  lemma HeaderDecodes(x: Text, src: Source) returns (h: Header)
    requires Addressable(src) && ReadHeader(x, src).Done?
    ensures Carries(x, src, h)
  {
    var version, tensors, n := OpensAccepted(x, src);
    var kvs := PairsDecode(x, src, Cursor(24, 24), n);
    CarriesWritten(x, src, version, tensors, n, kvs, ReadPairs(x, src, Cursor(24, 24), n).at);
    h := Header(version, tensors, kvs);
  }

  /** A stream that agrees with longer bytes is a prefix of them. */
  lemma StartsShort(data: seq<byte>, enc: seq<byte>)
    requires StartsAt(data, 0, enc) && |data| <= |enc|
    ensures enc[..|data|] == data
  {
  }

  /** A header carried by a stream is what the stream parses to, and where the parse ends. */
  lemma CarriedIsRead(x: Text, src: Source, h: Header)
    requires Addressable(src) && Carries(x, src, h)
    ensures UnreadTail(h.pairs) <= |EncodeHeader(x, h)|
    ensures var e := |EncodeHeader(x, h)|;
            ReadHeader(x, src) == Done(AbsorbAll(Begin(h.version, h.tensorCount), ShowPairs(x, h.pairs)),
                                       Cursor(e, e - UnreadTail(h.pairs)))
  {
    var enc := EncodeHeader(x, h);
    if |enc| <= |src.data| {
      HeaderRoundTrip(x, src, h);
    } else {
      var whole := Source(enc, src.seekLimit);
      HeaderRoundTrip(x, whole, h);
      TruncationExact(x, whole, |src.data|);
      assert whole.(data := enc[..|src.data|]) == src by {
        StartsShort(src.data, enc);
      }
    }
  }

  /** The streams the reader accepts are exactly those that carry a header. */
  lemma AcceptedIff(x: Text, src: Source)
    requires Addressable(src)
    ensures ReadHeader(x, src).Done? <==> exists h :: Carries(x, src, h)
  {
    if ReadHeader(x, src).Done? {
      var h := HeaderDecodes(x, src);
    } else if h :| Carries(x, src, h) {
      CarriedIsRead(x, src, h);
    }
  }
}
