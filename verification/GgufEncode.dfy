/** Writing GGUF headers, and the round trip through the reader. */
module GgufEncode {
  import opened Wrappers
  import opened Bytes
  import opened Numerals
  import opened Gguf
  import opened GgufPrefix

  /** The thirteen value types: integers and floats by their width in bytes, a bool by its byte. */
  datatype Value =
    | Unsigned(width: nat, n: nat)
    | Signed(width: nat, i: int)
    | Float(raw: seq<byte>)
    | Bool(bits: byte)
    | Str(utf8: seq<byte>)
    | Arr(itemType: nat, items: seq<Value>)

  /** The type number of a value. */
  function Code(v: Value): nat
  {
    match v
    case Unsigned(w, _) => if w == 1 then 0 else if w == 2 then 2 else if w == 4 then 4 else 10
    case Signed(w, _) => if w == 1 then 1 else if w == 2 then 3 else if w == 4 then 5 else 11
    case Float(raw) => if |raw| == 4 then 6 else 12
    case Bool(_) => 7
    case Str(_) => STRING
    case Arr(_, _) => ARRAY
  }

  predicate ScalarFits(v: Value)
    requires !v.Arr? && !v.Str?
  {
    match v
    case Unsigned(w, n) => w in {1, 2, 4, 8} && n < Span(w)
    case Signed(w, i) => w in {1, 2, 4, 8} && 0 <= 2 * i + Span(w) && 2 * i < Span(w)
    case Float(raw) => |raw| in {4, 8}
    case Bool(_) => true
  }

  /** Values the format can carry and the reader takes: short UTF-8 strings, arrays of one
      item type, at most 65536 items when the items have no fixed width. */
  predicate Fits(x: Text, v: Value)
    decreases v
  {
    match v
    case Str(utf8) => |utf8| <= MAX_STRING && x.decode(utf8).Some?
    case Arr(itemType, items) =>
      && itemType <= U32_MAX
      && |items| <= (if ItemWidth(itemType).Some? then U64_MAX else MAX_SKIP)
      && forall i | 0 <= i < |items| :: Code(items[i]) == itemType && Fits(x, items[i])
    case _ => ScalarFits(v)
  }

  function EncodeScalar(v: Value): (b: seq<byte>)
    requires !v.Arr? && !v.Str? && ScalarFits(v)
    ensures ItemWidth(Code(v)) == Some(|b|)
  {
    match v
    case Unsigned(w, n) => LittleEndian(n, w)
    case Signed(w, i) => LittleEndian(ToTwosComplement(i, w), w)
    case Float(raw) => raw
    case Bool(bits) => [bits]
  }

  function EncodeString(utf8: seq<byte>): seq<byte>
    requires |utf8| <= MAX_STRING
  {
    Spans();
    LittleEndian(|utf8|, 8) + utf8
  }

  function ArrayHead(itemType: nat, count: nat): (b: seq<byte>)
    requires itemType <= U32_MAX && count <= U64_MAX
    ensures |b| == 12
  {
    Spans();
    LittleEndian(itemType, 4) + LittleEndian(count, 8)
  }

  function Encode(x: Text, v: Value): seq<byte>
    requires Fits(x, v)
    decreases v, 1
  {
    match v
    case Str(utf8) => EncodeString(utf8)
    case Arr(itemType, items) => ArrayHead(itemType, |items|) + EncodeItems(x, v, 0)
    case _ => EncodeScalar(v)
  }

  /** The items of array `v` from index `i` on. */
  function EncodeItems(x: Text, v: Value, i: nat): seq<byte>
    requires v.Arr? && Fits(x, v) && i <= |v.items|
    decreases v, 0, |v.items| - i
  {
    if i == |v.items| then [] else Encode(x, v.items[i]) + EncodeItems(x, v, i + 1)
  }

  /** What the attribute map shows for a value. */
  function Show(x: Text, v: Value): string
    requires Fits(x, v)
  {
    match v
    case Str(utf8) => x.decode(utf8).value
    case Arr(_, items) => ShowArray(|items|)
    case Bool(bits) => if bits != 0 then "true" else "false"
    case Float(raw) => if |raw| == 4 then x.float32(raw) else x.float64(raw)
    case Signed(_, i) => SignedDecimal(i)
    case Unsigned(_, n) => Decimal(n)
  }

  /** How many bytes at the end of a value's encoding the reader seeks over unread: the payload
      of a fixed-width array that ends it, at whatever nesting depth. */
  function Unread(v: Value): nat
    decreases v
  {
    if !v.Arr? || v.items == [] then 0
    else
      match ItemWidth(v.itemType)
      case Some(w) => |v.items| * w
      case None => Unread(v.items[|v.items| - 1])
  }

  // ----- Reading back what was written

  /** Streams a 64-bit seekable file can hold. */
  ghost predicate Addressable(src: Source)
  {
    |src.data| <= src.seekLimit <= U64_MAX
  }

  lemma TakeAt(src: Source, c: Cursor, enc: seq<byte>)
    requires Sound(src, c) && At(src.data, c.pos, enc)
    ensures var e := c.pos + |enc|;
            Take(src, c, |enc|) == Done(enc, if enc == [] then c else Cursor(e, e))
  {
    if enc != [] {
      assert src.data[c.pos..c.pos + |enc|] == enc;
    }
  }

  lemma ReadUnsigned(src: Source, c: Cursor, n: nat, w: nat)
    requires Sound(src, c) && 0 < w && n < Span(w) && At(src.data, c.pos, LittleEndian(n, w))
    ensures TakeUnsigned(src, c, w) == Done(n, Cursor(c.pos + w, c.pos + w))
  {
    TakeAt(src, c, LittleEndian(n, w));
    LittleEndianRoundTrip(n, w);
  }

  lemma ReadString(x: Text, src: Source, c: Cursor, utf8: seq<byte>)
    requires Sound(src, c) && |utf8| <= MAX_STRING && x.decode(utf8).Some? && At(src.data, c.pos, EncodeString(utf8))
    ensures var e := c.pos + |EncodeString(utf8)|;
            TakeString(x, src, c) == Done(x.decode(utf8).value, Cursor(e, e))
  {
    Spans();
    AtAppend(src.data, c.pos, LittleEndian(|utf8|, 8), utf8);
    ReadUnsigned(src, c, |utf8|, 8);
    TakeAt(src, Cursor(c.pos + 8, c.pos + 8), utf8);
  }

  lemma ShowDecodes(x: Text, v: Value)
    requires !v.Arr? && !v.Str? && Fits(x, v)
    ensures ShowScalar(x, Code(v), EncodeScalar(v)) == Show(x, v)
  {
    match v {
      case Unsigned(w, n) =>
        LittleEndianRoundTrip(n, w);
        assert !IsSigned(Code(v));
      case Signed(w, i) =>
        LittleEndianRoundTrip(ToTwosComplement(i, w), w);
        assert IsSigned(Code(v));
      case Float(_) =>
      case Bool(_) =>
        assert FromLittleEndian(EncodeScalar(v)) == EncodeScalar(v)[0] + 256 * FromLittleEndian([]);
    }
  }

  lemma ReadArrayHead(src: Source, c: Cursor, itemType: nat, count: nat)
    requires Sound(src, c) && itemType <= U32_MAX && count <= U64_MAX && At(src.data, c.pos, ArrayHead(itemType, count))
    ensures TakeUnsigned(src, c, 4) == Done(itemType, Cursor(c.pos + 4, c.pos + 4))
    ensures TakeUnsigned(src, Cursor(c.pos + 4, c.pos + 4), 8) == Done(count, Cursor(c.pos + 12, c.pos + 12))
  {
    Spans();
    AtAppend(src.data, c.pos, LittleEndian(itemType, 4), LittleEndian(count, 8));
    ReadUnsigned(src, c, itemType, 4);
    ReadUnsigned(src, Cursor(c.pos + 4, c.pos + 4), count, 8);
  }

  /** The cursor a reader is left with after the encoding of `v`. */
  function After(x: Text, c: Cursor, v: Value): Cursor
    requires Fits(x, v)
    decreases v, 1
  {
    var e := c.pos + |Encode(x, v)|;
    if !v.Arr? then Cursor(e, e)
    else if ItemWidth(v.itemType).Some? then Cursor(e, c.pos + 12)
    else AfterItems(x, Cursor(c.pos + 12, c.pos + 12), v, 0)
  }

  function AfterItems(x: Text, c: Cursor, v: Value, i: nat): Cursor
    requires v.Arr? && Fits(x, v) && i <= |v.items|
    decreases v, 0, |v.items| - i
  {
    if i == |v.items| then c else AfterItems(x, After(x, c, v.items[i]), v, i + 1)
  }

  /** Fixed-width items fill exactly count times width bytes. */
  lemma {:induction false} FixedItemsLength(x: Text, v: Value, i: nat)
    requires v.Arr? && Fits(x, v) && i <= |v.items| && ItemWidth(v.itemType).Some?
    ensures |EncodeItems(x, v, i)| == (|v.items| - i) * ItemWidth(v.itemType).value
    decreases |v.items| - i
  {
    if i == |v.items| {
    } else {
      FixedItemsLength(x, v, i + 1);
      assert Code(v.items[i]) == v.itemType;
    }
  }

  /** The reader ends at the last byte of the encoding and has touched all but the unread tail. */
  lemma {:induction false} AfterIsEnd(x: Text, c: Cursor, v: Value)
    requires Fits(x, v)
    ensures Unread(v) <= |Encode(x, v)|
    ensures After(x, c, v) == Cursor(c.pos + |Encode(x, v)|, c.pos + |Encode(x, v)| - Unread(v))
    decreases v, 1
  {
    if v.Arr? {
      if ItemWidth(v.itemType).Some? {
        FixedItemsLength(x, v, 0);
      } else {
        AfterItemsIsEnd(x, Cursor(c.pos + 12, c.pos + 12), v, 0);
      }
    }
  }

  lemma {:induction false} AfterItemsIsEnd(x: Text, c: Cursor, v: Value, i: nat)
    requires v.Arr? && Fits(x, v) && i <= |v.items| && ItemWidth(v.itemType).None?
    ensures i == |v.items| ==> EncodeItems(x, v, i) == [] && AfterItems(x, c, v, i) == c
    ensures i < |v.items| ==> Unread(v) <= |EncodeItems(x, v, i)|
    ensures i < |v.items| ==>
      var e := c.pos + |EncodeItems(x, v, i)|; AfterItems(x, c, v, i) == Cursor(e, e - Unread(v))
    decreases v, 0, |v.items| - i
  {
    if i < |v.items| {
      AfterIsEnd(x, c, v.items[i]);
      AfterItemsIsEnd(x, After(x, c, v.items[i]), v, i + 1);
    }
  }

  lemma ScalarRoundTrip(x: Text, src: Source, c: Cursor, v: Value)
    requires Sound(src, c) && !v.Arr? && !v.Str? && Fits(x, v) && At(src.data, c.pos, Encode(x, v))
    ensures ReadValue(x, src, c, Code(v)) == Done(Show(x, v), After(x, c, v))
  {
    TakeAt(src, c, EncodeScalar(v));
    ShowDecodes(x, v);
  }

  /** Round trip of one value: the reader shows it and is left just after its encoding. */
  lemma {:induction false} ValueRoundTrip(x: Text, src: Source, c: Cursor, v: Value)
    requires Addressable(src) && Sound(src, c) && Fits(x, v) && At(src.data, c.pos, Encode(x, v))
    ensures ReadValue(x, src, c, Code(v)) == Done(Show(x, v), After(x, c, v))
    decreases v, 2
  {
    if v.Str? {
      TextRoundTrip(x, src, c, v);
    } else if v.Arr? {
      ArrayRoundTrip(x, src, c, v);
    } else {
      ScalarRoundTrip(x, src, c, v);
    }
  }

  lemma TextRoundTrip(x: Text, src: Source, c: Cursor, v: Value)
    requires Sound(src, c) && v.Str? && Fits(x, v) && At(src.data, c.pos, Encode(x, v))
    ensures ReadValue(x, src, c, Code(v)) == Done(Show(x, v), After(x, c, v))
  {
    ReadString(x, src, c, v.utf8);
  }

  lemma {:induction false} ArrayRoundTrip(x: Text, src: Source, c: Cursor, v: Value)
    requires Addressable(src) && Sound(src, c) && v.Arr? && Fits(x, v) && At(src.data, c.pos, Encode(x, v))
    ensures ReadValue(x, src, c, ARRAY) == Done(ShowArray(|v.items|), After(x, c, v))
    decreases v, 1
  {
    AtAppend(src.data, c.pos, ArrayHead(v.itemType, |v.items|), EncodeItems(x, v, 0));
    ReadArrayHead(src, c, v.itemType, |v.items|);
    PayloadRoundTrip(x, src, c, v);
  }

  lemma {:induction false} PayloadRoundTrip(x: Text, src: Source, c: Cursor, v: Value)
    requires var c2 := Cursor(c.pos + 12, c.pos + 12);
             && Addressable(src) && Sound(src, c2) && v.Arr? && Fits(x, v)
             && At(src.data, c2.pos, EncodeItems(x, v, 0))
    ensures SkipPayload(x, src, Cursor(c.pos + 12, c.pos + 12), v.itemType, |v.items|) == Done((), After(x, c, v))
    decreases v, 0, |v.items| + 1
  {
    if ItemWidth(v.itemType).Some? {
      FixedPayload(x, src, c, v);
    } else {
      ItemsRoundTrip(x, src, Cursor(c.pos + 12, c.pos + 12), v, 0);
      VariablePayload(x, src, c, v);
    }
  }

  lemma FixedPayload(x: Text, src: Source, c: Cursor, v: Value)
    requires var c2 := Cursor(c.pos + 12, c.pos + 12);
             && Addressable(src) && Sound(src, c2) && v.Arr? && Fits(x, v) && ItemWidth(v.itemType).Some?
             && At(src.data, c2.pos, EncodeItems(x, v, 0))
    ensures SkipPayload(x, src, Cursor(c.pos + 12, c.pos + 12), v.itemType, |v.items|) == Done((), After(x, c, v))
  {
    FixedItemsLength(x, v, 0);
  }

  lemma VariablePayload(x: Text, src: Source, c: Cursor, v: Value)
    requires var c2 := Cursor(c.pos + 12, c.pos + 12);
             && Sound(src, c2) && v.Arr? && Fits(x, v) && ItemWidth(v.itemType).None?
             && SkipItems(x, src, c2, v.itemType, |v.items|) == Done((), AfterItems(x, c2, v, 0))
    ensures SkipPayload(x, src, Cursor(c.pos + 12, c.pos + 12), v.itemType, |v.items|) == Done((), After(x, c, v))
  {
  }

  lemma {:induction false} ItemsRoundTrip(x: Text, src: Source, c: Cursor, v: Value, i: nat)
    requires Addressable(src) && Sound(src, c) && v.Arr? && Fits(x, v) && i <= |v.items|
    requires At(src.data, c.pos, EncodeItems(x, v, i))
    ensures SkipItems(x, src, c, v.itemType, |v.items| - i) == Done((), AfterItems(x, c, v, i))
    decreases v, 0, |v.items| - i
  {
    if i < |v.items| {
      var item := v.items[i];
      var at := After(x, c, item);
      assert Code(item) == v.itemType && Fits(x, item);
      AtAppend(src.data, c.pos, Encode(x, item), EncodeItems(x, v, i + 1));
      ValueRoundTrip(x, src, c, item);
      AfterIsEnd(x, c, item);
      ItemsRoundTrip(x, src, at, v, i + 1);
      FirstItem(x, src, c, v, i);
    }
  }

  lemma FirstItem(x: Text, src: Source, c: Cursor, v: Value, i: nat)
    requires Sound(src, c) && v.Arr? && Fits(x, v) && i < |v.items|
    requires var r := ReadValue(x, src, c, v.itemType); r.Done? && r.at == After(x, c, v.items[i])
    ensures SkipItems(x, src, c, v.itemType, |v.items| - i)
         == SkipItems(x, src, After(x, c, v.items[i]), v.itemType, |v.items| - (i + 1))
    ensures AfterItems(x, c, v, i) == AfterItems(x, After(x, c, v.items[i]), v, i + 1)
  {
  }

  // ----- Whole headers

  datatype KeyValue = KeyValue(key: seq<byte>, value: Value)

  datatype Header = Header(version: nat, tensorCount: nat, pairs: seq<KeyValue>)

  predicate PairFits(x: Text, kv: KeyValue)
  {
    |kv.key| <= MAX_STRING && x.decode(kv.key).Some? && Fits(x, kv.value)
  }

  predicate PairsFit(x: Text, kvs: seq<KeyValue>)
  {
    forall i | 0 <= i < |kvs| :: PairFits(x, kvs[i])
  }

  predicate HeaderFits(x: Text, h: Header)
  {
    && 2 <= h.version <= 3 && h.tensorCount <= U64_MAX && |h.pairs| <= MAX_PAIRS
    && PairsFit(x, h.pairs)
  }

  function EncodePair(x: Text, kv: KeyValue): seq<byte>
    requires PairFits(x, kv)
  {
    Spans();
    EncodeString(kv.key) + (LittleEndian(Code(kv.value), 4) + Encode(x, kv.value))
  }

  function EncodePairs(x: Text, kvs: seq<KeyValue>): seq<byte>
    requires PairsFit(x, kvs)
  {
    if kvs == [] then [] else EncodePair(x, kvs[0]) + EncodePairs(x, kvs[1..])
  }

  function EncodeHeader(x: Text, h: Header): seq<byte>
    requires HeaderFits(x, h)
  {
    Spans();
    MAGIC + (LittleEndian(h.version, 4) +
    (LittleEndian(h.tensorCount, 8) + (LittleEndian(|h.pairs|, 8) + EncodePairs(x, h.pairs))))
  }

  function ShowPair(x: Text, kv: KeyValue): Pair
    requires PairFits(x, kv)
  {
    Pair(x.decode(kv.key).value, Show(x, kv.value))
  }

  function ShowPairs(x: Text, kvs: seq<KeyValue>): (ps: seq<Pair>)
    requires PairsFit(x, kvs)
    ensures |ps| == |kvs|
    ensures forall i | 0 <= i < |kvs| :: ps[i] == ShowPair(x, kvs[i])
    decreases |kvs|
  {
    if kvs == [] then [] else [ShowPair(x, kvs[0])] + ShowPairs(x, kvs[1..])
  }

  function UnreadTail(kvs: seq<KeyValue>): nat
  {
    if kvs == [] then 0 else Unread(kvs[|kvs| - 1].value)
  }

  function AfterPair(x: Text, c: Cursor, kv: KeyValue): Cursor
    requires PairFits(x, kv)
  {
    var k := c.pos + |EncodeString(kv.key)| + 4;
    After(x, Cursor(k, k), kv.value)
  }

  function AfterPairs(x: Text, c: Cursor, kvs: seq<KeyValue>): Cursor
    requires PairsFit(x, kvs)
    decreases |kvs|
  {
    if kvs == [] then c else AfterPairs(x, AfterPair(x, c, kvs[0]), kvs[1..])
  }

  lemma AfterPairIsEnd(x: Text, c: Cursor, kv: KeyValue)
    requires PairFits(x, kv)
    ensures var e := c.pos + |EncodePair(x, kv)|;
            Unread(kv.value) <= |EncodePair(x, kv)| && AfterPair(x, c, kv) == Cursor(e, e - Unread(kv.value))
  {
    var k := c.pos + |EncodeString(kv.key)| + 4;
    AfterIsEnd(x, Cursor(k, k), kv.value);
    assert |EncodePair(x, kv)| == |EncodeString(kv.key)| + 4 + |Encode(x, kv.value)|;
  }

  lemma {:induction false} AfterPairsIsEnd(x: Text, c: Cursor, kvs: seq<KeyValue>)
    requires PairsFit(x, kvs)
    requires kvs == [] ==> c.touched == c.pos
    ensures UnreadTail(kvs) <= |EncodePairs(x, kvs)|
    ensures var e := c.pos + |EncodePairs(x, kvs)|; AfterPairs(x, c, kvs) == Cursor(e, e - UnreadTail(kvs))
    decreases |kvs|
  {
    if kvs == [] {
    } else {
      var first, rest := kvs[0], kvs[1..];
      AfterPairIsEnd(x, c, first);
      assert |EncodePairs(x, kvs)| == |EncodePair(x, first)| + |EncodePairs(x, rest)|;
      assert AfterPairs(x, c, kvs) == AfterPairs(x, AfterPair(x, c, first), rest);
      if rest == [] {
        assert UnreadTail(kvs) == Unread(first.value);
      } else {
        AfterPairsIsEnd(x, AfterPair(x, c, first), rest);
        assert UnreadTail(kvs) == UnreadTail(rest);
      }
    }
  }

  lemma TypedRoundTrip(x: Text, src: Source, c: Cursor, v: Value)
    requires Addressable(src) && Sound(src, c) && Fits(x, v) && Code(v) < Span(4)
    requires At(src.data, c.pos, LittleEndian(Code(v), 4) + Encode(x, v))
    ensures var c2 := Cursor(c.pos + 4, c.pos + 4);
            && TakeUnsigned(src, c, 4) == Done(Code(v), c2)
            && Sound(src, c2) && ReadValue(x, src, c2, Code(v)) == Done(Show(x, v), After(x, c2, v))
  {
    AtAppend(src.data, c.pos, LittleEndian(Code(v), 4), Encode(x, v));
    ReadUnsigned(src, c, Code(v), 4);
    ValueRoundTrip(x, src, Cursor(c.pos + 4, c.pos + 4), v);
  }

  lemma KeyRoundTrip(x: Text, src: Source, c: Cursor, kv: KeyValue)
    requires Sound(src, c) && PairFits(x, kv) && At(src.data, c.pos, EncodePair(x, kv))
    ensures var k := c.pos + |EncodeString(kv.key)|;
            && TakeString(x, src, c) == Done(x.decode(kv.key).value, Cursor(k, k)) && Sound(src, Cursor(k, k))
            && Code(kv.value) < Span(4)
            && At(src.data, k, LittleEndian(Code(kv.value), 4) + Encode(x, kv.value))
  {
    Spans();
    AtAppend(src.data, c.pos, EncodeString(kv.key), LittleEndian(Code(kv.value), 4) + Encode(x, kv.value));
    ReadString(x, src, c, kv.key);
  }

  lemma PairRoundTrip(x: Text, src: Source, c: Cursor, kv: KeyValue)
    requires Addressable(src) && Sound(src, c) && PairFits(x, kv) && At(src.data, c.pos, EncodePair(x, kv))
    ensures ReadPair(x, src, c) == Done(ShowPair(x, kv), AfterPair(x, c, kv))
  {
    var k := c.pos + |EncodeString(kv.key)|;
    var c1 := Cursor(k, k);
    KeyRoundTrip(x, src, c, kv);
    TypedRoundTrip(x, src, c1, kv.value);
    AssemblePair(x, src, c, kv, c1);
  }

  lemma AfterPairIs(x: Text, c: Cursor, kv: KeyValue, c2: Cursor)
    requires PairFits(x, kv) && c2.pos == c2.touched == c.pos + |EncodeString(kv.key)| + 4
    ensures AfterPair(x, c, kv) == After(x, c2, kv.value)
  {
    var k := c.pos + |EncodeString(kv.key)| + 4;
    assert c2 == Cursor(k, k);
  }

  lemma AssemblePair(x: Text, src: Source, c: Cursor, kv: KeyValue, c1: Cursor)
    requires Sound(src, c) && PairFits(x, kv) && c1.pos == c.pos + |EncodeString(kv.key)|
    requires TakeString(x, src, c) == Done(x.decode(kv.key).value, c1)
    requires var c2 := Cursor(c1.pos + 4, c1.pos + 4);
             && TakeUnsigned(src, c1, 4) == Done(Code(kv.value), c2)
             && ReadValue(x, src, c2, Code(kv.value)) == Done(Show(x, kv.value), After(x, c2, kv.value))
    ensures ReadPair(x, src, c) == Done(ShowPair(x, kv), AfterPair(x, c, kv))
  {
    var c2 := Cursor(c1.pos + 4, c1.pos + 4);
    AfterPairIs(x, c, kv, c2);
    AssembleParts(x, src, c, x.decode(kv.key).value, c1, Code(kv.value), c2,
                  Show(x, kv.value), AfterPair(x, c, kv));
  }

  lemma AssembleParts(x: Text, src: Source, c: Cursor, key: string, c1: Cursor, t: nat, c2: Cursor,
      text: string, at: Cursor)
    requires Sound(src, c) && TakeString(x, src, c) == Done(key, c1) && TakeUnsigned(src, c1, 4) == Done(t, c2)
    requires ReadValue(x, src, c2, t) == Done(text, at)
    ensures ReadPair(x, src, c) == Done(Pair(key, text), at)
  {
  }

  lemma {:induction false} PairsRoundTrip(x: Text, src: Source, c: Cursor, kvs: seq<KeyValue>)
    requires Addressable(src) && Sound(src, c) && PairsFit(x, kvs)
    requires At(src.data, c.pos, EncodePairs(x, kvs))
    ensures ReadPairs(x, src, c, |kvs|) == Done(ShowPairs(x, kvs), AfterPairs(x, c, kvs))
    decreases |kvs|
  {
    if kvs != [] {
      AtAppend(src.data, c.pos, EncodePair(x, kvs[0]), EncodePairs(x, kvs[1..]));
      PairRoundTrip(x, src, c, kvs[0]);
      AfterPairIsEnd(x, c, kvs[0]);
      PairsRoundTrip(x, src, AfterPair(x, c, kvs[0]), kvs[1..]);
    }
  }

  lemma ReadHead(x: Text, src: Source, h: Header)
    requires HeaderFits(x, h) && At(src.data, 0, EncodeHeader(x, h))
    ensures Take(src, Cursor(0, 0), 4) == Done(MAGIC, Cursor(4, 4))
    ensures TakeUnsigned(src, Cursor(4, 4), 4) == Done(h.version, Cursor(8, 8))
    ensures TakeUnsigned(src, Cursor(8, 8), 8) == Done(h.tensorCount, Cursor(16, 16))
    ensures TakeUnsigned(src, Cursor(16, 16), 8) == Done(|h.pairs|, Cursor(24, 24))
    ensures At(src.data, 24, EncodePairs(x, h.pairs)) && |EncodeHeader(x, h)| == 24 + |EncodePairs(x, h.pairs)|
  {
    Spans();
    var pairs := EncodePairs(x, h.pairs);
    var count := LittleEndian(|h.pairs|, 8);
    var tensors := LittleEndian(h.tensorCount, 8);
    var version := LittleEndian(h.version, 4);
    AtAppend(src.data, 0, MAGIC, version + (tensors + (count + pairs)));
    AtAppend(src.data, 4, version, tensors + (count + pairs));
    AtAppend(src.data, 8, tensors, count + pairs);
    AtAppend(src.data, 16, count, pairs);
    TakeAt(src, Cursor(0, 0), MAGIC);
    ReadUnsigned(src, Cursor(4, 4), h.version, 4);
    ReadUnsigned(src, Cursor(8, 8), h.tensorCount, 8);
    ReadUnsigned(src, Cursor(16, 16), |h.pairs|, 8);
  }

  /** Round trip of a header, whatever follows it in the stream: the encoded version, tensor
      count and last-wins attributes come back, and the reader stops at the header's last byte. */
  lemma HeaderRoundTrip(x: Text, src: Source, h: Header)
    requires Addressable(src) && HeaderFits(x, h) && At(src.data, 0, EncodeHeader(x, h))
    ensures UnreadTail(h.pairs) <= |EncodeHeader(x, h)|
    ensures var e := |EncodeHeader(x, h)|;
            ReadHeader(x, src) == Done(AbsorbAll(Begin(h.version, h.tensorCount), ShowPairs(x, h.pairs)),
                                       Cursor(e, e - UnreadTail(h.pairs)))
  {
    ReadHead(x, src, h);
    PairsRoundTrip(x, src, Cursor(24, 24), h.pairs);
    AfterPairsIsEnd(x, Cursor(24, 24), h.pairs);
    Assemble(x, src, h);
  }

  lemma Assemble(x: Text, src: Source, h: Header)
    requires 2 <= h.version <= 3 && |h.pairs| <= MAX_PAIRS
    requires Take(src, Cursor(0, 0), 4) == Done(MAGIC, Cursor(4, 4))
    requires TakeUnsigned(src, Cursor(4, 4), 4) == Done(h.version, Cursor(8, 8))
    requires TakeUnsigned(src, Cursor(8, 8), 8) == Done(h.tensorCount, Cursor(16, 16))
    requires TakeUnsigned(src, Cursor(16, 16), 8) == Done(|h.pairs|, Cursor(24, 24))
    ensures ReadHeader(x, src) ==
      match ReadPairs(x, src, Cursor(24, 24), |h.pairs|)
      case Fail(e) => Fail(e)
      case Done(ps, at) => Done(AbsorbAll(Begin(h.version, h.tensorCount), ps), at)
  {
  }

  /** A strict prefix of a written header is accepted exactly when only bytes of the
      fixed-width array payload that ends it are missing; the metadata is then complete. */
  lemma TruncatedHeader(x: Text, h: Header, seekLimit: nat, k: nat)
    requires HeaderFits(x, h) && k <= |EncodeHeader(x, h)| <= seekLimit <= U64_MAX
    ensures var b := EncodeHeader(x, h);
            var cut := ReadHeader(x, Source(b[..k], seekLimit));
            && (cut.Done? <==> |b| - k <= UnreadTail(h.pairs))
            && (cut.Done? ==> cut.value == AbsorbAll(Begin(h.version, h.tensorCount), ShowPairs(x, h.pairs)))
  {
    var src := Source(EncodeHeader(x, h), seekLimit);
    HeaderRoundTrip(x, src, h);
    TruncationExact(x, src, k);
  }
}
