/** The GGUF format in bytes: every number of the format is written out here, and the reader is held to it. */
module GgufFormat {
  import opened Wrappers
  import opened Bytes
  import opened Numerals
  import opened Gguf
  import opened GgufMetadata
  import Strings

  // ----- Numbers

  /** Four bytes, least byte first. */
  function Word(a: nat, b: nat, c: nat, d: nat): nat
  {
    a + 0x100 * b + 0x1_0000 * c + 0x100_0000 * d
  }

  /** An unsigned number of 1, 2, 4 or 8 bytes, least byte first. */
  function Num(raw: seq<byte>): nat
    requires |raw| in {1, 2, 4, 8}
  {
    if |raw| == 1 then raw[0]
    else if |raw| == 2 then Word(raw[0], raw[1], 0, 0)
    else if |raw| == 4 then Word(raw[0], raw[1], raw[2], raw[3])
    else Word(raw[0], raw[1], raw[2], raw[3]) + 0x1_0000_0000 * Word(raw[4], raw[5], raw[6], raw[7])
  }

  lemma Peel(raw: seq<byte>)
    requires raw != []
    ensures FromLittleEndian(raw) == raw[0] + 256 * FromLittleEndian(raw[1..])
  {
  }

  lemma NumIs(raw: seq<byte>)
    requires |raw| in {1, 2, 4, 8}
    ensures FromLittleEndian(raw) == Num(raw)
  {
    var n := |raw|;
    if n == 8 {
      FourAnd(raw);
      Four(raw[4..]);
    } else if n == 4 {
      Four(raw);
    } else {
      Peel(raw);
      if n == 2 {
        Peel(raw[1..]);
      }
    }
  }

  lemma Four(raw: seq<byte>)
    requires |raw| == 4
    ensures FromLittleEndian(raw) == Word(raw[0], raw[1], raw[2], raw[3])
  {
    FourAnd(raw);
    assert raw[4..] == [];
  }

  lemma FourAnd(raw: seq<byte>)
    requires |raw| >= 4
    ensures FromLittleEndian(raw)
         == Word(raw[0], raw[1], raw[2], raw[3]) + 0x1_0000_0000 * FromLittleEndian(raw[4..])
  {
    Peel(raw);
    Peel(raw[1..]);
    Peel(raw[2..]);
    Peel(raw[3..]);
    assert raw[1..][1..] == raw[2..] && raw[2..][1..] == raw[3..] && raw[3..][1..] == raw[4..];
  }

  /** Reading a number: the bytes at the cursor, or the end of the stream. */
  lemma TakeNum(src: Source, c: Cursor, w: nat)
    requires Sound(src, c) && w in {1, 2, 4, 8}
    ensures TakeUnsigned(src, c, w)
         == if c.pos + w > |src.data| then Fail(UnexpectedEof)
            else Done(Num(src.data[c.pos..c.pos + w]), Cursor(c.pos + w, c.pos + w))
  {
    if c.pos + w <= |src.data| {
      NumIs(src.data[c.pos..c.pos + w]);
    }
  }

  // ----- The thirteen value types

  /** The eleven types of fixed width. */
  predicate Fixed(t: nat)
  {
    t <= 7 || 10 <= t <= 12
  }

  /** Their width in bytes. */
  function Width(t: nat): (w: nat)
    requires Fixed(t)
    ensures w in {1, 2, 4, 8}
  {
    if t == 0 || t == 1 || t == 7 then 1 else if t <= 3 then 2 else if t <= 6 then 4 else 8
  }

  function Negative(m: nat): string
  {
    "-" + Decimal(m)
  }

  /** A number whose upper half counts from the other end of zero. */
  function Signed(n: nat, half: nat): string
    requires n < 2 * half
  {
    if n < half then Decimal(n) else Negative(2 * half - n)
  }

  /** Half the span of a signed type. */
  function Half(t: nat): nat
    requires t in {1, 3, 5, 11}
  {
    if t == 1 then 0x80 else if t == 3 then 0x8000 else if t == 5 then 0x8000_0000 else 0x8000_0000_0000_0000
  }

  /** The text of such a value: unsigned and signed integers in decimal, floats by width, bools in words. */
  function Text(x: Gguf.Text, t: nat, raw: seq<byte>): string
    requires Fixed(t) && |raw| == Width(t)
  {
    if t == 6 then x.float32(raw)
    else if t == 12 then x.float64(raw)
    else if t == 7 then (if raw[0] == 0 then "false" else "true")
    else if t in {1, 3, 5, 11} then
      NumBelow(t, raw);
      Signed(Num(raw), Half(t))
    else Decimal(Num(raw))
  }

  lemma NumBelow(t: nat, raw: seq<byte>)
    requires t in {1, 3, 5, 11} && |raw| == Width(t)
    ensures Num(raw) < 2 * Half(t)
  {
  }

  lemma WidthIs(t: nat)
    ensures ItemWidth(t).Some? <==> Fixed(t)
    ensures ItemWidth(t).Some? ==> ItemWidth(t).value == Width(t)
  {
  }

  lemma SignedWrites(i: int, n: nat, half: nat)
    requires n < 2 * half && i == if n < half then n else n - 2 * half
    ensures SignedDecimal(i) == Signed(n, half)
  {
    if n >= half {
      Minus(i, 2 * half - n);
    } else {
      Plus(i);
    }
  }

  lemma Plus(n: nat)
    ensures SignedDecimal(n) == Decimal(n)
  {
  }

  lemma Minus(i: int, m: nat)
    requires i < 0 && m == -i
    ensures SignedDecimal(i) == Negative(m)
  {
  }

  lemma SignedIs(t: nat, raw: seq<byte>)
    requires t in {1, 3, 5, 11} && |raw| == Width(t)
    ensures FromTwosComplement(FromLittleEndian(raw), |raw|)
         == if Num(raw) < Half(t) then Num(raw) else Num(raw) - 2 * Half(t)
  {
    NumIs(raw);
    Spans();
  }

  lemma SignedShown(x: Gguf.Text, t: nat, raw: seq<byte>)
    requires t in {1, 3, 5, 11} && |raw| == Width(t)
    ensures ItemWidth(t) == Some(|raw|)
    ensures ShowScalar(x, t, raw) == SignedDecimal(FromTwosComplement(FromLittleEndian(raw), |raw|))
  {
  }

  lemma SignedText(x: Gguf.Text, t: nat, raw: seq<byte>)
    requires t in {1, 3, 5, 11} && |raw| == Width(t)
    ensures ItemWidth(t) == Some(|raw|) && ShowScalar(x, t, raw) == Text(x, t, raw)
  {
    SignedShown(x, t, raw);
    NumBelow(t, raw);
    SignedIs(t, raw);
    SignedWrites(FromTwosComplement(FromLittleEndian(raw), |raw|), Num(raw), Half(t));
  }

  lemma PlainText(x: Gguf.Text, t: nat, raw: seq<byte>)
    requires t in {0, 2, 4, 10} && |raw| == Width(t)
    ensures ItemWidth(t) == Some(|raw|) && ShowScalar(x, t, raw) == Text(x, t, raw)
  {
    NumIs(raw);
  }

  lemma OtherText(x: Gguf.Text, t: nat, raw: seq<byte>)
    requires t in {6, 7, 12} && |raw| == Width(t)
    ensures ItemWidth(t) == Some(|raw|) && ShowScalar(x, t, raw) == Text(x, t, raw)
  {
    if t == 7 {
      Peel(raw);
    }
  }

  lemma TextIs(x: Gguf.Text, t: nat, raw: seq<byte>)
    requires Fixed(t) && |raw| == Width(t)
    ensures ItemWidth(t) == Some(|raw|) && ShowScalar(x, t, raw) == Text(x, t, raw)
  {
    if t in {1, 3, 5, 11} {
      SignedText(x, t, raw);
    } else if t in {6, 7, 12} {
      OtherText(x, t, raw);
    } else {
      PlainText(x, t, raw);
    }
  }

  /** A value of one of the eleven types. */
  lemma ScalarValue(x: Gguf.Text, src: Source, c: Cursor, t: nat)
    requires Sound(src, c) && Fixed(t)
    ensures var e := c.pos + Width(t);
            ReadValue(x, src, c, t)
            == if e > |src.data| then Fail(UnexpectedEof) else Done(Text(x, t, src.data[c.pos..e]), Cursor(e, e))
  {
    WidthIs(t);
    if c.pos + Width(t) <= |src.data| {
      TextIs(x, t, src.data[c.pos..c.pos + Width(t)]);
    }
  }

  /** What the eight bytes of a length and the bytes behind them read as. */
  function StringAt(x: Gguf.Text, src: Source, pos: nat): Outcome<string>
  {
    if pos + 8 > |src.data| then Fail(UnexpectedEof)
    else
      var len := Num(src.data[pos..pos + 8]);
      if len > 1024 then Fail(StringTooLong)
      else if pos + 8 + len > |src.data| then Fail(UnexpectedEof)
      else
        match x.decode(src.data[pos + 8..pos + 8 + len])
        case None => Fail(NotUtf8)
        case Some(s) => Done(s, Cursor(pos + 8 + len, pos + 8 + len))
  }

  lemma TakeBytes(src: Source, p: nat, n: nat)
    requires p <= |src.data|
    ensures Take(src, Cursor(p, p), n)
         == if p + n > |src.data| then Fail(UnexpectedEof) else Done(src.data[p..p + n], Cursor(p + n, p + n))
  {
    assert src.data[p..p] == [];
  }

  lemma TakesString(x: Gguf.Text, src: Source, c: Cursor)
    requires Sound(src, c)
    ensures TakeString(x, src, c) == StringAt(x, src, c.pos)
  {
    TakeNum(src, c, 8);
    if c.pos + 8 <= |src.data| {
      TakeBytes(src, c.pos + 8, Num(src.data[c.pos..c.pos + 8]));
    }
  }

  /** Type 8, a string of at most 1024 bytes, which must be UTF-8. */
  lemma StringValue(x: Gguf.Text, src: Source, c: Cursor)
    requires Sound(src, c)
    ensures ReadValue(x, src, c, 8) == StringAt(x, src, c.pos)
  {
    TakesString(x, src, c);
  }

  /** The twelve bytes an array starts with: four of item type, eight of count. */
  predicate ArrayAt(src: Source, pos: nat, t: nat, count: nat)
  {
    pos + 12 <= |src.data| && t == Num(src.data[pos..pos + 4]) && count == Num(src.data[pos + 4..pos + 12])
  }

  lemma ArrayHead(x: Gguf.Text, src: Source, c: Cursor, t: nat, count: nat)
    requires Sound(src, c) && ArrayAt(src, c.pos, t, count)
    ensures var c2 := Cursor(c.pos + 12, c.pos + 12);
            && Sound(src, c2)
            && ReadValue(x, src, c, 9)
               == match SkipPayload(x, src, c2, t, count)
                  case Fail(e) => Fail(e)
                  case Done(_, at) => Done("[array: " + Decimal(count) + " items]", at)
  {
    TakeNum(src, c, 4);
    TakeNum(src, Cursor(c.pos + 4, c.pos + 4), 8);
  }

  lemma FixedPayload(x: Gguf.Text, src: Source, c: Cursor, t: nat, count: nat, bytes: nat)
    requires Sound(src, c) && Fixed(t) && bytes == count * Width(t)
    ensures SkipPayload(x, src, c, t, count)
            == if bytes > 0xFFFF_FFFF_FFFF_FFFF then Fail(ArrayLengthOverflow)
               else if c.pos + bytes > 0xFFFF_FFFF_FFFF_FFFF then Fail(ArrayEndOverflow)
               else if c.pos + bytes > src.seekLimit then Fail(SeekBeyondLimit)
               else Done((), Cursor(c.pos + bytes, c.touched))
  {
    WidthIs(t);
  }

  /** Type 9, an array. Items of fixed width are sought over, if their bytes and their end fit into
      64 bits and the seek reaches that far. */
  lemma FixedArray(x: Gguf.Text, src: Source, c: Cursor, t: nat, count: nat, bytes: nat)
    requires Sound(src, c) && ArrayAt(src, c.pos, t, count) && Fixed(t) && bytes == count * Width(t)
    ensures ReadValue(x, src, c, 9)
            == if bytes > 0xFFFF_FFFF_FFFF_FFFF then Fail(ArrayLengthOverflow)
               else if c.pos + 12 + bytes > 0xFFFF_FFFF_FFFF_FFFF then Fail(ArrayEndOverflow)
               else if c.pos + 12 + bytes > src.seekLimit then Fail(SeekBeyondLimit)
               else Done("[array: " + Decimal(count) + " items]", Cursor(c.pos + 12 + bytes, c.pos + 12))
  {
    ArrayHead(x, src, c, t, count);
    FixedPayload(x, src, Cursor(c.pos + 12, c.pos + 12), t, count, bytes);
  }

  /** Other items are read one by one, and not more than 65536 of them. */
  lemma VariableArray(x: Gguf.Text, src: Source, c: Cursor, t: nat, count: nat)
    requires Sound(src, c) && ArrayAt(src, c.pos, t, count) && !Fixed(t)
    ensures var c2 := Cursor(c.pos + 12, c.pos + 12);
            ReadValue(x, src, c, 9)
            == match SkipItems(x, src, c2, t, if count < 65536 then count else 65536)
               case Fail(e) => Fail(e)
               case Done(_, at) =>
                 if count > 65536 then Fail(SkipCapExceeded)
                 else Done("[array: " + Decimal(count) + " items]", at)
  {
    ArrayHead(x, src, c, t, count);
    WidthIs(t);
  }

  /** There are no other types, and no array without its twelve bytes. */
  lemma NoValue(x: Gguf.Text, src: Source, c: Cursor, t: nat)
    requires Sound(src, c)
    ensures t > 12 ==> ReadValue(x, src, c, t) == Fail(UnknownType)
    ensures c.pos + 12 > |src.data| ==> ReadValue(x, src, c, 9) == Fail(UnexpectedEof)
  {
    WidthIs(t);
    TakeNum(src, c, 4);
    if c.pos + 4 <= |src.data| {
      TakeNum(src, Cursor(c.pos + 4, c.pos + 4), 8);
    }
  }

  // ----- Headers

  /** A key, four bytes of type, a value. */
  lemma PairIs(x: Gguf.Text, src: Source, c: Cursor)
    requires Sound(src, c)
    ensures ReadPair(x, src, c)
            == match StringAt(x, src, c.pos)
               case Fail(e) => Fail(e)
               case Done(key, c1) =>
                 if c1.pos + 4 > |src.data| then Fail(UnexpectedEof)
                 else
                   match ReadValue(x, src, Cursor(c1.pos + 4, c1.pos + 4), Num(src.data[c1.pos..c1.pos + 4]))
                   case Fail(e) => Fail(e)
                   case Done(text, at) => Done(Pair(key, text), at)
  {
    TakesString(x, src, c);
    if StringAt(x, src, c.pos).Done? {
      TakeNum(src, StringAt(x, src, c.pos).at, 4);
    }
  }

  /** The fixed part: the magic bytes, a version of 2 or 3, the tensor count, at most 4096 pairs. */
  lemma HeaderIs(x: Gguf.Text, src: Source)
    ensures var d := src.data;
            ReadHeader(x, src)
            == if |d| < 4 then Fail(UnexpectedEof)
               else if d[..4] != [0x47, 0x47, 0x55, 0x46] then Fail(MissingMagic)
               else if |d| < 8 then Fail(UnexpectedEof)
               else if Num(d[4..8]) != 2 && Num(d[4..8]) != 3 then Fail(UnsupportedVersion)
               else if |d| < 24 then Fail(UnexpectedEof)
               else if Num(d[16..24]) > 4096 then Fail(TooManyPairs)
               else
                 match ReadPairs(x, src, Cursor(24, 24), Num(d[16..24]))
                 case Fail(e) => Fail(e)
                 case Done(ps, at) => Done(AbsorbAll(Begin(Num(d[4..8]), Num(d[8..16])), ps), at)
  {
    TakeBytes(src, 0, 4);
    if |src.data| >= 4 {
      TakeNum(src, Cursor(4, 4), 4);
    }
    if |src.data| >= 8 {
      TakeNum(src, Cursor(8, 8), 8);
    }
    if |src.data| >= 16 {
      TakeNum(src, Cursor(16, 16), 8);
    }
  }

  // ----- One attribute, in bytes

  /** A length of at most 1024 in eight bytes. */
  function Length(n: nat): (b: seq<byte>)
    requires n <= 1024
    ensures |b| == 8
  {
    [n % 256, n / 256, 0, 0, 0, 0, 0, 0]
  }

  lemma LengthIs(n: nat)
    requires n <= 1024
    ensures Num(Length(n)) == n
  {
  }

  /** A stream of version 3 with one pair: tensor count, key, type number, and what follows. */
  function OneAttribute(tensors: seq<byte>, key: seq<byte>, t: byte, value: seq<byte>): seq<byte>
    requires |tensors| == 8 && |key| <= 1024
  {
    [0x47, 0x47, 0x55, 0x46] + ([3, 0, 0, 0] + (tensors + ([1, 0, 0, 0, 0, 0, 0, 0]
    + (Length(|key|) + (key + ([t, 0, 0, 0] + value))))))
  }

  lemma FourParts(s: seq<byte>, pos: nat, a: seq<byte>, b: seq<byte>, c: seq<byte>, d: seq<byte>, rest: seq<byte>)
    requires At(s, pos, a + (b + (c + (d + rest))))
    ensures At(s, pos, a) && At(s, pos + |a|, b) && At(s, pos + |a| + |b|, c) && At(s, pos + |a| + |b| + |c|, d)
    ensures At(s, pos + |a| + |b| + |c| + |d|, rest)
  {
    var s3 := d + rest;
    var s2 := c + s3;
    var s1 := b + s2;
    AtAppend(s, pos, a, s1);
    AtAppend(s, pos + |a|, b, s2);
    AtAppend(s, pos + |a| + |b|, c, s3);
    AtAppend(s, pos + |a| + |b| + |c|, d, rest);
  }

  lemma Sliced(data: seq<byte>, pos: nat, enc: seq<byte>)
    requires At(data, pos, enc)
    ensures pos + |enc| <= |data| && data[pos..pos + |enc|] == enc
  {
  }

  /** The two parts of such a stream: what is the same in all of them, and the pair. */
  ghost predicate Starts(data: seq<byte>, tensors: seq<byte>)
  {
    && |data| >= 24 && data[..4] == [0x47, 0x47, 0x55, 0x46] && data[4..8] == [3, 0, 0, 0]
    && data[8..16] == tensors && data[16..24] == [1, 0, 0, 0, 0, 0, 0, 0]
  }

  ghost predicate Pairs(data: seq<byte>, key: seq<byte>, t: byte, value: seq<byte>)
  {
    var p := 32 + |key|;
    && |key| <= 1024 && At(data, 24, Length(|key|)) && At(data, 32, key) && At(data, p, [t, 0, 0, 0])
    && At(data, p + 4, value)
  }

  lemma OneAttributeIs(tensors: seq<byte>, key: seq<byte>, t: byte, value: seq<byte>)
    requires |tensors| == 8 && |key| <= 1024
    ensures Starts(OneAttribute(tensors, key, t, value), tensors)
    ensures Pairs(OneAttribute(tensors, key, t, value), key, t, value)
  {
    var d := OneAttribute(tensors, key, t, value);
    var magic: seq<byte>, version: seq<byte> := [0x47, 0x47, 0x55, 0x46], [3, 0, 0, 0];
    var one: seq<byte>, kind: seq<byte> := [1, 0, 0, 0, 0, 0, 0, 0], [t, 0, 0, 0];
    var pair := Length(|key|) + (key + (kind + value));
    assert d == magic + (version + (tensors + (one + pair)));
    assert At(d, 0, d);
    FourParts(d, 0, magic, version, tensors, one, pair);
    assert pair == Length(|key|) + (key + (kind + (value + [])));
    FourParts(d, 24, Length(|key|), key, kind, value, []);
    Sliced(d, 0, magic);
    Sliced(d, 4, version);
    Sliced(d, 8, tensors);
    Sliced(d, 16, one);
  }

  lemma StartNums(data: seq<byte>, tensors: seq<byte>)
    requires Starts(data, tensors)
    ensures Num(data[4..8]) == 3 && Num(data[16..24]) == 1
  {
    FourNum(3);
    EightNum(1);
  }

  lemma FourNum(b: byte)
    ensures Num([b, 0, 0, 0]) == b
  {
  }

  lemma EightNum(b: byte)
    ensures Num([b, 0, 0, 0, 0, 0, 0, 0]) == b
  {
  }

  lemma StartIs(x: Gguf.Text, src: Source, tensors: seq<byte>)
    requires Starts(src.data, tensors)
    ensures ReadHeader(x, src)
            == match ReadPairs(x, src, Cursor(24, 24), 1)
               case Fail(e) => Fail(e)
               case Done(ps, at) => Done(AbsorbAll(Begin(3, Num(tensors)), ps), at)
  {
    StartNums(src.data, tensors);
    HeaderIs(x, src);
  }

  lemma LengthAt(data: seq<byte>, pos: nat, n: nat)
    requires n <= 1024 && At(data, pos, Length(n))
    ensures pos + 8 <= |data| && Num(data[pos..pos + 8]) == n
  {
    Sliced(data, pos, Length(n));
    LengthIs(n);
  }

  lemma StringHere(x: Gguf.Text, src: Source, pos: nat, raw: seq<byte>, text: string)
    requires |raw| <= 1024 && pos + 8 <= |src.data| && Num(src.data[pos..pos + 8]) == |raw|
    requires At(src.data, pos + 8, raw) && x.decode(raw) == Some(text)
    ensures StringAt(x, src, pos) == Done(text, Cursor(pos + 8 + |raw|, pos + 8 + |raw|))
  {
    Sliced(src.data, pos + 8, raw);
  }

  lemma PairAt(x: Gguf.Text, src: Source, key: seq<byte>, k: string, t: byte, value: seq<byte>)
    requires Pairs(src.data, key, t, value) && x.decode(key) == Some(k)
    ensures var p := 36 + |key|;
            && Sound(src, Cursor(p, p))
            && ReadPairs(x, src, Cursor(24, 24), 1)
               == match ReadValue(x, src, Cursor(p, p), t)
                  case Fail(e) => Fail(e)
                  case Done(text, at) => Done([Pair(k, text)], at)
  {
    LengthAt(src.data, 24, |key|);
    StringHere(x, src, 24, key, k);
    Sliced(src.data, 32 + |key|, [t, 0, 0, 0]);
    assert Num([t, 0, 0, 0]) == t;
    OnePair(x, src, Cursor(24, 24));
    PairIs(x, src, Cursor(24, 24));
  }

  lemma OnePair(x: Gguf.Text, src: Source, c: Cursor)
    requires Sound(src, c)
    ensures ReadPairs(x, src, c, 1)
            == match ReadPair(x, src, c)
               case Fail(e) => Fail(e)
               case Done(p, at) => Done([p], at)
  {
    if ReadPair(x, src, c).Done? {
      assert [ReadPair(x, src, c).value] + [] == [ReadPair(x, src, c).value];
    }
  }

  /** What the one pair makes of the metadata. */
  function OneMetadata(tensors: nat, key: string, text: string): Metadata
  {
    Metadata(3, tensors,
             if key == "general.architecture" then Some(text) else None,
             if Strings.EndsWith(key, ".context_length") then ParseUnsigned(text, 0xFFFF_FFFF_FFFF_FFFF) else None,
             if key == "general.file_type" then ParseUnsigned(text, 0xFFFF_FFFF) else None,
             map[key := text])
  }

  lemma AbsorbOne(tensors: nat, key: string, text: string)
    ensures AbsorbAll(Begin(3, tensors), [Pair(key, text)]) == OneMetadata(tensors, key, text)
  {
    assert [Pair(key, text)][..0] == [];
    assert AbsorbAll(Begin(3, tensors), []) == Begin(3, tensors);
    SpecialKeysApart();
  }

  /** Whatever the value reads as becomes the attribute of that key, and the named field if the key is
      one of the three; if it does not read, neither does the header. */
  lemma AttributeStored(x: Gguf.Text, tensors: seq<byte>, key: seq<byte>, k: string, t: byte, value: seq<byte>,
                        seekLimit: nat)
    requires |tensors| == 8 && |key| <= 1024 && x.decode(key) == Some(k)
    ensures var src := Source(OneAttribute(tensors, key, t, value), seekLimit);
            var p := 36 + |key|;
            && Sound(src, Cursor(p, p))
            && ReadHeader(x, src)
               == match ReadValue(x, src, Cursor(p, p), t)
                  case Fail(e) => Fail(e)
                  case Done(text, at) => Done(OneMetadata(Num(tensors), k, text), at)
  {
    var src := Source(OneAttribute(tensors, key, t, value), seekLimit);
    OneAttributeIs(tensors, key, t, value);
    HeaderOfPair(x, src, tensors, key, k, t, value);
  }

  lemma HeaderOfPair(x: Gguf.Text, src: Source, tensors: seq<byte>, key: seq<byte>, k: string, t: byte,
                     value: seq<byte>)
    requires Starts(src.data, tensors) && Pairs(src.data, key, t, value) && x.decode(key) == Some(k)
    ensures var p := 36 + |key|;
            && Sound(src, Cursor(p, p))
            && ReadHeader(x, src)
               == match ReadValue(x, src, Cursor(p, p), t)
                  case Fail(e) => Fail(e)
                  case Done(text, at) => Done(OneMetadata(Num(tensors), k, text), at)
  {
    StartIs(x, src, tensors);
    PairAt(x, src, key, k, t, value);
    var r := ReadValue(x, src, Cursor(36 + |key|, 36 + |key|), t);
    if r.Done? {
      AbsorbOne(Num(tensors), k, r.value);
    }
  }

  lemma TextAt(x: Gguf.Text, src: Source, p: nat, utf8: seq<byte>, text: string, after: seq<byte>)
    requires |utf8| <= 1024 && x.decode(utf8) == Some(text) && p <= |src.data|
    requires At(src.data, p, Length(|utf8|) + (utf8 + after))
    ensures ReadValue(x, src, Cursor(p, p), 8) == Done(text, Cursor(p + 8 + |utf8|, p + 8 + |utf8|))
  {
    StringValue(x, src, Cursor(p, p));
    AtAppend(src.data, p, Length(|utf8|), utf8 + after);
    AtAppend(src.data, p + 8, utf8, after);
    LengthAt(src.data, p, |utf8|);
    StringHere(x, src, p, utf8, text);
  }

  /** A string of at most 1024 bytes of UTF-8 comes out as that attribute, whatever follows. */
  lemma StringAttribute(x: Gguf.Text, tensors: seq<byte>, key: seq<byte>, k: string, utf8: seq<byte>, text: string,
                        after: seq<byte>, seekLimit: nat)
    requires |tensors| == 8 && |key| <= 1024 && x.decode(key) == Some(k)
    requires |utf8| <= 1024 && x.decode(utf8) == Some(text)
    ensures var r := ReadHeader(x, Source(OneAttribute(tensors, key, 8, Length(|utf8|) + (utf8 + after)), seekLimit));
            r.Done? && r.value == OneMetadata(Num(tensors), k, text)
  {
    var value, p := Length(|utf8|) + (utf8 + after), 36 + |key|;
    var src := Source(OneAttribute(tensors, key, 8, value), seekLimit);
    AttributeStored(x, tensors, key, k, 8, value, seekLimit);
    OneAttributeIs(tensors, key, 8, value);
    TextAt(x, src, p, utf8, text, after);
  }

  lemma ScalarAt(x: Gguf.Text, src: Source, p: nat, t: nat, raw: seq<byte>, after: seq<byte>)
    requires Fixed(t) && |raw| == Width(t) && At(src.data, p, raw + after) && p <= |src.data|
    ensures ReadValue(x, src, Cursor(p, p), t) == Done(Text(x, t, raw), Cursor(p + |raw|, p + |raw|))
  {
    AtAppend(src.data, p, raw, after);
    Sliced(src.data, p, raw);
    ScalarValue(x, src, Cursor(p, p), t);
  }

  /** A value of one of the eleven types of fixed width comes out as its text, whatever follows. */
  lemma ScalarAttribute(x: Gguf.Text, tensors: seq<byte>, key: seq<byte>, k: string, t: byte, raw: seq<byte>,
                        after: seq<byte>, seekLimit: nat)
    requires |tensors| == 8 && |key| <= 1024 && x.decode(key) == Some(k)
    requires Fixed(t) && |raw| == Width(t)
    ensures var r := ReadHeader(x, Source(OneAttribute(tensors, key, t, raw + after), seekLimit));
            r.Done? && r.value == OneMetadata(Num(tensors), k, Text(x, t, raw))
  {
    var src := Source(OneAttribute(tensors, key, t, raw + after), seekLimit);
    AttributeStored(x, tensors, key, k, t, raw + after, seekLimit);
    OneAttributeIs(tensors, key, t, raw + after);
    ScalarAt(x, src, 36 + |key|, t, raw, after);
  }

  lemma CountAt(src: Source, p: nat, t: byte, count: seq<byte>, after: seq<byte>)
    requires |count| == 8 && At(src.data, p, [t, 0, 0, 0] + (count + after))
    ensures ArrayAt(src, p, t, Num(count))
  {
    var kind: seq<byte> := [t, 0, 0, 0];
    AtAppend(src.data, p, kind, count + after);
    AtAppend(src.data, p + 4, count, after);
    Sliced(src.data, p, kind);
    Sliced(src.data, p + 4, count);
    assert Num(kind) == t;
  }

  lemma ArrayHere(x: Gguf.Text, src: Source, p: nat, t: byte, count: seq<byte>, after: seq<byte>, n: nat, bytes: nat)
    requires Fixed(t) && |count| == 8 && n == Num(count) && bytes == n * Width(t) && p <= |src.data|
    requires At(src.data, p, [t, 0, 0, 0] + (count + after))
    requires p + 12 + bytes <= src.seekLimit <= 0xFFFF_FFFF_FFFF_FFFF
    ensures ReadValue(x, src, Cursor(p, p), 9)
         == Done("[array: " + Decimal(n) + " items]", Cursor(p + 12 + bytes, p + 12))
  {
    CountAt(src, p, t, count, after);
    FixedArray(x, src, Cursor(p, p), t, n, bytes);
  }

  /** An array of `n` items of fixed width comes out as its count, however much of the items the stream
      holds, as long as the seek reaches their end. */
  lemma ArrayAttribute(x: Gguf.Text, tensors: seq<byte>, key: seq<byte>, k: string, t: byte, count: seq<byte>,
                       after: seq<byte>, seekLimit: nat, n: nat, bytes: nat)
    requires |tensors| == 8 && |key| <= 1024 && x.decode(key) == Some(k)
    requires Fixed(t) && |count| == 8 && n == Num(count) && bytes == n * Width(t)
    requires 48 + |key| + bytes <= seekLimit <= 0xFFFF_FFFF_FFFF_FFFF
    ensures var r := ReadHeader(x, Source(OneAttribute(tensors, key, 9, [t, 0, 0, 0] + (count + after)), seekLimit));
            r.Done? && r.value == OneMetadata(Num(tensors), k, "[array: " + Decimal(n) + " items]")
  {
    var value, p := [t, 0, 0, 0] + (count + after), 36 + |key|;
    var src := Source(OneAttribute(tensors, key, 9, value), seekLimit);
    AttributeStored(x, tensors, key, k, 9, value, seekLimit);
    OneAttributeIs(tensors, key, 9, value);
    ArrayHere(x, src, p, t, count, after, n, bytes);
  }
}
