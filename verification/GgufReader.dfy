/** The reader as it runs: a stream position that every call advances, loops over pairs and
    items, and one seek over a fixed-width array. Each method is held to the grammar. */
module GgufReader {
  import opened Wrappers
  import opened Bytes
  import opened Numerals
  import opened Gguf
  import opened GgufWork

  /** The outcome of reading more pairs, seen from where `ps` had not been read yet. */
  ghost function Prepend(ps: seq<Pair>, o: Outcome<seq<Pair>>): Outcome<seq<Pair>>
  {
    match o
    case Fail(e) => Fail(e)
    case Done(rest, at) => Done(ps + rest, at)
  }

  lemma PrependNothing(o: Outcome<seq<Pair>>)
    ensures Prepend([], o) == o
  {
    if o.Done? {
      assert [] + o.value == o.value;
    }
  }

  lemma PrependTwice(a: seq<Pair>, b: seq<Pair>, o: Outcome<seq<Pair>>)
    ensures Prepend(a, Prepend(b, o)) == Prepend(a + b, o)
  {
    if o.Done? {
      assert a + (b + o.value) == a + b + o.value;
    }
  }

  lemma AbsorbSnoc(m: Metadata, ps: seq<Pair>, p: Pair)
    ensures AbsorbAll(m, ps + [p]) == Absorb(AbsorbAll(m, ps), p)
  {
    assert (ps + [p])[..|ps|] == ps;
  }

  class Reader {
    const x: Text
    const src: Source
    var pos: nat
    /** High-water mark of the bytes read. */
    ghost var touched: nat
    /** Values read successfully so far, array items included. */
    ghost var valuesRead: nat

    constructor (x: Text, src: Source)
      ensures this.x == x && this.src == src && Here() == Cursor(0, 0) && valuesRead == 0
    {
      this.x, this.src, pos, touched, valuesRead := x, src, 0, 0, 0;
    }

    ghost function Here(): Cursor
      reads this
    {
      Cursor(pos, touched)
    }

    ghost predicate Valid()
      reads this
    {
      Sound(src, Here())
    }

    /** The call returned what the grammar says and left the reader where the grammar ends. */
    ghost predicate Agrees<T>(o: Outcome<T>, r: Result<T, Error>)
      reads this
    {
      match o
      case Done(value, at) => r == Ok(value) && Here() == at
      case Fail(e) => r == Err(e)
    }

    method ReadExact(n: nat) returns (r: Result<seq<byte>, Error>)
      requires Valid()
      modifies this
      ensures valuesRead == old(valuesRead) && Agrees(old(Take(src, Here(), n)), r)
    {
      if n == 0 {
        return Ok([]);
      }
      if pos + n > |src.data| {
        return Err(UnexpectedEof);
      }
      r := Ok(src.data[pos..pos + n]);
      pos, touched := pos + n, pos + n;
    }

    method ReadUnsigned(w: nat) returns (r: Result<nat, Error>)
      requires Valid() && 0 < w
      modifies this
      ensures valuesRead == old(valuesRead) && Agrees(old(TakeUnsigned(src, Here(), w)), r)
    {
      var raw := ReadExact(w);
      match raw {
        case Err(e) => return Err(e);
        case Ok(b) => return Ok(FromLittleEndian(b));
      }
    }

    method ReadString() returns (r: Result<string, Error>)
      requires Valid()
      modifies this
      ensures valuesRead == old(valuesRead) && Agrees(old(TakeString(x, src, Here())), r)
    {
      var len := ReadUnsigned(8);
      if len.Err? {
        return Err(len.error);
      }
      if len.value > MAX_STRING {
        return Err(StringTooLong);
      }
      var raw := ReadExact(len.value);
      if raw.Err? {
        return Err(raw.error);
      }
      match x.decode(raw.value) {
        case None => return Err(NotUtf8);
        case Some(s) => return Ok(s);
      }
    }

    /** One fixed-width value, shown as text. */
    method ShowRead(t: nat, w: nat) returns (r: Result<string, Error>)
      requires Valid() && ItemWidth(t) == Some(w)
      modifies this
      ensures valuesRead == old(valuesRead) && Agrees(old(ReadValue(x, src, Here(), t)), r)
    {
      var raw := ReadExact(w);
      if raw.Err? {
        return Err(raw.error);
      }
      var n := FromLittleEndian(raw.value);
      match t {
        case 6 => return Ok(x.float32(raw.value));
        case 7 => return Ok(if n != 0 then "true" else "false");
        case 12 => return Ok(x.float64(raw.value));
        case 1 | 3 | 5 | 11 => return Ok(SignedDecimal(FromTwosComplement(n, w)));
        case _ => return Ok(Decimal(n));
      }
    }

    method SkipOrReadValue(t: nat) returns (r: Result<string, Error>)
      requires Valid()
      modifies this
      ensures Agrees(old(ReadValue(x, src, Here(), t)), r)
      ensures valuesRead == old(valuesRead) + old(ValueReads(x, src, Here(), t))
      decreases Left(src, Here()), 1
    {
      match t {
        case 0 | 1 | 7 => r := ShowRead(t, 1);
        case 2 | 3 => r := ShowRead(t, 2);
        case 4 | 5 | 6 => r := ShowRead(t, 4);
        case 10 | 11 | 12 => r := ShowRead(t, 8);
        case 8 => r := ReadString();
        case 9 => r := SkipArray();
        case _ => r := Err(UnknownType);
      }
      if r.Ok? {
        valuesRead := valuesRead + 1;
      }
    }

    /** An array, whose own success is counted by the caller. */
    method SkipArray() returns (r: Result<string, Error>)
      requires Valid()
      modifies this
      ensures Agrees(old(ReadValue(x, src, Here(), ARRAY)), r)
      ensures valuesRead + (if r.Ok? then 1 else 0) == old(valuesRead) + old(ValueReads(x, src, Here(), ARRAY))
      decreases Left(src, Here()), 0
    {
      var itemType := ReadUnsigned(4);
      if itemType.Err? {
        return Err(itemType.error);
      }
      var count := ReadUnsigned(8);
      if count.Err? {
        return Err(count.error);
      }
      var payload;
      match ItemWidth(itemType.value) {
        case Some(width) => payload := SeekItems(count.value, width);
        case None => payload := SkipVariable(itemType.value, count.value);
      }
      match payload {
        case Err(e) => return Err(e);
        case Ok(_) => return Ok(ShowArray(count.value));
      }
    }

    /** Seeks over `count` items of `width` bytes. */
    method SeekItems(count: nat, width: nat) returns (r: Result<(), Error>)
      requires Valid()
      modifies this
      ensures valuesRead == old(valuesRead) && Agrees(old(SeekOver(src, Here(), count, width)), r)
    {
      if count * width > U64_MAX {
        return Err(ArrayLengthOverflow);
      }
      var end := pos + count * width;
      if end > U64_MAX {
        return Err(ArrayEndOverflow);
      }
      if end > src.seekLimit {
        return Err(SeekBeyondLimit);
      }
      pos := end;
      r := Ok(());
    }

    /** Reads items of no fixed width one by one, up to the safety cap. */
    method SkipVariable(itemType: nat, count: nat) returns (r: Result<(), Error>)
      requires Valid() && ItemWidth(itemType).None?
      modifies this
      ensures Agrees(old(SkipPayload(x, src, Here(), itemType, count)), r)
      ensures valuesRead == old(valuesRead) + old(ItemReads(x, src, Here(), itemType, Min(count, MAX_SKIP)))
      decreases Left(src, Here()), 2
    {
      var skipped, maxIter := 0, Min(count, MAX_SKIP);
      ghost var c, before := Here(), valuesRead;
      while skipped < maxIter
        invariant skipped <= maxIter && Valid() && c.pos <= pos
        invariant SkipItems(x, src, c, itemType, maxIter)
               == SkipItems(x, src, Here(), itemType, maxIter - skipped)
        invariant before + ItemReads(x, src, c, itemType, maxIter)
               == valuesRead + ItemReads(x, src, Here(), itemType, maxIter - skipped)
      {
        var item := SkipOrReadValue(itemType);
        if item.Err? {
          return Err(item.error);
        }
        skipped := skipped + 1;
      }
      if count > skipped {
        return Err(SkipCapExceeded);
      }
      r := Ok(());
    }

    method ReadKeyValue() returns (r: Result<Pair, Error>)
      requires Valid()
      modifies this
      ensures Agrees(old(ReadPair(x, src, Here())), r)
      ensures valuesRead == old(valuesRead) + old(PairReads(x, src, Here()))
    {
      var key := ReadString();
      if key.Err? {
        return Err(key.error);
      }
      var t := ReadUnsigned(4);
      if t.Err? {
        return Err(t.error);
      }
      var text := SkipOrReadValue(t.value);
      match text {
        case Err(e) => return Err(e);
        case Ok(s) => return Ok(Pair(key.value, s));
      }
    }

    /** Parses a header from the start of the stream. Whatever counts it declares, the values read,
        array items included, are no more than the bytes of the stream. */
    method ParseHeader() returns (r: Result<Metadata, Error>)
      requires Here() == Cursor(0, 0)
      modifies this
      ensures Agrees(ReadHeader(x, src), r)
      ensures valuesRead <= old(valuesRead) + |src.data|
    {
      var magic := ReadExact(4);
      if magic.Err? {
        return Err(magic.error);
      }
      if magic.value != MAGIC {
        return Err(MissingMagic);
      }
      var version := ReadUnsigned(4);
      if version.Err? {
        return Err(version.error);
      }
      if !(2 <= version.value <= 3) {
        return Err(UnsupportedVersion);
      }
      var tensorCount := ReadUnsigned(8);
      if tensorCount.Err? {
        return Err(tensorCount.error);
      }
      var pairs := ReadUnsigned(8);
      if pairs.Err? {
        return Err(pairs.error);
      }
      if pairs.value > MAX_PAIRS {
        return Err(TooManyPairs);
      }
      r := ParsePairs(version.value, tensorCount.value, pairs.value);
    }

    /** The key/value loop: each pair updates the fields it names and the attribute map. */
    method ParsePairs(version: nat, tensorCount: nat, count: nat) returns (r: Result<Metadata, Error>)
      requires Valid()
      modifies this
      ensures match old(ReadPairs(x, src, Here(), count))
              case Fail(e) => r == Err(e)
              case Done(ps, at) => r == Ok(AbsorbAll(Begin(version, tensorCount), ps)) && Here() == at
      ensures valuesRead == old(valuesRead) + old(PairsReads(x, src, Here(), count))
    {
      var attributes: map<string, string> := map[];
      var architecture: Option<string> := None;
      var contextLength: Option<nat> := None;
      var fileType: Option<nat> := None;
      ghost var seen: seq<Pair> := [];
      ghost var whole := ReadPairs(x, src, Here(), count);
      ghost var allReads := valuesRead + PairsReads(x, src, Here(), count);
      PrependNothing(whole);
      for i := 0 to count
        invariant Valid()
        invariant allReads == valuesRead + PairsReads(x, src, Here(), count - i)
        invariant whole == Prepend(seen, ReadPairs(x, src, Here(), count - i))
        invariant AbsorbAll(Begin(version, tensorCount), seen)
               == Metadata(version, tensorCount, architecture, contextLength, fileType, attributes)
      {
        var pair := ReadKeyValue();
        if pair.Err? {
          return Err(pair.error);
        }
        var key, text := pair.value.key, pair.value.text;
        if key == ARCHITECTURE {
          architecture := Some(text);
        } else if Strings.EndsWith(key, CONTEXT_LENGTH) {
          contextLength := ParseUnsigned(text, U64_MAX);
        } else if key == FILE_TYPE {
          fileType := ParseUnsigned(text, U32_MAX);
        }
        attributes := attributes[key := text];
        AbsorbSnoc(Begin(version, tensorCount), seen, pair.value);
        PrependTwice(seen, [pair.value], ReadPairs(x, src, Here(), count - i - 1));
        seen := seen + [pair.value];
      }
      assert seen + [] == seen;
      r := Ok(Metadata(version, tensorCount, architecture, contextLength, fileType, attributes));
    }
  }
}
