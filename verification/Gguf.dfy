/** The GGUF header grammar: what each byte string means, position by position.

    Every reader function maps a cursor to the cursor after the item. The cursor
    remembers `touched`, the length of the shortest prefix of the stream that holds
    every byte read so far; a seek moves `pos` and leaves `touched` alone. */
module Gguf {
  import opened Wrappers
  import opened Bytes
  import opened Numerals
  import Strings

  /** Parts the grammar takes as given: UTF-8 decoding and float formatting. */
  datatype Text = Text(decode: seq<byte> -> Option<string>,
                       float32: seq<byte> -> string,
                       float64: seq<byte> -> string)

  /** A seekable stream: `seekLimit` is the greatest offset `seek` accepts. */
  datatype Source = Source(data: seq<byte>, seekLimit: nat)

  datatype Cursor = Cursor(pos: nat, touched: nat)

  /** Why a parse fails. The first two are I/O errors; a fixed-width array whose byte length or
      end does not fit in 64 bits, and the rest, are reported as invalid data. */
  datatype Error =
    | UnexpectedEof | SeekBeyondLimit
    | ArrayLengthOverflow | ArrayEndOverflow
    | StringTooLong | NotUtf8 | SkipCapExceeded | UnknownType
    | MissingMagic | UnsupportedVersion | TooManyPairs

  datatype Outcome<+T> = Done(value: T, at: Cursor) | Fail(error: Error)

  const MAX_STRING: nat := 1024
  const MAX_SKIP: nat := 64 * 1024
  const MAX_PAIRS: nat := 4096
  const ARRAY: nat := 9
  const STRING: nat := 8

  /** Unread input, the termination measure of the parser. */
  function Left(src: Source, c: Cursor): nat
  {
    if c.pos <= |src.data| then |src.data| - c.pos else 0
  }

  /** A cursor that has read only bytes of the stream, none of them past its position. */
  predicate Sound(src: Source, c: Cursor)
  {
    c.touched <= c.pos && c.touched <= |src.data|
  }

  // ----- Primitive reads

  function Take(src: Source, c: Cursor, n: nat): (r: Outcome<seq<byte>>)
    requires Sound(src, c)
    ensures r.Done? ==> |r.value| == n && Sound(src, r.at) && c.touched <= r.at.touched && r.at.pos == c.pos + n
    ensures r.Done? && 0 < n ==> r.at.touched == r.at.pos
  {
    if n == 0 then Done([], c)
    else if c.pos + n <= |src.data| then Done(src.data[c.pos..c.pos + n], Cursor(c.pos + n, c.pos + n))
    else Fail(UnexpectedEof)
  }

  function TakeUnsigned(src: Source, c: Cursor, w: nat): (r: Outcome<nat>)
    requires Sound(src, c) && 0 < w
    ensures r.Done? ==> r.value < Span(w) && r.at == Cursor(c.pos + w, c.pos + w) && Sound(src, r.at)
  {
    match Take(src, c, w)
    case Fail(e) => Fail(e)
    case Done(raw, at) => Done(FromLittleEndian(raw), at)
  }

  /** A string: a u64 length, at most 1024, then that many bytes of UTF-8. */
  function TakeString(x: Text, src: Source, c: Cursor): (r: Outcome<string>)
    requires Sound(src, c)
    ensures r.Done? ==> Sound(src, r.at) && c.pos < r.at.touched == r.at.pos
  {
    match TakeUnsigned(src, c, 8)
    case Fail(e) => Fail(e)
    case Done(len, c1) =>
      if len > MAX_STRING then Fail(StringTooLong) else
      match Take(src, c1, len)
      case Fail(e) => Fail(e)
      case Done(raw, c2) =>
        match x.decode(raw)
        case None => Fail(NotUtf8)
        case Some(s) => Done(s, c2)
  }

  // ----- Values

  /** Width in bytes of a fixed-width value type; strings, arrays and unknown types have none. */
  function ItemWidth(t: nat): (w: Option<nat>)
    ensures w.Some? ==> w.value in {1, 2, 4, 8}
    ensures t in {STRING, ARRAY} ==> w.None?
  {
    if t in {0, 1, 7} then Some(1)
    else if t in {2, 3} then Some(2)
    else if 4 <= t <= 6 then Some(4)
    else if 10 <= t <= 12 then Some(8)
    else None
  }

  predicate IsSigned(t: nat)
  {
    t in {1, 3, 5, 11}
  }

  /** How a fixed-width value is shown in the attribute map. */
  function ShowScalar(x: Text, t: nat, raw: seq<byte>): string
    requires ItemWidth(t) == Some(|raw|)
  {
    var n := FromLittleEndian(raw);
    if t == 6 then x.float32(raw)
    else if t == 12 then x.float64(raw)
    else if t == 7 then (if n != 0 then "true" else "false")
    else if IsSigned(t) then SignedDecimal(FromTwosComplement(n, |raw|))
    else Decimal(n)
  }

  function ShowArray(count: nat): string
  {
    "[array: " + Decimal(count) + " items]"
  }

  /** Skips `count` items of `width` bytes with one seek, in checked 64-bit arithmetic. */
  function SeekOver(src: Source, c: Cursor, count: nat, width: nat): (r: Outcome<()>)
  {
    if count * width > U64_MAX then Fail(ArrayLengthOverflow)
    else if c.pos + count * width > U64_MAX then Fail(ArrayEndOverflow)
    else if c.pos + count * width > src.seekLimit then Fail(SeekBeyondLimit)
    else Done((), c.(pos := c.pos + count * width))
  }

  /** One value of type `t`. Every accepted value reads at least one byte of the stream. */
  function ReadValue(x: Text, src: Source, c: Cursor, t: nat): (r: Outcome<string>)
    requires Sound(src, c)
    ensures r.Done? ==> Sound(src, r.at) && c.pos < r.at.touched
    decreases Left(src, c), 0, 0
  {
    if t == STRING then TakeString(x, src, c)
    else if t == ARRAY then
      match TakeUnsigned(src, c, 4)
      case Fail(e) => Fail(e)
      case Done(itemType, c1) =>
        match TakeUnsigned(src, c1, 8)
        case Fail(e) => Fail(e)
        case Done(count, c2) =>
          match SkipPayload(x, src, c2, itemType, count)
          case Fail(e) => Fail(e)
          case Done(_, c3) => Done(ShowArray(count), c3)
    else
      match ItemWidth(t)
      case None => Fail(UnknownType)
      case Some(w) =>
        match Take(src, c, w)
        case Fail(e) => Fail(e)
        case Done(raw, at) => Done(ShowScalar(x, t, raw), at)
  }

  /** The items of an array whose header has been read. */
  function SkipPayload(x: Text, src: Source, c: Cursor, itemType: nat, count: nat): (r: Outcome<()>)
    requires Sound(src, c)
    ensures r.Done? ==> Sound(src, r.at) && c.pos <= r.at.pos && c.touched <= r.at.touched
    decreases Left(src, c), 2, 0
  {
    match ItemWidth(itemType)
    case Some(w) => SeekOver(src, c, count, w)
    case None =>
      match SkipItems(x, src, c, itemType, Min(count, MAX_SKIP))
      case Fail(e) => Fail(e)
      case Done(_, at) =>
        if count > MAX_SKIP then Fail(SkipCapExceeded)
        else Done((), at)
  }

  /** `n` values of one type, one after the other. */
  function SkipItems(x: Text, src: Source, c: Cursor, t: nat, n: nat): (r: Outcome<()>)
    requires Sound(src, c)
    ensures r.Done? ==> Sound(src, r.at) && c.pos <= r.at.pos && c.touched <= r.at.touched
    decreases Left(src, c), 1, n
  {
    if n == 0 then Done((), c) else
    match ReadValue(x, src, c, t)
    case Fail(e) => Fail(e)
    case Done(_, at) => SkipItems(x, src, at, t, n - 1)
  }

  // ----- The header

  datatype Pair = Pair(key: string, text: string)

  function ReadPair(x: Text, src: Source, c: Cursor): (r: Outcome<Pair>)
    requires Sound(src, c)
    ensures r.Done? ==> Sound(src, r.at) && c.pos < r.at.touched
  {
    match TakeString(x, src, c)
    case Fail(e) => Fail(e)
    case Done(key, c1) =>
      match TakeUnsigned(src, c1, 4)
      case Fail(e) => Fail(e)
      case Done(t, c2) =>
        match ReadValue(x, src, c2, t)
        case Fail(e) => Fail(e)
        case Done(text, at) => Done(Pair(key, text), at)
  }

  function ReadPairs(x: Text, src: Source, c: Cursor, n: nat): (r: Outcome<seq<Pair>>)
    requires Sound(src, c)
    ensures r.Done? ==> |r.value| == n && Sound(src, r.at) && c.touched <= r.at.touched && c.pos <= r.at.pos
    decreases n
  {
    if n == 0 then Done([], c) else
    match ReadPair(x, src, c)
    case Fail(e) => Fail(e)
    case Done(p, c1) =>
      match ReadPairs(x, src, c1, n - 1)
      case Fail(e) => Fail(e)
      case Done(ps, at) => Done([p] + ps, at)
  }

  const ARCHITECTURE := "general.architecture"
  const FILE_TYPE := "general.file_type"
  const CONTEXT_LENGTH := ".context_length"

  datatype Metadata = Metadata(
    version: nat,
    tensorCount: nat,
    architecture: Option<string>,
    contextLength: Option<nat>,
    fileType: Option<nat>,
    attributes: map<string, string>)

  function Begin(version: nat, tensorCount: nat): Metadata
  {
    Metadata(version, tensorCount, None, None, None, map[])
  }

  /** What one key/value pair adds to the metadata gathered so far. */
  function Absorb(m: Metadata, p: Pair): Metadata
  {
    var m' := m.(attributes := m.attributes[p.key := p.text]);
    if p.key == ARCHITECTURE then m'.(architecture := Some(p.text))
    else if Strings.EndsWith(p.key, CONTEXT_LENGTH) then m'.(contextLength := ParseUnsigned(p.text, U64_MAX))
    else if p.key == FILE_TYPE then m'.(fileType := ParseUnsigned(p.text, U32_MAX))
    else m'
  }

  function AbsorbAll(m: Metadata, ps: seq<Pair>): Metadata
  {
    if ps == [] then m else Absorb(AbsorbAll(m, ps[..|ps| - 1]), ps[|ps| - 1])
  }

  /** The bytes of the ASCII text "GGUF". */
  const MAGIC: seq<byte> := [0x47, 0x47, 0x55, 0x46]

  function ReadHeader(x: Text, src: Source): (r: Outcome<Metadata>)
    ensures r.Done? ==> Sound(src, r.at)
  {
    match Take(src, Cursor(0, 0), 4)
    case Fail(e) => Fail(e)
    case Done(magic, c0) =>
      if magic != MAGIC then Fail(MissingMagic) else
      match TakeUnsigned(src, c0, 4)
      case Fail(e) => Fail(e)
      case Done(version, c1) =>
        if !(2 <= version <= 3) then Fail(UnsupportedVersion) else
        match TakeUnsigned(src, c1, 8)
        case Fail(e) => Fail(e)
        case Done(tensorCount, c2) =>
          match TakeUnsigned(src, c2, 8)
          case Fail(e) => Fail(e)
          case Done(pairs, c3) =>
            if pairs > MAX_PAIRS then Fail(TooManyPairs) else
            match ReadPairs(x, src, c3, pairs)
            case Fail(e) => Fail(e)
            case Done(ps, at) => Done(AbsorbAll(Begin(version, tensorCount), ps), at)
  }
}
