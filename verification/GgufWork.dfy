/** How much work a parse does, and why one seek stands for many reads. */
module GgufWork {
  import opened Bytes
  import opened Gguf
  import opened GgufEncode

  /** Successful value reads in the run of `ReadValue`, nested ones and those of failing runs included. */
  ghost function ValueReads(x: Text, src: Source, c: Cursor, t: nat): nat
    requires Sound(src, c)
    decreases Left(src, c), 0, 0
  {
    (if ReadValue(x, src, c, t).Done? then 1 else 0) +
    if t != ARRAY then 0 else
    match TakeUnsigned(src, c, 4)
    case Fail(_) => 0
    case Done(itemType, c1) =>
      match TakeUnsigned(src, c1, 8)
      case Fail(_) => 0
      case Done(count, c2) =>
        if ItemWidth(itemType).Some? then 0 else ItemReads(x, src, c2, itemType, Min(count, MAX_SKIP))
  }

  ghost function ItemReads(x: Text, src: Source, c: Cursor, t: nat, n: nat): nat
    requires Sound(src, c)
    decreases Left(src, c), 1, n
  {
    if n == 0 then 0 else
    ValueReads(x, src, c, t) +
    match ReadValue(x, src, c, t)
    case Fail(_) => 0
    case Done(_, at) => ItemReads(x, src, at, t, n - 1)
  }

  /** Unread input after a read; a failed one leaves none to speak of. */
  ghost function LeftAfter<T>(src: Source, r: Outcome<T>): nat
  {
    if r.Done? then Left(src, r.at) else 0
  }

  /** Every successful value read pays for itself with a byte of input of its own, whatever
      counts the header declares. */
  lemma {:induction false} ValueReadsBounded(x: Text, src: Source, c: Cursor, t: nat)
    requires Sound(src, c)
    ensures ValueReads(x, src, c, t) <= Left(src, c) - LeftAfter(src, ReadValue(x, src, c, t))
    decreases Left(src, c), 0, 0
  {
    if t == ARRAY {
      var itemType := TakeUnsigned(src, c, 4);
      if itemType.Done? {
        var count := TakeUnsigned(src, itemType.at, 8);
        if count.Done? && ItemWidth(itemType.value).None? {
          ItemReadsBounded(x, src, count.at, itemType.value, Min(count.value, MAX_SKIP));
        }
      }
    }
  }

  lemma {:induction false} ItemReadsBounded(x: Text, src: Source, c: Cursor, t: nat, n: nat)
    requires Sound(src, c)
    ensures ItemReads(x, src, c, t, n) <= Left(src, c) - LeftAfter(src, SkipItems(x, src, c, t, n))
    decreases Left(src, c), 1, n
  {
    if n == 0 {
      NoItemsRead(x, src, c, t);
    } else {
      ValueReadsBounded(x, src, c, t);
      if ReadValue(x, src, c, t).Done? {
        var at := ReadValue(x, src, c, t).at;
        ItemReadsBounded(x, src, at, t, n - 1);
        MoreItems(x, src, c, t, n, at);
      } else {
        NoMoreItems(x, src, c, t, n);
      }
    }
  }

  lemma NoMoreItems(x: Text, src: Source, c: Cursor, t: nat, n: nat)
    requires Sound(src, c) && 0 < n && ReadValue(x, src, c, t).Fail?
    ensures ItemReads(x, src, c, t, n) == ValueReads(x, src, c, t)
    ensures LeftAfter(src, SkipItems(x, src, c, t, n)) == 0 == LeftAfter(src, ReadValue(x, src, c, t))
  {
    FirstItemRead(x, src, c, t, n);
  }

  lemma MoreItems(x: Text, src: Source, c: Cursor, t: nat, n: nat, at: Cursor)
    requires Sound(src, c) && 0 < n && ReadValue(x, src, c, t).Done? && ReadValue(x, src, c, t).at == at
    requires ValueReads(x, src, c, t) <= Left(src, c) - LeftAfter(src, ReadValue(x, src, c, t))
    requires ItemReads(x, src, at, t, n - 1) <= Left(src, at) - LeftAfter(src, SkipItems(x, src, at, t, n - 1))
    ensures ItemReads(x, src, c, t, n) <= Left(src, c) - LeftAfter(src, SkipItems(x, src, c, t, n))
  {
    FirstItemRead(x, src, c, t, n);
  }

  lemma NoItemsRead(x: Text, src: Source, c: Cursor, t: nat)
    requires Sound(src, c)
    ensures SkipItems(x, src, c, t, 0) == Done((), c) && ItemReads(x, src, c, t, 0) == 0
  {
  }

  lemma FirstItemRead(x: Text, src: Source, c: Cursor, t: nat, n: nat)
    requires Sound(src, c) && 0 < n
    ensures var first := ReadValue(x, src, c, t);
            && (first.Fail? ==>
                  && SkipItems(x, src, c, t, n).Fail?
                  && ItemReads(x, src, c, t, n) == ValueReads(x, src, c, t))
            && (first.Done? ==>
                  && SkipItems(x, src, c, t, n) == SkipItems(x, src, first.at, t, n - 1)
                  && ItemReads(x, src, c, t, n) == ValueReads(x, src, c, t) + ItemReads(x, src, first.at, t, n - 1))
  {
  }

  /** Successful value reads of one key/value pair. */
  ghost function PairReads(x: Text, src: Source, c: Cursor): nat
    requires Sound(src, c)
  {
    match TakeString(x, src, c)
    case Fail(_) => 0
    case Done(_, c1) =>
      match TakeUnsigned(src, c1, 4)
      case Fail(_) => 0
      case Done(t, c2) => ValueReads(x, src, c2, t)
  }

  lemma PairReadsBounded(x: Text, src: Source, c: Cursor)
    requires Sound(src, c)
    ensures PairReads(x, src, c) <= Left(src, c) - LeftAfter(src, ReadPair(x, src, c))
  {
    var key := TakeString(x, src, c);
    if key.Done? {
      var t := TakeUnsigned(src, key.at, 4);
      if t.Done? {
        ValueReadsBounded(x, src, t.at, t.value);
      }
    }
  }

  /** Successful value reads of the key/value loop: never more than there are bytes left. */
  ghost function PairsReads(x: Text, src: Source, c: Cursor, n: nat): (r: nat)
    requires Sound(src, c)
    ensures r <= Left(src, c)
    decreases n
  {
    PairReadsBounded(x, src, c);
    if n == 0 then 0 else
    PairReads(x, src, c) +
    match ReadPair(x, src, c)
    case Fail(_) => 0
    case Done(_, at) => PairsReads(x, src, at, n - 1)
  }

  /** Reading fixed-width items one by one succeeds exactly when they all lie in the stream,
      and then ends where the seek would. */
  lemma {:induction false} SlowSkip(x: Text, src: Source, c: Cursor, t: nat, n: nat)
    requires Sound(src, c) && ItemWidth(t).Some?
    ensures var end := c.pos + n * ItemWidth(t).value;
            var slow := SkipItems(x, src, c, t, n);
            && (slow.Done? <==> n == 0 || end <= |src.data|)
            && (slow.Done? ==> slow.at.pos == end)
    decreases n
  {
    if n != 0 {
      var w := ItemWidth(t).value;
      assert n * w == w + (n - 1) * w && 0 <= (n - 1) * w;
      var first := ReadValue(x, src, c, t);
      assert first.Done? <==> c.pos + w <= |src.data|;
      if first.Done? {
        assert first.at == Cursor(c.pos + w, c.pos + w);
        SlowSkip(x, src, first.at, t, n - 1);
      }
    }
  }

  /** The seek fails exactly when the end of the payload is out of reach: as invalid data
      beyond 64 bits, as a failed seek beyond the stream's limit. */
  lemma SeekReach(src: Source, c: Cursor, count: nat, w: nat)
    requires src.seekLimit <= U64_MAX
    ensures var end := c.pos + count * w;
            var fast := SeekOver(src, c, count, w);
            && (fast.Done? <==> end <= src.seekLimit)
            && (fast.Fail? && fast.error in {ArrayLengthOverflow, ArrayEndOverflow} <==> end > U64_MAX)
  {
  }

  /** Fast skip refines slow skip: when the payload lies in an addressable stream both succeed
      at the same position, and whenever the slow one succeeds so does the fast one. */
  lemma FastSkipRefinesSlowSkip(x: Text, src: Source, c: Cursor, t: nat, count: nat)
    requires Addressable(src) && Sound(src, c) && c.pos <= |src.data| && ItemWidth(t).Some?
    ensures var fast := SkipPayload(x, src, c, t, count);
            var slow := SkipItems(x, src, c, t, count);
            && (slow.Done? <==> c.pos + count * ItemWidth(t).value <= |src.data|)
            && (slow.Done? ==> fast.Done? && fast.value == slow.value && fast.at.pos == slow.at.pos)
  {
    SlowSkip(x, src, c, t, count);
    SeekReach(src, c, count, ItemWidth(t).value);
  }
}
