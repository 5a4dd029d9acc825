/** No partial metadata: a parse depends on exactly the bytes it touched, so cutting or
    extending the stream either fails the parse or leaves its result alone. */
module GgufPrefix {
  import opened Bytes
  import opened Gguf

  /** Two streams that share their first `k` bytes. */
  ghost predicate Agree(a: Source, b: Source, k: nat)
  {
    k <= |a.data| && k <= |b.data| && a.data[..k] == b.data[..k] && a.seekLimit == b.seekLimit
  }

  lemma AgreeLess(a: Source, b: Source, k: nat, j: nat)
    requires Agree(a, b, k) && j <= k
    ensures Agree(a, b, j)
  {
    assert a.data[..j] == a.data[..k][..j];
    assert b.data[..j] == b.data[..k][..j];
  }

  lemma TakeLocal(a: Source, b: Source, c: Cursor, n: nat)
    requires Sound(a, c) && Take(a, c, n).Done? && Agree(a, b, Take(a, c, n).at.touched)
    ensures Sound(b, c) && Take(b, c, n) == Take(a, c, n)
  {
    if n != 0 {
      var k := c.pos + n;
      assert a.data[c.pos..k] == a.data[..k][c.pos..];
      assert b.data[c.pos..k] == b.data[..k][c.pos..];
    }
  }

  lemma StringLocal(x: Text, a: Source, b: Source, c: Cursor)
    requires Sound(a, c) && TakeString(x, a, c).Done? && Agree(a, b, TakeString(x, a, c).at.touched)
    ensures Sound(b, c) && TakeString(x, b, c) == TakeString(x, a, c)
  {
    var len := TakeUnsigned(a, c, 8);
    AgreeLess(a, b, TakeString(x, a, c).at.touched, len.at.touched);
    TakeLocal(a, b, c, 8);
    TakeLocal(a, b, len.at, len.value);
  }

  lemma {:induction false} ValueLocal(x: Text, a: Source, b: Source, c: Cursor, t: nat)
    requires Sound(a, c) && ReadValue(x, a, c, t).Done? && Agree(a, b, ReadValue(x, a, c, t).at.touched)
    ensures Sound(b, c) && ReadValue(x, b, c, t) == ReadValue(x, a, c, t)
    decreases Left(a, c), 0, 0
  {
    var k := ReadValue(x, a, c, t).at.touched;
    if t == STRING {
      StringLocal(x, a, b, c);
    } else if t == ARRAY {
      var itemType := TakeUnsigned(a, c, 4);
      var count := TakeUnsigned(a, itemType.at, 8);
      AgreeLess(a, b, k, itemType.at.touched);
      AgreeLess(a, b, k, count.at.touched);
      TakeLocal(a, b, c, 4);
      TakeLocal(a, b, itemType.at, 8);
      if ItemWidth(itemType.value).None? {
        ItemsLocal(x, a, b, count.at, itemType.value, Min(count.value, MAX_SKIP));
      }
    } else {
      TakeLocal(a, b, c, ItemWidth(t).value);
    }
  }

  lemma {:induction false} ItemsLocal(x: Text, a: Source, b: Source, c: Cursor, t: nat, n: nat)
    requires Sound(a, c) && SkipItems(x, a, c, t, n).Done? && Agree(a, b, SkipItems(x, a, c, t, n).at.touched)
    ensures Sound(b, c) && SkipItems(x, b, c, t, n) == SkipItems(x, a, c, t, n)
    decreases Left(a, c), 1, n
  {
    if n == 0 {
    } else {
      var first := ReadValue(x, a, c, t);
      AgreeLess(a, b, SkipItems(x, a, c, t, n).at.touched, first.at.touched);
      ValueLocal(x, a, b, c, t);
      ItemsLocal(x, a, b, first.at, t, n - 1);
    }
  }

  lemma PairLocal(x: Text, a: Source, b: Source, c: Cursor)
    requires Sound(a, c) && ReadPair(x, a, c).Done? && Agree(a, b, ReadPair(x, a, c).at.touched)
    ensures Sound(b, c) && ReadPair(x, b, c) == ReadPair(x, a, c)
  {
    var k := ReadPair(x, a, c).at.touched;
    var key := TakeString(x, a, c);
    var t := TakeUnsigned(a, key.at, 4);
    AgreeLess(a, b, k, key.at.touched);
    AgreeLess(a, b, k, t.at.touched);
    StringLocal(x, a, b, c);
    TakeLocal(a, b, key.at, 4);
    ValueLocal(x, a, b, t.at, t.value);
  }

  lemma {:induction false} PairsLocal(x: Text, a: Source, b: Source, c: Cursor, n: nat)
    requires Sound(a, c) && ReadPairs(x, a, c, n).Done? && Agree(a, b, ReadPairs(x, a, c, n).at.touched)
    ensures Sound(b, c) && ReadPairs(x, b, c, n) == ReadPairs(x, a, c, n)
    decreases n
  {
    if n == 0 {
    } else {
      var first := ReadPair(x, a, c);
      AgreeLess(a, b, ReadPairs(x, a, c, n).at.touched, first.at.touched);
      PairLocal(x, a, b, c);
      PairsLocal(x, a, b, first.at, n - 1);
    }
  }

  /** A successful parse is repeated, result and cursor alike, on every stream that starts
      with the bytes it touched. */
  lemma HeaderLocal(x: Text, a: Source, b: Source)
    requires ReadHeader(x, a).Done? && Agree(a, b, ReadHeader(x, a).at.touched)
    ensures ReadHeader(x, b) == ReadHeader(x, a)
  {
    var k := ReadHeader(x, a).at.touched;
    var c0 := Cursor(4, 4);
    var c1, c2, c3 := Cursor(8, 8), Cursor(16, 16), Cursor(24, 24);
    AgreeLess(a, b, k, 4);
    AgreeLess(a, b, k, 8);
    AgreeLess(a, b, k, 16);
    AgreeLess(a, b, k, 24);
    TakeLocal(a, b, Cursor(0, 0), 4);
    TakeLocal(a, b, c0, 4);
    TakeLocal(a, b, c1, 8);
    TakeLocal(a, b, c2, 8);
    PairsLocal(x, a, b, c3, TakeUnsigned(a, c2, 8).value);
  }

  /** Extension: bytes after a header never change what it parses to. */
  lemma ExtensionStable(x: Text, src: Source, more: seq<byte>)
    requires ReadHeader(x, src).Done?
    ensures ReadHeader(x, src.(data := src.data + more)) == ReadHeader(x, src)
  {
    var k := ReadHeader(x, src).at.touched;
    assert (src.data + more)[..k] == src.data[..k];
    HeaderLocal(x, src, src.(data := src.data + more));
  }

  lemma PrefixAgrees(src: Source, k: nat, j: nat)
    requires j <= k <= |src.data|
    ensures Agree(src, src.(data := src.data[..k]), j)
    ensures Agree(src.(data := src.data[..k]), src, j)
  {
    assert src.data[..k][..j] == src.data[..j];
  }

  /** Truncation: a prefix of an accepted stream is accepted exactly when it holds every
      touched byte, and then it parses to the same metadata. */
  lemma TruncationExact(x: Text, src: Source, k: nat)
    requires ReadHeader(x, src).Done? && k <= |src.data|
    ensures var cut := ReadHeader(x, src.(data := src.data[..k]));
            && (cut.Done? <==> ReadHeader(x, src).at.touched <= k)
            && (cut.Done? ==> cut == ReadHeader(x, src))
  {
    var cut := src.(data := src.data[..k]);
    var whole, part := ReadHeader(x, src), ReadHeader(x, cut);
    if whole.at.touched <= k {
      PrefixAgrees(src, k, whole.at.touched);
      HeaderLocal(x, src, cut);
    } else if part.Done? {
      PrefixAgrees(src, k, part.at.touched);
      HeaderLocal(x, cut, src);
    }
  }
}
