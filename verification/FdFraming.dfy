/** How the descriptor server reads its one request: up to the first NUL, with a cap that is looked at
    only while there is none. */
module FdFraming {
  import opened Bytes
  import opened Frames

  const MAX_REQUEST: nat := 64 * 1024
  const CHUNK_BYTES: nat := 4096

  datatype Request = Frame(payload: seq<byte>) | EndOfStream | TooLong

  /** After `k` reads there is no NUL and too much without one. */
  predicate LongBy(chunks: seq<seq<byte>>, k: nat)
  {
    k <= |chunks| && 0 !in Flat(chunks[..k]) && |Flat(chunks[..k])| > MAX_REQUEST
  }

  ghost predicate Grows(chunks: seq<seq<byte>>)
  {
    exists k: nat :: LongBy(chunks, k)
  }

  lemma NotLongPrefix(chunks: seq<seq<byte>>, i: nat, k: nat)
    requires i <= k <= |chunks| && 0 !in Flat(chunks[..k]) && |Flat(chunks[..k])| <= MAX_REQUEST
    ensures !LongBy(chunks, i)
  {
    Prefixes(chunks, i, k);
  }

  lemma {:induction false} Prefixes(chunks: seq<seq<byte>>, i: nat, k: nat)
    requires i <= k <= |chunks|
    ensures Flat(chunks[..i]) <= Flat(chunks[..k]) <= Flat(chunks)
    ensures |Flat(chunks[..k])| >= |Flat(chunks[..i])|
  {
    assert chunks[..k] == chunks[..i] + chunks[i..k];
    FlatAppend(chunks[..i], chunks[i..k]);
    assert chunks == chunks[..k] + chunks[k..];
    FlatAppend(chunks[..k], chunks[k..]);
  }

  /** The read loop on a stream that ends after `chunks`. It returns the first frame of the stream
      unless too much came before the NUL was seen. */
  method ReadFramedRequest(chunks: seq<seq<byte>>) returns (r: Request)
    requires Reads(chunks, CHUNK_BYTES)
    ensures r.TooLong? <==> Grows(chunks)
    ensures r.EndOfStream? <==> 0 !in Flat(chunks) && !Grows(chunks)
    ensures r.Frame? ==> Complete(Flat(chunks)) != [] && r.payload == Complete(Flat(chunks))[0]
  {
    var scratch: seq<byte> := [];
    for i := 0 to |chunks|
      invariant scratch == Flat(chunks[..i]) && 0 !in scratch && |scratch| <= MAX_REQUEST
    {
      FlatPrefix(chunks, i);
      scratch := scratch + chunks[i];
      var nul := FirstNul(scratch);
      if nul < |scratch| {
        FirstFrame(scratch, Flat(chunks[i + 1..]));
        NotGrown(chunks, i);
        return Frame(scratch[..nul]);
      }
      assert scratch[..nul] == scratch;
      if |scratch| > MAX_REQUEST {
        assert LongBy(chunks, i + 1);
        return TooLong;
      }
    }
    assert chunks[..|chunks|] == chunks;
    forall k: nat | k <= |chunks| ensures !LongBy(chunks, k) {
      NotLongPrefix(chunks, k, |chunks|);
    }
    return EndOfStream;
  }

  lemma FirstFrame(scratch: seq<byte>, after: seq<byte>)
    requires FirstNul(scratch) < |scratch|
    ensures var input := scratch + after;
            && 0 in input && Complete(input) != [] && Complete(input)[0] == scratch[..FirstNul(scratch)]
  {
    var head, rest := Head(scratch);
    Regroup(head, rest, after);
    OneMore(head, rest + after);
    assert scratch[..FirstNul(scratch)] == head;
    assert (scratch + after)[|head|] == 0;
  }

  /** The NUL came with the read after a short prefix. */
  lemma NotGrown(chunks: seq<seq<byte>>, i: nat)
    requires i < |chunks| && 0 !in Flat(chunks[..i]) && |Flat(chunks[..i])| <= MAX_REQUEST
    requires 0 in Flat(chunks[..i + 1])
    ensures !Grows(chunks)
  {
    forall k: nat | k <= |chunks| ensures !LongBy(chunks, k) {
      if k <= i {
        NotLongPrefix(chunks, k, i);
      } else {
        Prefixes(chunks, i + 1, k);
      }
    }
  }

  /** A request gets through however it is cut up iff it has at most 64 KiB. */
  lemma EverySplitAccepts(input: seq<byte>)
    requires 0 in input
    ensures (forall chunks | Reads(chunks, CHUNK_BYTES) && Flat(chunks) == input :: !Grows(chunks))
            <==> FirstNul(input) <= 65536
  {
    if FirstNul(input) <= MAX_REQUEST {
      forall chunks, k: nat | Reads(chunks, CHUNK_BYTES) && Flat(chunks) == input && k <= |chunks|
        ensures !LongBy(chunks, k)
      {
        ShortWithoutNul(input, chunks, k);
      }
    } else {
      LongRefused(input);
    }
  }

  /** Byte by byte, a longer request is refused. */
  lemma LongRefused(input: seq<byte>)
    requires FirstNul(input) > MAX_REQUEST
    ensures Reads(Singles(input), CHUNK_BYTES) && Flat(Singles(input)) == input && Grows(Singles(input))
  {
    var k := MAX_REQUEST + 1;
    SinglesSplit(input, CHUNK_BYTES);
    SinglesPrefix(input, k);
    assert input[..k] == input[..FirstNul(input)][..k];
    assert LongBy(Singles(input), k);
  }

  lemma {:induction false} SinglesPrefix(input: seq<byte>, k: nat)
    requires k <= |input|
    ensures |Singles(input)| == |input| && Flat(Singles(input)[..k]) == input[..k]
    decreases |input|
  {
    SinglesSplit(input, 1);
    if k > 0 {
      SinglesPrefix(input[1..], k - 1);
      assert Singles(input)[..k][1..] == Singles(input[1..])[..k - 1];
      assert input[..k] == [input[0]] + input[1..][..k - 1];
    }
  }

  lemma ShortWithoutNul(input: seq<byte>, chunks: seq<seq<byte>>, k: nat)
    requires Flat(chunks) == input && k <= |chunks| && FirstNul(input) < |input|
    ensures 0 !in Flat(chunks[..k]) ==> |Flat(chunks[..k])| <= FirstNul(input)
  {
    Prefixes(chunks, k, k);
    var nul := FirstNul(input);
    if nul < |Flat(chunks[..k])| {
      assert Flat(chunks[..k])[nul] == input[nul] == 0;
    }
  }

  /** It can get through at all iff it is shorter than 64 KiB plus one read of 4 KiB. */
  lemma SomeSplitAccepts(input: seq<byte>)
    requires 0 in input
    ensures (exists chunks :: Reads(chunks, 4096) && Flat(chunks) == input && !Grows(chunks))
            <==> FirstNul(input) < 65536 + 4096
  {
    var nul := FirstNul(input);
    if nul < MAX_REQUEST + CHUNK_BYTES {
      assert input[..|input|] == input;
      var from := if nul < MAX_REQUEST then nul else MAX_REQUEST;
      var chunks, i := SplitAround(input, from, nul + 1, CHUNK_BYTES);
      FlatPrefix(chunks, i);
      assert input[..from] == input[..nul][..from];
      assert input[from..nul + 1][nul - from] == 0;
      NotGrown(chunks, i);
    }
    forall chunks | Reads(chunks, CHUNK_BYTES) && Flat(chunks) == input && !Grows(chunks)
      ensures nul < MAX_REQUEST + CHUNK_BYTES
    {
      assert chunks[..|chunks|] == chunks;
      var i := NulArrives(input, chunks, |chunks|);
      assert !LongBy(chunks, i);
    }
  }

  /** The read that brings the first NUL. */
  lemma {:induction false} NulArrives(input: seq<byte>, chunks: seq<seq<byte>>, k: nat) returns (i: nat)
    requires Flat(chunks) == input && k <= |chunks| && 0 in Flat(chunks[..k])
    ensures i < |chunks| && 0 !in Flat(chunks[..i])
    ensures |Flat(chunks[..i])| <= FirstNul(input) < |Flat(chunks[..i])| + |chunks[i]|
    decreases k
  {
    Prefixes(chunks, k - 1, k);
    if 0 in Flat(chunks[..k - 1]) {
      i := NulArrives(input, chunks, k - 1);
    } else {
      i := k - 1;
      FlatPrefix(chunks, i);
      var p := Flat(chunks[..k]);
      var j :| 0 <= j < |p| && p[j] == 0;
      FirstNulLeast(input, j);
      ShortWithoutNul(input, chunks, i);
    }
  }
}
