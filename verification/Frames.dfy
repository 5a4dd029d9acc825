/** Splitting a byte stream on NUL. */
module Frames {
  import opened Bytes

  /** The position of the first NUL, or the length when there is none. */
  function FirstNul(b: seq<byte>): (p: nat)
    ensures p <= |b| && 0 !in b[..p] && (p < |b| ==> b[p] == 0)
  {
    if b == [] || b[0] == 0 then 0 else 1 + FirstNul(b[1..])
  }

  lemma {:induction false} FirstNulIs(head: seq<byte>, rest: seq<byte>)
    requires 0 !in head
    ensures FirstNul(head + ([0] + rest)) == |head|
    decreases |head|
  {
    if head == [] {
      assert head + ([0] + rest) == [0] + rest;
    } else {
      FirstNulIs(head[1..], rest);
      assert (head + ([0] + rest))[1..] == head[1..] + ([0] + rest);
    }
  }

  lemma {:induction false} NoNul(b: seq<byte>)
    requires 0 !in b
    ensures FirstNul(b) == |b|
    decreases |b|
  {
    if b != [] {
      NoNul(b[1..]);
    }
  }

  lemma {:induction false} FirstNulLeast(b: seq<byte>, j: nat)
    requires j < |b| && b[j] == 0
    ensures FirstNul(b) <= j
    decreases |b|
  {
    if b[0] != 0 {
      FirstNulLeast(b[1..], j - 1);
    }
  }

  lemma Assoc<T>(a: seq<T>, b: seq<T>, c: seq<T>)
    ensures a + (b + c) == a + b + c
  {
  }

  /** The payloads of the complete frames. */
  function Complete(b: seq<byte>): seq<seq<byte>>
    decreases |b|
  {
    var p := FirstNul(b);
    if p == |b| then [] else [b[..p]] + Complete(b[p + 1..])
  }

  /** What follows the last NUL. */
  function Tail(b: seq<byte>): seq<byte>
    decreases |b|
  {
    var p := FirstNul(b);
    if p == |b| then b else Tail(b[p + 1..])
  }

  /** The wire form of a list of payloads. */
  function Join(frames: seq<seq<byte>>): seq<byte>
    decreases |frames|
  {
    if frames == [] then [] else frames[0] + [0] + Join(frames[1..])
  }

  /** A stream is one frame and more, or has no NUL at all. */
  lemma Head(b: seq<byte>) returns (head: seq<byte>, rest: seq<byte>)
    requires FirstNul(b) < |b|
    ensures 0 !in head && b == head + ([0] + rest) && |rest| < |b|
    ensures Complete(b) == [head] + Complete(rest) && Tail(b) == Tail(rest)
  {
    head, rest := b[..FirstNul(b)], b[FirstNul(b) + 1..];
  }

  lemma OneMore(head: seq<byte>, rest: seq<byte>)
    requires 0 !in head
    ensures Complete(head + ([0] + rest)) == [head] + Complete(rest)
    ensures Tail(head + ([0] + rest)) == Tail(rest)
  {
    FirstNulIs(head, rest);
    var b := head + ([0] + rest);
    assert b[..|head|] == head && b[|head| + 1..] == rest;
  }

  lemma JoinOneMore(head: seq<byte>, frames: seq<seq<byte>>)
    ensures Join([head] + frames) == head + ([0] + Join(frames))
  {
    assert ([head] + frames)[1..] == frames;
    Assoc(head, [0], Join(frames));
  }

  lemma Regroup(head: seq<byte>, a: seq<byte>, b: seq<byte>)
    ensures head + ([0] + a) + b == head + ([0] + (a + b))
  {
  }

  /** Cutting up a stream loses nothing. */
  lemma {:induction false} CutJoins(b: seq<byte>)
    ensures Join(Complete(b)) + Tail(b) == b
    decreases |b|
  {
    if FirstNul(b) == |b| {
      assert [] + b == b;
    } else {
      var head, rest := Head(b);
      CutJoins(rest);
      JoinOneMore(head, Complete(rest));
      Regroup(head, Join(Complete(rest)), Tail(rest));
    }
  }

  /** No payload and no tail has a NUL inside. */
  lemma {:induction false} CutNulFree(b: seq<byte>)
    ensures 0 !in Tail(b) && forall f | f in Complete(b) :: 0 !in f
    decreases |b|
  {
    if FirstNul(b) < |b| {
      var head, rest := Head(b);
      CutNulFree(rest);
    } else {
      assert b[..|b|] == b;
    }
  }

  /** Frames without a NUL inside come back as they were sent, whatever follows. */
  lemma {:induction false} JoinCuts(frames: seq<seq<byte>>, after: seq<byte>)
    requires forall f | f in frames :: 0 !in f
    ensures Complete(Join(frames) + after) == frames + Complete(after)
    ensures Tail(Join(frames) + after) == Tail(after)
    decreases |frames|
  {
    if frames == [] {
      assert Join(frames) + after == after && frames + Complete(after) == Complete(after);
    } else {
      var head, rest := frames[0], frames[1..];
      JoinCuts(rest, after);
      JoinOneMore(head, rest);
      assert frames == [head] + rest;
      assert Join(frames) + after == head + ([0] + (Join(rest) + after));
      OneMore(head, Join(rest) + after);
      Assoc([head], rest, Complete(after));
    }
  }

  /** Bytes that arrive later continue the tail; frames already complete stay as they are. */
  lemma {:induction false} CutAppend(a: seq<byte>, b: seq<byte>)
    ensures Complete(a + b) == Complete(a) + Complete(Tail(a) + b)
    ensures Tail(a + b) == Tail(Tail(a) + b)
    decreases |a|
  {
    if FirstNul(a) == |a| {
      assert [] + Complete(a + b) == Complete(a + b);
    } else {
      var head, rest := Head(a);
      CutAppend(rest, b);
      Regroup(head, rest, b);
      OneMore(head, rest + b);
      Assoc([head], Complete(rest), Complete(Tail(rest) + b));
    }
  }

  /** The tail is the end of the stream. */
  lemma TailEnds(b: seq<byte>)
    ensures |Tail(b)| <= |b| && b[|b| - |Tail(b)|..] == Tail(b)
  {
    CutJoins(b);
    assert (Join(Complete(b)) + Tail(b))[|Join(Complete(b))|..] == Tail(b);
  }

  lemma {:induction false} FrameInside(b: seq<byte>, f: seq<byte>)
    requires f in Complete(b)
    ensures |f| < |b|
    decreases |b|
  {
    if FirstNul(b) < |b| {
      var head, rest := Head(b);
      if f != head {
        FrameInside(rest, f);
      }
    }
  }

  // ----- Splitting a stream into reads

  function Flat(chunks: seq<seq<byte>>): seq<byte>
    decreases |chunks|
  {
    if chunks == [] then [] else chunks[0] + Flat(chunks[1..])
  }

  lemma {:induction false} FlatAppend(a: seq<seq<byte>>, b: seq<seq<byte>>)
    ensures Flat(a + b) == Flat(a) + Flat(b)
    decreases |a|
  {
    if a == [] {
      assert a + b == b;
    } else {
      FlatAppend(a[1..], b);
      assert (a + b)[1..] == a[1..] + b;
    }
  }

  lemma FlatOne(chunk: seq<byte>)
    ensures Flat([chunk]) == chunk
  {
  }

  lemma FlatAround(before: seq<seq<byte>>, chunk: seq<byte>, after: seq<seq<byte>>)
    ensures Flat(before + [chunk]) == Flat(before) + chunk
    ensures Flat(before + [chunk] + after) == Flat(before) + chunk + Flat(after)
  {
    FlatOne(chunk);
    FlatAppend(before, [chunk]);
    FlatAppend(before + [chunk], after);
  }

  lemma CutAround<T>(s: seq<T>, k: nat)
    requires k < |s|
    ensures s[..k + 1] == s[..k] + [s[k]]
    ensures s == s[..k] + [s[k]] + s[k + 1..]
  {
  }

  /** The next read follows the bytes of the first `k`. */
  lemma FlatPrefix(chunks: seq<seq<byte>>, k: nat)
    requires k < |chunks|
    ensures Flat(chunks[..k + 1]) == Flat(chunks[..k]) + chunks[k]
    ensures Flat(chunks) == Flat(chunks[..k]) + chunks[k] + Flat(chunks[k + 1..])
  {
    CutAround(chunks, k);
    FlatAround(chunks[..k], chunks[k], chunks[k + 1..]);
  }

  /** Reads of at least one and at most `most` bytes. */
  predicate Reads(chunks: seq<seq<byte>>, most: nat)
  {
    forall i | 0 <= i < |chunks| :: 0 < |chunks[i]| <= most
  }

  /** The split into reads of a single byte. */
  function Singles(b: seq<byte>): seq<seq<byte>>
  {
    if b == [] then [] else [[b[0]]] + Singles(b[1..])
  }

  lemma {:induction false} SinglesSplit(b: seq<byte>, most: nat)
    requires 0 < most
    ensures Reads(Singles(b), most) && Flat(Singles(b)) == b && |Singles(b)| == |b|
    decreases |b|
  {
    if b != [] {
      SinglesSplit(b[1..], most);
      assert Singles(b)[1..] == Singles(b[1..]);
    }
  }

  lemma ReadsAppend(a: seq<seq<byte>>, b: seq<seq<byte>>, most: nat)
    requires Reads(a, most) && Reads(b, most)
    ensures Reads(a + b, most)
  {
  }

  lemma CutInThree(input: seq<byte>, from: nat, to: nat)
    requires from <= to <= |input|
    ensures input == input[..from] + input[from..to] + input[to..]
  {
  }

  /** A split of `input` in which one read is exactly `input[from..to]`; `k` is its index. */
  lemma SplitAround(input: seq<byte>, from: nat, to: nat, most: nat) returns (chunks: seq<seq<byte>>, k: nat)
    requires from < to <= |input| && to - from <= most
    ensures Reads(chunks, most) && Flat(chunks) == input
    ensures k < |chunks| && chunks[k] == input[from..to] && Flat(chunks[..k]) == input[..from]
  {
    var before, mid, after := Singles(input[..from]), input[from..to], Singles(input[to..]);
    SinglesSplit(input[..from], most);
    SinglesSplit(input[to..], most);
    k := |before|;
    chunks := before + [mid] + after;
    ReadsAppend(before, [mid], most);
    ReadsAppend(before + [mid], after, most);
    FlatAround(before, mid, after);
    CutInThree(input, from, to);
    assert chunks[..k] == before;
  }
}
