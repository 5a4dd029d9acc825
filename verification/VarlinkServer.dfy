/** The daemon's connection loop: reads of bounded size are reassembled into NUL-terminated frames,
    each of which gets one reply. */
module VarlinkServer {
  import opened Wrappers
  import opened Bytes
  import opened Frames

  const MAX_MSG_BYTES: nat := 1024 * 1024
  const READ_BYTES: nat := 1024

  /** What the loop calls: a JSON parser, the method dispatcher, the reply to a frame that does not
      parse, the reply to a peer that sends too much, and a JSON serializer that may fail. */
  datatype Service<!S, !C, !R> = Service(
    parse: seq<byte> -> Result<C, string>,
    dispatch: (S, C) -> (S, R),
    invalid: string -> R,
    tooLong: R,
    serialize: R -> Option<seq<byte>>)
  {
    function Payload(reply: R): seq<byte>
    {
      match serialize(reply)
      case Some(bytes) => bytes
      case None => [123, 125]
    }

    function ToBytes(reply: R): seq<byte>
    {
      Payload(reply) + [0]
    }

    function Answer(s: S, payload: seq<byte>): (S, R)
    {
      match parse(payload)
      case Ok(call) => dispatch(s, call)
      case Err(reason) => (s, invalid(reason))
    }
  }

  // ----- The meaning of a stream: its frames, answered one after the other

  function Serve<S, C, R>(sv: Service<S, C, R>, s: S, frames: seq<seq<byte>>): (r: (S, seq<R>))
    ensures |r.1| == |frames|
    decreases |frames|
  {
    if frames == [] then (s, [])
    else
      var (s', reply) := sv.Answer(s, frames[0]);
      var (s'', replies) := Serve(sv, s', frames[1..]);
      (s'', [reply] + replies)
  }

  /** The bytes written for a list of replies. */
  function Sent<S, C, R>(sv: Service<S, C, R>, replies: seq<R>): seq<byte>
    decreases |replies|
  {
    if replies == [] then [] else sv.ToBytes(replies[0]) + Sent(sv, replies[1..])
  }

  lemma {:induction false} ServeAppend<S, C, R>(sv: Service<S, C, R>, s: S, a: seq<seq<byte>>, b: seq<seq<byte>>)
    ensures Serve(sv, s, a + b).0 == Serve(sv, Serve(sv, s, a).0, b).0
    ensures Serve(sv, s, a + b).1 == Serve(sv, s, a).1 + Serve(sv, Serve(sv, s, a).0, b).1
    decreases |a|
  {
    if a == [] {
      assert a + b == b;
    } else {
      assert (a + b)[1..] == a[1..] + b;
      ServeAppend(sv, sv.Answer(s, a[0]).0, a[1..], b);
    }
  }

  lemma {:induction false} SentAppend<S, C, R>(sv: Service<S, C, R>, a: seq<R>, b: seq<R>)
    ensures Sent(sv, a + b) == Sent(sv, a) + Sent(sv, b)
    decreases |a|
  {
    if a == [] {
      assert a + b == b;
    } else {
      assert (a + b)[1..] == a[1..] + b;
      SentAppend(sv, a[1..], b);
    }
  }

  /** A frame that does not parse gets its one reply and changes nothing for the others. */
  lemma MalformedFrameSkipped<S, C, R>(sv: Service<S, C, R>, s: S, a: seq<seq<byte>>, bad: seq<byte>, b: seq<seq<byte>>)
    requires sv.parse(bad).Err?
    ensures Serve(sv, s, a + [bad] + b).0 == Serve(sv, s, a + b).0
    ensures var replies := Serve(sv, s, a + [bad] + b).1;
            && replies[|a|] == sv.invalid(sv.parse(bad).error)
            && replies[..|a|] + replies[|a| + 1..] == Serve(sv, s, a + b).1
  {
    var s' := Serve(sv, s, a).0;
    ServeAppend(sv, s, a, b);
    Assoc(a, [bad], b);
    ServeAppend(sv, s, a, [bad] + b);
    assert ([bad] + b)[1..] == b;
  }

  /** What the `i`-th frame gets: the reply of its call in the state the frames before it left, or the
      reply to a frame that does not parse; on the wire that is the reply's text, or an empty object
      when it cannot be serialized, and a NUL. */
  lemma EachAnswered<S, C, R>(sv: Service<S, C, R>, s: S, frames: seq<seq<byte>>, i: nat)
    requires i < |frames|
    ensures var before, after := Serve(sv, s, frames[..i]), Serve(sv, s, frames[..i + 1]);
            var reply := Serve(sv, s, frames).1[i];
            && (match sv.parse(frames[i])
                case Ok(call) => (after.0, reply) == sv.dispatch(before.0, call)
                case Err(reason) => after.0 == before.0 && reply == sv.invalid(reason))
            && Sent(sv, after.1)
               == Sent(sv, before.1)
                  + (match sv.serialize(reply) case Some(text) => text + [0] case None => [123, 125, 0])
  {
    var before := Serve(sv, s, frames[..i]);
    ServeAt(sv, s, frames, i);
    SentAppend(sv, before.1, [sv.Answer(before.0, frames[i]).1]);
    SentOne(sv, sv.Answer(before.0, frames[i]).1);
  }

  lemma ServeAt<S, C, R>(sv: Service<S, C, R>, s: S, frames: seq<seq<byte>>, i: nat)
    requires i < |frames|
    ensures var before := Serve(sv, s, frames[..i]);
            var (s', reply) := sv.Answer(before.0, frames[i]);
            Serve(sv, s, frames[..i + 1]) == (s', before.1 + [reply]) && Serve(sv, s, frames).1[i] == reply
  {
    var before, one := frames[..i], [frames[i]];
    assert frames[..i + 1] == before + one && frames == frames[..i + 1] + frames[i + 1..];
    ServeAppend(sv, s, before, one);
    ServeSingle(sv, Serve(sv, s, before).0, frames[i]);
    ServeAppend(sv, s, frames[..i + 1], frames[i + 1..]);
  }

  lemma ServeSingle<S, C, R>(sv: Service<S, C, R>, s: S, request: seq<byte>)
    ensures Serve(sv, s, [request]) == (sv.Answer(s, request).0, [sv.Answer(s, request).1])
  {
    var (s', reply) := sv.Answer(s, request);
    assert Serve(sv, s', []) == (s', []);
    assert [reply] + [] == [reply] && [request][1..] == [];
  }

  lemma SentOne<S, C, R>(sv: Service<S, C, R>, reply: R)
    ensures Sent(sv, [reply]) == sv.ToBytes(reply)
  {
    assert sv.ToBytes(reply) + [] == sv.ToBytes(reply);
  }

  // ----- The loop, one read at a time

  datatype End = Open | Closed | Aborted

  datatype Conn<S> = Conn(state: S, buffer: seq<byte>, sent: seq<byte>, end: End)

  /** Everything the complete frames of the buffer ask for. */
  function Drain<S, C, R>(sv: Service<S, C, R>, c: Conn<S>): Conn<S>
  {
    var (s, replies) := Serve(sv, c.state, Complete(c.buffer));
    Conn(s, Tail(c.buffer), c.sent + Sent(sv, replies), c.end)
  }

  /** One read; an empty one is the end of the stream. */
  function Take<S, C, R>(sv: Service<S, C, R>, c: Conn<S>, chunk: seq<byte>): Conn<S>
  {
    if !c.end.Open? then c
    else if chunk == [] then c.(end := Closed)
    else
      var c' := c.(buffer := c.buffer + chunk);
      if |c'.buffer| > MAX_MSG_BYTES then c'.(sent := c'.sent + sv.ToBytes(sv.tooLong), end := Aborted)
      else Drain(sv, c')
  }

  function Run<S, C, R>(sv: Service<S, C, R>, c: Conn<S>, chunks: seq<seq<byte>>): Conn<S>
    decreases |chunks|
  {
    if chunks == [] then c else Take(sv, Run(sv, c, chunks[..|chunks| - 1]), chunks[|chunks| - 1])
  }

  lemma RunNext<S, C, R>(sv: Service<S, C, R>, c: Conn<S>, chunks: seq<seq<byte>>, k: nat)
    requires k < |chunks|
    ensures Run(sv, c, chunks[..k + 1]) == Take(sv, Run(sv, c, chunks[..k]), chunks[k])
  {
    assert chunks[..k + 1][..k] == chunks[..k];
  }

  /** A connection that has ended ignores what else was sent. */
  lemma {:induction false} EndedStays<S, C, R>(sv: Service<S, C, R>, c: Conn<S>, chunks: seq<seq<byte>>, k: nat)
    requires k <= |chunks| && !Run(sv, c, chunks[..k]).end.Open?
    ensures Run(sv, c, chunks) == Run(sv, c, chunks[..k])
    decreases |chunks| - k
  {
    if k == |chunks| {
      assert chunks[..k] == chunks;
    } else {
      RunNext(sv, c, chunks, k);
      EndedStays(sv, c, chunks, k + 1);
    }
  }

  function Fresh<S>(s: S): Conn<S>
  {
    Conn(s, [], [], Open)
  }

  /** The loop as it runs: the buffer is extended by each read and drained frame by frame. Between
      reads it holds no NUL and at most MAX_MSG_BYTES bytes. */
  method HandleClient<S, C, R>(sv: Service<S, C, R>, s: S, chunks: seq<seq<byte>>) returns (c: Conn<S>)
    requires forall i | 0 <= i < |chunks| :: |chunks[i]| <= READ_BYTES
    ensures c == Run(sv, Fresh(s), chunks)
    ensures |c.buffer| <= MAX_MSG_BYTES + READ_BYTES
    ensures !c.end.Aborted? ==> 0 !in c.buffer && |c.buffer| <= MAX_MSG_BYTES
  {
    c := HandleReads(sv, Fresh(s), chunks);
  }

  /** The same from any point between two reads. */
  method HandleReads<S, C, R>(sv: Service<S, C, R>, c0: Conn<S>, chunks: seq<seq<byte>>) returns (c: Conn<S>)
    requires forall i | 0 <= i < |chunks| :: |chunks[i]| <= READ_BYTES
    requires c0.end.Open? && 0 !in c0.buffer && |c0.buffer| <= MAX_MSG_BYTES
    ensures c == Run(sv, c0, chunks)
    ensures |c.buffer| <= MAX_MSG_BYTES + READ_BYTES
    ensures !c.end.Aborted? ==> 0 !in c.buffer && |c.buffer| <= MAX_MSG_BYTES
  {
    c := c0;
    for i := 0 to |chunks|
      invariant c == Run(sv, c0, chunks[..i]) && c.end.Open?
      invariant 0 !in c.buffer && |c.buffer| <= MAX_MSG_BYTES
    {
      RunNext(sv, c0, chunks, i);
      var chunk := chunks[i];
      if |chunk| == 0 {
        c := c.(end := Closed);
        EndedStays(sv, c0, chunks, i + 1);
        return;
      }
      var buffer := c.buffer + chunk;
      if |buffer| > MAX_MSG_BYTES {
        c := Conn(c.state, buffer, c.sent + sv.ToBytes(sv.tooLong), Aborted);
        EndedStays(sv, c0, chunks, i + 1);
        return;
      }
      c := DrainBuffer(sv, c.(buffer := buffer));
    }
    assert chunks[..|chunks|] == chunks;
  }

  /** The inner loop: takes frames off the front of the buffer until no NUL is left. */
  method DrainBuffer<S, C, R>(sv: Service<S, C, R>, c: Conn<S>) returns (c': Conn<S>)
    ensures c' == Drain(sv, c)
    ensures 0 !in c'.buffer && |c'.buffer| <= |c.buffer|
  {
    c' := c;
    var nul := FirstNul(c.buffer);
    while nul < |c'.buffer|
      invariant nul == FirstNul(c'.buffer) && |c'.buffer| <= |c.buffer|
      invariant Drain(sv, c') == Drain(sv, c)
      decreases |c'.buffer|
    {
      DrainOne(sv, c');
      var payload, rest := c'.buffer[..nul], c'.buffer[nul + 1..];
      match sv.parse(payload) {
        case Err(reason) =>
          c' := Conn(c'.state, rest, c'.sent + sv.ToBytes(sv.invalid(reason)), c'.end);
        case Ok(call) =>
          var (state, reply) := sv.dispatch(c'.state, call);
          c' := Conn(state, rest, c'.sent + sv.ToBytes(reply), c'.end);
      }
      nul := FirstNul(c'.buffer);
    }
    DrainNone(sv, c');
  }

  lemma DrainOne<S, C, R>(sv: Service<S, C, R>, c: Conn<S>)
    requires FirstNul(c.buffer) < |c.buffer|
    ensures var nul := FirstNul(c.buffer);
            var (s, reply) := sv.Answer(c.state, c.buffer[..nul]);
            Drain(sv, c) == Drain(sv, Conn(s, c.buffer[nul + 1..], c.sent + sv.ToBytes(reply), c.end))
  {
    var nul := FirstNul(c.buffer);
    var payload, rest := c.buffer[..nul], Complete(c.buffer[nul + 1..]);
    var (s, reply) := sv.Answer(c.state, payload);
    assert Serve(sv, c.state, [payload] + rest) == (Serve(sv, s, rest).0, [reply] + Serve(sv, s, rest).1) by {
      assert ([payload] + rest)[1..] == rest;
    }
    SentAppend(sv, [reply], Serve(sv, s, rest).1);
    SentOne(sv, reply);
    Assoc(c.sent, sv.ToBytes(reply), Sent(sv, Serve(sv, s, rest).1));
  }

  lemma DrainNone<S, C, R>(sv: Service<S, C, R>, c: Conn<S>)
    requires FirstNul(c.buffer) == |c.buffer|
    ensures Drain(sv, c) == c && 0 !in c.buffer
  {
    assert c.sent + [] == c.sent;
    assert c.buffer[..|c.buffer|] == c.buffer;
  }

  // ----- Chunking does not matter

  /** The connection after the whole of `input` was answered. */
  function Served<S, C, R>(sv: Service<S, C, R>, s: S, input: seq<byte>): Conn<S>
  {
    Drain(sv, Conn(s, input, [], Open))
  }

  /** The `k`-th read makes the buffer too long. */
  predicate Overflows(chunks: seq<seq<byte>>, k: nat)
  {
    k < |chunks| && |Tail(Flat(chunks[..k]))| + |chunks[k]| > MAX_MSG_BYTES
  }

  predicate Clean(chunks: seq<seq<byte>>)
  {
    Reads(chunks, READ_BYTES) && forall k | 0 <= k < |chunks| :: !Overflows(chunks, k)
  }

  lemma CleanPrefix(chunks: seq<seq<byte>>, k: nat)
    requires k <= |chunks| && Clean(chunks)
    ensures Clean(chunks[..k])
  {
    forall j | 0 <= j < k ensures !Overflows(chunks[..k], j) {
      assert !Overflows(chunks, j);
      assert chunks[..k][..j] == chunks[..j];
    }
  }

  /** Draining in two goes is draining at once. */
  lemma DrainTwice<S, C, R>(sv: Service<S, C, R>, s: S, a: seq<byte>, b: seq<byte>)
    ensures var c := Served(sv, s, a);
            Drain(sv, c.(buffer := c.buffer + b)) == Served(sv, s, a + b)
  {
    CutAppend(a, b);
    var fs, gs := Complete(a), Complete(Tail(a) + b);
    ServeAppend(sv, s, fs, gs);
    var s' := Serve(sv, s, fs).0;
    SentAppend(sv, Serve(sv, s, fs).1, Serve(sv, s', gs).1);
    Assoc([], Sent(sv, Serve(sv, s, fs).1), Sent(sv, Serve(sv, s', gs).1));
  }

  /** Reads that never overflow are answered like the stream they make up. */
  lemma {:induction false} CleanReadsServe<S, C, R>(sv: Service<S, C, R>, s: S, chunks: seq<seq<byte>>)
    requires Clean(chunks)
    ensures Run(sv, Fresh(s), chunks) == Served(sv, s, Flat(chunks))
    decreases |chunks|
  {
    if chunks == [] {
      assert Complete([]) == [] && Tail([]) == [];
    } else {
      var k := |chunks| - 1;
      CleanPrefix(chunks, k);
      CleanReadsServe(sv, s, chunks[..k]);
      assert !Overflows(chunks, k);
      TakeServes(sv, s, Flat(chunks[..k]), chunks[k]);
      FlatPrefix(chunks, k);
      assert chunks[..k + 1] == chunks;
    }
  }

  lemma TakeServes<S, C, R>(sv: Service<S, C, R>, s: S, before: seq<byte>, chunk: seq<byte>)
    requires chunk != [] && |Tail(before)| + |chunk| <= MAX_MSG_BYTES
    ensures Take(sv, Served(sv, s, before), chunk) == Served(sv, s, before + chunk)
  {
    DrainTwice(sv, s, before, chunk);
  }

  /** The first read that overflows ends the connection: what came complete before it was answered,
      nothing of that read is, and the protocol error is the last reply. */
  lemma OverflowAborts<S, C, R>(sv: Service<S, C, R>, s: S, chunks: seq<seq<byte>>, k: nat)
    requires Reads(chunks, READ_BYTES) && Overflows(chunks, k) && Clean(chunks[..k])
    ensures var c, done := Run(sv, Fresh(s), chunks), Served(sv, s, Flat(chunks[..k]));
            && c.end == Aborted && c.state == done.state
            && c.sent == done.sent + sv.ToBytes(sv.tooLong)
            && MAX_MSG_BYTES < |c.buffer| <= MAX_MSG_BYTES + READ_BYTES
  {
    CleanReadsServe(sv, s, chunks[..k]);
    CleanTail(chunks[..k]);
    RunNext(sv, Fresh(s), chunks, k);
    EndedStays(sv, Fresh(s), chunks, k + 1);
  }

  lemma {:induction false} CleanTail(chunks: seq<seq<byte>>)
    requires Clean(chunks)
    ensures |Tail(Flat(chunks))| <= MAX_MSG_BYTES
    decreases |chunks|
  {
    if chunks != [] {
      var k := |chunks| - 1;
      assert !Overflows(chunks, k);
      FlatPrefix(chunks, k);
      assert chunks[..k + 1] == chunks;
      CutAppend(Flat(chunks[..k]), chunks[k]);
      TailEnds(Tail(Flat(chunks[..k])) + chunks[k]);
    }
  }

  lemma {:induction false} CleanFramesShort(chunks: seq<seq<byte>>, f: seq<byte>)
    requires Clean(chunks) && f in Complete(Flat(chunks))
    ensures |f| < MAX_MSG_BYTES
    decreases |chunks|
  {
    if chunks != [] {
      var k := |chunks| - 1;
      var before := Flat(chunks[..k]);
      CleanPrefix(chunks, k);
      assert !Overflows(chunks, k);
      FlatPrefix(chunks, k);
      assert chunks[..k + 1] == chunks;
      CutAppend(before, chunks[k]);
      if f in Complete(before) {
        CleanFramesShort(chunks[..k], f);
      } else {
        FrameInside(Tail(before) + chunks[k], f);
      }
    }
  }

  /** Wherever the longest possible read, of 1024 bytes, starts, it fits into a buffer of 1 MiB behind
      what is pending there. */
  predicate Roomy(input: seq<byte>)
  {
    forall j | 0 <= j < |input| :: |Tail(input[..j])| + Min(1024, |input| - j) <= 1_048_576
  }

  /** The exact condition: every way of cutting the stream into reads is clean iff it is roomy. */
  lemma EverySplitClean(input: seq<byte>)
    ensures (forall chunks | Reads(chunks, 1024) && Flat(chunks) == input :: Clean(chunks)) <==> Roomy(input)
  {
    if Roomy(input) {
      forall chunks | Reads(chunks, READ_BYTES) && Flat(chunks) == input ensures Clean(chunks) {
        RoomyClean(input, chunks);
      }
    } else {
      var j :| 0 <= j < |input| && |Tail(input[..j])| + Min(READ_BYTES, |input| - j) > MAX_MSG_BYTES;
      var chunks, k := SplitAround(input, j, j + Min(READ_BYTES, |input| - j), READ_BYTES);
      assert Overflows(chunks, k);
    }
  }

  lemma RoomyClean(input: seq<byte>, chunks: seq<seq<byte>>)
    requires Roomy(input) && Reads(chunks, READ_BYTES) && Flat(chunks) == input
    ensures Clean(chunks)
  {
    forall k | 0 <= k < |chunks| ensures !Overflows(chunks, k) {
      FlatPrefix(chunks, k);
      var j := |Flat(chunks[..k])|;
      assert input[..j] == Flat(chunks[..k]);
      assert |chunks[k]| <= Min(READ_BYTES, |input| - j);
    }
  }

  /** No stretch of the stream without a NUL is longer than `n`. */
  predicate RunsAtMost(input: seq<byte>, n: nat)
  {
    forall i, j | 0 <= i <= j <= |input| && 0 !in input[i..j] :: j - i <= n
  }

  lemma ShortRunsRoomy(input: seq<byte>)
    requires RunsAtMost(input, MAX_MSG_BYTES - READ_BYTES)
    ensures Roomy(input)
  {
    forall j | 0 <= j < |input| ensures |Tail(input[..j])| <= MAX_MSG_BYTES - READ_BYTES {
      TailEnds(input[..j]);
      CutNulFree(input[..j]);
      var i := j - |Tail(input[..j])|;
      assert input[i..j] == input[..j][i..];
    }
  }

  /** The margin a client can rely on: a stream whose frames stay one read below the limit gets the
      same replies and leaves the same state however it arrives. */
  lemma ChunkingIndependent<S, C, R>(sv: Service<S, C, R>, s: S, input: seq<byte>, chunks: seq<seq<byte>>)
    requires RunsAtMost(input, MAX_MSG_BYTES - READ_BYTES)
    requires Reads(chunks, READ_BYTES) && Flat(chunks) == input
    ensures Run(sv, Fresh(s), chunks) == Served(sv, s, input)
  {
    ShortRunsRoomy(input);
    RoomyClean(input, chunks);
    CleanReadsServe(sv, s, chunks);
  }

  /** How many reads a connection takes in before one overflows. */
  ghost function CleanLength(chunks: seq<seq<byte>>): (k: nat)
    ensures k <= |chunks|
    decreases |chunks|
  {
    if chunks == [] then 0
    else
      var n := |chunks| - 1;
      var k := CleanLength(chunks[..n]);
      if k == n && !Overflows(chunks, n) then n + 1 else k
  }

  lemma {:induction false} CleanLengthIs(chunks: seq<seq<byte>>)
    requires Reads(chunks, READ_BYTES)
    ensures var k := CleanLength(chunks);
            Clean(chunks[..k]) && (k < |chunks| ==> Overflows(chunks, k))
    decreases |chunks|
  {
    if chunks != [] {
      var n := |chunks| - 1;
      var k := CleanLength(chunks[..n]);
      CleanLengthIs(chunks[..n]);
      assert chunks[..n][..k] == chunks[..k];
      if k == n && !Overflows(chunks, n) {
        assert chunks[..n + 1] == chunks;
        forall j | 0 <= j < |chunks| ensures !Overflows(chunks, j) {
          assert j < n ==> !Overflows(chunks[..n], j) && chunks[..n][..j] == chunks[..j];
        }
      }
    }
  }

  /** The frames of a connection that are answered, whatever it receives. */
  ghost function Answered(chunks: seq<seq<byte>>): seq<seq<byte>>
  {
    Complete(Flat(chunks[..CleanLength(chunks)]))
  }

  /** The end of the stream closes a connection that is still open; nothing more is written, and
      nothing behind it is looked at. */
  lemma EndOfStream<S, C, R>(sv: Service<S, C, R>, s: S, a: seq<seq<byte>>, b: seq<seq<byte>>)
    ensures var c := Run(sv, Fresh(s), a);
            Run(sv, Fresh(s), a + [[]] + b) == if c.end.Open? then c.(end := Closed) else c
  {
    var chunks, k := a + [[]] + b, |a|;
    assert chunks[..k] == a && chunks[k] == [];
    RunNext(sv, Fresh(s), chunks, k);
    EndedStays(sv, Fresh(s), chunks, k + 1);
  }

  /** Any list of reads is some reads of at least one byte, and then the end of the stream or nothing. */
  lemma {:induction false} UpToEnd(chunks: seq<seq<byte>>) returns (taken: seq<seq<byte>>, rest: seq<seq<byte>>)
    requires forall i | 0 <= i < |chunks| :: |chunks[i]| <= READ_BYTES
    ensures chunks == taken + rest && Reads(taken, READ_BYTES) && (rest == [] || rest[0] == [])
    decreases |chunks|
  {
    if chunks == [] || chunks[0] == [] {
      taken, rest := [], chunks;
    } else {
      taken, rest := UpToEnd(chunks[1..]);
      taken := [chunks[0]] + taken;
    }
  }

  /** Before the end of the stream. */
  lemma AllReads<S, C, R>(sv: Service<S, C, R>, s: S, taken: seq<seq<byte>>)
    requires Reads(taken, READ_BYTES)
    ensures var aborts := CleanLength(taken) < |taken|;
            var (s', replies) := Serve(sv, s, Answered(taken));
            var c := Run(sv, Fresh(s), taken);
            && c.state == s' && c.end == (if aborts then Aborted else Open)
            && c.sent == Sent(sv, replies) + (if aborts then sv.ToBytes(sv.tooLong) else [])
            && (!aborts ==> c.buffer == Tail(Flat(taken)))
  {
    var k := CleanLength(taken);
    CleanLengthIs(taken);
    var replies := Serve(sv, s, Answered(taken)).1;
    assert [] + Sent(sv, replies) == Sent(sv, replies) == Sent(sv, replies) + [];
    if k == |taken| {
      assert taken[..k] == taken;
      CleanReadsServe(sv, s, taken);
    } else {
      OverflowAborts(sv, s, taken, k);
    }
  }

  /** What any connection does: the frames that came complete before the first read that overflows
      get one reply each, in order; when there is such a read, the protocol error follows as the last
      reply and the connection is aborted; otherwise the end of the stream closes it without a word. */
  lemma EveryConnection<S, C, R>(sv: Service<S, C, R>, s: S, taken: seq<seq<byte>>, rest: seq<seq<byte>>)
    requires Reads(taken, READ_BYTES) && (rest == [] || rest[0] == [])
    ensures var aborts := CleanLength(taken) < |taken|;
            var (s', replies) := Serve(sv, s, Answered(taken));
            var c := Run(sv, Fresh(s), taken + rest);
            && c.state == s' && c.end == (if aborts then Aborted else if rest == [] then Open else Closed)
            && c.sent == Sent(sv, replies) + (if aborts then sv.ToBytes(sv.tooLong) else [])
            && (!aborts ==> c.buffer == Tail(Flat(taken)))
  {
    AllReads(sv, s, taken);
    if rest == [] {
      assert taken + rest == taken;
    } else {
      EndOfStream(sv, s, taken, rest[1..]);
      assert taken + rest == taken + [[]] + rest[1..];
    }
  }

  /** No frame of MAX_MSG_BYTES or more is ever answered, whatever the connection receives. */
  lemma LongFramesNeverServed(chunks: seq<seq<byte>>, f: seq<byte>)
    requires Reads(chunks, READ_BYTES) && f in Answered(chunks)
    ensures |f| < MAX_MSG_BYTES
  {
    CleanLengthIs(chunks);
    CleanFramesShort(chunks[..CleanLength(chunks)], f);
  }
}
