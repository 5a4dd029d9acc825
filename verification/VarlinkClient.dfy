/** The client's end of the socket, and the conversation the two ends have. */
module VarlinkClient {
  import opened Wrappers
  import opened Bytes
  import opened Frames
  import opened VarlinkServer

  const MAX_REPLY_BYTES: nat := 1024 * 1024

  datatype Failure = EndOfStream | TooLong

  /** The reply at the front of the received bytes, and the bytes left unread. */
  function ReplyFrom(incoming: seq<byte>): (Result<seq<byte>, Failure>, seq<byte>)
  {
    var nul := FirstNul(incoming);
    if nul > MAX_REPLY_BYTES then (Err(TooLong), incoming[MAX_REPLY_BYTES + 1..])
    else if nul < |incoming| then (Ok(incoming[..nul]), incoming[nul + 1..])
    else (Err(EndOfStream), [])
  }

  class VarlinkClient {
    var incoming: seq<byte>
    var outgoing: seq<byte>

    /** Writes one request. Whoever cuts the written bytes on NUL finds one more frame than before,
        the request behind what was pending, and nothing pending. */
    method Send(request: seq<byte>)
      modifies this`outgoing
      ensures outgoing == old(outgoing) + (request + [0])
      ensures 0 !in request ==> Complete(outgoing) == Complete(old(outgoing)) + [Tail(old(outgoing)) + request]
      ensures 0 !in request ==> Tail(outgoing) == []
    {
      var bytes := request + [0];
      if 0 !in request {
        SentFrame(outgoing, request);
      }
      outgoing := outgoing + bytes;
    }

    /** Reads one byte; None at the end of the stream. */
    method ReadByte() returns (b: Option<byte>)
      modifies this`incoming
      ensures b.None? <==> old(incoming) == []
      ensures b.None? ==> incoming == []
      ensures b.Some? ==> old(incoming) == [b.value] + incoming
    {
      if incoming == [] {
        return None;
      }
      b, incoming := Some(incoming[0]), incoming[1..];
    }

    /** Reads one reply, a byte at a time. */
    method ReadReply() returns (r: Result<seq<byte>, Failure>)
      modifies this`incoming
      ensures (r, incoming) == ReplyFrom(old(incoming))
    {
      ghost var received := incoming;
      var reply: seq<byte> := [];
      while true
        invariant received == reply + incoming && 0 !in reply && |reply| <= MAX_REPLY_BYTES
        decreases |incoming|
      {
        var b := ReadByte();
        if b.None? {
          NothingLeft(received, reply);
          return Err(EndOfStream);
        }
        Assoc(reply, [b.value], incoming);
        if b.value == 0 {
          AcceptedIff(reply, incoming);
          return Ok(reply);
        }
        if |reply| >= MAX_REPLY_BYTES {
          OneTooMany(received, reply, b.value, incoming);
          return Err(TooLong);
        }
        reply := reply + [b.value];
      }
    }
  }

  lemma NothingLeft(received: seq<byte>, reply: seq<byte>)
    requires received == reply + [] && 0 !in reply && |reply| <= MAX_REPLY_BYTES
    ensures ReplyFrom(received) == (Err(EndOfStream), [])
  {
    assert received == reply;
    NoNul(reply);
  }

  lemma OneTooMany(received: seq<byte>, reply: seq<byte>, b: byte, rest: seq<byte>)
    requires received == reply + [b] + rest && 0 !in reply && b != 0 && |reply| == MAX_REPLY_BYTES
    ensures ReplyFrom(received) == (Err(TooLong), rest)
  {
    NulBeyond(reply + [b], rest);
    assert received[MAX_REPLY_BYTES + 1..] == rest;
  }

  lemma FrameEnds(head: seq<byte>)
    requires 0 !in head
    ensures Complete(head + [0]) == [head] && Tail(head + [0]) == []
  {
    OneMore(head, []);
    assert [0] + [] == [0] && [head] + [] == [head];
    assert Complete([]) == [] && Tail([]) == [];
  }

  lemma SentFrame(before: seq<byte>, request: seq<byte>)
    requires 0 !in request
    ensures Complete(before + (request + [0])) == Complete(before) + [Tail(before) + request]
    ensures Tail(before + (request + [0])) == []
  {
    CutAppend(before, request + [0]);
    assert 0 !in Tail(before) + request by {
      CutNulFree(before);
    }
    Assoc(Tail(before), request, [0]);
    FrameEnds(Tail(before) + request);
  }

  lemma {:induction false} NulBeyond(a: seq<byte>, b: seq<byte>)
    requires 0 !in a
    ensures FirstNul(a + b) >= |a|
    decreases |a|
  {
    if a != [] {
      assert (a + b)[1..] == a[1..] + b;
      NulBeyond(a[1..], b);
    }
  }

  /** A whole reply on the wire is accepted iff its payload is within the limit, and nothing of what
      follows it is touched. */
  lemma AcceptedIff(payload: seq<byte>, after: seq<byte>)
    requires 0 !in payload
    ensures var r := ReplyFrom(payload + [0] + after);
            if |payload| <= 1_048_576 then r == (Ok(payload), after)
            else r == (Err(TooLong), payload[1_048_577..] + [0] + after)
  {
    Assoc(payload, [0], after);
    FirstNulIs(payload, after);
    var wire := payload + [0] + after;
    assert wire[..|payload|] == payload && wire[|payload| + 1..] == after;
    if |payload| > MAX_REPLY_BYTES {
      assert wire[MAX_REPLY_BYTES + 1..] == payload[MAX_REPLY_BYTES + 1..] + [0] + after;
    }
  }

  /** Bytes without a NUL are no reply: they are taken for the end of the stream, or for too long a
      reply as soon as they are. */
  lemma NoReply(bytes: seq<byte>)
    requires 0 !in bytes
    ensures ReplyFrom(bytes) == if |bytes| <= 1_048_576 then (Err(EndOfStream), [])
                                else (Err(TooLong), bytes[1_048_577..])
  {
    NoNul(bytes);
  }

  // ----- The conversation

  /** The server's connection and the bytes on their way to the client. */
  datatype World<S> = World(conn: Conn<S>, incoming: seq<byte>)

  predicate InStep<S>(w: World<S>)
  {
    w.conn.end.Open? && w.conn.buffer == [] && w.incoming == []
  }

  /** One call: the request reaches the server in some reads, and the client reads its reply. */
  function Call<S, C, R>(sv: Service<S, C, R>, w: World<S>, arrival: seq<seq<byte>>):
    (World<S>, Result<seq<byte>, Failure>)
  {
    var c := Run(sv, w.conn.(sent := []), arrival);
    var (r, rest) := ReplyFrom(w.incoming + c.sent);
    (World(c, rest), r)
  }

  /** One call as the two ends run it: the client writes, the server takes what was written in reads
      of its own choosing and answers, the client reads. */
  method Exchange<S, C, R>(client: VarlinkClient, sv: Service<S, C, R>, conn: Conn<S>, request: seq<byte>,
                           cut: seq<byte> -> seq<seq<byte>>)
    returns (conn': Conn<S>, r: Result<seq<byte>, Failure>)
    requires client.outgoing == []
    requires forall b :: Reads(cut(b), READ_BYTES) && Flat(cut(b)) == b
    requires conn.end.Open? && 0 !in conn.buffer && |conn.buffer| <= MAX_MSG_BYTES
    modifies client
    ensures client.outgoing == []
    ensures (World(conn', client.incoming), r) == Call(sv, World(conn, old(client.incoming)), cut(request + [0]))
  {
    client.Send(request);
    assert [] + (request + [0]) == request + [0];
    var arrival := cut(client.outgoing);
    client.outgoing := [];
    conn' := HandleReads(sv, conn.(sent := []), arrival);
    client.incoming := client.incoming + conn'.sent;
    r := client.ReadReply();
  }

  /** Calls until the first failure. */
  function Calls<S, C, R>(sv: Service<S, C, R>, w: World<S>, arrivals: seq<seq<seq<byte>>>):
    (World<S>, seq<Result<seq<byte>, Failure>>)
    decreases |arrivals|
  {
    if arrivals == [] then (w, [])
    else
      var (w', r) := Call(sv, w, arrivals[0]);
      if r.Err? then (w', [r])
      else
        var (w'', rs) := Calls(sv, w', arrivals[1..]);
        (w'', [r] + rs)
  }

  /** The reads carry one request that leaves the margin the server needs. */
  predicate Carries(arrival: seq<seq<byte>>, request: seq<byte>)
  {
    && Reads(arrival, READ_BYTES) && Flat(arrival) == request + [0]
    && 0 !in request && |request| <= MAX_MSG_BYTES - READ_BYTES
  }

  /** JSON text has no NUL inside (RFC 8259, section 7). */
  ghost predicate NulFreeReplies<S, C, R(!new)>(sv: Service<S, C, R>)
  {
    forall reply :: 0 !in sv.Payload(reply)
  }

  /** What the client makes of a reply. */
  function Received(payload: seq<byte>): Result<seq<byte>, Failure>
  {
    if |payload| <= MAX_REPLY_BYTES then Ok(payload) else Err(TooLong)
  }

  lemma NoNulBetween(b: seq<byte>, i: nat, j: nat)
    requires i <= j <= |b| && 0 !in b[i..j]
    ensures forall k | i <= k < j :: b[k] != 0
  {
    forall k | i <= k < j ensures b[k] != 0 {
      assert b[i..j][k - i] == b[k];
    }
  }

  lemma OneRequestServed<S, C, R>(sv: Service<S, C, R>, s: S, arrival: seq<seq<byte>>, request: seq<byte>)
    requires Carries(arrival, request)
    ensures var (s', reply) := sv.Answer(s, request);
            Run(sv, Fresh(s), arrival) == Conn(s', [], sv.ToBytes(reply), Open)
  {
    var input := request + [0];
    assert RunsAtMost(input, MAX_MSG_BYTES - READ_BYTES) by {
      forall i, j | 0 <= i <= j <= |input| && 0 !in input[i..j] ensures j - i <= |request| {
        NoNulBetween(input, i, j);
        assert input[|request|] == 0;
      }
    }
    ChunkingIndependent(sv, s, input, arrival);
    FrameEnds(request);
    ServeSingle(sv, s, request);
    SentOne(sv, sv.Answer(s, request).1);
    assert [] + sv.ToBytes(sv.Answer(s, request).1) == sv.ToBytes(sv.Answer(s, request).1);
  }

  /** A call made in step returns the reply to its own request, and the ends stay in step exactly
      when the client accepts it. */
  lemma CallInStep<S, C, R(!new)>(sv: Service<S, C, R>, w: World<S>, arrival: seq<seq<byte>>, request: seq<byte>)
    requires InStep(w) && Carries(arrival, request) && NulFreeReplies(sv)
    ensures var (s', reply) := sv.Answer(w.conn.state, request);
            var (w', r) := Call(sv, w, arrival);
            && w'.conn.state == s' && r == Received(sv.Payload(reply))
            && (InStep(w') <==> r.Ok?)
            && (r.Err? ==> w'.incoming == sv.Payload(reply)[MAX_REPLY_BYTES + 1..] + [0])
  {
    OneRequestServed(sv, w.conn.state, arrival, request);
    var payload := sv.Payload(sv.Answer(w.conn.state, request).1);
    AcceptedIff(payload, []);
    assert payload + [0] + [] == [] + (payload + [0]);
    if |payload| > MAX_REPLY_BYTES {
      assert payload[MAX_REPLY_BYTES + 1..] + [0] + [] == payload[MAX_REPLY_BYTES + 1..] + [0];
    }
  }

  /** The results `rs` of a run of calls that ended in `w`, against the replies of a server that
      answered all requests and ended in state `s`. */
  ghost predicate Faithful<S, C, R>(sv: Service<S, C, R>, w: World<S>, rs: seq<Result<seq<byte>, Failure>>,
      s: S, replies: seq<R>)
  {
    && |rs| <= |replies|
    && (forall i | 0 <= i < |rs| :: rs[i] == Received(sv.Payload(replies[i])))
    && (forall i | 0 <= i < |rs| - 1 :: rs[i].Ok?)
    && (InStep(w) <==> rs == [] || rs[|rs| - 1].Ok?)
    && (InStep(w) ==> |rs| == |replies| && w.conn.state == s)
  }

  lemma FaithfulOne<S, C, R>(sv: Service<S, C, R>, w: World<S>, r: Result<seq<byte>, Failure>,
      s: S, reply: R, replies: seq<R>)
    requires r.Err? && r == Received(sv.Payload(reply)) && !InStep(w)
    ensures Faithful(sv, w, [r], s, [reply] + replies)
  {
    assert [r][0] == r;
  }

  lemma FaithfulMore<S, C, R>(sv: Service<S, C, R>, w: World<S>, r: Result<seq<byte>, Failure>,
      rs: seq<Result<seq<byte>, Failure>>, s: S, reply: R, replies: seq<R>)
    requires Faithful(sv, w, rs, s, replies) && r.Ok? && r == Received(sv.Payload(reply))
    ensures Faithful(sv, w, [r] + rs, s, [reply] + replies)
  {
    forall i | 0 <= i < |rs| + 1
      ensures ([r] + rs)[i] == Received(sv.Payload(([reply] + replies)[i]))
      ensures i < |rs| ==> ([r] + rs)[i].Ok?
    {
      assert i > 0 ==> ([r] + rs)[i] == rs[i - 1] && ([reply] + replies)[i] == replies[i - 1];
    }
  }

  /** Lockstep: until the first failure, the `i`-th call returns the reply to the `i`-th request, in
      whatever reads the requests arrived; and the first failure is the first reply too long to accept. */
  lemma {:induction false} Lockstep<S, C, R(!new)>(sv: Service<S, C, R>, w: World<S>,
      arrivals: seq<seq<seq<byte>>>, requests: seq<seq<byte>>)
    requires InStep(w) && NulFreeReplies(sv) && |arrivals| == |requests|
    requires forall i | 0 <= i < |requests| :: Carries(arrivals[i], requests[i])
    ensures var (s', replies) := Serve(sv, w.conn.state, requests);
            var (w', rs) := Calls(sv, w, arrivals);
            Faithful(sv, w', rs, s', replies)
    decreases |requests|
  {
    if requests != [] {
      CallInStep(sv, w, arrivals[0], requests[0]);
      var (w1, r) := Call(sv, w, arrivals[0]);
      var (s1, reply) := sv.Answer(w.conn.state, requests[0]);
      var (s2, replies) := Serve(sv, s1, requests[1..]);
      if r.Ok? {
        Lockstep(sv, w1, arrivals[1..], requests[1..]);
        var (w2, rs) := Calls(sv, w1, arrivals[1..]);
        FaithfulMore(sv, w2, r, rs, s2, reply, replies);
      } else {
        FaithfulOne(sv, w1, r, s2, reply, replies);
      }
    }
  }

  /** Why it ends there: the call after a reply that was too long gets the rest of that reply. */
  lemma LateReply<S, C, R(!new)>(sv: Service<S, C, R>, w: World<S>, arrival: seq<seq<byte>>, request: seq<byte>,
      next: seq<seq<byte>>)
    requires InStep(w) && Carries(arrival, request) && NulFreeReplies(sv)
    requires |sv.Payload(sv.Answer(w.conn.state, request).1)| > MAX_REPLY_BYTES
    ensures var payload := sv.Payload(sv.Answer(w.conn.state, request).1);
            var rest := payload[MAX_REPLY_BYTES + 1..];
            Call(sv, Call(sv, w, arrival).0, next).1 == Received(rest)
  {
    CallInStep(sv, w, arrival, request);
    var rest := sv.Payload(sv.Answer(w.conn.state, request).1)[MAX_REPLY_BYTES + 1..];
    var w' := Call(sv, w, arrival).0;
    AcceptedIff(rest, Run(sv, w'.conn.(sent := []), next).sent);
  }
}
