/**
 The keep-alive loop of the static HTTP service: which requests of a pipelined
 stream it answers, and what a client reads back.
 */
module HttpSession {
  import opened Options
  import opened HttpReader
  import opened HttpRequest
  import opened HttpResponse

  // ---------------------------------------------------------------------
  // The loop
  // ---------------------------------------------------------------------

  lemma ReadShrinks(chunks: seq<string>)
    requires NonEmptyChunks(chunks) && ReadRequest(chunks).outcome.Got?
    ensures NonEmptyChunks(ReadRequest(chunks).left)
    ensures |Flatten(ReadRequest(chunks).left)| < |Flatten(chunks)|
  {
    var line := FirstLine(Flatten(chunks), '\n', MAX_REQUEST_LINE).bytes;
    PartsOfRead(chunks, line);
    SkipLeaves(chunks, |line|);
    SkipLeaves(Skip(chunks, |line|), |HeadersOf(Skip(chunks, |line|), MAX_HEADERS).bytes|);
  }

  /** The requests that one session answers, in order. */
  function Answered(chunks: seq<string>): seq<Request>
    requires NonEmptyChunks(chunks)
    decreases |Flatten(chunks)|
  {
    var r := ReadRequest(chunks);
    if !r.outcome.Got? then []
    else
      ReadShrinks(chunks);
      var q := r.outcome.request;
      [q] + if q.keepAlive then Answered(r.left) else []
  }

  /** The bytes the session writes. */
  function Output(site: Site, qs: seq<Request>): string {
    if qs == [] then "" else Render(Respond(site, qs[0])) + Output(site, qs[1..])
  }

  datatype Served = Continue | Stop | Broken

  /** `serve_one`. */
  method ServeOne(site: Site, send: Sink, recv: BufReader) returns (r: Served)
    requires recv.Valid()
    modifies send, recv
    ensures recv.Valid()
    ensures
      var read := ReadRequest(old(recv.chunks));
      if read.outcome.Got? then
        && r == (if read.outcome.request.keepAlive then Continue else Stop)
        && send.sent == old(send.sent) + Render(Respond(site, read.outcome.request))
        && recv.chunks == read.left
      else
        && r == (if read.outcome.EndOfStream? then Stop else Broken)
        && send.sent == old(send.sent)
  {
    NeverDrains(recv.chunks);
    var outcome := ReadRequestFrom(recv);
    match outcome {
      case Got(q) =>
        var built := BuildResponse(site, q);
        WriteResponse(send, if built.Ready? then built.response else ErrorResponse(built.status, q.method', q.keepAlive));
        return if q.keepAlive then Continue else Stop;
      case EndOfStream =>
        return Stop;
      case _ =>
        return Broken;
    }
  }

  method Serve(site: Site, send: Sink, recv: BufReader)
    requires recv.Valid()
    modifies send, recv
    ensures send.sent == old(send.sent) + Output(site, Answered(old(recv.chunks)))
  {
    ghost var all := Answered(recv.chunks);
    var more := true;
    assert send.sent + Output(site, all) == old(send.sent) + Output(site, all);
    while more
      invariant recv.Valid()
      invariant send.sent + (if more then Output(site, Answered(recv.chunks)) else "")
             == old(send.sent) + Output(site, all)
      decreases more, |Flatten(recv.chunks)|
    {
      ghost var chunks, sent := recv.chunks, send.sent;
      var served := ServeOne(site, send, recv);
      OneRound(site, chunks, sent);
      more := served.Continue?;
    }
  }

  /** What is still to be written, before and after one round of the loop. */
  lemma OneRound(site: Site, chunks: seq<string>, sent: string)
    requires NonEmptyChunks(chunks)
    ensures
      var read := ReadRequest(chunks);
      if read.outcome.Got? then
        var q := read.outcome.request;
        && NonEmptyChunks(read.left) && |Flatten(read.left)| < |Flatten(chunks)|
        && sent + Output(site, Answered(chunks)) ==
           sent + Render(Respond(site, q)) + if q.keepAlive then Output(site, Answered(read.left)) else ""
      else
        sent + Output(site, Answered(chunks)) == sent + ""
  {
    var read := ReadRequest(chunks);
    if read.outcome.Got? {
      ReadShrinks(chunks);
      var q := read.outcome.request;
      var rest := if q.keepAlive then Answered(read.left) else [];
      assert ([q] + rest)[1..] == rest;
      Associate(sent, Render(Respond(site, q)), Output(site, rest));
    }
  }

  // ---------------------------------------------------------------------
  // Pipelined requests
  // ---------------------------------------------------------------------

  function SerializeAll(ms: seq<Message>): string {
    if ms == [] then "" else Serialize(ms[0]) + SerializeAll(ms[1..])
  }

  /** The offset behind the first `k` messages. */
  function Offset(ms: seq<Message>, k: nat): nat
    requires k <= |ms|
  {
    if k == 0 then 0 else |Serialize(ms[0])| + Offset(ms[1..], k - 1)
  }

  predicate WholeAt(chunks: seq<string>, offset: nat) {
    offset > 0 && InOneChunk(chunks, offset - 1)
  }

  lemma {:induction false} OffsetDrops(ms: seq<Message>, i: nat)
    requires i <= |ms|
    ensures Offset(ms, i) <= |SerializeAll(ms)| && SerializeAll(ms)[Offset(ms, i)..] == SerializeAll(ms[i..])
    decreases i
  {
    if i > 0 {
      OffsetDrops(ms[1..], i - 1);
      assert ms[1..][i - 1..] == ms[i..];
      DropBehind(Serialize(ms[0]), SerializeAll(ms[1..]), Offset(ms[1..], i - 1));
    }
  }

  lemma DropBehind(a: string, b: string, n: nat)
    requires n <= |b|
    ensures (a + b)[|a| + n..] == b[n..]
  {
  }

  lemma {:induction false} OffsetNext(ms: seq<Message>, i: nat)
    requires i < |ms|
    ensures Offset(ms, i + 1) == Offset(ms, i) + |Serialize(ms[i])|
    decreases i
  {
    if i > 0 {
      OffsetNext(ms[1..], i - 1);
    } else {
      assert Offset(ms[1..], 0) == 0;
    }
  }

  lemma {:induction false} OffsetOfAll(ms: seq<Message>)
    ensures Offset(ms, |ms|) == |SerializeAll(ms)|
  {
    if ms != [] {
      OffsetOfAll(ms[1..]);
    }
  }

  // ---------------------------------------------------------------------
  // Which of them are served
  // ---------------------------------------------------------------------

  /** How many messages one request takes off the stream: without fields it swallows the next one. */
  function Takes(m: Message): nat {
    if m.fields == [] then 2 else 1
  }

  /** The indices of the messages that are served, from message `i` on. */
  ghost function ServedFrom(ms: seq<Message>, i: nat): (ks: seq<nat>)
    requires i <= |ms|
    ensures forall j :: 0 <= j < |ks| ==> i <= ks[j] < |ms|
    decreases |ms| - i
  {
    if i == |ms| || i + Takes(ms[i]) > |ms| then []
    else [i] + if StaysOpen(ms[i]) then ServedFrom(ms, i + Takes(ms[i])) else []
  }

  /** The loop gets through all of the messages. */
  ghost predicate RunsOut(ms: seq<Message>, i: nat)
    requires i <= |ms|
    decreases |ms| - i
  {
    i == |ms| || (i + Takes(ms[i]) <= |ms| && StaysOpen(ms[i]) && RunsOut(ms, i + Takes(ms[i])))
  }

  /**
   Whatever the loop reaches is well-formed, or at least sound where it is swallowed,
   and within limits, and the terminators it
   stops at are not cut by a chunk boundary. A request without fields that is the
   last message is also the end of the stream.
   */
  ghost predicate ReadableFrom(chunks: seq<string>, ms: seq<Message>, tail: string, i: nat)
    requires i <= |ms|
    decreases |ms| - i
  {
    i < |ms| ==>
      && WellFormed(ms[i])
      && if i + Takes(ms[i]) > |ms| then tail == ""
         else
           && (ms[i].fields == [] ==> Sound(ms[i + 1]) && 2 + |Serialize(ms[i + 1])| <= 65536)
           && WholeAt(chunks, Offset(ms, i + Takes(ms[i])))
           && (StaysOpen(ms[i]) ==> ReadableFrom(chunks, ms, tail, i + Takes(ms[i])))
  }

  ghost function Picked(ms: seq<Message>, ks: seq<nat>): (qs: seq<Request>)
    requires forall j :: 0 <= j < |ks| ==> ks[j] < |ms|
    ensures |qs| == |ks| && forall j :: 0 <= j < |ks| ==> qs[j] == Sent(ms[ks[j]])
  {
    seq(|ks|, j requires 0 <= j < |ks| => Sent(ms[ks[j]]))
  }

  lemma PickedCons(ms: seq<Message>, k: nat, ks: seq<nat>)
    requires k < |ms| && forall j :: 0 <= j < |ks| ==> ks[j] < |ms|
    ensures forall j :: 0 <= j < |[k] + ks| ==> ([k] + ks)[j] < |ms|
    ensures Picked(ms, [k] + ks) == [Sent(ms[k])] + Picked(ms, ks)
  {
  }

  // ---------------------------------------------------------------------
  // One round of the loop
  // ---------------------------------------------------------------------

  lemma WholeAfterSkip(chunks: seq<string>, a: nat, b: nat, sum: nat)
    requires a + b == sum <= |Flatten(chunks)| && b >= 4 && WholeAt(chunks, sum)
    ensures WholeAt(Skip(chunks, a), b)
  {
    InOneChunkAfterSkip(chunks, a, b - 1);
  }

  lemma FirstIsAnswered(chunks: seq<string>, m: Message, tail: string)
    requires NonEmptyChunks(chunks) && WellFormed(m) && m.fields != [] && Flatten(chunks) == Serialize(m) + tail
    requires WholeAt(chunks, |Serialize(m)|)
    ensures
      var left := Skip(chunks, |Serialize(m)|);
      && NonEmptyChunks(left)
      && Answered(chunks) == [Sent(m)] + if StaysOpen(m) then Answered(left) else []
  {
    RequestReadsBack(chunks, m, tail);
    SkipLeaves(chunks, |Serialize(m)|);
  }

  lemma HeaderlessIsAnswered(chunks: seq<string>, m: Message, n: Message, tail: string, size: nat)
    requires NonEmptyChunks(chunks) && WellFormed(m) && m.fields == []
    requires Sound(n) && 2 + |Serialize(n)| <= MAX_HEADERS
    requires Flatten(chunks) == Serialize(m) + Serialize(n) + tail
    requires size == |Serialize(m)| + |Serialize(n)| && WholeAt(chunks, size)
    ensures
      var left := Skip(chunks, size);
      && NonEmptyChunks(left)
      && Answered(chunks) == [Sent(m)] + if StaysOpen(m) then Answered(left) else []
  {
    MessageStarts(n);
    HeaderlessSwallowsNext(chunks, m, n, tail);
    SkipLeaves(chunks, size);
  }

  /** Where the loop is at message `i`. */
  lemma AtMessage(chunks: seq<string>, ms: seq<Message>, tail: string, i: nat)
    requires NonEmptyChunks(chunks) && Flatten(chunks) == SerializeAll(ms) + tail && i <= |ms|
    ensures Offset(ms, i) <= |SerializeAll(ms)| <= |Flatten(chunks)|
    ensures NonEmptyChunks(Skip(chunks, Offset(ms, i)))
    ensures Flatten(Skip(chunks, Offset(ms, i))) == SerializeAll(ms[i..]) + tail
  {
    OffsetDrops(ms, i);
    SkipLeaves(chunks, Offset(ms, i));
    DropFront(SerializeAll(ms), tail, Offset(ms, i));
  }

  lemma DropFront(a: string, b: string, n: nat)
    requires n <= |a|
    ensures (a + b)[n..] == a[n..] + b
  {
  }

  lemma SkipBoth(chunks: seq<string>, m: nat, n: nat, sum: nat)
    requires NonEmptyChunks(chunks) && m + n == sum <= |Flatten(chunks)|
    ensures n <= |Flatten(Skip(chunks, m))| && Skip(Skip(chunks, m), n) == Skip(chunks, sum)
  {
    SkipSkip(chunks, m, n);
  }

  lemma RoundWithFields(chunks: seq<string>, ms: seq<Message>, tail: string, i: nat)
    requires NonEmptyChunks(chunks) && Flatten(chunks) == SerializeAll(ms) + tail && i < |ms|
    requires WellFormed(ms[i]) && ms[i].fields != [] && WholeAt(chunks, Offset(ms, i + 1))
    ensures Offset(ms, i) <= |Flatten(chunks)| && Offset(ms, i + 1) <= |Flatten(chunks)|
    ensures NonEmptyChunks(Skip(chunks, Offset(ms, i))) && NonEmptyChunks(Skip(chunks, Offset(ms, i + 1)))
    ensures Answered(Skip(chunks, Offset(ms, i)))
         == [Sent(ms[i])] + if StaysOpen(ms[i]) then Answered(Skip(chunks, Offset(ms, i + 1))) else []
  {
    AtMessage(chunks, ms, tail, i);
    AtMessage(chunks, ms, tail, i + 1);
    var here, m, rest := Skip(chunks, Offset(ms, i)), ms[i], SerializeAll(ms[i + 1..]);
    OffsetNext(ms, i);
    MessageStarts(m);
    WholeAfterSkip(chunks, Offset(ms, i), |Serialize(m)|, Offset(ms, i + 1));
    assert ms[i..][1..] == ms[i + 1..];
    Associate(Serialize(m), rest, tail);
    FirstIsAnswered(here, m, rest + tail);
    SkipBoth(chunks, Offset(ms, i), |Serialize(m)|, Offset(ms, i + 1));
  }

  lemma TwoMessages(ms: seq<Message>, i: nat, tail: string)
    requires i + 2 <= |ms|
    ensures SerializeAll(ms[i..]) + tail == Serialize(ms[i]) + Serialize(ms[i + 1]) + (SerializeAll(ms[i + 2..]) + tail)
    ensures Offset(ms, i + 2) == Offset(ms, i) + (|Serialize(ms[i])| + |Serialize(ms[i + 1])|)
  {
    assert ms[i..][1..] == ms[i + 1..] && ms[i + 1..][1..] == ms[i + 2..];
    OffsetNext(ms, i);
    OffsetNext(ms, i + 1);
    FourAssociate(Serialize(ms[i]), Serialize(ms[i + 1]), SerializeAll(ms[i + 2..]), tail);
  }

  lemma FourAssociate(a: string, b: string, c: string, d: string)
    ensures a + (b + c) + d == a + b + (c + d)
  {
  }

  lemma RoundWithoutFields(chunks: seq<string>, ms: seq<Message>, tail: string, i: nat)
    requires NonEmptyChunks(chunks) && Flatten(chunks) == SerializeAll(ms) + tail && i + 2 <= |ms|
    requires WellFormed(ms[i]) && ms[i].fields == []
    requires Sound(ms[i + 1]) && 2 + |Serialize(ms[i + 1])| <= MAX_HEADERS
    requires WholeAt(chunks, Offset(ms, i + 2))
    ensures Offset(ms, i) <= |Flatten(chunks)| && Offset(ms, i + 2) <= |Flatten(chunks)|
    ensures NonEmptyChunks(Skip(chunks, Offset(ms, i))) && NonEmptyChunks(Skip(chunks, Offset(ms, i + 2)))
    ensures Answered(Skip(chunks, Offset(ms, i)))
         == [Sent(ms[i])] + if StaysOpen(ms[i]) then Answered(Skip(chunks, Offset(ms, i + 2))) else []
  {
    AtMessage(chunks, ms, tail, i);
    AtMessage(chunks, ms, tail, i + 2);
    var here, m, n := Skip(chunks, Offset(ms, i)), ms[i], ms[i + 1];
    TwoMessages(ms, i, tail);
    var size := |Serialize(m)| + |Serialize(n)|;
    MessageStarts(m);
    WholeAfterSkip(chunks, Offset(ms, i), size, Offset(ms, i + 2));
    HeaderlessIsAnswered(here, m, n, SerializeAll(ms[i + 2..]) + tail, size);
    SkipBoth(chunks, Offset(ms, i), size, Offset(ms, i + 2));
  }

  /** A request without fields at the end of the stream is not answered. */
  lemma LastHeaderlessFails(chunks: seq<string>, ms: seq<Message>, i: nat)
    requires NonEmptyChunks(chunks) && Flatten(chunks) == SerializeAll(ms) && i + 1 == |ms|
    requires WellFormed(ms[i]) && ms[i].fields == []
    ensures Offset(ms, i) <= |Flatten(chunks)| && NonEmptyChunks(Skip(chunks, Offset(ms, i)))
    ensures Answered(Skip(chunks, Offset(ms, i))) == []
  {
    assert SerializeAll(ms) + "" == SerializeAll(ms);
    AtMessage(chunks, ms, "", i);
    assert ms[i..] == [ms[i]] && ms[i..][1..] == [];
    assert SerializeAll(ms[i..]) + "" == Serialize(ms[i]);
    HeaderlessFails(Skip(chunks, Offset(ms, i)), ms[i]);
  }

  // ---------------------------------------------------------------------
  // The whole pipeline
  // ---------------------------------------------------------------------

  /** `all` answers the messages that are served from `i` on, and then `others` if the loop gets that far. */
  ghost predicate AnsweredAs(all: seq<Request>, ms: seq<Message>, i: nat, others: seq<Request>)
    requires i <= |ms|
  {
    all == Picked(ms, ServedFrom(ms, i)) + if RunsOut(ms, i) then others else []
  }

  lemma AnsweredStep(all: seq<Request>, ms: seq<Message>, i: nat, next: seq<Request>, others: seq<Request>)
    requires i < |ms| && i + Takes(ms[i]) <= |ms|
    requires all == [Sent(ms[i])] + if StaysOpen(ms[i]) then next else []
    requires StaysOpen(ms[i]) ==> AnsweredAs(next, ms, i + Takes(ms[i]), others)
    ensures AnsweredAs(all, ms, i, others)
  {
    var ks := if StaysOpen(ms[i]) then ServedFrom(ms, i + Takes(ms[i])) else [];
    PickedCons(ms, i, ks);
    var more := if RunsOut(ms, i) then others else [];
    Regroup([Sent(ms[i])], Picked(ms, ks), more);
  }

  lemma Regroup(a: seq<Request>, b: seq<Request>, c: seq<Request>)
    ensures a + (b + c) == a + b + c
    ensures b == [] && c == [] ==> a + b + c == a + []
  {
  }

  lemma NothingServed(others: seq<Request>, ms: seq<Message>)
    ensures AnsweredAs(others, ms, |ms|, others)
  {
    assert Picked(ms, []) + others == others;
  }

  lemma {:induction false} PipelineFrom(chunks: seq<string>, ms: seq<Message>, tail: string, i: nat, here: seq<string>, left: seq<string>)
    requires NonEmptyChunks(chunks) && Flatten(chunks) == SerializeAll(ms) + tail && i <= |ms|
    requires ReadableFrom(chunks, ms, tail, i)
    requires Offset(ms, i) <= |Flatten(chunks)| && here == Skip(chunks, Offset(ms, i)) && left == Skip(chunks, |SerializeAll(ms)|)
    ensures NonEmptyChunks(here) && NonEmptyChunks(left) && AnsweredAs(Answered(here), ms, i, Answered(left))
    decreases |ms| - i
  {
    AtMessage(chunks, ms, tail, i);
    AtMessage(chunks, ms, tail, |ms|);
    OffsetOfAll(ms);
    if i == |ms| {
      NothingServed(Answered(left), ms);
    } else if i + Takes(ms[i]) > |ms| {
      assert SerializeAll(ms) + "" == SerializeAll(ms);
      LastHeaderlessFails(chunks, ms, i);
    } else {
      if ms[i].fields == [] {
        RoundWithoutFields(chunks, ms, tail, i);
      } else {
        RoundWithFields(chunks, ms, tail, i);
      }
      var next := Skip(chunks, Offset(ms, i + Takes(ms[i])));
      if StaysOpen(ms[i]) {
        PipelineFrom(chunks, ms, tail, i + Takes(ms[i]), next, left);
      }
      AnsweredStep(Answered(here), ms, i, Answered(next), Answered(left));
    }
  }

  /**
   Of well-formed pipelined requests the loop answers exactly those it serves, in
   order, one answer each: it skips the message behind each request without header
   fields, and stops at the first served request that its rule does not keep open,
   or at a request without fields that ends the stream. Only if it gets through all
   of them does it go on with what follows.
   */
  lemma PipelineIsAnswered(chunks: seq<string>, ms: seq<Message>, tail: string)
    requires NonEmptyChunks(chunks) && Flatten(chunks) == SerializeAll(ms) + tail && ReadableFrom(chunks, ms, tail, 0)
    ensures NonEmptyChunks(Skip(chunks, |SerializeAll(ms)|))
    ensures AnsweredAs(Answered(chunks), ms, 0, Answered(Skip(chunks, |SerializeAll(ms)|)))
  {
    PipelineFrom(chunks, ms, tail, 0, chunks, Skip(chunks, |SerializeAll(ms)|));
  }

  // ---------------------------------------------------------------------
  // When that is what the client means
  // ---------------------------------------------------------------------

  /** Behind the first message from `i` on that is not kept open. */
  ghost function StopAt(ms: seq<Message>, i: nat): (n: nat)
    requires i <= |ms|
    ensures i <= n <= |ms| && (i < |ms| ==> i < n)
    ensures forall k :: i <= k < n - 1 ==> StaysOpen(ms[k])
    ensures n < |ms| ==> i < n && !StaysOpen(ms[n - 1])
    decreases |ms| - i
  {
    if i == |ms| then i else if !StaysOpen(ms[i]) then i + 1 else StopAt(ms, i + 1)
  }

  function Range(i: nat, j: nat): (ks: seq<nat>)
    requires i <= j
    ensures |ks| == j - i && forall k :: 0 <= k < |ks| ==> ks[k] == i + k
  {
    seq(j - i, k requires 0 <= k < j - i => i + k)
  }

  /** Each message up to the stop has a header field, or is itself the stop with a message behind it. */
  ghost predicate InSync(ms: seq<Message>, i: nat)
    requires i <= |ms|
  {
    forall k :: i <= k < StopAt(ms, i) ==> ms[k].fields != [] || (!StaysOpen(ms[k]) && k + 1 < |ms|)
  }

  lemma RangeCons(i: nat, j: nat)
    requires i < j
    ensures Range(i, j) == [i] + Range(i + 1, j)
  {
  }

  lemma ConsEqual(i: nat, a: seq<nat>, b: seq<nat>)
    ensures [i] + a == [i] + b <==> a == b
  {
    assert ([i] + a)[1..] == a && ([i] + b)[1..] == b;
  }

  lemma {:induction false} ServedInOrderExactly(ms: seq<Message>, i: nat)
    requires i <= |ms|
    ensures ServedFrom(ms, i) == Range(i, StopAt(ms, i)) <==> InSync(ms, i)
    decreases |ms| - i
  {
    if i < |ms| {
      var stop := StopAt(ms, i);
      RangeCons(i, stop);
      if i + Takes(ms[i]) > |ms| {
        assert !InSync(ms, i);
      } else if !StaysOpen(ms[i]) {
        assert stop == i + 1;
      } else {
        var rest := ServedFrom(ms, i + Takes(ms[i]));
        ConsEqual(i, rest, Range(i + 1, stop));
        if ms[i].fields == [] {
          assert Range(i + 1, stop)[0] == i + 1;
          assert !InSync(ms, i);
        } else {
          ServedInOrderExactly(ms, i + 1);
        }
      }
    }
  }

  // ---------------------------------------------------------------------
  // What the client reads back
  // ---------------------------------------------------------------------

  datatype Replies = Replies(responses: seq<Response>, rest: string)

  /** Split the stream into one reply for each request, by announced lengths. */
  function ReadReplies(s: string, methods: seq<string>): Option<Replies>
    decreases |methods|
  {
    if methods == [] then Some(Replies([], s))
    else
      var first := ReadReply(s, methods[0] == "HEAD");
      if first.None? then None
      else
        var others := ReadReplies(first.value.rest, methods[1..]);
        if others.None? then None
        else Some(Replies([first.value.response] + others.value.responses, others.value.rest))
  }

  function Methods(qs: seq<Request>): seq<string> {
    if qs == [] then [] else [qs[0].method'] + Methods(qs[1..])
  }

  function Responses(site: Site, qs: seq<Request>): seq<Response> {
    if qs == [] then [] else [Respond(site, qs[0])] + Responses(site, qs[1..])
  }

  /** Whatever was asked, the output splits back into the responses, and nothing else is consumed. */
  lemma {:induction false} OutputSplits(site: Site, qs: seq<Request>, tail: string)
    requires Fits(site)
    ensures ReadReplies(Output(site, qs) + tail, Methods(qs)) == Some(Replies(Responses(site, qs), tail))
    decreases |qs|
  {
    if qs == [] {
      assert Output(site, qs) + tail == tail;
    } else {
      var r, more := Respond(site, qs[0]), Output(site, qs[1..]);
      EveryResponseIsFramed(site, qs[0]);
      ReplyReadsBack(r, qs[0].method' == "HEAD", more + tail);
      Associate(Render(r), more, tail);
      OutputSplits(site, qs[1..], tail);
      assert Methods(qs)[1..] == Methods(qs[1..]);
    }
  }

  lemma NothingLeft(chunks: seq<string>, n: nat)
    requires NonEmptyChunks(chunks) && n == |Flatten(chunks)|
    ensures NonEmptyChunks(Skip(chunks, n)) && Answered(Skip(chunks, n)) == []
  {
    SkipLeaves(chunks, n);
  }

  lemma NothingElse(all: seq<Request>, ms: seq<Message>, others: seq<Request>)
    requires AnsweredAs(all, ms, 0, others) && others == []
    ensures all == Picked(ms, ServedFrom(ms, 0))
  {
    var qs := Picked(ms, ServedFrom(ms, 0));
    assert qs + [] == qs;
  }

  lemma WholePipelineIsAnswered(chunks: seq<string>, ms: seq<Message>)
    requires NonEmptyChunks(chunks) && Flatten(chunks) == SerializeAll(ms) && ReadableFrom(chunks, ms, "", 0)
    ensures Answered(chunks) == Picked(ms, ServedFrom(ms, 0))
  {
    var left := Skip(chunks, |SerializeAll(ms)|);
    assert SerializeAll(ms) + "" == SerializeAll(ms);
    PipelineIsAnswered(chunks, ms, "");
    NothingLeft(chunks, |SerializeAll(ms)|);
    NothingElse(Answered(chunks), ms, Answered(left));
  }

  lemma WholeOutputSplits(site: Site, qs: seq<Request>)
    requires Fits(site)
    ensures ReadReplies(Output(site, qs), Methods(qs)) == Some(Replies(Responses(site, qs), ""))
  {
    OutputSplits(site, qs, "");
    assert Output(site, qs) + "" == Output(site, qs);
  }

  /**
   The whole session: a client that pipelines requests and then stops sending reads
   back, from what the loop writes, the response to each served request, in order,
   with nothing left over. These are the requests up to the first that is not kept
   open exactly when no request without header fields gets in the way.
   */
  lemma SessionRoundTrip(site: Site, chunks: seq<string>, ms: seq<Message>)
    requires Fits(site) && NonEmptyChunks(chunks)
    requires Flatten(chunks) == SerializeAll(ms) && ReadableFrom(chunks, ms, "", 0)
    ensures
      var qs := Picked(ms, ServedFrom(ms, 0));
      && Answered(chunks) == qs
      && ReadReplies(Output(site, Answered(chunks)), Methods(qs)) == Some(Replies(Responses(site, qs), ""))
    ensures ServedFrom(ms, 0) == Range(0, StopAt(ms, 0)) <==> InSync(ms, 0)
  {
    WholePipelineIsAnswered(chunks, ms);
    WholeOutputSplits(site, Picked(ms, ServedFrom(ms, 0)));
    ServedInOrderExactly(ms, 0);
  }

  lemma {:induction false} ResponseAt(site: Site, qs: seq<Request>, j: nat)
    requires j < |qs|
    ensures j < |Responses(site, qs)| && Responses(site, qs)[j] == Respond(site, qs[j])
    decreases j
  {
    if j > 0 {
      ResponseAt(site, qs[1..], j - 1);
    }
  }

  lemma FileIsAnswered(site: Site, q: Request, path: string, query: string, media: MediaType, contents: string)
    requires IsPath(path) && Reads(q.method') && q.path == "/" + Encode(path) + "?" + query
    requires site.rootExists && site.lookup(path) == File(media, Some(contents))
    ensures Respond(site, q).status == 200 && Carries(q, Respond(site, q), MediaText(media), contents, |contents|)
  {
    EncodedPathIsReached(path, query);
    AnswerMeans(site, q);
  }

  /**
   From end to end: if a served request asks for a readable file by its encoded
   path, with whatever query, then what the client reads back in that place is the
   file, its length and its type; after HEAD the same without the content.
   */
  lemma FileIsDelivered(site: Site, chunks: seq<string>, ms: seq<Message>, j: nat,
                        path: string, query: string, media: MediaType, contents: string)
    requires Fits(site) && NonEmptyChunks(chunks)
    requires Flatten(chunks) == SerializeAll(ms) && ReadableFrom(chunks, ms, "", 0)
    requires j < |ServedFrom(ms, 0)|
    requires IsPath(path)
    requires var m := ms[ServedFrom(ms, 0)[j]]; Reads(m.method') && m.path == "/" + Encode(path) + "?" + query
    requires site.rootExists && site.lookup(path) == File(media, Some(contents))
    ensures
      var m := ms[ServedFrom(ms, 0)[j]];
      var read := ReadReplies(Output(site, Answered(chunks)), Methods(Picked(ms, ServedFrom(ms, 0))));
      && read.Some? && j < |read.value.responses|
      && var r := read.value.responses[j];
      r.status == 200 && Carries(Sent(m), r, MediaText(media), contents, |contents|)
  {
    var qs := Picked(ms, ServedFrom(ms, 0));
    SessionRoundTrip(site, chunks, ms);
    ResponseAt(site, qs, j);
    FileIsAnswered(site, qs[j], path, query, media, contents);
  }
}
