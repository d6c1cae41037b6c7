/** Length-prefixed messages on a stream, section 4.2.2 of RFC 1035 and section 3.3 of RFC 7858: the
    per-connection loop of the DoT server (src/server/dot.rs) and the single exchange of the TCP server
    (src/server/tcp.rs). Parsing, handling and serializing a message is one parameter; it may fail, and it
    may answer the same bytes differently at different times. */
module StreamFraming {
  import opened Common
  import opened EdnsOptions

  /** The answer to the n-th message of a connection. */
  type Answer = (nat, Bytes) -> Option<Bytes>

  datatype Outcome = Closed | Failed

  function Frame(m: Payload): Bytes {
    BigEndian(|m|) + m
  }

  function Stream(ms: seq<Payload>): Bytes {
    if ms == [] then [] else Frame(ms[0]) + Stream(ms[1..])
  }

  predicate NoneEmpty(ms: seq<Payload>) {
    forall i :: 0 <= i < |ms| ==> ms[i] != []
  }

  // ------------------------------------------------ frames in arbitrary bytes

  /** No whole, non-empty frame is left: the reader goes no further. */
  predicate Stuck(b: Bytes) {
    |b| < 2 || FromBigEndian(b[0], b[1]) == 0 || 2 + FromBigEndian(b[0], b[1]) > |b|
  }

  function Frames(b: Bytes): seq<Payload>
    decreases |b|
  {
    if Stuck(b) then []
    else
      var n := FromBigEndian(b[0], b[1]);
      [b[2..2 + n]] + Frames(b[2 + n..])
  }

  /** Bytes after the last whole frame. */
  function Tail(b: Bytes): (r: Bytes)
    ensures Stuck(r)
    decreases |b|
  {
    if Stuck(b) then b else Tail(b[2 + FromBigEndian(b[0], b[1])..])
  }

  lemma FramesHead(b: Bytes)
    requires !Stuck(b)
    ensures
      var n := FromBigEndian(b[0], b[1]);
      Frames(b) == [b[2..2 + n]] + Frames(b[2 + n..]) && Tail(b) == Tail(b[2 + n..])
  {
  }

  lemma StreamCons(m: Payload, ms: seq<Payload>)
    ensures Stream([m] + ms) == Frame(m) + Stream(ms)
  {
    assert ([m] + ms)[1..] == ms;
  }

  lemma FramesStep(m: Payload, rest: Bytes)
    requires m != []
    ensures Frames(Frame(m) + rest) == [m] + Frames(rest) && Tail(Frame(m) + rest) == Tail(rest)
  {
    var b := Frame(m) + rest;
    BigEndianRoundTrip(|m|);
    assert b[0] == BigEndian(|m|)[0] && b[1] == BigEndian(|m|)[1];
    assert b[2..2 + |m|] == m && b[2 + |m|..] == rest;
  }

  /** The frames of a stream, whatever follows them. */
  lemma {:induction false} FramesOfStream(ms: seq<Payload>, rest: Bytes)
    requires forall i :: 0 <= i < |ms| ==> ms[i] != []
    ensures Frames(Stream(ms) + rest) == ms + Frames(rest) && Tail(Stream(ms) + rest) == Tail(rest)
  {
    if ms == [] {
      assert Stream(ms) + rest == rest && ms + Frames(rest) == Frames(rest);
    } else {
      Assoc(Frame(ms[0]), Stream(ms[1..]), rest);
      FramesStep(ms[0], Stream(ms[1..]) + rest);
      FramesOfStream(ms[1..], rest);
      Assoc([ms[0]], ms[1..], Frames(rest));
      assert [ms[0]] + ms[1..] == ms;
    }
  }

  /** A list of messages survives the stream. */
  lemma {:induction false} FramesExactly(ms: seq<Payload>)
    requires forall i :: 0 <= i < |ms| ==> ms[i] != []
    ensures Frames(Stream(ms)) == ms && Tail(Stream(ms)) == []
  {
    FramesOfStream(ms, []);
    assert Stream(ms) + [] == Stream(ms) && ms + Frames([]) == ms;
  }

  /** Any input is its own frames, encoded, followed by a tail that holds no further frame. */
  lemma {:induction false} InputIsFramesAndTail(b: Bytes)
    ensures b == Stream(Frames(b)) + Tail(b)
    ensures forall i :: 0 <= i < |Frames(b)| ==> Frames(b)[i] != []
    decreases |b|
  {
    if Stuck(b) {
    } else {
      var n := FromBigEndian(b[0], b[1]);
      var head, rest := b[2..2 + n], b[2 + n..];
      InputIsFramesAndTail(rest);
      FramesHead(b);
      StreamCons(head, Frames(rest));
      HeadIsFrame(b);
      Assoc(Frame(head), Stream(Frames(rest)), Tail(rest));
    }
  }

  lemma HeadIsFrame(b: Bytes)
    requires !Stuck(b)
    ensures
      var n := FromBigEndian(b[0], b[1]);
      b == Frame(b[2..2 + n]) + b[2 + n..]
  {
    var n := FromBigEndian(b[0], b[1]);
    HeaderRoundTrip(b[0], b[1]);
    assert Frame(b[2..2 + n]) == b[..2 + n];
  }

  /** How many of the messages lie wholly within the first `n` bytes of their stream. */
  function Whole(ms: seq<Payload>, n: nat): (k: nat)
    ensures k <= |ms|
  {
    if ms == [] || |Frame(ms[0])| > n then 0 else 1 + Whole(ms[1..], n - |Frame(ms[0])|)
  }

  lemma {:induction false} WholeIsMost(ms: seq<Payload>, n: nat)
    ensures |Stream(ms[..Whole(ms, n)])| <= n
    ensures Whole(ms, n) < |ms| ==> |Stream(ms[..Whole(ms, n) + 1])| > n
  {
    if ms == [] {
    } else {
      var k := Whole(ms, n);
      if k > 0 {
        WholeIsMost(ms[1..], n - |Frame(ms[0])|);
        assert ms[..k][1..] == ms[1..][..k - 1];
        if k < |ms| { assert ms[..k + 1][1..] == ms[1..][..k]; }
      } else {
        assert ms[..1][0] == ms[0];
      }
    }
  }

  /** A frame cut short leaves the reader stuck. */
  lemma CutFrameIsStuck(m: Payload, rest: Bytes, n: nat)
    requires n < |Frame(m)|
    ensures Stuck((Frame(m) + rest)[..n])
  {
    var b := (Frame(m) + rest)[..n];
    BigEndianRoundTrip(|m|);
    assert n >= 2 ==> b[0] == BigEndian(|m|)[0] && b[1] == BigEndian(|m|)[1];
  }

  lemma WholeCons(m: Payload, later: seq<Payload>, n: nat)
    ensures Whole([m] + later, n) == if |Frame(m)| > n then 0 else 1 + Whole(later, n - |Frame(m)|)
  {
    assert ([m] + later)[1..] == later;
  }

  lemma CutAfterFrame(m: Payload, later: seq<Payload>, n: nat)
    requires m != [] && |Frame(m)| <= n <= |Frame(m)| + |Stream(later)|
    requires Frames(Stream(later)[..n - |Frame(m)|]) == later[..Whole(later, n - |Frame(m)|)]
    ensures Frames((Frame(m) + Stream(later))[..n]) == [m] + later[..Whole(later, n - |Frame(m)|)]
  {
    TakeOfAppend(Frame(m), Stream(later), n);
    FramesStep(m, Stream(later)[..n - |Frame(m)|]);
  }

  /** A stream cut anywhere yields the messages that arrived whole, in order, and nothing else. */
  lemma {:induction false} FramesOfCutStream(ms: seq<Payload>, n: nat)
    requires n <= |Stream(ms)| && NoneEmpty(ms)
    ensures Frames(Stream(ms)[..n]) == ms[..Whole(ms, n)]
  {
    if ms == [] {
    } else {
      var m, later := ms[0], ms[1..];
      assert ms == [m] + later;
      WholeCons(m, later, n);
      if |Frame(m)| > n {
        CutFrameIsStuck(m, Stream(later), n);
      } else {
        FramesOfCutStream(later, n - |Frame(m)|);
        CutAfterFrame(m, later, n);
      }
    }
  }

  // ----------------------------------------------------------- the DoT server

  /** What a connection did: the messages it received, the bytes it wrote, and how it ended. */
  datatype Session = Session(received: seq<Payload>, output: Bytes, outcome: Outcome)

  /** Answers the messages in turn until one cannot be answered within a frame. */
  function Serve(answer: Answer, n: nat, ms: seq<Payload>, end: Outcome): Session
    decreases |ms|
  {
    if ms == [] then Session([], [], end)
    else match answer(n, ms[0])
      case None => Session([ms[0]], [], Failed)
      case Some(reply) =>
        if |reply| > 0xFFFF then Session([ms[0]], [], Failed)
        else
          var rest := Serve(answer, n + 1, ms[1..], end);
          Session([ms[0]] + rest.received, Frame(reply) + rest.output, rest.outcome)
  }

  /** A missing header or a zero length closes the connection; a missing body is an error. */
  function Ending(tail: Bytes): Outcome {
    if |tail| < 2 || FromBigEndian(tail[0], tail[1]) == 0 then Closed else Failed
  }

  function After(before: Session, s: Session): Session {
    Session(before.received + s.received, before.output + s.output, s.outcome)
  }

  /** The whole conversation over an input, from the n-th message on. */
  function Dialogue(answer: Answer, n: nat, input: Bytes): Session {
    Serve(answer, n, Frames(input), Ending(Tail(input)))
  }

  lemma DialogueStops(answer: Answer, n: nat, input: Bytes, pos: nat, before: Session)
    requires pos <= |input| && Stuck(input[pos..])
    ensures After(before, Dialogue(answer, n, input[pos..])) == before.(outcome := Ending(input[pos..]))
  {
    AfterEnd(before, Ending(input[pos..]));
  }

  /** One more message received and answered. */
  function Replied(before: Session, body: Payload, reply: Payload): Session {
    Session(before.received + [body], before.output + BigEndian(|reply|) + reply, Closed)
  }

  lemma DialogueStep(answer: Answer, n: nat, input: Bytes, pos: nat, end: nat, body: Payload, before: Session)
    requires pos <= |input| && !Stuck(input[pos..])
    requires end == pos + 2 + FromBigEndian(input[pos], input[pos + 1]) && end <= |input| && body == input[pos + 2..end]
    ensures After(before, Dialogue(answer, n, input[pos..])) ==
      if answer(n, body).None? || |answer(n, body).value| > 0xFFFF then
        before.(received := before.received + [body], outcome := Failed)
      else
        After(Replied(before, body, answer(n, body).value), Dialogue(answer, n + 1, input[end..]))
  {
    FrameAt(input, pos);
    ServeCons(answer, n, body, Frames(input[end..]), Ending(Tail(input[end..])));
    if answer(n, body).None? || |answer(n, body).value| > 0xFFFF {
      assert before.output + [] == before.output;
    } else {
      AfterOne(before, body, answer(n, body).value, Dialogue(answer, n + 1, input[end..]));
    }
  }

  method HandleDotConnection(answer: Answer, input: Bytes) returns (s: Session)
    ensures s == Dialogue(answer, 0, input)
  {
    var pos := 0;
    s := Session([], [], Closed);
    ghost var whole := Dialogue(answer, 0, input);
    assert input[0..] == input;
    AfterNothing(whole);
    while true
      invariant 0 <= pos <= |input|
      invariant After(s, Dialogue(answer, |s.received|, input[pos..])) == whole
      decreases |input| - pos
    {
      if |input| - pos < 2 {
        DialogueStops(answer, |s.received|, input, pos, s);
        return s.(outcome := Closed);
      }
      var len := FromBigEndian(input[pos], input[pos + 1]);
      if len == 0 {
        DialogueStops(answer, |s.received|, input, pos, s);
        return s.(outcome := Closed);
      }
      if |input| - pos - 2 < len {
        DialogueStops(answer, |s.received|, input, pos, s);
        return s.(outcome := Failed);
      }
      var end := pos + 2 + len;
      var body: Payload := input[pos + 2..end];
      DialogueStep(answer, |s.received|, input, pos, end, body, s);
      var reply := answer(|s.received|, body);
      if reply.None? || |reply.value| > 0xFFFF {
        return s.(received := s.received + [body], outcome := Failed);
      }
      s := Replied(s, body, reply.value);
      pos := end;
    }
  }

  lemma AfterNothing(s: Session)
    ensures After(Session([], [], Closed), s) == s
  {
    assert [] + s.received == s.received && [] + s.output == s.output;
  }

  lemma AfterEnd(before: Session, end: Outcome)
    ensures After(before, Session([], [], end)) == before.(outcome := end)
  {
    assert before.received + [] == before.received && before.output + [] == before.output;
  }

  lemma AfterOne(before: Session, body: Payload, reply: Payload, next: Session)
    ensures After(before, Session([body] + next.received, Frame(reply) + next.output, next.outcome))
         == After(Replied(before, body, reply), next)
  {
    Assoc(before.received, [body], next.received);
    Assoc(before.output, Frame(reply), next.output);
    Assoc(before.output, BigEndian(|reply|), reply);
  }

  lemma FrameAt(b: Bytes, pos: nat)
    requires pos <= |b| && !Stuck(b[pos..])
    ensures
      var n := FromBigEndian(b[pos], b[pos + 1]);
      && pos + 2 + n <= |b|
      && Frames(b[pos..]) == [b[pos + 2..pos + 2 + n]] + Frames(b[pos + 2 + n..])
      && Tail(b[pos..]) == Tail(b[pos + 2 + n..])
  {
    var n: nat := FromBigEndian(b[pos], b[pos + 1]);
    FramesHead(b[pos..]);
    SliceOfDrop(b, pos, 2, 2 + n);
  }

  lemma ServeCons(answer: Answer, n: nat, m: Payload, ms: seq<Payload>, end: Outcome)
    ensures Serve(answer, n, [m] + ms, end) ==
      if answer(n, m).None? || |answer(n, m).value| > 0xFFFF then Session([m], [], Failed)
      else
        var rest := Serve(answer, n + 1, ms, end);
        Session([m] + rest.received, Frame(answer(n, m).value) + rest.output, rest.outcome)
  {
    assert ([m] + ms)[1..] == ms;
  }

  lemma TailAfterFrame(m: Payload, rest: Bytes, n: nat)
    requires m != [] && |Frame(m)| <= n <= |Frame(m)| + |rest|
    ensures Tail((Frame(m) + rest)[..n]) == Tail(rest[..n - |Frame(m)|])
  {
    TakeOfAppend(Frame(m), rest, n);
    FramesStep(m, rest[..n - |Frame(m)|]);
  }

  /** What remains of a stream cut after `n` bytes when its whole messages are read: the bytes of the message
      that was cut. */
  function Remainder(ms: seq<Payload>, n: nat): Bytes {
    if ms == [] then []
    else if |Frame(ms[0])| > n then Frame(ms[0])[..n]
    else Remainder(ms[1..], n - |Frame(ms[0])|)
  }

  lemma RemainderCons(m: Payload, later: seq<Payload>, n: nat)
    ensures Remainder([m] + later, n) == if |Frame(m)| > n then Frame(m)[..n] else Remainder(later, n - |Frame(m)|)
  {
    assert ([m] + later)[1..] == later;
  }

  lemma {:induction false} RemainderSize(ms: seq<Payload>, n: nat)
    requires n <= |Stream(ms)|
    ensures n == |Stream(ms[..Whole(ms, n)])| + |Remainder(ms, n)|
  {
    if ms == [] {
    } else {
      var m, later := ms[0], ms[1..];
      assert ms == [m] + later;
      WholeCons(m, later, n);
      RemainderCons(m, later, n);
      if |Frame(m)| > n {
        assert ms[..0] == [];
      } else {
        var k := Whole(later, n - |Frame(m)|);
        RemainderSize(later, n - |Frame(m)|);
        TakeOfAppend([m], later, 1 + k);
        StreamCons(m, later[..k]);
      }
    }
  }

  lemma CutWithinFirst(m: Payload, rest: Bytes, n: nat)
    requires n < |Frame(m)|
    ensures Tail((Frame(m) + rest)[..n]) == Frame(m)[..n]
  {
    CutFrameIsStuck(m, rest, n);
    assert (Frame(m) + rest)[..n] == Frame(m)[..n];
  }

  lemma {:induction false} TailOfCutStream(ms: seq<Payload>, n: nat)
    requires n <= |Stream(ms)| && NoneEmpty(ms)
    ensures Tail(Stream(ms)[..n]) == Remainder(ms, n)
  {
    if ms == [] {
    } else {
      var m, later := ms[0], ms[1..];
      assert ms == [m] + later;
      RemainderCons(m, later, n);
      if |Frame(m)| > n {
        CutWithinFirst(m, Stream(later), n);
      } else {
        TailOfCutStream(later, n - |Frame(m)|);
        TailAfterFrame(m, Stream(later), n);
      }
    }
  }

  /** Cut within a header the connection is closed, cut within a body it fails. */
  lemma {:induction false} EndingOfRemainder(ms: seq<Payload>, n: nat)
    requires NoneEmpty(ms)
    ensures Ending(Remainder(ms, n)) == if |Remainder(ms, n)| < 2 then Closed else Failed
  {
    if ms == [] {
    } else {
      var m, later := ms[0], ms[1..];
      assert ms == [m] + later;
      RemainderCons(m, later, n);
      if |Frame(m)| > n {
        HeaderOfCutFrame(m, n);
      } else {
        EndingOfRemainder(later, n - |Frame(m)|);
      }
    }
  }

  lemma HeaderOfCutFrame(m: Payload, n: nat)
    requires m != [] && n < |Frame(m)|
    ensures Ending(Frame(m)[..n]) == if n < 2 then Closed else Failed
  {
    var b := Frame(m)[..n];
    BigEndianRoundTrip(|m|);
    assert n >= 2 ==> b[0] == BigEndian(|m|)[0] && b[1] == BigEndian(|m|)[1];
  }

  // ------------------------------------------------------------- end to end

  predicate FitsFrame(reply: Option<Bytes>) {
    reply.Some? && |reply.value| <= 0xFFFF
  }

  /** Every message has an answer that fits a frame. */
  predicate Answers(answer: Answer, n: nat, ms: seq<Payload>) {
    forall i :: 0 <= i < |ms| ==> FitsFrame(answer(n + i, ms[i]))
  }

  lemma AnswersRest(answer: Answer, n: nat, ms: seq<Payload>)
    requires Answers(answer, n, ms) && ms != []
    ensures FitsFrame(answer(n, ms[0])) && Answers(answer, n + 1, ms[1..])
  {
    assert FitsFrame(answer(n + 0, ms[0]));
    var rest := ms[1..];
    forall i | 0 <= i < |rest|
      ensures FitsFrame(answer(n + 1 + i, rest[i]))
    {
      assert FitsFrame(answer(n + (i + 1), ms[i + 1]));
    }
  }

  function Replies(answer: Answer, n: nat, ms: seq<Payload>): (r: seq<Payload>)
    requires Answers(answer, n, ms)
    ensures |r| == |ms|
    decreases |ms|
  {
    if ms == [] then []
    else
      AnswersRest(answer, n, ms);
      [answer(n, ms[0]).value] + Replies(answer, n + 1, ms[1..])
  }

  lemma {:induction false} RepliesAt(answer: Answer, n: nat, ms: seq<Payload>, i: nat)
    requires Answers(answer, n, ms) && i < |ms|
    ensures answer(n + i, ms[i]) == Some(Replies(answer, n, ms)[i])
    decreases i
  {
    AnswersRest(answer, n, ms);
    if i == 0 {
    } else {
      RepliesAt(answer, n + 1, ms[1..], i - 1);
    }
  }

  lemma {:induction false} RepliesToFirst(answer: Answer, n: nat, ms: seq<Payload>, k: nat)
    requires Answers(answer, n, ms) && k <= |ms|
    ensures Answers(answer, n, ms[..k]) && Replies(answer, n, ms[..k]) == Replies(answer, n, ms)[..k]
    decreases k
  {
    if k == 0 {
    } else {
      AnswersRest(answer, n, ms);
      RepliesToFirst(answer, n + 1, ms[1..], k - 1);
      assert ms[..k][1..] == ms[1..][..k - 1];
    }
  }

  lemma {:induction false} ServeAll(answer: Answer, n: nat, ms: seq<Payload>, end: Outcome)
    requires Answers(answer, n, ms)
    ensures Serve(answer, n, ms, end) == Session(ms, Stream(Replies(answer, n, ms)), end)
    decreases |ms|
  {
    if ms == [] {
    } else {
      var m, rest := ms[0], ms[1..];
      AnswersRest(answer, n, ms);
      ServeAll(answer, n + 1, rest, end);
      StreamCons(answer(n, m).value, Replies(answer, n + 1, rest));
      ServeCons(answer, n, m, rest, end);
      assert [m] + rest == ms;
    }
  }

  /** The n-th reply answers the n-th message. */
  lemma {:induction false} RepliesAnswer(answer: Answer, ms: seq<Payload>, replies: seq<Payload>)
    requires Answers(answer, 0, ms) && replies == Replies(answer, 0, ms)
    ensures forall i :: 0 <= i < |ms| ==> answer(i, ms[i]) == Some(replies[i])
  {
    forall i | 0 <= i < |ms|
      ensures answer(i, ms[i]) == Some(replies[i])
    {
      RepliesAt(answer, 0, ms, i);
    }
  }

  lemma {:induction false} PipelinedSession(answer: Answer, ms: seq<Payload>)
    requires NoneEmpty(ms) && Answers(answer, 0, ms)
    ensures Dialogue(answer, 0, Stream(ms)) == Session(ms, Stream(Replies(answer, 0, ms)), Closed)
  {
    FramesExactly(ms);
    ServeAll(answer, 0, ms, Closed);
  }

  /** A client that sends any list of messages, pipelined, has all of them received in order, and reads
      from the server's output exactly the answers, in order; the connection then closes cleanly. */
  lemma {:induction false} PipelinedExchange(answer: Answer, ms: seq<Payload>)
    requires NoneEmpty(ms) && Answers(answer, 0, ms) && NoneEmpty(Replies(answer, 0, ms))
    ensures
      var s := Dialogue(answer, 0, Stream(ms));
      && s.received == ms && s.outcome == Closed && |Frames(s.output)| == |ms|
      && forall i :: 0 <= i < |ms| ==> answer(i, ms[i]) == Some(Frames(s.output)[i])
  {
    PipelinedSession(answer, ms);
    FramesExactly(Replies(answer, 0, ms));
    RepliesAnswer(answer, ms, Replies(answer, 0, ms));
  }

  /** If the connection breaks after `n` bytes, the messages that arrived whole are received and answered. */
  lemma {:induction false} BrokenExchange(answer: Answer, ms: seq<Payload>, n: nat)
    requires NoneEmpty(ms) && Answers(answer, 0, ms) && n <= |Stream(ms)|
    ensures
      var s := Dialogue(answer, 0, Stream(ms)[..n]);
      && s.received == ms[..Whole(ms, n)] && s.output == Stream(Replies(answer, 0, ms)[..Whole(ms, n)])
      && (s.outcome == Failed <==> n - |Stream(ms[..Whole(ms, n)])| >= 2)
  {
    var k := Whole(ms, n);
    var cut := Stream(ms)[..n];
    FramesOfCutStream(ms, n);
    TailOfCutStream(ms, n);
    RemainderSize(ms, n);
    EndingOfRemainder(ms, n);
    RepliesToFirst(answer, 0, ms, k);
    ServeAll(answer, 0, ms[..k], Ending(Tail(cut)));
  }

  lemma RepliesCons(answer: Answer, n: nat, first: Payload, later: seq<Payload>)
    requires Answers(answer, n, [first] + later)
    ensures FitsFrame(answer(n, first)) && Answers(answer, n + 1, later)
    ensures Replies(answer, n, [first] + later) == [answer(n, first).value] + Replies(answer, n + 1, later)
  {
    AnswersRest(answer, n, [first] + later);
    assert ([first] + later)[1..] == later;
  }

  lemma ServeOneMore(answer: Answer, n: nat, first: Payload, more: seq<Payload>, end: Outcome, got: Session)
    requires FitsFrame(answer(n, first)) && Serve(answer, n + 1, more, end) == got
    ensures Serve(answer, n, [first] + more, end)
         == Session([first] + got.received, Frame(answer(n, first).value) + got.output, got.outcome)
  {
    ServeCons(answer, n, first, more, end);
  }

  lemma ServeFailsStep(
    answer: Answer, n: nat, first: Payload, later: seq<Payload>, m: Payload, rest: seq<Payload>, end: Outcome)
    requires Answers(answer, n, [first] + later) && Answers(answer, n + 1, later)
    requires Serve(answer, n + 1, later + ([m] + rest), end)
          == Session(later + [m], Stream(Replies(answer, n + 1, later)), Failed)
    ensures Serve(answer, n, [first] + later + ([m] + rest), end)
         == Session([first] + later + [m], Stream(Replies(answer, n, [first] + later)), Failed)
  {
    var replies := Replies(answer, n + 1, later);
    RepliesCons(answer, n, first, later);
    Assoc([first], later, [m] + rest);
    Assoc([first], later, [m]);
    ServeOneMore(answer, n, first, later + ([m] + rest), end, Session(later + [m], Stream(replies), Failed));
    StreamCons(answer(n, first).value, replies);
  }

  lemma {:induction false} ServeFails(
    answer: Answer, n: nat, ms: seq<Payload>, m: Payload, rest: seq<Payload>, end: Outcome)
    requires Answers(answer, n, ms) && !FitsFrame(answer(n + |ms|, m))
    ensures Serve(answer, n, ms + ([m] + rest), end) == Session(ms + [m], Stream(Replies(answer, n, ms)), Failed)
    decreases |ms|
  {
    if ms == [] {
      assert ms + ([m] + rest) == [m] + rest && ms + [m] == [m];
      ServeCons(answer, n, m, rest, end);
    } else {
      var first, later := ms[0], ms[1..];
      AnswersRest(answer, n, ms);
      ServeFails(answer, n + 1, later, m, rest, end);
      assert ms == [first] + later;
      ServeFailsStep(answer, n, first, later, m, rest, end);
    }
  }

  /** A message that cannot be answered within a frame is the last one received; what was answered before
      it was written, and nothing after it is. */
  lemma {:induction false} FailureStopsExchange(answer: Answer, ms: seq<Payload>, m: Payload, rest: seq<Payload>)
    requires NoneEmpty(ms + ([m] + rest)) && Answers(answer, 0, ms) && !FitsFrame(answer(|ms|, m))
    ensures Dialogue(answer, 0, Stream(ms + ([m] + rest))) == Session(ms + [m], Stream(Replies(answer, 0, ms)), Failed)
  {
    FramesExactly(ms + ([m] + rest));
    ServeFails(answer, 0, ms, m, rest, Closed);
  }

  lemma ZeroLengthIsStuck(b: Bytes)
    requires |b| >= 2 && b[0] == 0 && b[1] == 0
    ensures Stuck(b) && Ending(b) == Closed
  {
    assert FromBigEndian(b[0], b[1]) == 0;
  }

  lemma {:induction false} NothingInStuck(b: Bytes)
    requires Stuck(b)
    ensures Frames(b) == [] && Tail(b) == b
  {
  }

  /** A length of zero closes the connection, whatever follows. */
  lemma {:induction false} ZeroLengthCloses(answer: Answer, ms: seq<Payload>, junk: Bytes)
    requires NoneEmpty(ms) && Answers(answer, 0, ms)
    ensures Dialogue(answer, 0, Stream(ms) + ([0, 0] + junk)) == Session(ms, Stream(Replies(answer, 0, ms)), Closed)
  {
    var rest: Bytes := [0, 0] + junk;
    ZeroLengthIsStuck(rest);
    NothingInStuck(rest);
    FramesOfStream(ms, rest);
    assert ms + [] == ms;
    ServeAll(answer, 0, ms, Closed);
  }

  /** A frame is the length, high byte first, and then the message: section 4.2.2 of RFC 1035. */
  lemma FrameLayout(m: Payload)
    ensures |Frame(m)| == 2 + |m| && Frame(m)[2..] == m
    ensures 256 * (Frame(m)[0] as int) + (Frame(m)[1] as int) == |m|
  {
    HighByteFirst(|m|, Frame(m)[0], Frame(m)[1]);
  }

  // ----------------------------------------------------------- the TCP server

  /** One message is read, of at most `maxSize` bytes and possibly empty, and one is written. */
  method HandleTcpConnection(answer: Answer, maxSize: nat, input: Bytes) returns (output: Bytes, outcome: Outcome)
    ensures outcome == Failed ==> output == []
    ensures outcome == Closed <==>
      && |input| >= 2 && FromBigEndian(input[0], input[1]) <= maxSize
      && 2 + FromBigEndian(input[0], input[1]) <= |input|
      && answer(0, input[2..2 + FromBigEndian(input[0], input[1])]).Some?
      && |answer(0, input[2..2 + FromBigEndian(input[0], input[1])]).value| <= 0xFFFF
    ensures outcome == Closed ==> output == Frame(answer(0, input[2..2 + FromBigEndian(input[0], input[1])]).value)
  {
    if |input| < 2 { return [], Failed; }
    var len := FromBigEndian(input[0], input[1]);
    if len > maxSize { return [], Failed; }
    if |input| < 2 + len { return [], Failed; }
    var body := input[2..2 + len];
    var reply := answer(0, body);
    if reply.None? || |reply.value| > 0xFFFF { return [], Failed; }
    output := BigEndian(|reply.value|);
    output := output + reply.value;
    outcome := Closed;
  }
}
