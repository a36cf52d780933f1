/**
  The request/response protocol of a client and a server over one connection, as a machine whose steps
  interleave freely: each write and read moves any number of bytes, and either side may stop at any point.
  */
module TwoPeers {
  import opened Prelude
  import opened Framing
  import opened DecoderRuns
  import opened Json
  import opened Messages
  import opened Profiles
  import opened Channel

  datatype Setup = Setup(
    codec: TextCodec,
    requests: seq<Message>,
    clientMax: nat,
    serverMax: nat,
    maxMessages: nat,
    profile: Definition,
    outcome: HandshakeOutcome)

  ghost predicate ValidSetup(u: Setup) {
    && Faithful(u.codec)
    && LegalLength(u.clientMax, ABSOLUTE_MAX_FRAME_SIZE)
    && LegalLength(u.serverMax, ABSOLUTE_MAX_FRAME_SIZE)
  }

  datatype ClientPhase = Ready | Sending | Waiting | Finished | Failed
  datatype ServerPhase = Serving | Replying | Ended

  /**
    `up` carries requests, `down` replies. `verdicts` records, for each request the server has taken,
    whether it parsed; `replies` records the replies the server has begun to send.
    */
  datatype State = State(
    client: ClientPhase,
    responses: seq<Message>,
    server: ServerPhase,
    closing: bool,
    verdicts: seq<bool>,
    replies: seq<Message>,
    up: Channel,
    down: Channel)

  const INITIAL := State(Ready, [], Serving, false, [], [], IDLE, IDLE)

  datatype Step =
    | ClientBegin
    | ClientWrite(n: nat)
    | ClientRead(n: nat)
    | ClientTake(freshId: string, now: string)
    | ClientFail
    | ServerRead(n: nat)
    | ServerTake(freshId: string, reason: string, now: string)
    | ServerWrite(n: nat)
    | ServerStop

  function Text(u: Setup, m: Message): Option<seq<byte>> {
    u.codec.dump(ToJson(m))
  }

  /** `serialize` and `encode` both succeed. */
  predicate CanSend(u: Setup, m: Message, max: nat) {
    Text(u, m).Some? && Encode(Text(u, m).value, max).Ok?
  }

  predicate Enabled(u: Setup, s: State, step: Step) {
    match step
    case ClientBegin => s.client == Ready
    case ClientWrite(n) => s.client == Sending && 0 < n <= |s.up.unsent|
    case ClientRead(n) => s.client == Waiting && 0 < n <= Min(READ_CHUNK, |s.down.inFlight|) && Sane(s.down.dec)
                          && NextStep(s.down.dec, u.clientMax).result.NeedMore?
    case ClientTake(freshId, _) => s.client == Waiting && Sane(s.down.dec)
                                   && NextStep(s.down.dec, u.clientMax).result.Delivered?
    case ClientFail => s.client in {Ready, Sending, Waiting}
    case ServerRead(n) => s.server == Serving && 0 < n <= Min(READ_CHUNK, |s.up.inFlight|)
                          && s.up.taken < u.maxMessages && Sane(s.up.dec)
                          && NextStep(s.up.dec, u.serverMax).result.NeedMore?
    case ServerTake(freshId, _, _) => s.server == Serving && s.up.taken < u.maxMessages && |freshId| <= MAX_MESSAGE_ID
                                      && Sane(s.up.dec) && NextStep(s.up.dec, u.serverMax).result.Delivered?
    case ServerWrite(n) => s.server == Replying && 0 < n <= |s.down.unsent|
    case ServerStop => s.server in {Serving, Replying}
  }

  /** The client's `for` loop moves to its next message, or past its last. */
  function BeginRequest(u: Setup, s: State): State {
    if |s.up.texts| >= |u.requests| then s.(client := Finished)
    else
      var m := u.requests[|s.up.texts|];
      if !CanSend(u, m, u.clientMax) then s.(client := Failed)
      else s.(client := Sending, up := Begin(s.up, Text(u, m).value))
  }

  function WriteRequest(u: Setup, s: State, n: nat): State
    requires n <= |s.up.unsent|
  {
    var up := Write(s.up, n);
    if up.unsent != [] then s.(up := up)
    else
      var last := |up.texts| - 1;
      var isClose := 0 <= last < |u.requests| && u.requests[last].mtype == Close;
      s.(up := up, client := if isClose then Finished else Waiting)
  }

  ghost function TakeReply(u: Setup, s: State, freshId: string, now: string): State
    requires Sane(s.down.dec) && NextStep(s.down.dec, u.clientMax).result.Delivered?
  {
    var text := NextStep(s.down.dec, u.clientMax).result.payload;
    var parsed := ParseText(u.codec, text, freshId, now);
    var s' := s.(down := Take(s.down, u.clientMax));
    if parsed.Err? then s'.(client := Failed)
    else s'.(client := Ready, responses := s.responses + [parsed.value])
  }

  /** The server has taken a request and knows its answer: none, or one it may fail to send. */
  function Respond(u: Setup, s: State, accepted: bool, reply: Option<Message>): State
    requires Sane(s.up.dec)
  {
    var s' := s.(up := Take(s.up, u.serverMax), verdicts := s.verdicts + [accepted],
                 closing := !accepted || reply.None?);
    if reply.None? || !CanSend(u, reply.value, u.serverMax) then s'.(server := Ended)
    else s'.(server := Replying, replies := s.replies + [reply.value],
             down := Begin(s.down, Text(u, reply.value).value))
  }

  ghost function HandleRequest(u: Setup, s: State, freshId: string, reason: string, now: string): State
    requires Sane(s.up.dec) && NextStep(s.up.dec, u.serverMax).result.Delivered?
  {
    var text := NextStep(s.up.dec, u.serverMax).result.payload;
    var parsed := ParseText(u.codec, text, freshId, now);
    var reply := if parsed.Ok? then HandleMessage(parsed.value, u.profile, u.outcome, now)
                 else Some(MakeError(freshId, reason, now));
    Respond(u, s, parsed.Ok?, reply)
  }

  function WriteReply(s: State, n: nat): State
    requires n <= |s.down.unsent|
  {
    var down := Write(s.down, n);
    if down.unsent != [] then s.(down := down)
    else s.(down := down, server := if s.closing then Ended else Serving)
  }

  ghost function Apply(u: Setup, s: State, step: Step): State
    requires Enabled(u, s, step)
  {
    match step
    case ClientBegin => BeginRequest(u, s)
    case ClientWrite(n) => WriteRequest(u, s, n)
    case ClientRead(n) =>
      var threw := FeedStep(s.down.dec, u.clientMax, s.down.inFlight[..n]).threw;
      s.(down := Read(s.down, n, u.clientMax), client := if threw then Failed else Waiting)
    case ClientTake(freshId, now) => TakeReply(u, s, freshId, now)
    case ClientFail => s.(client := Failed)
    case ServerRead(n) =>
      var threw := FeedStep(s.up.dec, u.serverMax, s.up.inFlight[..n]).threw;
      s.(up := Read(s.up, n, u.serverMax), server := if threw then Ended else Serving)
    case ServerTake(freshId, reason, now) => HandleRequest(u, s, freshId, reason, now)
    case ServerWrite(n) => WriteReply(s, n)
    case ServerStop => s.(server := Ended)
  }

  // ---------------------------------------------------------------- invariant

  /** The server's parser accepts the request. */
  predicate Accepted(m: Message) {
    ParseDocument(ToJson(m), "", "").Ok?
  }

  /** What the server makes of an accepted request: version 1, and an object for a payload that was left out. */
  function Received(m: Message): Message {
    m.(version := PROTOCOL_VERSION, payload := if IsEmptyPayload(m.payload) then EMPTY_OBJECT else m.payload)
  }

  /**
    Which requests are accepted, and as what. Acceptance depends neither on the clock nor on the generated id, and an
    accepted request keeps its id, type, timestamp, status and payload.
    */
  lemma AcceptedKeepsId(m: Message, freshId: string, now: string)
    ensures ParseDocument(ToJson(m), freshId, now).Ok? <==> Accepted(m)
    ensures Accepted(m) <==>
            && m.version % 0x1_0000_0000 == 1
            && |m.id| <= 128
            && (IsEmptyPayload(m.payload) || (m.payload.JObject? && Depth(m.payload) <= 15))
            && (m.mtype == Telemetry ==> HasDeviceId(m.payload))
    ensures Accepted(m) ==> ParseDocument(ToJson(m), freshId, now).value == Received(m)
  {
    hide Depth, Lookup, NarrowToInt, TypeFromName, TypeName;
    ToJsonDepth(m);
    TypeNamesRoundTrip(m.mtype);
    NarrowingIsModular(m.version);
    NoDeviceIdInEmpty();
    ToJsonLookup(m, "message_id");
    ToJsonLookup(m, "payload");
    ToJsonLookup(m, "protocol_version");
    ToJsonLookup(m, "status");
    ToJsonLookup(m, "timestamp");
    ToJsonLookup(m, "type");
  }

  lemma NoDeviceIdInEmpty()
    ensures !HasDeviceId(EMPTY_OBJECT)
  {
  }

  /**
    Which reply a request gets, by the server's verdict on it: an accepted one the reply that fits its type, any other
    an error that says why.
    */
  predicate Answers(profile: Definition, outcome: HandshakeOutcome, request: Message, accepted: bool, reply: Message) {
    if accepted then ProperReply(profile, outcome, Received(request), reply)
    else reply.mtype == Error && reply.status == Some("rejected") && GivesAReason(reply.payload)
  }

  ghost predicate TextsOf(u: Setup, messages: seq<Message>, texts: seq<seq<byte>>) {
    && |texts| <= |messages|
    && forall i :: 0 <= i < |texts| ==> Text(u, messages[i]) == Some(texts[i])
  }

  predicate AllSendable(replies: seq<Message>) {
    forall i :: 0 <= i < |replies| ==> Sendable(replies[i])
  }

  predicate VerdictsTrue(requests: seq<Message>, verdicts: seq<bool>) {
    && |verdicts| <= |requests|
    && forall i :: 0 <= i < |verdicts| ==> (verdicts[i] <==> Accepted(requests[i]))
  }

  /** The server closes the connection after the request it took last: it is no valid message, or a `close`. */
  predicate LastEnds(requests: seq<Message>, verdicts: seq<bool>)
    requires |verdicts| <= |requests|
  {
    verdicts != [] && (!verdicts[|verdicts| - 1] || requests[|verdicts| - 1].mtype == Close)
  }

  /** Replies match requests in order, and the server is closing exactly when the last request calls for it. */
  predicate Answered(u: Setup, verdicts: seq<bool>, replies: seq<Message>, closing: bool) {
    && |replies| <= |verdicts| <= |u.requests|
    && (forall i :: 0 <= i < |replies| ==> Answers(u.profile, u.outcome, u.requests[i], verdicts[i], replies[i]))
    && (forall i :: 0 <= i < |verdicts| && !verdicts[i] ==> i == |verdicts| - 1)
    && (closing <==> LastEnds(u.requests, verdicts))
  }

  /** Where the client is: `n` requests begun, `r` responses, `taken` reply frames reassembled. */
  predicate ClientShape(requests: seq<Message>, phase: ClientPhase, n: nat, r: nat, allWritten: bool, taken: nat) {
    && r <= n <= |requests|
    && match phase
       case Ready => allWritten && n == r == taken
       case Sending => n == r + 1 && taken == r
       case Waiting => allWritten && n == r + 1 && taken == r && requests[r].mtype != Close
       case Finished => allWritten && taken == r
                        && if n == r then r == |requests| else n == r + 1 && requests[r].mtype == Close
       case Failed => n <= r + 1 && r <= taken <= r + 1
  }

  /** Where the server is: `taken` requests handled, `h` replies begun. */
  predicate ServerShape(phase: ServerPhase, closing: bool, taken: nat, h: nat, allWritten: bool) {
    && h <= taken <= h + 1
    && match phase
       case Serving => allWritten && taken == h && !closing
       case Replying => taken == h
       case Ended => true
  }

  ghost predicate Inv(u: Setup, s: State) {
    && Conserved(s.up)
    && Conserved(s.down)
    && TextsOf(u, u.requests, s.up.texts)
    && TextsOf(u, s.replies, s.down.texts)
    && |s.down.texts| == |s.replies|
    && |s.verdicts| == s.up.taken
    && AllSendable(s.replies)
    && VerdictsTrue(u.requests, s.verdicts)
    && Answered(u, s.verdicts, s.replies, s.closing)
    && s.responses <= s.replies
    && ClientShape(u.requests, s.client, |s.up.texts|, |s.responses|, s.up.unsent == [], s.down.taken)
    && ServerShape(s.server, s.closing, s.up.taken, |s.replies|, s.down.unsent == [])
  }

  // ---------------------------------------------------------------- every step keeps it

  lemma BeginRequestKeeps(u: Setup, s: State)
    requires ValidSetup(u) && Inv(u, s) && s.client == Ready
    ensures Inv(u, BeginRequest(u, s))
  {
    hide Accepted, Sendable, Text, Answered, VerdictsTrue, AllSendable, Conserved;
    if |s.up.texts| < |u.requests| && CanSend(u, u.requests[|s.up.texts|], u.clientMax) {
      BeginConserves(s.up, Text(u, u.requests[|s.up.texts|]).value);
    }
  }

  lemma ReplyComesBack(u: Setup, s: State, freshId: string, now: string)
    requires ValidSetup(u) && Inv(u, s) && s.client == Waiting
    requires Sane(s.down.dec) && NextStep(s.down.dec, u.clientMax).result.Delivered?
    ensures s.down.taken < |s.replies|
    ensures ParseText(u.codec, NextStep(s.down.dec, u.clientMax).result.payload, freshId, now)
            == Ok(s.replies[s.down.taken])
    ensures Conserved(Take(s.down, u.clientMax))
  {
    hide ParseText, NextStep, Accepted, Answered;
    TakeConserves(s.down, u.clientMax);
    TextRoundTrip(u.codec, s.replies[s.down.taken], freshId, now);
  }

  lemma TakeReplyKeeps(u: Setup, s: State, freshId: string, now: string)
    requires ValidSetup(u) && Inv(u, s) && s.client == Waiting
    requires Sane(s.down.dec) && NextStep(s.down.dec, u.clientMax).result.Delivered?
    ensures Inv(u, TakeReply(u, s, freshId, now))
  {
    hide Conserved, VerdictsTrue, Answered, TextsOf, AllSendable, Accepted, Sendable, NextStep, ParseText, Faithful;
    ReplyComesBack(u, s, freshId, now);
  }

  lemma RequestReply(u: Setup, m: Message, text: seq<byte>, freshId: string, reason: string, now: string)
    requires ValidSetup(u) && Text(u, m) == Some(text) && |freshId| <= MAX_MESSAGE_ID
    ensures var parsed := ParseText(u.codec, text, freshId, now);
            && (parsed.Ok? <==> Accepted(m))
            && (parsed.Ok? ==> var reply := HandleMessage(parsed.value, u.profile, u.outcome, now);
                               && (reply.None? <==> m.mtype == Close)
                               && (reply.Some? ==> Sendable(reply.value)
                                                   && Answers(u.profile, u.outcome, m, true, reply.value)))
            && (parsed.Err? ==> Sendable(MakeError(freshId, reason, now))
                                && Answers(u.profile, u.outcome, m, false, MakeError(freshId, reason, now)))
  {
    var parsed := ParseText(u.codec, text, freshId, now);
    assert parsed == ParseDocument(ToJson(m), freshId, now);
    hide ParseText, ParseDocument, Sendable, HandleMessage, MakeError, ProperReply, GivesAReason, ToJson, Accepted;
    AcceptedKeepsId(m, freshId, now);
    ErrorReplyIsSendable(freshId, reason, now);
    ErrorsGiveAReason(freshId, reason, now);
    if parsed.Ok? {
      ParsedIsSendable(ToJson(m), freshId, now);
      ReplyIsSendable(parsed.value, u.profile, u.outcome, now);
      RepliesAreProper(parsed.value, u.profile, u.outcome, now);
    }
  }

  lemma VerdictsSnoc(requests: seq<Message>, verdicts: seq<bool>, accepted: bool)
    requires VerdictsTrue(requests, verdicts) && |verdicts| < |requests|
    requires accepted <==> Accepted(requests[|verdicts|])
    ensures VerdictsTrue(requests, verdicts + [accepted])
  {
    hide Accepted;
  }

  lemma AnsweredSnoc(u: Setup, verdicts: seq<bool>, replies: seq<Message>, accepted: bool, reply: Option<Message>)
    requires Answered(u, verdicts, replies, false) && |replies| == |verdicts| < |u.requests|
    requires reply.None? <==> accepted && u.requests[|verdicts|].mtype == Close
    requires reply.Some? ==> Answers(u.profile, u.outcome, u.requests[|verdicts|], accepted, reply.value)
    ensures Answered(u, verdicts + [accepted], replies, !accepted || reply.None?)
    ensures reply.Some? ==> Answered(u, verdicts + [accepted], replies + [reply.value], !accepted)
  {
    hide Answers;
  }

  lemma TextsSnoc(u: Setup, messages: seq<Message>, texts: seq<seq<byte>>, m: Message, text: seq<byte>)
    requires TextsOf(u, messages, texts) && |texts| == |messages| && Text(u, m) == Some(text)
    ensures TextsOf(u, messages + [m], texts + [text])
  {
    hide Text;
  }

  lemma SendableSnoc(replies: seq<Message>, m: Message)
    requires AllSendable(replies) && Sendable(m)
    ensures AllSendable(replies + [m])
  {
    hide Sendable;
  }

  lemma RespondKeeps(u: Setup, s: State, accepted: bool, reply: Option<Message>)
    requires u.serverMax <= ABSOLUTE_MAX_FRAME_SIZE && Inv(u, s) && s.server == Serving
    requires NextStep(s.up.dec, u.serverMax).result.Delivered? && s.up.taken < |u.requests|
    requires accepted <==> Accepted(u.requests[s.up.taken])
    requires reply.None? <==> accepted && u.requests[s.up.taken].mtype == Close
    requires reply.Some? ==> Sendable(reply.value)
    requires reply.Some? ==> Answers(u.profile, u.outcome, u.requests[s.up.taken], accepted, reply.value)
    ensures Inv(u, Respond(u, s, accepted, reply))
  {
    hide Conserved, VerdictsTrue, Answered, TextsOf, AllSendable, Accepted, Sendable, NextStep, Encode, Text, Answers;
    TakeConserves(s.up, u.serverMax);
    VerdictsSnoc(u.requests, s.verdicts, accepted);
    AnsweredSnoc(u, s.verdicts, s.replies, accepted, reply);
    if reply.Some? && CanSend(u, reply.value, u.serverMax) {
      var text := Text(u, reply.value).value;
      EncodeDecodeLength(text, u.serverMax);
      BeginConserves(s.down, text);
      TextsSnoc(u, s.replies, s.down.texts, reply.value, text);
      SendableSnoc(s.replies, reply.value);
    }
  }

  lemma RequestComesIn(u: Setup, s: State)
    requires u.serverMax <= ABSOLUTE_MAX_FRAME_SIZE && Inv(u, s) && NextStep(s.up.dec, u.serverMax).result.Delivered?
    ensures s.up.taken < |u.requests|
    ensures Text(u, u.requests[s.up.taken]) == Some(NextStep(s.up.dec, u.serverMax).result.payload)
  {
    hide Conserved, VerdictsTrue, Answered, AllSendable, NextStep, Text;
    TakeConserves(s.up, u.serverMax);
  }

  lemma HandleRequestKeeps(u: Setup, s: State, freshId: string, reason: string, now: string)
    requires ValidSetup(u) && Inv(u, s) && s.server == Serving && |freshId| <= MAX_MESSAGE_ID
    requires Sane(s.up.dec) && NextStep(s.up.dec, u.serverMax).result.Delivered?
    ensures Inv(u, HandleRequest(u, s, freshId, reason, now))
  {
    hide Inv, NextStep, Faithful, Accepted, Sendable, ParseText, HandleMessage, MakeError, Answers, Text, Respond;
    var text := NextStep(s.up.dec, u.serverMax).result.payload;
    RequestComesIn(u, s);
    RequestReply(u, u.requests[s.up.taken], text, freshId, reason, now);
    var parsed := ParseText(u.codec, text, freshId, now);
    var reply := if parsed.Ok? then HandleMessage(parsed.value, u.profile, u.outcome, now)
                 else Some(MakeError(freshId, reason, now));
    RespondKeeps(u, s, parsed.Ok?, reply);
  }

  lemma ClientMovesKeep(u: Setup, s: State, step: Step)
    requires Inv(u, s) && Enabled(u, s, step) && (step.ClientWrite? || step.ClientRead? || step.ClientFail?)
    ensures Inv(u, Apply(u, s, step))
  {
    hide Conserved, Accepted, Sendable, NextStep, FeedStep, Text;
    match step
    case ClientWrite(n) => WriteConserves(s.up, n);
    case ClientRead(n) => ReadConserves(s.down, n, u.clientMax);
    case ClientFail =>
  }

  lemma ServerMovesKeep(u: Setup, s: State, step: Step)
    requires Inv(u, s) && Enabled(u, s, step) && (step.ServerWrite? || step.ServerRead? || step.ServerStop?)
    ensures Inv(u, Apply(u, s, step))
  {
    hide Conserved, Accepted, Sendable, NextStep, FeedStep, Text;
    match step
    case ServerRead(n) => ReadConserves(s.up, n, u.serverMax);
    case ServerWrite(n) => WriteConserves(s.down, n);
    case ServerStop =>
  }

  lemma StepKeepsInv(u: Setup, s: State, step: Step)
    requires ValidSetup(u) && Inv(u, s) && Enabled(u, s, step)
    ensures Inv(u, Apply(u, s, step))
  {
    hide Conserved, Accepted, Sendable, NextStep, FeedStep, Text, ParseText, HandleMessage, MakeError, Inv;
    match step
    case ClientBegin => BeginRequestKeeps(u, s);
    case ClientTake(freshId, now) => TakeReplyKeeps(u, s, freshId, now);
    case ServerTake(freshId, reason, now) => HandleRequestKeeps(u, s, freshId, reason, now);
    case ClientWrite(_) => ClientMovesKeep(u, s, step);
    case ClientRead(_) => ClientMovesKeep(u, s, step);
    case ClientFail => ClientMovesKeep(u, s, step);
    case ServerRead(_) => ServerMovesKeep(u, s, step);
    case ServerWrite(_) => ServerMovesKeep(u, s, step);
    case ServerStop => ServerMovesKeep(u, s, step);
  }

  // ---------------------------------------------------------------- whole runs

  /** `states` is a run: it starts in the initial state and every step is one of the machine's. */
  ghost predicate IsRun(u: Setup, states: seq<State>, steps: seq<Step>) {
    && |states| == |steps| + 1
    && states[0] == INITIAL
    && forall i :: 0 <= i < |steps| ==>
         Enabled(u, states[i], steps[i]) && states[i + 1] == Apply(u, states[i], steps[i])
  }

  lemma {:induction false} RunsKeepInv(u: Setup, states: seq<State>, steps: seq<Step>, k: nat)
    requires ValidSetup(u) && IsRun(u, states, steps) && k < |states|
    ensures Inv(u, states[k])
  {
    hide Apply, Enabled;
    if k == 0 {
    } else {
      RunsKeepInv(u, states, steps, k - 1);
      StepKeepsInv(u, states[k - 1], steps[k - 1]);
    }
  }

  /**
    In every state of every run: at most one request is outstanding; the i-th response is what the server sent as its
    i-th reply, and it is the reply that fits the i-th request if the server accepted that request (or an error that
    says why, and then the last reply, if not); and in each direction the bytes counted as sent are the bytes counted
    as received plus the bytes in flight.
    */
  lemma ProtocolSafety(u: Setup, states: seq<State>, steps: seq<Step>, k: nat)
    requires ValidSetup(u) && IsRun(u, states, steps) && k < |states|
    ensures var s := states[k];
            && |s.up.texts| <= |s.responses| + 1
            && |s.responses| <= |s.replies| <= s.up.taken <= |s.up.texts| <= |u.requests|
            && s.responses <= s.replies
            && (forall i :: 0 <= i < |s.replies| ==>
                  Answers(u.profile, u.outcome, u.requests[i], Accepted(u.requests[i]), s.replies[i]))
            && (forall i :: 0 <= i < s.up.taken && !Accepted(u.requests[i]) ==> i == s.up.taken - 1)
            && s.up.bytesSent == s.up.bytesReceived + |s.up.inFlight|
            && s.down.bytesSent == s.down.bytesReceived + |s.down.inFlight|
  {
    hide Accepted, Sendable, Apply, Enabled, Answers;
    RunsKeepInv(u, states, steps, k);
  }

  /** In every state of every run: a `close` the server accepted has no reply, is the last it took, and ended it. */
  lemma CloseEndsTheServer(u: Setup, states: seq<State>, steps: seq<Step>, k: nat, i: nat)
    requires ValidSetup(u) && IsRun(u, states, steps) && k < |states|
    requires i < states[k].up.taken <= |u.requests| && Accepted(u.requests[i]) && u.requests[i].mtype == Close
    ensures i == states[k].up.taken - 1 == |states[k].replies|
    ensures states[k].server == Ended
  {
    hide Accepted, Sendable, Apply, Enabled, GivesAReason, Conserved, TextsOf, AllSendable;
    RunsKeepInv(u, states, steps, k);
  }

  /** A client that finished has one response for each request, matching in order, up to a final `close`. */
  lemma FinishedClientHasAllResponses(u: Setup, states: seq<State>, steps: seq<Step>, k: nat)
    requires ValidSetup(u) && IsRun(u, states, steps) && k < |states| && states[k].client == Finished
    ensures var r := states[k].responses;
            && |r| <= |u.requests|
            && (|r| == |u.requests| || u.requests[|r|].mtype == Close)
            && (forall i :: 0 <= i < |r| ==>
                  Answers(u.profile, u.outcome, u.requests[i], Accepted(u.requests[i]), r[i]))
    ensures |Wire(states[k].up.texts)| == states[k].up.bytesSent
  {
    hide Accepted, Sendable, Apply, Enabled, Answers;
    RunsKeepInv(u, states, steps, k);
  }

  // ---------------------------------------------------------------- why a peer stops

  /** The reply is on its way, or the server could not send it and has ended. */
  predicate SentOrEnded(u: Setup, s: State, s': State, reply: Message) {
    if CanSend(u, reply, u.serverMax) then s'.replies == s.replies + [reply] && s'.server == Replying
    else s'.replies == s.replies && s'.server == Ended
  }

  /** Every request the server takes is answered, unless it is an accepted `close` or its answer cannot be sent. */
  lemma TakenRequestIsAnswered(u: Setup, states: seq<State>, steps: seq<Step>, k: nat)
    requires ValidSetup(u) && IsRun(u, states, steps) && k < |steps| && steps[k].ServerTake?
    ensures var s, s' := states[k], states[k + 1];
            && s.up.taken < |u.requests| && s'.up.taken == s.up.taken + 1
            && (var m := u.requests[s.up.taken];
                if Accepted(m) && m.mtype == Close then s'.replies == s.replies && s'.server == Ended
                else exists reply ::
                       Answers(u.profile, u.outcome, m, Accepted(m), reply) && SentOrEnded(u, s, s', reply))
  {
    hide Inv, NextStep, Faithful, Accepted, Sendable, ParseText, HandleMessage, MakeError, Answers, Text, CanSend;
    RunsKeepInv(u, states, steps, k);
    var s, s', step := states[k], states[k + 1], steps[k];
    RequestComesIn(u, s);
    var text := NextStep(s.up.dec, u.serverMax).result.payload;
    RequestReply(u, u.requests[s.up.taken], text, step.freshId, step.reason, step.now);
    var parsed := ParseText(u.codec, text, step.freshId, step.now);
    var reply := if parsed.Ok? then HandleMessage(parsed.value, u.profile, u.outcome, step.now)
                 else Some(MakeError(step.freshId, step.reason, step.now));
    assert reply.Some? ==> SentOrEnded(u, s, s', reply.value);
  }

  /** Having written a reply the server serves on, unless it rejected the request it answered. */
  lemma ServerGoesOnExactlyWhen(u: Setup, states: seq<State>, steps: seq<Step>, k: nat)
    requires ValidSetup(u) && IsRun(u, states, steps) && k < |steps| && steps[k].ServerWrite?
    ensures var s, s' := states[k], states[k + 1];
            && 0 < s.up.taken <= |u.requests|
            && s'.server == (if steps[k].n < |s.down.unsent| then Replying
                             else if Accepted(u.requests[s.up.taken - 1]) then Serving
                             else Ended)
  {
    hide Accepted, Sendable, Answers, Text, AllSendable, TextsOf, Conserved, Apply, Enabled, Answered, VerdictsTrue;
    RunsKeepInv(u, states, steps, k);
    var s, s' := states[k], states[k + 1];
    assert s.server == Replying && s.down.unsent != [] && s' == WriteReply(s, steps[k].n) by {
      WhatAWriteDoes(u, s, steps[k]);
    }
    NothingSentNothingLeft(s.down);
    ClosingExactlyWhen(u, s);
  }

  lemma WhatAWriteDoes(u: Setup, s: State, step: Step)
    requires Enabled(u, s, step) && step.ServerWrite?
    ensures s.server == Replying && 0 < step.n <= |s.down.unsent| && Apply(u, s, step) == WriteReply(s, step.n)
  {
  }

  /** A server that is replying closes afterwards exactly when it rejected the request it took last. */
  lemma ClosingExactlyWhen(u: Setup, s: State)
    requires Inv(u, s) && s.server == Replying && s.replies != []
    ensures 0 < s.up.taken <= |u.requests|
    ensures s.closing <==> !Accepted(u.requests[s.up.taken - 1])
  {
    hide Accepted, Sendable, Tells, GivesAReason, AllSendable, TextsOf, Conserved;
    var i := s.up.taken - 1;
    assert Answers(u.profile, u.outcome, u.requests[i], s.verdicts[i], s.replies[i]);
  }

  lemma NothingSentNothingLeft(c: Channel)
    requires Conserved(c) && c.unsent != []
    ensures c.texts != []
  {
  }

  /** The client goes on with every reply it takes, and stops of itself only when it cannot send or cannot read. */
  lemma ClientStopsExactlyWhen(u: Setup, states: seq<State>, steps: seq<Step>, k: nat)
    requires ValidSetup(u) && IsRun(u, states, steps) && k < |steps|
    ensures var s, s' := states[k], states[k + 1];
            match steps[k]
            case ClientBegin =>
              if |s.responses| == |u.requests| then s'.client == Finished
              else |s.responses| < |u.requests|
                   && s'.client == if CanSend(u, u.requests[|s.responses|], u.clientMax) then Sending else Failed
            case ClientWrite(n) =>
              |s.responses| < |u.requests|
              && s'.client == if n < |s.up.unsent| then Sending
                              else if u.requests[|s.responses|].mtype == Close then Finished else Waiting
            case ClientRead(n) =>
              s'.client == if FeedStep(s.down.dec, u.clientMax, s.down.inFlight[..n]).threw then Failed else Waiting
            case ClientTake(_, _) =>
              |s.responses| < |s.replies| && s'.responses == s.responses + [s.replies[|s.responses|]]
              && s'.client == Ready
            case ClientFail => s'.client == Failed
            case _ => s'.client == s.client && s'.responses == s.responses
  {
    hide NextStep, FeedStep, Faithful, Accepted, Sendable, ParseText, HandleMessage, MakeError, Answers, CanSend;
    hide Conserved, TextsOf, AllSendable, VerdictsTrue, Answered;
    RunsKeepInv(u, states, steps, k);
    if steps[k].ClientTake? {
      ReplyComesBack(u, states[k], steps[k].freshId, steps[k].now);
    }
  }

  /**
    No mutual wait: it never happens that the client waits for a response and the server for a request,
    both with incomplete input, while nothing is in flight in either direction.
    */
  lemma NoMutualWait(u: Setup, states: seq<State>, steps: seq<Step>, k: nat)
    requires ValidSetup(u) && IsRun(u, states, steps) && k < |states|
    ensures var s := states[k];
            !(&& s.client == Waiting && s.down.inFlight == [] && Sane(s.down.dec)
              && NextStep(s.down.dec, u.clientMax).result.NeedMore?
              && s.server == Serving && s.up.inFlight == [] && Sane(s.up.dec)
              && NextStep(s.up.dec, u.serverMax).result.NeedMore?)
  {
    RunsKeepInv(u, states, steps, k);
    var s := states[k];
    if && s.client == Waiting && s.down.inFlight == [] && NextStep(s.down.dec, u.clientMax).result.NeedMore?
       && s.server == Serving && s.up.inFlight == [] && NextStep(s.up.dec, u.serverMax).result.NeedMore?
    {
      WaitingMeansDrained(s.up, u.serverMax);
      WaitingMeansDrained(s.down, u.clientMax);
    }
  }

  // ---------------------------------------------------------------- deadlock freedom

  /** A peer that is writing has something left to write. */
  predicate Writing(s: State) {
    (s.client == Sending ==> s.up.unsent != []) && (s.server == Replying ==> s.down.unsent != [])
  }

  lemma StepKeepsWriting(u: Setup, s: State, step: Step)
    requires Enabled(u, s, step) && Writing(s)
    ensures Writing(Apply(u, s, step))
  {
    hide NextStep, FeedStep, ParseText, HandleMessage, MakeError, CanSend, Text;
  }

  lemma {:induction false} RunsKeepWriting(u: Setup, states: seq<State>, steps: seq<Step>, k: nat)
    requires IsRun(u, states, steps) && k < |states|
    ensures Writing(states[k])
  {
    hide Apply, Enabled, Writing;
    if k == 0 {
      NobodyWritesYet();
    } else {
      RunsKeepWriting(u, states, steps, k - 1);
      StepKeepsWriting(u, states[k - 1], steps[k - 1]);
    }
  }

  lemma NobodyWritesYet()
    ensures Writing(INITIAL)
  {
  }

  /** Both peers are in the middle of their loops, within the message limit, and neither decoder is about to throw. */
  predicate Engaged(u: Setup, s: State) {
    && s.client in {Ready, Sending, Waiting}
    && s.server in {Serving, Replying}
    && s.up.taken < u.maxMessages
    && Sane(s.up.dec) && !NextStep(s.up.dec, u.serverMax).result.Threw?
    && Sane(s.down.dec) && !NextStep(s.down.dec, u.clientMax).result.Threw?
  }

  /** A step other than giving up. */
  predicate Proceeds(u: Setup, s: State, step: Step) {
    Enabled(u, s, step) && !step.ClientFail? && !step.ServerStop?
  }

  lemma ServerProceeds(u: Setup, s: State)
    requires Writing(s) && Engaged(u, s)
    requires s.server == Replying || s.up.inFlight != [] || NextStep(s.up.dec, u.serverMax).result.Delivered?
    ensures exists step :: Proceeds(u, s, step)
  {
    hide NextStep;
    if s.server == Replying {
      assert Proceeds(u, s, ServerWrite(1));
    } else if NextStep(s.up.dec, u.serverMax).result.Delivered? {
      assert Proceeds(u, s, ServerTake("", "", ""));
    } else {
      assert Proceeds(u, s, ServerRead(1));
    }
  }

  lemma ClientProceeds(u: Setup, s: State)
    requires Writing(s) && Engaged(u, s)
    requires s.client != Waiting || s.down.inFlight != [] || NextStep(s.down.dec, u.clientMax).result.Delivered?
    ensures exists step :: Proceeds(u, s, step)
  {
    hide NextStep;
    if s.client == Ready {
      assert Proceeds(u, s, ClientBegin);
    } else if s.client == Sending {
      assert Proceeds(u, s, ClientWrite(1));
    } else if NextStep(s.down.dec, u.clientMax).result.Delivered? {
      assert Proceeds(u, s, ClientTake("", ""));
    } else {
      assert Proceeds(u, s, ClientRead(1));
    }
  }

  /**
    Deadlock freedom: in every state of every run in which both peers are engaged, one of them can go on without giving
    up, whatever was cut into which pieces before.
    */
  lemma SomebodyProceeds(u: Setup, states: seq<State>, steps: seq<Step>, k: nat)
    requires ValidSetup(u) && IsRun(u, states, steps) && k < |states| && Engaged(u, states[k])
    ensures exists step :: Proceeds(u, states[k], step)
  {
    hide NextStep, Apply, Enabled, Writing;
    RunsKeepWriting(u, states, steps, k);
    NoMutualWait(u, states, steps, k);
    var s := states[k];
    if s.client != Waiting || s.down.inFlight != [] || NextStep(s.down.dec, u.clientMax).result.Delivered? {
      ClientProceeds(u, s);
    } else {
      ServerProceeds(u, s);
    }
  }

  // ---------------------------------------------------------------- memory

  predicate Roomy(u: Setup, s: State) {
    && |s.up.dec.buffer| <= SpaceBound(u.serverMax, READ_CHUNK)
    && |s.down.dec.buffer| <= SpaceBound(u.clientMax, READ_CHUNK)
  }

  lemma TakingFreesSpace(d: DecoderState, max: nat)
    requires Sane(d)
    ensures |NextStep(d, max).state.buffer| <= |d.buffer|
  {
  }

  lemma StepKeepsRoom(u: Setup, s: State, step: Step)
    requires 0 < u.clientMax && 0 < u.serverMax && Tidy(s.up.dec) && Tidy(s.down.dec)
    requires Enabled(u, s, step) && Roomy(u, s)
    ensures Roomy(u, Apply(u, s, step))
  {
    hide NextStep, FeedStep, ParseText, HandleMessage, MakeError, CanSend, Text, SpaceBound, Frame;
    match step
    case ClientRead(n) => FeedSpace(u.clientMax, READ_CHUNK, s.down.dec, s.down.inFlight[..n]);
    case ServerRead(n) => FeedSpace(u.serverMax, READ_CHUNK, s.up.dec, s.up.inFlight[..n]);
    case ClientTake(_, _) => TakingFreesSpace(s.down.dec, u.clientMax);
    case ServerTake(_, _, _) => TakingFreesSpace(s.up.dec, u.serverMax);
    case _ =>
  }

  /** In every state of every run neither peer buffers more than two of its maximal frames less a byte, and one read. */
  lemma {:induction false} PeersStayWithinMemory(u: Setup, states: seq<State>, steps: seq<Step>, k: nat)
    requires ValidSetup(u) && IsRun(u, states, steps) && k < |states|
    ensures |states[k].up.dec.buffer| <= 2 * u.serverMax + 7 + READ_CHUNK
    ensures |states[k].down.dec.buffer| <= 2 * u.clientMax + 7 + READ_CHUNK
  {
    hide Apply, Enabled, TextsOf, Answered, AllSendable, VerdictsTrue;
    if k == 0 {
    } else {
      PeersStayWithinMemory(u, states, steps, k - 1);
      RunsKeepInv(u, states, steps, k - 1);
      StepKeepsRoom(u, states[k - 1], steps[k - 1]);
    }
  }
}
