/**
  One connection on either peer, from accept or connect to the metrics record: the order of handshake, gates and
  application traffic, and how the record is filled in. What OpenSSL and the network answer is an arbitrary input.
  */
module Sessions {
  import opened Prelude
  import opened Framing
  import opened Messages
  import opened Profiles
  import opened Records
  import opened Json
  import opened Transport
  import opened Channel
  import Utf8

  datatype HandshakeAnswer = Completed(outcome: HandshakeOutcome) | Refused(verifyOk: bool, peerClosed: bool)

  /** Before a read some bytes may arrive; then SSL_read answers. */
  datatype Input = Input(arrives: seq<byte>, answer: ReadAnswer)

  /**
    Everything the outside decides during one connection; the scripts are consumed in order. `stopped` is the stop flag
    as the n-th turn of the server's loop sees it. `freshId`, `now` and `reason` give the generated id, the clock and
    the error text used for the k-th message received. `writeAnswers(k, n)` is what the n-th SSL_write of the k-th frame
    returns, and `writeFailure(k)` the category if that fails.
    */
  datatype Environment = Environment(
    setup: Option<Failure>,
    handshake: HandshakeAnswer,
    verifyOk: bool,
    certificatePresent: bool,
    inputs: seq<Input>,
    writeAnswers: (nat, nat) -> int,
    writeFailure: nat -> Failure,
    stopped: nat -> bool,
    freshId: nat -> string,
    now: nat -> string,
    reason: nat -> string)

  datatype Config = Config(
    profileId: string,
    insecure: bool,
    maxFrameSize: nat,
    maxMessages: nat,
    requireClientCertificate: bool)

  // ---------------------------------------------------------------- gates

  function EnforceGroupPolicy(profile: Definition, outcome: HandshakeOutcome): Option<Failure> {
    if PermitsNegotiatedGroup(profile, outcome.negotiatedGroup) then None else Some(TlsPolicy)
  }

  function EnforcePeerVerification(config: Config, env: Environment, requireCertificate: bool): Option<Failure> {
    if config.insecure then None
    else if !env.verifyOk then Some(Certificate)
    else if !env.certificatePresent && requireCertificate then Some(Certificate)
    else None
  }

  /** The negotiated group passed the profile's check, and the peer was verified unless verification is off. */
  predicate GatesPassed(config: Config, profile: Definition, env: Environment, requireCertificate: bool) {
    && env.handshake.Completed?
    && PermitsNegotiatedGroup(profile, env.handshake.outcome.negotiatedGroup)
    && (config.insecure || (env.verifyOk && (env.certificatePresent || !requireCertificate)))
  }

  // ---------------------------------------------------------------- application traffic

  /** Everything that has arrived before the n-th read answers. */
  function Arrivals(inputs: seq<Input>, n: nat): seq<byte>
    requires n <= |inputs|
  {
    if n == 0 then [] else Arrivals(inputs, n - 1) + inputs[n - 1].arrives
  }

  /** Why a read can fail: the peer stays silent, it reports an error, or there is nothing to hand out. */
  predicate ReadFailed(env: Environment, incoming: seq<byte>, used: nat, c: ErrorCategory) {
    || (used == |env.inputs| && c == Timeout)
    || (0 < used <= |env.inputs| && env.inputs[used - 1].answer.Failed? && env.inputs[used - 1].answer.category == c)
    || (0 < used <= |env.inputs| && env.inputs[used - 1].answer.Bytes? && c == Timeout
        && (env.inputs[used - 1].answer.count == 0 || incoming == Arrivals(env.inputs, used)))
  }

  /** Writing the k-th frame fails at one of its calls. */
  ghost predicate WriteFails(env: Environment, k: nat) {
    exists n: nat :: FailsAt(env.writeAnswers, k, n)
  }

  /** Why the k-th frame cannot be sent: the library cannot write it, it does not fit, or TLS does not take it. */
  ghost predicate SendFails(env: Environment, codec: TextCodec, m: Message, max: nat, k: nat, c: ErrorCategory) {
    match codec.dump(ToJson(m))
    case None => c == Internal
    case Some(text) =>
      if LegalLength(|text|, max) then c == env.writeFailure(k) && WriteFails(env, k) else c == Protocol
  }

  /** Why no further frame can be had: the next header is illegal, or a read fails. */
  ghost predicate StreamFails(env: Environment, max: nat, incoming: seq<byte>, used: nat, c: ErrorCategory) {
    (c == Protocol && OneShot(incoming, max).illegal) || ReadFailed(env, incoming, used, c)
  }

  /** The TLS connection of one session: its `IoCounters` and the application bytes that crossed it each way. */
  class Link {
    const env: Environment
    var used: nat
    var writes: nat
    var bytesSent: nat
    var bytesReceived: nat
    var arrived: seq<byte>
    var incoming: seq<byte>
    var outgoing: seq<byte>

    ghost predicate Valid()
      reads this
    {
      && used <= |env.inputs| && bytesSent == |outgoing| && bytesReceived == |incoming|
      && incoming + arrived == Arrivals(env.inputs, used)
    }

    ghost predicate Quiet()
      reads this
    {
      incoming == [] && outgoing == [] && used == 0 && writes == 0
    }

    constructor (env: Environment)
      ensures Valid() && Quiet() && this.env == env
    {
      this.env := env;
      used, writes, bytesSent, bytesReceived, arrived, incoming, outgoing := 0, 0, 0, 0, [], [], [];
    }

    method WriteAll(data: seq<byte>) returns (failure: Option<Failure>)
      requires Valid()
      modifies this
      ensures Valid() && used == old(used) && incoming == old(incoming) && writes == old(writes) + 1
      ensures failure.None? ==> outgoing == old(outgoing) + data
      ensures failure.Some? ==> failure.value == env.writeFailure(old(writes)) && WriteFails(env, old(writes))
      ensures old(outgoing) <= outgoing <= old(outgoing) + data
    {
      hide WriteMany, Fits, Outbound;
      var pipe := new Pipe();
      pipe.inFlight, pipe.bytesSent := outgoing, bytesSent;
      var k := writes;
      var sent, threw, pieces := SslWriteAll(pipe, data, (n: nat) => env.writeAnswers(k, n));
      failure := if threw then Some(env.writeFailure(k)) else None;
      if threw {
        forall n: nat | n < |pieces| ensures env.writeAnswers(k, n) > 0 {
          assert 0 < pieces[n];
        }
        assert FailsAt(env.writeAnswers, k, |pieces|);
      }
      writes := writes + 1;
      bytesSent, outgoing := pipe.bytesSent, pipe.inFlight;
    }

    /** Empty for a clean close. An exhausted script stands for a peer that stays silent. */
    method ReadSome() returns (r: Result<seq<byte>>)
      requires Valid()
      modifies this
      ensures Valid() && outgoing == old(outgoing) && writes == old(writes)
      ensures r.Err? ==> r.category != NoError && incoming == old(incoming)
                         && ReadFailed(env, incoming, used, r.category)
      ensures r.Ok? ==> used == old(used) + 1 && incoming == old(incoming) + r.value && |r.value| <= READ_CHUNK
                        && (r.value == [] ==> env.inputs[used - 1].answer.CloseNotify?)
    {
      if used == |env.inputs| {
        return Err(Timeout);
      }
      var input := env.inputs[used];
      used := used + 1;
      var pipe := new Pipe();
      pipe.inFlight, pipe.bytesReceived := arrived + input.arrives, bytesReceived;
      r := SslReadSome(pipe, READ_CHUNK, input.answer);
      assert r.Ok? ==> (incoming + r.value) + pipe.inFlight == (incoming + arrived) + input.arrives;
      assert r.Err? ==> incoming + pipe.inFlight == (incoming + arrived) + input.arrives;
      arrived, bytesReceived := pipe.inFlight, pipe.bytesReceived;
      if r.Ok? {
        incoming := incoming + r.value;
      }
    }
  }

  /** `serialize` and `encode` both succeed. */
  predicate CanEncode(codec: TextCodec, m: Message, max: nat) {
    codec.dump(ToJson(m)).Some? && LegalLength(|codec.dump(ToJson(m)).value|, max)
  }

  /** `serialize`, `encode` and write; a tree the library cannot write is an unexpected exception, hence internal. */
  method SendMessage(link: Link, codec: TextCodec, m: Message, max: nat) returns (failure: Option<Failure>)
    requires link.Valid() && LegalLength(max, ABSOLUTE_MAX_FRAME_SIZE)
    modifies link
    ensures link.Valid() && link.used == old(link.used) && link.incoming == old(link.incoming)
    ensures failure.Some? ==> SendFails(link.env, codec, m, max, old(link.writes), failure.value)
    ensures failure.None? ==> CanEncode(codec, m, max) && link.writes == old(link.writes) + 1
                              && link.outgoing == old(link.outgoing) + Frame(codec.dump(ToJson(m)).value)
    ensures old(link.outgoing) <= link.outgoing
    ensures if CanEncode(codec, m, max) then link.outgoing <= old(link.outgoing) + Frame(codec.dump(ToJson(m)).value)
            else link.outgoing == old(link.outgoing)
  {
    hide ToJson, Encode, Frame, Arrivals, WriteFails;
    var text := codec.dump(ToJson(m));
    if text.None? {
      return Some(Internal);
    }
    var frame := Encode(text.value, max);
    EncodeDecodeLength(text.value, max);
    EncodedIsFrame(text.value, max);
    if frame.Err? {
      return Some(Protocol);
    }
    failure := link.WriteAll(frame.value);
  }

  lemma EncodedIsFrame(payload: seq<byte>, max: nat)
    ensures Encode(payload, max).Ok? ==> Encode(payload, max).value == Frame(payload)
  {
  }

  /** Read once and feed the decoder; false for a clean close. Taken frames and unread bytes stay the incoming bytes. */
  method ReadMore(link: Link, decoder: Decoder, ghost taken: seq<seq<byte>>) returns (r: Result<bool>)
    requires link.Valid() && decoder.Valid() && link.incoming == Wire(taken) + Unread(decoder.State())
    modifies link, decoder
    ensures link.Valid() && decoder.Valid() && link.incoming == Wire(taken) + Unread(decoder.State())
    ensures link.outgoing == old(link.outgoing) && old(link.incoming) <= link.incoming
    ensures link.writes == old(link.writes)
    ensures r.Err? ==> r.category != NoError
    ensures r.Err? ==> || (r.category == Protocol && IllegalFront(Unread(decoder.State()), decoder.maxFrameSize))
                       || (decoder.State() == old(decoder.State()) && link.incoming == old(link.incoming)
                           && ReadFailed(link.env, link.incoming, link.used, r.category))
    ensures r.Ok? ==> link.used == old(link.used) + 1
    ensures r == Ok(false) ==> decoder.State() == old(decoder.State()) && link.incoming == old(link.incoming)
                               && link.env.inputs[link.used - 1].answer.CloseNotify?
  {
    hide FeedStep, Wire, IllegalFront, ReadFailed, Arrivals;
    var data := link.ReadSome();
    if data.Err? {
      return Err(data.category);
    }
    if data.value == [] {
      return Ok(false);
    }
    assert link.incoming == Wire(taken) + (Unread(decoder.State()) + data.value);
    var threw := decoder.Feed(data.value);
    r := if threw then Err(Protocol) else Ok(true);
  }

  // ---------------------------------------------------------------- server

  /** What the server decides on one frame: its reply, if any, and whether it closes afterwards. */
  ghost function Decide(env: Environment, profile: Definition, outcome: HandshakeOutcome, codec: TextCodec,
                        text: seq<byte>, k: nat): (Option<Message>, bool)
  {
    var parsed := ParseText(codec, text, env.freshId(k), env.now(k));
    if parsed.Err? then (Some(MakeError(env.freshId(k), env.reason(k), env.now(k))), true)
    else
      var reply := HandleMessage(parsed.value, profile, outcome, env.now(k));
      (reply, reply.None?)
  }

  /** The frames after which the server closes: those that are no valid message, and `close`. */
  ghost predicate Closes(codec: TextCodec, text: seq<byte>) {
    !AcceptableText(codec, text) || Lookup(codec.load(text).value.members, "type") == Some(JString("close"))
  }

  ghost predicate NoneCloses(codec: TextCodec, frames: seq<seq<byte>>) {
    forall k :: 0 <= k < |frames| ==> !Closes(codec, frames[k])
  }

  /** What is decided on a frame: which reply a valid message gets, that anything else is rejected, and who closes. */
  lemma DecisionMeaning(env: Environment, profile: Definition, outcome: HandshakeOutcome, codec: TextCodec,
                        text: seq<byte>, k: nat)
    ensures var (reply, closes) := Decide(env, profile, outcome, codec, text, k);
            && (closes <==> Closes(codec, text))
            && (reply.Some? ==> reply.value.timestamp == env.now(k))
            && (AcceptableText(codec, text) ==>
                  exists request ::
                    && Carries(codec.load(text).value.members, env.freshId(k), env.now(k), request)
                    && (reply.None? <==> request.mtype == Close)
                    && (reply.Some? ==> ProperReply(profile, outcome, request, reply.value)))
            && (!AcceptableText(codec, text) ==>
                  && reply.Some? && reply.value.id == env.freshId(k)
                  && reply.value.mtype == Error && reply.value.status == Some("rejected")
                  && GivesAReason(reply.value.payload)
                  && Lookup(reply.value.payload.members, "reason") == Some(JString(env.reason(k))))
  {
    TypeNamesMeet();
    hide ParseText, AcceptableFields, Depth, Utf8.WellFormed, HandleMessage, MakeError, ProperReply, GivesAReason,
         Lookup, TypeName;
    TextAcceptedExactly(codec, text, env.freshId(k), env.now(k));
    ErrorsGiveAReason(env.freshId(k), env.reason(k), env.now(k));
    var parsed := ParseText(codec, text, env.freshId(k), env.now(k));
    if parsed.Ok? {
      RepliesAreProper(parsed.value, profile, outcome, env.now(k));
      assert Carries(codec.load(text).value.members, env.freshId(k), env.now(k), parsed.value);
    }
  }

  lemma TypeNamesMeet()
    ensures forall t :: TypeName(t) == "close" <==> t == Close
  {
    forall t ensures TypeName(t) == "close" <==> t == Close {
      TypeNamesRoundTrip(t);
      TypeNamesRoundTrip(Close);
    }
  }

  /** The texts of the replies to a list of frames: the meaning of the server loop, free of buffers and reads. */
  ghost function ReplyTexts(env: Environment, profile: Definition, outcome: HandshakeOutcome, codec: TextCodec,
                            frames: seq<seq<byte>>): seq<seq<byte>>
  {
    if frames == [] then []
    else
      var k := |frames| - 1;
      var reply := Decide(env, profile, outcome, codec, frames[k], k).0;
      var text := if reply.Some? then codec.dump(ToJson(reply.value)) else None;
      ReplyTexts(env, profile, outcome, codec, frames[..k]) + (if text.Some? then [text.value] else [])
  }

  /** The replies that could be begun: all, or all but a last one that does not fit into a frame. */
  function Begun(texts: seq<seq<byte>>, max: nat): seq<seq<byte>> {
    if texts != [] && !LegalLength(|texts[|texts| - 1]|, max) then texts[..|texts| - 1] else texts
  }

  /**
    The handled frames are the first of the incoming ones. Each but the last has its reply, and all those replies were
    sent; of the reply to the last frame some part was sent, if it has one that fits into a frame. Only the last can be
    a frame after which the server closes.
    */
  ghost predicate Served(env: Environment, config: Config, profile: Definition, outcome: HandshakeOutcome,
                         codec: TextCodec, incoming: seq<byte>, outgoing: seq<byte>, frames: seq<seq<byte>>)
  {
    && frames <= OneShot(incoming, config.maxFrameSize).frames
    && |frames| <= config.maxMessages
    && (frames != [] ==> LegalLength(config.maxFrameSize, ABSOLUTE_MAX_FRAME_SIZE)
                         && NoneCloses(codec, frames[..|frames| - 1]))
    && var replies := ReplyTexts(env, profile, outcome, codec, frames);
       && LegalPayloads(Begun(replies, config.maxFrameSize), config.maxFrameSize)
       && outgoing <= Wire(Begun(replies, config.maxFrameSize))
       && (frames != [] ==> var earlier := ReplyTexts(env, profile, outcome, codec, frames[..|frames| - 1]);
                            |earlier| == |frames| - 1 && Wire(earlier) <= outgoing)
  }

  /** The last read was the peer's clean close. */
  predicate PeerClosed(env: Environment, used: nat) {
    0 < used <= |env.inputs| && env.inputs[used - 1].answer.CloseNotify?
  }

  /**
    All replies were sent, the messages were counted, and there was a reason to end: the last frame closed, the limit
    was reached, the stop flag was up at the last turn, or the peer closed and no complete frame was left. `used` is the
    number of reads, so with the frames handled it counts the turns of the loop.
    */
  ghost predicate ServedWell(env: Environment, config: Config, profile: Definition, outcome: HandshakeOutcome,
                             codec: TextCodec, incoming: seq<byte>, outgoing: seq<byte>, frames: seq<seq<byte>>,
                             count: nat, used: nat)
  {
    && Served(env, config, profile, outcome, codec, incoming, outgoing, frames)
    && outgoing == Wire(ReplyTexts(env, profile, outcome, codec, frames))
    && count == |frames| + |ReplyTexts(env, profile, outcome, codec, frames)|
    && (|| (frames != [] && Closes(codec, frames[|frames| - 1]))
        || |frames| == config.maxMessages
        || env.stopped(|frames| + used)
        || (PeerClosed(env, used) && frames == OneShot(incoming, config.maxFrameSize).frames))
  }

  /**
    Why serving can fail: the frame limit is illegal; with every frame received handled, no further one can be had; or
    the reply to the last frame handled cannot be sent.
    */
  ghost predicate ServeFailure(env: Environment, config: Config, profile: Definition, outcome: HandshakeOutcome,
                               codec: TextCodec, incoming: seq<byte>, frames: seq<seq<byte>>, used: nat,
                               c: ErrorCategory)
  {
    || (c == Protocol && !LegalLength(config.maxFrameSize, ABSOLUTE_MAX_FRAME_SIZE))
    || (frames == OneShot(incoming, config.maxFrameSize).frames
        && StreamFails(env, config.maxFrameSize, incoming, used, c))
    || (frames != [] && ReplyFails(env, config, profile, outcome, codec, frames[|frames| - 1], |frames| - 1, c))
  }

  ghost predicate ReplyFails(env: Environment, config: Config, profile: Definition, outcome: HandshakeOutcome,
                             codec: TextCodec, text: seq<byte>, k: nat, c: ErrorCategory)
  {
    var reply := Decide(env, profile, outcome, codec, text, k).0;
    reply.Some? && SendFails(env, codec, reply.value, config.maxFrameSize, k, c)
  }

  lemma AllServed(env: Environment, config: Config, profile: Definition, outcome: HandshakeOutcome, codec: TextCodec,
                  incoming: seq<byte>, frames: seq<seq<byte>>)
    requires frames <= OneShot(incoming, config.maxFrameSize).frames && |frames| <= config.maxMessages
    requires frames != [] ==> LegalLength(config.maxFrameSize, ABSOLUTE_MAX_FRAME_SIZE)
                              && NoneCloses(codec, frames[..|frames| - 1])
    requires LegalPayloads(ReplyTexts(env, profile, outcome, codec, frames), config.maxFrameSize)
    requires frames != [] ==> |ReplyTexts(env, profile, outcome, codec, frames[..|frames| - 1])| == |frames| - 1
    ensures Served(env, config, profile, outcome, codec, incoming,
                   Wire(ReplyTexts(env, profile, outcome, codec, frames)), frames)
  {
    hide OneShot, Decide, ReplyTexts, Wire, ToJson, NoneCloses;
    var replies := ReplyTexts(env, profile, outcome, codec, frames);
    if frames != [] {
      var before, last := frames[..|frames| - 1], frames[|frames| - 1];
      assert frames == before + [last];
      ReplyTextsSnoc(env, profile, outcome, codec, before, last);
      var earlier := ReplyTexts(env, profile, outcome, codec, before);
      WireConcat(earlier, replies[|earlier|..]);
      assert replies == earlier + replies[|earlier|..];
    }
  }

  /**
    The server's application loop. Whatever the fragmentation, the frames it handles are the first frames of the
    incoming bytes, and what it sends is the replies to those frames: all of them if it ended without an error, all but
    a part of the last if not. It ends without an error only for one of four reasons, and with one only for its cause.
    */
  method ServeMessages(link: Link, config: Config, profile: Definition, outcome: HandshakeOutcome, codec: TextCodec)
    returns (failure: Option<Failure>, count: nat, ghost frames: seq<seq<byte>>)
    requires link.Valid() && link.Quiet()
    modifies link
    ensures link.Valid()
    ensures Served(link.env, config, profile, outcome, codec, link.incoming, link.outgoing, frames)
    ensures failure.None? ==>
              ServedWell(link.env, config, profile, outcome, codec, link.incoming, link.outgoing, frames, count,
                         link.used)
    ensures failure.Some? ==>
              ServeFailure(link.env, config, profile, outcome, codec, link.incoming, frames, link.used, failure.value)
  {
    hide ReplyTexts, Decide, OneShot, NextStep, FeedStep, Wire, Frame, CompleteFront, IllegalFront, LegalLength,
         LegalPayloads, Begun, Served, Unread, Tidy, NoneCloses, Closes, ReplyFails, ReadFailed, Arrivals, ServeFailure;
    NoFrames(link.env, profile, outcome, codec);
    NoneClosesYet(codec);
    count, failure, frames := 0, None, [];
    AllServed(link.env, config, profile, outcome, codec, [], []);
    var created := Decoder.New(config.maxFrameSize);
    if created.None? {
      FailsWithoutADecoder(link.env, config, profile, outcome, codec, link.incoming, link.used);
      return Some(Protocol), count, [];
    }
    var decoder := created.value;
    NothingUnread(decoder);
    var handled, turn := 0, 0;
    var closing := false;
    while !closing && !link.env.stopped(turn) && handled < config.maxMessages
      invariant link.Valid() && decoder.Valid() && fresh(decoder) && decoder.maxFrameSize == config.maxFrameSize
      invariant handled == |frames| <= config.maxMessages && turn == handled + link.used && failure.None?
      invariant LegalPayloads(frames, config.maxFrameSize)
      invariant link.incoming == Wire(frames) + Unread(decoder.State())
      invariant var replies := ReplyTexts(link.env, profile, outcome, codec, frames);
                && link.outgoing == Wire(replies) && count == handled + |replies|
                && LegalPayloads(replies, config.maxFrameSize) && (!closing ==> |replies| == handled)
                && link.writes == |replies|
      invariant frames != [] ==> |ReplyTexts(link.env, profile, outcome, codec, frames[..handled - 1])| == handled - 1
      invariant frames != [] ==> NoneCloses(codec, frames[..handled - 1])
      invariant if closing then frames != [] && Closes(codec, frames[handled - 1]) else NoneCloses(codec, frames)
      decreases |link.env.inputs| - link.used, |Unread(decoder.State())|, !closing
    {
      turn := turn + 1;
      TakenFramesAreFrames(frames, Unread(decoder.State()), config.maxFrameSize);
      var next := decoder.NextFrame();
      if next.Threw? {
        AllServed(link.env, config, profile, outcome, codec, link.incoming, frames);
        FailsOnTheStream(link.env, config, profile, outcome, codec, frames, Unread(decoder.State()), link.used,
                         Protocol);
        return Some(Protocol), count, frames;
      } else if next.NeedMore? {
        var more := ReadMore(link, decoder, frames);
        if more.Err? || !more.value {
          TakenFramesAreFrames(frames, Unread(decoder.State()), config.maxFrameSize);
          AllServed(link.env, config, profile, outcome, codec, link.incoming, frames);
          if more.Err? {
            FailsOnTheStream(link.env, config, profile, outcome, codec, frames, Unread(decoder.State()), link.used,
                             more.category);
            return Some(more.category), count, frames;
          }
          return;
        }
      } else {
        ghost var before := frames;
        frames := frames + [next.payload];
        WireSnoc(before, next.payload);
        FrameIsNotEmpty(next.payload);
        LegalPayloadsSnoc(before, next.payload, config.maxFrameSize);
        assert link.incoming == Wire(frames) + Unread(decoder.State());
        TakenFramesAreFrames(frames, Unread(decoder.State()), config.maxFrameSize);
        assert frames[..handled] == before;
        failure, count, closing :=
          AnswerFrame(link, config, profile, outcome, codec, next.payload, handled, count, before);
        NoneClosesSnoc(codec, before, next.payload);
        handled := handled + 1;
        if failure.Some? {
          PartServed(link.env, config, profile, outcome, codec, link.incoming, link.outgoing, before, next.payload);
          FailsReplying(link.env, config, profile, outcome, codec, link.incoming, before, next.payload, link.used,
                        failure.value);
          return;
        }
      }
    }
    TakenFramesAreFrames(frames, Unread(decoder.State()), config.maxFrameSize);
    AllServed(link.env, config, profile, outcome, codec, link.incoming, frames);
  }

  lemma FailsWithoutADecoder(env: Environment, config: Config, profile: Definition, outcome: HandshakeOutcome,
                             codec: TextCodec, incoming: seq<byte>, used: nat)
    requires !LegalLength(config.maxFrameSize, ABSOLUTE_MAX_FRAME_SIZE)
    ensures ServeFailure(env, config, profile, outcome, codec, incoming, [], used, Protocol)
  {
  }

  lemma FailsOnTheStream(env: Environment, config: Config, profile: Definition, outcome: HandshakeOutcome,
                         codec: TextCodec, frames: seq<seq<byte>>, unread: seq<byte>, used: nat, c: ErrorCategory)
    requires LegalLength(config.maxFrameSize, ABSOLUTE_MAX_FRAME_SIZE) && LegalPayloads(frames, config.maxFrameSize)
    requires || (c == Protocol && IllegalFront(unread, config.maxFrameSize))
             || (!CompleteFront(unread, config.maxFrameSize) && ReadFailed(env, Wire(frames) + unread, used, c))
    ensures ServeFailure(env, config, profile, outcome, codec, Wire(frames) + unread, frames, used, c)
  {
    hide OneShot, Wire, ReadFailed, CompleteFront, IllegalFront, ReplyFails;
    TakenFramesAreFrames(frames, unread, config.maxFrameSize);
  }

  lemma FailsReplying(env: Environment, config: Config, profile: Definition, outcome: HandshakeOutcome,
                      codec: TextCodec, incoming: seq<byte>, before: seq<seq<byte>>, text: seq<byte>, used: nat,
                      c: ErrorCategory)
    requires ReplyFails(env, config, profile, outcome, codec, text, |before|, c)
    ensures ServeFailure(env, config, profile, outcome, codec, incoming, before + [text], used, c)
  {
    hide OneShot, ReplyFails;
  }

  lemma NoneClosesYet(codec: TextCodec)
    ensures NoneCloses(codec, [])
  {
  }

  lemma NoneClosesSnoc(codec: TextCodec, frames: seq<seq<byte>>, text: seq<byte>)
    requires NoneCloses(codec, frames)
    ensures !Closes(codec, text) ==> NoneCloses(codec, frames + [text])
  {
    hide Closes;
  }

  lemma NothingUnread(decoder: Decoder)
    requires decoder.Valid() && decoder.State() == EMPTY_DECODER
    ensures Unread(decoder.State()) == [] && Wire([]) + Unread(decoder.State()) == []
  {
  }

  lemma PartServed(env: Environment, config: Config, profile: Definition, outcome: HandshakeOutcome, codec: TextCodec,
                   incoming: seq<byte>, outgoing: seq<byte>, before: seq<seq<byte>>, text: seq<byte>)
    requires before + [text] <= OneShot(incoming, config.maxFrameSize).frames && |before| < config.maxMessages
    requires LegalLength(config.maxFrameSize, ABSOLUTE_MAX_FRAME_SIZE)
    requires |ReplyTexts(env, profile, outcome, codec, before)| == |before| && NoneCloses(codec, before)
    requires Wire(ReplyTexts(env, profile, outcome, codec, before)) <= outgoing
    requires var begun := Begun(ReplyTexts(env, profile, outcome, codec, before + [text]), config.maxFrameSize);
             LegalPayloads(begun, config.maxFrameSize) && outgoing <= Wire(begun)
    ensures Served(env, config, profile, outcome, codec, incoming, outgoing, before + [text])
  {
    hide OneShot, Decide, ReplyTexts, Wire, Begun, NoneCloses;
    assert (before + [text])[..|before|] == before;
  }

  lemma ReplyTextsSnoc(env: Environment, profile: Definition, outcome: HandshakeOutcome, codec: TextCodec,
                       before: seq<seq<byte>>, text: seq<byte>)
    ensures var reply := Decide(env, profile, outcome, codec, text, |before|).0;
            ReplyTexts(env, profile, outcome, codec, before + [text])
            == if reply.Some? && codec.dump(ToJson(reply.value)).Some?
               then ReplyTexts(env, profile, outcome, codec, before) + [codec.dump(ToJson(reply.value)).value]
               else ReplyTexts(env, profile, outcome, codec, before)
  {
    hide Decide, ToJson;
    assert (before + [text])[..|before|] == before;
  }

  lemma LegalPayloadsSnoc(frames: seq<seq<byte>>, payload: seq<byte>, max: nat)
    requires LegalPayloads(frames, max) && LegalLength(|payload|, max)
    ensures LegalPayloads(frames + [payload], max)
  {
  }

  lemma FrameIsNotEmpty(payload: seq<byte>)
    ensures |Frame(payload)| > 0
  {
  }

  lemma NoFrames(env: Environment, profile: Definition, outcome: HandshakeOutcome, codec: TextCodec)
    ensures ReplyTexts(env, profile, outcome, codec, []) == [] && Wire([]) == []
    ensures forall max: nat :: LegalPayloads([], max)
  {
  }

  /** One handled frame of the loop: parse, decide, reply. What was sent before stays sent, whatever happens. */
  method AnswerFrame(link: Link, config: Config, profile: Definition, outcome: HandshakeOutcome, codec: TextCodec,
                     text: seq<byte>, k: nat, count: nat, ghost before: seq<seq<byte>>)
    returns (failure: Option<Failure>, count': nat, closing: bool)
    requires link.Valid() && |before| == k && LegalLength(config.maxFrameSize, ABSOLUTE_MAX_FRAME_SIZE)
    requires var replies := ReplyTexts(link.env, profile, outcome, codec, before);
             && link.outgoing == Wire(replies) && count == k + |replies|
             && LegalPayloads(replies, config.maxFrameSize) && |replies| == k && link.writes == k
    modifies link
    ensures link.Valid() && link.used == old(link.used) && link.incoming == old(link.incoming)
    ensures closing == Closes(codec, text)
    ensures failure.Some? ==> ReplyFails(link.env, config, profile, outcome, codec, text, k, failure.value)
    ensures old(link.outgoing) <= link.outgoing
    ensures var replies := ReplyTexts(link.env, profile, outcome, codec, before + [text]);
            && LegalPayloads(Begun(replies, config.maxFrameSize), config.maxFrameSize)
            && link.outgoing <= Wire(Begun(replies, config.maxFrameSize))
            && (failure.None? ==> link.outgoing == Wire(replies) && count' == k + 1 + |replies|
                                  && LegalPayloads(replies, config.maxFrameSize) && (!closing ==> |replies| == k + 1)
                                  && link.writes == |replies|)
  {
    hide ReplyTexts, ParseText, HandleMessage, MakeError, ToJson, Wire, Frame, LegalLength, LegalPayloads, Begun,
         Closes, AcceptableText, Carries, Arrivals, SendFails, ProperReply;
    DecisionMeaning(link.env, profile, outcome, codec, text, k);
    ghost var replies := ReplyTexts(link.env, profile, outcome, codec, before);
    ReplyTextsSnoc(link.env, profile, outcome, codec, before, text);
    LegalAreBegun(replies, config.maxFrameSize);
    failure, count' := None, count + 1;
    var parsed := ParseMessage(codec, text, link.env.freshId(k), link.env.now(k));
    var reply := if parsed.Ok? then HandleMessage(parsed.value, profile, outcome, link.env.now(k))
                 else Some(MakeError(link.env.freshId(k), link.env.reason(k), link.env.now(k)));
    closing := parsed.Err? || reply.None?;
    if reply.Some? {
      ghost var dumped := codec.dump(ToJson(reply.value));
      if dumped.Some? {
        WireSnoc(replies, dumped.value);
        BegunSnoc(replies, dumped.value, config.maxFrameSize);
      }
      failure := SendMessage(link, codec, reply.value, config.maxFrameSize);
      if failure.Some? {
        return;
      }
      count' := count' + 1;
    }
  }

  lemma LegalAreBegun(texts: seq<seq<byte>>, max: nat)
    requires LegalPayloads(texts, max)
    ensures Begun(texts, max) == texts
  {
  }

  lemma BegunSnoc(texts: seq<seq<byte>>, text: seq<byte>, max: nat)
    requires LegalPayloads(texts, max)
    ensures LegalPayloads(Begun(texts + [text], max), max)
    ensures LegalLength(|text|, max) ==> Begun(texts + [text], max) == texts + [text]
                                         && LegalPayloads(texts + [text], max)
    ensures !LegalLength(|text|, max) ==> Begun(texts + [text], max) == texts
  {
    assert (texts + [text])[..|texts|] == texts;
  }

  /** Frames taken so far, followed by unread bytes, are the first frames of the whole. */
  lemma TakenFramesAreFrames(frames: seq<seq<byte>>, unread: seq<byte>, max: nat)
    requires LegalLength(max, ABSOLUTE_MAX_FRAME_SIZE) && LegalPayloads(frames, max)
    ensures frames <= OneShot(Wire(frames) + unread, max).frames
    ensures !CompleteFront(unread, max) ==> frames == OneShot(Wire(frames) + unread, max).frames
    ensures IllegalFront(unread, max) ==> !CompleteFront(unread, max) && OneShot(Wire(frames) + unread, max).illegal
  {
    OneShotAfterFrames(frames, unread, max);
    if !CompleteFront(unread, max) {
      assert frames + [] == frames;
    }
  }

  /** The record shows what was negotiated. */
  predicate Negotiated(m: Metrics, outcome: HandshakeOutcome) {
    && m.tlsVersion == outcome.tlsVersion
    && m.negotiatedGroup == outcome.negotiatedGroup
    && m.cipherSuite == outcome.cipherSuite
    && m.sessionReused == outcome.sessionReused
  }

  /** A capabilities reply says of the connection what its record says. */
  predicate SaysTheSame(reply: Message, m: Metrics) {
    && reply.payload.JObject?
    && Lookup(reply.payload.members, "negotiated_group") == Some(JString(m.negotiatedGroup))
    && Lookup(reply.payload.members, "pq_key_establishment") == Some(JBool(m.pqKeyEstablishment))
    && Lookup(reply.payload.members, "hybrid_key_establishment") == Some(JBool(m.hybridKeyEstablishment))
    && Lookup(reply.payload.members, "pq_authentication") == Some(JBool(m.pqAuthentication))
  }

  /** Every frame that parses as a capabilities request is answered, and the answer agrees with the record. */
  ghost predicate CapabilitiesAgree(env: Environment, profile: Definition, codec: TextCodec, frames: seq<seq<byte>>,
                                    m: Metrics)
    requires env.handshake.Completed?
  {
    forall k :: 0 <= k < |frames| ==>
      var parsed := ParseText(codec, frames[k], env.freshId(k), env.now(k));
      parsed.Ok? && parsed.value.mtype == Capabilities ==>
        var reply := Decide(env, profile, env.handshake.outcome, codec, frames[k], k).0;
        reply.Some? && reply.value.id == parsed.value.id && SaysTheSame(reply.value, m)
  }

  lemma RepliesAgreeWithRecord(env: Environment, profile: Definition, codec: TextCodec, frames: seq<seq<byte>>,
                               m: Metrics)
    requires env.handshake.Completed? && Filled(profile, env.handshake.outcome, m)
    ensures CapabilitiesAgree(env, profile, codec, frames, m)
  {
    hide IsPostQuantum, IsHybrid, ParseText, CapabilitiesPayload, Lookup, MakeError, AuthenticationName;
    CapabilitiesMembers(profile, env.handshake.outcome);
  }

  predicate WantsCertificate(config: Config, profile: Definition) {
    config.requireClientCertificate || profile.requireClientCertificate
  }

  /** The server's gates in their order: the group first, then the certificate. */
  function ServerRefusal(config: Config, profile: Definition, env: Environment): Option<Failure>
    requires env.handshake.Completed?
  {
    var refused := EnforceGroupPolicy(profile, env.handshake.outcome);
    if refused.Some? then refused else EnforcePeerVerification(config, env, WantsCertificate(config, profile))
  }

  lemma ServerRefusalMeaning(config: Config, profile: Definition, env: Environment)
    requires env.handshake.Completed?
    ensures ServerRefusal(config, profile, env).None? <==>
            GatesPassed(config, profile, env, WantsCertificate(config, profile))
    ensures var permitted := PermitsNegotiatedGroup(profile, env.handshake.outcome.negotiatedGroup);
            && (ServerRefusal(config, profile, env).None? ==> permitted)
            && (!permitted ==> ServerRefusal(config, profile, env) == Some(TlsPolicy))
            && (permitted && ServerRefusal(config, profile, env).Some?
                ==> ServerRefusal(config, profile, env) == Some(Certificate))
  {
    hide PermitsNegotiatedGroup;
  }

  /** Why a connection can fail after its handshake: the group, the certificate, or the traffic. */
  ghost predicate NegotiatedFailure(config: Config, profile: Definition, env: Environment, codec: TextCodec,
                                    incoming: seq<byte>, frames: seq<seq<byte>>, used: nat, c: ErrorCategory)
    requires env.handshake.Completed?
  {
    if !PermitsNegotiatedGroup(profile, env.handshake.outcome.negotiatedGroup) then c == TlsPolicy
    else if !GatesPassed(config, profile, env, WantsCertificate(config, profile)) then c == Certificate
    else ServeFailure(env, config, profile, env.handshake.outcome, codec, incoming, frames, used, c)
  }

  /** Why `handle_connection` can fail, in the order in which it tries things. */
  ghost predicate ServerFailure(config: Config, profile: Definition, env: Environment, codec: TextCodec,
                                incoming: seq<byte>, frames: seq<seq<byte>>, used: nat, c: ErrorCategory)
  {
    if env.setup.Some? then c == env.setup.value
    else match env.handshake
      case Refused(verifyOk, _) => c == if verifyOk then Handshake else Certificate
      case Completed(_) => NegotiatedFailure(config, profile, env, codec, incoming, frames, used, c)
  }

  /** What a completed handshake leads to, from reading the outcome to the final record. */
  method ServeNegotiated(link: Link, config: Config, profile: Definition, codec: TextCodec, blank: Metrics)
    returns (m: Metrics, ghost frames: seq<seq<byte>>)
    requires link.Valid() && link.Quiet() && link.env.handshake.Completed?
    requires blank.requestedProfile == profile.id
    modifies link
    ensures link.Valid()
    ensures !link.Quiet() || m.success ==> GatesPassed(config, profile, link.env, WantsCertificate(config, profile))
    ensures m.connectionId == blank.connectionId && m.role == blank.role && Honest(profile, m)
    ensures Negotiated(m, link.env.handshake.outcome)
    ensures m.success ==> m.bytesSent == |link.outgoing| && m.bytesReceived == |link.incoming|
                          && ServedWell(link.env, config, profile, link.env.handshake.outcome, codec, link.incoming,
                                        link.outgoing, frames, m.messageCount, link.used)
    ensures !PermitsNegotiatedGroup(profile, link.env.handshake.outcome.negotiatedGroup)
            ==> m.errorCategory == TlsPolicy
    ensures CapabilitiesAgree(link.env, profile, codec, frames, m)
    ensures frames != [] ==> PermitsNegotiatedGroup(profile, m.negotiatedGroup)
    ensures Served(link.env, config, profile, link.env.handshake.outcome, codec, link.incoming, link.outgoing, frames)
    ensures Filled(profile, link.env.handshake.outcome, m) && m.negotiatedProfile == blank.negotiatedProfile
    ensures !m.success ==> NegotiatedFailure(config, profile, link.env, codec, link.incoming, frames, link.used,
                                             m.errorCategory)
  {
    hide PermitsNegotiatedGroup, Served, ServedWell, CapabilitiesAgree, FillIn, Filled, Honest, Negotiated, GatesPassed,
         ServerRefusal, Conclude, Completes, ServeFailure;
    frames := [];
    var outcome := link.env.handshake.outcome;
    NothingServed(link.env, config, profile, outcome, codec);
    var read := FillIn(blank, profile, outcome);
    FillInFills(blank, profile, outcome);
    var refused := ServerRefusal(config, profile, link.env);
    ServerRefusalMeaning(config, profile, link.env);
    var failure, count := refused, 0;
    if refused.None? {
      failure, count, frames := ServeMessages(link, config, profile, outcome, codec);
    }
    m := Conclude(read, failure, count, link.bytesSent, link.bytesReceived);
    ConcludeCompletes(read, failure, count, link.bytesSent, link.bytesReceived);
    FilledIsHonest(profile, outcome, read, m);
    RepliesAgreeWithRecord(link.env, profile, codec, frames, m);
  }

  lemma NothingServed(env: Environment, config: Config, profile: Definition, outcome: HandshakeOutcome,
                      codec: TextCodec)
    ensures Served(env, config, profile, outcome, codec, [], [], [])
  {
    NoFrames(env, profile, outcome, codec);
    AllServed(env, config, profile, outcome, codec, [], []);
  }

  /** The fields that the server reads off the handshake. */
  function FillIn(blank: Metrics, profile: Definition, outcome: HandshakeOutcome): Metrics {
    blank.(tlsVersion := outcome.tlsVersion, negotiatedGroup := outcome.negotiatedGroup,
           cipherSuite := outcome.cipherSuite, sessionReused := outcome.sessionReused,
           authentication := AuthenticationName(profile.authentication),
           pqKeyEstablishment := IsPostQuantum(outcome.negotiatedGroup),
           hybridKeyEstablishment := IsHybrid(outcome.negotiatedGroup),
           pqAuthentication := IsPostQuantumAuthentication(profile.authentication))
  }

  predicate Filled(profile: Definition, outcome: HandshakeOutcome, m: Metrics) {
    && Negotiated(m, outcome)
    && m.requestedProfile == profile.id
    && m.authentication == AuthenticationName(profile.authentication)
    && m.pqKeyEstablishment == IsPostQuantum(m.negotiatedGroup)
    && m.hybridKeyEstablishment == IsHybrid(m.negotiatedGroup)
    && m.pqAuthentication == IsPostQuantumAuthentication(profile.authentication)
  }

  lemma FillInFills(blank: Metrics, profile: Definition, outcome: HandshakeOutcome)
    requires blank.requestedProfile == profile.id
    ensures var m := FillIn(blank, profile, outcome);
            && Filled(profile, outcome, m) && m.connectionId == blank.connectionId && m.role == blank.role
            && m.negotiatedProfile == blank.negotiatedProfile
  {
    hide IsHybrid, IsPostQuantum, AuthenticationName;
  }

  /** What happens after the fields are read off touches only counts, success and category. */
  predicate Completes(read: Metrics, m: Metrics) {
    m == read.(messageCount := m.messageCount, bytesSent := m.bytesSent, bytesReceived := m.bytesReceived,
               success := m.success, errorCategory := m.errorCategory)
  }

  /** The end of the record: counts of messages, and on success of bytes, or the category of the failure. */
  function Conclude(read: Metrics, failure: Option<Failure>, count: nat, sent: nat, received: nat): Metrics {
    if failure.Some? then read.(messageCount := count, success := false, errorCategory := failure.value)
    else read.(messageCount := count, bytesSent := sent, bytesReceived := received, success := true,
               errorCategory := NoError)
  }

  lemma ConcludeCompletes(read: Metrics, failure: Option<Failure>, count: nat, sent: nat, received: nat)
    ensures var m := Conclude(read, failure, count, sent, received);
            && Completes(read, m)
            && m.messageCount == count
            && (m.success <==> failure.None?)
            && m.errorCategory == (if failure.Some? then failure.value else NoError)
            && (m.success ==> m.bytesSent == sent && m.bytesReceived == received)
  {
  }

  lemma FilledIsHonest(profile: Definition, outcome: HandshakeOutcome, read: Metrics, m: Metrics)
    requires Filled(profile, outcome, read) && Completes(read, m)
    requires m.success <==> m.errorCategory == NoError
    requires m.success ==> PermitsNegotiatedGroup(profile, outcome.negotiatedGroup)
    ensures Filled(profile, outcome, m) && Honest(profile, m) && Negotiated(m, outcome)
    ensures m.negotiatedGroup == outcome.negotiatedGroup && m.connectionId == read.connectionId && m.role == read.role
    ensures m.negotiatedProfile == read.negotiatedProfile
  {
    hide IsHybrid, IsPostQuantum, AuthenticationName, HasPqSignatureMarker, Lower, PermitsNegotiatedGroup;
    ProfileNameIsMarked(profile.authentication);
  }

  /**
    `handle_connection`. No application byte crosses the link, and no record says success, unless the gates passed;
    the record is honest whatever happened; a success record counts exactly the bytes and messages that crossed, and
    they were the replies to the frames received; a failure is recorded under the category of its cause, a group outside
    the profile as a policy failure; and what the server told a client of the connection is what it recorded,
    post-quantum whenever the profile demands it.
    */
  method HandleConnection(config: Config, profile: Definition, env: Environment, codec: TextCodec, id: string)
    returns (m: Metrics, link: Link, ghost frames: seq<seq<byte>>)
    requires config.profileId == profile.id
    ensures fresh(link) && link.Valid()
    ensures !link.Quiet() || m.success ==> GatesPassed(config, profile, env, WantsCertificate(config, profile))
    ensures m.connectionId == id && m.role == Server && m.negotiatedProfile == profile.id && Honest(profile, m)
    ensures env.setup.None? && env.handshake.Completed? ==> Filled(profile, env.handshake.outcome, m)
    ensures !m.success ==> ServerFailure(config, profile, env, codec, link.incoming, frames, link.used, m.errorCategory)
    ensures m.success ==> env.setup.None?
                          && m.bytesSent == |link.outgoing| && m.bytesReceived == |link.incoming|
                          && ServedWell(env, config, profile, env.handshake.outcome, codec, link.incoming,
                                        link.outgoing, frames, m.messageCount, link.used)
    ensures env.setup.None? && env.handshake.Completed?
            && !PermitsNegotiatedGroup(profile, env.handshake.outcome.negotiatedGroup)
            ==> m.errorCategory == TlsPolicy
    ensures frames != [] ==> env.handshake.Completed? && CapabilitiesAgree(env, profile, codec, frames, m)
    ensures env.handshake.Completed? ==>
              Served(env, config, profile, env.handshake.outcome, codec, link.incoming, link.outgoing, frames)
    ensures frames != [] && IsProfile(profile) && OffersPostQuantum(profile) && !profile.allowClassicalFallback
            ==> m.pqKeyEstablishment
  {
    hide IsHybrid, IsPostQuantum, HasPqSignatureMarker, PermitsNegotiatedGroup, Lower, Served, ServedWell,
         CapabilitiesAgree, IsProfile, OffersPostQuantum, NegotiatedFailure, AuthenticationName;
    link := new Link(env);
    if env.handshake.Completed? {
      NothingServed(env, config, profile, env.handshake.outcome, codec);
    }
    frames := [];
    m := BLANK.(connectionId := id, role := Server, requestedProfile := config.profileId,
                negotiatedProfile := profile.id);
    EmptyGroupIsClassical();
    if env.setup.Some? {
      m := m.(errorCategory := env.setup.value);
    } else if env.handshake.Refused? {
      m := m.(errorCategory := if !env.handshake.verifyOk then Certificate else Handshake);
    } else {
      m, frames := ServeNegotiated(link, config, profile, codec, m);
      if frames != [] && IsProfile(profile) && OffersPostQuantum(profile) && !profile.allowClassicalFallback {
        NoDowngrade(profile, m.negotiatedGroup);
      }
    }
  }

  lemma EmptyGroupIsClassical()
    ensures !IsHybrid("") && !IsPostQuantum("")
  {
    ClassifiersAgree("");
    assert Lower("") == "";
    assert forall g :: g in PY_PQ_GROUPS ==> |g| > 0;
  }

  lemma ProfileNameIsMarked(t: AuthenticationType)
    ensures IsPostQuantumAuthentication(t) ==> HasPqSignatureMarker(Lower(AuthenticationName(t)))
  {
    LowerOfMarkers();
  }

  // ---------------------------------------------------------------- client

  /** Why no frame can be had at the front of the unread bytes. */
  ghost predicate FrontFails(env: Environment, incoming: seq<byte>, unread: seq<byte>, max: nat, used: nat,
                             c: ErrorCategory)
  {
    || (c == Protocol && IllegalFront(unread, max))
    || (!CompleteFront(unread, max) && ReadFailed(env, incoming, used, c))
    || (!CompleteFront(unread, max) && PeerClosed(env, used) && c == Protocol)
  }

  /** Read and feed until a frame is complete: that frame is the next one of the incoming bytes. */
  method AwaitFrame(link: Link, decoder: Decoder, ghost taken: seq<seq<byte>>) returns (r: Result<seq<byte>>)
    requires link.Valid() && decoder.Valid() && link.incoming == Wire(taken) + Unread(decoder.State())
    modifies link, decoder
    ensures link.Valid() && decoder.Valid() && link.outgoing == old(link.outgoing) && link.writes == old(link.writes)
    ensures old(link.incoming) <= link.incoming
    ensures r.Err? ==> r.category != NoError
    ensures r.Err? ==> FrontFails(link.env, link.incoming, Unread(decoder.State()), decoder.maxFrameSize, link.used,
                                  r.category)
                       && link.incoming == Wire(taken) + Unread(decoder.State())
    ensures r.Ok? ==> LegalLength(|r.value|, decoder.maxFrameSize)
                      && link.incoming == Wire(taken + [r.value]) + Unread(decoder.State())
  {
    hide NextStep, FeedStep, Wire, Frame, CompleteFront, IllegalFront, LegalLength, Unread, Tidy, ReadFailed, Arrivals;
    while true
      invariant link.Valid() && decoder.Valid() && link.outgoing == old(link.outgoing)
      invariant link.writes == old(link.writes)
      invariant old(link.incoming) <= link.incoming == Wire(taken) + Unread(decoder.State())
      decreases |link.env.inputs| - link.used
    {
      var next := decoder.NextFrame();
      if next.Delivered? {
        WireSnoc(taken, next.payload);
        return Ok(next.payload);
      }
      if next.Threw? {
        return Err(Protocol);
      }
      var more := ReadMore(link, decoder, taken);
      if more.Err? {
        return Err(more.category);
      }
      if !more.value {
        return Err(Protocol);
      }
    }
  }

  /** The texts of a list of messages, when the library can write them all. */
  ghost function Texts(codec: TextCodec, messages: seq<Message>): Option<seq<seq<byte>>> {
    if messages == [] then Some([])
    else
      var k := |messages| - 1;
      var text := codec.dump(ToJson(messages[k]));
      var earlier := Texts(codec, messages[..k]);
      if text.Some? && earlier.Some? then Some(earlier.value + [text.value]) else None
  }

  lemma NoTexts(codec: TextCodec)
    ensures Texts(codec, []) == Some([]) && Wire([]) == []
    ensures forall max: nat :: LegalPayloads([], max)
  {
  }

  lemma TextsSnoc(codec: TextCodec, messages: seq<Message>, i: nat)
    requires i < |messages|
    ensures var text, earlier := codec.dump(ToJson(messages[i])), Texts(codec, messages[..i]);
            Texts(codec, messages[..i + 1])
            == if text.Some? && earlier.Some? then Some(earlier.value + [text.value]) else None
  {
    hide ToJson;
    assert messages[..i + 1][..i] == messages[..i];
  }

  /** What is on the wire when one message more has been sent. */
  lemma NextText(codec: TextCodec, messages: seq<Message>, i: nat, max: nat)
    requires i < |messages| && Texts(codec, messages[..i]).Some?
    requires LegalPayloads(Texts(codec, messages[..i]).value, max)
    ensures CanEncode(codec, messages[i], max) ==>
              && codec.dump(ToJson(messages[i])).Some?
              && Texts(codec, messages[..i + 1]).Some?
              && LegalPayloads(Texts(codec, messages[..i + 1]).value, max)
              && Wire(Texts(codec, messages[..i + 1]).value)
                 == Wire(Texts(codec, messages[..i]).value) + Frame(codec.dump(ToJson(messages[i])).value)
  {
    hide ToJson, Texts, Wire, Frame;
    TextsSnoc(codec, messages, i);
    if CanEncode(codec, messages[i], max) {
      WireSnoc(Texts(codec, messages[..i]).value, codec.dump(ToJson(messages[i])).value);
    }
  }

  /** The i-th response is the i-th frame of the incoming bytes, parsed. */
  ghost predicate Responses(env: Environment, codec: TextCodec, frames: seq<seq<byte>>, responses: seq<Message>) {
    && |frames| == |responses|
    && forall i :: 0 <= i < |responses| ==>
         ParseText(codec, frames[i], env.freshId(i), env.now(i)) == Ok(responses[i])
  }

  lemma NoResponses(env: Environment, codec: TextCodec)
    ensures Responses(env, codec, [], [])
  {
  }

  lemma ResponsesSnoc(env: Environment, codec: TextCodec, frames: seq<seq<byte>>, responses: seq<Message>,
                      text: seq<byte>, response: Message)
    requires Responses(env, codec, frames, responses)
    requires ParseText(codec, text, env.freshId(|responses|), env.now(|responses|)) == Ok(response)
    ensures Responses(env, codec, frames + [text], responses + [response])
  {
    hide ParseText;
  }

  /** Exactly the messages up to a `close` were sent; each but the `close` has its response, the next incoming frame. */
  ghost predicate Exchanged(env: Environment, config: Config, codec: TextCodec, messages: seq<Message>,
                            responses: seq<Message>, incoming: seq<byte>, outgoing: seq<byte>,
                            frames: seq<seq<byte>>, count: nat)
  {
    && |responses| <= |messages|
    && Responses(env, codec, frames, responses)
    && frames <= OneShot(incoming, config.maxFrameSize).frames
    && (|responses| == |messages| || messages[|responses|].mtype == Close)
    && LegalLength(config.maxFrameSize, ABSOLUTE_MAX_FRAME_SIZE)
    && LegalPayloads(frames, config.maxFrameSize)
    && var sent := if |responses| == |messages| then |messages| else |responses| + 1;
       && Texts(codec, messages[..sent]).Some?
       && LegalPayloads(Texts(codec, messages[..sent]).value, config.maxFrameSize)
       && outgoing == Wire(Texts(codec, messages[..sent]).value)
       && count == sent + |responses|
  }

  /** What was sent when `r` responses had come: the messages answered, and a part of the next one. */
  ghost predicate Attempted(codec: TextCodec, messages: seq<Message>, r: nat, outgoing: seq<byte>) {
    && r <= |messages|
    && Texts(codec, messages[..r]).Some?
    && Wire(Texts(codec, messages[..r]).value) <= outgoing
    && (|| outgoing == Wire(Texts(codec, messages[..r]).value)
        || (r < |messages| && Texts(codec, messages[..r + 1]).Some?
            && outgoing <= Wire(Texts(codec, messages[..r + 1]).value)))
  }

  /** The messages answered are on the wire, and of the next one, if it can be encoded, a part. */
  lemma NowAttempted(codec: TextCodec, messages: seq<Message>, i: nat, max: nat, outgoing: seq<byte>)
    requires i < |messages| && Texts(codec, messages[..i]).Some?
    requires LegalPayloads(Texts(codec, messages[..i]).value, max)
    requires var sent := Wire(Texts(codec, messages[..i]).value);
             && sent <= outgoing
             && if CanEncode(codec, messages[i], max)
                then outgoing <= sent + Frame(codec.dump(ToJson(messages[i])).value)
                else outgoing == sent
    ensures Attempted(codec, messages, i, outgoing)
  {
    hide Texts, Wire, CanEncode, Frame, ToJson, LegalPayloads;
    NextText(codec, messages, i, max);
  }

  /** The loop has ended: all messages are on the wire, or those up to a `close`. */
  lemma AllExchanged(env: Environment, config: Config, codec: TextCodec, messages: seq<Message>,
                     responses: seq<Message>, incoming: seq<byte>, outgoing: seq<byte>, frames: seq<seq<byte>>,
                     sent: nat)
    requires Responses(env, codec, frames, responses) && frames <= OneShot(incoming, config.maxFrameSize).frames
    requires LegalLength(config.maxFrameSize, ABSOLUTE_MAX_FRAME_SIZE) && LegalPayloads(frames, config.maxFrameSize)
    requires |responses| <= sent <= |messages|
    requires if |responses| == |messages| then sent == |messages|
             else sent == |responses| + 1 && messages[|responses|].mtype == Close
    requires Texts(codec, messages[..sent]).Some? && outgoing == Wire(Texts(codec, messages[..sent]).value)
    requires LegalPayloads(Texts(codec, messages[..sent]).value, config.maxFrameSize)
    ensures Exchanged(env, config, codec, messages, responses, incoming, outgoing, frames, sent + |responses|)
  {
    hide Texts, Wire, OneShot, LegalPayloads, Responses;
  }

  /** Why the response number `n` is not there: it is no valid message, or no further frame can be had. */
  ghost predicate AwaitFails(env: Environment, max: nat, codec: TextCodec, n: nat, incoming: seq<byte>, used: nat,
                             c: ErrorCategory)
  {
    var frames := OneShot(incoming, max).frames;
    if n < |frames| then c == Protocol && !AcceptableText(codec, frames[n])
    else |frames| == n && (StreamFails(env, max, incoming, used, c) || (PeerClosed(env, used) && c == Protocol))
  }

  /** Why an exchange can fail with `n` responses: the frame limit is illegal, or the next message or its response. */
  ghost predicate ExchangeFailure(env: Environment, config: Config, codec: TextCodec, messages: seq<Message>, n: nat,
                                  incoming: seq<byte>, used: nat, c: ErrorCategory)
  {
    || (c == Protocol && !LegalLength(config.maxFrameSize, ABSOLUTE_MAX_FRAME_SIZE))
    || (n < |messages| && SendFails(env, codec, messages[n], config.maxFrameSize, n, c))
    || (n < |messages| && messages[n].mtype != Close
        && AwaitFails(env, config.maxFrameSize, codec, n, incoming, used, c))
  }

  lemma FailsAwaiting(env: Environment, max: nat, codec: TextCodec, frames: seq<seq<byte>>, unread: seq<byte>,
                      used: nat, c: ErrorCategory)
    requires LegalLength(max, ABSOLUTE_MAX_FRAME_SIZE) && LegalPayloads(frames, max)
    requires FrontFails(env, Wire(frames) + unread, unread, max, used, c)
    ensures AwaitFails(env, max, codec, |frames|, Wire(frames) + unread, used, c)
  {
    hide OneShot, Wire, ReadFailed, CompleteFront, IllegalFront, AcceptableText;
    TakenFramesAreFrames(frames, unread, max);
  }

  lemma FailsParsing(env: Environment, max: nat, codec: TextCodec, frames: seq<seq<byte>>, text: seq<byte>,
                     unread: seq<byte>, used: nat)
    requires LegalLength(max, ABSOLUTE_MAX_FRAME_SIZE) && LegalPayloads(frames + [text], max)
    requires !AcceptableText(codec, text)
    ensures AwaitFails(env, max, codec, |frames|, Wire(frames + [text]) + unread, used, Protocol)
  {
    hide OneShot, Wire, AcceptableText;
    TakenFramesAreFrames(frames + [text], unread, max);
  }

  /** One turn of the client's loop: send a message and, unless it is a `close`, wait for its response. */
  method ExchangeOne(link: Link, decoder: Decoder, codec: TextCodec, m: Message, i: nat, ghost frames: seq<seq<byte>>)
    returns (failure: Option<Failure>, response: Option<Message>, ghost text: seq<byte>)
    requires link.Valid() && decoder.Valid() && LegalLength(decoder.maxFrameSize, ABSOLUTE_MAX_FRAME_SIZE)
    requires |frames| == link.writes == i && LegalPayloads(frames, decoder.maxFrameSize)
    requires link.incoming == Wire(frames) + Unread(decoder.State())
    modifies link, decoder
    ensures link.Valid() && decoder.Valid() && old(link.incoming) <= link.incoming
    ensures old(link.outgoing) <= link.outgoing
    ensures if CanEncode(codec, m, decoder.maxFrameSize)
            then link.outgoing <= old(link.outgoing) + Frame(codec.dump(ToJson(m)).value)
            else link.outgoing == old(link.outgoing)
    ensures failure.Some? ==>
              || SendFails(link.env, codec, m, decoder.maxFrameSize, i, failure.value)
              || (m.mtype != Close && AwaitFails(link.env, decoder.maxFrameSize, codec, i, link.incoming, link.used,
                                                 failure.value))
    ensures failure.None? ==> CanEncode(codec, m, decoder.maxFrameSize) && link.writes == i + 1
                              && link.outgoing == old(link.outgoing) + Frame(codec.dump(ToJson(m)).value)
    ensures failure.None? ==> (response.None? <==> m.mtype == Close)
    ensures response.Some? ==> ParseText(codec, text, link.env.freshId(i), link.env.now(i)) == Ok(response.value)
                               && LegalLength(|text|, decoder.maxFrameSize)
                               && link.incoming == Wire(frames + [text]) + Unread(decoder.State())
    ensures failure.None? && response.None? ==> link.incoming == old(link.incoming)
  {
    hide OneShot, NextStep, FeedStep, Wire, Frame, CompleteFront, IllegalFront, ParseText, ToJson, CanEncode,
         LegalLength, LegalPayloads, Unread, Tidy, ReadFailed, Arrivals, SendFails, AcceptableText, Carries, AwaitFails,
         FrontFails;
    response, text := None, [];
    failure := SendMessage(link, codec, m, decoder.maxFrameSize);
    if failure.Some? || m.mtype == Close {
      return;
    }
    var next := AwaitFrame(link, decoder, frames);
    if next.Err? {
      FailsAwaiting(link.env, decoder.maxFrameSize, codec, frames, Unread(decoder.State()), link.used, next.category);
      return Some(next.category), None, [];
    }
    text := next.value;
    var parsed := ParseMessage(codec, next.value, link.env.freshId(i), link.env.now(i));
    LegalPayloadsSnoc(frames, text, decoder.maxFrameSize);
    if parsed.Err? {
      FailsParsing(link.env, decoder.maxFrameSize, codec, frames, text, Unread(decoder.State()), link.used);
      return Some(Protocol), None, [];
    }
    response := Some(parsed.value);
  }

  /**
    The client's send-then-wait loop. Without an error it has sent exactly its messages, up to and including a `close`,
    and its responses are the first frames of the incoming bytes, parsed in order, one for each message but a `close`.
    With an error there was a cause for it.
    */
  method ExchangeMessages(link: Link, config: Config, messages: seq<Message>, codec: TextCodec)
    returns (failure: Option<Failure>, responses: seq<Message>, count: nat, ghost frames: seq<seq<byte>>)
    requires link.Valid() && link.Quiet()
    modifies link
    ensures link.Valid()
    ensures |frames| == |responses| <= |messages| && Responses(link.env, codec, frames, responses)
    ensures frames <= OneShot(link.incoming, config.maxFrameSize).frames
    ensures Attempted(codec, messages, |responses|, link.outgoing)
    ensures failure.Some? ==>
              ExchangeFailure(link.env, config, codec, messages, |responses|, link.incoming, link.used, failure.value)
    ensures failure.None? ==> Exchanged(link.env, config, codec, messages, responses, link.incoming, link.outgoing,
                                        frames, count)
  {
    hide OneShot, Wire, Frame, CompleteFront, IllegalFront, ParseText, ToJson, CanEncode, LegalLength, LegalPayloads,
         Texts, Unread, Tidy, Arrivals, SendFails, AwaitFails, Responses, Exchanged, Attempted;
    NoTexts(codec);
    NoResponses(link.env, codec);
    NothingAttempted(codec, messages);
    failure, responses, count, frames := None, [], 0, [];
    var created := Decoder.New(config.maxFrameSize);
    if created.None? {
      return Some(Protocol), responses, count, [];
    }
    var decoder := created.value;
    NothingUnread(decoder);
    var i := 0;
    assert messages[..0] == [];
    while i < |messages|
      invariant 0 <= i <= |messages| && |frames| == |responses| == i && count == 2 * i && failure.None?
      invariant link.Valid() && decoder.Valid() && fresh(decoder) && decoder.maxFrameSize == config.maxFrameSize
      invariant link.writes == i && link.incoming == Wire(frames) + Unread(decoder.State())
      invariant Responses(link.env, codec, frames, responses) && LegalPayloads(frames, config.maxFrameSize)
      invariant Texts(codec, messages[..i]).Some? && link.outgoing == Wire(Texts(codec, messages[..i]).value)
      invariant LegalPayloads(Texts(codec, messages[..i]).value, config.maxFrameSize)
    {
      NextText(codec, messages, i, config.maxFrameSize);
      ghost var before := link.incoming;
      var response;
      ghost var text;
      failure, response, text := ExchangeOne(link, decoder, codec, messages[i], i, frames);
      PrefixFrames(frames, before, link.incoming, config.maxFrameSize);
      NowAttempted(codec, messages, i, config.maxFrameSize, link.outgoing);
      if failure.Some? {
        return;
      }
      count := count + 1;
      if response.None? {
        AllExchanged(link.env, config, codec, messages, responses, link.incoming, link.outgoing, frames, i + 1);
        return;
      }
      ResponsesSnoc(link.env, codec, frames, responses, text, response.value);
      LegalPayloadsSnoc(frames, text, config.maxFrameSize);
      frames := frames + [text];
      responses := responses + [response.value];
      count := count + 1;
      i := i + 1;
    }
    TakenFramesAreFrames(frames, Unread(decoder.State()), config.maxFrameSize);
    assert Attempted(codec, messages, i, link.outgoing) by {
      assert messages[..i] == messages;
      EverythingAttempted(codec, messages);
    }
    AllExchanged(link.env, config, codec, messages, responses, link.incoming, link.outgoing, frames, i);
  }

  lemma EverythingAttempted(codec: TextCodec, messages: seq<Message>)
    requires Texts(codec, messages).Some?
    ensures Attempted(codec, messages, |messages|, Wire(Texts(codec, messages).value))
  {
    assert messages[..|messages|] == messages;
  }

  /** More bytes do not change the frames already complete. */
  lemma PrefixFrames(frames: seq<seq<byte>>, s: seq<byte>, t: seq<byte>, max: nat)
    requires LegalLength(max, ABSOLUTE_MAX_FRAME_SIZE) && LegalPayloads(frames, max)
    requires Wire(frames) <= s <= t
    ensures frames <= OneShot(t, max).frames
  {
    var rest := t[|Wire(frames)|..];
    assert t == Wire(frames) + rest;
    TakenFramesAreFrames(frames, rest, max);
  }

  /** The client got as far as checking the negotiated group. */
  predicate ReachesGroupCheck(config: Config, env: Environment) {
    env.setup.None? && env.handshake.Completed? && EnforcePeerVerification(config, env, true).None?
  }

  lemma NothingAttempted(codec: TextCodec, messages: seq<Message>)
    ensures Attempted(codec, messages, 0, [])
  {
    assert messages[..0] == [];
    NoTexts(codec);
  }

  /** Why a client's connection can fail, in the order in which it tries things. */
  ghost predicate ClientFailure(config: Config, profile: Definition, env: Environment, codec: TextCodec,
                                messages: seq<Message>, n: nat, incoming: seq<byte>, used: nat, c: ErrorCategory)
  {
    if env.setup.Some? then c == env.setup.value
    else match env.handshake
      case Refused(verifyOk, peerClosed) =>
        c == if !verifyOk then Certificate else if peerClosed then Network else Handshake
      case Completed(outcome) =>
        if !config.insecure && !(env.verifyOk && env.certificatePresent) then c == Certificate
        else if !PermitsNegotiatedGroup(profile, outcome.negotiatedGroup) then c == TlsPolicy
        else ExchangeFailure(env, config, codec, messages, n, incoming, used, c)
  }

  /** `connect_and_exchange`: a result, or a thrown category and nothing else. */
  method ConnectAndExchange(link: Link, config: Config, profile: Definition, messages: seq<Message>, codec: TextCodec,
                            id: string)
    returns (r: Result<Metrics>, responses: seq<Message>, ghost frames: seq<seq<byte>>)
    requires link.Valid() && link.Quiet() && config.profileId == profile.id
    modifies link
    ensures link.Valid()
    ensures !link.Quiet() || r.Ok? ==> GatesPassed(config, profile, link.env, true)
    ensures r.Err? ==> r.category != NoError
    ensures r.Ok? ==> link.env.setup.None? && r.value.success && r.value.role == Client && Honest(profile, r.value)
                      && Populated(profile, link.env.handshake.outcome, r.value) && r.value.connectionId == id
                      && r.value.bytesSent == |link.outgoing| && r.value.bytesReceived == |link.incoming|
                      && Exchanged(link.env, config, codec, messages, responses, link.incoming, link.outgoing, frames,
                                   r.value.messageCount)
    ensures ReachesGroupCheck(config, link.env)
            && !PermitsNegotiatedGroup(profile, link.env.handshake.outcome.negotiatedGroup)
            ==> r == Err(TlsPolicy)
    ensures Attempted(codec, messages, |responses|, link.outgoing)
    ensures |frames| == |responses|
    ensures r.Err? ==> ClientFailure(config, profile, link.env, codec, messages, |frames|, link.incoming, link.used,
                                     r.category)
  {
    NothingAttempted(codec, messages);
    hide Exchanged, Attempted, Responses, IsHybrid, IsPostQuantum, HasPqSignatureMarker, PermitsNegotiatedGroup, Lower,
         ExchangeFailure, ClientSeesPqSignature, AuthenticationName;
    responses, frames := [], [];
    var env := link.env;
    if env.setup.Some? {
      return Err(env.setup.value), responses, frames;
    }
    if env.handshake.Refused? {
      return Err(if !env.handshake.verifyOk then Certificate
                 else if env.handshake.peerClosed then Network
                 else Handshake), responses, frames;
    }
    var outcome := env.handshake.outcome;
    var m := PopulateNegotiation(profile, outcome, id);
    var refused := EnforcePeerVerification(config, env, true);
    if refused.Some? {
      return Err(refused.value), responses, frames;
    }
    refused := EnforceGroupPolicy(profile, outcome);
    if refused.Some? {
      return Err(refused.value), responses, frames;
    }
    var failure, count;
    failure, responses, count, frames := ExchangeMessages(link, config, messages, codec);
    if failure.Some? {
      return Err(failure.value), responses, frames;
    }
    r := Ok(m.(messageCount := count, bytesSent := link.bytesSent, bytesReceived := link.bytesReceived,
               success := true, errorCategory := NoError));
  }

  /** A client record: what was negotiated, and the peer's signature rather than the profile's if there is one. */
  predicate Populated(profile: Definition, outcome: HandshakeOutcome, m: Metrics) {
    && Negotiated(m, outcome)
    && m.requestedProfile == m.negotiatedProfile == profile.id
    && (outcome.peerSignature != "" ==> m.authentication == outcome.peerSignature)
    && (outcome.peerSignature == "" ==> m.authentication == AuthenticationName(profile.authentication))
    && (m.pqKeyEstablishment <==> IsPostQuantum(outcome.negotiatedGroup))
    && (m.hybridKeyEstablishment <==> IsHybrid(outcome.negotiatedGroup))
    && (m.pqAuthentication <==> ClientSeesPqSignature(outcome.peerSignature))
  }

  /** `populate_negotiation_fields` on a client record. */
  function PopulateNegotiation(profile: Definition, outcome: HandshakeOutcome, id: string): (m: Metrics)
    ensures Populated(profile, outcome, m) && m.connectionId == id
    ensures m.pqKeyEstablishment <==> Lower(outcome.negotiatedGroup) in PY_PQ_GROUPS
    ensures m.hybridKeyEstablishment <==> Lower(outcome.negotiatedGroup) in PY_HYBRID_GROUPS
    ensures m.pqAuthentication ==> HasPqSignatureMarker(Lower(m.authentication))
  {
    ClassifiersAgree(outcome.negotiatedGroup);
    var sig := outcome.peerSignature;
    var marked := ClientSeesPqSignature(sig);
    assert marked ==> sig != "" && HasPqSignatureMarker(Lower(sig)) by {
      if marked {
        ClientSignatureIsMarked(sig);
      }
    }
    BLANK.(connectionId := id, requestedProfile := profile.id, negotiatedProfile := profile.id,
           tlsVersion := outcome.tlsVersion, negotiatedGroup := outcome.negotiatedGroup,
           cipherSuite := outcome.cipherSuite, sessionReused := outcome.sessionReused,
           authentication := if sig == "" then AuthenticationName(profile.authentication) else sig,
           pqKeyEstablishment := IsPostQuantum(outcome.negotiatedGroup),
           hybridKeyEstablishment := IsHybrid(outcome.negotiatedGroup),
           pqAuthentication := marked)
  }

  /**
    `run_once`: a thrown connection leaves a record with the category and nothing of what was measured. The same
    safety and honesty as on the server.
    */
  method RunOnce(config: Config, profile: Definition, env: Environment, messages: seq<Message>, codec: TextCodec,
                 id: string)
    returns (m: Metrics, responses: seq<Message>, link: Link, ghost frames: seq<seq<byte>>)
    requires config.profileId == profile.id
    ensures fresh(link) && link.Valid()
    ensures !link.Quiet() || m.success ==> GatesPassed(config, profile, env, true)
    ensures m.connectionId == id && m.role == Client && Honest(profile, m)
    ensures m.success ==> env.setup.None? && Populated(profile, env.handshake.outcome, m)
                          && m.bytesSent == |link.outgoing| && m.bytesReceived == |link.incoming|
                          && Exchanged(env, config, codec, messages, responses, link.incoming, link.outgoing, frames,
                                       m.messageCount)
    ensures ReachesGroupCheck(config, env)
            && !PermitsNegotiatedGroup(profile, env.handshake.outcome.negotiatedGroup)
            ==> m.errorCategory == TlsPolicy
    ensures !m.success ==> ClientFailure(config, profile, env, codec, messages, |frames|, link.incoming, link.used,
                                         m.errorCategory)
    ensures !m.success ==> responses == [] && m == BLANK.(connectionId := id, requestedProfile := profile.id,
                                                         errorCategory := m.errorCategory)
  {
    hide Exchanged, IsHybrid, IsPostQuantum, HasPqSignatureMarker, PermitsNegotiatedGroup, Lower, ClientFailure,
         ClientSeesPqSignature, AuthenticationName;
    link := new Link(env);
    EmptyGroupIsClassical();
    var r;
    r, responses, frames := ConnectAndExchange(link, config, profile, messages, codec, id);
    if r.Ok? {
      m := r.value;
    } else {
      m := BLANK.(connectionId := id, requestedProfile := config.profileId, errorCategory := r.category);
      responses := [];
    }
  }

  // ---------------------------------------------------------------- what the gates mean

  /**
    Downgrade safety, for either peer: with a profile that offers a post-quantum group and forbids fallback, application
    bytes cross only connections whose negotiated group is post-quantum.
    */
  lemma GatesMeanNoDowngrade(config: Config, profile: Definition, env: Environment, requireCertificate: bool)
    requires IsProfile(profile) && GatesPassed(config, profile, env, requireCertificate)
    ensures env.handshake.outcome.negotiatedGroup != ""
    ensures ContainsIgnoringCase(profile.groups, env.handshake.outcome.negotiatedGroup)
    ensures OffersPostQuantum(profile) && !profile.allowClassicalFallback
            ==> IsPostQuantum(env.handshake.outcome.negotiatedGroup)
  {
    var group := env.handshake.outcome.negotiatedGroup;
    PermitsExactlyTheListedGroups(profile, group);
    if OffersPostQuantum(profile) && !profile.allowClassicalFallback {
      NoDowngrade(profile, group);
    }
  }
}
