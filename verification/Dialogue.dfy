/**
  The two connection loops joined: what the client method got back, given that its bytes reached the server method and
  the server's bytes reached it, whole or cut off anywhere.
  */
module Dialogue {
  import opened Prelude
  import opened Framing
  import opened Messages
  import opened Profiles
  import opened Sessions
  import opened Channel
  import TwoPeers

  // ---------------------------------------------------------------- frames that arrive are frames that were sent

  lemma {:induction false} FramesOfAPrefix(frames: seq<seq<byte>>, rest: seq<byte>, texts: seq<seq<byte>>, max: nat)
    requires LegalPayloads(texts, ABSOLUTE_MAX_FRAME_SIZE) && LegalPayloads(frames, max) && max < UINT32_RANGE
    requires Wire(frames) + rest <= Wire(texts)
    ensures frames <= texts
  {
    if frames == [] {
    } else {
      var tail := Wire(texts)[|Wire(frames) + rest|..];
      assert Wire(texts) == Wire(frames) + rest + tail;
      WireHead(frames, rest + tail);
      assert Wire(texts) == Frame(frames[0]) + (Wire(frames[1..]) + (rest + tail));
      FrameIsNotEmpty(frames[0]);
      assert texts != [];
      FramePrefixFree(frames[0], Wire(frames[1..]) + (rest + tail), texts[0], Wire(texts[1..]));
      assert Wire(frames[1..]) + rest + tail == Wire(texts[1..]);
      FramesOfAPrefix(frames[1..], rest, texts[1..], max);
      assert frames == [frames[0]] + frames[1..] && texts == [texts[0]] + texts[1..];
    }
  }

  /** The frames of a part of what was sent are the first of the texts sent. */
  lemma ArrivedWereSent(incoming: seq<byte>, frames: seq<seq<byte>>, max: nat, texts: seq<seq<byte>>)
    requires max <= ABSOLUTE_MAX_FRAME_SIZE && LegalPayloads(texts, ABSOLUTE_MAX_FRAME_SIZE)
    requires frames <= OneShot(incoming, max).frames && incoming <= Wire(texts)
    ensures frames <= texts
  {
    hide OneShot, Wire;
    OneShotDecomposes(incoming, max);
    var p := OneShot(incoming, max);
    FramesOfAPrefix(p.frames, p.rest, texts, max);
  }

  // ---------------------------------------------------------------- what the server replied

  /** The reply to each frame, by position, when every frame has one. */
  lemma {:induction false} ReplyAt(env: Environment, profile: Definition, outcome: HandshakeOutcome, codec: TextCodec,
                                   frames: seq<seq<byte>>, i: nat)
    requires frames != [] && |ReplyTexts(env, profile, outcome, codec, frames[..|frames| - 1])| == |frames| - 1
    requires i < |ReplyTexts(env, profile, outcome, codec, frames)|
    ensures i < |frames|
    ensures var reply := Decide(env, profile, outcome, codec, frames[i], i).0;
            reply.Some? && codec.dump(ToJson(reply.value)) == Some(ReplyTexts(env, profile, outcome, codec, frames)[i])
  {
    hide Decide, ToJson;
    var n := |frames| - 1;
    var before := frames[..n];
    assert frames == before + [frames[n]];
    ReplyTextsSnoc(env, profile, outcome, codec, before, frames[n]);
    if i < n {
      AllButLastReplied(env, profile, outcome, codec, before);
      ReplyAt(env, profile, outcome, codec, before, i);
    }
  }

  /** If all frames have replies, so have all but the last. */
  lemma AllButLastReplied(env: Environment, profile: Definition, outcome: HandshakeOutcome, codec: TextCodec,
                          frames: seq<seq<byte>>)
    requires frames != [] && |ReplyTexts(env, profile, outcome, codec, frames)| == |frames|
    ensures |ReplyTexts(env, profile, outcome, codec, frames[..|frames| - 1])| == |frames| - 1
  {
    hide Decide, ToJson;
    RepliesAtMost(env, profile, outcome, codec, frames[..|frames| - 1]);
  }

  lemma {:induction false} RepliesAtMost(env: Environment, profile: Definition, outcome: HandshakeOutcome,
                                         codec: TextCodec, frames: seq<seq<byte>>)
    ensures |ReplyTexts(env, profile, outcome, codec, frames)| <= |frames|
  {
    hide Decide, ToJson;
    if frames == [] {
    } else {
      RepliesAtMost(env, profile, outcome, codec, frames[..|frames| - 1]);
    }
  }

  lemma {:induction false} TextAt(codec: TextCodec, messages: seq<Message>, i: nat)
    requires Texts(codec, messages).Some? && i < |messages|
    ensures |Texts(codec, messages).value| == |messages|
    ensures codec.dump(ToJson(messages[i])) == Some(Texts(codec, messages).value[i])
  {
    hide ToJson;
    var k := |messages| - 1;
    if i < k {
      TextAt(codec, messages[..k], i);
    } else if k > 0 {
      TextAt(codec, messages[..k], 0);
    }
  }

  /** The server's reply to a message it got, and what the client's parser makes of it. */
  lemma ReplyComesBack(serverEnv: Environment, clientEnv: Environment, profile: Definition, outcome: HandshakeOutcome,
                       codec: TextCodec, m: Message, text: seq<byte>, i: nat, replyText: seq<byte>)
    requires Faithful(codec) && codec.dump(ToJson(m)) == Some(text) && |serverEnv.freshId(i)| <= MAX_MESSAGE_ID
    requires var reply := Decide(serverEnv, profile, outcome, codec, text, i).0;
             reply.Some? && codec.dump(ToJson(reply.value)) == Some(replyText)
    ensures var parsed := ParseText(codec, replyText, clientEnv.freshId(i), clientEnv.now(i));
            parsed.Ok? && TwoPeers.Answers(profile, outcome, m, TwoPeers.Accepted(m), parsed.value)
  {
    var u := TwoPeers.Setup(codec, [], 1, 1, 0, profile, outcome);
    TwoPeers.RequestReply(u, m, text, serverEnv.freshId(i), serverEnv.reason(i), serverEnv.now(i));
    hide Sendable, ToJson, ParseText, HandleMessage, MakeError, TwoPeers.Accepted, TwoPeers.Answers, Faithful;
    var reply := Decide(serverEnv, profile, outcome, codec, text, i).0;
    TextRoundTrip(codec, reply.value, clientEnv.freshId(i), clientEnv.now(i));
  }

  /**
    The two methods together. If what the server received is a part of what the client sent and the other way round,
    every response of a successful client answers the message at its place: it is the reply that fits the message if the
    server's parser accepts it, and a rejection that says why if not. No response answers an accepted `close`. The
    server may have ended in any way.
    */
  lemma ResponsesAnswerMessages(clientConfig: Config, serverConfig: Config, clientEnv: Environment,
                                serverEnv: Environment, profile: Definition, outcome: HandshakeOutcome,
                                codec: TextCodec, messages: seq<Message>, responses: seq<Message>,
                                toClient: seq<byte>, fromClient: seq<byte>, clientFrames: seq<seq<byte>>, count: nat,
                                toServer: seq<byte>, fromServer: seq<byte>, serverFrames: seq<seq<byte>>, i: nat)
    requires Faithful(codec) && forall k: nat :: |serverEnv.freshId(k)| <= MAX_MESSAGE_ID
    requires Exchanged(clientEnv, clientConfig, codec, messages, responses, toClient, fromClient, clientFrames, count)
    requires Served(serverEnv, serverConfig, profile, outcome, codec, toServer, fromServer, serverFrames)
    requires toServer <= fromClient && toClient <= fromServer && i < |responses|
    ensures TwoPeers.Answers(profile, outcome, messages[i], TwoPeers.Accepted(messages[i]), responses[i])
  {
    hide OneShot, Wire, ReplyTexts, Decide, Texts, ToJson, ParseText, Faithful, TwoPeers.Accepted,
         TwoPeers.Answers;
    var sent := if |responses| == |messages| then |messages| else |responses| + 1;
    var texts := Texts(codec, messages[..sent]).value;
    var replies := ReplyTexts(serverEnv, profile, outcome, codec, serverFrames);
    NoFrames(serverEnv, profile, outcome, codec);
    ArrivedWereSent(toClient, clientFrames, clientConfig.maxFrameSize, Begun(replies, serverConfig.maxFrameSize));
    assert clientFrames[i] == replies[i];
    ArrivedWereSent(toServer, serverFrames, serverConfig.maxFrameSize, texts);
    ReplyAt(serverEnv, profile, outcome, codec, serverFrames, i);
    assert serverFrames[i] == texts[i];
    TextAt(codec, messages[..sent], i);
    ReplyComesBack(serverEnv, clientEnv, profile, outcome, codec, messages[i], texts[i], i, replies[i]);
  }
}
