/**
  The length-prefixed frame format, the one-shot reference parser of a byte stream,
  and the incremental `Decoder` with its lazily compacted buffer.
  */
module Framing {
  import opened Prelude

  const HEADER_SIZE: nat := 4
  const ABSOLUTE_MAX_FRAME_SIZE: nat := 64 * 1024 * 1024
  const UINT32_RANGE: nat := 0x1_0000_0000

  /** The size of the buffer both peers read into. */
  const READ_CHUNK: nat := 16 * 1024

  // ---------------------------------------------------------------- wire format

  /** Big-endian length prefix; a length beyond 32 bits is truncated by the source's cast. */
  function HeaderFor(length: nat): (header: seq<byte>)
    ensures |header| == HEADER_SIZE
  {
    [(length / 0x100_0000) % 256, (length / 0x1_0000) % 256, (length / 0x100) % 256, length % 256]
  }

  function LengthIn(header: seq<byte>): (length: nat)
    requires |header| == HEADER_SIZE
    ensures length < UINT32_RANGE
  {
    header[0] as int * 0x100_0000 + header[1] as int * 0x1_0000 + header[2] as int * 0x100 + header[3] as int
  }

  function Frame(payload: seq<byte>): seq<byte> {
    HeaderFor(|payload|) + payload
  }

  /** The bytes of a list of frames sent back to back. */
  function Wire(payloads: seq<seq<byte>>): seq<byte> {
    if payloads == [] then [] else Frame(payloads[0]) + Wire(payloads[1..])
  }

  predicate LegalLength(length: int, max: nat) {
    0 < length <= max
  }

  predicate LegalPayloads(payloads: seq<seq<byte>>, max: nat) {
    forall i :: 0 <= i < |payloads| ==> LegalLength(|payloads[i]|, max)
  }

  function Encode(payload: seq<byte>, max: nat): Result<seq<byte>> {
    if max > ABSOLUTE_MAX_FRAME_SIZE then Err(Protocol)
    else if payload == [] then Err(Protocol)
    else if |payload| > max then Err(Protocol)
    else Ok(Frame(payload))
  }

  function DecodeLength(header: seq<byte>, max: nat): Result<nat> {
    if |header| != HEADER_SIZE then Err(Protocol)
    else
      var length := LengthIn(header);
      if length == 0 then Err(Protocol)
      else if length > max then Err(Protocol)
      else Ok(length)
  }

  lemma Base256(high: int, low: int)
    requires 0 <= low < 256
    ensures (high * 256 + low) / 256 == high && (high * 256 + low) % 256 == low
  {
  }

  lemma HeaderRoundTrip(length: nat)
    requires length < UINT32_RANGE
    ensures LengthIn(HeaderFor(length)) == length
  {
    var b, c, d := length / 0x100, length / 0x1_0000, length / 0x100_0000;
    assert b / 0x100 == c && c / 0x100 == d;
    assert d % 256 == d;
  }

  /** The number whose base-256 digits are `digits`, the most significant first. */
  function BigEndian(digits: seq<byte>): nat {
    if digits == [] then 0 else 256 * BigEndian(digits[..|digits| - 1]) + digits[|digits| - 1]
  }

  /** A header is the four big-endian digits of the length, of which the cast keeps 32 bits. */
  lemma HeaderIsBigEndian(header: seq<byte>, length: nat)
    requires |header| == HEADER_SIZE
    ensures LengthIn(header) == BigEndian(header)
    ensures HeaderFor(length) == header <==> BigEndian(header) == length % UINT32_RANGE
  {
    assert header[..3][..2] == header[..2] && header[..2][..1] == header[..1] && header[..1][..0] == [];
    assert BigEndian(header[..1]) == header[0] as int;
    assert BigEndian(header[..2]) == 256 * BigEndian(header[..1]) + header[1] as int;
    assert BigEndian(header[..3]) == 256 * BigEndian(header[..2]) + header[2] as int;
    HeaderOfTruncated(length);
    HeaderUnique(HeaderFor(length));
    HeaderUnique(header);
  }

  lemma HeaderOfTruncated(length: nat)
    ensures LengthIn(HeaderFor(length)) == length % UINT32_RANGE
  {
    NestedQuotients(length);
    var b, c, d := length / 0x100, length / 0x1_0000, length / 0x100_0000;
    var q := d / 0x100;
    assert LengthIn(HeaderFor(length)) == length - q * UINT32_RANGE;
    assert length / UINT32_RANGE == q;
  }

  /** A length is read from exactly the four-byte headers whose big-endian number is legal. */
  lemma DecodeLengthExactly(header: seq<byte>, max: nat)
    ensures DecodeLength(header, max) ==
            if |header| == 4 && LegalLength(BigEndian(header), max) then Ok(BigEndian(header)) else Err(Protocol)
  {
    if |header| == 4 {
      HeaderIsBigEndian(header, 0);
    }
  }

  /** Encoding succeeds exactly on legal payloads, and the header then decodes to the payload's length. */
  lemma EncodeDecodeLength(payload: seq<byte>, max: nat)
    ensures Encode(payload, max).Ok? <==> max <= ABSOLUTE_MAX_FRAME_SIZE && LegalLength(|payload|, max)
    ensures Encode(payload, max).Err? ==> Encode(payload, max) == Err(Protocol)
    ensures Encode(payload, max).Ok? ==>
              var frame := Encode(payload, max).value;
              && |frame| == HEADER_SIZE + |payload|
              && DecodeLength(frame[..HEADER_SIZE], max) == Ok(|payload|)
              && frame[HEADER_SIZE..] == payload
  {
    if Encode(payload, max).Ok? {
      var frame := Encode(payload, max).value;
      assert frame[..HEADER_SIZE] == HeaderFor(|payload|);
      HeaderRoundTrip(|payload|);
    }
  }

  lemma {:induction false} WireConcat(a: seq<seq<byte>>, b: seq<seq<byte>>)
    ensures Wire(a + b) == Wire(a) + Wire(b)
  {
    if a == [] {
      assert a + b == b;
    } else {
      assert (a + b)[1..] == a[1..] + b;
      WireConcat(a[1..], b);
    }
  }

  lemma WireSnoc(a: seq<seq<byte>>, payload: seq<byte>)
    ensures Wire(a + [payload]) == Wire(a) + Frame(payload)
  {
    WireConcat(a, [payload]);
    assert [payload][1..] == [];
    assert Wire([payload]) == Frame(payload) + [];
  }

  // ---------------------------------------------------------------- one-shot reference parser

  /** What a stream of bytes means: its complete legal frames, what is left, and whether the rest is illegal. */
  datatype Parse = Parse(frames: seq<seq<byte>>, rest: seq<byte>, illegal: bool)

  /** The front of `s` announces a length outside [1, max]. */
  predicate IllegalFront(s: seq<byte>, max: nat) {
    |s| >= HEADER_SIZE && !LegalLength(LengthIn(s[..HEADER_SIZE]), max)
  }

  /** The front of `s` holds a complete legal frame. */
  predicate CompleteFront(s: seq<byte>, max: nat) {
    && |s| >= HEADER_SIZE
    && LegalLength(LengthIn(s[..HEADER_SIZE]), max)
    && |s| >= HEADER_SIZE + LengthIn(s[..HEADER_SIZE])
  }

  function FrontLength(s: seq<byte>, max: nat): (length: nat)
    requires CompleteFront(s, max)
    ensures 0 < length && HEADER_SIZE + length <= |s|
  {
    LengthIn(s[..HEADER_SIZE])
  }

  function OneShot(s: seq<byte>, max: nat): Parse
    decreases |s|
  {
    if !CompleteFront(s, max) then Parse([], s, IllegalFront(s, max))
    else
      var length := FrontLength(s, max);
      var tail := OneShot(s[HEADER_SIZE + length..], max);
      Parse([s[HEADER_SIZE..HEADER_SIZE + length]] + tail.frames, tail.rest, tail.illegal)
  }

  lemma FrameFront(payload: seq<byte>, tail: seq<byte>, max: nat)
    requires LegalLength(|payload|, max) && max < UINT32_RANGE
    ensures CompleteFront(Frame(payload) + tail, max)
    ensures FrontLength(Frame(payload) + tail, max) == |payload|
    ensures (Frame(payload) + tail)[HEADER_SIZE..HEADER_SIZE + |payload|] == payload
    ensures (Frame(payload) + tail)[HEADER_SIZE + |payload|..] == tail
  {
    assert (Frame(payload) + tail)[..HEADER_SIZE] == HeaderFor(|payload|);
    HeaderRoundTrip(|payload|);
  }

  lemma NestedQuotients(n: int)
    ensures n / 0x1_0000 == n / 0x100 / 0x100
    ensures n / 0x100_0000 == n / 0x100 / 0x100 / 0x100
  {
  }

  lemma HeaderUnique(header: seq<byte>)
    requires |header| == HEADER_SIZE
    ensures HeaderFor(LengthIn(header)) == header
  {
    var a: int, b: int, c: int, d: int := header[0], header[1], header[2], header[3];
    var n := LengthIn(header);
    var ab := a * 256 + b;
    var abc := ab * 256 + c;
    assert n == abc * 256 + d;
    Base256(0, a);
    Base256(a, b);
    Base256(ab, c);
    Base256(abc, d);
    NestedQuotients(n);
    assert HeaderFor(n) == [a, b, c, d];
  }

  lemma CompleteFrontIsFrame(s: seq<byte>, max: nat)
    requires CompleteFront(s, max)
    ensures s == Frame(s[HEADER_SIZE..HEADER_SIZE + FrontLength(s, max)]) + s[HEADER_SIZE + FrontLength(s, max)..]
  {
    HeaderUnique(s[..HEADER_SIZE]);
  }

  /** `frames` and `rest` decompose `s`, and no further legal frame is complete. */
  ghost predicate Decomposes(s: seq<byte>, max: nat, frames: seq<seq<byte>>, rest: seq<byte>) {
    && s == Wire(frames) + rest
    && LegalPayloads(frames, max)
    && !CompleteFront(rest, max)
  }

  lemma {:induction false} OneShotDecomposes(s: seq<byte>, max: nat)
    ensures Decomposes(s, max, OneShot(s, max).frames, OneShot(s, max).rest)
    ensures OneShot(s, max).illegal <==> IllegalFront(OneShot(s, max).rest, max)
    decreases |s|
  {
    if CompleteFront(s, max) {
      var length := FrontLength(s, max);
      CompleteFrontIsFrame(s, max);
      OneShotDecomposes(s[HEADER_SIZE + length..], max);
      var p := OneShot(s, max);
      assert p.frames[1..] == OneShot(s[HEADER_SIZE + length..], max).frames;
    }
  }

  lemma WireHead(frames: seq<seq<byte>>, rest: seq<byte>)
    requires frames != []
    ensures Wire(frames) + rest == Frame(frames[0]) + (Wire(frames[1..]) + rest)
  {
    assert Wire(frames) == Frame(frames[0]) + Wire(frames[1..]);
  }

  lemma OneShotFrame(payload: seq<byte>, tail: seq<byte>, max: nat)
    requires LegalLength(|payload|, max) && max < UINT32_RANGE
    ensures var p := OneShot(tail, max);
            OneShot(Frame(payload) + tail, max) == Parse([payload] + p.frames, p.rest, p.illegal)
  {
    FrameFront(payload, tail, max);
  }

  lemma {:induction false} OneShotAfterFrames(frames: seq<seq<byte>>, rest: seq<byte>, max: nat)
    requires LegalPayloads(frames, max) && max < UINT32_RANGE
    ensures var p := OneShot(rest, max);
            OneShot(Wire(frames) + rest, max) == Parse(frames + p.frames, p.rest, p.illegal)
  {
    if frames == [] {
      assert Wire(frames) + rest == rest;
    } else {
      var head, others := frames[0], frames[1..];
      var tail := Wire(others) + rest;
      OneShotAfterFrames(others, rest, max);
      OneShotFrame(head, tail, max);
      WireHead(frames, rest);
      HeadRejoins(frames, OneShot(rest, max).frames);
    }
  }

  /** The decomposition of a stream is unique, so the one-shot parser is the only meaning a stream has. */
  lemma OneShotUnique(s: seq<byte>, max: nat, frames: seq<seq<byte>>, rest: seq<byte>)
    requires max < UINT32_RANGE
    ensures Decomposes(s, max, frames, rest) <==>
            frames == OneShot(s, max).frames && rest == OneShot(s, max).rest
  {
    OneShotDecomposes(s, max);
    if Decomposes(s, max, frames, rest) {
      OneShotAfterFrames(frames, rest, max);
    }
  }

  // ---------------------------------------------------------------- incremental decoder

  /** The fields of `Decoder`, as a value. */
  datatype DecoderState = DecoderState(buffer: seq<byte>, consumed: nat)

  const EMPTY_DECODER := DecoderState([], 0)

  predicate Sane(d: DecoderState) {
    d.consumed <= |d.buffer|
  }

  /** What every call keeps: consumed bytes never reach the end of a non-empty buffer. */
  predicate Tidy(d: DecoderState) {
    d.consumed == 0 || d.consumed < |d.buffer|
  }

  function Unread(d: DecoderState): seq<byte>
    requires Sane(d)
  {
    d.buffer[d.consumed..]
  }

  datatype FeedOutcome = FeedOutcome(state: DecoderState, threw: bool, moved: nat)

  datatype NextResult = NeedMore | Delivered(payload: seq<byte>) | Threw

  datatype NextOutcome = NextOutcome(state: DecoderState, result: NextResult)

  /** `feed`, first part: reclaim consumed bytes. `moved` counts the bytes that erasing shifts down. */
  function Reclaim(d: DecoderState, max: nat): (DecoderState, nat)
    requires Sane(d)
  {
    if d.consumed > 0 && d.consumed == |d.buffer| then (EMPTY_DECODER, 0)
    else if d.consumed > HEADER_SIZE + max then
      (DecoderState(d.buffer[d.consumed..], 0), |d.buffer| - d.consumed)
    else (d, 0)
  }

  /** `feed`: reclaim, append, then check the first unread header; the bytes stay appended when it throws. */
  function FeedStep(d: DecoderState, max: nat, data: seq<byte>): FeedOutcome
    requires Sane(d)
  {
    var (kept, moved) := Reclaim(d, max);
    var grown := DecoderState(kept.buffer + data, kept.consumed);
    var threw := |grown.buffer| - grown.consumed >= HEADER_SIZE
                 && DecodeLength(grown.buffer[grown.consumed..grown.consumed + HEADER_SIZE], max).Err?;
    FeedOutcome(grown, threw, moved)
  }

  function NextStep(d: DecoderState, max: nat): NextOutcome
    requires Sane(d)
  {
    var available := |d.buffer| - d.consumed;
    if available < HEADER_SIZE then NextOutcome(d, NeedMore)
    else
      var length := DecodeLength(d.buffer[d.consumed..d.consumed + HEADER_SIZE], max);
      if length.Err? then NextOutcome(d, Threw)
      else if available < HEADER_SIZE + length.value then NextOutcome(d, NeedMore)
      else
        var start := d.consumed + HEADER_SIZE;
        var payload := d.buffer[start..start + length.value];
        var after := d.consumed + HEADER_SIZE + length.value;
        NextOutcome(if after == |d.buffer| then EMPTY_DECODER else DecoderState(d.buffer, after),
                    Delivered(payload))
  }

  /** Feeding appends to the unread bytes whatever the buffer layout was, and throws exactly on an illegal front. */
  lemma FeedMeaning(d: DecoderState, max: nat, data: seq<byte>)
    requires Sane(d)
    ensures var f := FeedStep(d, max, data);
            && Tidy(f.state)
            && Unread(f.state) == Unread(d) + data
            && (f.threw <==> IllegalFront(Unread(d) + data, max))
  {
    var f := FeedStep(d, max, data);
    assert Unread(f.state) == Unread(d) + data;
    if |Unread(f.state)| >= HEADER_SIZE {
      assert f.state.buffer[f.state.consumed..f.state.consumed + HEADER_SIZE] == Unread(f.state)[..HEADER_SIZE];
    }
  }

  /** Asking for a frame removes exactly the front frame of the unread bytes, or says precisely why not. */
  lemma NextMeaning(d: DecoderState, max: nat)
    requires Sane(d)
    ensures var n := NextStep(d, max);
            && Sane(n.state)
            && (Tidy(d) ==> Tidy(n.state))
            && (n.result.Threw? <==> IllegalFront(Unread(d), max))
            && (n.result.Delivered? <==> CompleteFront(Unread(d), max))
            && (!n.result.Delivered? ==> n.state == d)
            && (n.result.Delivered? ==> Unread(d) == Frame(n.result.payload) + Unread(n.state)
                                        && LegalLength(|n.result.payload|, max))
  {
    var u := Unread(d);
    if |u| >= HEADER_SIZE {
      assert d.buffer[d.consumed..d.consumed + HEADER_SIZE] == u[..HEADER_SIZE];
      if CompleteFront(u, max) {
        var length := FrontLength(u, max);
        var start := d.consumed + HEADER_SIZE;
        assert d.buffer[start..start + length] == u[HEADER_SIZE..HEADER_SIZE + length];
        assert u[HEADER_SIZE + length..] == d.buffer[start + length..];
        CompleteFrontIsFrame(u, max);
      }
    }
  }

  /** The decoder object. Its methods are the two steps above, performed on the fields. */
  class Decoder {
    const maxFrameSize: nat
    var buffer: seq<byte>
    var consumed: nat

    ghost predicate Valid()
      reads this
    {
      Sane(State())
    }

    ghost function State(): DecoderState
      reads this
    {
      DecoderState(buffer, consumed)
    }

    /** The source's constructor throws outside [1, 64 MiB]; `New` is the throwing form. */
    constructor (maxFrameSize: nat)
      requires LegalLength(maxFrameSize, ABSOLUTE_MAX_FRAME_SIZE)
      ensures this.maxFrameSize == maxFrameSize
      ensures Valid() && Tidy(State()) && State() == EMPTY_DECODER
    {
      this.maxFrameSize := maxFrameSize;
      buffer := [];
      consumed := 0;
    }

    static method New(maxFrameSize: nat) returns (d: Option<Decoder>)
      ensures d.Some? <==> LegalLength(maxFrameSize, ABSOLUTE_MAX_FRAME_SIZE)
      ensures d.Some? ==> fresh(d.value) && d.value.Valid() && d.value.State() == EMPTY_DECODER
                          && d.value.maxFrameSize == maxFrameSize
    {
      if maxFrameSize == 0 || maxFrameSize > ABSOLUTE_MAX_FRAME_SIZE {
        return None;
      }
      var decoder := new Decoder(maxFrameSize);
      d := Some(decoder);
    }

    method Feed(data: seq<byte>) returns (threw: bool)
      requires Valid()
      modifies this
      ensures Valid() && Tidy(State())
      ensures Unread(State()) == old(Unread(State())) + data
      ensures threw <==> IllegalFront(Unread(State()), maxFrameSize)
      ensures var f := FeedStep(old(State()), maxFrameSize, data); State() == f.state && threw == f.threw
    {
      FeedMeaning(State(), maxFrameSize, data);
      if consumed > 0 && consumed == |buffer| {
        buffer := [];
        consumed := 0;
      } else if consumed > HEADER_SIZE + maxFrameSize {
        buffer := buffer[consumed..];
        consumed := 0;
      }
      buffer := buffer + data;
      threw := false;
      if |buffer| - consumed >= HEADER_SIZE {
        threw := DecodeLength(buffer[consumed..consumed + HEADER_SIZE], maxFrameSize).Err?;
      }
    }

    method NextFrame() returns (r: NextResult)
      requires Valid()
      modifies this
      ensures Valid() && (old(Tidy(State())) ==> Tidy(State()))
      ensures r.Threw? <==> IllegalFront(old(Unread(State())), maxFrameSize)
      ensures r.Delivered? <==> CompleteFront(old(Unread(State())), maxFrameSize)
      ensures r.Delivered? ==> old(Unread(State())) == Frame(r.payload) + Unread(State())
                               && LegalLength(|r.payload|, maxFrameSize)
      ensures !r.Delivered? ==> State() == old(State())
      ensures var n := NextStep(old(State()), maxFrameSize); State() == n.state && r == n.result
    {
      hide IllegalFront, CompleteFront, Frame, LegalLength, LengthIn;
      NextMeaning(State(), maxFrameSize);
      var available := |buffer| - consumed;
      if available < HEADER_SIZE {
        return NeedMore;
      }
      var length := DecodeLength(buffer[consumed..consumed + HEADER_SIZE], maxFrameSize);
      if length.Err? {
        return Threw;
      }
      if available < HEADER_SIZE + length.value {
        return NeedMore;
      }
      var start := consumed + HEADER_SIZE;
      r := Delivered(buffer[start..start + length.value]);
      consumed := consumed + HEADER_SIZE + length.value;
      if consumed == |buffer| {
        buffer := [];
        consumed := 0;
      }
    }

    method Reset()
      modifies this
      ensures Valid() && Tidy(State()) && State() == EMPTY_DECODER
    {
      buffer := [];
      consumed := 0;
    }
  }
}
