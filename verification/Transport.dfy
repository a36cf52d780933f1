/**
  Partial I/O over one direction of a TLS connection. OpenSSL's answers are inputs: any positive
  count may be accepted by a write, any amount of what is in flight may be returned by a read,
  and either may fail.
  */
module Transport {
  import opened Prelude
  import opened Framing
  import opened DecoderRuns
  import opened Channel

  const INT_MAX: nat := 0x7FFF_FFFF

  /** One direction: the bytes accepted by the writer and not yet read, and both ends' `IoCounters`. */
  class Pipe {
    var inFlight: seq<byte>
    var bytesSent: nat
    var bytesReceived: nat

    constructor ()
      ensures inFlight == [] && bytesSent == 0 && bytesReceived == 0
    {
      inFlight, bytesSent, bytesReceived := [], 0, 0;
    }
  }

  /**
    `ssl_write_all`. `answers(i)` is what the i-th SSL_write returns (at most what it was offered).
    The bytes handed over are exactly the first `sent` bytes, the counter agrees, and the call
    throws exactly when bytes are left. `pieces` are the sizes accepted: the call is that many `Channel.Write` steps.
    */
  method SslWriteAll(pipe: Pipe, data: seq<byte>, answers: nat -> int)
    returns (sent: nat, threw: bool, ghost pieces: seq<nat>)
    modifies pipe
    ensures sent <= |data|
    ensures pipe.inFlight == old(pipe.inFlight) + data[..sent]
    ensures pipe.bytesSent == old(pipe.bytesSent) + sent
    ensures pipe.bytesReceived == old(pipe.bytesReceived)
    ensures threw <==> sent < |data|
    ensures forall i :: 0 <= i < |pieces| ==> 0 < pieces[i] <= answers(i)
    ensures threw ==> answers(|pieces|) <= 0
    ensures Fits(pieces, |data|)
    ensures WriteMany(Outbound(old(pipe.inFlight), data, old(pipe.bytesSent)), pieces)
            == Outbound(pipe.inFlight, data[sent..], pipe.bytesSent)
  {
    hide WriteMany, Fits, Outbound;
    sent, threw, pieces := 0, false, [];
    ghost var start := Outbound(pipe.inFlight, data, pipe.bytesSent);
    NoWrites(pipe.inFlight, data, pipe.bytesSent);
    var remaining := |data|;
    var calls := 0;
    while remaining > 0
      invariant 0 <= remaining && sent + remaining == |data|
      invariant pipe.inFlight == old(pipe.inFlight) + data[..sent]
      invariant pipe.bytesSent == old(pipe.bytesSent) + sent
      invariant pipe.bytesReceived == old(pipe.bytesReceived)
      invariant calls == |pieces| && forall i :: 0 <= i < |pieces| ==> 0 < pieces[i] <= answers(i)
      invariant Fits(pieces, |data|)
      invariant WriteMany(start, pieces) == Outbound(pipe.inFlight, data[sent..], pipe.bytesSent)
      decreases remaining
    {
      var chunk := if remaining > INT_MAX then INT_MAX else remaining;
      var written := Min(answers(calls), chunk);
      calls := calls + 1;
      if written <= 0 {
        threw := true;
        return;
      }
      OneMoreWrite(start, pieces, data, sent, written, pipe.inFlight, pipe.bytesSent);
      pieces := pieces + [written];
      pipe.inFlight := pipe.inFlight + data[sent..sent + written];
      NextPiece(old(pipe.inFlight), data, sent, written);
      sent := sent + written;
      remaining := remaining - written;
      pipe.bytesSent := pipe.bytesSent + written;
    }
  }

  lemma NextPiece(before: seq<byte>, data: seq<byte>, sent: nat, n: nat)
    requires sent + n <= |data|
    ensures before + data[..sent] + data[sent..sent + n] == before + data[..sent + n]
  {
  }

  lemma NoWrites(inFlight: seq<byte>, data: seq<byte>, bytesSent: nat)
    ensures var c := Outbound(inFlight, data, bytesSent);
            c.unsent == data && Fits([], |data|) && WriteMany(c, []) == Outbound(inFlight, data[0..], bytesSent)
  {
  }

  lemma OneMoreWrite(c: Channel, pieces: seq<nat>, data: seq<byte>, sent: nat, n: nat, inFlight: seq<byte>,
                     bytesSent: nat)
    requires sent + n <= |data| && c.unsent == data && Fits(pieces, |data|)
    requires WriteMany(c, pieces) == Outbound(inFlight, data[sent..], bytesSent)
    ensures Fits(pieces + [n], |data|)
    ensures WriteMany(c, pieces + [n]) == Outbound(inFlight + data[sent..sent + n], data[sent + n..], bytesSent + n)
  {
    hide WriteMany, Fits;
    WriteSnoc(c, pieces, n);
    assert data[sent..][..n] == data[sent..sent + n] && data[sent..][n..] == data[sent + n..];
  }

  /** What an SSL_read reports besides data. */
  datatype ReadAnswer = Bytes(count: nat) | CloseNotify | Failed(category: Failure)

  /** `ssl_read_some`: a non-empty prefix of what is in flight, empty for a clean close, or an error. */
  method SslReadSome(pipe: Pipe, capacity: nat, answer: ReadAnswer) returns (r: Result<seq<byte>>)
    modifies pipe
    ensures r.Ok? ==> r.value <= old(pipe.inFlight) && pipe.inFlight == old(pipe.inFlight)[|r.value|..]
                      && |r.value| <= capacity
                      && pipe.bytesReceived == old(pipe.bytesReceived) + |r.value|
    ensures r.Err? ==> pipe.inFlight == old(pipe.inFlight) && pipe.bytesReceived == old(pipe.bytesReceived)
    ensures pipe.bytesSent == old(pipe.bytesSent)
    ensures capacity == 0 || answer.CloseNotify? ==> r == Ok([])
    ensures capacity > 0 && answer.Failed? ==> r == Err(answer.category)
    ensures capacity > 0 && answer.Bytes? && (answer.count == 0 || old(pipe.inFlight) == []) ==> r == Err(Timeout)
    ensures capacity > 0 && answer.Bytes? && answer.count > 0 && old(pipe.inFlight) != [] ==> r.Ok? && r.value != []
  {
    if capacity == 0 {
      return Ok([]);
    }
    var chunk := if capacity > INT_MAX then INT_MAX else capacity;
    match answer {
      case CloseNotify => return Ok([]);
      case Failed(category) => return Err(category);
      case Bytes(count) =>
        var read := Min(Min(count, chunk), |pipe.inFlight|);
        if read == 0 {
          return Err(Timeout);
        }
        r := Ok(pipe.inFlight[..read]);
        pipe.inFlight := pipe.inFlight[read..];
        pipe.bytesReceived := pipe.bytesReceived + read;
    }
  }

  /** Of the writes of frame `i` the first `call` accept something and the next one fails. */
  predicate FailsAt(answers: (nat, nat) -> int, i: nat, call: nat) {
    answers(i, call) <= 0 && forall n: nat :: n < call ==> answers(i, n) > 0
  }

  /** The sending side: encode each payload and write it out; stops at the first failing write, of frame `at`. */
  method SendFrames(pipe: Pipe, max: nat, payloads: seq<seq<byte>>, answers: (nat, nat) -> int)
    returns (threw: bool, ghost at: nat, ghost call: nat)
    requires LegalLength(max, ABSOLUTE_MAX_FRAME_SIZE) && LegalPayloads(payloads, max)
    requires pipe.inFlight == [] && pipe.bytesSent == 0 && pipe.bytesReceived == 0
    modifies pipe
    ensures pipe.inFlight <= Wire(payloads)
    ensures pipe.bytesSent == |pipe.inFlight| && pipe.bytesReceived == 0
    ensures !threw ==> pipe.inFlight == Wire(payloads)
    ensures threw ==> at < |payloads| && FailsAt(answers, at, call)
                      && CutShort(payloads, at, pipe.inFlight)
  {
    hide Wire, Frame, WriteMany, Fits, Outbound;
    at, call := 0, 0;
    var i: nat := 0;
    assert payloads[..0] == [];
    NothingOnTheWire();
    while i < |payloads|
      invariant 0 <= i <= |payloads|
      invariant pipe.inFlight == Wire(payloads[..i])
      invariant pipe.bytesSent == |pipe.inFlight| && pipe.bytesReceived == 0
    {
      var frame := Encode(payloads[i], max);
      EncodeDecodeLength(payloads[i], max);
      WirePrefixes(payloads, i);
      var sent, failed, pieces := SslWriteAll(pipe, frame.value, (j: nat) => answers(i, j));
      if failed {
        at, call := i, |pieces|;
        forall n: nat | n < call ensures answers(i, n) > 0 {
          assert 0 < pieces[n];
        }
        assert sent < |Frame(payloads[i])| && pipe.inFlight == Wire(payloads[..i]) + Frame(payloads[i])[..sent];
        return true, at, call;
      }
      i := i + 1;
    }
    assert payloads[..i] == payloads;
    threw := false;
  }

  lemma NothingOnTheWire()
    ensures Wire([]) == []
  {
  }

  /** Frame `at` is the first of which bytes are missing. */
  ghost predicate CutShort(payloads: seq<seq<byte>>, at: nat, bytes: seq<byte>)
    requires at < |payloads|
  {
    exists n: nat :: n < |Frame(payloads[at])| && bytes == Wire(payloads[..at]) + Frame(payloads[at])[..n]
  }

  lemma PartOfAFrame(payload: seq<byte>, n: nat, max: nat)
    requires LegalLength(|payload|, max) && max < UINT32_RANGE && n < |Frame(payload)|
    ensures OneShot(Frame(payload)[..n], max).frames == []
  {
    var part := Frame(payload)[..n];
    if n >= HEADER_SIZE {
      assert part[..HEADER_SIZE] == HeaderFor(|payload|);
      HeaderRoundTrip(|payload|);
    }
  }

  /** A stream that is cut short holds exactly the frames before the cut. */
  lemma CutShortFrames(payloads: seq<seq<byte>>, at: nat, bytes: seq<byte>, max: nat)
    requires LegalPayloads(payloads, max) && max < UINT32_RANGE && at < |payloads| && CutShort(payloads, at, bytes)
    ensures OneShot(bytes, max).frames == payloads[..at]
  {
    hide OneShot, Frame, Wire;
    var n: nat :| n < |Frame(payloads[at])| && bytes == Wire(payloads[..at]) + Frame(payloads[at])[..n];
    OneShotAfterFrames(payloads[..at], Frame(payloads[at])[..n], max);
    PartOfAFrame(payloads[at], n, max);
    assert payloads[..at] + [] == payloads[..at];
  }

  lemma WirePrefixes(payloads: seq<seq<byte>>, i: nat)
    requires i < |payloads|
    ensures Wire(payloads[..i + 1]) == Wire(payloads[..i]) + Frame(payloads[i])
    ensures forall k: nat :: k <= |Frame(payloads[i])| ==>
              Wire(payloads[..i]) + Frame(payloads[i])[..k] <= Wire(payloads)
  {
    assert payloads[..i + 1] == payloads[..i] + [payloads[i]];
    WireSnoc(payloads[..i], payloads[i]);
    assert payloads == payloads[..i + 1] + payloads[i + 1..];
    WireConcat(payloads[..i + 1], payloads[i + 1..]);
  }

  /** A receiver in the middle of its loop: `run` is what its decoder has seen of the stream `total`. */
  ghost predicate Receiving(max: nat, payloads: seq<seq<byte>>, total: seq<byte>, run: Run, inFlight: seq<byte>) {
    && LegalLength(max, ABSOLUTE_MAX_FRAME_SIZE)
    && LegalPayloads(payloads, max)
    && total <= Wire(payloads)
    && Conserves(max, run)
    && run.stream + inFlight == total
  }

  lemma ReceivingIsSafe(max: nat, payloads: seq<seq<byte>>, total: seq<byte>, run: Run, inFlight: seq<byte>)
    requires Receiving(max, payloads, total, run, inFlight)
    ensures !IllegalFront(Unread(run.dec), max) && !run.failed && run.delivered <= payloads
    ensures inFlight == [] && total == Wire(payloads) && !CompleteFront(Unread(run.dec), max)
            ==> run.delivered == payloads && run.dec == EMPTY_DECODER
    ensures inFlight == [] && !CompleteFront(Unread(run.dec), max) ==> run.delivered == OneShot(total, max).frames
  {
    if inFlight == [] && !CompleteFront(Unread(run.dec), max) {
      assert run.stream == total;
      OneShotAfterFrames(run.delivered, Unread(run.dec), max);
      assert run.delivered + [] == run.delivered;
    }
    assert run.stream <= Wire(payloads);
    ConservedRunOnWire(max, payloads, run);
  }

  /** One turn of the loop without a ready frame, which is one `Channel.Read`: read some bytes and feed them. */
  method ReadAndFeed(pipe: Pipe, decoder: Decoder, size: nat,
                     ghost payloads: seq<seq<byte>>, ghost total: seq<byte>, ghost run: Run)
    returns (threw: bool, ghost run': Run, ghost n: nat)
    requires decoder.Valid() && run.dec == decoder.State() && pipe.inFlight != []
    requires Receiving(decoder.maxFrameSize, payloads, total, run, pipe.inFlight)
    requires pipe.bytesReceived == |run.stream|
    modifies pipe, decoder
    ensures decoder.Valid() && run'.dec == decoder.State() && run'.delivered == run.delivered
    ensures Receiving(decoder.maxFrameSize, payloads, total, run', pipe.inFlight)
    ensures pipe.bytesReceived == |run'.stream| && pipe.bytesSent == old(pipe.bytesSent)
    ensures |pipe.inFlight| < old(|pipe.inFlight|)
    ensures n <= old(|pipe.inFlight|) && Read(Inbound(run.dec, old(pipe.inFlight), old(pipe.bytesReceived)), n,
                                              decoder.maxFrameSize)
                                         == Inbound(run'.dec, pipe.inFlight, pipe.bytesReceived)
    ensures !threw
  {
    var data := SslReadSome(pipe, READ_CHUNK, Bytes(size + 1));
    assert data.value + pipe.inFlight == old(pipe.inFlight);
    ApplyConserves(decoder.maxFrameSize, run, Feed(data.value));
    run' := Apply(decoder.maxFrameSize, run, Feed(data.value));
    assert run'.stream + pipe.inFlight == total by {
      assert run.stream + (data.value + pipe.inFlight) == (run.stream + data.value) + pipe.inFlight;
    }
    ReceivingIsSafe(decoder.maxFrameSize, payloads, total, run', pipe.inFlight);
    n := |data.value|;
    assert old(pipe.inFlight)[..n] == data.value;
    threw := decoder.Feed(data.value);
  }

  /** The receiving side, as both peers run it: ask for a frame, and read and feed only when there is none. */
  method ReceiveFrames(pipe: Pipe, decoder: Decoder, ghost payloads: seq<seq<byte>>, sizes: nat -> nat)
    returns (received: seq<seq<byte>>, threw: bool)
    requires decoder.Valid() && decoder.State() == EMPTY_DECODER
    requires LegalLength(decoder.maxFrameSize, ABSOLUTE_MAX_FRAME_SIZE)
    requires LegalPayloads(payloads, decoder.maxFrameSize) && pipe.inFlight <= Wire(payloads)
    requires pipe.bytesReceived == 0 && pipe.bytesSent == |pipe.inFlight|
    modifies pipe, decoder
    ensures !threw && received <= payloads
    ensures pipe.inFlight == [] && pipe.bytesReceived == pipe.bytesSent == old(pipe.bytesSent)
    ensures received == OneShot(old(pipe.inFlight), decoder.maxFrameSize).frames
    ensures old(pipe.inFlight) == Wire(payloads) ==> received == payloads && decoder.State() == EMPTY_DECODER
  {
    received, threw := [], false;
    var calls := 0;
    ghost var total := pipe.inFlight;
    ghost var run := START;
    assert run.stream + pipe.inFlight == total;
    while true
      invariant decoder.Valid() && run.dec == decoder.State()
      invariant Receiving(decoder.maxFrameSize, payloads, total, run, pipe.inFlight)
      invariant run.delivered == received && !threw
      invariant pipe.bytesReceived == |run.stream| && pipe.bytesSent == |total|
      decreases |pipe.inFlight|, |Unread(decoder.State())|
    {
      ReceivingIsSafe(decoder.maxFrameSize, payloads, total, run, pipe.inFlight);
      ApplyConserves(decoder.maxFrameSize, run, Next);
      var next := decoder.NextFrame();
      if next.Delivered? {
        received := received + [next.payload];
        run := Apply(decoder.maxFrameSize, run, Next);
      } else if pipe.inFlight == [] {
        return;
      } else {
        ghost var n;
        threw, run, n := ReadAndFeed(pipe, decoder, sizes(calls), payloads, total, run);
        calls := calls + 1;
      }
    }
  }

  /**
    End to end: encode, write with arbitrary partial writes, read in arbitrary pieces, reassemble.
    If no write failed all payloads get through, the decoder's buffer is empty and no call threw. If one did, exactly
    the payloads before that frame get through. The counters agree in any case.
    */
  method CarryFrames(max: nat, payloads: seq<seq<byte>>, answers: (nat, nat) -> int, sizes: nat -> nat)
    returns (received: seq<seq<byte>>, sendThrew: bool, receiveThrew: bool, leftover: nat, sent: nat, got: nat,
             ghost at: nat, ghost call: nat)
    requires LegalLength(max, ABSOLUTE_MAX_FRAME_SIZE) && LegalPayloads(payloads, max)
    ensures received <= payloads && !receiveThrew && sent == got
    ensures sendThrew ==> at < |payloads| && FailsAt(answers, at, call) && received == payloads[..at]
    ensures !sendThrew ==> received == payloads && leftover == 0 && sent == |Wire(payloads)|
  {
    var pipe := new Pipe();
    var decoder := new Decoder(max);
    sendThrew, at, call := SendFrames(pipe, max, payloads, answers);
    if sendThrew {
      CutShortFrames(payloads, at, pipe.inFlight, max);
    }
    received, receiveThrew := ReceiveFrames(pipe, decoder, payloads, sizes);
    leftover, sent, got := |decoder.buffer|, pipe.bytesSent, pipe.bytesReceived;
  }
}
