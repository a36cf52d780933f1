/**
  One direction of a connection between two peers: the frames a sender has begun, the bytes it has not
  handed to TLS yet, the bytes in flight, and the receiver's decoder. Writes and reads move any number of bytes.
  */
module Channel {
  import opened Prelude
  import opened Framing

  datatype Channel = Channel(
    texts: seq<seq<byte>>,
    taken: nat,
    dec: DecoderState,
    inFlight: seq<byte>,
    unsent: seq<byte>,
    bytesSent: nat,
    bytesReceived: nat)

  const IDLE := Channel([], 0, EMPTY_DECODER, [], [], 0, 0)

  /** Every byte of every begun frame is in exactly one place, in order, and the counters agree with the places. */
  ghost predicate Conserved(c: Channel) {
    && Tidy(c.dec)
    && c.taken <= |c.texts|
    && LegalPayloads(c.texts, ABSOLUTE_MAX_FRAME_SIZE)
    && Wire(c.texts[c.taken..]) == Unread(c.dec) + c.inFlight + c.unsent
    && c.bytesSent == c.bytesReceived + |c.inFlight|
    && c.bytesSent + |c.unsent| == |Wire(c.texts)|
  }

  /** The sender starts a new frame. */
  function Begin(c: Channel, text: seq<byte>): Channel {
    c.(texts := c.texts + [text], unsent := Frame(text))
  }

  /** One SSL_write of `n` bytes. */
  function Write(c: Channel, n: nat): Channel
    requires n <= |c.unsent|
  {
    c.(inFlight := c.inFlight + c.unsent[..n], unsent := c.unsent[n..], bytesSent := c.bytesSent + n)
  }

  /** The sizes of successive writes add up to at most `limit`. */
  predicate Fits(pieces: seq<nat>, limit: nat) {
    if pieces == [] then true
    else pieces[|pieces| - 1] <= limit && Fits(pieces[..|pieces| - 1], limit - pieces[|pieces| - 1])
  }

  /** Successive writes. */
  function WriteMany(c: Channel, pieces: seq<nat>): (r: Channel)
    requires Fits(pieces, |c.unsent|)
    ensures |r.unsent| + Sum(pieces) == |c.unsent|
  {
    if pieces == [] then c
    else
      var last := pieces[|pieces| - 1];
      FitsLess(pieces[..|pieces| - 1], |c.unsent| - last, |c.unsent|);
      FitsSum(pieces, |c.unsent|);
      Write(WriteMany(c, pieces[..|pieces| - 1]), last)
  }

  function Sum(pieces: seq<nat>): nat {
    if pieces == [] then 0 else Sum(pieces[..|pieces| - 1]) + pieces[|pieces| - 1]
  }

  lemma {:induction false} FitsLess(pieces: seq<nat>, limit: nat, limit': nat)
    requires Fits(pieces, limit) && limit <= limit'
    ensures Fits(pieces, limit')
  {
    if pieces == [] {
    } else {
      var last := pieces[|pieces| - 1];
      FitsLess(pieces[..|pieces| - 1], limit - last, limit' - last);
    }
  }

  lemma {:induction false} FitsSum(pieces: seq<nat>, limit: nat)
    ensures Fits(pieces, limit) <==> Sum(pieces) <= limit
  {
    if pieces == [] {
    } else if pieces[|pieces| - 1] <= limit {
      FitsSum(pieces[..|pieces| - 1], limit - pieces[|pieces| - 1]);
    }
  }

  lemma WriteSnoc(c: Channel, pieces: seq<nat>, n: nat)
    requires Fits(pieces, |c.unsent|) && n <= |WriteMany(c, pieces).unsent|
    ensures Fits(pieces + [n], |c.unsent|)
    ensures WriteMany(c, pieces + [n]) == Write(WriteMany(c, pieces), n)
  {
    assert (pieces + [n])[..|pieces|] == pieces;
    FitsSum(pieces + [n], |c.unsent|);
  }

  /** The sending end of a direction. */
  function Outbound(inFlight: seq<byte>, unsent: seq<byte>, bytesSent: nat): Channel {
    IDLE.(inFlight := inFlight, unsent := unsent, bytesSent := bytesSent)
  }

  /** The receiving end. */
  function Inbound(dec: DecoderState, inFlight: seq<byte>, bytesReceived: nat): Channel {
    IDLE.(dec := dec, inFlight := inFlight, bytesReceived := bytesReceived)
  }

  /** One SSL_read of `n` bytes, fed to the decoder of a receiver with limit `max`. */
  function Read(c: Channel, n: nat, max: nat): Channel
    requires n <= |c.inFlight| && Sane(c.dec)
  {
    c.(dec := FeedStep(c.dec, max, c.inFlight[..n]).state, inFlight := c.inFlight[n..],
       bytesReceived := c.bytesReceived + n)
  }

  /** A successful `next_frame`. */
  function Take(c: Channel, max: nat): Channel
    requires Sane(c.dec)
  {
    c.(dec := NextStep(c.dec, max).state, taken := c.taken + 1)
  }

  lemma BeginConserves(c: Channel, text: seq<byte>)
    requires Conserved(c) && c.unsent == [] && LegalLength(|text|, ABSOLUTE_MAX_FRAME_SIZE)
    ensures Conserved(Begin(c, text))
  {
    assert (c.texts + [text])[c.taken..] == c.texts[c.taken..] + [text];
    WireSnoc(c.texts[c.taken..], text);
    WireSnoc(c.texts, text);
    assert Unread(c.dec) + c.inFlight + [] == Unread(c.dec) + c.inFlight;
  }

  lemma WriteConserves(c: Channel, n: nat)
    requires Conserved(c) && n <= |c.unsent|
    ensures Conserved(Write(c, n))
  {
    var u, f, w := Unread(c.dec), c.inFlight, c.unsent;
    assert u + f + w == u + (f + w[..n]) + w[n..];
  }

  lemma ReadConserves(c: Channel, n: nat, max: nat)
    requires Conserved(c) && n <= |c.inFlight|
    ensures Conserved(Read(c, n, max))
  {
    var u, f, w := Unread(c.dec), c.inFlight, c.unsent;
    FeedMeaning(c.dec, max, f[..n]);
    assert u + f + w == (u + f[..n]) + f[n..] + w;
  }

  lemma FramePrefixFree(p: seq<byte>, x: seq<byte>, q: seq<byte>, y: seq<byte>)
    requires |p| < UINT32_RANGE && |q| < UINT32_RANGE
    requires Frame(p) + x == Frame(q) + y
    ensures p == q && x == y
  {
    var s := Frame(p) + x;
    assert s[..HEADER_SIZE] == HeaderFor(|p|) && s[..HEADER_SIZE] == HeaderFor(|q|);
    HeaderRoundTrip(|p|);
    HeaderRoundTrip(|q|);
    assert s[HEADER_SIZE..HEADER_SIZE + |p|] == p && s[HEADER_SIZE..HEADER_SIZE + |q|] == q;
    assert s[HEADER_SIZE + |p|..] == x && s[HEADER_SIZE + |q|..] == y;
  }

  /** The frame a receiver gets is the next one the sender began, byte for byte. */
  lemma TakeConserves(c: Channel, max: nat)
    requires Conserved(c) && max <= ABSOLUTE_MAX_FRAME_SIZE && NextStep(c.dec, max).result.Delivered?
    ensures c.taken < |c.texts| && NextStep(c.dec, max).result.payload == c.texts[c.taken]
    ensures Conserved(Take(c, max))
  {
    NextMeaning(c.dec, max);
    var n := NextStep(c.dec, max);
    var later := Unread(n.state) + c.inFlight + c.unsent;
    assert Unread(c.dec) + c.inFlight + c.unsent == Frame(n.result.payload) + later;
    var left := c.texts[c.taken..];
    assert left != [];
    assert left[0] == c.texts[c.taken];
    FramePrefixFree(n.result.payload, later, left[0], Wire(left[1..]));
    assert left[1..] == c.texts[c.taken + 1..];
  }

  /** With nothing left to write or read, a receiver that waits has taken every frame that was begun. */
  lemma WaitingMeansDrained(c: Channel, max: nat)
    requires Conserved(c) && c.inFlight == [] && c.unsent == []
    requires NextStep(c.dec, max).result.NeedMore?
    ensures c.taken == |c.texts|
  {
    NextMeaning(c.dec, max);
    var left := c.texts[c.taken..];
    assert Unread(c.dec) + [] + [] == Unread(c.dec);
    if left != [] {
      assert left[0] == c.texts[c.taken];
      assert Unread(c.dec)[..HEADER_SIZE] == HeaderFor(|left[0]|);
      HeaderRoundTrip(|left[0]|);
    }
  }
}
