/**
  Whole runs of the decoder: any interleaving of `feed`, `next_frame` and `reset`,
  with any chunking, against the one-shot parser of the bytes fed since the last reset.
  */
module DecoderRuns {
  import opened Prelude
  import opened Framing

  datatype Op = Feed(data: seq<byte>) | Next | Reset

  /** What a run has done so far. `taken` and `moved` count bytes consumed by frames and bytes shifted by erasing. */
  datatype Run = Run(
    dec: DecoderState,
    stream: seq<byte>,
    delivered: seq<seq<byte>>,
    failed: bool,
    taken: nat,
    moved: nat)

  const START := Run(EMPTY_DECODER, [], [], false, 0, 0)

  function Apply(max: nat, r: Run, op: Op): (r': Run)
    requires Sane(r.dec)
    ensures Sane(r'.dec)
  {
    match op
    case Feed(data) =>
      FeedMeaning(r.dec, max, data);
      var f := FeedStep(r.dec, max, data);
      r.(dec := f.state, stream := r.stream + data, failed := r.failed || f.threw, moved := r.moved + f.moved)
    case Next =>
      NextMeaning(r.dec, max);
      var n := NextStep(r.dec, max);
      match n.result {
        case NeedMore => r
        case Threw => r.(failed := true)
        case Delivered(payload) =>
          r.(dec := n.state, delivered := r.delivered + [payload], taken := r.taken + HEADER_SIZE + |payload|)
      }
    case Reset =>
      r.(dec := EMPTY_DECODER, stream := [], delivered := [], failed := false)
  }

  predicate Throws(max: nat, d: DecoderState, op: Op)
    requires Sane(d)
  {
    match op
    case Feed(data) => FeedStep(d, max, data).threw
    case Next => NextStep(d, max).result.Threw?
    case Reset => false
  }

  function RunAll(max: nat, ops: seq<Op>): (r: Run)
    ensures Sane(r.dec)
  {
    if ops == [] then START
    else Apply(max, RunAll(max, ops[..|ops| - 1]), ops[|ops| - 1])
  }

  lemma RunSnoc(max: nat, ops: seq<Op>, op: Op)
    ensures RunAll(max, ops + [op]) == Apply(max, RunAll(max, ops), op)
  {
    assert (ops + [op])[..|ops|] == ops;
  }

  /** Conservation: delivered frames, re-encoded, followed by the unread bytes are the stream. */
  ghost predicate Conserves(max: nat, r: Run) {
    && Tidy(r.dec)
    && r.stream == Wire(r.delivered) + Unread(r.dec)
    && LegalPayloads(r.delivered, max)
    && (r.failed ==> IllegalFront(Unread(r.dec), max))
  }

  lemma IllegalFrontGrows(s: seq<byte>, more: seq<byte>, max: nat)
    requires IllegalFront(s, max)
    ensures IllegalFront(s + more, max)
  {
    assert (s + more)[..HEADER_SIZE] == s[..HEADER_SIZE];
  }

  lemma FeedConserves(max: nat, r: Run, data: seq<byte>)
    requires Conserves(max, r)
    ensures Conserves(max, Apply(max, r, Feed(data)))
  {
    FeedMeaning(r.dec, max, data);
    if r.failed {
      IllegalFrontGrows(Unread(r.dec), data, max);
    }
    var r' := Apply(max, r, Feed(data));
    assert r'.stream == Wire(r.delivered) + Unread(r.dec) + data;
  }

  lemma NextConserves(max: nat, r: Run)
    requires Conserves(max, r)
    ensures Conserves(max, Apply(max, r, Next))
  {
    hide NextStep, IllegalFront, CompleteFront, Frame;
    NextMeaning(r.dec, max);
    var n := NextStep(r.dec, max);
    if n.result.Delivered? {
      WireSnoc(r.delivered, n.result.payload);
      assert r.stream == Wire(r.delivered) + Frame(n.result.payload) + Unread(n.state);
    }
  }

  lemma ApplyConserves(max: nat, r: Run, op: Op)
    requires Conserves(max, r)
    ensures Conserves(max, Apply(max, r, op))
  {
    match op
    case Feed(data) => FeedConserves(max, r, data);
    case Next => NextConserves(max, r);
    case Reset =>
  }

  lemma {:induction false} RunConserves(max: nat, ops: seq<Op>)
    ensures Conserves(max, RunAll(max, ops))
  {
    if ops == [] {
    } else {
      RunConserves(max, ops[..|ops| - 1]);
      ApplyConserves(max, RunAll(max, ops[..|ops| - 1]), ops[|ops| - 1]);
    }
  }

  lemma ConservedRefinesOneShot(max: nat, r: Run)
    requires max < UINT32_RANGE && Conserves(max, r)
    ensures var p := OneShot(r.stream, max);
            && r.delivered <= p.frames
            && OneShot(Unread(r.dec), max) == Parse(p.frames[|r.delivered|..], p.rest, p.illegal)
            && (r.failed ==> p.illegal && r.delivered == p.frames && Unread(r.dec) == p.rest)
  {
    OneShotAfterFrames(r.delivered, Unread(r.dec), max);
    var q := OneShot(Unread(r.dec), max);
    assert (r.delivered + q.frames)[|r.delivered|..] == q.frames;
    if r.failed {
      assert q == Parse([], Unread(r.dec), true);
      assert r.delivered + [] == r.delivered;
    }
  }

  /** The decoder refines the one-shot parser on every run, and what is still to come is what that parser says. */
  lemma DecoderRefinesOneShot(max: nat, ops: seq<Op>)
    requires max < UINT32_RANGE
    ensures var r := RunAll(max, ops);
            var p := OneShot(r.stream, max);
            && r.delivered <= p.frames
            && OneShot(Unread(r.dec), max) == Parse(p.frames[|r.delivered|..], p.rest, p.illegal)
            && (r.failed ==> p.illegal && r.delivered == p.frames && Unread(r.dec) == p.rest)
  {
    RunConserves(max, ops);
    ConservedRefinesOneShot(max, RunAll(max, ops));
  }

  /** The next answer of the decoder is determined by the stream alone, whatever the chunking was. */
  lemma NextAnswersForTheStream(max: nat, r: Run)
    requires max < UINT32_RANGE && Conserves(max, r)
    ensures var p := OneShot(r.stream, max);
            var done := |r.delivered|;
            NextStep(r.dec, max).result ==
            if done < |p.frames| then Delivered(p.frames[done])
            else if p.illegal then Threw
            else NeedMore
  {
    ConservedRefinesOneShot(max, r);
    NextMeaning(r.dec, max);
    var p := OneShot(r.stream, max);
    var q := OneShot(Unread(r.dec), max);
    var n := NextStep(r.dec, max);
    assert q.frames == p.frames[|r.delivered|..];
    if n.result.Delivered? {
      OneShotFrame(n.result.payload, Unread(n.state), max);
      assert q.frames[0] == n.result.payload;
      assert p.frames[|r.delivered|] == q.frames[0];
    } else {
      assert q.frames == [];
    }
  }

  /** `calls` further calls of `next_frame`. */
  function Drain(max: nat, r: Run, calls: nat): Run
    requires Sane(r.dec)
    decreases calls
  {
    if calls == 0 then r else Drain(max, Apply(max, r, Next), calls - 1)
  }

  lemma {:induction false} DrainIsARun(max: nat, ops: seq<Op>, calls: nat)
    ensures Drain(max, RunAll(max, ops), calls) == RunAll(max, ops + seq(calls, _ => Next))
    decreases calls
  {
    if calls == 0 {
      assert ops + seq(calls, _ => Next) == ops;
    } else {
      RunSnoc(max, ops, Next);
      DrainIsARun(max, ops + [Next], calls - 1);
      assert ops + seq(calls, _ => Next) == ops + [Next] + seq(calls - 1, _ => Next);
    }
  }

  /** All frames ahead of the first illegal header come out once `next_frame` is called often enough. */
  lemma {:induction false} EveryFrameComesOut(max: nat, r: Run, calls: nat)
    requires max < UINT32_RANGE && Conserves(max, r)
    ensures var frames := OneShot(r.stream, max).frames;
            && Drain(max, r, calls).delivered <= frames
            && |Drain(max, r, calls).delivered| == Min(|frames|, |r.delivered| + calls)
    decreases calls
  {
    hide OneShot, NextStep;
    ConservedRefinesOneShot(max, r);
    if calls == 0 {
    } else {
      NextAnswersForTheStream(max, r);
      ApplyConserves(max, r, Next);
      EveryFrameComesOut(max, Apply(max, r, Next), calls - 1);
    }
  }

  /** The same, said of a whole run: after enough calls the delivered frames are the stream's frames. */
  lemma DrainedRunHasEveryFrame(max: nat, ops: seq<Op>, calls: nat)
    requires max < UINT32_RANGE
    requires |OneShot(RunAll(max, ops).stream, max).frames| <= |RunAll(max, ops).delivered| + calls
    ensures RunAll(max, ops + seq(calls, _ => Next)).delivered == OneShot(RunAll(max, ops).stream, max).frames
  {
    RunConserves(max, ops);
    EveryFrameComesOut(max, RunAll(max, ops), calls);
    DrainIsARun(max, ops, calls);
  }

  lemma FailureSticksOnce(max: nat, r: Run, op: Op)
    requires Conserves(max, r) && r.failed && op != Reset
    ensures Throws(max, r.dec, op)
    ensures Apply(max, r, op).failed && Apply(max, r, op).delivered == r.delivered
  {
    match op
    case Feed(data) =>
      FeedMeaning(r.dec, max, data);
      IllegalFrontGrows(Unread(r.dec), data, max);
    case Next =>
      NextMeaning(r.dec, max);
  }

  /** Once a call has thrown, every later call throws and nothing more is delivered, until `reset`. */
  lemma {:induction false} FailureSticks(max: nat, ops: seq<Op>, more: seq<Op>)
    requires RunAll(max, ops).failed
    requires Reset !in more
    ensures RunAll(max, ops + more).failed
    ensures RunAll(max, ops + more).delivered == RunAll(max, ops).delivered
    ensures more != [] ==> Throws(max, RunAll(max, ops + more[..|more| - 1]).dec, more[|more| - 1])
  {
    hide Apply, Throws, Conserves;
    if more == [] {
      assert ops + more == ops;
    } else {
      var init, last := more[..|more| - 1], more[|more| - 1];
      FailureSticks(max, ops, init);
      assert ops + more == (ops + init) + [last];
      RunSnoc(max, ops + init, last);
      RunConserves(max, ops + init);
      assert last in more;
      FailureSticksOnce(max, RunAll(max, ops + init), last);
    }
  }

  predicate SameObservables(r: Run, s: Run) {
    r.dec == s.dec && r.stream == s.stream && r.delivered == s.delivered && r.failed == s.failed
  }

  lemma SameObservablesApply(max: nat, r: Run, s: Run, op: Op)
    requires Sane(r.dec) && SameObservables(r, s)
    ensures SameObservables(Apply(max, r, op), Apply(max, s, op))
  {
  }

  /** `reset` forgets: whatever happened before, the calls after it behave as on a new decoder. */
  lemma {:induction false} ResetForgets(max: nat, ops: seq<Op>, more: seq<Op>)
    ensures var r := RunAll(max, ops + [Reset] + more);
            var s := RunAll(max, more);
            SameObservables(r, s)
  {
    if more == [] {
      assert ops + [Reset] + more == ops + [Reset];
      RunSnoc(max, ops, Reset);
    } else {
      var init, last := more[..|more| - 1], more[|more| - 1];
      ResetForgets(max, ops, init);
      SnocAssociates(ops + [Reset], init, last);
      assert more == init + [last];
      RunSnoc(max, ops + [Reset] + init, last);
      SameObservablesApply(max, RunAll(max, ops + [Reset] + init), RunAll(max, init), last);
    }
  }

  // ---------------------------------------------------------------- space and cost

  /** How both peers drive the decoder: bytes are fed only when no frame is ready, in chunks of at most `chunk`. */
  predicate Disciplined(max: nat, chunk: nat, ops: seq<Op>) {
    forall i :: 0 <= i < |ops| ==>
      match ops[i]
      case Feed(data) => |data| <= chunk && NextStep(RunAll(max, ops[..i]).dec, max).result.NeedMore?
      case Next => true
      case Reset => false
  }

  lemma DisciplinedPrefix(max: nat, chunk: nat, ops: seq<Op>, n: nat)
    requires Disciplined(max, chunk, ops) && n <= |ops|
    ensures Disciplined(max, chunk, ops[..n])
  {
    forall i | 0 <= i < n
      ensures ops[..n][i] == ops[i] && ops[..n][..i] == ops[..i]
    {
    }
  }

  /** On a tidy decoder that needs more bytes, less than one whole frame is unread. */
  lemma NeedMoreIsShort(d: DecoderState, max: nat)
    requires Tidy(d) && NextStep(d, max).result.NeedMore?
    ensures |Unread(d)| < HEADER_SIZE + max || |Unread(d)| < HEADER_SIZE
  {
    NextMeaning(d, max);
  }

  /** The most a decoder driven that way ever buffers: two maximal frames less one byte, and one chunk. */
  function SpaceBound(max: nat, chunk: nat): nat {
    2 * max + 7 + chunk
  }

  /** Within the space bound, with all moved bytes paid for, and no byte lost. */
  predicate WithinBounds(max: nat, chunk: nat, r: Run)
    requires Sane(r.dec)
  {
    && |r.dec.buffer| <= SpaceBound(max, chunk)
    && r.moved + r.dec.consumed <= r.taken
    && |r.stream| == r.taken + |Unread(r.dec)|
  }

  /** Feeding a tidy decoder that needs more bytes stays within the bound, whatever its buffer held before. */
  lemma FeedSpace(max: nat, chunk: nat, d: DecoderState, data: seq<byte>)
    requires 0 < max && Tidy(d) && |data| <= chunk && NextStep(d, max).result.NeedMore?
    ensures |FeedStep(d, max, data).state.buffer| <= SpaceBound(max, chunk)
  {
    hide NextStep, DecodeLength, IllegalFront;
    NeedMoreIsShort(d, max);
    FeedMeaning(d, max, data);
    var f := FeedStep(d, max, data);
    assert |f.state.buffer| == |d.buffer| - (d.consumed - f.state.consumed) + |data|;
  }

  lemma CostOfOneCall(max: nat, chunk: nat, r: Run, op: Op)
    requires 0 < max && Tidy(r.dec) && WithinBounds(max, chunk, r)
    requires op.Next? || (op.Feed? && |op.data| <= chunk && NextStep(r.dec, max).result.NeedMore?)
    ensures WithinBounds(max, chunk, Apply(max, r, op))
  {
    match op
    case Feed(data) => CostOfFeed(max, chunk, r, data);
    case Next => NextMeaning(r.dec, max);
  }

  lemma CostOfFeed(max: nat, chunk: nat, r: Run, data: seq<byte>)
    requires 0 < max && Tidy(r.dec) && WithinBounds(max, chunk, r)
    requires |data| <= chunk && NextStep(r.dec, max).result.NeedMore?
    ensures WithinBounds(max, chunk, Apply(max, r, Feed(data)))
  {
    hide NextStep, DecodeLength, IllegalFront;
    FeedSpace(max, chunk, r.dec, data);
    NeedMoreIsShort(r.dec, max);
    FeedMeaning(r.dec, max, data);
  }

  /**
    Memory and amortised cost of a driven decoder: the buffer never exceeds two maximal frames
    (less one byte) plus one chunk, every byte moved by compaction is paid for by a byte already
    consumed, and every fed byte is either consumed or unread.
    */
  lemma {:induction false} DecoderSpaceAndCost(max: nat, chunk: nat, ops: seq<Op>)
    requires 0 < max
    requires Disciplined(max, chunk, ops)
    ensures WithinBounds(max, chunk, RunAll(max, ops))
  {
    hide Apply, NextStep;
    if ops == [] {
    } else {
      var init, last := ops[..|ops| - 1], ops[|ops| - 1];
      DisciplinedPrefix(max, chunk, ops, |ops| - 1);
      DecoderSpaceAndCost(max, chunk, init);
      RunConserves(max, init);
      CostOfOneCall(max, chunk, RunAll(max, init), last);
    }
  }

  /** The branch of `feed` that clears a fully consumed buffer is never taken, on any run at all. */
  lemma ClearBranchUnreachable(max: nat, ops: seq<Op>)
    ensures var d := RunAll(max, ops).dec; !(d.consumed > 0 && d.consumed == |d.buffer|)
  {
    RunConserves(max, ops);
  }

  // ---------------------------------------------------------------- round trip

  lemma WireParses(payloads: seq<seq<byte>>, max: nat)
    requires LegalPayloads(payloads, max) && max < UINT32_RANGE
    ensures OneShot(Wire(payloads), max) == Parse(payloads, [], false)
  {
    OneShotAfterFrames(payloads, [], max);
    assert Wire(payloads) + [] == Wire(payloads);
    assert payloads + [] == payloads;
  }

  /**
    Round trip for every chunking and interleaving: while the bytes fed are a prefix of the encoded
    payloads no call has thrown and only those payloads came out, in order; once all bytes are fed
    and no frame is ready, exactly those payloads came out and the buffer is empty.
    */
  lemma FramesSurviveAnyChunking(max: nat, payloads: seq<seq<byte>>, ops: seq<Op>)
    requires max < UINT32_RANGE && LegalPayloads(payloads, max)
    requires RunAll(max, ops).stream <= Wire(payloads)
    ensures var r := RunAll(max, ops);
            && !r.failed
            && r.delivered <= payloads
            && (r.stream == Wire(payloads) && NextStep(r.dec, max).result.NeedMore?
                ==> r.delivered == payloads && r.dec == EMPTY_DECODER)
  {
    var r := RunAll(max, ops);
    RunConserves(max, ops);
    ConservedRunOnWire(max, payloads, r);
  }

  lemma ConservedRunOnWire(max: nat, payloads: seq<seq<byte>>, r: Run)
    requires max < UINT32_RANGE && LegalPayloads(payloads, max)
    requires Conserves(max, r) && r.stream <= Wire(payloads)
    ensures !IllegalFront(Unread(r.dec), max) && !r.failed
    ensures r.delivered <= payloads
    ensures r.stream == Wire(payloads) && !CompleteFront(Unread(r.dec), max)
            ==> r.delivered == payloads && r.dec == EMPTY_DECODER
    ensures r.stream == Wire(payloads) && NextStep(r.dec, max).result.NeedMore?
            ==> r.delivered == payloads && r.dec == EMPTY_DECODER
  {
    var unread := Unread(r.dec);
    var rest := Wire(payloads)[|r.stream|..];
    assert Wire(payloads) == Wire(r.delivered) + (unread + rest);
    WireParses(payloads, max);
    OneShotAfterFrames(r.delivered, unread + rest, max);
    OneShotDecomposes(unread + rest, max);
    assert !IllegalFront(unread + rest, max);
    if IllegalFront(unread, max) {
      IllegalFrontGrows(unread, rest, max);
    }
    if r.stream == Wire(payloads) {
      assert unread + rest == unread;
      NextMeaning(r.dec, max);
      if !CompleteFront(unread, max) {
        assert OneShot(unread, max).rest == unread;
        assert r.delivered + [] == r.delivered;
      }
    }
  }
}
