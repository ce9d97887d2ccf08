/**
 * Properties of the stream decoder: what a whole version 1 or version 2
 * frame does, what is kept between calls, what each frame type yields,
 * and how the result depends on where the transport cuts the stream.
 */
module CodecProps {
  import opened Wrappers
  import opened Values
  import opened Wire
  import opened Flatten
  import opened Codec

  // ---------------------------------------------------------------------
  // What is kept between calls
  // ---------------------------------------------------------------------

  predicate IsSuffix(a: Bytes, b: Bytes) {
    |a| <= |b| && a == b[|b| - |a|..]
  }

  lemma SuffixTrans(a: Bytes, b: Bytes, c: Bytes)
    requires IsSuffix(a, b) && IsSuffix(b, c)
    ensures IsSuffix(a, c)
  {
    assert c[|c| - |b|..][|b| - |a|..] == c[|c| - |a|..];
  }

  /** What a header step leaves of the buffer is a suffix of it. */
  lemma HeaderStepSuffix(cfg: Config, st: State, buf: Bytes)
    requires |buf| >= HeaderLengthV1
    ensures IsSuffix(HeaderStep(cfg, st, buf).rest, buf)
  {
    var n := ReadU32(buf);
    if n <= HeaderLengthV1 && !(cfg.rule == WaitFullV2Header && |buf| < HeaderLengthV2) {
      var flags := UnpackN(buf[4..]);
      var len := UnpackN(flags.rest);
      assert IsSuffix(flags.rest, buf[4..]);
      assert IsSuffix(len.rest, flags.rest);
      SuffixTrans(len.rest, flags.rest, buf[4..]);
      SuffixTrans(len.rest, buf[4..], buf);
    }
  }

  /**
   * The loop leaves a well-formed state. When it raises, the stash is the
   * one of the state the loop started from (which `decode` has already
   * cleared, see `DecodeKeeps`); otherwise the stash is a proper tail of
   * the bytes the loop was given, shorter than the length then awaited.
   */
  lemma {:induction false} RunKeeps(cfg: Config, st: State, buf: Bytes)
    requires Wf(cfg, st)
    ensures var r := Run(cfg, st, buf);
      Wf(cfg, r.state) &&
      (r.outcome.Raised? ==> r.state.partial == st.partial) &&
      (r.outcome.Done? ==> r.state.pending.Some? && |r.state.partial| < r.state.pending.value &&
                            IsSuffix(r.state.partial, buf))
    decreases Measure(st, buf), 1
  {
    if st.pending.None? || |buf| < st.pending.value {
    } else if st.codecState == PendingHeader {
      RunKeepsHeader(cfg, st, buf);
    } else {
      RunKeepsPayload(cfg, st, buf);
    }
  }

  /**
   * After `decode(data)` the state is well formed. A raise leaves the stash
   * empty, so every buffered byte of that call is lost; otherwise the stash
   * is a tail of the old stash followed by `data`, shorter than the length
   * then awaited.
   */
  lemma DecodeKeeps(cfg: Config, st: State, data: Bytes)
    requires Wf(cfg, st)
    ensures var r := Decode(cfg, st, data);
      Wf(cfg, r.state) &&
      (r.outcome.Raised? ==> r.state.partial == []) &&
      (r.outcome.Done? ==> r.state.pending.Some? && |r.state.partial| < r.state.pending.value &&
                            IsSuffix(r.state.partial, st.partial + data))
  {
    RunKeeps(cfg, st.(partial := []), st.partial + data);
  }

  lemma {:induction false} RunKeepsHeader(cfg: Config, st: State, buf: Bytes)
    requires Wf(cfg, st) && st.codecState == PendingHeader && st.pending.Some? && |buf| >= st.pending.value
    ensures var r := Run(cfg, st, buf);
      Wf(cfg, r.state) &&
      (r.outcome.Raised? ==> r.state.partial == st.partial) &&
      (r.outcome.Done? ==> r.state.pending.Some? && |r.state.partial| < r.state.pending.value &&
                            IsSuffix(r.state.partial, buf))
    decreases Measure(st, buf), 0
  {
    HeaderStepDecreases(cfg, st, buf);
    RunHeader(cfg, st, buf);
    var s := HeaderStep(cfg, st, buf);
    HeaderStepSuffix(cfg, st, buf);
    RunKeeps(cfg, s.state, s.rest);
    var r := Run(cfg, s.state, s.rest);
    if r.outcome.Done? {
      SuffixTrans(r.state.partial, s.rest, buf);
    }
  }

  lemma {:induction false} RunKeepsPayload(cfg: Config, st: State, buf: Bytes)
    requires Wf(cfg, st) && st.codecState == PendingData && st.pending.Some? && |buf| >= st.pending.value
    ensures var r := Run(cfg, st, buf);
      Wf(cfg, r.state) &&
      (r.outcome.Raised? ==> r.state.partial == st.partial) &&
      (r.outcome.Done? ==> r.state.pending.Some? && |r.state.partial| < r.state.pending.value &&
                            IsSuffix(r.state.partial, buf))
    decreases Measure(st, buf), 0
  {
    PayloadStepDecreases(cfg, st, buf);
    RunPayload(cfg, st, buf);
    var f := PayloadStep(st, buf);
    DispatchWf(cfg, f.state, f.length, f.msg);
    var d := Dispatch(cfg, f.state, f.length, f.msg);
    if d.outcome.Done? {
      RunKeeps(cfg, d.state, f.rest);
      var r := Run(cfg, d.state, f.rest);
      if r.outcome.Done? {
        assert IsSuffix(f.rest, buf);
        SuffixTrans(r.state.partial, f.rest, buf);
      }
    }
  }

  /** A call on bytes that do not complete what is awaited consumes nothing: they are all stashed. */
  lemma IncompleteWaits(cfg: Config, st: State, data: Bytes)
    requires Wf(cfg, st) && st.pending.Some? && |st.partial + data| < st.pending.value
    ensures Decode(cfg, st, data) == Result(st.(partial := st.partial + data), [], Done)
  {
  }

  // ---------------------------------------------------------------------
  // Where the stream is cut (the corrected header rule)
  // ---------------------------------------------------------------------

  /** Under the corrected rule a header read does not depend on bytes after the header. */
  lemma HeaderStepAppend(cfg: Config, st: State, buf: Bytes, extra: Bytes)
    requires cfg.rule == WaitFullV2Header && |buf| >= HeaderLengthV1
    requires ReadU32(buf) > HeaderLengthV1 || |buf| >= HeaderLengthV2
    ensures HeaderStep(cfg, st, buf + extra) ==
            Step(HeaderStep(cfg, st, buf).state, HeaderStep(cfg, st, buf).rest + extra)
  {
    ReadU32Prefix(buf, extra);
    assert (buf + extra)[4..] == buf[4..] + extra;
    if ReadU32(buf) <= HeaderLengthV1 {
      ReadU32Prefix(buf[4..], extra);
      assert (buf[4..] + extra)[4..] == buf[8..] + extra;
      assert buf[4..][4..] == buf[8..];
      ReadU32Prefix(buf[8..], extra);
      assert (buf[8..] + extra)[4..] == buf[12..] + extra;
      assert buf[8..][4..] == buf[12..];
    }
  }

  /** A payload cut does not depend on the bytes after the payload. */
  lemma PayloadStepAppend(st: State, buf: Bytes, extra: Bytes)
    requires st.pending.Some? && st.pending.value <= |buf|
    ensures var f := PayloadStep(st, buf);
      PayloadStep(st, buf + extra) == Frame(f.state, f.length, f.msg, f.rest + extra)
  {
    var p := st.pending.value;
    assert (buf + extra)[..p] == buf[..p];
    assert (buf + extra)[p..] == buf[p..] + extra;
  }

  /**
   * Waiting for twelve bytes instead of four changes nothing once a
   * version 2 header has arrived in full.
   */
  lemma WaitThenRead(cfg: Config, st: State, buf: Bytes)
    requires Wf(cfg, st) && cfg.rule == WaitFullV2Header
    requires st.codecState == PendingHeader && st.pending == Some(HeaderLengthV1)
    requires |buf| >= HeaderLengthV1 && ReadU32(buf) <= HeaderLengthV1
    ensures Run(cfg, st, buf) == Run(cfg, st.(pending := Some(HeaderLengthV2)), buf)
  {
    var waiting := st.(pending := Some(HeaderLengthV2));
    if |buf| >= HeaderLengthV2 {
      HeaderStepDecreases(cfg, st, buf);
      HeaderStepDecreases(cfg, waiting, buf);
      assert HeaderStep(cfg, st, buf) == HeaderStep(cfg, waiting, buf);
    }
  }

  /**
   * The loop on a buffer followed by more bytes is the loop on the buffer,
   * then the loop on its stash and the more bytes: a raise is the same
   * raise, otherwise the events concatenate.
   */
  ghost predicate Composes(cfg: Config, st: State, buf: Bytes, extra: Bytes)
    requires Wf(cfg, st)
  {
    var r1 := Run(cfg, st, buf);
    Wf(cfg, r1.state) &&
    Run(cfg, st, buf + extra) ==
      if r1.outcome.Raised? then r1
      else
        var r2 := Run(cfg, r1.state.(partial := []), r1.state.partial + extra);
        Result(r2.state, r1.events + r2.events, r2.outcome)
  }

  /** Under the corrected rule, every buffer composes with what follows it. */
  lemma {:induction false} RunAppend(cfg: Config, st: State, buf: Bytes, extra: Bytes)
    requires Wf(cfg, st) && st.partial == [] && cfg.rule == WaitFullV2Header
    ensures Composes(cfg, st, buf, extra)
    decreases Measure(st, buf), 1
  {
    if st.pending.None? || |buf| < st.pending.value {
      RunAppendStop(cfg, st, buf, extra);
    } else if st.codecState == PendingHeader {
      if ReadU32(buf) <= HeaderLengthV1 && |buf| < HeaderLengthV2 {
        RunAppendWait(cfg, st, buf, extra);
      } else {
        RunAppendHeader(cfg, st, buf, extra);
      }
    } else {
      RunAppendPayload(cfg, st, buf, extra);
    }
  }

  /** The loop does not start: a nil awaited length raises, a short buffer is stashed. */
  lemma RunAppendStop(cfg: Config, st: State, buf: Bytes, extra: Bytes)
    requires Wf(cfg, st) && st.partial == []
    requires st.pending.None? || |buf| < st.pending.value
    ensures Composes(cfg, st, buf, extra)
  {
    if st.pending.Some? {
      var r1 := Run(cfg, st, buf);
      assert r1 == Result(st.(partial := buf), [], Done);
      assert r1.state.(partial := []) == st;
      assert [] + Run(cfg, st, buf + extra).events == Run(cfg, st, buf + extra).events;
    }
  }

  /** A version 2 header not yet complete: the loop waits for twelve bytes, with or without the more bytes. */
  lemma RunAppendWait(cfg: Config, st: State, buf: Bytes, extra: Bytes)
    requires Wf(cfg, st) && st.partial == [] && cfg.rule == WaitFullV2Header
    requires st.codecState == PendingHeader && st.pending.Some? && |buf| >= st.pending.value
    requires ReadU32(buf) <= HeaderLengthV1 && |buf| < HeaderLengthV2
    ensures Composes(cfg, st, buf, extra)
  {
    HeaderStepDecreases(cfg, st, buf);
    var waiting := st.(pending := Some(HeaderLengthV2));
    var r1 := Run(cfg, st, buf);
    RunHeader(cfg, st, buf);
    assert HeaderStep(cfg, st, buf) == Step(waiting, buf);
    assert r1 == Run(cfg, waiting, buf);
    assert r1 == Result(waiting.(partial := buf), [], Done);
    assert r1.state.(partial := []) == waiting;
    ReadU32Prefix(buf, extra);
    if |buf + extra| < HeaderLengthV2 {
      RunHeader(cfg, st, buf + extra);
      assert HeaderStep(cfg, st, buf + extra) == Step(waiting, buf + extra);
    } else {
      WaitThenRead(cfg, st, buf + extra);
    }
    assert [] + Run(cfg, waiting, buf + extra).events == Run(cfg, waiting, buf + extra).events;
  }

  /** A header read in full: the more bytes follow what the header leaves. */
  lemma {:induction false} RunAppendHeader(cfg: Config, st: State, buf: Bytes, extra: Bytes)
    requires Wf(cfg, st) && st.partial == [] && cfg.rule == WaitFullV2Header
    requires st.codecState == PendingHeader && st.pending.Some? && |buf| >= st.pending.value
    requires ReadU32(buf) > HeaderLengthV1 || |buf| >= HeaderLengthV2
    ensures Composes(cfg, st, buf, extra)
    decreases Measure(st, buf), 0
  {
    HeaderStepDecreases(cfg, st, buf);
    var s := HeaderStep(cfg, st, buf);
    HeaderStepAppend(cfg, st, buf, extra);
    RunHeader(cfg, st, buf);
    RunHeader(cfg, st, buf + extra);
    RunAppend(cfg, s.state, s.rest, extra);
  }

  /** A payload cut and dispatched: the more bytes follow what the payload leaves. */
  lemma {:induction false} RunAppendPayload(cfg: Config, st: State, buf: Bytes, extra: Bytes)
    requires Wf(cfg, st) && st.partial == [] && cfg.rule == WaitFullV2Header
    requires st.codecState == PendingData && st.pending.Some? && |buf| >= st.pending.value
    ensures Composes(cfg, st, buf, extra)
    decreases Measure(st, buf), 0
  {
    PayloadStepDecreases(cfg, st, buf);
    var f := PayloadStep(st, buf);
    PayloadStepAppend(st, buf, extra);
    RunPayload(cfg, st, buf);
    RunPayload(cfg, st, buf + extra);
    var d := Dispatch(cfg, f.state, f.length, f.msg);
    if d.outcome.Raised? {
      assert Run(cfg, st, buf) == d && Run(cfg, st, buf + extra) == d;
    } else {
      DispatchWf(cfg, f.state, f.length, f.msg);
      assert d.state.partial == [] && Measure(d.state, f.rest) == Measure(f.state, f.rest);
      RunAppend(cfg, d.state, f.rest, extra);
      var r := Run(cfg, d.state, f.rest);
      var r' := Run(cfg, d.state, f.rest + extra);
      assert Run(cfg, st, buf) == Result(r.state, d.events + r.events, r.outcome);
      assert Run(cfg, st, buf + extra) == Result(r'.state, d.events + r'.events, r'.outcome);
      if r.outcome.Done? {
        var r2 := Run(cfg, r.state.(partial := []), r.state.partial + extra);
        assert r' == Result(r2.state, r.events + r2.events, r2.outcome);
        AppendAssoc(d.events, r.events, r2.events);
      } else {
        assert r' == r;
      }
    }
  }

  /**
   * Chunk-boundary invariance under the corrected rule: one call on `a + b`
   * does what a call on `a` and then a call on `b` do, events in the same
   * order; a raise in the first call is the raise of the whole.
   */
  lemma ChunkBoundaryInvariance(cfg: Config, st: State, a: Bytes, b: Bytes)
    requires Wf(cfg, st) && cfg.rule == WaitFullV2Header
    ensures Wf(cfg, Decode(cfg, st, a).state)
    ensures var r1 := Decode(cfg, st, a);
      Decode(cfg, st, a + b) ==
        if r1.outcome.Raised? then r1
        else
          var r2 := Decode(cfg, r1.state, b);
          Result(r2.state, r1.events + r2.events, r2.outcome)
  {
    RunAppend(cfg, st.(partial := []), st.partial + a, b);
    RunKeeps(cfg, st.(partial := []), st.partial + a);
    AppendAssoc(st.partial, a, b);
  }

  /** Under the corrected rule the awaited length is never nil, so the loop guard never raises. */
  lemma {:induction false} NeverNilUnderWait(cfg: Config, st: State, buf: Bytes)
    requires Wf(cfg, st) && cfg.rule == WaitFullV2Header && st.pending.Some?
    ensures Run(cfg, st, buf).outcome != Raised(NilPendingLength)
    ensures Run(cfg, st, buf).state.pending.Some?
    decreases Measure(st, buf)
  {
    if |buf| < st.pending.value {
    } else if st.codecState == PendingHeader {
      HeaderStepDecreases(cfg, st, buf);
      RunHeader(cfg, st, buf);
      var s := HeaderStep(cfg, st, buf);
      NeverNilUnderWait(cfg, s.state, s.rest);
    } else {
      PayloadStepDecreases(cfg, st, buf);
      RunPayload(cfg, st, buf);
      var f := PayloadStep(st, buf);
      DispatchWf(cfg, f.state, f.length, f.msg);
      var d := Dispatch(cfg, f.state, f.length, f.msg);
      if d.outcome.Done? {
        NeverNilUnderWait(cfg, d.state, f.rest);
      }
    }
  }

  /** The twelve bytes of a version 2 compressor-reset header with an empty payload. */
  function ResetHeader(): (b: Bytes)
    ensures |b| == HeaderLengthV2
  {
    [0, 0, 0, 1, 0, 0, 0, 0, 0, 0, 0, 0]
  }

  /**
   * As written, a version 2 header cut after its first word breaks the
   * stream: the whole header decodes, but the first four bytes alone leave
   * the awaited length nil and the call raises. The corrected rule decodes
   * both the same way.
   */
  lemma SplitHeaderCounterexample(cfg: Config)
    ensures var st := Initial(cfg.(rule := AsWritten));
      Decode(cfg.(rule := AsWritten), st, ResetHeader()).outcome == Done &&
      Decode(cfg.(rule := AsWritten), st, ResetHeader()[..4]).outcome == Raised(NilPendingLength)
    ensures var st := Initial(cfg.(rule := WaitFullV2Header));
      Decode(cfg.(rule := WaitFullV2Header), st, ResetHeader()[..4]).outcome == Done
  {
    WholeResetHeaderDone(cfg.(rule := AsWritten));
    CutResetHeaderRaises(cfg.(rule := AsWritten));
    CutResetHeaderWaits(cfg.(rule := WaitFullV2Header));
  }

  /** The twelve-byte reset header in one call decodes, whatever the rule. */
  lemma WholeResetHeaderDone(c: Config)
    ensures Decode(c, Initial(c), ResetHeader()).outcome == Done
  {
    var st := Initial(c);
    assert WriteU32(1) == [0, 0, 0, 1] && WriteU32(0) == [0, 0, 0, 0];
    assert ResetHeader() == V2Frame(TypeCompressorReset, 0, []) + [];
    assert st.partial + ResetHeader() == ResetHeader();
    RunResetFrame(c, st, 0, [], []);
  }

  /** Its first four bytes alone, as written: the awaited length is nil and the call raises. */
  lemma CutResetHeaderRaises(c: Config)
    requires c.rule == AsWritten
    ensures Decode(c, Initial(c), ResetHeader()[..4]).outcome == Raised(NilPendingLength)
  {
    var st := Initial(c);
    var cut := ResetHeader()[..4];
    assert st.partial + cut == cut;
    assert ReadU32(cut) == 1;
    RunHeader(c, st, cut);
    var hc := HeaderStep(c, st, cut);
    assert hc.state.pending == None;
  }

  /** Its first four bytes alone, under the corrected rule: the loop waits for twelve. */
  lemma CutResetHeaderWaits(c: Config)
    requires c.rule == WaitFullV2Header
    ensures Decode(c, Initial(c), ResetHeader()[..4]).outcome == Done
  {
    var st := Initial(c);
    var cut := ResetHeader()[..4];
    assert st.partial + cut == cut;
    assert ReadU32(cut) == 1;
    RunHeader(c, st, cut);
    assert HeaderStep(c, st, cut) == Step(st.(pending := Some(HeaderLengthV2)), cut);
  }

  // ---------------------------------------------------------------------
  // Whole frames
  // ---------------------------------------------------------------------

  /** The loop after a dispatch: a raise ends it, otherwise it goes on with the bytes left. */
  function AfterFrame(cfg: Config, d: Result, more: Bytes): Result
    requires Wf(cfg, d.state)
  {
    if d.outcome.Raised? then d
    else
      var r := Run(cfg, d.state, more);
      Result(r.state, d.events + r.events, r.outcome)
  }

  /** The state a version 2 header of the given type and flags leaves once its payload is cut. */
  function V2Cut(st: State, msgType: U32, flags: U32): State {
    st.(codecState := PendingHeader, pending := Some(HeaderLengthV2), wireFormat := Some(V2),
        msgType := Some(msgType), dataCompressed := Some(flags))
  }

  /**
   * A whole version 2 frame: the type, the flags as the compressed marker,
   * and exactly the payload given to the dispatch; the loop then goes on
   * with the bytes after it, waiting for a twelve-byte header.
   */
  lemma RunV2Frame(cfg: Config, st: State, msgType: U32, flags: U32, payload: Bytes, more: Bytes)
    requires Wf(cfg, st) && st.codecState == PendingHeader
    requires msgType <= HeaderLengthV1 && |payload| < Word
    ensures Wf(cfg, V2Cut(st, msgType, flags))
    ensures Wf(cfg, Dispatch(cfg, V2Cut(st, msgType, flags), Some(|payload|), payload).state)
    ensures Run(cfg, st, V2Frame(msgType, flags, payload) + more) ==
            AfterFrame(cfg, Dispatch(cfg, V2Cut(st, msgType, flags), Some(|payload|), payload), more)
  {
    var w1, w2, w3 := WriteU32(msgType), WriteU32(flags), WriteU32(|payload|);
    var buf := V2Frame(msgType, flags, payload) + more;
    assert buf == w1 + (w2 + (w3 + (payload + more)));
    assert buf[4..] == w2 + (w3 + (payload + more));
    assert buf[4..][4..] == w3 + (payload + more);
    ReadWriteU32(msgType);
    ReadWriteU32(flags);
    ReadWriteU32(|payload|);
    ReadU32Prefix(w1, w2 + (w3 + (payload + more)));
    ReadU32Prefix(w2, w3 + (payload + more));
    ReadU32Prefix(w3, payload + more);
    var s1 := st.(codecState := PendingData, pending := Some(|payload|), wireFormat := Some(V2),
                  msgType := Some(msgType), dataCompressed := Some(flags));
    assert HeaderStep(cfg, st, buf) == Step(s1, payload + more);
    assert Run(cfg, st, buf) == Run(cfg, s1, payload + more);
    assert (payload + more)[..|payload|] == payload && (payload + more)[|payload|..] == more;
    assert PayloadStep(s1, payload + more) == Frame(V2Cut(st, msgType, flags), Some(|payload|), payload, more);
    DispatchWf(cfg, V2Cut(st, msgType, flags), Some(|payload|), payload);
  }

  /** The state a version 1 block of the given inner type leaves once it is cut. */
  function V1Cut(st: State, msgType: U32): State {
    st.(codecState := PendingHeader, pending := Some(HeaderLengthV1), wireFormat := Some(V1),
        msgType := Some(msgType), dataCompressed := Some(1))
  }

  /**
   * A whole version 1 frame: always treated as compressed, its inner type
   * and length read from the block, the payload given to the dispatch and
   * the trailing bytes of the block ignored; the loop then waits for a
   * four-byte header.
   */
  lemma RunV1Frame(cfg: Config, st: State, msgType: U32, payload: Bytes, trailer: Bytes, more: Bytes)
    requires Wf(cfg, st) && st.codecState == PendingHeader
    requires 8 + |payload| + |trailer| < Word
    ensures Wf(cfg, V1Cut(st, msgType))
    ensures Wf(cfg, Dispatch(cfg, V1Cut(st, msgType), Some(|payload|), payload).state)
    ensures Run(cfg, st, V1Frame(msgType, payload, trailer) + more) ==
            AfterFrame(cfg, Dispatch(cfg, V1Cut(st, msgType), Some(|payload|), payload), more)
  {
    var n := 8 + |payload| + |trailer|;
    var w0, w1, w2 := WriteU32(n), WriteU32(msgType), WriteU32(|payload|);
    var block := w1 + (w2 + (payload + trailer));
    var buf := V1Frame(msgType, payload, trailer) + more;
    assert buf == w0 + (block + more);
    ReadWriteU32(n);
    ReadWriteU32(msgType);
    ReadWriteU32(|payload|);
    ReadU32Prefix(w0, block + more);
    var s1 := st.(codecState := PendingData, pending := Some(n), wireFormat := Some(V1), dataCompressed := Some(1));
    assert buf[4..] == block + more;
    assert HeaderStep(cfg, st, buf) == Step(s1, block + more);
    RunHeader(cfg, st, buf);
    assert |block| == n;
    V1BlockCut(cfg, st, msgType, payload, trailer, more);
    RunPayload(cfg, s1, block + more);
    DispatchTake(cfg, V1Cut(st, msgType), |payload|, payload + trailer);
    assert (payload + trailer)[..|payload|] == payload;
  }

  /** A version 1 block cut off the buffer: its inner type, its length word and the rest of the block. */
  lemma V1BlockCut(cfg: Config, st: State, msgType: U32, payload: Bytes, trailer: Bytes, more: Bytes)
    requires 8 + |payload| + |trailer| < Word
    ensures var n := 8 + |payload| + |trailer|;
      var block := WriteU32(msgType) + (WriteU32(|payload|) + (payload + trailer));
      var s1 := st.(codecState := PendingData, pending := Some(n), wireFormat := Some(V1), dataCompressed := Some(1));
      |block| == n &&
      PayloadStep(s1, block + more) == Frame(V1Cut(st, msgType), Some(|payload|), payload + trailer, more)
  {
    var n := 8 + |payload| + |trailer|;
    var w1, w2 := WriteU32(msgType), WriteU32(|payload|);
    var block := w1 + (w2 + (payload + trailer));
    ReadWriteU32(msgType);
    ReadWriteU32(|payload|);
    assert |block| == n;
    assert (block + more)[..n] == block && (block + more)[n..] == more;
    ReadU32Prefix(w1, w2 + (payload + trailer));
    assert block[4..] == w2 + (payload + trailer);
    ReadU32Prefix(w2, payload + trailer);
    assert block[4..][4..] == payload + trailer;
  }

  /**
   * A version 2 frame of type 0, or any type the dispatch does not know,
   * raises once its payload is in: no event, the rest of the bytes lost,
   * the decoder back at a header.
   */
  lemma UnknownV2TypeRaises(cfg: Config, st: State, flags: U32, payload: Bytes, more: Bytes)
    requires Wf(cfg, st) && st.codecState == PendingHeader && |payload| < Word
    ensures Run(cfg, st, V2Frame(0, flags, payload) + more) ==
            Result(V2Cut(st, 0, flags), [], Raised(UnknownType(Some(0))))
  {
    RunV2Frame(cfg, st, 0, flags, payload, more);
    var d := Dispatch(cfg, V2Cut(st, 0, flags), Some(|payload|), payload);
    assert d == Result(V2Cut(st, 0, flags), [], Raised(UnknownType(Some(0))));
  }

  /** A version 2 compressor reset: the loop goes on after it with a new, empty inflate stream. */
  lemma RunResetFrame(cfg: Config, st: State, flags: U32, payload: Bytes, more: Bytes)
    requires Wf(cfg, st) && st.codecState == PendingHeader && |payload| < Word
    ensures Wf(cfg, V2Cut(st, TypeCompressorReset, flags).(fed := []))
    ensures Run(cfg, st, V2Frame(TypeCompressorReset, flags, payload) + more) ==
            Run(cfg, V2Cut(st, TypeCompressorReset, flags).(fed := []), more)
  {
    RunV2Frame(cfg, st, TypeCompressorReset, flags, payload, more);
    var s := V2Cut(st, TypeCompressorReset, flags).(fed := []);
    assert Dispatch(cfg, V2Cut(st, TypeCompressorReset, flags), Some(|payload|), payload) == Result(s, [], Done);
    assert [] + Run(cfg, s, more).events == Run(cfg, s, more).events;
  }

  /**
   * A compressor reset then a compressed JSON frame: the new inflate
   * stream is fed the JSON payload alone, whatever was inflated before.
   */
  lemma ResetThenCompressed(cfg: Config, st: State, f0: U32, p0: Bytes, p1: Bytes, more: Bytes)
    requires Wf(cfg, st) && st.codecState == PendingHeader && |p0| < Word && |p1| < Word
    ensures Wf(cfg, V2Cut(st, TypeJson, 1).(fed := [p1]))
    ensures Wf(cfg, JsonUnit(cfg, V2Cut(st, TypeJson, 1).(fed := [p1]), cfg.engine([], p1)).state)
    ensures Run(cfg, st, V2Frame(TypeCompressorReset, f0, p0) + V2Frame(TypeJson, 1, p1) + more) ==
            AfterFrame(cfg, JsonUnit(cfg, V2Cut(st, TypeJson, 1).(fed := [p1]), cfg.engine([], p1)), more)
  {
    var reset := V2Frame(TypeCompressorReset, f0, p0);
    var json := V2Frame(TypeJson, 1, p1);
    assert reset + json + more == reset + (json + more);
    RunResetFrame(cfg, st, f0, p0, json + more);
    var s0 := V2Cut(st, TypeCompressorReset, f0).(fed := []);
    RunV2Frame(cfg, s0, TypeJson, 1, p1, more);
    assert V2Cut(s0, TypeJson, 1) == V2Cut(st, TypeJson, 1).(fed := []);
    InflateOnlyWhenMarked(cfg, V2Cut(s0, TypeJson, 1), Some(|p1|), p1);
    assert Take(p1, Some(|p1|)) == p1;
    assert V2Cut(s0, TypeJson, 1).(fed := [] + [p1]) == V2Cut(st, TypeJson, 1).(fed := [p1]);
  }

  // ---------------------------------------------------------------------
  // Dispatch by type
  // ---------------------------------------------------------------------

  /** A compressor reset starts a new inflate stream and yields nothing; its payload is not read. */
  lemma ResetRestartsInflate(cfg: Config, st: State, l: Option<nat>, msg: Bytes, msg': Bytes)
    requires Wf(cfg, st) && st.msgType == Some(TypeCompressorReset)
    ensures Dispatch(cfg, st, l, msg) == Dispatch(cfg, st, l, msg')
    ensures Dispatch(cfg, st, l, msg) == Result(st.(fed := []), [], Done)
  {
  }

  /** Any type other than 1 to 4 raises with no event and the state untouched. */
  lemma UnknownTypeRaises(cfg: Config, st: State, l: Option<nat>, msg: Bytes)
    requires Wf(cfg, st) && !(st.msgType.Some? && 1 <= st.msgType.value <= 4)
    ensures Dispatch(cfg, st, l, msg) == Result(st, [], Raised(UnknownType(st.msgType)))
  {
  }

  /**
   * Only a compressed marker of exactly 1 sends the payload through the
   * inflate stream; any other marker leaves the stream untouched.
   */
  lemma InflateOnlyWhenMarked(cfg: Config, st: State, l: Option<nat>, msg: Bytes)
    requires Wf(cfg, st) && st.msgType == Some(TypeJson)
    ensures Dispatch(cfg, st, l, msg) ==
            if st.dataCompressed == Some(1)
            then JsonUnit(cfg, st.(fed := st.fed + [Take(msg, l)]), cfg.engine(st.fed, Take(msg, l)))
            else JsonUnit(cfg, st, Take(msg, l))
  {
  }

  /**
   * With no GPB schema loaded, compact and kv frames yield nothing and the
   * payload is not even inflated.
   */
  lemma EmptySchemaDropsGpb(cfg: Config, st: State, l: Option<nat>, msg: Bytes)
    requires Wf(cfg, st) && |cfg.schema| == 0
    requires st.msgType == Some(TypeGpbCompact) || st.msgType == Some(TypeGpbKv)
    ensures Dispatch(cfg, st, l, msg) == Result(st, [], Done)
  {
  }

  /**
   * Raw JSON yields exactly one event per frame: the parsed document, or
   * the text under "unparsed_message" when it does not parse.
   */
  lemma RawJsonOneEvent(cfg: Config, st: State, unit: Bytes)
    requires Wf(cfg, st) && cfg.xform == Raw
    ensures var r := JsonUnit(cfg, st, unit);
      r.outcome == Done && r.state == st &&
      r.events == [if cfg.parseJson(unit).Some? then cfg.parseJson(unit).value
                   else Hash([Field("unparsed_message", Str(BytesToString(unit)))])]
  {
  }

  /** Flat JSON yields one event per triple of the walk of "Data", in walk order. */
  lemma FlatJsonEvents(cfg: Config, st: State, unit: Bytes)
    requires Wf(cfg, st) && cfg.xform == Flat
    requires cfg.parseJson(unit).Some?
    ensures var doc := cfg.parseJson(unit).value;
      var r := JsonUnit(cfg, st, unit);
      if doc.Hash? && Get(doc.fields, "Data").Hash? && Get(doc.fields, "Path").Str? then
        var w := WalkPairs(cfg.walker, Get(doc.fields, "Path").s, "DATA", Get(doc.fields, "Data").fields,
                           AllEntries(|cfg.walker.entries|), 0, st.captured);
        r.outcome == Done && |r.events| == |w.triples| &&
        forall i :: 0 <= i < |w.triples| ==> r.events[i] == Hash(FlatEvent(doc.fields, w.triples[i]))
      else r == Result(st, [], Raised(MalformedDocument))
  {
  }

  // ---------------------------------------------------------------------
  // The flat event
  // ---------------------------------------------------------------------



  /** The seven fields hold the triple and the document's envelope. */
  lemma FlatBaseFields(doc: seq<Field>, t: Triple)
    ensures var ev := FlatBase(doc, t);
      Find(ev, "path") == Some(Str(t.path)) && Find(ev, "type") == Some(Str(t.typ)) &&
      Find(ev, "content") == Some(t.content) &&
      Find(ev, "identifier") == Some(Get(doc, "Identifier")) &&
      Find(ev, "policy_name") == Some(Get(doc, "Policy")) &&
      Find(ev, "version") == Some(Get(doc, "Version")) &&
      Find(ev, "end_time") == Some(Get(doc, "End Time"))
  {
    var ev := FlatBase(doc, t);
    assert |"path"| == |"type"| == 4 && |"content"| == |"version"| == 7;
    assert |"identifier"| == 10 && |"policy_name"| == 11 && |"end_time"| == 8;
    FindFirst(ev, 0, "path");
    FindFirst(ev, 1, "type");
    FindFirst(ev, 2, "content");
    FindFirst(ev, 3, "identifier");
    FindFirst(ev, 4, "policy_name");
    FindFirst(ev, 5, "version");
    FindFirst(ev, 6, "end_time");
  }

  /** The seven fields carry no start_time and no collection_id. */
  lemma FlatBaseWithoutCollection(doc: seq<Field>, t: Triple)
    ensures Find(FlatBase(doc, t), "start_time") == None && Find(FlatBase(doc, t), "collection_id") == None
  {
    var ev := FlatBase(doc, t);
    assert |"path"| == |"type"| == 4 && |"content"| == |"version"| == 7;
    assert |"identifier"| == 10 && |"policy_name"| == 11 && |"end_time"| == 8;
    assert |"start_time"| == 10 && |"collection_id"| == 13;
    FindAbsent(ev, "start_time");
    FindAbsent(ev, "collection_id");
  }

  /**
   * A flat event holds the triple's path, type and content and the
   * document's Identifier, Policy and Version.
   */
  lemma FlatEventEnvelope(doc: seq<Field>, t: Triple)
    ensures var ev := FlatEvent(doc, t);
      Find(ev, "path") == Some(Str(t.path)) && Find(ev, "type") == Some(Str(t.typ)) &&
      Find(ev, "content") == Some(t.content) &&
      Find(ev, "identifier") == Some(Get(doc, "Identifier")) &&
      Find(ev, "policy_name") == Some(Get(doc, "Policy")) &&
      Find(ev, "version") == Some(Get(doc, "Version"))
  {
    FlatBaseFields(doc, t);
    if Get(doc, "End Time") == Null {
      var ev := FlatBase(doc, t);
      assert |"end_time"| == 8 && |"start_time"| == 10 && |"collection_id"| == 13;
      assert |"path"| == |"type"| == 4 && |"content"| == |"version"| == 7;
      assert |"identifier"| == 10 && |"policy_name"| == 11;
      FindPastCollection(doc, ev, "path");
      FindPastCollection(doc, ev, "type");
      FindPastCollection(doc, ev, "content");
      FindPastCollection(doc, ev, "identifier");
      FindPastCollection(doc, ev, "policy_name");
      FindPastCollection(doc, ev, "version");
    }
  }

  /** The three Collection entries added to an event leave every other key as it was. */
  lemma FindPastCollection(doc: seq<Field>, ev: seq<Field>, k: string)
    requires k != "end_time" && k != "start_time" && k != "collection_id"
    ensures Find(Put(Put(Put(ev, "end_time", Get(doc, "CollectionEndTime")),
                         "start_time", Get(doc, "CollectionStartTime")),
                     "collection_id", Get(doc, "CollectionID")), k) == Find(ev, k)
  {
  }

  /**
   * When the document's "End Time" is null, a flat event's end_time,
   * start_time and collection_id come from its Collection fields.
   */
  lemma FlatEventCollectionTimes(doc: seq<Field>, t: Triple)
    requires Get(doc, "End Time") == Null
    ensures var ev := FlatEvent(doc, t);
      Find(ev, "end_time") == Some(Get(doc, "CollectionEndTime")) &&
      Find(ev, "start_time") == Some(Get(doc, "CollectionStartTime")) &&
      Find(ev, "collection_id") == Some(Get(doc, "CollectionID"))
  {
    CollectionPuts(doc, FlatBase(doc, t));
  }

  /** The three Collection entries put on any event are found under their keys. */
  lemma CollectionPuts(doc: seq<Field>, ev: seq<Field>)
    ensures var e3 := Put(Put(Put(ev, "end_time", Get(doc, "CollectionEndTime")),
                              "start_time", Get(doc, "CollectionStartTime")),
                          "collection_id", Get(doc, "CollectionID"));
      Find(e3, "end_time") == Some(Get(doc, "CollectionEndTime")) &&
      Find(e3, "start_time") == Some(Get(doc, "CollectionStartTime")) &&
      Find(e3, "collection_id") == Some(Get(doc, "CollectionID"))
  {
    var e1 := Put(ev, "end_time", Get(doc, "CollectionEndTime"));
    var e2 := Put(e1, "start_time", Get(doc, "CollectionStartTime"));
    var e3 := Put(e2, "collection_id", Get(doc, "CollectionID"));
    assert |"end_time"| == 8 && |"start_time"| == 10 && |"collection_id"| == 13;
    PutKeeps(e2, "collection_id", Get(doc, "CollectionID"), "start_time");
    PutKeeps(e2, "collection_id", Get(doc, "CollectionID"), "end_time");
    PutKeeps(e1, "start_time", Get(doc, "CollectionStartTime"), "end_time");
  }

  /** Putting one key leaves another key's value as it was. */
  lemma PutKeeps(fs: seq<Field>, k: string, v: Value, j: string)
    requires j != k
    ensures Find(Put(fs, k, v), j) == Find(fs, j)
  {
  }

  /** Otherwise end_time is the document's "End Time", and there is no start_time or collection_id. */
  lemma FlatEventOwnEndTime(doc: seq<Field>, t: Triple)
    requires Get(doc, "End Time") != Null
    ensures var ev := FlatEvent(doc, t);
      Find(ev, "end_time") == Some(Get(doc, "End Time")) &&
      Find(ev, "start_time") == None && Find(ev, "collection_id") == None
  {
    FlatBaseFields(doc, t);
    FlatBaseWithoutCollection(doc, t);
  }
}
