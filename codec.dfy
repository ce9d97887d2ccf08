/**
 * The stream decoder (`decode`) as a function of the decoder's state and
 * the bytes handed down by the transport: the framing state machine, the
 * dispatch on the frame type, and the events each frame yields.
 *
 * Foreign work enters through the configuration: the inflate engine, the
 * JSON parser, the protobuf parsers of the header messages and the
 * generated row decoders. The regular-expression engine comes with the
 * filter table in `walker`.
 */
module Codec {
  import opened Wrappers
  import opened Values
  import opened Wire
  import opened Flatten
  import KvTree
  import Compact
  import opened Inflate

  /** `TSCodecState`: waiting for a header or for a payload. */
  datatype CodecState = PendingHeader | PendingData
  datatype WireFormat = V1 | V2
  /** The configured transformation of JSON content. */
  datatype Xform = Raw | Flat

  /**
   * How a version 2 header is read when fewer than twelve bytes are
   * buffered. `AsWritten` reads it anyway, leaving the flags and length
   * nil; `WaitFullV2Header` waits for the whole header first.
   */
  datatype HeaderRule = AsWritten | WaitFullV2Header

  datatype Config = Config(
    rule: HeaderRule,
    xform: Xform,
    walker: Walker,
    schema: Compact.Schema,
    engine: Engine,
    parseJson: Bytes -> Option<Value>,
    parseCompact: Bytes -> Option<Compact.CompactMessage>,
    parseKv: Bytes -> Option<KvTree.KvMessage>,
    decodeRow: Compact.RowDecoder)

  /**
   * The decoder's fields: `@codec_state`, `@pending_bytes` (nil after a
   * short version 2 header), `@wire_format`, `@type`, `@data_compressed`,
   * `@partial_data` (nil is the empty sequence), the chunks fed to the
   * current inflate stream, and the filter entries' captured matches.
   */
  datatype State = State(
    codecState: CodecState,
    pending: Option<nat>,
    wireFormat: Option<WireFormat>,
    msgType: Option<U32>,
    dataCompressed: Option<U32>,
    partial: Bytes,
    fed: seq<Bytes>,
    captured: Captured)

  datatype Error = NilPendingLength | UnknownType(msgType: Option<U32>) | MalformedDocument
  datatype Outcome = Done | Raised(error: Error)

  /** The state after a call, the events it yielded and whether it raised. */
  datatype Result = Result(state: State, events: seq<Value>, outcome: Outcome)

  /** The state `register` sets up. */
  function Initial(cfg: Config): (st: State)
    ensures st.codecState == PendingHeader && st.pending == Some(HeaderLengthV1)
    ensures st.partial == [] && st.fed == [] && |st.captured| == |cfg.walker.entries|
  {
    State(PendingHeader, Some(HeaderLengthV1), None, None, Some(0), [], [],
          seq(|cfg.walker.entries|, _ => []))
  }

  /** What every state the decoder reaches satisfies. */
  predicate Wf(cfg: Config, st: State) {
    |st.captured| == |cfg.walker.entries| &&
    (st.codecState == PendingHeader ==>
       st.pending == Some(HeaderLengthV1) || st.pending == Some(HeaderLengthV2))
  }

  // ---------------------------------------------------------------------
  // Ruby's unpack
  // ---------------------------------------------------------------------

  datatype Unpacked = Unpacked(word: Option<U32>, rest: Bytes)

  /** `unpack('Na*')`: a word and the rest, or nil and the bytes untouched when fewer than four remain. */
  function UnpackN(b: Bytes): Unpacked {
    if |b| >= 4 then Unpacked(Some(ReadU32(b)), b[4..]) else Unpacked(None, b)
  }

  /** The count of `unpack("a#{n}")`: nil counts as one. */
  function Count1(n: Option<nat>): nat {
    n.GetOr(1)
  }

  /** `unpack("a#{n}")`: the first n bytes, or all of them when fewer remain. */
  function Take(b: Bytes, n: Option<nat>): (r: Bytes)
    ensures |r| == if Count1(n) <= |b| then Count1(n) else |b|
    ensures r == b[..|r|]
  {
    if Count1(n) <= |b| then b[..Count1(n)] else b
  }

  // ---------------------------------------------------------------------
  // One step of the loop
  // ---------------------------------------------------------------------

  datatype Step = Step(state: State, rest: Bytes)

  /**
   * A header: a first word above 4 is a version 1 length (always
   * compressed); otherwise it is a version 2 type followed by the flags
   * and length words.
   */
  function HeaderStep(cfg: Config, st: State, buf: Bytes): Step
    requires |buf| >= HeaderLengthV1
  {
    var n := ReadU32(buf);
    if n > HeaderLengthV1 then
      Step(st.(codecState := PendingData, pending := Some(n), wireFormat := Some(V1), dataCompressed := Some(1)),
           buf[4..])
    else if cfg.rule == WaitFullV2Header && |buf| < HeaderLengthV2 then
      Step(st.(pending := Some(HeaderLengthV2)), buf)
    else
      var flags := UnpackN(buf[4..]);
      var len := UnpackN(flags.rest);
      Step(st.(codecState := PendingData, pending := len.word, wireFormat := Some(V2),
               msgType := Some(n), dataCompressed := flags.word),
           len.rest)
  }

  /** A payload cut off the buffer: the state back at PendingHeader, the frame's length and body. */
  datatype Frame = Frame(state: State, length: Option<nat>, msg: Bytes, rest: Bytes)

  function PayloadStep(st: State, buf: Bytes): Frame
    requires st.pending.Some? && st.pending.value <= |buf|
  {
    var p := st.pending.value;
    var msg := buf[..p];
    if st.wireFormat == Some(V2) then
      Frame(st.(codecState := PendingHeader, pending := Some(HeaderLengthV2)), Some(p), msg, buf[p..])
    else
      var t := UnpackN(msg);
      var l := UnpackN(t.rest);
      Frame(st.(codecState := PendingHeader, pending := Some(HeaderLengthV1), msgType := t.word),
            l.word, l.rest, buf[p..])
  }

  // ---------------------------------------------------------------------
  // Dispatch of one frame
  // ---------------------------------------------------------------------

  /** The payload fed through the inflate stream when the compressed marker is exactly 1. */
  function Unit(cfg: Config, st: State, v: Bytes): Bytes {
    if st.dataCompressed == Some(1) then cfg.engine(st.fed, v) else v
  }

  function AfterInflate(st: State, v: Bytes): State {
    if st.dataCompressed == Some(1) then st.(fed := st.fed + [v]) else st
  }

  /** The seven fields every flat event is built from. */
  function FlatBase(doc: seq<Field>, t: Triple): seq<Field> {
    [Field("path", Str(t.path)), Field("type", Str(t.typ)), Field("content", t.content),
     Field("identifier", Get(doc, "Identifier")), Field("policy_name", Get(doc, "Policy")),
     Field("version", Get(doc, "Version")), Field("end_time", Get(doc, "End Time"))]
  }

  /** The event yielded for one flattened triple, with the document's envelope fields. */
  function FlatEvent(doc: seq<Field>, t: Triple): seq<Field> {
    var ev := FlatBase(doc, t);
    if Get(doc, "End Time") == Null then
      Put(Put(Put(ev, "end_time", Get(doc, "CollectionEndTime")),
              "start_time", Get(doc, "CollectionStartTime")),
          "collection_id", Get(doc, "CollectionID"))
    else ev
  }

  function FlatEvents(doc: seq<Field>, ts: seq<Triple>): (evs: seq<Value>)
    ensures |evs| == |ts|
  {
    seq(|ts|, i requires 0 <= i < |ts| => Hash(FlatEvent(doc, ts[i])))
  }

  /** A flat document: "Data" walked with the whole filter table from depth 0. */
  function FlatDocument(cfg: Config, st: State, doc: Value): Result
    requires Wf(cfg, st)
  {
    if doc.Hash? && Get(doc.fields, "Data").Hash? && Get(doc.fields, "Path").Str? then
      var w := cfg.walker;
      var r := WalkPairs(w, Get(doc.fields, "Path").s, "DATA", Get(doc.fields, "Data").fields,
                         AllEntries(|w.entries|), 0, st.captured);
      Result(st.(captured := r.captured), FlatEvents(doc.fields, r.triples), Done)
    else Result(st, [], Raised(MalformedDocument))
  }

  /** A JSON unit: parsed, then passed whole (raw) or flattened. */
  function JsonUnit(cfg: Config, st: State, unit: Bytes): Result
    requires Wf(cfg, st)
  {
    match cfg.parseJson(unit)
    case None => Result(st, [Hash([Field("unparsed_message", Str(BytesToString(unit)))])], Done)
    case Some(doc) =>
      if cfg.xform == Raw then Result(st, [doc], Done) else FlatDocument(cfg, st, doc)
  }

  /**
   * The frame in `msg` of the type held in the state: a decompressor reset,
   * JSON, compact GPB or kv GPB; any other type raises.
   */
  function Dispatch(cfg: Config, st: State, l: Option<nat>, msg: Bytes): Result
    requires Wf(cfg, st)
  {
    var v := Take(msg, l);
    if st.msgType == Some(TypeCompressorReset) then Result(st.(fed := []), [], Done)
    else if st.msgType == Some(TypeJson) then
      JsonUnit(cfg, AfterInflate(st, v), Unit(cfg, st, v))
    else if st.msgType == Some(TypeGpbCompact) then
      if |cfg.schema| == 0 then Result(st, [], Done)
      else
        match cfg.parseCompact(Unit(cfg, st, v))
        case None => Result(AfterInflate(st, v), [], Done)
        case Some(m) => Result(AfterInflate(st, v), Compact.CompactEvents(m, cfg.schema, cfg.decodeRow), Done)
    else if st.msgType == Some(TypeGpbKv) then
      if |cfg.schema| == 0 then Result(st, [], Done)
      else
        match cfg.parseKv(Unit(cfg, st, v))
        case None => Result(AfterInflate(st, v), [], Done)
        case Some(m) => Result(AfterInflate(st, v), KvTree.KvEvents(m), Done)
    else Result(st, [], Raised(UnknownType(st.msgType)))
  }

  lemma DispatchWf(cfg: Config, st: State, l: Option<nat>, msg: Bytes)
    requires Wf(cfg, st)
    ensures Wf(cfg, Dispatch(cfg, st, l, msg).state)
    ensures Dispatch(cfg, st, l, msg).state.codecState == st.codecState
    ensures Dispatch(cfg, st, l, msg).state.pending == st.pending
    ensures Dispatch(cfg, st, l, msg).state.partial == st.partial
  {
  }

  // ---------------------------------------------------------------------
  // The loop and the call
  // ---------------------------------------------------------------------

  /** Decreases with every step: bytes consumed, or a state advanced. */
  function Measure(st: State, buf: Bytes): nat {
    3 * |buf| + (if st.codecState == PendingData then 2 else 0) +
    (if st.codecState == PendingHeader && st.pending == Some(HeaderLengthV1) then 1 else 0)
  }

  /** A header step keeps the state well formed and makes progress. */
  lemma HeaderStepDecreases(cfg: Config, st: State, buf: Bytes)
    requires Wf(cfg, st) && st.codecState == PendingHeader && st.pending.Some? && |buf| >= st.pending.value
    ensures |buf| >= HeaderLengthV1
    ensures Wf(cfg, HeaderStep(cfg, st, buf).state)
    ensures Measure(HeaderStep(cfg, st, buf).state, HeaderStep(cfg, st, buf).rest) < Measure(st, buf)
  {
  }

  /** A payload step returns to PendingHeader, keeps the state well formed and makes progress. */
  lemma PayloadStepDecreases(cfg: Config, st: State, buf: Bytes)
    requires Wf(cfg, st) && st.codecState == PendingData && st.pending.Some? && |buf| >= st.pending.value
    ensures var f := PayloadStep(st, buf);
      Wf(cfg, f.state) && f.state.codecState == PendingHeader && Measure(f.state, f.rest) < Measure(st, buf)
  {
  }

  /**
   * The `while` loop of `decode` over the buffered bytes `buf`, then the
   * stashing of what it did not consume. A nil pending length raises at
   * the loop guard; a raising frame ends the call, losing the rest.
   */
  function Run(cfg: Config, st: State, buf: Bytes): Result
    requires Wf(cfg, st)
    decreases Measure(st, buf)
  {
    if st.pending.None? then Result(st, [], Raised(NilPendingLength))
    else if |buf| < st.pending.value then Result(st.(partial := buf), [], Done)
    else if st.codecState == PendingHeader then
      HeaderStepDecreases(cfg, st, buf);
      var s := HeaderStep(cfg, st, buf);
      Run(cfg, s.state, s.rest)
    else
      PayloadStepDecreases(cfg, st, buf);
      var f := PayloadStep(st, buf);
      var d := Dispatch(cfg, f.state, f.length, f.msg);
      DispatchWf(cfg, f.state, f.length, f.msg);
      if d.outcome.Raised? then d
      else
        var r := Run(cfg, d.state, f.rest);
        Result(r.state, d.events + r.events, r.outcome)
  }

  /** One pass of the loop on a header: the loop goes on from the state and bytes the header leaves. */
  lemma RunHeader(cfg: Config, st: State, buf: Bytes)
    requires Wf(cfg, st) && st.codecState == PendingHeader && st.pending.Some? && |buf| >= st.pending.value
    ensures |buf| >= HeaderLengthV1 && Wf(cfg, HeaderStep(cfg, st, buf).state)
    ensures Run(cfg, st, buf) == Run(cfg, HeaderStep(cfg, st, buf).state, HeaderStep(cfg, st, buf).rest)
  {
    HeaderStepDecreases(cfg, st, buf);
  }

  /** One pass of the loop on a payload: its dispatch, then, unless that raised, the loop on the bytes left. */
  lemma RunPayload(cfg: Config, st: State, buf: Bytes)
    requires Wf(cfg, st) && st.codecState == PendingData && st.pending.Some? && |buf| >= st.pending.value
    ensures var f := PayloadStep(st, buf);
      Wf(cfg, f.state) && Wf(cfg, Dispatch(cfg, f.state, f.length, f.msg).state)
    ensures var f := PayloadStep(st, buf);
      var d := Dispatch(cfg, f.state, f.length, f.msg);
      Run(cfg, st, buf) ==
        if d.outcome.Raised? then d
        else
          var r := Run(cfg, d.state, f.rest);
          Result(r.state, d.events + r.events, r.outcome)
  {
    PayloadStepDecreases(cfg, st, buf);
    var f := PayloadStep(st, buf);
    DispatchWf(cfg, f.state, f.length, f.msg);
  }

  /** The dispatch reads no more of the payload than the length it is given. */
  lemma DispatchTake(cfg: Config, st: State, n: nat, msg: Bytes)
    requires Wf(cfg, st) && n <= |msg|
    ensures Dispatch(cfg, st, Some(n), msg) == Dispatch(cfg, st, Some(n), msg[..n])
  {
    assert Take(msg, Some(n)) == msg[..n] == Take(msg[..n], Some(n));
  }

  /** `decode(data)`: the stashed bytes prepended, the stash cleared, the loop run. */
  function Decode(cfg: Config, st: State, data: Bytes): Result
    requires Wf(cfg, st)
  {
    Run(cfg, st.(partial := []), st.partial + data)
  }
}
