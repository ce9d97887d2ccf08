/**
 * The codec object of one connection: the decoder's fields, the inflate
 * stream it replaces on a reset, and the filter table whose captured
 * matches the flattening updates. `Accept` is `decode(data)`: the loop
 * that parses headers, cuts payloads and dispatches frames, proved to
 * compute what `Codec.Decode` says.
 */
module Telemetry {
  import opened Wrappers
  import opened Values
  import opened Wire
  import opened Flatten
  import opened FlattenWalk
  import opened Inflate
  import opened Codec
  import KvTree
  import Compact

  class TelemetryCodec {
    const cfg: Config
    var codecState: CodecState
    var pendingBytes: Option<nat>
    var wireFormat: Option<WireFormat>
    var msgType: Option<U32>
    var dataCompressed: Option<U32>
    var partialData: Bytes
    /** `@zstream` */
    var zstream: Inflater
    /** `@filter_table` */
    const filters: FilterTable

    /** The decoder's state as a value. */
    function State(): State
      reads this, zstream, filters
    {
      Codec.State(codecState, pendingBytes, wireFormat, msgType, dataCompressed, partialData,
                  zstream.fed, filters.captured)
    }

    ghost predicate Valid()
      reads this, zstream, filters
    {
      zstream.engine == cfg.engine && filters.W() == cfg.walker && Wf(cfg, State())
    }

    /** The state initialisation of `register`, with the filter table as configured. */
    constructor Register(cfg: Config)
      ensures this.cfg == cfg && Valid() && State() == Initial(cfg)
    {
      this.cfg := cfg;
      codecState := PendingHeader;
      pendingBytes := Some(HeaderLengthV1);
      zstream := new Inflater(cfg.engine);
      dataCompressed := Some(0);
      wireFormat := None;
      msgType := None;
      partialData := [];
      filters := new FilterTable(cfg.walker.entries, cfg.walker.delimiter, cfg.walker.matches);
      new;
      assert filters.captured == Initial(cfg).captured;
    }

    /** `ts_codec_change_state` */
    method ChangeState(state: CodecState, pending: Option<nat>)
      modifies this
      ensures zstream == old(zstream)
      ensures State() == old(State()).(codecState := state, pending := pending)
    {
      codecState := state;
      pendingBytes := pending;
    }

    /** The PENDING_HEADER branch of the loop. */
    method ReadHeader(buf: Bytes) returns (rest: Bytes)
      requires Valid() && codecState == PendingHeader && pendingBytes.Some? && |buf| >= pendingBytes.value
      modifies this
      ensures Valid() && zstream == old(zstream)
      ensures Step(State(), rest) == HeaderStep(cfg, old(State()), buf)
    {
      var n := ReadU32(buf);
      rest := buf[4..];
      if n > HeaderLengthV1 {
        wireFormat := Some(V1);
        dataCompressed := Some(1);
        ChangeState(PendingData, Some(n));
      } else if cfg.rule == WaitFullV2Header && |buf| < HeaderLengthV2 {
        rest := buf;
        pendingBytes := Some(HeaderLengthV2);
      } else {
        wireFormat := Some(V2);
        var flags := UnpackN(rest);
        var len := UnpackN(flags.rest);
        dataCompressed := flags.word;
        msgType := Some(n);
        rest := len.rest;
        ChangeState(PendingData, len.word);
      }
    }

    /** The PENDING_DATA branch of the loop up to the dispatch: the payload cut off the buffer. */
    method ReadPayload(buf: Bytes) returns (l: Option<nat>, msg: Bytes, rest: Bytes)
      requires Valid() && codecState == PendingData && pendingBytes.Some? && |buf| >= pendingBytes.value
      modifies this
      ensures Valid() && zstream == old(zstream)
      ensures Frame(State(), l, msg, rest) == PayloadStep(old(State()), buf)
    {
      var p := pendingBytes.value;
      msg := buf[..p];
      rest := buf[p..];
      if wireFormat == Some(V2) {
        l := Some(p);
        ChangeState(PendingHeader, Some(HeaderLengthV2));
      } else {
        var t := UnpackN(msg);
        var len := UnpackN(t.rest);
        msgType := t.word;
        l := len.word;
        msg := len.rest;
        ChangeState(PendingHeader, Some(HeaderLengthV1));
      }
    }

    /** `@zstream.inflate(v)` when the compressed marker is exactly 1, `v` itself otherwise. */
    method InflateIfCompressed(v: Bytes) returns (unit: Bytes)
      requires Valid()
      modifies zstream
      ensures Valid()
      ensures unit == Unit(cfg, old(State()), v) && State() == AfterInflate(old(State()), v)
    {
      if dataCompressed == Some(1) {
        unit := zstream.Inflate(v);
      } else {
        unit := v;
      }
    }

    /** A JSON unit: the degraded event when it does not parse, else raw or flattened. */
    method DecodeJson(unit: Bytes) returns (events: seq<Value>, outcome: Outcome)
      requires Valid()
      modifies filters
      ensures Valid()
      ensures Result(State(), events, outcome) == JsonUnit(cfg, old(State()), unit)
    {
      var parsed := cfg.parseJson(unit);
      if parsed.None? {
        return [Hash([Field("unparsed_message", Str(BytesToString(unit)))])], Done;
      }
      var doc := parsed.value;
      if cfg.xform == Raw {
        return [doc], Done;
      }
      if doc.Hash? && Get(doc.fields, "Data").Hash? && Get(doc.fields, "Path").Str? {
        var triples := filters.Extract(Get(doc.fields, "Path").s, "DATA", Get(doc.fields, "Data").fields,
                                       AllEntries(|filters.entries|), 0);
        events := FlatEvents(doc.fields, triples);
        outcome := Done;
      } else {
        events := [];
        outcome := Raised(MalformedDocument);
      }
    }

    /** The `case @type` of the loop. */
    method DispatchFrame(l: Option<nat>, msg: Bytes) returns (events: seq<Value>, outcome: Outcome)
      requires Valid()
      modifies this, zstream, filters
      ensures Valid() && (zstream == old(zstream) || fresh(zstream))
      ensures Result(State(), events, outcome) == Dispatch(cfg, old(State()), l, msg)
    {
      var v := Take(msg, l);
      events, outcome := [], Done;
      if msgType == Some(TypeCompressorReset) {
        zstream := new Inflater(cfg.engine);
      } else if msgType == Some(TypeJson) {
        var unit := InflateIfCompressed(v);
        events, outcome := DecodeJson(unit);
      } else if msgType == Some(TypeGpbCompact) {
        if |cfg.schema| != 0 {
          var unit := InflateIfCompressed(v);
          var m := cfg.parseCompact(unit);
          if m.Some? {
            events := Compact.FanOut(m.value, cfg.schema, cfg.decodeRow);
          }
        }
      } else if msgType == Some(TypeGpbKv) {
        if |cfg.schema| != 0 {
          var unit := InflateIfCompressed(v);
          var m := cfg.parseKv(unit);
          if m.Some? {
            events := KvTree.FanOut(m.value);
          }
        }
      } else {
        outcome := Raised(UnknownType(msgType));
      }
    }

    /**
     * One pass of the loop body: a header parsed, or a payload cut off and
     * dispatched. Either the call raised, or the rest of the loop still has
     * to run on the bytes left, from a smaller measure.
     */
    method Advance(buf: Bytes) returns (events: seq<Value>, outcome: Outcome, rest: Bytes)
      requires Valid() && pendingBytes.Some? && |buf| >= pendingBytes.value
      modifies this, zstream, filters
      ensures Valid() && partialData == old(partialData) && (zstream == old(zstream) || fresh(zstream))
      ensures outcome.Raised? ==> Run(cfg, old(State()), buf) == Result(State(), events, outcome)
      ensures outcome.Done? ==> Measure(State(), rest) < Measure(old(State()), buf)
      ensures outcome.Done? ==>
        var r := Run(cfg, State(), rest);
        Run(cfg, old(State()), buf) == Result(r.state, events + r.events, r.outcome)
    {
      ghost var before := State();
      if codecState == PendingHeader {
        HeaderStepDecreases(cfg, before, buf);
        rest := ReadHeader(buf);
        events, outcome := [], Done;
        assert events + Run(cfg, State(), rest).events == Run(cfg, State(), rest).events;
      } else {
        PayloadStepDecreases(cfg, before, buf);
        var l, msg;
        l, msg, rest := ReadPayload(buf);
        ghost var cut := State();
        DispatchWf(cfg, cut, l, msg);
        events, outcome := DispatchFrame(l, msg);
      }
    }

    /**
     * `decode(data)`: the events yielded for the bytes handed down, whether
     * the call raised, and the new state, exactly as `Codec.Decode` gives them.
     */
    method Accept(data: Bytes) returns (events: seq<Value>, outcome: Outcome)
      requires Valid()
      modifies this, zstream, filters
      ensures Valid()
      ensures Result(State(), events, outcome) == Decode(cfg, old(State()), data)
    {
      var buf := partialData + data;
      partialData := [];
      ghost var target := Decode(cfg, old(State()), data);
      assert target == Run(cfg, State(), buf);
      events := [];
      while pendingBytes.Some? && |buf| >= pendingBytes.value
        invariant Valid() && partialData == []
        invariant zstream == old(zstream) || fresh(zstream)
        invariant var r := Run(cfg, State(), buf); target == Result(r.state, events + r.events, r.outcome)
        decreases Measure(State(), buf)
      {
        var evs, out;
        evs, out, buf := Advance(buf);
        if out.Raised? {
          events := events + evs;
          outcome := out;
          return;
        }
        ghost var next := Run(cfg, State(), buf);
        AppendAssoc(events, evs, next.events);
        events := events + evs;
      }
      if pendingBytes.None? {
        outcome := Raised(NilPendingLength);
        return;
      }
      partialData := buf;
      outcome := Done;
    }
  }
}
