/**
 * The kv-GPB decoding (`produce_event_from_gpbkv_stream` and its fan-out):
 * a tree of tables, each with an optional timestamp, name and scalar value,
 * turned into one hash per top-level table. A node's children are merged
 * into one hash under "content", later siblings overwriting earlier ones;
 * every top-level hash is then updated with the message header.
 */
module KvTree {
  import opened Wrappers
  import opened Values

  /** The `value_by_type` oneof of a TelemetryField. */
  datatype Scalar =
    | BytesValue(bytes: Bytes)
    | StringValue(str: string)
    | BoolValue(flag: bool)
    | Uint32Value(u32: nat)
    | Uint64Value(u64: nat)
    | Sint32Value(s32: int)
    | Sint64Value(s64: int)
    | DoubleValue(doubleBits: nat)
    | FloatValue(floatBits: nat)

  /** A TelemetryField as its hash form presents it. */
  datatype KvTable = KvTable(timestamp: Option<nat>, name: Option<string>, value: Option<Scalar>,
                             tables: seq<KvTable>)

  /** A decoded Telemetry message: its hash form (with the `tables` entry) and its top-level tables. */
  datatype KvMessage = KvMessage(fields: seq<Field>, tables: seq<KvTable>)

  /** The stored form of a scalar: bytes become the string holding them, floats stay opaque. */
  function ScalarValue(v: Scalar): Value {
    match v
    case BytesValue(b) => Str(BytesToString(b))
    case StringValue(s) => Str(s)
    case BoolValue(b) => Bool(b)
    case Uint32Value(n) => Int(n)
    case Uint64Value(n) => Int(n)
    case Sint32Value(i) => Int(i)
    case Sint64Value(i) => Int(i)
    case DoubleValue(bits) => Float(bits)
    case FloatValue(bits) => Float(bits)
  }

  /** The node's own timestamp, or the one inherited from its parent (possibly nil). */
  function Timest(t: KvTable, inherit: Value): Value {
    if t.timestamp.Some? then Int(t.timestamp.value) else inherit
  }

  /** `table[:name].to_s`: an absent name is the empty string. */
  function NameOf(t: KvTable): string {
    t.name.GetOr("")
  }

  /** The hash one table produces: its timestamp, its scalar under its name, its merged children. */
  function NodeHash(t: KvTable, inherit: Value): seq<Field>
    decreases t
  {
    var timest := Timest(t, inherit);
    var withTime := Put([], "timest", timest);
    var withValue := if t.value.Some? then Put(withTime, NameOf(t), ScalarValue(t.value.value)) else withTime;
    if |t.tables| != 0 then Put(withValue, "content", Hash(MergeChildren(t.tables, timest, [])))
    else withValue
  }

  /** The children processed in order into one hash with `update`. */
  function MergeChildren(ts: seq<KvTable>, inherit: Value, acc: seq<Field>): seq<Field>
    decreases ts
  {
    if ts == [] then acc else MergeChildren(ts[1..], inherit, Update(acc, NodeHash(ts[0], inherit)))
  }

  /** The header: the message's hash with its `tables` entry removed. */
  function Header(m: KvMessage): seq<Field> {
    Delete(m.fields, "tables")
  }

  /** One event per top-level table, in order: its hash updated with the header. */
  function KvEvents(m: KvMessage): (evs: seq<Value>)
    ensures |evs| == |m.tables|
  {
    var hdr := Header(m);
    seq(|m.tables|, i requires 0 <= i < |m.tables| =>
      Hash(Update(NodeHash(m.tables[i], Get(hdr, "msg_timestamp")), hdr)))
  }

  /**
   * The fan-out as the source runs it: every top-level table pushes its hash
   * onto a list, then every element of the list is updated with the header
   * and yielded.
   */
  method FanOut(m: KvMessage) returns (events: seq<Value>)
    ensures events == KvEvents(m)
  {
    var hdr := Delete(m.fields, "tables");
    var hashes := PushTables(m.tables, Get(hdr, "msg_timestamp"));
    events := UpdateWithHeader(hashes, hdr);
    assert hdr == Header(m);
    assert forall k :: 0 <= k < |events| ==> events[k] == KvEvents(m)[k];
  }

  /** The first loop: the tables' hashes pushed onto a list in order. */
  method PushTables(ts: seq<KvTable>, inherit: Value) returns (hashes: seq<Value>)
    ensures |hashes| == |ts| && forall j :: 0 <= j < |ts| ==> hashes[j] == Hash(NodeHash(ts[j], inherit))
  {
    hashes := [];
    var i := 0;
    while i < |ts|
      invariant 0 <= i <= |ts| && |hashes| == i
      invariant forall j :: 0 <= j < i ==> hashes[j] == Hash(NodeHash(ts[j], inherit))
    {
      hashes := hashes + [Hash(NodeHash(ts[i], inherit))];
      i := i + 1;
    }
  }

  /** The second loop: every listed hash updated with the header. */
  method UpdateWithHeader(hashes: seq<Value>, hdr: seq<Field>) returns (events: seq<Value>)
    requires forall j :: 0 <= j < |hashes| ==> hashes[j].Hash?
    ensures |events| == |hashes| && forall k :: 0 <= k < |hashes| ==> events[k] == Hash(Update(hashes[k].fields, hdr))
  {
    events := [];
    var j := 0;
    while j < |hashes|
      invariant 0 <= j <= |hashes| && |events| == j
      invariant forall k :: 0 <= k < j ==> events[k] == Hash(Update(hashes[k].fields, hdr))
    {
      events := events + [Hash(Update(hashes[j].fields, hdr))];
      j := j + 1;
    }
  }

  // ---------------------------------------------------------------------
  // Properties
  // ---------------------------------------------------------------------

  /** Every node hash has unique keys, so merging it works key by key. */
  lemma {:induction false} NodeHashUnique(t: KvTable, inherit: Value)
    ensures UniqueKeys(NodeHash(t, inherit))
  {
    var timest := Timest(t, inherit);
    var withTime := Put([], "timest", timest);
    PutUnique([], "timest", timest);
    var withValue := if t.value.Some? then Put(withTime, NameOf(t), ScalarValue(t.value.value)) else withTime;
    if t.value.Some? {
      PutUnique(withTime, NameOf(t), ScalarValue(t.value.value));
    }
    if |t.tables| != 0 {
      PutUnique(withValue, "content", Hash(MergeChildren(t.tables, timest, [])));
    }
  }

  /**
   * A node records its own timestamp when it has one and otherwise the
   * inherited one (unless its own name is "timest", which then overwrites it).
   */
  lemma NodeTimest(t: KvTable, inherit: Value)
    requires t.value.None? || NameOf(t) != "timest"
    ensures Find(NodeHash(t, inherit), "timest") == Some(Timest(t, inherit))
  {
  }

  /** A node with a scalar stores it, stringified if bytes, under its name. */
  lemma NodeScalar(t: KvTable, inherit: Value)
    requires t.value.Some? && (NameOf(t) != "content" || |t.tables| == 0)
    ensures Find(NodeHash(t, inherit), NameOf(t)) == Some(ScalarValue(t.value.value))
  {
  }

  /**
   * "content" is present exactly when the node has children, and holds the
   * children merged with the node's own timestamp as their inheritance.
   */
  lemma NodeContent(t: KvTable, inherit: Value)
    requires t.value.None? || NameOf(t) != "content"
    ensures Find(NodeHash(t, inherit), "content") ==
            if |t.tables| != 0 then Some(Hash(MergeChildren(t.tables, Timest(t, inherit), []))) else None
  {
    var timest := Timest(t, inherit);
    var withTime := Put([], "timest", timest);
    assert |"timest"| == 6 && |"content"| == 7;
    var withValue := if t.value.Some? then Put(withTime, NameOf(t), ScalarValue(t.value.value)) else withTime;
    assert Find(withTime, "content") == None;
    assert Find(withValue, "content") == None;
  }

  /** The keys a node's hash defines, read off the table itself. */
  predicate Defines(t: KvTable, k: string) {
    k == "timest" || (t.value.Some? && k == NameOf(t)) || (k == "content" && |t.tables| != 0)
  }

  /** A node hash has exactly the keys "timest", its name (with a scalar) and "content" (with children). */
  lemma NodeDefines(t: KvTable, inherit: Value, k: string)
    ensures Find(NodeHash(t, inherit), k).Some? <==> Defines(t, k)
  {
    var timest := Timest(t, inherit);
    var withTime := Put([], "timest", timest);
    var withValue := if t.value.Some? then Put(withTime, NameOf(t), ScalarValue(t.value.value)) else withTime;
    assert Find(withTime, k).Some? <==> k == "timest";
    assert Find(withValue, k).Some? <==> k == "timest" || (t.value.Some? && k == NameOf(t));
  }

  /** When no child defines a key, the merged hash has the accumulator's entry for it. */
  lemma {:induction false} MergeChildrenUndefined(ts: seq<KvTable>, inherit: Value, acc: seq<Field>, k: string)
    requires forall j :: 0 <= j < |ts| ==> !Defines(ts[j], k)
    ensures Find(MergeChildren(ts, inherit, acc), k) == Find(acc, k)
    decreases |ts|
  {
    if ts != [] {
      var node := NodeHash(ts[0], inherit);
      NodeHashUnique(ts[0], inherit);
      NodeDefines(ts[0], inherit, k);
      UpdateFind(acc, node, k);
      FindKeys(node, k);
      assert forall j :: 0 <= j < |ts| - 1 ==> ts[1..][j] == ts[j + 1];
      MergeChildrenUndefined(ts[1..], inherit, Update(acc, node), k);
    }
  }

  /** Later siblings overwrite: the merged entry for a key is that of the last child defining it. */
  lemma {:induction false} MergeChildrenLast(ts: seq<KvTable>, inherit: Value, acc: seq<Field>, k: string, j: nat)
    requires j < |ts| && Defines(ts[j], k)
    requires forall j' :: j < j' < |ts| ==> !Defines(ts[j'], k)
    ensures Find(MergeChildren(ts, inherit, acc), k) == Find(NodeHash(ts[j], inherit), k)
    decreases |ts|
  {
    var node := NodeHash(ts[0], inherit);
    var tail := ts[1..];
    assert MergeChildren(ts, inherit, acc) == MergeChildren(tail, inherit, Update(acc, node));
    assert forall i :: 0 <= i < |tail| ==> tail[i] == ts[i + 1];
    if j == 0 {
      NodeHashUnique(ts[0], inherit);
      NodeDefines(ts[0], inherit, k);
      MergeAfterLast(tail, inherit, acc, node, k);
    } else {
      MergeChildrenLast(tail, inherit, Update(acc, node), k, j - 1);
      assert tail[j - 1] == ts[j];
    }
  }

  /** Children after a node that defines the key leave the node's entry. */
  lemma MergeAfterLast(tail: seq<KvTable>, inherit: Value, acc: seq<Field>, node: seq<Field>, k: string)
    requires UniqueKeys(node) && Find(node, k).Some?
    requires forall i :: 0 <= i < |tail| ==> !Defines(tail[i], k)
    ensures Find(MergeChildren(tail, inherit, Update(acc, node)), k) == Find(node, k)
  {
    UpdateFind(acc, node, k);
    FindKeys(node, k);
    MergeChildrenUndefined(tail, inherit, Update(acc, node), k);
  }

  /** Every event carries the header's entries: the header wins on clashes. */
  lemma KvHeaderWins(m: KvMessage, i: nat, k: string)
    requires UniqueKeys(m.fields) && i < |m.tables| && k in KeysOf(Header(m))
    ensures KvEvents(m)[i].Hash? && Find(KvEvents(m)[i].fields, k) == Find(Header(m), k)
  {
    DeleteUnique(m.fields, "tables");
    UpdateFind(NodeHash(m.tables[i], Get(Header(m), "msg_timestamp")), Header(m), k);
  }

  /**
   * Outside the header's keys an event is the hash of its top-level table,
   * whose timestamp is inherited from the header's `msg_timestamp`.
   */
  lemma KvEventNode(m: KvMessage, i: nat, k: string)
    requires UniqueKeys(m.fields) && i < |m.tables| && k !in KeysOf(Header(m))
    ensures KvEvents(m)[i].Hash? &&
            Find(KvEvents(m)[i].fields, k) == Find(NodeHash(m.tables[i], Get(Header(m), "msg_timestamp")), k)
  {
    DeleteUnique(m.fields, "tables");
    UpdateFind(NodeHash(m.tables[i], Get(Header(m), "msg_timestamp")), Header(m), k);
  }

  /** The events carry no `tables` entry unless a top-level table is itself named "tables". */
  lemma KvEventsWithoutTables(m: KvMessage, i: nat)
    requires UniqueKeys(m.fields) && i < |m.tables|
    requires m.tables[i].value.None? || NameOf(m.tables[i]) != "tables"
    ensures KvEvents(m)[i].Hash? && Find(KvEvents(m)[i].fields, "tables") == None
  {
    FindKeys(Header(m), "tables");
    KvEventNode(m, i, "tables");
    NodeDefines(m.tables[i], Get(Header(m), "msg_timestamp"), "tables");
  }
}
