/**
 * The compact-GPB fan-out: a decoded header whose tables each carry a
 * policy path and encoded rows. A table whose path has a schema entry
 * yields one event per row, in row order, until a row fails to decode;
 * a table without one yields nothing.
 */
module Compact {
  import opened Wrappers
  import opened Values

  datatype CompactTable = CompactTable(policyPath: Option<string>, rows: seq<Bytes>)

  /** A decoded TelemetryHeader: its hash form (with the `tables` entry) and its tables. */
  datatype CompactMessage = CompactMessage(fields: seq<Field>, tables: seq<CompactTable>)

  /** The row decoder class generated for a policy path, and its display name. */
  datatype SchemaEntry = SchemaEntry(decoder: string, typeName: string)
  type Schema = map<string, SchemaEntry>

  /** The generated row decoders: None when `parse` raises. */
  type RowDecoder = (string, Bytes) -> Option<Value>

  /** The header: the message's hash with its `tables` entry removed. */
  function Header(m: CompactMessage): seq<Field> {
    Delete(m.fields, "tables")
  }

  /** The four entries a row's event gets, assigned in this order onto a copy of the header. */
  function RowEntries(hdr: seq<Field>, path: string, entry: SchemaEntry, row: Value): seq<Field> {
    [Field("end_time", Get(hdr, "end_time")), Field("content", row),
     Field("type", Str(entry.typeName)), Field("path", Str(path))]
  }

  /** The event for one decoded row: a copy of the header plus end_time, content, type and path. */
  function RowEvent(hdr: seq<Field>, path: string, entry: SchemaEntry, row: Value): seq<Field> {
    Update(hdr, RowEntries(hdr, path, entry, row))
  }

  /**
   * A row's event holds the decoded row under "content", the schema's
   * display name under "type", the policy path under "path", the header's
   * end_time (nil when it has none), and otherwise the header's entries.
   */
  lemma RowEventFields(hdr: seq<Field>, path: string, entry: SchemaEntry, row: Value, k: string)
    ensures var ev := RowEvent(hdr, path, entry, row);
      Find(ev, k) == if k == "path" then Some(Str(path))
                     else if k == "type" then Some(Str(entry.typeName))
                     else if k == "content" then Some(row)
                     else if k == "end_time" then Some(Get(hdr, "end_time"))
                     else Find(hdr, k)
  {
    var es := RowEntries(hdr, path, entry, row);
    assert |"end_time"| == 8 && |"content"| == 7 && |"type"| == |"path"| == 4;
    assert UniqueKeys(es);
    UpdateFind(hdr, es, k);
    if k == "end_time" {
      FindFirst(es, 0, k);
    } else if k == "content" {
      FindFirst(es, 1, k);
    } else if k == "type" {
      FindFirst(es, 2, k);
    } else if k == "path" {
      FindFirst(es, 3, k);
    } else {
      FindAbsent(es, k);
      FindKeys(es, k);
    }
  }

  /** The rows decoded in order; the first that fails ends the table. */
  function RowEvents(hdr: seq<Field>, path: string, entry: SchemaEntry, rows: seq<Bytes>,
                     decodeRow: RowDecoder): (evs: seq<Value>)
    ensures |evs| <= |rows|
  {
    if rows == [] then []
    else match decodeRow(entry.decoder, rows[0])
      case None => []
      case Some(row) => [Hash(RowEvent(hdr, path, entry, row))] + RowEvents(hdr, path, entry, rows[1..], decodeRow)
  }

  function TableEvents(hdr: seq<Field>, t: CompactTable, schema: Schema, decodeRow: RowDecoder): seq<Value> {
    if t.policyPath.Some? && t.policyPath.value in schema
    then RowEvents(hdr, t.policyPath.value, schema[t.policyPath.value], t.rows, decodeRow)
    else []
  }

  function TablesEvents(hdr: seq<Field>, ts: seq<CompactTable>, schema: Schema, decodeRow: RowDecoder): seq<Value> {
    if ts == [] then [] else TableEvents(hdr, ts[0], schema, decodeRow) + TablesEvents(hdr, ts[1..], schema, decodeRow)
  }

  /** The events of one decoded message, table after table. */
  function CompactEvents(m: CompactMessage, schema: Schema, decodeRow: RowDecoder): seq<Value> {
    TablesEvents(Header(m), m.tables, schema, decodeRow)
  }

  /**
   * The fan-out as the source runs it: a loop over the tables, and for a
   * table with a schema entry a loop over its rows that a decode failure
   * leaves.
   */
  method FanOut(m: CompactMessage, schema: Schema, decodeRow: RowDecoder) returns (events: seq<Value>)
    ensures events == CompactEvents(m, schema, decodeRow)
  {
    var hdr := Delete(m.fields, "tables");
    events := [];
    var i := 0;
    while i < |m.tables|
      invariant 0 <= i <= |m.tables|
      invariant CompactEvents(m, schema, decodeRow) == events + TablesEvents(hdr, m.tables[i..], schema, decodeRow)
    {
      var here := TableFanOut(hdr, m.tables[i], schema, decodeRow);
      ghost var rest := TablesEvents(hdr, m.tables[i + 1..], schema, decodeRow);
      TablesEventsStep(hdr, m.tables, i, schema, decodeRow);
      AppendAssoc(events, here, rest);
      events := events + here;
      i := i + 1;
    }
    assert m.tables[i..] == [];
    AppendEmpty(events);
  }

  /** One table: its rows' events when its policy path has a schema entry, nothing otherwise. */
  method TableFanOut(hdr: seq<Field>, t: CompactTable, schema: Schema, decodeRow: RowDecoder)
    returns (events: seq<Value>)
    ensures events == TableEvents(hdr, t, schema, decodeRow)
  {
    if t.policyPath.Some? && t.policyPath.value in schema {
      events := RowFanOut(hdr, t.policyPath.value, schema[t.policyPath.value], t.rows, decodeRow);
    } else {
      events := [];
    }
  }

  lemma TablesEventsStep(hdr: seq<Field>, ts: seq<CompactTable>, i: nat, schema: Schema, decodeRow: RowDecoder)
    requires i < |ts|
    ensures TablesEvents(hdr, ts[i..], schema, decodeRow) ==
            TableEvents(hdr, ts[i], schema, decodeRow) + TablesEvents(hdr, ts[i + 1..], schema, decodeRow)
  {
    assert ts[i..][0] == ts[i] && ts[i..][1..] == ts[i + 1..];
  }

  /** The loop over one table's rows, left at the first row that fails to decode. */
  method RowFanOut(hdr: seq<Field>, path: string, entry: SchemaEntry, rows: seq<Bytes>, decodeRow: RowDecoder)
    returns (events: seq<Value>)
    ensures events == RowEvents(hdr, path, entry, rows, decodeRow)
  {
    events := [];
    var j := 0;
    while j < |rows|
      invariant 0 <= j <= |rows|
      invariant RowEvents(hdr, path, entry, rows, decodeRow) == events + RowEvents(hdr, path, entry, rows[j..], decodeRow)
    {
      RowEventsFrom(hdr, path, entry, rows, j, decodeRow);
      var row := decodeRow(entry.decoder, rows[j]);
      if row.None? {
        AppendEmpty(events);
        return;
      }
      var ev := Hash(RowEvent(hdr, path, entry, row.value));
      ghost var rest := RowEvents(hdr, path, entry, rows[j + 1..], decodeRow);
      AppendAssoc(events, [ev], rest);
      events := events + [ev];
      j := j + 1;
    }
    assert rows[j..] == [];
    AppendEmpty(events);
  }

  /** The row events from row j on: none if row j fails to decode, else its event and those after it. */
  lemma RowEventsFrom(hdr: seq<Field>, path: string, entry: SchemaEntry, rows: seq<Bytes>, j: nat, decodeRow: RowDecoder)
    requires j < |rows|
    ensures RowEvents(hdr, path, entry, rows[j..], decodeRow) ==
      match decodeRow(entry.decoder, rows[j])
      case None => []
      case Some(row) => [Hash(RowEvent(hdr, path, entry, row))] + RowEvents(hdr, path, entry, rows[j + 1..], decodeRow)
  {
    assert rows[j..][0] == rows[j] && rows[j..][1..] == rows[j + 1..];
  }

  // ---------------------------------------------------------------------
  // Properties
  // ---------------------------------------------------------------------

  /** The number of leading rows that decode. */
  function DecodedPrefix(entry: SchemaEntry, rows: seq<Bytes>, decodeRow: RowDecoder): (n: nat)
    ensures n <= |rows|
    ensures forall j :: 0 <= j < n ==> decodeRow(entry.decoder, rows[j]).Some?
    ensures n < |rows| ==> decodeRow(entry.decoder, rows[n]).None?
  {
    if rows == [] || decodeRow(entry.decoder, rows[0]).None? then 0
    else 1 + DecodedPrefix(entry, rows[1..], decodeRow)
  }

  /** A table with a schema entry yields exactly one event per row up to the first row that fails to decode. */
  lemma {:induction false} RowEventsLength(hdr: seq<Field>, path: string, entry: SchemaEntry,
                                           rows: seq<Bytes>, decodeRow: RowDecoder)
    ensures |RowEvents(hdr, path, entry, rows, decodeRow)| == DecodedPrefix(entry, rows, decodeRow)
    decreases |rows|
  {
    if rows != [] && decodeRow(entry.decoder, rows[0]).Some? {
      RowEventsLength(hdr, path, entry, rows[1..], decodeRow);
    }
  }

  /** The j-th event of such a table is built from its j-th row. */
  lemma {:induction false} RowEventAt(hdr: seq<Field>, path: string, entry: SchemaEntry,
                                      rows: seq<Bytes>, decodeRow: RowDecoder, j: nat)
    requires j < |RowEvents(hdr, path, entry, rows, decodeRow)|
    ensures decodeRow(entry.decoder, rows[j]).Some?
    ensures RowEvents(hdr, path, entry, rows, decodeRow)[j] ==
            Hash(RowEvent(hdr, path, entry, decodeRow(entry.decoder, rows[j]).value))
    decreases j
  {
    var rest := RowEvents(hdr, path, entry, rows[1..], decodeRow);
    if j > 0 {
      RowEventAt(hdr, path, entry, rows[1..], decodeRow, j - 1);
      assert rows[1..][j - 1] == rows[j];
    }
  }

  /** The events of a message are those of its tables, in table order: a failing table does not stop later ones. */
  lemma {:induction false} TablesEventsAppend(hdr: seq<Field>, a: seq<CompactTable>, b: seq<CompactTable>,
                                              schema: Schema, decodeRow: RowDecoder)
    ensures TablesEvents(hdr, a + b, schema, decodeRow) ==
            TablesEvents(hdr, a, schema, decodeRow) + TablesEvents(hdr, b, schema, decodeRow)
    decreases |a|
  {
    if a == [] {
      assert a + b == b;
    } else {
      assert (a + b)[0] == a[0] && (a + b)[1..] == a[1..] + b;
      TablesEventsAppend(hdr, a[1..], b, schema, decodeRow);
      AppendAssoc(TableEvents(hdr, a[0], schema, decodeRow), TablesEvents(hdr, a[1..], schema, decodeRow),
                  TablesEvents(hdr, b, schema, decodeRow));
    }
  }

  /** A table whose path has no schema entry contributes nothing, wherever it stands. */
  lemma UnknownPathSkipped(hdr: seq<Field>, a: seq<CompactTable>, t: CompactTable, b: seq<CompactTable>,
                           schema: Schema, decodeRow: RowDecoder)
    requires t.policyPath.None? || t.policyPath.value !in schema
    ensures TablesEvents(hdr, a + [t] + b, schema, decodeRow) ==
            TablesEvents(hdr, a, schema, decodeRow) + TablesEvents(hdr, b, schema, decodeRow)
  {
    var ea := TablesEvents(hdr, a, schema, decodeRow);
    var eb := TablesEvents(hdr, b, schema, decodeRow);
    TablesEventsAppend(hdr, a + [t], b, schema, decodeRow);
    TablesEventsAppend(hdr, a, [t], schema, decodeRow);
    assert TablesEvents(hdr, [t], schema, decodeRow) == [] by {
      assert [t][0] == t && [t][1..] == [];
    }
    AppendEmpty(ea);
  }

  /** No compact event carries a `tables` entry: it was deleted from the header. */
  lemma {:induction false} CompactEventsWithoutTables(hdr: seq<Field>, ts: seq<CompactTable>,
                                                      schema: Schema, decodeRow: RowDecoder)
    requires Find(hdr, "tables") == None
    ensures forall e :: e in TablesEvents(hdr, ts, schema, decodeRow) ==> e.Hash? && Find(e.fields, "tables") == None
    decreases |ts|
  {
    if ts != [] {
      CompactEventsWithoutTables(hdr, ts[1..], schema, decodeRow);
      var t := ts[0];
      if t.policyPath.Some? && t.policyPath.value in schema {
        var entry := schema[t.policyPath.value];
        var evs := RowEvents(hdr, t.policyPath.value, entry, t.rows, decodeRow);
        forall j | 0 <= j < |evs|
          ensures evs[j].Hash? && Find(evs[j].fields, "tables") == None
        {
          RowEventAt(hdr, t.policyPath.value, entry, t.rows, decodeRow, j);
          RowEventFields(hdr, t.policyPath.value, entry, decodeRow(entry.decoder, t.rows[j]).value, "tables");
        }
      }
    }
  }
}
