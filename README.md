# Cisco streaming-telemetry codec, modelled in Dafny

This project models the decoding core of the Logstash codec for Cisco
streaming telemetry (`lib/logstash/codecs/telemetry.rb`). The model covers
five parts:

- **The stream decoder.** `decode` is the framing state machine over TCP
  chunks. It reads version 1 headers (`[length][type][inner length]`) and
  version 2 headers (`[type][flags][length]`) as big-endian 32-bit words.
  It cuts payloads and stashes the unconsumed tail for the next call.
  It dispatches each frame on its type: 1 is a decompressor reset, 2 is
  JSON, 3 is compact GPB, 4 is key-value GPB, and any other type raises.
- **The JSON flattening walk.** `ts_codec_extract_path_key_value` turns a
  document's `Data` tree into (path, type, content) triples. It uses the
  filter table that `register` builds from the `xform_flat_keys`
  configuration.
- **The key-value tree merge.** `produce_event_from_gpbkv_stream` and its
  fan-out turn one message into one event per top-level table.
- **The compact fan-out.** It decodes each table's rows with the schema
  entry for its policy path.
- **`telemetry_gpb_camelise`.**

The model has three layers:

- **Specification functions.** `Codec.Decode` and `Codec.Run` describe the
  decoder. `Flatten.WalkPairs` describes the walk. `KvTree.KvEvents` and
  `Compact.CompactEvents` describe the fan-outs.
- **Imperative model.** `decode` is the class `Telemetry.TelemetryCodec`:
  - its fields are the decoder's fields;
  - `@zstream` is an `Inflate.Inflater` that records the chunks fed to it;
  - `@filter_table` is a `FlattenWalk.FilterTable` whose captured-match
    lists are updated in place.

  Each method of the class is proved to compute what the specification
  functions say.
- **Lemmas.** They state what the source promises about those functions.

Foreign work is a parameter of `Codec.Config`:

- decompression (`Engine`, a function of the chunks fed since the last reset);
- `JSON.parse`;
- the two protobuf header parsers and the generated row decoders;
- the regular-expression engine (`Matcher`, giving the named captures of a match).

Where the source differs from a tidy design, the model follows the code:

- **Compressed means exactly 1.** A v2 frame is compressed only when its
  flags word equals 1. The flags are not tested bit by bit (lines 654, 719, 820).
- **The initial wait is four bytes even for a v2 stream.** A first v2
  header with fewer than twelve bytes buffered reads a nil length (and nil
  flags below eight bytes).
  The next loop guard then raises (see Findings).
- **The leaf fallback uses the table it was given.** It tries the entries
  of the current filter table, not the top-level one (line 353).
- **A complete match always wraps the value.** The value is wrapped as
  `{name => subtree, "key" => captures}`, because
  `name_and_filter_hash.empty?` is never true (line 295).
- **A short v1 block.** A v1 block too short to hold its inner length has
  a nil length. `unpack("a#{nil}")` then takes one byte (`Codec.Take`).
- **A v1 block's trailing bytes are ignored.** Bytes after the inner
  length's payload are skipped (line 652).
- **An unknown type loses the rest of the call.** The raise happens after
  the state is back at PENDING_HEADER, and the bytes left in that call are
  dropped.

## Model

| member | source | states |
|---|---|---|
| Telemetry.TelemetryCodec.Register | lib/logstash/codecs/telemetry.rb:495-538 | the codec starts waiting for a 4-byte header with no stash, a fresh inflate stream, and the configured filter table with empty captures |
| Telemetry.TelemetryCodec.ChangeState | lib/logstash/codecs/telemetry.rb:215-223 | sets the codec state and the awaited length, and nothing else |
| Telemetry.TelemetryCodec.ReadHeader | lib/logstash/codecs/telemetry.rb:604-627 | the header branch updates the fields and the buffer as `Codec.HeaderStep` says: a first word above 4 is a v1 length (compressed), otherwise a v2 type with flags and length |
| Telemetry.TelemetryCodec.ReadPayload | lib/logstash/codecs/telemetry.rb:629-641 | cuts exactly the awaited bytes and returns to PENDING_HEADER (12 bytes for v2, 4 for v1, whose type and inner length come from the block), as `Codec.PayloadStep` says |
| Telemetry.TelemetryCodec.InflateIfCompressed | lib/logstash/codecs/telemetry.rb:652-660 | feeds the payload to the inflate stream exactly when the marker is 1, otherwise passes it unchanged |
| Telemetry.TelemetryCodec.DecodeJson | lib/logstash/codecs/telemetry.rb:662-711 | a JSON unit yields what `Codec.JsonUnit` says: the degraded event, the raw document, or one flat event per walked triple |
| Telemetry.TelemetryCodec.DispatchFrame | lib/logstash/codecs/telemetry.rb:643-867 | the `case @type` has the effect of `Codec.Dispatch`; a reset installs a fresh inflate stream |
| Telemetry.TelemetryCodec.Advance | lib/logstash/codecs/telemetry.rb:604-867 | one pass of the loop body either raises as `Codec.Run` does or leaves the rest of the loop to run from a smaller measure |
| Telemetry.TelemetryCodec.Accept | lib/logstash/codecs/telemetry.rb:585-884 | `decode(data)`: the events yielded, the raise if any, and the new state are exactly `Codec.Decode` of the old state and the data |
| Inflate.Inflater.constructor | lib/logstash/codecs/telemetry.rb:503 | a new inflate stream has been fed nothing |
| Inflate.Inflater.Inflate | lib/logstash/codecs/telemetry.rb:655 | a chunk is decompressed in the context of all chunks fed before it and is appended to them |
| Codec.Decode | lib/logstash/codecs/telemetry.rb:585-884 | `decode(data)`: the stash is prepended to `data` and cleared, then the loop runs on the result |
| Codec.Run | lib/logstash/codecs/telemetry.rb:597-882 | the loop: a nil awaited length raises; fewer bytes than awaited are stashed; otherwise a header step, or a payload cut and dispatched, with a raising dispatch ending the call and its events otherwise followed by the rest of the loop's |
| Codec.HeaderStep | lib/logstash/codecs/telemetry.rb:611-627 | a first word above 4 starts a version 1 frame of that length, marked compressed, after 4 bytes; otherwise a version 2 header of that type, its flags as the compressed marker and its length as the awaited count, each word nil when too few bytes are left; under the corrected rule a version 2 header waits for 12 bytes instead |
| Codec.PayloadStep | lib/logstash/codecs/telemetry.rb:629-641 | the awaited bytes cut off; a version 2 payload is all of them and the loop then awaits 12 bytes; a version 1 block yields its inner type and inner length and the loop awaits 4 bytes |
| Codec.Dispatch | lib/logstash/codecs/telemetry.rb:643-867 | by type: a reset empties the inflate history; JSON, compact and kv payloads are inflated when marked and decoded; compact and kv frames yield nothing without a schema or when they fail to parse; any other type raises |
| Codec.JsonUnit | lib/logstash/codecs/telemetry.rb:662-711 | an unparsable unit yields its text under "unparsed_message"; a parsed document is yielded whole under the raw transform or flattened otherwise |
| Codec.FlatDocument | lib/logstash/codecs/telemetry.rb:678-706 | "Data" walked from "DATA" with the whole filter table at depth 0, one flat event per triple, the captures carried in the state; a document without a hash "Data" or a string "Path" raises |
| Codec.FlatEvent | lib/logstash/codecs/telemetry.rb:678-706 | the triple's path, type and content with the document's Identifier, Policy, Version and "End Time", the Collection times and id replacing a nil "End Time" |
| Codec.Initial | lib/logstash/codecs/telemetry.rb:501-506 | the registered state waits for 4 bytes in PENDING_HEADER with no stash and no chunk fed |
| Codec.Take | lib/logstash/codecs/telemetry.rb:652 | `unpack("a#{l}")` gives the first `l` bytes, or all when fewer remain, with nil counting as 1 |
| Codec.FlatEvents | lib/logstash/codecs/telemetry.rb:684-706 | one flat event per triple |
| Codec.DispatchWf | lib/logstash/codecs/telemetry.rb:643-867 | dispatching a frame keeps the state well formed and leaves codec state, awaited length and stash as they were |
| Codec.HeaderStepDecreases | lib/logstash/codecs/telemetry.rb:604-627 | a header step keeps the state well formed and makes progress |
| Codec.PayloadStepDecreases | lib/logstash/codecs/telemetry.rb:629-641 | a payload step returns to PENDING_HEADER, keeps the state well formed and makes progress |
| CodecProps.RunV2Frame | lib/logstash/codecs/telemetry.rb:611-636 | a whole v2 frame (type at most 4) sets type and compressed marker from its header, gives exactly its payload to the dispatch, and the loop goes on waiting for 12 bytes |
| CodecProps.RunV1Frame | lib/logstash/codecs/telemetry.rb:611-641 | a whole v1 frame is compressed, takes its type and inner length from the block, gives only the inner-length bytes to the dispatch (trailing bytes ignored), and the loop then waits for 4 bytes |
| CodecProps.HeaderStepSuffix | lib/logstash/codecs/telemetry.rb:611-623 | a header read consumes a prefix of the buffer |
| CodecProps.RunKeeps | lib/logstash/codecs/telemetry.rb:597-602 | the loop leaves a well-formed state; when it raises the stash is that of the state it started from; otherwise the stash is a tail of the bytes it was given, shorter than the length then awaited |
| CodecProps.DecodeKeeps | lib/logstash/codecs/telemetry.rb:585-884 | after `decode` the state is well formed; a raise leaves the stash empty, so all bytes buffered in that call are lost (line 599 clears it and the raise skips the stash at 872-881); otherwise the stash is a tail of the old stash and the new data, shorter than the length then awaited |
| CodecProps.IncompleteWaits | lib/logstash/codecs/telemetry.rb:597-602 | bytes that do not complete the awaited length are all stashed, nothing is consumed or yielded |
| CodecProps.HeaderStepAppend | lib/logstash/codecs/telemetry.rb:611-627 | with the header rule corrected, a header read does not depend on bytes after the header |
| CodecProps.PayloadStepAppend | lib/logstash/codecs/telemetry.rb:631-641 | a payload cut does not depend on the bytes after the payload |
| CodecProps.WaitThenRead | lib/logstash/codecs/telemetry.rb:602-627 | waiting for 12 bytes instead of 4 changes nothing once a whole v2 header is buffered |
| CodecProps.RunAppend | lib/logstash/codecs/telemetry.rb:585-884 | with the header rule corrected, the loop on a buffer plus more bytes is the loop on the buffer followed by the loop on its stash plus the more bytes |
| CodecProps.RunAppendStop | lib/logstash/codecs/telemetry.rb:597-602 | the same when the loop does not start |
| CodecProps.RunAppendWait | lib/logstash/codecs/telemetry.rb:602-627 | the same when a v2 header is still incomplete |
| CodecProps.RunAppendHeader | lib/logstash/codecs/telemetry.rb:604-627 | the same after a complete header |
| CodecProps.RunAppendPayload | lib/logstash/codecs/telemetry.rb:629-867 | the same after a payload and its dispatch |
| CodecProps.ChunkBoundaryInvariance | lib/logstash/codecs/telemetry.rb:585-884 | with the header rule corrected, one call on `a + b` equals a call on `a` then a call on `b`: same events in order, same state, and a raise in the first call is the raise of the whole |
| CodecProps.NeverNilUnderWait | lib/logstash/codecs/telemetry.rb:602-627 | with the header rule corrected the awaited length is never nil, so the loop guard never raises |
| CodecProps.SplitHeaderCounterexample | lib/logstash/codecs/telemetry.rb:502-627 | as written, a 12-byte v2 reset header decodes, but its first 4 bytes alone raise on a nil length; the corrected rule decodes them |
| CodecProps.WholeResetHeaderDone | lib/logstash/codecs/telemetry.rb:602-649 | the 12-byte v2 reset header handed down in one call decodes without a raise, under either rule |
| CodecProps.CutResetHeaderRaises | lib/logstash/codecs/telemetry.rb:602-627 | as written, its first 4 bytes alone leave the awaited length nil and the call raises |
| CodecProps.CutResetHeaderWaits | lib/logstash/codecs/telemetry.rb:602-627 | under the corrected rule, its first 4 bytes alone are stashed while the loop waits for 12 |
| CodecProps.UnknownV2TypeRaises | lib/logstash/codecs/telemetry.rb:862-866 | a v2 frame of type 0 raises with no event once its payload is in, the state back at PENDING_HEADER and the rest of the bytes dropped |
| CodecProps.RunResetFrame | lib/logstash/codecs/telemetry.rb:645-649 | after a v2 reset frame the loop goes on with an empty inflate stream |
| CodecProps.ResetThenCompressed | lib/logstash/codecs/telemetry.rb:645-665 | after a reset, a compressed JSON payload is inflated by a stream fed that payload alone |
| CodecProps.ResetRestartsInflate | lib/logstash/codecs/telemetry.rb:645-649 | a reset yields nothing, ignores its payload and empties the inflate history |
| CodecProps.UnknownTypeRaises | lib/logstash/codecs/telemetry.rb:862-866 | any type but 1 to 4 raises with no event and the state untouched |
| CodecProps.InflateOnlyWhenMarked | lib/logstash/codecs/telemetry.rb:652-660 | a JSON payload goes through the inflate stream exactly when the marker is 1 |
| CodecProps.EmptySchemaDropsGpb | lib/logstash/codecs/telemetry.rb:715-717 | with no schema loaded, compact and kv frames yield nothing and reach no decompressor |
| CodecProps.RawJsonOneEvent | lib/logstash/codecs/telemetry.rb:664-677 | raw JSON yields exactly one event: the document, or the text under "unparsed_message" when it does not parse |
| CodecProps.FlatJsonEvents | lib/logstash/codecs/telemetry.rb:678-706 | flat JSON yields one event per triple of the walk of "Data" from the whole table at depth 0, in walk order |
| CodecProps.FlatEventEnvelope | lib/logstash/codecs/telemetry.rb:687-693 | a flat event holds the triple's path, type and content and the document's Identifier, Policy and Version |
| CodecProps.FlatEventCollectionTimes | lib/logstash/codecs/telemetry.rb:695-701 | when "End Time" is nil, end_time, start_time and collection_id come from the Collection fields |
| CodecProps.FlatEventOwnEndTime | lib/logstash/codecs/telemetry.rb:693-701 | otherwise end_time is "End Time" and there is no start_time or collection_id |
| Flatten.WalkPairs | lib/logstash/codecs/telemetry.rb:226-402 | the triples of a hash's keys in order, each key walked with the captures the previous one left |
| Flatten.WalkKey | lib/logstash/codecs/telemetry.rb:232-400 | one key: the match phase's cut triple, else a descent into a nested hash with the kept table at the next depth, else the leaf's triple |
| Flatten.LeafTriple | lib/logstash/codecs/telemetry.rb:343-399 | a leaf is labelled by the first entry of the table matching the Path's segments, with the Path's dots replaced by the delimiter, else by the raw Path and its own key |
| Flatten.AtomRegexes | lib/logstash/codecs/telemetry.rb:526-529 | the i-th pattern of an entry is `^atom$` of the i-th atom |
| Flatten.MatchPhase | lib/logstash/codecs/telemetry.rb:250-326 | the match phase keeps one captured list per entry and carries only entries of the current table |
| Flatten.FirstPathMatch | lib/logstash/codecs/telemetry.rb:353-397 | the leaf fallback picks the first entry of the current table whose patterns match the path segments one for one |
| FlattenProps.FirstPathMatchAt | lib/logstash/codecs/telemetry.rb:353-397 | a candidate that matches the path, with no earlier candidate matching, is the one the fallback picks |
| FlattenWalk.FilterTableFor | lib/logstash/codecs/telemetry.rb:522-535 | one entry per configured key in configuration order, its filter the key's filter string split on the delimiter |
| FlattenWalk.BuildFilterTable | lib/logstash/codecs/telemetry.rb:520-538 | the build succeeds exactly when every pattern compiles, and then yields that table |
| FlattenWalk.CompileAtoms | lib/logstash/codecs/telemetry.rb:526-529 | the atoms compile to their `^atom$` patterns, or the build fails exactly when one does not compile |
| FlattenWalk.FilterTable.constructor | lib/logstash/codecs/telemetry.rb:531-534 | every entry starts with an empty captured list |
| FlattenWalk.FilterTable.MatchKey | lib/logstash/codecs/telemetry.rb:250-330 | the loop over the current table for one key computes `Flatten.MatchPhase`, captures included |
| FlattenWalk.FilterTable.LeafFallback | lib/logstash/codecs/telemetry.rb:343-399 | the leaf's triple is `Flatten.LeafTriple` |
| FlattenWalk.FilterTable.MatchSegments | lib/logstash/codecs/telemetry.rb:355-389 | the inner loop succeeds exactly when the entry's patterns match every segment, one pattern per segment |
| FlattenWalk.FilterTable.Extract | lib/logstash/codecs/telemetry.rb:226-402 | the triples of a hash, in key order, and the new captures, as `Flatten.WalkPairs` says |
| FlattenWalk.FilterTable.ExtractKey | lib/logstash/codecs/telemetry.rb:232-400 | one key: the cut triple, the nested hash's triples, or the leaf's triple, as `Flatten.WalkKey` says |
| FlattenProps.MatchPhaseCutNeedsComplete | lib/logstash/codecs/telemetry.rb:288-311 | a key is cut only if some entry matches it at the last level |
| FlattenProps.MatchPhaseCutWhenComplete | lib/logstash/codecs/telemetry.rb:288-311 | a key is cut whenever some entry matches it at the last level |
| FlattenProps.MatchPhaseCutByFirstComplete | lib/logstash/codecs/telemetry.rb:288-311 | the cut uses the first complete entry: path plus delimiter plus key, its name, and `{name => subtree, "key" => captures}` |
| FlattenProps.MatchPhaseKept | lib/logstash/codecs/telemetry.rb:313-320 | without a cut, exactly the prefix-matching entries are kept for the next depth, in table order |
| FlattenProps.MatchPhaseCaptures | lib/logstash/codecs/telemetry.rb:262-309 | a match at depth 0 resets an entry's captures before appending the new named captures; entries outside the table keep theirs; up to the first complete entry, matching entries are recaptured and the others keep theirs, and entries after it, which the loop leaves at `break`, keep theirs |
| FlattenProps.MatchPhaseFrame | lib/logstash/codecs/telemetry.rb:262-285 | the match loop changes the captures of table entries only |
| FlattenProps.MatchPhaseRecaptures | lib/logstash/codecs/telemetry.rb:262-285 | when no entry completes, each table entry's captures are recomputed if it matched the key and kept otherwise |
| FlattenProps.MatchPhaseCutRecaptures | lib/logstash/codecs/telemetry.rb:262-309 | with or without a cut: each entry not preceded by a complete one is recaptured when it matched and kept otherwise; entries after the first complete one keep their captures |
| FlattenProps.KeptDistinct | lib/logstash/codecs/telemetry.rb:319 | the kept entries are distinct when the table's are |
| FlattenProps.WalkPairsFrame | lib/logstash/codecs/telemetry.rb:226-402 | the walk never changes the captures of entries outside its table |
| FlattenProps.WalkKeyFrame | lib/logstash/codecs/telemetry.rb:232-400 | the same for one key |
| FlattenProps.LeafLabel | lib/logstash/codecs/telemetry.rb:343-399 | a leaf keeps its value; it is labelled by the first entry matching the path, with dots replaced by the delimiter, or by raw Path and key when none matches |
| FlattenProps.AutoMatchesAtom | lib/logstash/codecs/telemetry.rb:369 | a pattern counts as matched without evaluation exactly when its atom contains ".*" or the letter d |
| FlattenProps.WalkWithoutFilters | lib/logstash/codecs/telemetry.rb:332-399 | with an empty table every leaf is yielded with raw Path and its own key, captures unchanged |
| FlattenProps.NestedCutExample | lib/logstash/codecs/telemetry.rb:250-311 | a two-level filter cuts `{"a" => {"b" => 5}}` at "DATA~a~b" with the wrapped content |
| KvTree.NodeHash | lib/logstash/codecs/telemetry.rb:444-490 | one table's hash: "timest" (its own, else inherited), its scalar under its name, and "content" holding its children merged when it has any |
| KvTree.MergeChildren | lib/logstash/codecs/telemetry.rb:478-486 | the children's hashes folded in order into one hash with `update`, later keys overwriting earlier ones |
| KvTree.KvEvents | lib/logstash/codecs/telemetry.rb:833-850 | one event per top-level table |
| KvTree.FanOut | lib/logstash/codecs/telemetry.rb:833-850 | the push loop and the update loop compute `KvTree.KvEvents` |
| KvTree.NodeHashUnique | lib/logstash/codecs/telemetry.rb:444-490 | a node's hash has no repeated key |
| KvTree.NodeTimest | lib/logstash/codecs/telemetry.rb:448-452 | a node's timest is its own timestamp, else the inherited one |
| KvTree.NodeScalar | lib/logstash/codecs/telemetry.rb:464-474 | a node's scalar, bytes stringified, is stored under its name |
| KvTree.NodeContent | lib/logstash/codecs/telemetry.rb:476-483 | "content" exists exactly when the node has children, and holds them merged with the node's timest inherited |
| KvTree.NodeDefines | lib/logstash/codecs/telemetry.rb:444-490 | a node's hash has a key exactly when it is timest, its name (with a scalar) or content (with children) |
| KvTree.MergeChildrenUndefined | lib/logstash/codecs/telemetry.rb:478-486 | a key no child's hash defines keeps the accumulator's entry |
| KvTree.MergeChildrenLast | lib/logstash/codecs/telemetry.rb:478-486 | merged children: a key takes the value of the last sibling defining it |
| KvTree.KvHeaderWins | lib/logstash/codecs/telemetry.rb:847-848 | every event carries the header's entries, the header winning on clashes |
| KvTree.KvEventNode | lib/logstash/codecs/telemetry.rb:844-848 | outside the header's keys, an event is its top-level table's hash, inheriting the msg_timestamp |
| KvTree.KvEventsWithoutTables | lib/logstash/codecs/telemetry.rb:835 | no event carries the header's tables entry |
| Compact.CompactEvents | lib/logstash/codecs/telemetry.rb:729-808 | the events of a message: the header without "tables", then each table's events in order |
| Compact.TablesEvents | lib/logstash/codecs/telemetry.rb:752-801 | the tables' events concatenated in table order |
| Compact.TableEvents | lib/logstash/codecs/telemetry.rb:752-801 | a table whose policy path is in the schema yields its decoded rows' events; any other table yields none |
| Compact.RowEvent | lib/logstash/codecs/telemetry.rb:776-787 | one row's event: the header updated with end_time, content, type and path |
| Compact.RowEventFields | lib/logstash/codecs/telemetry.rb:776-780 | a row event is the header plus end_time, the decoded row under content, the display name under type and the policy path under path |
| Compact.RowEvents | lib/logstash/codecs/telemetry.rb:752-781 | at most one event per row |
| Compact.DecodedPrefix | lib/logstash/codecs/telemetry.rb:752-787 | the rows before the first decode failure all decode, and that row does not |
| Compact.FanOut | lib/logstash/codecs/telemetry.rb:729-808 | the loops over tables and rows compute `Compact.CompactEvents` |
| Compact.TableFanOut | lib/logstash/codecs/telemetry.rb:746-799 | one table computes `Compact.TableEvents` |
| Compact.RowFanOut | lib/logstash/codecs/telemetry.rb:752-787 | the row loop, left at the first failure, computes `Compact.RowEvents` |
| Compact.RowEventsLength | lib/logstash/codecs/telemetry.rb:752-787 | a known table yields exactly one event per row up to the first failing row |
| Compact.RowEventAt | lib/logstash/codecs/telemetry.rb:752-787 | the j-th event comes from the j-th row, and that row decoded |
| Compact.TablesEventsAppend | lib/logstash/codecs/telemetry.rb:734-801 | a message's events are its tables' events in table order; a failing table does not stop later ones |
| Compact.UnknownPathSkipped | lib/logstash/codecs/telemetry.rb:746-799 | a table whose policy path has no schema entry contributes nothing |
| Compact.CompactEventsWithoutTables | lib/logstash/codecs/telemetry.rb:733 | no compact event carries a tables entry |
| Camelise.Camelise | lib/logstash/codecs/telemetry.rb:84-86 | the name split on "_", empty trailing segments dropped, each segment capitalised, the segments joined |
| Camelise.Capitalize | lib/logstash/codecs/telemetry.rb:84-86 | the first letter upper-cased and the rest lower-cased, same length (ASCII letters only) |
| Camelise.ConcatSplitFrom | lib/logstash/codecs/telemetry.rb:84-86 | splitting on a character and joining the segments gives the input with that character deleted |
| Camelise.CameliseHasNoUnderscore | lib/logstash/codecs/telemetry.rb:84-86 | the camelised name has no underscore |
| Camelise.CameliseLength | lib/logstash/codecs/telemetry.rb:84-86 | its length is the input's less its underscores |
| Camelise.CameliseOnlyRecases | lib/logstash/codecs/telemetry.rb:84-86 | ignoring case it is the input without underscores |
| Camelise.CameliseSingleSegment | lib/logstash/codecs/telemetry.rb:84-86 | a name without underscore is capitalised |
| Camelise.CameliseRootOper | lib/logstash/codecs/telemetry.rb:112-116 | "RootOper" becomes "Rootoper": capitalize lowers the rest |
| Wire.ReadU32 | lib/logstash/codecs/telemetry.rb:611 | `unpack('N')`: the first four bytes as a big-endian unsigned 32-bit word |
| Wire.ReadWriteU32 | lib/logstash/codecs/telemetry.rb:611 | a big-endian word read back is the number written |
| Wire.ReadU32Prefix | lib/logstash/codecs/telemetry.rb:611 | `unpack('N')` reads only the first four bytes |
| Values.Put | lib/logstash/codecs/telemetry.rb:472 | `h[k] = v`: k now holds v, every other key is unchanged |
| Values.Delete | lib/logstash/codecs/telemetry.rb:733 | `h.delete(k)`: k is gone, every other key is unchanged |
| Values.UpdateFind | lib/logstash/codecs/telemetry.rb:486 | `h.update(o)`: o's keys take o's values, the others keep h's |
| Values.SplitFromLength | lib/logstash/codecs/telemetry.rb:85 | the segments' total length is the input's less its separators |

## Left out

- Decompression, `JSON.parse`, the protobuf parsers and the generated row decoders are foreign. They are parameters of `Codec.Config`. A parse or decode failure is `None`.
- Decompression errors are not modelled. The engine is total, so `Zlib` raising inside `decode` is not captured.
- The regular-expression engine is a parameter. Only the pattern-text shortcut (".*" or "d" in `to_s`) is concrete.
- Schema loading (`telemetry_gpb_extract_cisco_extensions_from_proto`, the `Dir.glob`/`load`/`const_get` reflection) is file I/O. The schema map is an input.
- Logging, `Thread.current`, `LogStash::Event` construction, the block-based event sink and the no-op `encode` carry no logic. Events are values in a sequence.
- The `JSON.parse(ev.to_json)` round trip is taken as the identity. Symbol and string keys are one key space, which can differ only when a kv node is itself named "timest" or "content".
- `kv` floating-point values are opaque (`Float(bits)`).
- Codec.JsonUnit: after a JSON parse failure the source yields the `unparsed_message` event and then falls through into the xform branch with a nil document. Under the raw transform it yields a second event, `LogStash::Event.new(nil)` (line 676). Under the flat transform, the default (line 168), `parsed_unit["Path"]` at line 682 calls `nil["Path"]` and raises, so the rest of the call's bytes are lost, as with an unknown type. The model yields only the `unparsed_message` event and goes on to the next frame.
- Codec.FlatDocument: raises `MalformedDocument` before any event when the document's root or "Data" is not a hash, or its "Path" is not a string. The source behaves otherwise in several of these cases:
  - A "Data" that is an Array is walked by `data.each do |branch,v|` (line 230) without raising. `"Data": []` yields nothing and `decode` goes on to the next frame. A String element becomes `branch` with `v` nil and is yielded as a leaf. A `[key, value]` element is taken apart like a hash pair.
  - A "Path" is split only inside `filter_table.each` (line 355). Under an empty filter table (the default `xform_flat_keys`) a missing or non-string "Path" is therefore never split, and every leaf is yielded with that nil or non-string value as its path (line 399).
  - Other offending lookups raise in the source only when they are reached, possibly after earlier triples' events were yielded.
  The model raises with no event in all these cases and ends the call, dropping its remaining bytes. It models neither Array data nor a non-string path.
- Values.Split: an empty delimiter and Ruby's awk-style split on " " are not modelled. The flat delimiter must be non-empty. `Values.ReplaceChar` inserts the delimiter literally, whereas `gsub` at line 393 interprets backslash sequences (`\0`, `\&`, `\\`) in the replacement string, so a delimiter containing a backslash is not modelled.
- Camelise.Capitalize: maps ASCII letters only. Ruby's `String#capitalize` (line 85) maps Unicode case ("é" to "É", "ß" to "Ss", which changes the length `Camelise.CameliseLength` states). Both callers (lines 110-117 and 125-127) pass `\w` captures, which Ruby limits to ASCII, so no reachable input differs.
- Telemetry.TelemetryCodec.Register: the rescue that turns a failing `Regexp.new` into a configuration error is `FlattenWalk.BuildFilterTable`'s `None`. The constructor takes the table's entries as already built.
- The `rescue Exception` blocks of the compact and kv branches also catch exceptions raised by the event consumer inside `yield`. The model has no consumer, so only parse and row-decode failures are modelled.

## Findings

| source | as written | input that shows it | evidently intended | confidence | as-written member | corrected member |
|---|---|---|---|---|---|---|
| lib/logstash/codecs/telemetry.rb:502-627 | the first header of a connection is read once 4 bytes are buffered; a v2 header read from fewer than 12 bytes gets a nil length (and nil flags below 8 bytes), and the loop guard at line 602 then raises, so the connection's result depends on where TCP cuts the stream | the v2 reset header `00 00 00 01 00 00 00 00 00 00 00 00` decodes in one call, but its first 4 bytes handed down alone raise | a v2 header is read only when all 12 bytes are buffered, so decoding is independent of chunk boundaries | not executed | CodecProps.SplitHeaderCounterexample | CodecProps.ChunkBoundaryInvariance |

The header rule is a field of `Codec.Config`. `AsWritten` is the source's
rule. `WaitFullV2Header` is the corrected one: it awaits 12 bytes when the
first word announces v2. `Codec.HeaderStep` and the class implement both
rules. `CodecProps.ChunkBoundaryInvariance` and
`CodecProps.NeverNilUnderWait` are proved for the corrected rule.
