/**
 * The flattening of a JSON document's "Data" tree into (path, type, content)
 * triples (`ts_codec_extract_path_key_value`), as functions over values.
 *
 * A filter entry is a configured name with one regular expression per depth
 * of the tree. The regular-expression engine is foreign: `matches` says
 * whether a pattern matches a key and, if so, which named groups it
 * captured. The entries' captured-match lists, which the source mutates in
 * place on entries shared between levels, are threaded through as
 * `captured`, indexed like the filter table.
 */
module Flatten {
  import opened Wrappers
  import opened Values

  /** A compiled pattern; `source` is its text. */
  datatype Regex = Regex(source: string)
  /** A named group and what it captured (nil when it took no part). */
  datatype Capture = Capture(name: string, value: Option<string>)
  type Matcher = (Regex, string) -> Option<seq<Capture>>

  datatype FilterEntry = FilterEntry(name: string, filter: seq<Regex>)

  /** What the walk yields: path, type and content of one event. */
  datatype Triple = Triple(path: string, typ: string, content: Value)

  /** The fixed context of a walk: the filter table, the delimiter and the engine. */
  datatype Walker = Walker(entries: seq<FilterEntry>, delimiter: string, matches: Matcher)

  /** Per filter entry, the captures collected so far. */
  type Captured = seq<seq<Capture>>

  datatype MatchResult = MatchResult(yielded: Option<Triple>, kept: seq<nat>, captured: Captured)
  datatype WalkResult = WalkResult(triples: seq<Triple>, captured: Captured)

  // ---------------------------------------------------------------------
  // The filter table built by `register`
  // ---------------------------------------------------------------------

  /** `Regexp.new("^" + atom + "$")` */
  function AtomRegex(atom: string): Regex {
    Regex("^" + atom + "$")
  }

  function AtomRegexes(atoms: seq<string>): (rs: seq<Regex>)
    ensures |rs| == |atoms|
    ensures forall i :: 0 <= i < |atoms| ==> rs[i] == AtomRegex(atoms[i])
  {
    if atoms == [] then [] else [AtomRegex(atoms[0])] + AtomRegexes(atoms[1..])
  }

  /** The entry for one configured key: its filter string split on the delimiter. */
  function EntryFor(name: string, keyFilter: string, delimiter: string): FilterEntry
    requires |delimiter| > 0
  {
    FilterEntry(name, AtomRegexes(Split(keyFilter, delimiter)))
  }

  /** Each configured (name, filter string) pair in configuration order. */
  datatype FlatKey = FlatKey(name: string, keyFilter: string)

  /** Every pattern of the entry compiles as a regular expression. */
  predicate EntryCompiles(e: FilterEntry, compiles: string -> bool) {
    forall j :: 0 <= j < |e.filter| ==> compiles(e.filter[j].source)
  }

  /** Every atom of every configured filter compiles as a regular expression. */
  predicate AllCompile(keys: seq<FlatKey>, delimiter: string, compiles: string -> bool)
    requires |delimiter| > 0
  {
    forall i :: 0 <= i < |keys| ==> EntryCompiles(EntryFor(keys[i].name, keys[i].keyFilter, delimiter), compiles)
  }

  // ---------------------------------------------------------------------
  // Match phase: the filter entries tried against one key
  // ---------------------------------------------------------------------

  predicate ValidCands(w: Walker, cands: seq<nat>) {
    forall i :: 0 <= i < |cands| ==> cands[i] < |w.entries|
  }

  /** Entry `e` has a pattern at this depth and it matches `key`. */
  predicate MatchesAt(w: Walker, e: nat, depth: nat, key: string)
    requires e < |w.entries|
  {
    depth < |w.entries[e].filter| && w.matches(w.entries[e].filter[depth], key).Some?
  }

  /** A complete match: entry `e` matches here and has no pattern for the next depth. */
  predicate Completes(w: Walker, e: nat, depth: nat, key: string)
    requires e < |w.entries|
  {
    MatchesAt(w, e, depth, key) && |w.entries[e].filter| == depth + 1
  }

  /** A prefix match: entry `e` matches here and has more levels. */
  predicate Continues(w: Walker, e: nat, depth: nat, key: string)
    requires e < |w.entries|
  {
    MatchesAt(w, e, depth, key) && |w.entries[e].filter| > depth + 1
  }

  function CaptureValue(c: Capture): Value {
    match c.value
    case Some(s) => Str(s)
    case None => Null
  }

  function CaptureFields(caps: seq<Capture>): (fs: seq<Field>)
    ensures |fs| == |caps|
    ensures forall i :: 0 <= i < |caps| ==> fs[i] == Field(caps[i].name, CaptureValue(caps[i]))
  {
    if caps == [] then [] else [Field(caps[0].name, CaptureValue(caps[0]))] + CaptureFields(caps[1..])
  }

  /** `{name => v, "key" => Hash[captures]}` */
  function Wrap(name: string, v: Value, caps: seq<Capture>): Value {
    Hash(Put(Put([], name, v), "key", Hash(FromPairs(CaptureFields(caps)))))
  }

  /** The captures of an entry once it matched a key at `depth`. */
  function Recapture(before: seq<Capture>, depth: nat, names: seq<Capture>): seq<Capture> {
    (if depth == 0 then [] else before) + names
  }

  /**
   * The loop over the current filter table for one key: entries are tried
   * in order; the first complete match yields and ends the loop; prefix
   * matches are kept for the next depth.
   */
  function MatchPhase(w: Walker, pathAndBranch: string, key: string, v: Value,
                      cands: seq<nat>, depth: nat, captured: Captured): (r: MatchResult)
    requires ValidCands(w, cands) && |captured| == |w.entries|
    ensures |r.captured| == |captured|
    ensures forall i :: 0 <= i < |r.kept| ==> r.kept[i] in cands
    decreases |cands|
  {
    if cands == [] then MatchResult(None, [], captured)
    else
      var e := cands[0];
      var entry := w.entries[e];
      if MatchesAt(w, e, depth, key) then
        var caps := Recapture(captured[e], depth, w.matches(entry.filter[depth], key).value);
        var captured' := captured[e := caps];
        if depth + 1 >= |entry.filter| then
          MatchResult(Some(Triple(pathAndBranch, entry.name, Wrap(entry.name, v, caps))), [], captured')
        else
          var r := MatchPhase(w, pathAndBranch, key, v, cands[1..], depth, captured');
          MatchResult(r.yielded, [e] + r.kept, r.captured)
      else
        MatchPhase(w, pathAndBranch, key, v, cands[1..], depth, captured)
  }

  // ---------------------------------------------------------------------
  // Leaf fallback: the raw Path matched against the entries' patterns
  // ---------------------------------------------------------------------

  /** `Regexp#to_s` of a pattern built without options. */
  function RegexText(r: Regex): string {
    "(?-mix:" + r.source + ")"
  }

  predicate ContainsPair(s: string, a: char, b: char) {
    exists i :: 0 <= i < |s| - 1 && s[i] == a && s[i + 1] == b
  }

  /**
   * The shortcut of the leaf fallback: a pattern whose text contains ".*",
   * or the Ruby literal "\d", which is the one-character string "d", counts
   * as a match without being run.
   */
  predicate AutoMatches(r: Regex) {
    ContainsPair(RegexText(r), '.', '*') || 'd' in RegexText(r)
  }

  predicate SegmentMatches(w: Walker, r: Regex, segment: string) {
    AutoMatches(r) || w.matches(r, segment).Some?
  }

  /** The entry's patterns match the path segments position by position, with as many levels as segments. */
  predicate PathMatches(w: Walker, e: nat, segs: seq<string>)
    requires e < |w.entries|
  {
    var f := w.entries[e].filter;
    |segs| > 0 && |f| == |segs| && forall i :: 0 <= i < |segs| ==> SegmentMatches(w, f[i], segs[i])
  }

  /** The first entry of the current table whose patterns match the path. */
  function FirstPathMatch(w: Walker, cands: seq<nat>, segs: seq<string>): (r: Option<nat>)
    requires ValidCands(w, cands)
    ensures r.None? <==> forall i :: 0 <= i < |cands| ==> !PathMatches(w, cands[i], segs)
    ensures r.Some? ==> exists i :: 0 <= i < |cands| && cands[i] == r.value && PathMatches(w, cands[i], segs) &&
                          forall j :: 0 <= j < i ==> !PathMatches(w, cands[j], segs)
    decreases |cands|
  {
    if cands == [] then None
    else if PathMatches(w, cands[0], segs) then Some(cands[0])
    else
      var r := FirstPathMatch(w, cands[1..], segs);
      assert forall i :: 1 <= i < |cands| ==> cands[i] == cands[1..][i - 1];
      r
  }

  /** The triple yielded for a leaf that no complete match claimed. */
  function LeafTriple(w: Walker, pathRaw: string, key: string, v: Value, cands: seq<nat>): Triple
    requires ValidCands(w, cands)
  {
    match FirstPathMatch(w, cands, Split(pathRaw, "."))
    case Some(e) => Triple(ReplaceChar(pathRaw, '.', w.delimiter), w.entries[e].name, v)
    case None => Triple(pathRaw, key, v)
  }

  // ---------------------------------------------------------------------
  // The depth-first walk
  // ---------------------------------------------------------------------

  predicate WalkPre(w: Walker, cands: seq<nat>, captured: Captured) {
    ValidCands(w, cands) && |captured| == |w.entries|
  }

  /** The walk over the entries of one Hash, in order. */
  function WalkPairs(w: Walker, pathRaw: string, path: string, data: seq<Field>,
                     cands: seq<nat>, depth: nat, captured: Captured): (r: WalkResult)
    requires WalkPre(w, cands, captured)
    ensures |r.captured| == |captured|
    decreases data
  {
    if data == [] then WalkResult([], captured)
    else
      var first := WalkKey(w, pathRaw, path, data[0], cands, depth, captured);
      var rest := WalkPairs(w, pathRaw, path, data[1..], cands, depth, first.captured);
      WalkResult(first.triples + rest.triples, rest.captured)
  }

  /** One key of a Hash: a complete match, a descent into a nested Hash, or a leaf. */
  function WalkKey(w: Walker, pathRaw: string, path: string, f: Field,
                   cands: seq<nat>, depth: nat, captured: Captured): (r: WalkResult)
    requires WalkPre(w, cands, captured)
    ensures |r.captured| == |captured|
    decreases f
  {
    var pathAndBranch := path + w.delimiter + f.key;
    var m := MatchPhase(w, pathAndBranch, f.key, f.val, cands, depth, captured);
    if m.yielded.Some? then WalkResult([m.yielded.value], m.captured)
    else if f.val.Hash? then WalkPairs(w, pathRaw, pathAndBranch, f.val.fields, m.kept, depth + 1, m.captured)
    else WalkResult([LeafTriple(w, pathRaw, f.key, f.val, cands)], m.captured)
  }

  /** The indices of the whole filter table, the candidates at depth 0. */
  function AllEntries(n: nat): (cands: seq<nat>)
    ensures |cands| == n && forall i :: 0 <= i < n ==> cands[i] == i
  {
    seq(n, i => i)
  }
}
