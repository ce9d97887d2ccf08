/**
 * The flattening walk as the source runs it: an object holding the filter
 * table whose entries' captured-match lists are updated in place while the
 * walk goes down the tree, a loop over the entries for each key, the leaf
 * fallback's nested loops with their `found` flag, and recursion into
 * nested hashes. Each method is proved to compute what the functions of
 * module Flatten say.
 */
module FlattenWalk {
  import opened Wrappers
  import opened Values
  import opened Flatten

  /** `Regexp.new` of every atom, in order; None when one fails to compile. */
  function FilterTableFor(keys: seq<FlatKey>, delimiter: string): (t: seq<FilterEntry>)
    requires |delimiter| > 0
    ensures |t| == |keys|
    ensures forall i :: 0 <= i < |keys| ==> t[i] == EntryFor(keys[i].name, keys[i].keyFilter, delimiter)
  {
    seq(|keys|, i requires 0 <= i < |keys| => EntryFor(keys[i].name, keys[i].keyFilter, delimiter))
  }

  /**
   * The filter-table build of `register`: one entry per configured key, in
   * configuration order, its filter the `^atom$` patterns of the key's
   * filter string split on the delimiter. A pattern that fails to compile
   * aborts the build (a configuration error).
   */
  method BuildFilterTable(keys: seq<FlatKey>, delimiter: string, compiles: string -> bool)
    returns (table: Option<seq<FilterEntry>>)
    requires |delimiter| > 0
    ensures table.Some? <==> AllCompile(keys, delimiter, compiles)
    ensures table.Some? ==> table.value == FilterTableFor(keys, delimiter)
  {
    var entries: seq<FilterEntry> := [];
    while |entries| < |keys|
      invariant BuiltPrefix(keys, delimiter, compiles, entries)
      decreases |keys| - |entries|
    {
      var key := keys[|entries|];
      var regexes := CompileAtoms(Split(key.keyFilter, delimiter), compiles);
      if regexes.None? {
        assert !EntryCompiles(EntryFor(key.name, key.keyFilter, delimiter), compiles);
        return None;
      }
      BuiltPrefixExtend(keys, delimiter, compiles, entries, FilterEntry(key.name, regexes.value));
      entries := entries + [FilterEntry(key.name, regexes.value)];
    }
    assert entries == FilterTableFor(keys, delimiter);
    table := Some(entries);
  }

  /** The entries built so far: those of the first keys, each of which compiled. */
  ghost predicate BuiltPrefix(keys: seq<FlatKey>, delimiter: string, compiles: string -> bool, entries: seq<FilterEntry>)
    requires |delimiter| > 0
  {
    |entries| <= |keys| &&
    forall k :: 0 <= k < |entries| ==>
      entries[k] == EntryFor(keys[k].name, keys[k].keyFilter, delimiter) && EntryCompiles(entries[k], compiles)
  }

  lemma BuiltPrefixExtend(keys: seq<FlatKey>, delimiter: string, compiles: string -> bool,
                          entries: seq<FilterEntry>, e: FilterEntry)
    requires |delimiter| > 0 && BuiltPrefix(keys, delimiter, compiles, entries) && |entries| < |keys|
    requires e == EntryFor(keys[|entries|].name, keys[|entries|].keyFilter, delimiter) && EntryCompiles(e, compiles)
    ensures BuiltPrefix(keys, delimiter, compiles, entries + [e])
  {
  }

  /** `atoms.map { |atom| Regexp.new("^" + atom + "$") }`, None when a pattern fails to compile. */
  method CompileAtoms(atoms: seq<string>, compiles: string -> bool) returns (regexes: Option<seq<Regex>>)
    ensures regexes.Some? <==> forall j :: 0 <= j < |atoms| ==> compiles(AtomRegex(atoms[j]).source)
    ensures regexes.Some? ==> regexes.value == AtomRegexes(atoms)
  {
    var rs: seq<Regex> := [];
    var j := 0;
    while j < |atoms|
      invariant 0 <= j <= |atoms|
      invariant rs == AtomRegexes(atoms[..j])
      invariant forall k :: 0 <= k < j ==> compiles(AtomRegex(atoms[k]).source)
    {
      var r := AtomRegex(atoms[j]);
      if !compiles(r.source) {
        return None;
      }
      rs := rs + [r];
      j := j + 1;
    }
    assert atoms[..j] == atoms;
    regexes := Some(rs);
  }

  /** One pass of the match loop: the entry at `i` and the candidates after it. */
  lemma MatchPhaseAt(w: Walker, pathAndBranch: string, key: string, v: Value,
                     cands: seq<nat>, i: nat, depth: nat, captured: Captured)
    requires ValidCands(w, cands) && i < |cands| && |captured| == |w.entries|
    ensures ValidCands(w, cands[i + 1..])
    ensures var e := cands[i];
      var r := MatchPhase(w, pathAndBranch, key, v, cands[i..], depth, captured);
      if MatchesAt(w, e, depth, key) then
        var caps := Recapture(captured[e], depth, w.matches(w.entries[e].filter[depth], key).value);
        if depth + 1 >= |w.entries[e].filter| then
          r == MatchResult(Some(Triple(pathAndBranch, w.entries[e].name, Wrap(w.entries[e].name, v, caps))), [],
                           captured[e := caps])
        else
          var r' := MatchPhase(w, pathAndBranch, key, v, cands[i + 1..], depth, captured[e := caps]);
          r == MatchResult(r'.yielded, [e] + r'.kept, r'.captured)
      else
        r == MatchPhase(w, pathAndBranch, key, v, cands[i + 1..], depth, captured)
  {
    assert cands[i..][0] == cands[i] && cands[i..][1..] == cands[i + 1..];
  }

  class FilterTable {
    const entries: seq<FilterEntry>
    const delimiter: string
    const matches: Matcher
    /** Per entry, the `:captured_matches` list. */
    var captured: Captured

    /** The walk's fixed context. */
    function W(): Walker {
      Walker(entries, delimiter, matches)
    }

    predicate Valid()
      reads this
    {
      |captured| == |entries|
    }

    /** The table as built by `register`: every captured list empty. */
    constructor (entries: seq<FilterEntry>, delimiter: string, matches: Matcher)
      ensures this.entries == entries && this.delimiter == delimiter && this.matches == matches
      ensures Valid() && forall e :: 0 <= e < |entries| ==> captured[e] == []
    {
      this.entries := entries;
      this.delimiter := delimiter;
      this.matches := matches;
      captured := seq(|entries|, _ => []);
    }

    /**
     * The loop over the current filter table for one key. Returns the yielded
     * triple, if an entry matched completely, and otherwise the table for
     * the next depth.
     */
    method MatchKey(pathAndBranch: string, key: string, v: Value, cands: seq<nat>, depth: nat)
      returns (yielded: Option<Triple>, kept: seq<nat>)
      requires Valid() && ValidCands(W(), cands)
      modifies this
      ensures Valid()
      ensures MatchResult(yielded, kept, captured) ==
              MatchPhase(W(), pathAndBranch, key, v, cands, depth, old(captured))
    {
      ghost var full := MatchPhase(W(), pathAndBranch, key, v, cands, depth, captured);
      assert cands[0..] == cands;
      yielded := None;
      kept := [];
      var i := 0;
      while i < |cands|
        invariant 0 <= i <= |cands| && Valid()
        invariant var r := MatchPhase(W(), pathAndBranch, key, v, cands[i..], depth, captured);
          full == MatchResult(r.yielded, kept + r.kept, r.captured)
      {
        MatchPhaseAt(W(), pathAndBranch, key, v, cands, i, depth, captured);
        var e := cands[i];
        var filter := entries[e].filter;
        if depth < |filter| {
          var m := matches(filter[depth], key);
          if m.Some? {
            assert MatchesAt(W(), e, depth, key);
            ghost var caps := Recapture(captured[e], depth, m.value);
            ghost var before := captured;
            if depth == 0 {
              captured := captured[e := []];
            }
            captured := captured[e := captured[e] + m.value];
            assert captured == before[e := caps];
            if depth + 1 >= |filter| {
              yielded := Some(Triple(pathAndBranch, entries[e].name, Wrap(entries[e].name, v, captured[e])));
              AppendEmpty(kept);
              return;
            }
            ghost var r' := MatchPhase(W(), pathAndBranch, key, v, cands[i + 1..], depth, captured);
            AppendAssoc(kept, [e], r'.kept);
            kept := kept + [e];
          }
        }
        i := i + 1;
      }
      assert cands[i..] == [];
      AppendEmpty(kept);
    }

    /**
     * The leaf fallback: the first entry of the current table whose
     * patterns match the raw path's segments position by position, with
     * as many patterns as segments.
     */
    method LeafFallback(pathRaw: string, key: string, v: Value, cands: seq<nat>) returns (t: Triple)
      requires ValidCands(W(), cands)
      ensures t == LeafTriple(W(), pathRaw, key, v, cands)
    {
      var segs := Split(pathRaw, ".");
      t := Triple(pathRaw, key, v);
      var found := false;
      var j := 0;
      while j < |cands|
        invariant 0 <= j <= |cands|
        invariant FirstPathMatch(W(), cands, segs) == FirstPathMatch(W(), cands[j..], segs)
        invariant |segs| == 0 ==> !found
      {
        assert cands[j..][0] == cands[j] && cands[j..][1..] == cands[j + 1..];
        var subFilterNext;
        found, subFilterNext := MatchSegments(cands[j], segs, found);
        if found && subFilterNext.None? {
          t := Triple(ReplaceChar(pathRaw, '.', delimiter), entries[cands[j]].name, v);
          return;
        }
        j := j + 1;
      }
    }

    /**
     * The inner loop of the leaf fallback for one entry: its patterns tried
     * against the segments in order, stopping at the first that fails.
     * `found` keeps its previous value when there is no segment, as the
     * source's flag does; `subFilterNext` is the pattern after the last one tried.
     */
    method MatchSegments(e: nat, segs: seq<string>, foundBefore: bool)
      returns (found: bool, subFilterNext: Option<Regex>)
      requires e < |entries|
      ensures |segs| == 0 ==> found == foundBefore && subFilterNext.None?
      ensures |segs| > 0 ==> (found && subFilterNext.None? <==> PathMatches(W(), e, segs))
    {
      var f := entries[e].filter;
      found := foundBefore;
      subFilterNext := None;
      var index := 0;
      while index < |segs|
        invariant 0 <= index <= |segs|
        invariant forall k :: 0 <= k < index ==> k < |f| && SegmentMatches(W(), f[k], segs[k])
        invariant index == 0 ==> found == foundBefore && subFilterNext.None?
        invariant index > 0 ==> found && subFilterNext == (if index < |f| then Some(f[index]) else None)
      {
        var subFilter := if index < |f| then Some(f[index]) else None;
        subFilterNext := if index + 1 < |f| then Some(f[index + 1]) else None;
        if subFilter.Some? {
          if AutoMatches(subFilter.value) {
            found := true;
          } else {
            found := matches(subFilter.value, segs[index]).Some?;
          }
        } else {
          found := false;
        }
        if !found {
          assert !PathMatches(W(), e, segs) by {
            assert index >= |f| || !SegmentMatches(W(), f[index], segs[index]);
          }
          return;
        }
        index := index + 1;
      }
      if |segs| > 0 {
        assert index == |segs|;
        var last := |segs| - 1;
        ghost var lastSegment := segs[last];
        assert last < |f|;
        assert PathMatches(W(), e, segs) <==> |f| == |segs|;
      }
    }

    /**
     * `ts_codec_extract_path_key_value`: the triples yielded for the keys of
     * `data`, in order, with the captures updated as the walk goes.
     */
    method Extract(pathRaw: string, path: string, data: seq<Field>, cands: seq<nat>, depth: nat)
      returns (out: seq<Triple>)
      requires Valid() && ValidCands(W(), cands)
      modifies this
      ensures Valid()
      ensures WalkResult(out, captured) == WalkPairs(W(), pathRaw, path, data, cands, depth, old(captured))
      decreases data
    {
      ghost var full := WalkPairs(W(), pathRaw, path, data, cands, depth, captured);
      out := [];
      var i := 0;
      while i < |data|
        invariant 0 <= i <= |data| && Valid()
        invariant var r := WalkPairs(W(), pathRaw, path, data[i..], cands, depth, captured);
          full == WalkResult(out + r.triples, r.captured)
      {
        var f := data[i];
        assert data[i..][0] == f && data[i..][1..] == data[i + 1..];
        ghost var before := captured;
        var triples := ExtractKey(pathRaw, path, f, cands, depth);
        ghost var rest := WalkPairs(W(), pathRaw, path, data[i + 1..], cands, depth, captured);
        assert WalkPairs(W(), pathRaw, path, data[i..], cands, depth, before) ==
               WalkResult(triples + rest.triples, rest.captured);
        AppendAssoc(out, triples, rest.triples);
        out := out + triples;
        i := i + 1;
      }
    }

    /**
     * One key of a hash: the yielded triple of a complete match, the
     * triples of the nested hash, or the leaf's triple.
     */
    method ExtractKey(pathRaw: string, path: string, f: Field, cands: seq<nat>, depth: nat)
      returns (triples: seq<Triple>)
      requires Valid() && ValidCands(W(), cands)
      modifies this
      ensures Valid()
      ensures WalkResult(triples, captured) == WalkKey(W(), pathRaw, path, f, cands, depth, old(captured))
      decreases f
    {
      var pathAndBranch := path + delimiter + f.key;
      var yielded, kept := MatchKey(pathAndBranch, f.key, f.val, cands, depth);
      if yielded.Some? {
        triples := [yielded.value];
      } else if f.val.Hash? {
        assert ValidCands(W(), kept) by {
          forall k | 0 <= k < |kept| ensures kept[k] < |entries| {
            assert kept[k] in cands;
          }
        }
        triples := Extract(pathRaw, pathAndBranch, f.val.fields, kept, depth + 1);
      } else {
        var t := LeafFallback(pathRaw, f.key, f.val, cands);
        triples := [t];
      }
    }
  }
}
