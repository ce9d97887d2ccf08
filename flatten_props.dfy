/**
 * What the flattening walk promises: which entry a key is cut by, which
 * entries are carried to the next depth, how captures are collected, what a
 * leaf is labelled with, and what the walk yields without any filter.
 */
module FlattenProps {
  import opened Wrappers
  import opened Values
  import opened Flatten

  predicate Distinct(cands: seq<nat>) {
    forall i, j :: 0 <= i < j < |cands| ==> cands[i] != cands[j]
  }

  /** The prefix-matching entries of `cands`, in order. */
  function Continuing(w: Walker, cands: seq<nat>, depth: nat, key: string): seq<nat>
    requires ValidCands(w, cands)
  {
    if cands == [] then []
    else (if Continues(w, cands[0], depth, key) then [cands[0]] else []) + Continuing(w, cands[1..], depth, key)
  }

  /** A key is cut only when some entry of the current table matches it completely. */
  lemma {:induction false} MatchPhaseCutNeedsComplete(w: Walker, pathAndBranch: string, key: string, v: Value,
                                                      cands: seq<nat>, depth: nat, captured: Captured)
    requires ValidCands(w, cands) && |captured| == |w.entries|
    ensures MatchPhase(w, pathAndBranch, key, v, cands, depth, captured).yielded.Some? ==>
      exists i :: 0 <= i < |cands| && Completes(w, cands[i], depth, key)
    decreases |cands|
  {
    if cands != [] {
      var e := cands[0];
      var tail := cands[1..];
      var captured' := captured;
      if MatchesAt(w, e, depth, key) {
        var caps := Recapture(captured[e], depth, w.matches(w.entries[e].filter[depth], key).value);
        captured' := captured[e := caps];
        if depth + 1 >= |w.entries[e].filter| {
          assert Completes(w, cands[0], depth, key);
          return;
        }
      }
      MatchPhaseCutNeedsComplete(w, pathAndBranch, key, v, tail, depth, captured');
      if MatchPhase(w, pathAndBranch, key, v, tail, depth, captured').yielded.Some? {
        var i :| 0 <= i < |tail| && Completes(w, tail[i], depth, key);
        assert tail[i] == cands[i + 1];
      }
    }
  }

  /**
   * The first entry, in table order, that matches the key completely cuts
   * it: the triple has the extended path, the entry's name as type and
   * `{name => subtree, "key" => captures}` as content.
   */
  lemma {:induction false} MatchPhaseCutByFirstComplete(w: Walker, pathAndBranch: string, key: string, v: Value,
                                                        cands: seq<nat>, depth: nat, captured: Captured, i: nat)
    requires ValidCands(w, cands) && |captured| == |w.entries|
    requires i < |cands| && Completes(w, cands[i], depth, key)
    requires forall j :: 0 <= j < i ==> !Completes(w, cands[j], depth, key)
    ensures var r := MatchPhase(w, pathAndBranch, key, v, cands, depth, captured);
      r.yielded == Some(Triple(pathAndBranch, w.entries[cands[i]].name,
                               Wrap(w.entries[cands[i]].name, v, r.captured[cands[i]])))
    decreases |cands|
  {
    if i > 0 {
      var e := cands[0];
      var tail := cands[1..];
      assert !Completes(w, e, depth, key);
      assert forall j :: 0 <= j < i - 1 ==> tail[j] == cands[j + 1];
      if MatchesAt(w, e, depth, key) {
        var caps := Recapture(captured[e], depth, w.matches(w.entries[e].filter[depth], key).value);
        MatchPhaseCutByFirstComplete(w, pathAndBranch, key, v, tail, depth, captured[e := caps], i - 1);
      } else {
        MatchPhaseCutByFirstComplete(w, pathAndBranch, key, v, tail, depth, captured, i - 1);
      }
    }
  }

  /** Some entry matching completely is enough for the key to be cut. */
  lemma {:induction false} MatchPhaseCutWhenComplete(w: Walker, pathAndBranch: string, key: string, v: Value,
                                                     cands: seq<nat>, depth: nat, captured: Captured, i: nat)
    requires ValidCands(w, cands) && |captured| == |w.entries|
    requires i < |cands| && Completes(w, cands[i], depth, key)
    ensures MatchPhase(w, pathAndBranch, key, v, cands, depth, captured).yielded.Some?
    decreases |cands|
  {
    var e := cands[0];
    var tail := cands[1..];
    if !Completes(w, e, depth, key) {
      assert tail[i - 1] == cands[i];
      if MatchesAt(w, e, depth, key) {
        var caps := Recapture(captured[e], depth, w.matches(w.entries[e].filter[depth], key).value);
        MatchPhaseCutWhenComplete(w, pathAndBranch, key, v, tail, depth, captured[e := caps], i - 1);
      } else {
        MatchPhaseCutWhenComplete(w, pathAndBranch, key, v, tail, depth, captured, i - 1);
      }
    }
  }

  /** When no entry cuts the key, exactly the prefix-matching entries are carried down, in table order. */
  lemma {:induction false} MatchPhaseKept(w: Walker, pathAndBranch: string, key: string, v: Value,
                                          cands: seq<nat>, depth: nat, captured: Captured)
    requires ValidCands(w, cands) && |captured| == |w.entries|
    ensures var r := MatchPhase(w, pathAndBranch, key, v, cands, depth, captured);
      r.yielded.None? ==> r.kept == Continuing(w, cands, depth, key)
    decreases |cands|
  {
    if cands != [] {
      var e := cands[0];
      if MatchesAt(w, e, depth, key) {
        var caps := Recapture(captured[e], depth, w.matches(w.entries[e].filter[depth], key).value);
        if depth + 1 < |w.entries[e].filter| {
          MatchPhaseKept(w, pathAndBranch, key, v, cands[1..], depth, captured[e := caps]);
        }
      } else {
        MatchPhaseKept(w, pathAndBranch, key, v, cands[1..], depth, captured);
      }
    }
  }

  /**
   * Captures: an entry that matches the key has its captured list cleared
   * first when the depth is 0 and then extended by the named groups; an entry
   * outside the current table keeps its list.
   */
  lemma MatchPhaseCaptures(w: Walker, pathAndBranch: string, key: string, v: Value,
                           cands: seq<nat>, depth: nat, captured: Captured)
    requires ValidCands(w, cands) && |captured| == |w.entries| && Distinct(cands)
    ensures var r := MatchPhase(w, pathAndBranch, key, v, cands, depth, captured);
      (forall e :: 0 <= e < |captured| && e !in cands ==> r.captured[e] == captured[e]) &&
      (r.yielded.None? ==> forall i :: 0 <= i < |cands| ==>
        r.captured[cands[i]] ==
          if MatchesAt(w, cands[i], depth, key)
          then Recapture(captured[cands[i]], depth, w.matches(w.entries[cands[i]].filter[depth], key).value)
          else captured[cands[i]]) &&
      (forall i :: 0 <= i < |cands| ==>
        r.captured[cands[i]] ==
          if CompletesBefore(w, cands, i, depth, key) then captured[cands[i]]
          else if MatchesAt(w, cands[i], depth, key)
          then Recapture(captured[cands[i]], depth, w.matches(w.entries[cands[i]].filter[depth], key).value)
          else captured[cands[i]])
  {
    MatchPhaseFrame(w, pathAndBranch, key, v, cands, depth, captured);
    MatchPhaseRecaptures(w, pathAndBranch, key, v, cands, depth, captured);
    MatchPhaseCutRecaptures(w, pathAndBranch, key, v, cands, depth, captured);
  }

  /** Some entry of the table before position `i` completes on this key. */
  predicate CompletesBefore(w: Walker, cands: seq<nat>, i: nat, depth: nat, key: string)
    requires ValidCands(w, cands) && i <= |cands|
  {
    exists j :: 0 <= j < i && Completes(w, cands[j], depth, key)
  }

  /**
   * With or without a cut: the entries up to the first complete one have
   * their captures recomputed if they matched and kept otherwise; the
   * entries after it, which the loop never reaches, keep theirs.
   */
  lemma {:induction false} MatchPhaseCutRecaptures(w: Walker, pathAndBranch: string, key: string, v: Value,
                                                   cands: seq<nat>, depth: nat, captured: Captured)
    requires ValidCands(w, cands) && |captured| == |w.entries| && Distinct(cands)
    ensures var r := MatchPhase(w, pathAndBranch, key, v, cands, depth, captured);
      forall i :: 0 <= i < |cands| ==>
        r.captured[cands[i]] ==
          if CompletesBefore(w, cands, i, depth, key) then captured[cands[i]]
          else if MatchesAt(w, cands[i], depth, key)
          then Recapture(captured[cands[i]], depth, w.matches(w.entries[cands[i]].filter[depth], key).value)
          else captured[cands[i]]
    decreases |cands|
  {
    if cands != [] {
      var e := cands[0];
      var tail := cands[1..];
      assert forall i :: 1 <= i < |cands| ==> cands[i] == tail[i - 1];
      assert Distinct(tail);
      assert e !in tail;
      assert !CompletesBefore(w, cands, 0, depth, key);
      if MatchesAt(w, e, depth, key) && depth + 1 >= |w.entries[e].filter| {
        forall i | 0 < i < |cands|
          ensures CompletesBefore(w, cands, i, depth, key)
        {
          CompletesBeforeFirst(w, cands, i, depth, key);
        }
      } else {
        var next := if MatchesAt(w, e, depth, key)
          then captured[e := Recapture(captured[e], depth, w.matches(w.entries[e].filter[depth], key).value)]
          else captured;
        MatchPhaseFrame(w, pathAndBranch, key, v, tail, depth, next);
        MatchPhaseCutRecaptures(w, pathAndBranch, key, v, tail, depth, next);
        forall i | 0 < i < |cands|
          ensures CompletesBefore(w, cands, i, depth, key) == CompletesBefore(w, tail, i - 1, depth, key)
        {
          CompletesBeforeTail(w, cands, i, depth, key);
        }
      }
    }
  }

  lemma CompletesBeforeFirst(w: Walker, cands: seq<nat>, i: nat, depth: nat, key: string)
    requires ValidCands(w, cands) && 0 < i <= |cands| && Completes(w, cands[0], depth, key)
    ensures CompletesBefore(w, cands, i, depth, key)
  {
  }

  /** Past a first entry that does not complete, the question moves to the tail. */
  lemma CompletesBeforeTail(w: Walker, cands: seq<nat>, i: nat, depth: nat, key: string)
    requires ValidCands(w, cands) && 0 < i <= |cands| && !Completes(w, cands[0], depth, key)
    ensures ValidCands(w, cands[1..])
    ensures CompletesBefore(w, cands, i, depth, key) == CompletesBefore(w, cands[1..], i - 1, depth, key)
  {
    var tail := cands[1..];
    assert forall j :: 0 <= j < |tail| ==> tail[j] == cands[j + 1];
    if CompletesBefore(w, cands, i, depth, key) {
      var j :| 0 <= j < i && Completes(w, cands[j], depth, key);
      assert j != 0 && Completes(w, tail[j - 1], depth, key);
    }
    if CompletesBefore(w, tail, i - 1, depth, key) {
      var j :| 0 <= j < i - 1 && Completes(w, tail[j], depth, key);
      assert Completes(w, cands[j + 1], depth, key);
    }
  }

  /** The entries outside the table keep their captures. */
  lemma {:induction false} MatchPhaseFrame(w: Walker, pathAndBranch: string, key: string, v: Value,
                                           cands: seq<nat>, depth: nat, captured: Captured)
    requires ValidCands(w, cands) && |captured| == |w.entries|
    ensures var r := MatchPhase(w, pathAndBranch, key, v, cands, depth, captured);
      forall e :: 0 <= e < |captured| && e !in cands ==> r.captured[e] == captured[e]
    decreases |cands|
  {
    if cands != [] {
      var e := cands[0];
      var tail := cands[1..];
      assert forall x :: x in tail ==> x in cands;
      if MatchesAt(w, e, depth, key) {
        var caps := Recapture(captured[e], depth, w.matches(w.entries[e].filter[depth], key).value);
        if depth + 1 < |w.entries[e].filter| {
          MatchPhaseFrame(w, pathAndBranch, key, v, tail, depth, captured[e := caps]);
        }
      } else {
        MatchPhaseFrame(w, pathAndBranch, key, v, tail, depth, captured);
      }
    }
  }

  /** When nothing completes, each entry of the table has its captures recomputed or kept. */
  lemma {:induction false} MatchPhaseRecaptures(w: Walker, pathAndBranch: string, key: string, v: Value,
                                                cands: seq<nat>, depth: nat, captured: Captured)
    requires ValidCands(w, cands) && |captured| == |w.entries| && Distinct(cands)
    ensures var r := MatchPhase(w, pathAndBranch, key, v, cands, depth, captured);
      r.yielded.None? ==> forall i :: 0 <= i < |cands| ==>
        r.captured[cands[i]] ==
          if MatchesAt(w, cands[i], depth, key)
          then Recapture(captured[cands[i]], depth, w.matches(w.entries[cands[i]].filter[depth], key).value)
          else captured[cands[i]]
    decreases |cands|
  {
    if cands != [] {
      var e := cands[0];
      var tail := cands[1..];
      assert forall i :: 1 <= i < |cands| ==> cands[i] == tail[i - 1];
      assert Distinct(tail);
      assert e !in tail;
      if MatchesAt(w, e, depth, key) {
        var caps := Recapture(captured[e], depth, w.matches(w.entries[e].filter[depth], key).value);
        if depth + 1 < |w.entries[e].filter| {
          MatchPhaseFrame(w, pathAndBranch, key, v, tail, depth, captured[e := caps]);
          MatchPhaseRecaptures(w, pathAndBranch, key, v, tail, depth, captured[e := caps]);
        }
      } else {
        MatchPhaseFrame(w, pathAndBranch, key, v, tail, depth, captured);
        MatchPhaseRecaptures(w, pathAndBranch, key, v, tail, depth, captured);
      }
    }
  }

  /** The walk never touches the captures of an entry outside its candidate table. */
  lemma {:induction false} WalkPairsFrame(w: Walker, pathRaw: string, path: string, data: seq<Field>,
                                          cands: seq<nat>, depth: nat, captured: Captured)
    requires WalkPre(w, cands, captured) && Distinct(cands)
    ensures var r := WalkPairs(w, pathRaw, path, data, cands, depth, captured);
      forall e :: 0 <= e < |captured| && e !in cands ==> r.captured[e] == captured[e]
    decreases data
  {
    if data != [] {
      var first := WalkKey(w, pathRaw, path, data[0], cands, depth, captured);
      WalkKeyFrame(w, pathRaw, path, data[0], cands, depth, captured);
      WalkPairsFrame(w, pathRaw, path, data[1..], cands, depth, first.captured);
    }
  }

  lemma {:induction false} WalkKeyFrame(w: Walker, pathRaw: string, path: string, f: Field,
                                        cands: seq<nat>, depth: nat, captured: Captured)
    requires WalkPre(w, cands, captured) && Distinct(cands)
    ensures var r := WalkKey(w, pathRaw, path, f, cands, depth, captured);
      forall e :: 0 <= e < |captured| && e !in cands ==> r.captured[e] == captured[e]
    decreases f
  {
    var pathAndBranch := path + w.delimiter + f.key;
    var m := MatchPhase(w, pathAndBranch, f.key, f.val, cands, depth, captured);
    MatchPhaseCaptures(w, pathAndBranch, f.key, f.val, cands, depth, captured);
    if m.yielded.None? && f.val.Hash? {
      KeptDistinct(w, pathAndBranch, f.key, f.val, cands, depth, captured);
      WalkPairsFrame(w, pathRaw, pathAndBranch, f.val.fields, m.kept, depth + 1, m.captured);
    }
  }

  /** The entries carried down are distinct when the table's are. */
  lemma {:induction false} KeptDistinct(w: Walker, pathAndBranch: string, key: string, v: Value,
                                        cands: seq<nat>, depth: nat, captured: Captured)
    requires ValidCands(w, cands) && |captured| == |w.entries| && Distinct(cands)
    ensures Distinct(MatchPhase(w, pathAndBranch, key, v, cands, depth, captured).kept)
    decreases |cands|
  {
    if cands != [] {
      var e := cands[0];
      var tail := cands[1..];
      assert Distinct(tail);
      assert e !in tail;
      if MatchesAt(w, e, depth, key) {
        var caps := Recapture(captured[e], depth, w.matches(w.entries[e].filter[depth], key).value);
        if depth + 1 < |w.entries[e].filter| {
          KeptDistinct(w, pathAndBranch, key, v, tail, depth, captured[e := caps]);
        }
      } else {
        KeptDistinct(w, pathAndBranch, key, v, tail, depth, captured);
      }
    }
  }

  /**
   * A leaf is labelled with the name of the first entry of the current table
   * whose patterns match the raw Path segment by segment, under the Path with
   * its dots replaced by the delimiter; with no such entry it keeps the raw
   * Path and its own key.
   */
  lemma LeafLabel(w: Walker, pathRaw: string, key: string, v: Value, cands: seq<nat>)
    requires ValidCands(w, cands)
    ensures var t := LeafTriple(w, pathRaw, key, v, cands);
      var segs := Split(pathRaw, ".");
      t.content == v &&
      ((forall i :: 0 <= i < |cands| ==> !PathMatches(w, cands[i], segs)) ==> t.path == pathRaw && t.typ == key) &&
      (forall i :: 0 <= i < |cands| && PathMatches(w, cands[i], segs) &&
                   (forall j :: 0 <= j < i ==> !PathMatches(w, cands[j], segs)) ==>
        t.path == ReplaceChar(pathRaw, '.', w.delimiter) && t.typ == w.entries[cands[i]].name)
  {
    var segs := Split(pathRaw, ".");
    forall i | 0 <= i < |cands| && PathMatches(w, cands[i], segs) &&
               (forall j :: 0 <= j < i ==> !PathMatches(w, cands[j], segs))
      ensures FirstPathMatch(w, cands, segs) == Some(cands[i])
    {
      FirstPathMatchAt(w, cands, segs, i);
    }
  }

  /** The entry found is the first candidate that matches. */
  lemma {:induction false} FirstPathMatchAt(w: Walker, cands: seq<nat>, segs: seq<string>, i: nat)
    requires ValidCands(w, cands) && i < |cands| && PathMatches(w, cands[i], segs)
    requires forall j :: 0 <= j < i ==> !PathMatches(w, cands[j], segs)
    ensures FirstPathMatch(w, cands, segs) == Some(cands[i])
    decreases i
  {
    if i > 0 {
      assert !PathMatches(w, cands[0], segs);
      assert forall j :: 0 <= j < i - 1 ==> cands[1..][j] == cands[j + 1];
      FirstPathMatchAt(w, cands[1..], segs, i - 1);
    }
  }

  /** A pair inside `p + a + q` lies inside `a` when `p` and `q` cannot hold or start one. */
  lemma ContainsPairInside(p: string, a: string, q: string, x: char, y: char)
    requires x !in p && x !in q && (|q| > 0 ==> q[0] != y) && |q| > 0
    ensures ContainsPair(p + a + q, x, y) <==> ContainsPair(a, x, y)
  {
    var t := p + a + q;
    if ContainsPair(a, x, y) {
      var i :| 0 <= i < |a| - 1 && a[i] == x && a[i + 1] == y;
      assert t[|p| + i] == x && t[|p| + i + 1] == y;
    }
    if ContainsPair(t, x, y) {
      var i :| 0 <= i < |t| - 1 && t[i] == x && t[i + 1] == y;
      if |p| <= i < |p| + |a| - 1 {
        assert a[i - |p|] == x && a[i - |p| + 1] == y;
      }
    }
  }

  /**
   * The shortcut in terms of the configured atom: the pattern `^atom$`
   * counts as matching any segment when the atom contains ".*" or the
   * letter d.
   */
  lemma AutoMatchesAtom(atom: string)
    ensures AutoMatches(AtomRegex(atom)) <==> ContainsPair(atom, '.', '*') || 'd' in atom
  {
    var pre, suf := "(?-mix:^", "$)";
    assert RegexText(AtomRegex(atom)) == pre + atom + suf;
    ContainsPairInside(pre, atom, suf, '.', '*');
    assert 'd' !in pre && 'd' !in suf;
    assert 'd' in pre + atom + suf <==> 'd' in atom;
  }

  // ---------------------------------------------------------------------
  // The walk with an empty filter table
  // ---------------------------------------------------------------------

  /** Every leaf of the tree, depth first, labelled with the raw Path and its key. */
  function LeavesOfPairs(pathRaw: string, data: seq<Field>): seq<Triple>
    decreases data
  {
    if data == [] then [] else LeavesOfKey(pathRaw, data[0]) + LeavesOfPairs(pathRaw, data[1..])
  }

  function LeavesOfKey(pathRaw: string, f: Field): seq<Triple>
    decreases f
  {
    if f.val.Hash? then LeavesOfPairs(pathRaw, f.val.fields) else [Triple(pathRaw, f.key, f.val)]
  }

  /**
   * Without configured filters the walk yields one triple per leaf, in
   * depth-first order, each with the raw Path as path and the leaf's key as
   * type, and changes no captures.
   */
  lemma {:induction false} WalkWithoutFilters(w: Walker, pathRaw: string, path: string, data: seq<Field>,
                                              depth: nat, captured: Captured)
    requires |captured| == |w.entries|
    ensures WalkPairs(w, pathRaw, path, data, [], depth, captured) == WalkResult(LeavesOfPairs(pathRaw, data), captured)
    decreases data
  {
    if data != [] {
      var f := data[0];
      var pathAndBranch := path + w.delimiter + f.key;
      if f.val.Hash? {
        WalkWithoutFilters(w, pathRaw, pathAndBranch, f.val.fields, depth + 1, captured);
      }
      WalkWithoutFilters(w, pathRaw, path, data[1..], depth, captured);
    }
  }

  // ---------------------------------------------------------------------
  // A worked example
  // ---------------------------------------------------------------------

  /** A pattern engine that matches `^atom$` against exactly `atom`, capturing nothing. */
  function LiteralMatcher(): Matcher {
    (r: Regex, s: string) => if r.source == "^" + s + "$" then Some([]) else None
  }

  /**
   * Data {"a": {"b": 5}} with one entry "AB" filtering "a~b": a single triple
   * with path "DATA~a~b", type "AB" and content {"AB" => 5, "key" => {}}.
   */
  lemma NestedCutExample()
    ensures var w := Walker([FilterEntry("AB", [AtomRegex("a"), AtomRegex("b")])], "~", LiteralMatcher());
      WalkPairs(w, "P", "DATA", [Field("a", Hash([Field("b", Int(5))]))], [0], 0, [[]]).triples ==
        [Triple("DATA~a~b", "AB", Hash([Field("AB", Int(5)), Field("key", Hash([]))]))]
  {
    var w := Walker([FilterEntry("AB", [AtomRegex("a"), AtomRegex("b")])], "~", LiteralMatcher());
    assert w.matches(AtomRegex("a"), "a") == Some([]);
    assert "DATA" + "~" + "a" == "DATA~a";
    var m0 := MatchPhase(w, "DATA~a", "a", Hash([Field("b", Int(5))]), [0], 0, [[]]);
    assert MatchesAt(w, 0, 0, "a") && Recapture([], 0, []) == [];
    assert MatchPhase(w, "DATA~a", "a", Hash([Field("b", Int(5))]), [], 0, [[]]) == MatchResult(None, [], [[]]);
    assert [0][1..] == [];
    assert m0 == MatchResult(None, [0], [[]]);
    NestedCutInner(w);
    var innerAll := WalkPairs(w, "P", "DATA~a", [Field("b", Int(5))], m0.kept, 1, m0.captured);
    var outer := WalkKey(w, "P", "DATA", Field("a", Hash([Field("b", Int(5))])), [0], 0, [[]]);
    assert outer.triples == innerAll.triples;
  }

  /** The second level of that walk: "b" completes the entry and the value is wrapped. */
  lemma NestedCutInner(w: Walker)
    requires w == Walker([FilterEntry("AB", [AtomRegex("a"), AtomRegex("b")])], "~", LiteralMatcher())
    ensures WalkPairs(w, "P", "DATA~a", [Field("b", Int(5))], [0], 1, [[]]).triples ==
      [Triple("DATA~a~b", "AB", Hash([Field("AB", Int(5)), Field("key", Hash([]))]))]
  {
    assert w.matches(AtomRegex("b"), "b") == Some([]);
    assert "DATA~a" + "~" + "b" == "DATA~a~b";
    var m1 := MatchPhase(w, "DATA~a~b", "b", Int(5), [0], 1, [[]]);
    assert m1.yielded == Some(Triple("DATA~a~b", "AB", Wrap("AB", Int(5), [])));
    assert FromPairs(CaptureFields([])) == [];
    assert Put([], "AB", Int(5)) == [Field("AB", Int(5))];
    assert Put([Field("AB", Int(5))], "key", Hash([])) == [Field("AB", Int(5)), Field("key", Hash([]))];
    var inner := WalkKey(w, "P", "DATA~a", Field("b", Int(5)), [0], 1, [[]]);
    assert inner.triples == [Triple("DATA~a~b", "AB", Hash([Field("AB", Int(5)), Field("key", Hash([]))]))];
    assert WalkPairs(w, "P", "DATA~a", [Field("b", Int(5))], [0], 1, [[]]).triples == inner.triples + [];
  }
}
