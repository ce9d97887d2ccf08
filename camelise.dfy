/**
 * `telemetry_gpb_camelise`: turns a schema bag name such as
 * "ifstatsbag_generic" into the class name "IfstatsbagGeneric" that the
 * protobuf compiler generates. Each `_`-separated segment is capitalised
 * (first letter upper case, the rest lower case) and the segments are joined.
 */
module Camelise {
  import opened Values

  function Upper(c: char): char {
    if 'a' <= c <= 'z' then (c as int - 32) as char else c
  }

  function Lower(c: char): char {
    if 'A' <= c <= 'Z' then (c as int + 32) as char else c
  }

  function LowerAll(s: string): (r: string)
    ensures |r| == |s|
  {
    if s == [] then [] else [Lower(s[0])] + LowerAll(s[1..])
  }

  /** Ruby's `String#capitalize` on ASCII text. */
  function Capitalize(w: string): (r: string)
    ensures |r| == |w|
  {
    if w == [] then [] else [Upper(w[0])] + LowerAll(w[1..])
  }

  /** `segs.collect { |w| w.capitalize }.join` */
  function JoinCapitalized(segs: seq<string>): string {
    if segs == [] then [] else Capitalize(segs[0]) + JoinCapitalized(segs[1..])
  }

  /** `telemetry_gpb_camelise s` */
  function Camelise(s: string): string {
    JoinCapitalized(Split(s, "_"))
  }

  /** `s` with every `c` deleted. */
  function Remove(s: string, c: char): (r: string)
    ensures |r| == |s| - Count(s, c)
  {
    if s == [] then [] else (if s[0] == c then [] else [s[0]]) + Remove(s[1..], c)
  }

  function Concat(segs: seq<string>): string {
    if segs == [] then [] else segs[0] + Concat(segs[1..])
  }

  lemma LowerAllAppend(a: string, b: string)
    ensures LowerAll(a + b) == LowerAll(a) + LowerAll(b)
  {
    if a != [] {
      assert (a + b)[1..] == a[1..] + b;
    } else {
      assert a + b == b;
    }
  }

  /** Case mapping never produces or removes an underscore. */
  lemma {:induction false} LowerAllKeepsUnderscores(s: string)
    ensures '_' in LowerAll(s) <==> '_' in s
    decreases |s|
  {
    if s != [] {
      LowerAllKeepsUnderscores(s[1..]);
      assert s == [s[0]] + s[1..];
    }
  }

  lemma {:induction false} JoinCapitalizedLength(segs: seq<string>)
    ensures |JoinCapitalized(segs)| == TotalLength(segs)
    decreases |segs|
  {
    if segs != [] {
      JoinCapitalizedLength(segs[1..]);
    }
  }

  lemma {:induction false} JoinCapitalizedNoUnderscore(segs: seq<string>)
    requires forall i :: 0 <= i < |segs| ==> '_' !in segs[i]
    ensures '_' !in JoinCapitalized(segs)
    decreases |segs|
  {
    if segs != [] {
      JoinCapitalizedNoUnderscore(segs[1..]);
      var w := segs[0];
      if w != [] {
        LowerAllKeepsUnderscores(w[1..]);
        assert w == [w[0]] + w[1..];
        assert Upper(w[0]) != '_';
      }
    }
  }

  /** The camelised name contains no underscore. */
  lemma CameliseHasNoUnderscore(s: string)
    ensures '_' !in Camelise(s)
  {
    var all := SplitFrom(s, "_", "");
    SplitFromHasNoSeparator(s, '_', "");
    assert "_" == ['_'];
    var segs := Split(s, "_");
    assert segs == all[..|segs|];
    JoinCapitalizedNoUnderscore(segs);
  }

  /** Camelising deletes exactly the underscores: the length drops by their number. */
  lemma CameliseLength(s: string)
    ensures |Camelise(s)| == |s| - Count(s, '_')
  {
    assert "_" == ['_'];
    SplitFromLength(s, '_', "");
    DropTrailingEmptyLength(SplitFrom(s, "_", ""));
    JoinCapitalizedLength(Split(s, "_"));
  }

  lemma {:induction false} LowerJoinCapitalized(segs: seq<string>)
    ensures LowerAll(JoinCapitalized(segs)) == LowerAll(Concat(segs))
    decreases |segs|
  {
    if segs != [] {
      LowerJoinCapitalized(segs[1..]);
      LowerAllAppend(Capitalize(segs[0]), JoinCapitalized(segs[1..]));
      LowerAllAppend(segs[0], Concat(segs[1..]));
      var w := segs[0];
      if w != [] {
        LowerAllAppend([Upper(w[0])], LowerAll(w[1..]));
        LowerAllAppend([w[0]], w[1..]);
        LowerAllIdempotent(w[1..]);
        assert w == [w[0]] + w[1..];
      }
    }
  }

  lemma {:induction false} LowerAllIdempotent(s: string)
    ensures LowerAll(LowerAll(s)) == LowerAll(s)
    decreases |s|
  {
    if s != [] {
      LowerAllIdempotent(s[1..]);
    }
  }

  /** The segments of a split on `c`, joined, are `s` without its `c`s. */
  lemma {:induction false} ConcatSplitFrom(s: string, c: char, cur: string)
    ensures Concat(SplitFrom(s, [c], cur)) == cur + Remove(s, c)
    decreases |s|
  {
    if |s| > 0 {
      if s[..1] == [c] {
        assert s[0] == c;
        ConcatSplitFrom(s[1..], c, "");
      } else {
        assert s[0] != c;
        ConcatSplitFrom(s[1..], c, cur + [s[0]]);
      }
    }
  }

  lemma {:induction false} ConcatDropTrailingEmpty(segs: seq<string>)
    ensures Concat(DropTrailingEmpty(segs)) == Concat(segs)
    decreases |segs|
  {
    if segs != [] && segs[|segs| - 1] == "" {
      var init := segs[..|segs| - 1];
      ConcatDropTrailingEmpty(init);
      ConcatAppend(init, [""]);
      assert init + [""] == segs;
    }
  }

  lemma {:induction false} ConcatAppend(a: seq<string>, b: seq<string>)
    ensures Concat(a + b) == Concat(a) + Concat(b)
    decreases |a|
  {
    if a != [] {
      ConcatAppend(a[1..], b);
      assert (a + b)[1..] == a[1..] + b;
    } else {
      assert a + b == b;
    }
  }

  /**
   * Camelising changes nothing but letter case and the underscores: ignoring
   * case, the result is the input with its underscores deleted.
   */
  lemma CameliseOnlyRecases(s: string)
    ensures LowerAll(Camelise(s)) == LowerAll(Remove(s, '_'))
  {
    assert "_" == ['_'];
    var all := SplitFrom(s, "_", "");
    LowerJoinCapitalized(Split(s, "_"));
    ConcatDropTrailingEmpty(all);
    ConcatSplitFrom(s, '_', "");
    assert Concat(Split(s, "_")) == Concat(all) == "" + Remove(s, '_') == Remove(s, '_');
  }

  lemma {:induction false} SplitFromWithoutSeparator(s: string, c: char, cur: string)
    requires c !in s
    ensures SplitFrom(s, [c], cur) == [cur + s]
    decreases |s|
  {
    if |s| > 0 {
      assert s[..1] != [c] by { assert s[..1][0] == s[0]; }
      SplitFromWithoutSeparator(s[1..], c, cur + [s[0]]);
      assert (cur + [s[0]]) + s[1..] == cur + s;
    } else {
      assert cur + s == cur;
    }
  }

  /** A name without underscores is one segment: it is only capitalised. */
  lemma CameliseSingleSegment(s: string)
    requires s != "" && '_' !in s
    ensures Camelise(s) == Capitalize(s)
  {
    assert "_" == ['_'];
    SplitFromWithoutSeparator(s, '_', "");
    assert "" + s == s;
    assert JoinCapitalized([s]) == Capitalize(s) + JoinCapitalized([]);
  }

  lemma {:induction false} LowerAllAt(s: string, i: nat)
    requires i < |s|
    ensures LowerAll(s)[i] == Lower(s[i])
    decreases i
  {
    if i > 0 {
      LowerAllAt(s[1..], i - 1);
    }
  }

  /** As the source's comment notes, "RootOper" becomes "Rootoper". */
  lemma CameliseRootOper()
    ensures Camelise("RootOper") == "Rootoper"
  {
    CameliseSingleSegment("RootOper");
    CapitalizeRootOper();
  }

  lemma CapitalizeRootOper()
    ensures Capitalize("RootOper") == "Rootoper"
  {
    var t := "RootOper"[1..];
    assert t == "ootOper";
    LowerAllAt(t, 0);
    LowerAllAt(t, 1);
    LowerAllAt(t, 2);
    LowerAllAt(t, 3);
    LowerAllAt(t, 4);
    LowerAllAt(t, 5);
    LowerAllAt(t, 6);
    assert LowerAll(t) == "ootoper";
  }
}
