/**
 * Values shared by every decoder: raw bytes, the nested document tree that
 * events are made of, Ruby's insertion-ordered Hash, and Ruby's String#split.
 */
module Values {
  import opened Wrappers

  newtype byte = x: int | 0 <= x < 256
  type Bytes = seq<byte>

  /** One key/value entry of an insertion-ordered Hash. */
  datatype Field = Field(key: string, val: Value)

  /**
   * A parsed JSON document, a decoded protobuf message in hash form, or an
   * event. Floating-point numbers are opaque (`bits` is never interpreted).
   */
  datatype Value =
    | Null
    | Bool(b: bool)
    | Int(i: int)
    | Float(bits: nat)
    | Str(s: string)
    | List(items: seq<Value>)
    | Hash(fields: seq<Field>)

  /** The keys of a Hash, in insertion order. */
  function KeysOf(fs: seq<Field>): (ks: seq<string>)
    ensures |ks| == |fs|
    ensures forall i :: 0 <= i < |fs| ==> ks[i] == fs[i].key
  {
    if fs == [] then [] else [fs[0].key] + KeysOf(fs[1..])
  }

  /** No key occurs twice, as in every Ruby Hash. */
  predicate UniqueKeys(fs: seq<Field>) {
    forall i, j :: 0 <= i < j < |fs| ==> fs[i].key != fs[j].key
  }

  /** `h.has_key?(k)` together with `h[k]`. */
  function Find(fs: seq<Field>, k: string): Option<Value> {
    if fs == [] then None
    else if fs[0].key == k then Some(fs[0].val)
    else Find(fs[1..], k)
  }

  /** A key is found exactly when it is one of the keys. */
  lemma {:induction false} FindKeys(fs: seq<Field>, k: string)
    ensures Find(fs, k).Some? <==> k in KeysOf(fs)
    decreases |fs|
  {
    if fs != [] {
      FindKeys(fs[1..], k);
      assert KeysOf(fs) == [fs[0].key] + KeysOf(fs[1..]);
    }
  }

  /** The entry found for a key is that of its first occurrence. */
  lemma {:induction false} FindFirst(fs: seq<Field>, i: nat, k: string)
    requires i < |fs| && fs[i].key == k && forall j :: 0 <= j < i ==> fs[j].key != k
    ensures Find(fs, k) == Some(fs[i].val)
  {
    if i > 0 {
      FindFirst(fs[1..], i - 1, k);
    }
  }

  /** A key no field carries is not found. */
  lemma {:induction false} FindAbsent(fs: seq<Field>, k: string)
    requires forall j :: 0 <= j < |fs| ==> fs[j].key != k
    ensures Find(fs, k) == None
  {
    if fs != [] {
      FindAbsent(fs[1..], k);
    }
  }

  /** `h[k]`: the value under `k`, or nil. */
  function Get(fs: seq<Field>, k: string): Value {
    Find(fs, k).GetOr(Null)
  }

  /**
   * `h[k] = v`: an existing key keeps its position and takes the new value,
   * a new key is appended.
   */
  function Put(fs: seq<Field>, k: string, v: Value): (r: seq<Field>)
    ensures Find(r, k) == Some(v)
    ensures forall j :: j != k ==> Find(r, j) == Find(fs, j)
    ensures KeysOf(r) == if k in KeysOf(fs) then KeysOf(fs) else KeysOf(fs) + [k]
  {
    if fs == [] then [Field(k, v)]
    else if fs[0].key == k then [Field(k, v)] + fs[1..]
    else
      var rest := Put(fs[1..], k, v);
      var r := [fs[0]] + rest;
      assert r[1..] == rest;
      assert KeysOf(r) == [fs[0].key] + KeysOf(rest);
      assert KeysOf(fs) == [fs[0].key] + KeysOf(fs[1..]);
      r
  }

  /** Putting keeps keys unique. */
  lemma PutUnique(fs: seq<Field>, k: string, v: Value)
    requires UniqueKeys(fs)
    ensures UniqueKeys(Put(fs, k, v))
  {
    var r := Put(fs, k, v);
    var ks, rs := KeysOf(fs), KeysOf(r);
    forall i, j | 0 <= i < j < |r| ensures r[i].key != r[j].key {
      assert rs[i] == r[i].key && rs[j] == r[j].key;
      if k in ks {
        assert ks[i] == fs[i].key && ks[j] == fs[j].key;
      } else if j < |fs| {
        assert ks[i] == fs[i].key && ks[j] == fs[j].key;
      } else {
        assert rs[j] == k;
        assert ks[i] == fs[i].key;
      }
    }
  }

  /** `h.update(other)`: the entries of `other` put into `h` one by one. */
  function Update(fs: seq<Field>, other: seq<Field>): seq<Field>
    decreases |other|
  {
    if other == [] then fs else Update(Put(fs, other[0].key, other[0].val), other[1..])
  }

  /** `Hash[pairs]`: later duplicates overwrite earlier ones in place. */
  function FromPairs(pairs: seq<Field>): seq<Field> {
    Update([], pairs)
  }

  /** After an update the entry of `other` wins; every other key keeps its value. */
  lemma {:induction false} UpdateFind(fs: seq<Field>, other: seq<Field>, k: string)
    requires UniqueKeys(other)
    ensures Find(Update(fs, other), k) == if k in KeysOf(other) then Find(other, k) else Find(fs, k)
    decreases |other|
  {
    if other != [] {
      var fs' := Put(fs, other[0].key, other[0].val);
      assert UniqueKeys(other[1..]);
      UpdateFind(fs', other[1..], k);
      assert KeysOf(other) == [other[0].key] + KeysOf(other[1..]);
      if k == other[0].key {
        assert k !in KeysOf(other[1..]);
      }
    }
  }

  /** Updating keeps keys unique. */
  lemma {:induction false} UpdateUnique(fs: seq<Field>, other: seq<Field>)
    requires UniqueKeys(fs)
    ensures UniqueKeys(Update(fs, other))
    decreases |other|
  {
    if other != [] {
      PutUnique(fs, other[0].key, other[0].val);
      UpdateUnique(Put(fs, other[0].key, other[0].val), other[1..]);
    }
  }

  /** `h.delete(k)`: the entry under `k` removed, the others kept in order. */
  function Delete(fs: seq<Field>, k: string): (r: seq<Field>)
    ensures Find(r, k) == None
    ensures forall j :: j != k ==> Find(r, j) == Find(fs, j)
  {
    if fs == [] then []
    else if fs[0].key == k then Delete(fs[1..], k)
    else
      var rest := Delete(fs[1..], k);
      assert ([fs[0]] + rest)[1..] == rest;
      [fs[0]] + rest
  }

  /** Deleting keeps keys unique. */
  lemma {:induction false} DeleteUnique(fs: seq<Field>, k: string)
    requires UniqueKeys(fs)
    ensures UniqueKeys(Delete(fs, k))
    decreases |fs|
  {
    if fs != [] {
      DeleteUnique(fs[1..], k);
      if fs[0].key != k {
        var rest := Delete(fs[1..], k);
        assert Find(fs[1..], fs[0].key) == None by {
          FindKeys(fs[1..], fs[0].key);
        }
        FindKeys(rest, fs[0].key);
        assert forall i :: 0 <= i < |rest| ==> rest[i].key == KeysOf(rest)[i];
      }
    }
  }

  /** Bytes as the Ruby binary string holding them (`to_s` of a bytes field). */
  function BytesToString(b: Bytes): (s: string)
    ensures |s| == |b|
    ensures forall i :: 0 <= i < |b| ==> s[i] as int == b[i] as int
  {
    seq(|b|, i requires 0 <= i < |b| => (b[i] as int) as char)
  }

  /**
   * Every segment of `s` between occurrences of `sep`, scanning left to
   * right, with `cur` the segment collected so far. Empty segments are kept.
   */
  function SplitFrom(s: string, sep: string, cur: string): (segs: seq<string>)
    requires |sep| > 0
    ensures |segs| > 0
    decreases |s|
  {
    if |s| == 0 then [cur]
    else if |sep| <= |s| && s[..|sep|] == sep then [cur] + SplitFrom(s[|sep|..], sep, "")
    else SplitFrom(s[1..], sep, cur + [s[0]])
  }

  /** Drops the empty segments at the end, as Ruby's split does. */
  function DropTrailingEmpty(segs: seq<string>): (r: seq<string>)
    ensures |r| <= |segs| && r == segs[..|r|]
    ensures |r| > 0 ==> r[|r| - 1] != ""
    ensures forall i :: |r| <= i < |segs| ==> segs[i] == ""
  {
    if segs == [] then []
    else if segs[|segs| - 1] == "" then DropTrailingEmpty(segs[..|segs| - 1])
    else segs
  }

  /** Ruby's `s.split(sep)` for a separator string other than "" and " ". */
  function Split(s: string, sep: string): seq<string>
    requires |sep| > 0
  {
    DropTrailingEmpty(SplitFrom(s, sep, ""))
  }

  /** The number of occurrences of `c` in `s`. */
  function Count(s: string, c: char): nat {
    if s == [] then 0 else (if s[0] == c then 1 else 0) + Count(s[1..], c)
  }

  /** Ruby's `s.gsub(c, repl)` for a literal one-character pattern. */
  function ReplaceChar(s: string, c: char, repl: string): (r: string)
    ensures c !in repl ==> c !in r
  {
    if s == [] then [] else (if s[0] == c then repl else [s[0]]) + ReplaceChar(s[1..], c, repl)
  }

  /** The segments of a split on one character never contain that character. */
  lemma {:induction false} SplitFromHasNoSeparator(s: string, c: char, cur: string)
    requires c !in cur
    ensures forall i :: 0 <= i < |SplitFrom(s, [c], cur)| ==> c !in SplitFrom(s, [c], cur)[i]
    decreases |s|
  {
    if |s| > 0 {
      if s[..1] == [c] {
        SplitFromHasNoSeparator(s[1..], c, "");
      } else {
        assert s[0] != c;
        SplitFromHasNoSeparator(s[1..], c, cur + [s[0]]);
      }
    }
  }

  /** Total segment length of a split on one character. */
  function TotalLength(segs: seq<string>): nat {
    if segs == [] then 0 else |segs[0]| + TotalLength(segs[1..])
  }

  /** The segments' total length is that of `cur` and `s` less the separators in `s`. */
  lemma {:induction false} SplitFromLength(s: string, c: char, cur: string)
    ensures TotalLength(SplitFrom(s, [c], cur)) == |cur| + |s| - Count(s, c)
    decreases |s|
  {
    if |s| > 0 {
      if s[..1] == [c] {
        assert s[0] == c;
        SplitFromLength(s[1..], c, "");
      } else {
        assert s[0] != c;
        SplitFromLength(s[1..], c, cur + [s[0]]);
      }
    }
  }

  /** Dropping trailing empty segments does not change the total length. */
  lemma {:induction false} DropTrailingEmptyLength(segs: seq<string>)
    ensures TotalLength(DropTrailingEmpty(segs)) == TotalLength(segs)
    decreases |segs|
  {
    if segs != [] && segs[|segs| - 1] == "" {
      var init := segs[..|segs| - 1];
      DropTrailingEmptyLength(init);
      TotalLengthAppend(init, [""]);
      assert init + [""] == segs;
    }
  }

  lemma {:induction false} TotalLengthAppend(a: seq<string>, b: seq<string>)
    ensures TotalLength(a + b) == TotalLength(a) + TotalLength(b)
    decreases |a|
  {
    if a != [] {
      TotalLengthAppend(a[1..], b);
      assert (a + b)[1..] == a[1..] + b;
    } else {
      assert a + b == b;
    }
  }
}
