/**
 * Listing the "folders" of a bucket level (`getSubpaths`): the objects whose
 * keys start with a prefix, reduced to the key segment at the prefix's depth,
 * without duplicates, in JavaScript's default sort order.
 */
module S3Subpaths {
  import opened Wrappers
  import opened Strings

  /** An entry of a listing's `Contents`; the SDK types its key as optional. */
  datatype S3Object = S3Object(key: Option<string>)

  /** `getObjects`: a response without `Contents` lists nothing. */
  function Objects(contents: Option<seq<S3Object>>): (r: seq<S3Object>)
    ensures contents.None? ==> r == []
    ensures contents.Some? ==> r == contents.value
  {
    match contents
    case None => []
    case Some(os) => os
  }

  /** `prefix ? prefix.split('/').length - 1 : 0`: the depth of the level below the prefix. */
  function Level(prefix: Option<string>): (r: nat)
    ensures prefix.None? || prefix.value == [] ==> r == 0
    ensures prefix.Some? ==> r == Occurrences(prefix.value, '/')
  {
    match prefix
    case None => 0
    case Some(p) =>
      SplitCount(p, '/');
      if p == [] then 0 else |Split(p, '/')| - 1
  }

  /** `(object.Key || '').split('/')[level]`; None stands for `undefined`, read past the last segment. */
  function Segment(o: S3Object, level: nat): (r: Option<string>)
  {
    var key := if o.key.Some? then o.key.value else "";
    var parts := Split(key, '/');
    if level < |parts| then Some(parts[level]) else None
  }

  lemma {:induction false} SegmentShape(o: S3Object, level: nat)
    ensures Segment(o, level).Some? ==> '/' !in Segment(o, level).value
    ensures Segment(o, level).None? <==> level > Occurrences(if o.key.Some? then o.key.value else "", '/')
  {
    SplitCount(if o.key.Some? then o.key.value else "", '/');
  }

  // ---------------------------------------------------------------------------
  // new Set(...): duplicates dropped, first occurrences kept in order

  function Dedup(s: seq<Option<string>>): (r: seq<Option<string>>)
    ensures forall x :: x in r <==> x in s
    ensures forall i, j :: 0 <= i < j < |r| ==> r[i] != r[j]
    ensures |r| <= |s|
    decreases |s|
  {
    if s == [] then []
    else
      var d := Dedup(s[..|s| - 1]);
      assert forall x :: x in s <==> x in s[..|s| - 1] || x == s[|s| - 1];
      if s[|s| - 1] in d then d else d + [s[|s| - 1]]
  }

  // ---------------------------------------------------------------------------
  // Array.prototype.sort with no comparator

  /** The strict order the default sort uses on texts: code by code, a proper prefix first. */
  predicate Below(a: string, b: string)
    decreases |a|
  {
    if a == [] then b != []
    else if b == [] then false
    else if a[0] == b[0] then Below(a[1..], b[1..])
    else a[0] < b[0]
  }

  lemma {:induction false} BelowIrreflexive(a: string)
    ensures !Below(a, a)
    decreases |a|
  {
    if a != [] {
      BelowIrreflexive(a[1..]);
    }
  }

  lemma {:induction false} BelowTransitive(a: string, b: string, c: string)
    requires Below(a, b) && Below(b, c)
    ensures Below(a, c)
    decreases |a|
  {
    if a != [] && b != [] && c != [] && a[0] == b[0] && b[0] == c[0] {
      BelowTransitive(a[1..], b[1..], c[1..]);
    }
  }

  lemma {:induction false} BelowTotal(a: string, b: string)
    ensures a == b || Below(a, b) || Below(b, a)
    decreases |a|
  {
    if a != [] && b != [] && a[0] == b[0] {
      BelowTotal(a[1..], b[1..]);
      if a[1..] == b[1..] {
        assert a == [a[0]] + a[1..] && b == [b[0]] + b[1..];
      }
    }
  }

  /** No text comes below one before it. */
  predicate Sorted(s: seq<string>) {
    forall i, j :: 0 <= i < j < |s| ==> !Below(s[j], s[i])
  }

  /** Putting x behind a head h below it keeps a sorted tail sorted. */
  lemma {:induction false} InsertBehindSorted(h: string, tail: seq<string>, x: string, t: seq<string>)
    requires Below(h, x) && multiset(t) == multiset(tail) + multiset{x}
    requires Sorted(tail) ==> Sorted(t)
    ensures Sorted([h] + tail) ==> Sorted([h] + t)
  {
    var s, r := [h] + tail, [h] + t;
    if Sorted(s) {
      assert tail == s[1..];
      assert Sorted(tail);
      forall i, j | 0 <= i < j < |r|
        ensures !Below(r[j], r[i])
      {
        if i > 0 {
          assert r[i] == t[i - 1] && r[j] == t[j - 1];
        } else {
          assert r[j] == t[j - 1] && t[j - 1] in multiset(t);
          if r[j] == x {
            BelowIrreflexive(x);
            if Below(x, h) {
              BelowTransitive(x, h, x);
            }
          } else {
            assert r[j] in multiset(tail);
            assert r[j] in tail;
            var k :| 0 <= k < |tail| && tail[k] == r[j];
            assert s[k + 1] == r[j];
          }
        }
      }
    }
  }

  /** Putting x in front of a sorted s whose head is not below x keeps it sorted. */
  lemma {:induction false} InsertFrontSorted(x: string, s: seq<string>)
    requires s != [] && !Below(s[0], x)
    ensures Sorted(s) ==> Sorted([x] + s)
  {
    var r := [x] + s;
    if Sorted(s) {
      forall i, j | 0 <= i < j < |r|
        ensures !Below(r[j], r[i])
      {
        if i > 0 {
          assert r[i] == s[i - 1] && r[j] == s[j - 1];
        } else if Below(r[j], x) {
          assert r[j] == s[j - 1];
          BelowTotal(s[0], x);
          if j > 1 {
            assert !Below(s[j - 1], s[0]);
            BelowTotal(s[j - 1], s[0]);
            if Below(s[0], s[j - 1]) {
              BelowTransitive(s[0], s[j - 1], x);
            }
          }
        }
      }
    }
  }

  /** x put in front of the first element of s that x is not above. */
  function Insert(x: string, s: seq<string>): (r: seq<string>)
    ensures multiset(r) == multiset(s) + multiset{x}
    ensures Sorted(s) ==> Sorted(r)
    decreases |s|
  {
    if s == [] then [x]
    else if Below(s[0], x) then
      var t := Insert(x, s[1..]);
      assert s == [s[0]] + s[1..];
      InsertBehindSorted(s[0], s[1..], x, t);
      [s[0]] + t
    else
      InsertFrontSorted(x, s);
      [x] + s
  }

  /** The sort's result on texts: the same texts, each as often, in order. */
  function SortStrings(s: seq<string>): (r: seq<string>)
    ensures multiset(r) == multiset(s)
    ensures Sorted(r)
    decreases |s|
  {
    if s == [] then []
    else
      assert s == [s[0]] + s[1..];
      Insert(s[0], SortStrings(s[1..]))
  }

  /** The texts of s, in order, without the `undefined`s. */
  function Defined(s: seq<Option<string>>): (r: seq<string>)
    ensures forall x :: x in r <==> Some(x) in s
    decreases |s|
  {
    if s == [] then []
    else
      assert forall x :: Some(x) in s <==> Some(x) == s[0] || Some(x) in s[1..];
      (if s[0].Some? then [s[0].value] else []) + Defined(s[1..])
  }

  /** The texts as defined values. */
  function Somes(t: seq<string>): (r: seq<Option<string>>)
    ensures |r| == |t|
    ensures forall i :: 0 <= i < |t| ==> r[i] == Some(t[i])
  {
    seq(|t|, i requires 0 <= i < |t| => Some(t[i]))
  }

  /** `s.sort()`: the texts in order, then every `undefined` (only one is kept here, as s has no duplicates). */
  function JsSort(s: seq<Option<string>>): (r: seq<Option<string>>)
  {
    Somes(SortStrings(Defined(s))) + (if None in s then [None] else [])
  }

  /** `objects.map(...)`: the segment of every listed key at the given level, in listing order. */
  function Segments(objects: seq<S3Object>, level: nat): (r: seq<Option<string>>)
    ensures |r| == |objects|
  {
    seq(|objects|, i requires 0 <= i < |objects| => Segment(objects[i], level))
  }

  /** The segments are exactly the segments of the listed objects. */
  lemma {:induction false} SegmentsMembers(objects: seq<S3Object>, level: nat)
    ensures forall x :: x in Segments(objects, level) <==> exists o :: o in objects && Segment(o, level) == x
  {
    var segs := Segments(objects, level);
    forall x
      ensures x in segs <==> exists o :: o in objects && Segment(o, level) == x
    {
      if x in segs {
        var i :| 0 <= i < |segs| && segs[i] == x;
        assert objects[i] in objects;
      }
      if exists o :: o in objects && Segment(o, level) == x {
        var o :| o in objects && Segment(o, level) == x;
        var i :| 0 <= i < |objects| && objects[i] == o;
        assert segs[i] == x;
      }
    }
  }

  /**
   * `getSubpaths(s3, bucket, prefix)`, given the listing's `Contents`: the
   * distinct segments at the prefix's level, sorted.
   */
  function Subpaths(contents: Option<seq<S3Object>>, prefix: Option<string>): seq<Option<string>> {
    JsSort(Dedup(Segments(Objects(contents), Level(prefix))))
  }

  /** Sorting keeps exactly the values that were there. */
  lemma {:induction false} JsSortMembers(s: seq<Option<string>>)
    ensures forall x :: x in JsSort(s) <==> x in s
  {
    var sorted := SortStrings(Defined(s));
    var r := JsSort(s);
    forall x | x in r
      ensures x in s
    {
      var i :| 0 <= i < |r| && r[i] == x;
      if i < |sorted| {
        assert sorted[i] in multiset(sorted);
        assert sorted[i] in Defined(s);
      }
    }
    forall x | x in s
      ensures x in r
    {
      if x.Some? {
        assert x.value in Defined(s);
        assert x.value in multiset(sorted);
        var i :| 0 <= i < |sorted| && sorted[i] == x.value;
        assert r[i] == x;
      } else {
        assert r[|r| - 1] == None;
      }
    }
  }

  /** Each text is below every later one. */
  predicate Increasing(t: seq<string>) {
    forall i, j :: 0 <= i < j < |t| ==> Below(t[i], t[j])
  }

  /** Each value is a text below every later text, so `undefined` can only be last. */
  predicate Ascending(r: seq<Option<string>>) {
    forall i, j :: 0 <= i < j < |r| ==> r[i].Some? && (r[j].Some? ==> Below(r[i].value, r[j].value))
  }

  /** A sorted sequence in which no text occurs twice is strictly increasing. */
  lemma {:induction false} StrictlySorted(t: seq<string>)
    requires Sorted(t)
    requires forall x :: multiset(t)[x] <= 1
    ensures Increasing(t)
  {
    forall i, j | 0 <= i < j < |t|
      ensures Below(t[i], t[j])
    {
      if t[i] == t[j] {
        MultisetTwo(t, i, j);
        assert false;
      }
      BelowTotal(t[i], t[j]);
    }
  }

  /** Increasing texts, then possibly one `undefined`, are ascending. */
  lemma {:induction false} SomesAscending(t: seq<string>, undefinedLast: bool)
    requires Increasing(t)
    ensures Ascending(Somes(t) + (if undefinedLast then [None] else []))
  {
    var r := Somes(t) + (if undefinedLast then [None] else []);
    forall i, j | 0 <= i < j < |r|
      ensures r[i].Some? && (r[j].Some? ==> Below(r[i].value, r[j].value))
    {
      assert i < |t| && r[i] == Some(t[i]);
      if j < |t| {
        assert r[j] == Some(t[j]);
      } else {
        assert r[j] == None;
      }
    }
  }

  /** After sorting distinct values, each text is below every later value, and `undefined` can only be last. */
  lemma {:induction false} JsSortOrder(s: seq<Option<string>>)
    requires forall i, j :: 0 <= i < j < |s| ==> s[i] != s[j]
    ensures Ascending(JsSort(s))
  {
    var sorted := SortStrings(Defined(s));
    DefinedDistinct(s);
    StrictlySorted(sorted);
    SomesAscending(sorted, None in s);
  }

  lemma {:induction false} MultisetTwo(s: seq<string>, i: nat, j: nat)
    requires i < j < |s| && s[i] == s[j]
    ensures multiset(s)[s[i]] >= 2
  {
    assert s == s[..j] + [s[j]] + s[j + 1..];
    assert s[i] in s[..j];
    assert multiset(s) == multiset(s[..j]) + multiset{s[j]} + multiset(s[j + 1..]);
  }

  lemma {:induction false} DefinedDistinct(s: seq<Option<string>>)
    requires forall i, j :: 0 <= i < j < |s| ==> s[i] != s[j]
    ensures forall x :: multiset(Defined(s))[x] <= 1
    decreases |s|
  {
    if s != [] {
      DefinedDistinct(s[1..]);
      var head := if s[0].Some? then [s[0].value] else [];
      assert Defined(s) == head + Defined(s[1..]);
      if s[0].Some? {
        assert s[0] !in s[1..];
        assert s[0].value !in Defined(s[1..]);
      }
    }
  }

  /**
   * The folders of a level: every value is the segment at that level of some
   * listed key, every such segment is there, and the values are sorted
   * strictly (so without duplicates), with `undefined` only last.
   */
  lemma {:induction false} SubpathsSpec(contents: Option<seq<S3Object>>, prefix: Option<string>)
    ensures forall x :: (x in Subpaths(contents, prefix)
      <==> exists o :: o in Objects(contents) && Segment(o, Level(prefix)) == x)
    ensures Ascending(Subpaths(contents, prefix))
  {
    var segs := Segments(Objects(contents), Level(prefix));
    var d := Dedup(segs);
    assert Subpaths(contents, prefix) == JsSort(d);
    assert forall x :: x in JsSort(d) <==> x in d by {
      JsSortMembers(d);
    }
    JsSortOrder(d);
    SegmentsMembers(Objects(contents), Level(prefix));
  }
}
