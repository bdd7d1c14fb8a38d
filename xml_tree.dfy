/**
 * The parsed MuseScore document as an ElementTree-style labelled tree, and the
 * handful of ElementTree queries and edits the part engine relies on:
 * `iter()` (document order), `find`/`findall` with a tag or a `[@id='v']`
 * predicate, the `..` parent step, and `remove`.
 *
 * An element's `uid` stands for its object identity: Python compares elements
 * with `is`/`==`, which for ElementTree elements is identity, and a parsed
 * tree never shares an element between two places.
 */
module XmlTree {
  import opened Wrappers

  datatype Element = Element(
    uid: nat,
    tag: string,
    attrib: map<string, string>,
    text: Option<string>,
    children: seq<Element>)

  /** A position in a tree: child indices from the root. */
  type Path = seq<nat>

  /** The element tests used by the engine's ElementTree paths. */
  datatype Query =
    | Tag(tag: string)                   // `T`
    | TagWithId(tag: string, id: string) // `T[@id='v']`
    | Identity(uid: nat)                 // `x is e`

  predicate Matches(q: Query, e: Element) {
    match q
    case Tag(t) => e.tag == t
    case TagWithId(t, v) => e.tag == t && "id" in e.attrib && e.attrib["id"] == v
    case Identity(u) => e.uid == u
  }

  /** The `[T]` predicate: e has a child tagged t. */
  predicate HasChildTagged(e: Element, t: string) {
    exists c :: c in e.children && c.tag == t
  }

  /** `e.get(name)` */
  function Attr(e: Element, name: string): Option<string> {
    if name in e.attrib then Some(e.attrib[name]) else None
  }

  // ---------------------------------------------------------------------------
  // Document order

  /** `e.iter()`: e itself, then every descendant in document (pre-)order. */
  function Iter(e: Element): seq<Element>
    decreases e
  {
    [e] + IterAll(e.children)
  }

  function IterAll(cs: seq<Element>): seq<Element>
    decreases cs
  {
    if cs == [] then [] else Iter(cs[0]) + IterAll(cs[1..])
  }

  /** What `.//` ranges over: every descendant of e, e excluded. */
  function Descendants(e: Element): seq<Element> {
    IterAll(e.children)
  }

  /** The identities of a sequence of elements, in order. */
  function Uids(s: seq<Element>): (r: seq<nat>)
    ensures |r| == |s|
  {
    if s == [] then [] else [s[0].uid] + Uids(s[1..])
  }

  /** What removal keeps track of: an element's identity and its tag. */
  datatype Key = Key(uid: nat, tag: string)

  function KeyOf(e: Element): Key {
    Key(e.uid, e.tag)
  }

  function Keys(s: seq<Element>): (r: seq<Key>)
    ensures |r| == |s|
  {
    if s == [] then [] else [KeyOf(s[0])] + Keys(s[1..])
  }

  /** The number of elements of s that satisfy q. */
  function Count(s: seq<Element>, q: Query): nat {
    if s == [] then 0 else (if Matches(q, s[0]) then 1 else 0) + Count(s[1..], q)
  }

  /** The first position of s whose element satisfies q. */
  function FirstIndex(s: seq<Element>, q: Query): (r: Option<nat>)
    ensures r.Some? ==> r.value < |s| && Matches(q, s[r.value])
    ensures r.Some? ==> forall j :: 0 <= j < r.value ==> !Matches(q, s[j])
    ensures r.None? ==> forall j :: 0 <= j < |s| ==> !Matches(q, s[j])
  {
    if s == [] then None
    else if Matches(q, s[0]) then Some(0)
    else match FirstIndex(s[1..], q)
      case None => None
      case Some(i) => Some(i + 1)
  }

  /** a is obtained from b by deleting elements (order is kept). */
  predicate IsSubsequence(a: seq<Element>, b: seq<Element>)
    decreases |b|
  {
    if a == [] then true
    else if b == [] then false
    else if a[0] == b[0] then IsSubsequence(a[1..], b[1..])
    else IsSubsequence(a, b[1..])
  }

  /** `findall`: the elements of s that satisfy q, in order. */
  function FindAll(s: seq<Element>, q: Query): (r: seq<Element>)
    ensures |r| == Count(s, q)
    ensures forall x :: x in r <==> x in s && Matches(q, x)
    ensures IsSubsequence(r, s)
  {
    if s == [] then []
    else if Matches(q, s[0]) then
      var r := [s[0]] + FindAll(s[1..], q);
      assert r[1..] == FindAll(s[1..], q);
      r
    else
      var r := FindAll(s[1..], q);
      assert r != [] ==> r[0] in r && r[0] != s[0];
      r
  }

  /** `e.find(T)`: the first direct child satisfying q, if any. */
  function Child(e: Element, q: Query): (r: Option<Element>)
    ensures r.Some? ==> r.value in e.children && Matches(q, r.value)
    ensures r.None? ==> forall c :: c in e.children ==> !Matches(q, c)
  {
    match FirstIndex(e.children, q)
    case None => None
    case Some(i) => Some(e.children[i])
  }

  lemma {:induction false} IterAllAppend(a: seq<Element>, b: seq<Element>)
    ensures IterAll(a + b) == IterAll(a) + IterAll(b)
    decreases a
  {
    if a != [] {
      assert (a + b)[1..] == a[1..] + b;
      IterAllAppend(a[1..], b);
    } else {
      assert a + b == b;
    }
  }

  /** The descendants of a child list split around child i. */
  lemma {:induction false} IterAllSplit(cs: seq<Element>, i: nat)
    requires i < |cs|
    ensures IterAll(cs) == IterAll(cs[..i]) + Iter(cs[i]) + IterAll(cs[i + 1..])
  {
    var rest := [cs[i]] + cs[i + 1..];
    assert cs == cs[..i] + rest;
    IterAllAppend(cs[..i], rest);
    assert rest[0] == cs[i] && rest[1..] == cs[i + 1..];
    assert IterAll(rest) == Iter(cs[i]) + IterAll(cs[i + 1..]);
  }

  /** The keys of `e.iter()` split around child i. */
  lemma {:induction false} KeysSplit(e: Element, i: nat)
    requires i < |e.children|
    ensures Keys(Iter(e))
      == Keys([e] + IterAll(e.children[..i])) + Keys(Iter(e.children[i])) + Keys(IterAll(e.children[i + 1..]))
  {
    var cs := e.children;
    var a, b := IterAll(cs[..i]), IterAll(cs[i + 1..]);
    calc {
      Keys(Iter(e));
    == { IterAllSplit(cs, i); assert Iter(e) == ([e] + a) + Iter(cs[i]) + b; }
      Keys(([e] + a) + Iter(cs[i]) + b);
    == { KeysAppend(([e] + a) + Iter(cs[i]), b); }
      Keys(([e] + a) + Iter(cs[i])) + Keys(b);
    == { KeysAppend([e] + a, Iter(cs[i])); }
      Keys([e] + a) + Keys(Iter(cs[i])) + Keys(b);
    }
  }

  /** s without its block of n elements starting at k. */
  function Cut<T>(s: seq<T>, k: nat, n: nat): (r: seq<T>)
    requires k + n <= |s|
    ensures |r| == |s| - n
  {
    s[..k] + s[k + n..]
  }

  /** Cutting a block out of the middle part of x + u + y. */
  lemma {:induction false} CutBlock<T>(x: seq<T>, u: seq<T>, y: seq<T>, k: nat, n: nat)
    requires k + n <= |u|
    ensures |x| + k + n <= |x + u + y|
    ensures Cut(x + u + y, |x| + k, n) == x + Cut(u, k, n) + y
  {
    var w := x + u + y;
    assert w[..|x| + k] == x + u[..k];
    assert w[|x| + k + n..] == u[k + n..] + y;
  }

  lemma {:induction false} CountAppend(a: seq<Element>, b: seq<Element>, q: Query)
    ensures Count(a + b, q) == Count(a, q) + Count(b, q)
    decreases a
  {
    if a != [] {
      assert (a + b)[1..] == a[1..] + b;
      CountAppend(a[1..], b, q);
    } else {
      assert a + b == b;
    }
  }

  /** One step of `findall`: the head is kept exactly when it matches. */
  lemma {:induction false} FindAllCons(x: Element, s: seq<Element>, q: Query)
    ensures FindAll([x] + s, q) == (if Matches(q, x) then [x] else []) + FindAll(s, q)
  {
    assert ([x] + s)[0] == x && ([x] + s)[1..] == s;
  }

  /** A non-empty sequence and its concatenations, split at the head. */
  lemma {:induction false} ConsAppend<T>(a: seq<T>, b: seq<T>)
    requires a != []
    ensures a == [a[0]] + a[1..] && a + b == [a[0]] + (a[1..] + b)
  {
  }

  lemma {:induction false} AppendAssoc<T>(a: seq<T>, b: seq<T>, c: seq<T>)
    ensures a + (b + c) == (a + b) + c
  {
  }

  lemma {:induction false} FindAllAppend(a: seq<Element>, b: seq<Element>, q: Query)
    ensures FindAll(a + b, q) == FindAll(a, q) + FindAll(b, q)
    decreases a
  {
    if a != [] {
      var x, t := a[0], a[1..];
      var h := if Matches(q, x) then [x] else [];
      FindAllAppend(t, b, q);
      assert FindAll(a + b, q) == h + FindAll(t + b, q) by {
        ConsAppend(a, b);
        FindAllCons(x, t + b, q);
      }
      assert FindAll(a, q) == h + FindAll(t, q) by {
        ConsAppend(a, b);
        FindAllCons(x, t, q);
      }
      AppendAssoc(h, FindAll(t, q), FindAll(b, q));
    } else {
      assert a + b == b;
    }
  }

  // ---------------------------------------------------------------------------
  // Paths

  predicate ValidPath(e: Element, p: Path)
    decreases p
  {
    p == [] || (p[0] < |e.children| && ValidPath(e.children[p[0]], p[1..]))
  }

  /** The element at path p. */
  function At(e: Element, p: Path): Element
    requires ValidPath(e, p)
    decreases p
  {
    if p == [] then e else At(e.children[p[0]], p[1..])
  }

  /** The position of At(e, p) in `e.iter()`. */
  function PreIndex(e: Element, p: Path): nat
    requires ValidPath(e, p)
    decreases p
  {
    if p == [] then 0
    else 1 + |IterAll(e.children[..p[0]])| + PreIndex(e.children[p[0]], p[1..])
  }

  /** e with the element at p replaced by n. */
  function ReplaceAt(e: Element, p: Path, n: Element): Element
    requires ValidPath(e, p)
    decreases p
  {
    if p == [] then n
    else e.(children := e.children[p[0] := ReplaceAt(e.children[p[0]], p[1..], n)])
  }

  /** e with the element at p (not the root) removed from its parent. */
  function RemoveAt(e: Element, p: Path): Element
    requires ValidPath(e, p) && p != []
    decreases p
  {
    if |p| == 1 then e.(children := e.children[..p[0]] + e.children[p[0] + 1..])
    else e.(children := e.children[p[0] := RemoveAt(e.children[p[0]], p[1..])])
  }

  lemma {:induction false} PrefixValid(e: Element, p: Path, n: nat)
    requires ValidPath(e, p) && n <= |p|
    ensures ValidPath(e, p[..n])
    decreases p
  {
    if n > 0 {
      assert p[..n][1..] == p[1..][..n - 1];
      PrefixValid(e.children[p[0]], p[1..], n - 1);
    }
  }

  lemma {:induction false} ExtendValid(e: Element, p: Path, i: nat)
    requires ValidPath(e, p) && i < |At(e, p).children|
    ensures ValidPath(e, p + [i]) && At(e, p + [i]) == At(e, p).children[i]
    decreases p
  {
    if p == [] {
      assert p + [i] == [i];
      assert [i][1..] == [];
    } else {
      assert (p + [i])[1..] == p[1..] + [i];
      ExtendValid(e.children[p[0]], p[1..], i);
    }
  }

  /** Finds which child block of cs[i..] holds position k of `IterAll(cs[i..])`. */
  function Locate(cs: seq<Element>, i: nat, k: nat): (r: (nat, nat))
    requires i <= |cs| && k < |IterAll(cs[i..])|
    ensures i <= r.0 < |cs| && r.1 < |Iter(cs[r.0])|
    ensures k == |IterAll(cs[i..r.0])| + r.1
    decreases |cs| - i
  {
    assert cs[i..] != [];
    assert cs[i..][1..] == cs[i + 1..];
    if k < |Iter(cs[i])| then
      assert cs[i..i] == [];
      (i, k)
    else
      var r := Locate(cs, i + 1, k - |Iter(cs[i])|);
      assert cs[i..r.0] == [cs[i]] + cs[i + 1..r.0];
      assert cs[i..r.0][1..] == cs[i + 1..r.0];
      r
  }

  /** The path of the k-th element of `e.iter()`. */
  function PathOf(e: Element, k: nat): Path
    requires k < |Iter(e)|
    decreases e
  {
    if k == 0 then []
    else
      assert k - 1 < |IterAll(e.children[0..])| by { assert e.children[0..] == e.children; }
      var r := Locate(e.children, 0, k - 1);
      [r.0] + PathOf(e.children[r.0], r.1)
  }

  lemma {:induction false} PathOfCorrect(e: Element, k: nat)
    requires k < |Iter(e)|
    ensures ValidPath(e, PathOf(e, k))
    ensures PreIndex(e, PathOf(e, k)) == k
    ensures At(e, PathOf(e, k)) == Iter(e)[k]
    decreases e
  {
    if k > 0 {
      var cs := e.children;
      assert cs[0..] == cs;
      var r := Locate(cs, 0, k - 1);
      var j, k' := r.0, r.1;
      assert cs[0..j] == cs[..j];
      PathOfCorrect(cs[j], k');
      var p := PathOf(e, k);
      assert p == [j] + PathOf(cs[j], k');
      assert p[0] == j && p[1..] == PathOf(cs[j], k');
      IterAllSplit(cs, j);
      IndexInside(e, IterAll(cs[..j]), Iter(cs[j]), IterAll(cs[j + 1..]), k');
    }
  }

  /** Position k of u is found in [h] + (a + u + y) 1 + |a| places further on. */
  lemma {:induction false} IndexInside<T>(h: T, a: seq<T>, u: seq<T>, y: seq<T>, k: nat)
    requires k < |u|
    ensures 1 + |a| + k < |[h] + (a + u + y)|
    ensures ([h] + (a + u + y))[1 + |a| + k] == u[k]
  {
  }

  /** The subtree at p occupies a contiguous block of `e.iter()` starting at PreIndex(e, p). */
  lemma {:induction false} SubtreeBlock(e: Element, p: Path)
    requires ValidPath(e, p)
    ensures PreIndex(e, p) + |Iter(At(e, p))| <= |Iter(e)|
    ensures Iter(e)[PreIndex(e, p)..PreIndex(e, p) + |Iter(At(e, p))|] == Iter(At(e, p))
    decreases p
  {
    if p != [] {
      var cs, i := e.children, p[0];
      SubtreeBlock(cs[i], p[1..]);
      IterAllSplit(cs, i);
      SliceInside(Iter(e), e, IterAll(cs[..i]), Iter(cs[i]), IterAll(cs[i + 1..]),
        PreIndex(cs[i], p[1..]), |Iter(At(cs[i], p[1..]))|, PreIndex(e, p), |Iter(At(e, p))|);
    }
  }

  /** A block of u is found in [h] + (a + u + y) 1 + |a| places further on. */
  lemma {:induction false} SliceInside<T>(w: seq<T>, h: T, a: seq<T>, u: seq<T>, y: seq<T>, k: nat, n: nat, at: nat, len: nat)
    requires w == [h] + (a + u + y) && k + n <= |u| && at == 1 + |a| + k && len == n
    ensures at + len <= |w| && w[at..at + len] == u[k..k + n]
  {
  }

  /**
   * Removing the element at p takes exactly its subtree out of document order:
   * every other element keeps its identity, its tag and its relative order.
   */
  lemma {:induction false} RemoveAtKeys(e: Element, p: Path)
    requires ValidPath(e, p) && p != []
    ensures PreIndex(e, p) + |Iter(At(e, p))| <= |Iter(e)|
    ensures Keys(Iter(RemoveAt(e, p))) == Cut(Keys(Iter(e)), PreIndex(e, p), |Iter(At(e, p))|)
    decreases p, 1
  {
    var cs, i := e.children, p[0];
    RemoveAtFrame(e, p);
    RemoveAtInside(e, p);
    CutInside(Keys(Iter(e)), Keys(Iter(RemoveAt(e, p))),
      Keys([e] + IterAll(cs[..i])), Keys(Iter(cs[i])), Keys(IterAll(cs[i + 1..])),
      PreIndex(cs[i], p[1..]), |Iter(At(cs[i], p[1..]))|, PreIndex(e, p), |Iter(At(e, p))|);
  }

  /** Cutting a block out of u in w == x + u + y cuts it out of w, |x| further on. */
  lemma {:induction false} CutInside<T>(w: seq<T>, r: seq<T>, x: seq<T>, u: seq<T>, y: seq<T>, k: nat, n: nat, at: nat, len: nat)
    requires w == x + u + y && k + n <= |u| && at == |x| + k && len == n
    requires r == x + Cut(u, k, n) + y
    ensures at + len <= |w| && r == Cut(w, at, len)
  {
    CutBlock(x, u, y, k, n);
  }

  /** Removing at p cuts the block out of the keys of child p[0] and keeps the rest. */
  lemma {:induction false} RemoveAtInside(e: Element, p: Path)
    requires ValidPath(e, p) && p != []
    requires PreIndex(e.children[p[0]], p[1..]) + |Iter(At(e.children[p[0]], p[1..]))| <= |Iter(e.children[p[0]])|
    ensures Keys(Iter(RemoveAt(e, p)))
      == Keys([e] + IterAll(e.children[..p[0]]))
       + Cut(Keys(Iter(e.children[p[0]])), PreIndex(e.children[p[0]], p[1..]), |Iter(At(e.children[p[0]], p[1..]))|)
       + Keys(IterAll(e.children[p[0] + 1..]))
    decreases p, 0
  {
    var cs, i := e.children, p[0];
    if |p| == 1 {
      RemoveChildKeys(e, i);
      var u := Keys(Iter(cs[i]));
      assert Cut(u, 0, |u|) == [];
    } else {
      RemoveBelowKeys(e, p);
      RemoveAtKeys(cs[i], p[1..]);
    }
  }

  /** Where the block removed at p lies: inside child p[0], after e and the subtrees before it. */
  lemma {:induction false} RemoveAtFrame(e: Element, p: Path)
    requires ValidPath(e, p) && p != []
    ensures Keys(Iter(e)) == Keys([e] + IterAll(e.children[..p[0]])) + Keys(Iter(e.children[p[0]]))
      + Keys(IterAll(e.children[p[0] + 1..]))
    ensures PreIndex(e, p) == |Keys([e] + IterAll(e.children[..p[0]]))| + PreIndex(e.children[p[0]], p[1..])
    ensures |Iter(At(e, p))| == |Iter(At(e.children[p[0]], p[1..]))|
    ensures PreIndex(e.children[p[0]], p[1..]) + |Iter(At(e.children[p[0]], p[1..]))| <= |Iter(e.children[p[0]])|
  {
    KeysSplit(e, p[0]);
    SubtreeBlock(e.children[p[0]], p[1..]);
  }

  lemma {:induction false} RemoveChildKeys(e: Element, i: nat)
    requires i < |e.children|
    ensures Keys(Iter(RemoveAt(e, [i])))
      == Keys([e] + IterAll(e.children[..i])) + Keys(IterAll(e.children[i + 1..]))
  {
    var e' := RemoveAt(e, [i]);
    var a, b := IterAll(e.children[..i]), IterAll(e.children[i + 1..]);
    calc {
      Keys(Iter(e'));
    == { RemoveChildIter(e, i); }
      Keys([e'] + a + b);
    == { KeysAppend([e'] + a, b); }
      Keys([e'] + a) + Keys(b);
    == { SameRootKeys(e, e', a); }
      Keys([e] + a) + Keys(b);
    }
  }

  /** Removing child i of e leaves e itself, then the subtrees before i, then those after. */
  lemma {:induction false} RemoveChildIter(e: Element, i: nat)
    requires i < |e.children|
    ensures Iter(RemoveAt(e, [i])) == [RemoveAt(e, [i])] + IterAll(e.children[..i]) + IterAll(e.children[i + 1..])
  {
    var cs, e' := e.children, RemoveAt(e, [i]);
    assert e'.children == cs[..i] + cs[i + 1..];
    IterAllAppend(cs[..i], cs[i + 1..]);
  }

  /** Keys see only the first element's identity and tag. */
  lemma {:induction false} SameRootKeys(e: Element, e': Element, a: seq<Element>)
    requires e'.uid == e.uid && e'.tag == e.tag
    ensures Keys([e'] + a) == Keys([e] + a)
  {
    assert ([e'] + a)[1..] == a == ([e] + a)[1..];
  }

  lemma {:induction false} RemoveBelowKeys(e: Element, p: Path)
    requires ValidPath(e, p) && |p| > 1
    ensures Keys(Iter(RemoveAt(e, p)))
      == Keys([e] + IterAll(e.children[..p[0]]))
       + Keys(Iter(RemoveAt(e.children[p[0]], p[1..])))
       + Keys(IterAll(e.children[p[0] + 1..]))
  {
    var cs, i := e.children, p[0];
    var e' := RemoveAt(e, p);
    var c' := RemoveAt(cs[i], p[1..]);
    assert e'.children == cs[i := c'];
    assert e'.children[..i] == cs[..i] && e'.children[i + 1..] == cs[i + 1..];
    KeysSplit(e', i);
    assert Keys([e'] + IterAll(cs[..i])) == Keys([e] + IterAll(cs[..i]));
  }
  lemma {:induction false} UidsAppend(a: seq<Element>, b: seq<Element>)
    ensures Uids(a + b) == Uids(a) + Uids(b)
    decreases a
  {
    if a != [] {
      assert (a + b)[1..] == a[1..] + b;
      UidsAppend(a[1..], b);
    } else {
      assert a + b == b;
    }
  }

  lemma {:induction false} KeysAppend(a: seq<Element>, b: seq<Element>)
    ensures Keys(a + b) == Keys(a) + Keys(b)
    decreases a
  {
    if a != [] {
      assert (a + b)[1..] == a[1..] + b;
      KeysAppend(a[1..], b);
    } else {
      assert a + b == b;
    }
  }

  /** What an element carries apart from its children's contents. */
  datatype Label = Label(uid: nat, tag: string, attrib: map<string, string>, text: Option<string>, arity: nat)

  function LabelOf(e: Element): Label {
    Label(e.uid, e.tag, e.attrib, e.text, |e.children|)
  }

  function Labels(s: seq<Element>): (r: seq<Label>)
    ensures |r| == |s|
  {
    if s == [] then [] else [LabelOf(s[0])] + Labels(s[1..])
  }

  lemma {:induction false} LabelsAppend(a: seq<Element>, b: seq<Element>)
    ensures Labels(a + b) == Labels(a) + Labels(b)
    decreases a
  {
    if a != [] {
      assert (a + b)[1..] == a[1..] + b;
      LabelsAppend(a[1..], b);
    } else {
      assert a + b == b;
    }
  }

  lemma {:induction false} LabelsSplit(e: Element, i: nat)
    requires i < |e.children|
    ensures Labels(Iter(e))
      == Labels([e] + IterAll(e.children[..i])) + Labels(Iter(e.children[i])) + Labels(IterAll(e.children[i + 1..]))
  {
    var cs := e.children;
    var a, b := IterAll(cs[..i]), IterAll(cs[i + 1..]);
    calc {
      Labels(Iter(e));
    == { IterAllSplit(cs, i); assert Iter(e) == ([e] + a) + Iter(cs[i]) + b; }
      Labels(([e] + a) + Iter(cs[i]) + b);
    == { LabelsAppend(([e] + a) + Iter(cs[i]), b); }
      Labels(([e] + a) + Iter(cs[i])) + Labels(b);
    == { LabelsAppend([e] + a, Iter(cs[i])); }
      Labels([e] + a) + Labels(Iter(cs[i])) + Labels(b);
    }
  }

  /** Replacing one child keeps the parent's label and its other children. */
  lemma {:induction false} ReplaceChildLabels(e: Element, i: nat, n: Element)
    requires i < |e.children|
    ensures Labels(Iter(e.(children := e.children[i := n])))
      == Labels([e] + IterAll(e.children[..i])) + Labels(Iter(n)) + Labels(IterAll(e.children[i + 1..]))
  {
    var e' := e.(children := e.children[i := n]);
    assert e'.children[..i] == e.children[..i] && e'.children[i + 1..] == e.children[i + 1..];
    LabelsSplit(e', i);
    assert LabelOf(e') == LabelOf(e);
    assert Labels([e'] + IterAll(e.children[..i])) == Labels([e] + IterAll(e.children[..i]));
  }

  /** s with its block of m elements starting at k replaced by z. */
  function Splice<T>(s: seq<T>, k: nat, m: nat, z: seq<T>): (r: seq<T>)
    requires k + m <= |s|
    ensures |r| == |s| - m + |z|
  {
    s[..k] + z + s[k + m..]
  }

  /** Replacing the subtree at p changes document order only inside that subtree's block. */
  lemma {:induction false} ReplaceAtLabels(e: Element, p: Path, n: Element)
    requires ValidPath(e, p)
    ensures PreIndex(e, p) + |Iter(At(e, p))| <= |Iter(e)|
    ensures Labels(Iter(ReplaceAt(e, p, n)))
      == Splice(Labels(Iter(e)), PreIndex(e, p), |Iter(At(e, p))|, Labels(Iter(n)))
    decreases p, 1
  {
    if p == [] {
      SpliceWhole(Labels(Iter(e)), Labels(Iter(n)));
    } else {
      LabelsFrame(e, p);
      ReplaceAtInside(e, p, n);
      SpliceInside(Labels(Iter(e)), Labels(Iter(ReplaceAt(e, p, n))),
        Labels([e] + IterAll(e.children[..p[0]])), Labels(Iter(e.children[p[0]])),
        Labels(IterAll(e.children[p[0] + 1..])), Labels(Iter(n)),
        PreIndex(e.children[p[0]], p[1..]), |Iter(At(e.children[p[0]], p[1..]))|, PreIndex(e, p), |Iter(At(e, p))|);
    }
  }

  /** Where the block at p lies in the labels of `e.iter()`: inside child p[0]. */
  lemma {:induction false} LabelsFrame(e: Element, p: Path)
    requires ValidPath(e, p) && p != []
    ensures Labels(Iter(e)) == Labels([e] + IterAll(e.children[..p[0]])) + Labels(Iter(e.children[p[0]]))
      + Labels(IterAll(e.children[p[0] + 1..]))
    ensures PreIndex(e, p) == |Labels([e] + IterAll(e.children[..p[0]]))| + PreIndex(e.children[p[0]], p[1..])
    ensures |Iter(At(e, p))| == |Iter(At(e.children[p[0]], p[1..]))|
  {
    LabelsSplit(e, p[0]);
  }

  /** Replacing at p splices n into the labels of child p[0] and keeps the rest. */
  lemma {:induction false} ReplaceAtInside(e: Element, p: Path, n: Element)
    requires ValidPath(e, p) && p != []
    ensures PreIndex(e.children[p[0]], p[1..]) + |Iter(At(e.children[p[0]], p[1..]))| <= |Iter(e.children[p[0]])|
    ensures Labels(Iter(ReplaceAt(e, p, n)))
      == Labels([e] + IterAll(e.children[..p[0]]))
       + Splice(Labels(Iter(e.children[p[0]])), PreIndex(e.children[p[0]], p[1..]),
                |Iter(At(e.children[p[0]], p[1..]))|, Labels(Iter(n)))
       + Labels(IterAll(e.children[p[0] + 1..]))
    decreases p, 0
  {
    var cs, i := e.children, p[0];
    ReplaceAtLabels(cs[i], p[1..], n);
    ReplaceChildLabels(e, i, ReplaceAt(cs[i], p[1..], n));
  }

  /** Splicing z over the whole of w gives z. */
  lemma {:induction false} SpliceWhole<T>(w: seq<T>, z: seq<T>)
    ensures Splice(w, 0, |w|, z) == z
  {
    assert w[..0] == [] && w[|w|..] == [];
  }

  /** Splicing z over a block of u in w == x + u + y splices it over w, |x| further on. */
  lemma {:induction false} SpliceInside<T>(w: seq<T>, r: seq<T>, x: seq<T>, u: seq<T>, y: seq<T>, z: seq<T>,
                        k: nat, m: nat, at: nat, len: nat)
    requires w == x + u + y && k + m <= |u| && at == |x| + k && len == m
    requires r == x + Splice(u, k, m, z) + y
    ensures at + len <= |w| && r == Splice(w, at, len, z)
  {
    assert w[..|x| + k] == x + u[..k];
    assert w[|x| + k + m..] == u[k + m..] + y;
  }

  // ---------------------------------------------------------------------------
  // Searches in document order

  /**
   * `e.find('.//Q')`, as a path: the first descendant of e, in document order,
   * that satisfies q.
   */
  function FirstDescendant(e: Element, q: Query): (r: Option<Path>)
    ensures r.Some? ==> ValidPath(e, r.value) && r.value != [] && Matches(q, At(e, r.value))
    ensures r.Some? ==> PreIndex(e, r.value) < |Iter(e)| && Iter(e)[PreIndex(e, r.value)] == At(e, r.value)
    ensures r.Some? ==> forall j :: 1 <= j < PreIndex(e, r.value) ==> !Matches(q, Iter(e)[j])
    ensures r.None? ==> forall x :: x in Descendants(e) ==> !Matches(q, x)
  {
    match FirstIndex(Descendants(e), q)
    case None => None
    case Some(k) =>
      PathOfCorrect(e, k + 1);
      assert forall j :: 1 <= j < k + 1 ==> Iter(e)[j] == Descendants(e)[j - 1];
      Some(PathOf(e, k + 1))
  }
}
