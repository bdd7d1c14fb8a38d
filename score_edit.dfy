/**
 * The part engine's tree edits as functions from the score tree before the
 * edit to the tree after it: finding the staff that holds a part's measures,
 * silencing that staff, removing a part together with its staff, and
 * stripping `Harmony` elements.
 *
 * A Part is linked to its staff by id only: the Part holds a `Staff` child
 * whose `id` names the `Staff` (a child of `Score`) that holds the measures.
 */
module ScoreEdit {
  import opened Wrappers
  import opened XmlTree
  import opened PartNames

  // ---------------------------------------------------------------------------
  // Ids inside ElementTree paths

  /** An f-string renders a missing attribute as the text "None". */
  function IdText(v: Option<string>): string {
    match v
    case None => "None"
    case Some(s) => s
  }

  /** `[@id='v']` parses as an id test only when v holds no quote. */
  predicate Quotable(v: string) {
    '\'' !in v
  }

  /** `part.find("Staff").get("id")`, as the text put into a path. */
  function StaffIdOf(part: Element): (r: Result<string, ScoreError>)
    ensures r.Failure? <==> forall c :: c in part.children ==> c.tag != "Staff"
    ensures r.Failure? ==> r.error == NoStaffChild
  {
    match Child(part, Tag("Staff"))
    case None => Failure(NoStaffChild)
    case Some(staff) => Success(IdText(Attr(staff, "id")))
  }

  // ---------------------------------------------------------------------------
  // get_staff_element_with_measures

  /** Child b of child a of the root is a `Staff` with the given id, and child a is a `Score`. */
  predicate IsScoreStaff(root: Element, a: nat, b: nat, id: string) {
    a < |root.children| && root.children[a].tag == "Score"
    && b < |root.children[a].children| && Matches(TagWithId("Staff", id), root.children[a].children[b])
  }

  /** `./Score/Staff[@id='…']`, searching the root's children from the a-th on. */
  function ScoreStaffFrom(root: Element, id: string, a: nat): (r: Option<(nat, nat)>)
    requires a <= |root.children|
    ensures r.Some? ==> a <= r.value.0 && IsScoreStaff(root, r.value.0, r.value.1, id)
    ensures r.Some? ==> forall x, y :: (a <= x && IsScoreStaff(root, x, y, id)
      ==> r.value.0 < x || (r.value.0 == x && r.value.1 <= y))
    ensures r.None? ==> forall x, y :: a <= x ==> !IsScoreStaff(root, x, y, id)
    decreases |root.children| - a
  {
    if a == |root.children| then None
    else if root.children[a].tag != "Score" then ScoreStaffFrom(root, id, a + 1)
    else
      match FirstIndex(root.children[a].children, TagWithId("Staff", id))
      case Some(b) => Some((a, b))
      case None => ScoreStaffFrom(root, id, a + 1)
  }

  /**
   * `root.find("./Score/Staff[@id='…']")`: the first `Staff` child with that
   * id of a `Score` child of the root, in document order. Staffs deeper in
   * the tree, or under other children of the root, are never found.
   */
  function ScoreStaff(root: Element, id: string): (r: Option<Path>)
    ensures r.Some? ==> |r.value| == 2 && ValidPath(root, r.value) && IsScoreStaff(root, r.value[0], r.value[1], id)
    ensures r.Some? ==> At(root, r.value) == root.children[r.value[0]].children[r.value[1]]
    ensures r.Some? ==> forall x, y :: (IsScoreStaff(root, x, y, id)
      ==> r.value[0] < x || (r.value[0] == x && r.value[1] <= y))
    ensures r.None? ==> forall x, y :: !IsScoreStaff(root, x, y, id)
  {
    match ScoreStaffFrom(root, id, 0)
    case None => None
    case Some((a, b)) =>
      var p: Path := [a, b];
      assert p[1..] == [b] && p[1..][1..] == [];
      assert At(root, p) == At(root.children[a], [b]);
      assert At(root.children[a], [b]) == At(root.children[a].children[b], []);
      Some(p)
  }

  /**
   * `get_staff_element_with_measures`: the part's own `Staff` child names the
   * staff; a part without one raises, and so does an id with a quote.
   */
  function StaffOfPart(part: Element, root: Element): (r: Result<Option<Path>, ScoreError>)
    ensures r.Failure? ==> r.error == NoStaffChild || r.error == InvalidPredicate
    ensures r.Success? <==> StaffIdOf(part).Success? && Quotable(StaffIdOf(part).value)
    ensures r.Success? ==> r.value == ScoreStaff(root, StaffIdOf(part).value)
  {
    match StaffIdOf(part)
    case Failure(e) => Failure(e)
    case Success(id) =>
      if !Quotable(id) then Failure(InvalidPredicate) else Success(ScoreStaff(root, id))
  }

  // ---------------------------------------------------------------------------
  // silence_all_measures_of_part

  /** `*[durationType]`: an element that takes time (a chord, a rest, ...). */
  predicate Timed(e: Element) {
    HasChildTagged(e, "durationType")
  }

  /**
   * e and its descendants with every timed element retagged `Rest`. Which
   * elements are timed is decided on the tree before any retagging, as
   * `findall` collects them all before the loop renames them.
   */
  function SilenceNode(e: Element): Element
    decreases e
  {
    Element(e.uid, if Timed(e) then "Rest" else e.tag, e.attrib, e.text, SilenceEach(e.children))
  }

  function SilenceEach(cs: seq<Element>): (r: seq<Element>)
    ensures |r| == |cs|
    decreases cs
  {
    if cs == [] then [] else [SilenceNode(cs[0])] + SilenceEach(cs[1..])
  }

  /** A voice after its timed descendants are retagged: the voice itself keeps its tag. */
  function SilenceVoice(v: Element): Element {
    v.(children := SilenceEach(v.children))
  }

  /** A child of a measure: only lowercase `voice` children are silenced. */
  function SilenceInMeasure(c: Element): Element {
    if c.tag == "voice" then SilenceVoice(c) else c
  }

  function SilenceMeasure(m: Element): (r: Element)
    ensures |r.children| == |m.children|
  {
    m.(children := seq(|m.children|, i requires 0 <= i < |m.children| => SilenceInMeasure(m.children[i])))
  }

  /** A child of a staff: only `Measure` children are visited. */
  function SilenceInStaff(c: Element): Element {
    if c.tag == "Measure" then SilenceMeasure(c) else c
  }

  function SilenceStaff(s: Element): (r: Element)
    ensures |r.children| == |s.children|
  {
    s.(children := seq(|s.children|, i requires 0 <= i < |s.children| => SilenceInStaff(s.children[i])))
  }

  /** `silence_all_measures_of_part(part, root)`: the tree after the call, or the error it raises. */
  function SilencePart(root: Element, part: Element): (r: Result<Element, ScoreError>)
    ensures r.Failure? ==> r.error in {NoStaffChild, InvalidPredicate, StaffNotFound}
  {
    match StaffOfPart(part, root)
    case Failure(e) => Failure(e)
    case Success(None) => Failure(StaffNotFound)
    case Success(Some(p)) => Success(ReplaceAt(root, p, SilenceStaff(At(root, p))))
  }

  /** The label an element has after silencing. */
  function Silenced(e: Element): Label {
    LabelOf(e).(tag := if Timed(e) then "Rest" else e.tag)
  }

  function SilencedLabels(s: seq<Element>): (r: seq<Label>)
    ensures |r| == |s|
  {
    if s == [] then [] else [Silenced(s[0])] + SilencedLabels(s[1..])
  }

  lemma {:induction false} SilencedLabelsAppend(a: seq<Element>, b: seq<Element>)
    ensures SilencedLabels(a + b) == SilencedLabels(a) + SilencedLabels(b)
    decreases a
  {
    if a != [] {
      assert (a + b)[1..] == a[1..] + b;
      SilencedLabelsAppend(a[1..], b);
    } else {
      assert a + b == b;
    }
  }

  lemma {:induction false} SilenceNodeLabels(e: Element)
    ensures Labels(Iter(SilenceNode(e))) == SilencedLabels(Iter(e))
    decreases e, 1
  {
    SilenceEachLabels(e.children);
    var n := SilenceNode(e);
    LabelsAppend([n], IterAll(n.children));
    SilencedLabelsAppend([e], IterAll(e.children));
  }

  lemma {:induction false} SilenceEachLabels(cs: seq<Element>)
    ensures Labels(IterAll(SilenceEach(cs))) == SilencedLabels(IterAll(cs))
    decreases cs, 0
  {
    if cs != [] {
      var ss := SilenceEach(cs);
      assert ss[0] == SilenceNode(cs[0]) && ss[1..] == SilenceEach(cs[1..]);
      SilenceNodeLabels(cs[0]);
      SilenceEachLabels(cs[1..]);
      LabelsAppend(Iter(ss[0]), IterAll(ss[1..]));
      SilencedLabelsAppend(Iter(cs[0]), IterAll(cs[1..]));
    }
  }

  /**
   * Silencing a voice: in document order, the voice keeps its label and every
   * descendant keeps its identity, attributes, text and number of children,
   * and is tagged `Rest` exactly when it has a `durationType` child.
   */
  lemma {:induction false} SilenceVoiceLabels(v: Element)
    ensures Labels(Iter(SilenceVoice(v))) == [LabelOf(v)] + SilencedLabels(Descendants(v))
  {
    SilenceEachLabels(v.children);
    var w := SilenceVoice(v);
    LabelsAppend([w], IterAll(w.children));
  }

  /** b is a's document order with some timed elements retagged `Rest`, and nothing else changed. */
  predicate RetaggedOnly(a: seq<Element>, b: seq<Label>) {
    |a| == |b|
    && forall j :: 0 <= j < |a| ==> b[j] == LabelOf(a[j]) || (Timed(a[j]) && b[j] == LabelOf(a[j]).(tag := "Rest"))
  }

  lemma {:induction false} RetaggedConcat(a1: seq<Element>, b1: seq<Label>, a2: seq<Element>, b2: seq<Label>)
    requires RetaggedOnly(a1, b1) && RetaggedOnly(a2, b2)
    ensures RetaggedOnly(a1 + a2, b1 + b2)
  {
    forall j | 0 <= j < |a1 + a2|
      ensures (b1 + b2)[j] == LabelOf((a1 + a2)[j])
        || (Timed((a1 + a2)[j]) && (b1 + b2)[j] == LabelOf((a1 + a2)[j]).(tag := "Rest"))
    {
      if j >= |a1| {
        assert (a1 + a2)[j] == a2[j - |a1|] && (b1 + b2)[j] == b2[j - |a1|];
      }
    }
  }

  lemma {:induction false} RetaggedSilenced(s: seq<Element>)
    ensures RetaggedOnly(s, SilencedLabels(s))
    decreases s
  {
    if s != [] {
      RetaggedSilenced(s[1..]);
      RetaggedConcat([s[0]], [Silenced(s[0])], s[1..], SilencedLabels(s[1..]));
      assert [s[0]] + s[1..] == s;
    }
  }

  lemma {:induction false} RetaggedSame(s: seq<Element>)
    ensures RetaggedOnly(s, Labels(s))
    decreases s
  {
    if s != [] {
      RetaggedSame(s[1..]);
      RetaggedConcat([s[0]], [LabelOf(s[0])], s[1..], Labels(s[1..]));
      assert [s[0]] + s[1..] == s;
    }
  }

  /** Children that each change only by retagging give a child list that changes only by retagging. */
  lemma {:induction false} RetaggedChildren(cs: seq<Element>, ds: seq<Element>)
    requires |cs| == |ds|
    requires forall i :: 0 <= i < |cs| ==> RetaggedOnly(Iter(cs[i]), Labels(Iter(ds[i])))
    ensures RetaggedOnly(IterAll(cs), Labels(IterAll(ds)))
    decreases cs
  {
    if cs == [] {
    } else {
      assert forall i :: 1 <= i < |cs| ==> cs[i] == cs[1..][i - 1] && ds[i] == ds[1..][i - 1];
      RetaggedChildren(cs[1..], ds[1..]);
      LabelsAppend(Iter(ds[0]), IterAll(ds[1..]));
      RetaggedConcat(Iter(cs[0]), Labels(Iter(ds[0])), IterAll(cs[1..]), Labels(IterAll(ds[1..])));
    }
  }

  lemma {:induction false} RetaggedParent(e: Element, ds: seq<Element>)
    requires |ds| == |e.children|
    requires forall i :: 0 <= i < |ds| ==> RetaggedOnly(Iter(e.children[i]), Labels(Iter(ds[i])))
    ensures RetaggedOnly(Iter(e), Labels(Iter(e.(children := ds))))
  {
    var e' := e.(children := ds);
    RetaggedChildren(e.children, ds);
    LabelsAppend([e'], IterAll(ds));
    RetaggedConcat([e], [LabelOf(e')], IterAll(e.children), Labels(IterAll(ds)));
  }

  lemma {:induction false} RetaggedVoice(v: Element)
    ensures RetaggedOnly(Iter(v), Labels(Iter(SilenceVoice(v))))
  {
    SilenceVoiceLabels(v);
    RetaggedSilenced(Descendants(v));
    RetaggedConcat([v], [LabelOf(v)], Descendants(v), SilencedLabels(Descendants(v)));
  }

  lemma {:induction false} RetaggedMeasure(m: Element)
    ensures RetaggedOnly(Iter(m), Labels(Iter(SilenceMeasure(m))))
  {
    var ds := SilenceMeasure(m).children;
    forall i | 0 <= i < |ds|
      ensures RetaggedOnly(Iter(m.children[i]), Labels(Iter(ds[i])))
    {
      if m.children[i].tag == "voice" {
        RetaggedVoice(m.children[i]);
      } else {
        RetaggedSame(Iter(m.children[i]));
      }
    }
    RetaggedParent(m, ds);
  }

  /** Silencing a staff adds, removes and reorders nothing, and only retags timed elements. */
  lemma {:induction false} RetaggedStaff(s: Element)
    ensures RetaggedOnly(Iter(s), Labels(Iter(SilenceStaff(s))))
  {
    var ds := SilenceStaff(s).children;
    forall i | 0 <= i < |ds|
      ensures RetaggedOnly(Iter(s.children[i]), Labels(Iter(ds[i])))
    {
      if s.children[i].tag == "Measure" {
        RetaggedMeasure(s.children[i]);
      } else {
        RetaggedSame(Iter(s.children[i]));
      }
    }
    RetaggedParent(s, ds);
  }

  /**
   * `silence_all_measures_of_part` touches only the block of document order
   * that is the part's staff under `Score`; there it only retags timed
   * elements. A part whose staff is missing raises.
   */
  lemma {:induction false} SilencePartEffect(root: Element, part: Element)
    ensures StaffOfPart(part, root) == Success(None) ==> SilencePart(root, part) == Failure(StaffNotFound)
    ensures SilencePart(root, part).Success? ==> (
      var p := StaffOfPart(part, root).value.value;
      var k, m := PreIndex(root, p), |Iter(At(root, p))|;
      var after := Labels(Iter(SilencePart(root, part).value));
      k + m <= |Iter(root)| && |after| == |Iter(root)|
      && after[..k] == Labels(Iter(root))[..k]
      && after[k + m..] == Labels(Iter(root))[k + m..]
      && RetaggedOnly(Iter(At(root, p)), after[k..k + m]))
  {
    if SilencePart(root, part).Success? {
      var p := StaffOfPart(part, root).value.value;
      var staff := At(root, p);
      var k, m := PreIndex(root, p), |Iter(staff)|;
      ReplaceAtLabels(root, p, SilenceStaff(staff));
      RetaggedStaff(staff);
      var before := Labels(Iter(root));
      var mid := Labels(Iter(SilenceStaff(staff)));
      var after := Labels(Iter(SilencePart(root, part).value));
      assert after == before[..k] + mid + before[k + m..];
      assert |mid| == m;
      assert after[k..k + m] == mid;
    }
  }

  // ---------------------------------------------------------------------------
  // remove_part

  /**
   * Where `remove_part` removes the part: under the parent of the first Part
   * (in document order, the root excluded) carrying the part's id, the first
   * child that is the part itself.
   */
  function PartPath(root: Element, part: Element): (r: Result<Path, ScoreError>)
    ensures r.Success? ==> ValidPath(root, r.value) && r.value != [] && At(root, r.value).uid == part.uid
    ensures r.Success? ==> (Quotable(IdText(Attr(part, "id")))
      && FirstDescendant(root, TagWithId("Part", IdText(Attr(part, "id")))).Some?
      && (var q := FirstDescendant(root, TagWithId("Part", IdText(Attr(part, "id")))).value;
          q[..|q| - 1] == r.value[..|r.value| - 1]))
    ensures r.Failure? ==> r.error in {InvalidPredicate, NoParent, NotAChild}
    ensures r == Failure(NoParent) <==> (Quotable(IdText(Attr(part, "id")))
      && FirstDescendant(root, TagWithId("Part", IdText(Attr(part, "id")))).None?)
  {
    var pid := IdText(Attr(part, "id"));
    if !Quotable(pid) then Failure(InvalidPredicate)
    else
      match FirstDescendant(root, TagWithId("Part", pid))
      case None => Failure(NoParent)
      case Some(q) =>
        var pp := q[..|q| - 1];
        PrefixValid(root, q, |q| - 1);
        match FirstIndex(At(root, pp).children, Identity(part.uid))
        case None => Failure(NotAChild)
        case Some(i) =>
          ExtendValid(root, pp, i);
          assert (pp + [i])[..|pp + [i]| - 1] == pp;
          Success(pp + [i])
  }

  /**
   * `remove_part(part, root)`: read the id of the part's own Staff child,
   * remove the part from its parent, then remove the first remaining `Staff`
   * with that id. The part's own Staff child is gone by the time of the
   * second search, so when no other element left carries the same staff id
   * the search reaches the staff that holds the measures. The part handed in
   * is the one listed before the loop began; an earlier removal may already
   * have taken its Staff child out of the tree, which this function does not
   * see.
   */
  function RemovedPart(root: Element, part: Element): (r: Result<Element, ScoreError>)
    ensures r.Failure? ==> r.error in {NoStaffChild, InvalidPredicate, NoParent, NotAChild}
  {
    match StaffIdOf(part)
    case Failure(e) => Failure(e)
    case Success(sid) =>
      match PartPath(root, part)
      case Failure(e) => Failure(e)
      case Success(pp) =>
        var mid := RemoveAt(root, pp);
        if !Quotable(sid) then Failure(InvalidPredicate)
        else
          match FirstDescendant(mid, TagWithId("Staff", sid))
          case None => Failure(NoParent)
          case Some(sp) => Success(RemoveAt(mid, sp))
  }

  /**
   * What `remove_part` removes: the part's subtree, then the subtree of the
   * first `Staff` with the part's staff id in what is left. Every other
   * element stays, in the same document order.
   */
  lemma {:induction false} RemovedPartEffect(root: Element, part: Element)
    ensures RemovedPart(root, part).Success? ==> (
      var pp := PartPath(root, part).value;
      var mid := RemoveAt(root, pp);
      var sp := FirstDescendant(mid, TagWithId("Staff", StaffIdOf(part).value)).value;
      At(root, pp).uid == part.uid
      && Matches(TagWithId("Staff", StaffIdOf(part).value), At(mid, sp))
      && PreIndex(root, pp) + |Iter(At(root, pp))| <= |Iter(root)|
      && PreIndex(mid, sp) + |Iter(At(mid, sp))| <= |Iter(mid)|
      && Keys(Iter(mid)) == Cut(Keys(Iter(root)), PreIndex(root, pp), |Iter(At(root, pp))|)
      && Keys(Iter(RemovedPart(root, part).value)) == Cut(Keys(Iter(mid)), PreIndex(mid, sp), |Iter(At(mid, sp))|))
  {
    if RemovedPart(root, part).Success? {
      var pp := PartPath(root, part).value;
      var mid := RemoveAt(root, pp);
      var sp := FirstDescendant(mid, TagWithId("Staff", StaffIdOf(part).value)).value;
      assert RemovedPart(root, part).value == RemoveAt(mid, sp);
      RemoveAtKeys(root, pp);
      RemoveAtKeys(mid, sp);
    }
  }

  // ---------------------------------------------------------------------------
  // Harmony stripping

  /** cs without its `Harmony` elements. */
  function NonHarmony(cs: seq<Element>): (r: seq<Element>)
    ensures forall c :: c in r <==> c in cs && c.tag != "Harmony"
  {
    if cs == [] then []
    else (if cs[0].tag == "Harmony" then [] else [cs[0]]) + NonHarmony(cs[1..])
  }

  /**
   * e with the `Harmony` children of every element whose identity is in s
   * removed. Applied to a set of identities, it does not depend on the order
   * in which the elements are visited.
   */
  function StripAt(e: Element, s: set<nat>): Element
    decreases e
  {
    var cs := StripEach(e.children, s);
    e.(children := if e.uid in s then NonHarmony(cs) else cs)
  }

  function StripEach(cs: seq<Element>, s: set<nat>): (r: seq<Element>)
    ensures |r| == |cs|
    ensures forall i :: 0 <= i < |cs| ==> r[i].tag == cs[i].tag && r[i].uid == cs[i].uid
    decreases cs
  {
    if cs == [] then [] else [StripAt(cs[0], s)] + StripEach(cs[1..], s)
  }

  lemma {:induction false} NonHarmonyTwice(cs: seq<Element>)
    ensures NonHarmony(NonHarmony(cs)) == NonHarmony(cs)
    decreases cs
  {
    if cs != [] {
      NonHarmonyTwice(cs[1..]);
      var r := NonHarmony(cs);
      if cs[0].tag != "Harmony" {
        assert r == [cs[0]] + NonHarmony(cs[1..]);
        assert r[0] == cs[0] && r[1..] == NonHarmony(cs[1..]);
        assert NonHarmony(r) == [r[0]] + NonHarmony(r[1..]);
      } else {
        assert r == NonHarmony(cs[1..]);
      }
    }
  }

  /** Stripping inside the elements commutes with dropping `Harmony` ones, as stripping keeps tags. */
  lemma {:induction false} StripEachNonHarmony(cs: seq<Element>, s: set<nat>)
    ensures StripEach(NonHarmony(cs), s) == NonHarmony(StripEach(cs, s))
    decreases cs
  {
    if cs != [] {
      var rest := NonHarmony(cs[1..]);
      var xs := StripEach(cs, s);
      assert xs == [StripAt(cs[0], s)] + StripEach(cs[1..], s);
      assert xs[0] == StripAt(cs[0], s) && xs[1..] == StripEach(cs[1..], s);
      assert xs[0].tag == cs[0].tag;
      StripEachNonHarmony(cs[1..], s);
      if cs[0].tag != "Harmony" {
        assert NonHarmony(cs) == [cs[0]] + rest;
        var ys := StripEach([cs[0]] + rest, s);
        assert ys == [StripAt(cs[0], s)] + StripEach(rest, s) by {
          assert ([cs[0]] + rest)[1..] == rest;
        }
        assert NonHarmony(xs) == [xs[0]] + NonHarmony(xs[1..]);
      } else {
        assert NonHarmony(cs) == rest;
        assert NonHarmony(xs) == NonHarmony(xs[1..]);
      }
    }
  }

  /** Stripping at s, then at t, is stripping at s + t. */
  lemma {:induction false} StripTwice(e: Element, s: set<nat>, t: set<nat>)
    ensures StripAt(StripAt(e, s), t) == StripAt(e, s + t)
    decreases e, 1
  {
    var xs := StripEach(e.children, s);
    var c1 := if e.uid in s then NonHarmony(xs) else xs;
    StripEachTwice(e.children, s, t);
    if e.uid in s {
      StripEachNonHarmony(xs, t);
      NonHarmonyTwice(StripEach(xs, t));
    }
    assert StripEach(c1, t) == (if e.uid in s then NonHarmony(StripEach(e.children, s + t)) else StripEach(e.children, s + t));
  }

  lemma {:induction false} StripEachTwice(cs: seq<Element>, s: set<nat>, t: set<nat>)
    ensures StripEach(StripEach(cs, s), t) == StripEach(cs, s + t)
    decreases cs, 0
  {
    if cs != [] {
      var xs := StripEach(cs, s);
      assert xs[0] == StripAt(cs[0], s) && xs[1..] == StripEach(cs[1..], s);
      StripTwice(cs[0], s, t);
      StripEachTwice(cs[1..], s, t);
    }
  }

  /** The elements of ns that have a `Harmony` child: `findall(".//Harmony/..")` as a set. */
  function HarmonyParents(ns: seq<Element>): (r: seq<Element>)
    ensures forall x :: x in r <==> x in ns && HasChildTagged(x, "Harmony")
  {
    if ns == [] then []
    else (if HasChildTagged(ns[0], "Harmony") then [ns[0]] else []) + HarmonyParents(ns[1..])
  }

  function UidSet(ns: seq<Element>): set<nat> {
    set n | n in ns :: n.uid
  }

  /** One more turn of the Harmony loop: one more parent is stripped and counted. */
  lemma {:induction false} HarmonyStep(e: Element, ps: seq<Element>, i: nat)
    requires i < |ps|
    ensures StripAt(StripAt(e, UidSet(ps[..i])), {ps[i].uid}) == StripAt(e, UidSet(ps[..i + 1]))
    ensures HarmonyChildren(ps[..i + 1]) == HarmonyChildren(ps[..i]) + |FindAll(ps[i].children, Tag("Harmony"))|
  {
    StripTwice(e, UidSet(ps[..i]), {ps[i].uid});
    assert ps[..i + 1] == ps[..i] + [ps[i]];
    HarmonyChildrenAppend(ps[..i], [ps[i]]);
    assert UidSet(ps[..i + 1]) == UidSet(ps[..i]) + {ps[i].uid};
  }

  /** Every element of ns that has a `Harmony` child is marked in s. */
  predicate Covers(ns: seq<Element>, s: set<nat>) {
    forall n :: n in ns && HasChildTagged(n, "Harmony") ==> n.uid in s
  }

  predicate NoHarmony(ns: seq<Element>) {
    forall n :: n in ns ==> n.tag != "Harmony"
  }

  lemma {:induction false} IterOfChild(e: Element, i: nat)
    requires i < |e.children|
    ensures forall x :: x in Iter(e.children[i]) ==> x in Iter(e)
  {
    IterAllSplit(e.children, i);
  }

  lemma {:induction false} NoHarmonyIterAll(cs: seq<Element>)
    requires NoHarmony(cs) && forall c :: c in cs ==> NoHarmony(Descendants(c))
    ensures NoHarmony(IterAll(cs))
    decreases cs
  {
    if cs != [] {
      NoHarmonyIterAll(cs[1..]);
      assert cs[0] in cs;
      assert IterAll(cs) == [cs[0]] + Descendants(cs[0]) + IterAll(cs[1..]);
    }
  }

  /** Once every element with a `Harmony` child is marked, no `Harmony` element is left below the root. */
  lemma {:induction false} StripCovered(e: Element, s: set<nat>)
    requires Covers(Iter(e), s)
    ensures NoHarmony(Descendants(StripAt(e, s)))
    decreases e
  {
    var xs := StripEach(e.children, s);
    var ys := StripAt(e, s).children;
    forall i | 0 <= i < |e.children|
      ensures NoHarmony(Descendants(xs[i]))
    {
      IterOfChild(e, i);
      StripCovered(e.children[i], s);
      StripEachAt(e.children, s, i);
    }
    forall y | y in ys
      ensures y.tag != "Harmony" && NoHarmony(Descendants(y))
    {
      var i :| 0 <= i < |xs| && xs[i] == y;
      if e.uid !in s {
        assert !HasChildTagged(e, "Harmony");
        assert e.children[i] in e.children;
      }
    }
    NoHarmonyIterAll(ys);
  }

  lemma {:induction false} StripEachAt(cs: seq<Element>, s: set<nat>, i: nat)
    requires i < |cs|
    ensures StripEach(cs, s)[i] == StripAt(cs[i], s)
    decreases cs
  {
    if i > 0 {
      StripEachAt(cs[1..], s, i - 1);
    }
  }

  /** The number of `Harmony` children over a list of elements. */
  function HarmonyChildren(ns: seq<Element>): nat {
    if ns == [] then 0 else Count(ns[0].children, Tag("Harmony")) + HarmonyChildren(ns[1..])
  }

  lemma {:induction false} HarmonyChildrenAppend(a: seq<Element>, b: seq<Element>)
    ensures HarmonyChildren(a + b) == HarmonyChildren(a) + HarmonyChildren(b)
    decreases a
  {
    if a != [] {
      assert (a + b)[1..] == a[1..] + b;
      HarmonyChildrenAppend(a[1..], b);
    } else {
      assert a + b == b;
    }
  }

  lemma {:induction false} CountNone(cs: seq<Element>, t: string)
    requires forall c :: c in cs ==> c.tag != t
    ensures Count(cs, Tag(t)) == 0
    decreases cs
  {
    if cs != [] {
      CountNone(cs[1..], t);
    }
  }

  /** Elements without a `Harmony` child contribute nothing. */
  lemma {:induction false} HarmonyChildrenOfParents(ns: seq<Element>)
    ensures HarmonyChildren(HarmonyParents(ns)) == HarmonyChildren(ns)
    decreases ns
  {
    if ns != [] {
      HarmonyChildrenOfParents(ns[1..]);
      if !HasChildTagged(ns[0], "Harmony") {
        CountNone(ns[0].children, "Harmony");
        assert HarmonyParents(ns) == HarmonyParents(ns[1..]);
      } else {
        assert HarmonyParents(ns) == [ns[0]] + HarmonyParents(ns[1..]);
        HarmonyChildrenAppend([ns[0]], HarmonyParents(ns[1..]));
      }
    }
  }

  /** Every `Harmony` element below e is the child of exactly one element of `e.iter()`. */
  lemma {:induction false} HarmonyChildrenCount(e: Element)
    ensures HarmonyChildren(Iter(e)) == Count(Descendants(e), Tag("Harmony"))
    decreases e, 1
  {
    HarmonyChildrenAll(e.children);
    HarmonyChildrenAppend([e], IterAll(e.children));
  }

  lemma {:induction false} HarmonyChildrenAll(cs: seq<Element>)
    ensures Count(cs, Tag("Harmony")) + HarmonyChildren(IterAll(cs)) == Count(IterAll(cs), Tag("Harmony"))
    decreases cs, 0
  {
    if cs != [] {
      HarmonyChildrenCount(cs[0]);
      HarmonyChildrenAll(cs[1..]);
      HarmonyChildrenAppend(Iter(cs[0]), IterAll(cs[1..]));
      CountAppend(Iter(cs[0]), IterAll(cs[1..]), Tag("Harmony"));
      CountAppend([cs[0]], Descendants(cs[0]), Tag("Harmony"));
    }
  }

  /** The tree after the Harmony loop: every element that had a `Harmony` child lost all of them. */
  function HarmonyStripped(e: Element): Element {
    StripAt(e, UidSet(HarmonyParents(Iter(e))))
  }

  /**
   * After the Harmony loop no `Harmony` element is left below the root, and
   * the loop's count equals the number of `Harmony` elements that were below
   * it (those nested inside a removed `Harmony` included).
   */
  lemma {:induction false} HarmonyStrippedEffect(e: Element)
    ensures NoHarmony(Descendants(HarmonyStripped(e)))
    ensures HarmonyChildren(HarmonyParents(Iter(e))) == Count(Descendants(e), Tag("Harmony"))
  {
    StripCovered(e, UidSet(HarmonyParents(Iter(e))));
    HarmonyChildrenOfParents(Iter(e));
    HarmonyChildrenCount(e);
  }
}
