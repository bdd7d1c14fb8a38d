/**
 * What silence mode keeps: the silencing loop adds, removes and moves no
 * element and renames only elements other than Parts to `Rest`, and the
 * Harmony loop removes no Part that lies outside a `Harmony` element. So a
 * score whose Parts are no notes and sit outside every `Harmony` keeps all
 * of its Parts, in order.
 */
module SilenceMode {
  import opened Wrappers
  import opened XmlTree
  import opened PartNames
  import opened ScoreEdit
  import opened ScoreTree

  /** No Part element of e has a `durationType` child. */
  predicate NoTimedPart(e: Element)
    decreases e
  {
    (e.tag == "Part" ==> !Timed(e))
    && forall i :: 0 <= i < |e.children| ==> NoTimedPart(e.children[i])
  }

  /** e holds no Part element, itself included. */
  predicate NoPart(e: Element)
    decreases e
  {
    e.tag != "Part" && forall i :: 0 <= i < |e.children| ==> NoPart(e.children[i])
  }

  /** No Part element lies inside a `Harmony` element of e. */
  predicate NoPartInHarmony(e: Element)
    decreases e
  {
    (e.tag == "Harmony" ==> NoPart(e))
    && forall i :: 0 <= i < |e.children| ==> NoPartInHarmony(e.children[i])
  }

  /**
   * b has a's elements in a's places, each with its identity, attributes,
   * text and number of children; an element may be retagged `Rest` unless
   * it is a Part.
   */
  predicate Rested(a: Element, b: Element)
    decreases a
  {
    b.uid == a.uid && b.attrib == a.attrib && b.text == a.text
    && (b.tag == a.tag || (b.tag == "Rest" && a.tag != "Part"))
    && |b.children| == |a.children|
    && forall i :: 0 <= i < |a.children| ==> Rested(a.children[i], b.children[i])
  }

  lemma {:induction false} RestedRefl(a: Element)
    ensures Rested(a, a)
    decreases a
  {
    forall i | 0 <= i < |a.children|
      ensures Rested(a.children[i], a.children[i])
    {
      RestedRefl(a.children[i]);
    }
  }

  lemma {:induction false} RestedTrans(a: Element, b: Element, c: Element)
    requires Rested(a, b) && Rested(b, c)
    ensures Rested(a, c)
    decreases a
  {
    forall i | 0 <= i < |a.children|
      ensures Rested(a.children[i], c.children[i])
    {
      RestedTrans(a.children[i], b.children[i], c.children[i]);
    }
  }

  // ---------------------------------------------------------------------------
  // One call of silence_all_measures_of_part

  lemma {:induction false} SilenceEachAt(cs: seq<Element>, i: nat)
    requires i < |cs|
    ensures SilenceEach(cs)[i] == SilenceNode(cs[i])
    decreases cs
  {
    if i > 0 {
      SilenceEachAt(cs[1..], i - 1);
    }
  }

  lemma {:induction false} SilenceNodeRested(e: Element)
    requires NoTimedPart(e)
    ensures Rested(e, SilenceNode(e))
    decreases e
  {
    var n := SilenceNode(e);
    forall i | 0 <= i < |e.children|
      ensures Rested(e.children[i], n.children[i])
    {
      SilenceEachAt(e.children, i);
      SilenceNodeRested(e.children[i]);
    }
  }

  lemma {:induction false} SilenceVoiceRested(v: Element)
    requires NoTimedPart(v)
    ensures Rested(v, SilenceVoice(v))
  {
    var w := SilenceVoice(v);
    forall i | 0 <= i < |v.children|
      ensures Rested(v.children[i], w.children[i])
    {
      SilenceEachAt(v.children, i);
      SilenceNodeRested(v.children[i]);
    }
  }

  lemma {:induction false} SilenceMeasureRested(m: Element)
    requires NoTimedPart(m)
    ensures Rested(m, SilenceMeasure(m))
  {
    var n := SilenceMeasure(m);
    forall i | 0 <= i < |m.children|
      ensures Rested(m.children[i], n.children[i])
    {
      if m.children[i].tag == "voice" {
        SilenceVoiceRested(m.children[i]);
      } else {
        RestedRefl(m.children[i]);
      }
    }
  }

  lemma {:induction false} SilenceStaffRested(s: Element)
    requires NoTimedPart(s)
    ensures Rested(s, SilenceStaff(s))
  {
    var n := SilenceStaff(s);
    forall i | 0 <= i < |s.children|
      ensures Rested(s.children[i], n.children[i])
    {
      if s.children[i].tag == "Measure" {
        SilenceMeasureRested(s.children[i]);
      } else {
        RestedRefl(s.children[i]);
      }
    }
  }

  lemma {:induction false} NoTimedPartAt(e: Element, p: Path)
    requires ValidPath(e, p) && NoTimedPart(e)
    ensures NoTimedPart(At(e, p))
    decreases p
  {
    if p != [] {
      NoTimedPartAt(e.children[p[0]], p[1..]);
    }
  }

  lemma {:induction false} ReplaceAtRested(e: Element, p: Path, n: Element)
    requires ValidPath(e, p) && Rested(At(e, p), n)
    ensures Rested(e, ReplaceAt(e, p, n))
    decreases p
  {
    if p != [] {
      var r := ReplaceAt(e, p, n);
      ReplaceAtRested(e.children[p[0]], p[1..], n);
      forall i | 0 <= i < |e.children|
        ensures Rested(e.children[i], r.children[i])
      {
        if i != p[0] {
          RestedRefl(e.children[i]);
        }
      }
    }
  }

  /** One call of `silence_all_measures_of_part` only renames elements other than Parts to `Rest`. */
  lemma {:induction false} SilencePartRested(root: Element, part: Element)
    requires NoTimedPart(root) && SilencePart(root, part).Success?
    ensures Rested(root, SilencePart(root, part).value)
  {
    var p := StaffOfPart(part, root).value.value;
    NoTimedPartAt(root, p);
    SilenceStaffRested(At(root, p));
    ReplaceAtRested(root, p, SilenceStaff(At(root, p)));
  }

  /** Renaming to `Rest` never gives a Part a `durationType` child. */
  lemma {:induction false} RestedNoTimedPart(a: Element, b: Element)
    requires Rested(a, b) && NoTimedPart(a)
    ensures NoTimedPart(b)
    decreases a
  {
    forall i | 0 <= i < |b.children|
      ensures NoTimedPart(b.children[i])
    {
      RestedNoTimedPart(a.children[i], b.children[i]);
    }
  }

  lemma {:induction false} RestedNoPart(a: Element, b: Element)
    requires Rested(a, b) && NoPart(a)
    ensures NoPart(b)
    decreases a
  {
    forall i | 0 <= i < |b.children|
      ensures NoPart(b.children[i])
    {
      RestedNoPart(a.children[i], b.children[i]);
    }
  }

  /** Renaming to `Rest` never puts a Part inside a `Harmony` element. */
  lemma {:induction false} RestedNoPartInHarmony(a: Element, b: Element)
    requires Rested(a, b) && NoPartInHarmony(a)
    ensures NoPartInHarmony(b)
    decreases a
  {
    if b.tag == "Harmony" {
      RestedNoPart(a, b);
    }
    forall i | 0 <= i < |b.children|
      ensures NoPartInHarmony(b.children[i])
    {
      RestedNoPartInHarmony(a.children[i], b.children[i]);
    }
  }

  // ---------------------------------------------------------------------------
  // The silencing loop

  /**
   * The loop `for p in parts: if p != part: silence_all_measures_of_part(p, root)`
   * adds, removes and moves no element, and changes no identity, attribute
   * or text: it only renames elements other than Parts to `Rest`.
   */
  lemma {:induction false} SilenceLoopRested(t: Element, ps: seq<Element>, keep: nat)
    requires NoTimedPart(t) && ForOthers(t, ps, keep, SilencePart).Success?
    ensures Rested(t, ForOthers(t, ps, keep, SilencePart).value)
    decreases |ps|
  {
    if ps == [] {
      RestedRefl(t);
    } else if ps[0].uid == keep {
      SilenceLoopRested(t, ps[1..], keep);
    } else {
      var t' := SilencePart(t, ps[0]).value;
      SilencePartRested(t, ps[0]);
      RestedNoTimedPart(t, t');
      SilenceLoopRested(t', ps[1..], keep);
      RestedTrans(t, t', ForOthers(t, ps, keep, SilencePart).value);
    }
  }

  /** Replacing the staff at one child-of-child position leaves every other such position as it was. */
  lemma {:induction false} ReplaceAtOther(e: Element, p: Path, q: Path, n: Element)
    requires |p| == 2 && |q| == 2 && ValidPath(e, p) && ValidPath(e, q) && p != q
    ensures ValidPath(ReplaceAt(e, p, n), q) && At(ReplaceAt(e, p, n), q) == At(e, q)
  {
    var a, b, c, d := p[0], p[1], q[0], q[1];
    assert p == [a, b] && q == [c, d];
    assert p[1..] == [b] && p[1..][1..] == [] && q[1..] == [d] && q[1..][1..] == [];
    var ca := e.children[a];
    assert ReplaceAt(ca, [b], n) == ca.(children := ca.children[b := n]);
    var e' := ReplaceAt(e, p, n);
    assert e'.children == e.children[a := ca.(children := ca.children[b := n])];
    assert At(e, q) == e.children[c].children[d] by {
      var cc := e.children[c];
      assert At(e, q) == At(cc, [d]);
      assert At(cc, [d]) == At(cc.children[d], []);
    }
    assert ValidPath(e', q) && At(e', q) == e'.children[c].children[d] by {
      var cc := e'.children[c];
      assert d < |cc.children|;
      assert ValidPath(cc.children[d], []);
      assert ValidPath(cc, [d]);
      assert At(e', q) == At(cc, [d]);
      assert At(cc, [d]) == At(cc.children[d], []);
    }
  }

  /**
   * The silencing loop leaves the staff at p, whose id is id, exactly as it
   * was when no part it silences names that staff id: in particular the kept
   * part's own staff is never retagged.
   */
  lemma {:induction false} KeptStaffUntouched(t: Element, ps: seq<Element>, keep: nat, p: Path, id: string)
    requires |p| == 2 && ValidPath(t, p) && Matches(TagWithId("Staff", id), At(t, p))
    requires forall q :: q in ps && q.uid != keep ==> StaffIdOf(q) != Success(id)
    requires ForOthers(t, ps, keep, SilencePart).Success?
    ensures ValidPath(ForOthers(t, ps, keep, SilencePart).value, p)
    ensures At(ForOthers(t, ps, keep, SilencePart).value, p) == At(t, p)
    decreases |ps|
  {
    if ps != [] {
      assert ps[0] in ps;
      if ps[0].uid == keep {
        KeptStaffUntouched(t, ps[1..], keep, p, id);
      } else {
        var pq := StaffOfPart(ps[0], t).value.value;
        var n := SilenceStaff(At(t, pq));
        var t' := SilencePart(t, ps[0]).value;
        assert t' == ReplaceAt(t, pq, n);
        assert pq != p by {
          assert Matches(TagWithId("Staff", StaffIdOf(ps[0]).value), At(t, pq));
        }
        ReplaceAtOther(t, pq, p, n);
        KeptStaffUntouched(t', ps[1..], keep, p, id);
      }
    }
  }

  /**
   * In silence mode the staff that holds the kept part's measures comes out
   * of the silencing loop exactly as it went in, provided no other part
   * names the same staff id.
   */
  lemma {:induction false} SilenceModeKeepsStaff(root: Element, name: Option<string>)
    requires FindPart(GetParts(root), name).Success?
    requires StaffOfPart(GetParts(root)[FindPart(GetParts(root), name).value], root).Success?
    requires StaffOfPart(GetParts(root)[FindPart(GetParts(root), name).value], root).value.Some?
    requires forall q :: (q in GetParts(root) && q.uid != GetParts(root)[FindPart(GetParts(root), name).value].uid
      ==> StaffIdOf(q) != StaffIdOf(GetParts(root)[FindPart(GetParts(root), name).value]))
    requires SilencedScore(root, name).Success?
    ensures var part := GetParts(root)[FindPart(GetParts(root), name).value];
      var p := StaffOfPart(part, root).value.value;
      var t := ForOthers(root, GetParts(root), part.uid, SilencePart).value;
      ValidPath(t, p) && At(t, p) == At(root, p) && Matches(TagWithId("Staff", StaffIdOf(part).value), At(t, p))
  {
    var parts := GetParts(root);
    var part := parts[FindPart(parts, name).value];
    KeptStaffUntouched(root, parts, part.uid, StaffOfPart(part, root).value.value, StaffIdOf(part).value);
  }

  // ---------------------------------------------------------------------------
  // The Parts of a tree

  /** The identities of the Parts of s, in order. */
  function PartUids(s: seq<Element>): seq<nat> {
    Uids(FindAll(s, Tag("Part")))
  }

  lemma {:induction false} PartUidsAppend(a: seq<Element>, b: seq<Element>)
    ensures PartUids(a + b) == PartUids(a) + PartUids(b)
  {
    FindAllAppend(a, b, Tag("Part"));
    UidsAppend(FindAll(a, Tag("Part")), FindAll(b, Tag("Part")));
  }

  /** An element's Parts: itself if it is one, then those below it. */
  lemma {:induction false} PartUidsIter(e: Element)
    ensures PartUids(Iter(e)) == (if e.tag == "Part" then [e.uid] else []) + PartUids(Descendants(e))
  {
    PartUidsAppend([e], Descendants(e));
  }

  lemma {:induction false} RestedPartUids(a: Element, b: Element)
    requires Rested(a, b)
    ensures PartUids(Iter(b)) == PartUids(Iter(a))
    decreases a, 1
  {
    RestedAllPartUids(a.children, b.children);
    PartUidsIter(a);
    PartUidsIter(b);
  }

  lemma {:induction false} RestedAllPartUids(xs: seq<Element>, ys: seq<Element>)
    requires |xs| == |ys| && forall i :: 0 <= i < |xs| ==> Rested(xs[i], ys[i])
    ensures PartUids(IterAll(ys)) == PartUids(IterAll(xs))
    decreases xs, 0
  {
    if xs != [] {
      RestedPartUids(xs[0], ys[0]);
      assert forall i :: 0 <= i < |xs| - 1 ==> xs[1..][i] == xs[i + 1] && ys[1..][i] == ys[i + 1];
      RestedAllPartUids(xs[1..], ys[1..]);
      PartUidsAppend(Iter(xs[0]), IterAll(xs[1..]));
      PartUidsAppend(Iter(ys[0]), IterAll(ys[1..]));
    }
  }

  lemma {:induction false} NoPartUids(e: Element)
    requires NoPart(e)
    ensures PartUids(Iter(e)) == []
    decreases e, 1
  {
    NoPartUidsAll(e.children);
    PartUidsIter(e);
  }

  lemma {:induction false} NoPartUidsAll(cs: seq<Element>)
    requires forall i :: 0 <= i < |cs| ==> NoPart(cs[i])
    ensures PartUids(IterAll(cs)) == []
    decreases cs, 0
  {
    if cs != [] {
      NoPartUids(cs[0]);
      assert forall i :: 0 <= i < |cs| - 1 ==> cs[1..][i] == cs[i + 1];
      NoPartUidsAll(cs[1..]);
      PartUidsAppend(Iter(cs[0]), IterAll(cs[1..]));
    }
  }

  // ---------------------------------------------------------------------------
  // The Harmony loop

  lemma {:induction false} NonHarmonyKeepsParts(xs: seq<Element>)
    requires forall i :: 0 <= i < |xs| ==> (xs[i].tag == "Harmony" ==> PartUids(Iter(xs[i])) == [])
    ensures PartUids(IterAll(NonHarmony(xs))) == PartUids(IterAll(xs))
    decreases xs
  {
    if xs != [] {
      assert forall i :: 0 <= i < |xs| - 1 ==> xs[1..][i] == xs[i + 1];
      NonHarmonyKeepsParts(xs[1..]);
      PartUidsAppend(Iter(xs[0]), IterAll(xs[1..]));
      if xs[0].tag != "Harmony" {
        assert NonHarmony(xs) == [xs[0]] + NonHarmony(xs[1..]);
        assert IterAll(NonHarmony(xs)) == Iter(xs[0]) + IterAll(NonHarmony(xs[1..])) by {
          assert ([xs[0]] + NonHarmony(xs[1..]))[1..] == NonHarmony(xs[1..]);
        }
        PartUidsAppend(Iter(xs[0]), IterAll(NonHarmony(xs[1..])));
      } else {
        assert NonHarmony(xs) == NonHarmony(xs[1..]);
      }
    }
  }

  /** Removing `Harmony` children removes no Part when no Part lies inside a `Harmony`. */
  lemma {:induction false} StripKeepsParts(e: Element, s: set<nat>)
    requires NoPartInHarmony(e)
    ensures PartUids(Iter(StripAt(e, s))) == PartUids(Iter(e))
    decreases e, 1
  {
    var xs := StripEach(e.children, s);
    StripEachKeepsParts(e.children, s);
    if e.uid in s {
      forall i | 0 <= i < |xs|
        ensures xs[i].tag == "Harmony" ==> PartUids(Iter(xs[i])) == []
      {
        StripEachAt(e.children, s, i);
        if xs[i].tag == "Harmony" {
          StripKeepsParts(e.children[i], s);
          NoPartUids(e.children[i]);
        }
      }
      NonHarmonyKeepsParts(xs);
    }
    PartUidsIter(e);
    PartUidsIter(StripAt(e, s));
  }

  lemma {:induction false} StripEachKeepsParts(cs: seq<Element>, s: set<nat>)
    requires forall i :: 0 <= i < |cs| ==> NoPartInHarmony(cs[i])
    ensures PartUids(IterAll(StripEach(cs, s))) == PartUids(IterAll(cs))
    decreases cs, 0
  {
    if cs != [] {
      var xs := StripEach(cs, s);
      assert xs[0] == StripAt(cs[0], s) && xs[1..] == StripEach(cs[1..], s);
      StripKeepsParts(cs[0], s);
      assert forall i :: 0 <= i < |cs| - 1 ==> cs[1..][i] == cs[i + 1];
      StripEachKeepsParts(cs[1..], s);
      PartUidsAppend(Iter(cs[0]), IterAll(cs[1..]));
      PartUidsAppend(Iter(xs[0]), IterAll(xs[1..]));
    }
  }

  // ---------------------------------------------------------------------------
  // Silence mode as a whole

  /** The silencing loop keeps the Parts below the root, and keeps them outside every `Harmony`. */
  lemma {:induction false} SilenceLoopKeepsParts(t: Element, ps: seq<Element>, keep: nat)
    requires NoTimedPart(t) && NoPartInHarmony(t) && ForOthers(t, ps, keep, SilencePart).Success?
    ensures PartUids(Descendants(ForOthers(t, ps, keep, SilencePart).value)) == PartUids(Descendants(t))
    ensures NoPartInHarmony(ForOthers(t, ps, keep, SilencePart).value)
  {
    var t' := ForOthers(t, ps, keep, SilencePart).value;
    SilenceLoopRested(t, ps, keep);
    RestedAllPartUids(t.children, t'.children);
    RestedNoPartInHarmony(t, t');
  }

  /** The Harmony loop keeps the Parts below the root when none lies inside a `Harmony`. */
  lemma {:induction false} HarmonyLoopKeepsParts(t: Element)
    requires NoPartInHarmony(t)
    ensures PartUids(Descendants(HarmonyStripped(t))) == PartUids(Descendants(t))
  {
    var s := UidSet(HarmonyParents(Iter(t)));
    var out := StripAt(t, s);
    assert out == HarmonyStripped(t);
    assert out.tag == t.tag && out.uid == t.uid;
    var top := if t.tag == "Part" then [t.uid] else [];
    assert top + PartUids(Descendants(out)) == top + PartUids(Descendants(t)) by {
      StripKeepsParts(t, s);
      PartUidsIter(t);
      PartUidsIter(out);
    }
    assert PartUids(Descendants(out)) == (top + PartUids(Descendants(out)))[|top|..];
  }

  /**
   * Silence mode keeps every Part: the Parts of the tree it writes out are
   * the Parts of the input, by identity and in document order, provided no
   * Part has a `durationType` child and no Part lies inside a `Harmony`.
   */
  lemma {:induction false} SilenceModeKeepsParts(root: Element, name: Option<string>)
    requires NoTimedPart(root) && NoPartInHarmony(root)
    requires SilencedScore(root, name).Success?
    ensures Uids(GetParts(SilencedScore(root, name).value.0)) == Uids(GetParts(root))
    ensures |GetParts(SilencedScore(root, name).value.0)| == |GetParts(root)|
  {
    var parts := GetParts(root);
    var k := FindPart(parts, name).value;
    var t := ForOthers(root, parts, parts[k].uid, SilencePart).value;
    assert SilencedScore(root, name).value.0 == HarmonyStripped(t);
    SilenceLoopKeepsParts(root, parts, parts[k].uid);
    HarmonyLoopKeepsParts(t);
  }
}
