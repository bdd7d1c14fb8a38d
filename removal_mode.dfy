/**
 * What removal mode (`create_single_part_mscz`) leaves of a score: the
 * loop removes every part other than the one looked up, and in the tree
 * that is written out no other part is left. Identities (`uid`) stand for
 * Python object identity, so in a real tree no two elements share one.
 */
module RemovalMode {
  import opened Wrappers
  import opened XmlTree
  import opened PartNames
  import opened ScoreEdit
  import opened ScoreTree

  /** No two keys share an identity. */
  predicate UniqueUids(ks: seq<Key>) {
    forall i, j :: 0 <= i < j < |ks| ==> ks[i].uid != ks[j].uid
  }

  /** No key has identity u. */
  predicate Gone(ks: seq<Key>, u: nat) {
    forall key :: key in ks ==> key.uid != u
  }

  /** The key at position i is the key of the element at position i. */
  lemma {:induction false} KeysAt(s: seq<Element>, i: nat)
    requires i < |s|
    ensures Keys(s)[i] == KeyOf(s[i])
    decreases i
  {
    if i > 0 {
      KeysAt(s[1..], i - 1);
    }
  }

  /** The keys of s are exactly the keys of its elements. */
  lemma {:induction false} KeysMembers(s: seq<Element>)
    ensures forall x :: x in s ==> KeyOf(x) in Keys(s)
    ensures forall key :: key in Keys(s) ==> exists x :: x in s && KeyOf(x) == key
  {
    forall x | x in s
      ensures KeyOf(x) in Keys(s)
    {
      var i :| 0 <= i < |s| && s[i] == x;
      KeysAt(s, i);
    }
    forall key | key in Keys(s)
      ensures exists x :: x in s && KeyOf(x) == key
    {
      var i :| 0 <= i < |Keys(s)| && Keys(s)[i] == key;
      KeysAt(s, i);
      assert s[i] in s;
    }
  }

  /**
   * Cutting a non-empty block out of s keeps only keys that were in s, keeps
   * identities distinct, and leaves no key with the identity of the block's
   * first element.
   */
  lemma {:induction false} CutKeys(s: seq<Key>, k: nat, n: nat)
    requires k + n <= |s| && n > 0
    ensures forall key :: key in Cut(s, k, n) ==> key in s
    ensures UniqueUids(s) ==> UniqueUids(Cut(s, k, n))
    ensures UniqueUids(s) ==> Gone(Cut(s, k, n), s[k].uid)
  {
    var c := Cut(s, k, n);
    assert forall i :: 0 <= i < |c| ==> c[i] == s[if i < k then i else i + n];
    forall key | key in c
      ensures key in s
    {
      var i :| 0 <= i < |c| && c[i] == key;
      assert s[if i < k then i else i + n] == key;
    }
  }

  /** The first element of a block is found where the block starts. */
  lemma {:induction false} SliceHead<T>(w: seq<T>, u: seq<T>, k: nat, n: nat)
    requires k + n <= |w| && w[k..k + n] == u && n > 0
    ensures w[k] == u[0]
  {
  }

  /** In document order, the subtree at p starts with the key of the element at p. */
  lemma {:induction false} RootKeyAt(e: Element, p: Path)
    requires ValidPath(e, p)
    ensures PreIndex(e, p) < |Keys(Iter(e))| && Keys(Iter(e))[PreIndex(e, p)] == KeyOf(At(e, p))
  {
    SubtreeBlock(e, p);
    SliceHead(Iter(e), Iter(At(e, p)), PreIndex(e, p), |Iter(At(e, p))|);
    KeysAt(Iter(e), PreIndex(e, p));
  }

  /** Two cuts in a row: the first one's block starts with identity u. */
  lemma {:induction false} CutTwice(s0: seq<Key>, s1: seq<Key>, s2: seq<Key>, k1: nat, n1: nat, k2: nat, n2: nat, u: nat)
    requires k1 + n1 <= |s0| && n1 > 0 && s1 == Cut(s0, k1, n1) && s0[k1].uid == u
    requires k2 + n2 <= |s1| && n2 > 0 && s2 == Cut(s1, k2, n2)
    ensures forall key :: key in s2 ==> key in s0
    ensures UniqueUids(s0) ==> UniqueUids(s2) && Gone(s2, u)
  {
    CutKeys(s0, k1, n1);
    CutKeys(s1, k2, n2);
  }

  /**
   * One `remove_part` call: what is left was there before, identities stay
   * distinct, and nothing with the removed part's identity is left.
   */
  lemma {:induction false} RemovedPartKeys(t: Element, p: Element)
    requires RemovedPart(t, p).Success?
    ensures forall key :: key in Keys(Iter(RemovedPart(t, p).value)) ==> key in Keys(Iter(t))
    ensures UniqueUids(Keys(Iter(t))) ==> UniqueUids(Keys(Iter(RemovedPart(t, p).value)))
    ensures UniqueUids(Keys(Iter(t))) ==> Gone(Keys(Iter(RemovedPart(t, p).value)), p.uid)
  {
    var pp := PartPath(t, p).value;
    var mid := RemoveAt(t, pp);
    var sp := FirstDescendant(mid, TagWithId("Staff", StaffIdOf(p).value)).value;
    var out := RemovedPart(t, p).value;
    var k1, n1 := PreIndex(t, pp), |Iter(At(t, pp))|;
    var k2, n2 := PreIndex(mid, sp), |Iter(At(mid, sp))|;
    assert k1 + n1 <= |Iter(t)| && Keys(Iter(mid)) == Cut(Keys(Iter(t)), k1, n1)
      && k2 + n2 <= |Iter(mid)| && Keys(Iter(out)) == Cut(Keys(Iter(mid)), k2, n2)
      && At(t, pp).uid == p.uid by {
      RemovedPartEffect(t, p);
    }
    RootKeyAt(t, pp);
    CutTwice(Keys(Iter(t)), Keys(Iter(mid)), Keys(Iter(out)), k1, n1, k2, n2, p.uid);
  }

  /**
   * The removal loop: what is left was there before, identities stay
   * distinct, and every part of the list other than the kept one is gone.
   */
  lemma {:induction false} RemovalLoopKeys(t: Element, ps: seq<Element>, keep: nat)
    requires ForOthers(t, ps, keep, RemovedPart).Success?
    requires UniqueUids(Keys(Iter(t)))
    ensures UniqueUids(Keys(Iter(ForOthers(t, ps, keep, RemovedPart).value)))
    ensures forall key :: key in Keys(Iter(ForOthers(t, ps, keep, RemovedPart).value)) ==> key in Keys(Iter(t))
    ensures forall p :: p in ps && p.uid != keep ==> Gone(Keys(Iter(ForOthers(t, ps, keep, RemovedPart).value)), p.uid)
    decreases |ps|
  {
    if ps != [] {
      var out := ForOthers(t, ps, keep, RemovedPart).value;
      if ps[0].uid == keep {
        RemovalLoopKeys(t, ps[1..], keep);
        forall p | p in ps && p.uid != keep
          ensures Gone(Keys(Iter(out)), p.uid)
        {
          assert p in ps[1..];
        }
      } else {
        var t' := RemovedPart(t, ps[0]).value;
        RemovedPartKeys(t, ps[0]);
        RemovalLoopKeys(t', ps[1..], keep);
        assert out == ForOthers(t', ps[1..], keep, RemovedPart).value;
        forall p | p in ps && p.uid != keep
          ensures Gone(Keys(Iter(out)), p.uid)
        {
          if p != ps[0] {
            assert p in ps[1..];
          }
        }
      }
    }
  }

  /**
   * In removal mode only the kept part is left: every `Part` of the score
   * that is written out has the identity of the part that was looked up.
   */
  lemma {:induction false} RemovalModeKeepsOnlyPart(root: Element, name: Option<string>)
    requires UniqueUids(Keys(Iter(root))) && root.tag != "Part"
    requires SinglePartScore(root, name).Success?
    ensures forall q :: q in GetParts(SinglePartScore(root, name).value) ==>
      q.uid == GetParts(root)[FindPart(GetParts(root), name).value].uid
  {
    var ps := GetParts(root);
    var keep := ps[FindPart(ps, name).value].uid;
    var out := SinglePartScore(root, name).value;
    assert out == ForOthers(root, ps, keep, RemovedPart).value;
    RemovalLoopKeys(root, ps, keep);
    KeysMembers(Iter(out));
    KeysMembers(Iter(root));
    forall q | q in GetParts(out)
      ensures q.uid == keep
    {
      assert q in Iter(out);
      var x :| x in Iter(root) && KeyOf(x) == KeyOf(q);
      assert x != root;
      assert x in ps;
    }
  }
  // ---------------------------------------------------------------------------
  // The kept part survives

  /**
   * Element a stands where element b stood before some removals: the same
   * identity and tag, and nothing in a's subtree that was not in b's.
   */
  predicate Within(a: Element, b: Element) {
    KeyOf(a) == KeyOf(b) && forall key :: key in Keys(Iter(a)) ==> key in Keys(Iter(b))
  }

  /** Every element of t stands where some element of t0 stood. */
  predicate Shrunk(t0: Element, t: Element) {
    forall x :: x in Iter(t) ==> exists y :: y in Iter(t0) && Within(x, y)
  }

  /** The element keyed kk lies inside no `Part` or `Staff` other than itself. */
  predicate Unenclosed(root: Element, kk: Key) {
    forall x :: x in Iter(root) && KeyOf(x) != kk && (x.tag == "Part" || x.tag == "Staff")
      ==> kk !in Keys(Iter(x))
  }

  lemma {:induction false} ShrunkTrans(a: Element, b: Element, c: Element)
    requires Shrunk(a, b) && Shrunk(b, c)
    ensures Shrunk(a, c)
  {
    forall x | x in Iter(c)
      ensures exists z :: z in Iter(a) && Within(x, z)
    {
      var y :| y in Iter(b) && Within(x, y);
      var z :| z in Iter(a) && Within(y, z);
      assert Within(x, z);
    }
  }

  /** Two elements of a tree with distinct identities that share an identity are one element. */
  lemma {:induction false} SameUidSameKey(s: seq<Element>, x: Element, y: Element)
    requires UniqueUids(Keys(s)) && x in s && y in s && x.uid == y.uid
    ensures KeyOf(x) == KeyOf(y)
  {
    var i :| 0 <= i < |s| && s[i] == x;
    var j :| 0 <= j < |s| && s[j] == y;
    KeysAt(s, i);
    KeysAt(s, j);
  }

  lemma {:induction false} KeysSlice(s: seq<Element>, a: nat, b: nat)
    requires a <= b <= |s|
    ensures Keys(s[a..b]) == Keys(s)[a..b]
  {
    forall i | 0 <= i < b - a
      ensures Keys(s[a..b])[i] == Keys(s)[a..b][i]
    {
      KeysAt(s[a..b], i);
      KeysAt(s, a + i);
    }
  }

  /** A key outside the block that is cut out is still there after the cut. */
  lemma {:induction false} CutSurvives(s: seq<Key>, k: nat, n: nat, key: Key)
    requires k + n <= |s| && key in s && key !in s[k..k + n]
    ensures key in Cut(s, k, n)
  {
    var i :| 0 <= i < |s| && s[i] == key;
    if i < k {
      assert Cut(s, k, n)[i] == key;
    } else if i < k + n {
      assert false;
    } else {
      assert Cut(s, k, n)[i - n] == key;
    }
  }

  /** Removing a subtree keeps the root's key and shrinks every element that is left. */
  lemma {:induction false} RemoveAtShrunk(e: Element, p: Path)
    requires ValidPath(e, p) && p != []
    ensures Within(RemoveAt(e, p), e) && Shrunk(e, RemoveAt(e, p))
    decreases p
  {
    var e' := RemoveAt(e, p);
    var cs, i := e.children, p[0];
    RemoveAtKeys(e, p);
    CutKeys(Keys(Iter(e)), PreIndex(e, p), |Iter(At(e, p))|);
    assert Within(e', e);
    IterAllSplit(cs, i);
    assert Iter(e) == [e] + (IterAll(cs[..i]) + Iter(cs[i]) + IterAll(cs[i + 1..]));
    if |p| == 1 {
      RemoveChildIter(e, i);
      forall x | x in Iter(e')
        ensures exists y :: y in Iter(e) && Within(x, y)
      {
        if x != e' {
          assert x in Iter(e) && Within(x, x);
        }
      }
    } else {
      var c' := RemoveAt(cs[i], p[1..]);
      var cs' := e'.children;
      assert cs' == cs[i := c'];
      RemoveAtShrunk(cs[i], p[1..]);
      IterAllSplit(cs', i);
      assert cs'[..i] == cs[..i] && cs'[i + 1..] == cs[i + 1..];
      assert Iter(e') == [e'] + (IterAll(cs[..i]) + Iter(c') + IterAll(cs[i + 1..]));
      forall x | x in Iter(e')
        ensures exists y :: y in Iter(e) && Within(x, y)
      {
        if x in Iter(c') {
          var y :| y in Iter(cs[i]) && Within(x, y);
          assert y in Iter(e);
        } else if x != e' {
          assert x in Iter(e) && Within(x, x);
        }
      }
    }
  }

  /** The element at p of t is in t's document order. */
  lemma {:induction false} AtInIter(t: Element, p: Path)
    requires ValidPath(t, p)
    ensures At(t, p) in Iter(t)
  {
    SubtreeBlock(t, p);
    SliceHead(Iter(t), Iter(At(t, p)), PreIndex(t, p), |Iter(At(t, p))|);
  }

  /** A `Part` or `Staff` other than the kept part does not hold it, when it held it in no earlier tree. */
  lemma {:induction false} BlockMissesKept(root: Element, t: Element, p: Path, kk: Key)
    requires Shrunk(root, t) && Unenclosed(root, kk) && ValidPath(t, p)
    requires KeyOf(At(t, p)) != kk && (At(t, p).tag == "Part" || At(t, p).tag == "Staff")
    ensures kk !in Keys(Iter(At(t, p)))
  {
    var y := At(t, p);
    AtInIter(t, p);
    var y0 :| y0 in Iter(root) && Within(y, y0);
    assert kk !in Keys(Iter(y0));
  }

  /** A key that is not in the removed subtree is still there after the removal. */
  lemma {:induction false} RemoveAtKeeps(t: Element, p: Path, kk: Key)
    requires ValidPath(t, p) && p != [] && kk in Keys(Iter(t)) && kk !in Keys(Iter(At(t, p)))
    ensures kk in Keys(Iter(RemoveAt(t, p)))
  {
    var k, n := PreIndex(t, p), |Iter(At(t, p))|;
    SubtreeBlock(t, p);
    KeysSlice(Iter(t), k, k + n);
    RemoveAtKeys(t, p);
    CutSurvives(Keys(Iter(t)), k, n, kk);
  }

  /**
   * Cutting out a `Part` or `Staff` subtree other than the kept part's own
   * keeps the kept part, when it lies inside no other `Part` or `Staff`.
   */
  lemma {:induction false} CutAvoids(root: Element, t: Element, p: Path, kk: Key)
    requires Shrunk(root, t) && Unenclosed(root, kk) && ValidPath(t, p) && p != []
    requires kk in Keys(Iter(t)) && KeyOf(At(t, p)) != kk
    requires At(t, p).tag == "Part" || At(t, p).tag == "Staff"
    ensures kk in Keys(Iter(RemoveAt(t, p))) && Shrunk(root, RemoveAt(t, p))
    ensures KeyOf(RemoveAt(t, p)) == KeyOf(t)
  {
    BlockMissesKept(root, t, p, kk);
    RemoveAtKeeps(t, p, kk);
    RemoveAtShrunk(t, p);
    ShrunkTrans(root, t, RemoveAt(t, p));
  }

  /** The subtree cut out for another part is rooted at that part, as it was in the score. */
  lemma {:induction false} PartBlockTag(root: Element, t: Element, pp: Path, q: Element)
    requires Shrunk(root, t) && UniqueUids(Keys(Iter(root)))
    requires q in Iter(root) && q.tag == "Part" && ValidPath(t, pp) && At(t, pp).uid == q.uid
    ensures At(t, pp).tag == "Part"
  {
    var y := At(t, pp);
    AtInIter(t, pp);
    var y0 :| y0 in Iter(root) && Within(y, y0);
    SameUidSameKey(Iter(root), y0, q);
  }

  /** One `remove_part` call of another part keeps the kept part. */
  lemma {:induction false} RemovedPartKeeps(root: Element, t: Element, q: Element, kk: Key)
    requires Shrunk(root, t) && UniqueUids(Keys(Iter(root))) && Unenclosed(root, kk)
    requires q in Iter(root) && q.tag == "Part" && q.uid != kk.uid && kk.tag == "Part"
    requires kk in Keys(Iter(t)) && RemovedPart(t, q).Success?
    ensures kk in Keys(Iter(RemovedPart(t, q).value)) && Shrunk(root, RemovedPart(t, q).value)
    ensures KeyOf(RemovedPart(t, q).value) == KeyOf(t)
  {
    var pp := PartPath(t, q).value;
    var mid := RemoveAt(t, pp);
    var sp := FirstDescendant(mid, TagWithId("Staff", StaffIdOf(q).value)).value;
    assert RemovedPart(t, q).value == RemoveAt(mid, sp);
    PartBlockTag(root, t, pp, q);
    CutAvoids(root, t, pp, kk);
    CutAvoids(root, mid, sp, kk);
  }

  /** The removal loop keeps the kept part. */
  lemma {:induction false} RemovalLoopKeeps(root: Element, t: Element, ps: seq<Element>, kk: Key)
    requires Shrunk(root, t) && UniqueUids(Keys(Iter(root))) && Unenclosed(root, kk)
    requires kk.tag == "Part" && kk in Keys(Iter(t))
    requires forall q :: q in ps ==> q in Iter(root) && q.tag == "Part"
    requires ForOthers(t, ps, kk.uid, RemovedPart).Success?
    ensures kk in Keys(Iter(ForOthers(t, ps, kk.uid, RemovedPart).value))
    ensures KeyOf(ForOthers(t, ps, kk.uid, RemovedPart).value) == KeyOf(t)
    decreases |ps|
  {
    if ps != [] {
      assert ps[0] in ps;
      if ps[0].uid == kk.uid {
        RemovalLoopKeeps(root, t, ps[1..], kk);
      } else {
        RemovedPartKeeps(root, t, ps[0], kk);
        RemovalLoopKeeps(root, RemovedPart(t, ps[0]).value, ps[1..], kk);
      }
    }
  }

  lemma {:induction false} ShrunkRefl(t: Element)
    ensures Shrunk(t, t)
  {
    forall x | x in Iter(t)
      ensures exists y :: y in Iter(t) && Within(x, y)
    {
      assert Within(x, x);
    }
  }

  /** A tree whose root is no `Part` and that holds a `Part` key lists a `Part` with that identity. */
  lemma {:induction false} KeyListed(out: Element, kk: Key)
    requires kk.tag == "Part" && kk in Keys(Iter(out)) && out.tag != "Part"
    ensures exists q :: q in GetParts(out) && q.uid == kk.uid
  {
    KeysMembers(Iter(out));
    var x :| x in Iter(out) && KeyOf(x) == kk;
    assert x != out;
    assert x in GetParts(out);
  }

  /** The removal loop over the score's own parts keeps the kept part listed. */
  lemma {:induction false} PartsLoopKeeps(root: Element, kk: Key)
    requires UniqueUids(Keys(Iter(root))) && root.tag != "Part" && Unenclosed(root, kk)
    requires kk.tag == "Part" && kk in Keys(Iter(root))
    requires ForOthers(root, GetParts(root), kk.uid, RemovedPart).Success?
    ensures exists q :: (q in GetParts(ForOthers(root, GetParts(root), kk.uid, RemovedPart).value)
      && q.uid == kk.uid)
  {
    var ps := GetParts(root);
    ShrunkRefl(root);
    assert forall q :: q in ps ==> q in Iter(root) && q.tag == "Part";
    RemovalLoopKeeps(root, root, ps, kk);
    KeyListed(ForOthers(root, ps, kk.uid, RemovedPart).value, kk);
  }

  /**
   * In removal mode the part that was looked up is still there, as long as
   * it lies inside no other `Part` or `Staff`: the score that is written out
   * has a `Part` with its identity (and, by RemovalModeKeepsOnlyPart, no
   * other).
   */
  lemma {:induction false} RemovalModeKeepsPart(root: Element, name: Option<string>)
    requires UniqueUids(Keys(Iter(root))) && root.tag != "Part"
    requires FindPart(GetParts(root), name).Success?
    requires Unenclosed(root, KeyOf(GetParts(root)[FindPart(GetParts(root), name).value]))
    requires SinglePartScore(root, name).Success?
    ensures exists q :: (q in GetParts(SinglePartScore(root, name).value)
      && q.uid == GetParts(root)[FindPart(GetParts(root), name).value].uid)
  {
    var ps := GetParts(root);
    var part := ps[FindPart(ps, name).value];
    assert SinglePartScore(root, name) == ForOthers(root, ps, part.uid, RemovedPart);
    assert part in Iter(root);
    KeysMembers(Iter(root));
    PartsLoopKeeps(root, KeyOf(part));
  }
}
