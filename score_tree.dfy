/**
 * The engine's in-place edits: a parsed score whose tree the part loops,
 * the silencing loops and the Harmony loop change step by step, and the two
 * batch drivers that produce one edited score per part.
 */
module ScoreTree {
  import opened Wrappers
  import opened XmlTree
  import opened PartNames
  import opened ScoreEdit

  /** One edit of the per-part loops: `silence_all_measures_of_part` or `remove_part`. */
  type Step = (Element, Element) -> Result<Element, ScoreError>

  /**
   * The loop `for p in ps: if p != part: step(p, root)` (the kept part is
   * recognised by identity), stopping at the first error.
   */
  function ForOthers(t: Element, ps: seq<Element>, keep: nat, step: Step): Result<Element, ScoreError>
    decreases |ps|
  {
    if ps == [] then Success(t)
    else if ps[0].uid == keep then ForOthers(t, ps[1..], keep, step)
    else
      match step(t, ps[0])
      case Failure(e) => Failure(e)
      case Success(t') => ForOthers(t', ps[1..], keep, step)
  }

  /** The kept part is passed over. */
  lemma {:induction false} ForOthersSkip(t: Element, ps: seq<Element>, i: nat, keep: nat, step: Step)
    requires i < |ps| && ps[i].uid == keep
    ensures ForOthers(t, ps[i..], keep, step) == ForOthers(t, ps[i + 1..], keep, step)
  {
    assert ps[i..][0] == ps[i] && ps[i..][1..] == ps[i + 1..];
  }

  /** Any other part is edited, and an error ends the loop. */
  lemma {:induction false} ForOthersEdit(t: Element, ps: seq<Element>, i: nat, keep: nat, step: Step)
    requires i < |ps| && ps[i].uid != keep
    ensures step(t, ps[i]).Failure? ==> ForOthers(t, ps[i..], keep, step) == Failure(step(t, ps[i]).error)
    ensures step(t, ps[i]).Success?
      ==> ForOthers(t, ps[i..], keep, step) == ForOthers(step(t, ps[i]).value, ps[i + 1..], keep, step)
  {
    assert ps[i..][0] == ps[i] && ps[i..][1..] == ps[i + 1..];
  }

  /**
   * The tree edits of `silence_all_parts_except`: the tree that is written
   * out and the final `removed_count`, or the error raised on the way.
   */
  function SilencedScore(root: Element, name: Option<string>): Result<(Element, nat), ScoreError> {
    var parts := GetParts(root);
    match FindPart(parts, name)
    case Failure(e) => Failure(e)
    case Success(k) =>
      match ForOthers(root, parts, parts[k].uid, SilencePart)
      case Failure(e) => Failure(e)
      case Success(t) => Success((HarmonyStripped(t), Count(Descendants(t), Tag("Harmony"))))
  }

  /** The tree edits of `create_single_part_mscz`: the tree that is written out, or the error. */
  function SinglePartScore(root: Element, name: Option<string>): Result<Element, ScoreError> {
    var parts := GetParts(root);
    match FindPart(parts, name)
    case Failure(e) => Failure(e)
    case Success(k) => ForOthers(root, parts, parts[k].uid, RemovedPart)
  }

  /** A lookup that fails leaves nothing done: the error is raised before any edit. */
  lemma {:induction false} LookupFailsFirst(root: Element, name: Option<string>)
    ensures FindPart(GetParts(root), name).Failure?
      ==> (SilencedScore(root, name) == Failure(FindPart(GetParts(root), name).error)
           && SinglePartScore(root, name) == Failure(FindPart(GetParts(root), name).error))
  {
  }

  /**
   * The identity test `p != part` passes the kept part over: in either
   * loop, a list holding only the kept part changes nothing. What the
   * silencing loop leaves of the kept part's staff in a whole score is
   * SilenceMode.KeptStaffUntouched.
   */
  lemma {:induction false} KeptPartSkipped(t: Element, keep: Element)
    ensures ForOthers(t, [keep], keep.uid, SilencePart) == Success(t)
    ensures ForOthers(t, [keep], keep.uid, RemovedPart) == Success(t)
  {
  }

  /** The inner loop of `silence_all_measures_of_part`: every `voice` of one measure is silenced. */
  method SilenceVoices(measure0: Element) returns (measure: Element)
    ensures measure == SilenceMeasure(measure0)
  {
    measure := measure0;
    var vi := 0;
    while vi < |measure.children|
      invariant 0 <= vi <= |measure.children| == |measure0.children|
      invariant measure == measure0.(children := measure.children)
      invariant forall j :: 0 <= j < vi ==> measure.children[j] == SilenceInMeasure(measure0.children[j])
      invariant forall j :: vi <= j < |measure.children| ==> measure.children[j] == measure0.children[j]
    {
      var voice := measure.children[vi];
      if voice.tag == "voice" {
        measure := measure.(children := measure.children[vi := SilenceVoice(voice)]);
      }
      vi := vi + 1;
    }
    assert measure.children == SilenceMeasure(measure0).children;
  }

  class Score {
    var root: Element

    constructor (doc: Element)
      ensures root == doc
    {
      root := doc;
    }

    /** `remove_part(part, root)`. */
    method RemovePart(part: Element) returns (res: Result<(), ScoreError>)
      modifies this
      ensures res.Success? <==> RemovedPart(old(root), part).Success?
      ensures res.Failure? ==> res.error == RemovedPart(old(root), part).error
      ensures res.Success? ==> root == RemovedPart(old(root), part).value
    {
      var staffId := StaffIdOf(part);
      if staffId.Failure? {
        return Failure(staffId.error);
      }
      var partPath := PartPath(root, part);
      if partPath.Failure? {
        return Failure(partPath.error);
      }
      root := RemoveAt(root, partPath.value);
      if !Quotable(staffId.value) {
        return Failure(InvalidPredicate);
      }
      var staffPath := FirstDescendant(root, TagWithId("Staff", staffId.value));
      if staffPath.None? {
        return Failure(NoParent);
      }
      root := RemoveAt(root, staffPath.value);
      return Success(());
    }

    /**
     * `silence_all_measures_of_part(part, root)`: for every `Measure` of the
     * part's staff and every `voice` of that measure, the voice's timed
     * descendants become `Rest`. A missing staff raises before any change.
     */
    method SilenceAllMeasuresOfPart(part: Element) returns (res: Result<(), ScoreError>)
      modifies this
      ensures res.Success? <==> SilencePart(old(root), part).Success?
      ensures res.Failure? ==> res.error == SilencePart(old(root), part).error && root == old(root)
      ensures res.Success? ==> root == SilencePart(old(root), part).value
    {
      var found := StaffOfPart(part, root);
      if found.Failure? {
        return Failure(found.error);
      }
      if found.value.None? {
        return Failure(StaffNotFound);
      }
      var p := found.value.value;
      var staff0 := At(root, p);
      var staff := staff0;
      var mi := 0;
      while mi < |staff.children|
        invariant 0 <= mi <= |staff.children| == |staff0.children|
        invariant root == old(root)
        invariant staff == staff0.(children := staff.children)
        invariant forall j :: 0 <= j < mi ==> staff.children[j] == SilenceInStaff(staff0.children[j])
        invariant forall j :: mi <= j < |staff.children| ==> staff.children[j] == staff0.children[j]
      {
        var measure0 := staff.children[mi];
        if measure0.tag == "Measure" {
          var measure := SilenceVoices(measure0);
          staff := staff.(children := staff.children[mi := measure]);
        }
        mi := mi + 1;
      }
      assert staff.children == SilenceStaff(staff0).children;
      root := ReplaceAt(root, p, staff);
      return Success(());
    }

    /**
     * The Harmony loop of `silence_all_parts_except`: every element with a
     * `Harmony` child loses those children, and `removed` counts them.
     */
    method StripHarmony() returns (removed: nat)
      modifies this
      ensures root == HarmonyStripped(old(root))
      ensures removed == Count(Descendants(old(root)), Tag("Harmony"))
      ensures NoHarmony(Descendants(root))
    {
      var parents := HarmonyParents(Iter(root));
      ghost var root0 := root;
      StripNothing(root0);
      assert UidSet(parents[..0]) == {};
      removed := 0;
      var i := 0;
      while i < |parents|
        invariant 0 <= i <= |parents|
        invariant root == StripAt(root0, UidSet(parents[..i]))
        invariant removed == HarmonyChildren(parents[..i])
      {
        var harmonies := FindAll(parents[i].children, Tag("Harmony"));
        HarmonyStep(root0, parents, i);
        root := StripAt(root, {parents[i].uid});
        removed := removed + |harmonies|;
        i := i + 1;
      }
      assert parents[..i] == parents;
      HarmonyStrippedEffect(root0);
    }

    /**
     * The loop `for p in parts: if p != part: silence_all_measures_of_part(p, root)`: every part
     * but the one with identity `keep` is edited in turn, and the first
     * error ends the loop.
     */
    method SilenceOtherParts(parts: seq<Element>, keep: nat) returns (res: Result<(), ScoreError>)
      modifies this
      ensures res.Success? <==> ForOthers(old(root), parts, keep, SilencePart).Success?
      ensures res.Failure? ==> res.error == ForOthers(old(root), parts, keep, SilencePart).error
      ensures res.Success? ==> root == ForOthers(old(root), parts, keep, SilencePart).value
    {
      ghost var target := ForOthers(root, parts, keep, SilencePart);
      assert parts[0..] == parts;
      var i := 0;
      while i < |parts|
        invariant 0 <= i <= |parts|
        invariant target == ForOthers(root, parts[i..], keep, SilencePart)
      {
        if parts[i].uid != keep {
          ghost var t := root;
          var r := SilenceAllMeasuresOfPart(parts[i]);
          ForOthersEdit(t, parts, i, keep, SilencePart);
          if r.Failure? {
            return Failure(r.error);
          }
          assert root == SilencePart(t, parts[i]).value;
        } else {
          ForOthersSkip(root, parts, i, keep, SilencePart);
        }
        i := i + 1;
      }
      return Success(());
    }

    /**
     * The tree edits of `silence_all_parts_except(part_name)`: look the part
     * up, silence every other part, then strip the Harmony elements.
     */
    method SilenceAllPartsExcept(name: Option<string>) returns (res: Result<nat, ScoreError>)
      modifies this
      ensures res.Success? <==> SilencedScore(old(root), name).Success?
      ensures res.Failure? ==> res.error == SilencedScore(old(root), name).error
      ensures res.Success? ==> (root == SilencedScore(old(root), name).value.0
        && res.value == SilencedScore(old(root), name).value.1)
    {
      var parts := GetParts(root);
      var found := FindPart(parts, name);
      if found.Failure? {
        return Failure(found.error);
      }
      var part := parts[found.value];
      var r := SilenceOtherParts(parts, part.uid);
      if r.Failure? {
        return Failure(r.error);
      }
      var removed := StripHarmony();
      return Success(removed);
    }

    /**
     * The loop `for p in parts: if p != part: remove_part(p, root)`: every part
     * but the one with identity `keep` is edited in turn, and the first
     * error ends the loop.
     */
    method RemoveOtherParts(parts: seq<Element>, keep: nat) returns (res: Result<(), ScoreError>)
      modifies this
      ensures res.Success? <==> ForOthers(old(root), parts, keep, RemovedPart).Success?
      ensures res.Failure? ==> res.error == ForOthers(old(root), parts, keep, RemovedPart).error
      ensures res.Success? ==> root == ForOthers(old(root), parts, keep, RemovedPart).value
    {
      ghost var target := ForOthers(root, parts, keep, RemovedPart);
      assert parts[0..] == parts;
      var i := 0;
      while i < |parts|
        invariant 0 <= i <= |parts|
        invariant target == ForOthers(root, parts[i..], keep, RemovedPart)
      {
        if parts[i].uid != keep {
          ghost var t := root;
          var r := RemovePart(parts[i]);
          ForOthersEdit(t, parts, i, keep, RemovedPart);
          if r.Failure? {
            return Failure(r.error);
          }
          assert root == RemovedPart(t, parts[i]).value;
        } else {
          ForOthersSkip(root, parts, i, keep, RemovedPart);
        }
        i := i + 1;
      }
      return Success(());
    }

    /**
     * The tree edits of `create_single_part_mscz(part_name)`: look the part
     * up, then remove every other part with its staff.
     */
    method CreateSinglePart(name: Option<string>) returns (res: Result<(), ScoreError>)
      modifies this
      ensures res.Success? <==> SinglePartScore(old(root), name).Success?
      ensures res.Failure? ==> res.error == SinglePartScore(old(root), name).error
      ensures res.Success? ==> root == SinglePartScore(old(root), name).value
    {
      var parts := GetParts(root);
      var found := FindPart(parts, name);
      if found.Failure? {
        return Failure(found.error);
      }
      var part := parts[found.value];
      var r := RemoveOtherParts(parts, part.uid);
      if r.Failure? {
        return Failure(r.error);
      }
      return Success(());
    }
  }

  /** Stripping at no element changes nothing. */
  lemma {:induction false} StripNothing(e: Element)
    ensures StripAt(e, {}) == e
    decreases e, 1
  {
    StripNothingEach(e.children);
  }

  lemma {:induction false} StripNothingEach(cs: seq<Element>)
    ensures StripEach(cs, {}) == cs
    decreases cs, 0
  {
    if cs != [] {
      StripNothing(cs[0]);
      StripNothingEach(cs[1..]);
      assert cs == [cs[0]] + cs[1..];
    }
  }

  /** What one iteration of a batch driver writes: the file name's stem and the tree. */
  datatype Output = Output(name: Option<string>, score: Element)

  function Then(done: seq<Output>, rest: Result<seq<Output>, ScoreError>): Result<seq<Output>, ScoreError> {
    match rest
    case Failure(e) => Failure(e)
    case Success(more) => Success(done + more)
  }

  /** The edit one batch iteration applies to a fresh parse of the document, given the part's name. */
  type Edit = (Element, Option<string>) -> Result<Element, ScoreError>

  /** `silence_all_parts_except` as an edit: the tree it writes out. */
  function SilencedTree(doc: Element, name: Option<string>): Result<Element, ScoreError> {
    match SilencedScore(doc, name)
    case Failure(e) => Failure(e)
    case Success(t) => Success(t.0)
  }

  /**
   * A batch driver over the parts ps: for each part, in order, its name and
   * the tree `edit` makes from a fresh parse of the document for that name;
   * the first error ends the run.
   */
  function Batch(doc: Element, ps: seq<Element>, edit: Edit): (r: Result<seq<Output>, ScoreError>)
    ensures r.Success? ==> |r.value| == |ps|
    decreases |ps|
  {
    if ps == [] then Success([])
    else
      match PartName(ps[0])
      case Failure(e) => Failure(e)
      case Success(name) =>
        match edit(doc, name)
        case Failure(e) => Failure(e)
        case Success(t) => Then([Output(name, t)], Batch(doc, ps[1..], edit))
  }

  lemma {:induction false} ThenNothing(rest: Result<seq<Output>, ScoreError>)
    ensures Then([], rest) == rest
  {
    if rest.Success? {
      assert [] + rest.value == rest.value;
    }
  }

  /** One batch iteration that succeeds adds one output and moves on to the next part. */
  lemma {:induction false} BatchAdvance(doc: Element, ps: seq<Element>, edit: Edit, out: seq<Output>, name: Option<string>, t: Element)
    requires ps != [] && PartName(ps[0]) == Success(name) && edit(doc, name) == Success(t)
    ensures Then(out, Batch(doc, ps, edit)) == Then(out + [Output(name, t)], Batch(doc, ps[1..], edit))
  {
    var rest := Batch(doc, ps[1..], edit);
    if rest.Success? {
      assert out + ([Output(name, t)] + rest.value) == (out + [Output(name, t)]) + rest.value;
    }
  }

  /** A name error or an edit error ends a batch run with that error. */
  lemma {:induction false} BatchStop(doc: Element, ps: seq<Element>, edit: Edit, out: seq<Output>, e: ScoreError)
    requires ps != []
    requires PartName(ps[0]) == Failure(e) || (PartName(ps[0]).Success? && edit(doc, PartName(ps[0]).value) == Failure(e))
    ensures Then(out, Batch(doc, ps, edit)) == Failure(e)
  {
  }

  /** Each output of a batch run is the edit for the part's own name. */
  lemma {:induction false} BatchEach(doc: Element, ps: seq<Element>, edit: Edit, i: nat)
    requires Batch(doc, ps, edit).Success? && i < |ps|
    ensures PartName(ps[i]) == Success(Batch(doc, ps, edit).value[i].name)
    ensures edit(doc, Batch(doc, ps, edit).value[i].name) == Success(Batch(doc, ps, edit).value[i].score)
    decreases |ps|
  {
    var name := PartName(ps[0]).value;
    var t := edit(doc, name).value;
    var rest := Batch(doc, ps[1..], edit);
    assert rest.Success? && Batch(doc, ps, edit).value == [Output(name, t)] + rest.value;
    if i > 0 {
      assert Batch(doc, ps, edit).value[i] == rest.value[i - 1];
      assert ps[1..][i - 1] == ps[i];
      BatchEach(doc, ps[1..], edit, i - 1);
    }
  }

  /** `create_separate_msczs_for_parts(doc)`: the per-part loop, each part edited on a fresh parse. */
  method CreateSeparateScores(doc: Element) returns (res: Result<seq<Output>, ScoreError>)
    ensures res == Batch(doc, GetParts(doc), SinglePartScore)
  {
    var parts := GetParts(doc);
    var out: seq<Output> := [];
    var i := 0;
    assert parts[i..] == parts;
    ThenNothing(Batch(doc, parts, SinglePartScore));
    while i < |parts|
      invariant 0 <= i <= |parts|
      invariant Batch(doc, parts, SinglePartScore) == Then(out, Batch(doc, parts[i..], SinglePartScore))
    {
      assert parts[i..][1..] == parts[i + 1..];
      var name := PartName(parts[i]);
      if name.Failure? {
        BatchStop(doc, parts[i..], SinglePartScore, out, name.error);
        return Failure(name.error);
      }
      var score := new Score(doc);
      var r := score.CreateSinglePart(name.value);
      if r.Failure? {
        assert SinglePartScore(doc, name.value) == Failure(r.error);
        BatchStop(doc, parts[i..], SinglePartScore, out, r.error);
        return Failure(r.error);
      }
      assert SinglePartScore(doc, name.value) == Success(score.root);
      BatchAdvance(doc, parts[i..], SinglePartScore, out, name.value, score.root);
      out := out + [Output(name.value, score.root)];
      i := i + 1;
    }
    assert parts[i..] == [];
    assert out + [] == out;
    return Success(out);
  }

  /** `create_msczs_with_all_other_parts_silenced_for_every_part_in(doc)`. */
  method CreateSilencedScores(doc: Element) returns (res: Result<seq<Output>, ScoreError>)
    ensures res == Batch(doc, GetParts(doc), SilencedTree)
  {
    var parts := GetParts(doc);
    var out: seq<Output> := [];
    var i := 0;
    assert parts[i..] == parts;
    ThenNothing(Batch(doc, parts, SilencedTree));
    while i < |parts|
      invariant 0 <= i <= |parts|
      invariant Batch(doc, parts, SilencedTree) == Then(out, Batch(doc, parts[i..], SilencedTree))
    {
      assert parts[i..][1..] == parts[i + 1..];
      var name := PartName(parts[i]);
      if name.Failure? {
        BatchStop(doc, parts[i..], SilencedTree, out, name.error);
        return Failure(name.error);
      }
      var score := new Score(doc);
      var r := score.SilenceAllPartsExcept(name.value);
      if r.Failure? {
        assert SilencedTree(doc, name.value) == Failure(r.error);
        BatchStop(doc, parts[i..], SilencedTree, out, r.error);
        return Failure(r.error);
      }
      assert SilencedTree(doc, name.value) == Success(score.root);
      BatchAdvance(doc, parts[i..], SilencedTree, out, name.value, score.root);
      out := out + [Output(name.value, score.root)];
      i := i + 1;
    }
    assert parts[i..] == [];
    assert out + [] == out;
    return Success(out);
  }
}
