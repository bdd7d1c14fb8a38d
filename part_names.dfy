/**
 * Listing the parts of a score and resolving their display names
 * (`get_parts`, `get_part_name`, `get_part_names` and the `next(...)`
 * lookup of the part to keep).
 */
module PartNames {
  import opened Wrappers
  import opened XmlTree

  /** The exceptions the part engine raises, by cause. */
  datatype ScoreError =
    | NoInstrument      // ValueError: a Part without an Instrument child
    | ShortNameOnly     // AttributeError: `.text` of the missing longName
    | NoName            // ValueError: no longName, shortName or trackName
    | PartNotFound      // ValueError: no part carries the requested name
    | NoStaffChild      // AttributeError: a Part without a Staff child
    | InvalidPredicate  // SyntaxError: a quote inside an `[@id='…']` path
    | StaffNotFound     // AttributeError: no `./Score/Staff` with the staff id
    | NoParent          // AttributeError: a `…/..` search found nothing
    | NotAChild         // ValueError: `remove` of an element that is no child

  /** `get_parts`: the Part elements below the root, in document order. */
  function GetParts(root: Element): (r: seq<Element>)
    ensures forall x :: x in r <==> x in Descendants(root) && x.tag == "Part"
    ensures |r| == Count(Descendants(root), Tag("Part"))
    ensures IsSubsequence(r, Descendants(root))
  {
    FindAll(Descendants(root), Tag("Part"))
  }

  /**
   * `get_part_name`, as it is written: the name is the text (possibly
   * absent) of `Instrument/longName`, else of the Part's `trackName`. When
   * longName is missing but shortName is present, the code falls through to
   * reading the text of the missing longName and fails.
   */
  function WrittenPartName(part: Element): (r: Result<Option<string>, ScoreError>)
    ensures r.Failure? ==> r.error in {NoInstrument, ShortNameOnly, NoName}
  {
    match Child(part, Tag("Instrument"))
    case None => Failure(NoInstrument)
    case Some(instrument) =>
      match Child(instrument, Tag("longName"))
      case Some(longName) => Success(longName.text)
      case None =>
        if Child(instrument, Tag("shortName")).Some? then Failure(ShortNameOnly)
        else
          match Child(part, Tag("trackName"))
          case None => Failure(NoName)
          case Some(trackName) => Success(trackName.text)
  }

  /** The shortName is never returned: a part named only by it has no name at all. */
  lemma {:induction false} ShortNameNeverReturned(part: Element, instrument: Element)
    requires Child(part, Tag("Instrument")) == Some(instrument)
    requires forall c :: c in instrument.children ==> c.tag != "longName"
    requires exists c :: c in instrument.children && c.tag == "shortName"
    ensures WrittenPartName(part) == Failure(ShortNameOnly)
  {
  }

  /**
   * `get_part_name` with the fallback chain longName, shortName, trackName
   * that its comments describe. The rest of the model resolves names by
   * this rule.
   */
  function PartName(part: Element): (r: Result<Option<string>, ScoreError>)
    ensures r.Failure? ==> r.error == NoInstrument || r.error == NoName
  {
    match Child(part, Tag("Instrument"))
    case None => Failure(NoInstrument)
    case Some(instrument) =>
      match Child(instrument, Tag("longName"))
      case Some(longName) => Success(longName.text)
      case None =>
        match Child(instrument, Tag("shortName"))
        case Some(shortName) => Success(shortName.text)
        case None =>
          match Child(part, Tag("trackName"))
          case None => Failure(NoName)
          case Some(trackName) => Success(trackName.text)
  }

  lemma {:induction false} PartNameNeedsInstrument(part: Element)
    ensures PartName(part) == Failure(NoInstrument)
        <==> forall c :: c in part.children ==> c.tag != "Instrument"
  {
  }

  /** A longName child of the first Instrument decides the name. */
  lemma {:induction false} PartNameFromLongName(part: Element, instrument: Element, longName: Element)
    requires Child(part, Tag("Instrument")) == Some(instrument)
    requires Child(instrument, Tag("longName")) == Some(longName)
    ensures PartName(part) == Success(longName.text)
  {
  }

  /** Without a longName, a shortName child of the first Instrument decides the name. */
  lemma {:induction false} PartNameFromShortName(part: Element, instrument: Element, shortName: Element)
    requires Child(part, Tag("Instrument")) == Some(instrument)
    requires forall c :: c in instrument.children ==> c.tag != "longName"
    requires Child(instrument, Tag("shortName")) == Some(shortName)
    ensures PartName(part) == Success(shortName.text)
  {
  }

  /** With neither longName nor shortName, the trackName decides, or the part has no name. */
  lemma {:induction false} PartNameFromTrackName(part: Element, instrument: Element)
    requires Child(part, Tag("Instrument")) == Some(instrument)
    requires forall c :: c in instrument.children ==> c.tag != "longName" && c.tag != "shortName"
    ensures Child(part, Tag("trackName")).None? ==> PartName(part) == Failure(NoName)
    ensures Child(part, Tag("trackName")).Some?
        ==> PartName(part) == Success(Child(part, Tag("trackName")).value.text)
  {
  }

  /**
   * The corrected rule names every part the written rule names, with the
   * same name, and differs only where the written rule fails on a shortName.
   */
  lemma {:induction false} IntendedExtendsWritten(part: Element)
    ensures WrittenPartName(part).Success? ==> PartName(part) == WrittenPartName(part)
    ensures WrittenPartName(part).Failure? && WrittenPartName(part).error != ShortNameOnly
        ==> PartName(part) == WrittenPartName(part)
    ensures WrittenPartName(part) == Failure(ShortNameOnly)
        ==> (PartName(part)
             == Success(Child(Child(part, Tag("Instrument")).value, Tag("shortName")).value.text))
  {
  }

  /** A violin part named only by `<shortName>Vln.</shortName>`. */
  function ShortNamedViolin(): Element {
    var shortName := Element(3, "shortName", map[], Some("Vln."), []);
    var instrument := Element(2, "Instrument", map[], None, [shortName]);
    Element(1, "Part", map["id" := "1"], None, [instrument])
  }

  /** The written rule fails on it; the corrected rule names it "Vln.". */
  lemma {:induction false} ShortNameFallbackLost()
    ensures WrittenPartName(ShortNamedViolin()) == Failure(ShortNameOnly)
    ensures PartName(ShortNamedViolin()) == Success(Some("Vln."))
  {
    var p := ShortNamedViolin();
    var instrument := p.children[0];
    assert Child(p, Tag("Instrument")) == Some(instrument);
    assert Child(instrument, Tag("longName")) == None;
    assert Child(instrument, Tag("shortName")) == Some(instrument.children[0]);
  }

  /** The name results of a list of parts, one per part. */
  function Resolve(parts: seq<Element>): (r: seq<Result<Option<string>, ScoreError>>)
    ensures |r| == |parts| && forall i :: 0 <= i < |parts| ==> r[i] == PartName(parts[i])
  {
    seq(|parts|, i requires 0 <= i < |parts| => PartName(parts[i]))
  }

  /** All names of a list of name results, or the first error among them. */
  function AllNames(rs: seq<Result<Option<string>, ScoreError>>): (r: Result<seq<Option<string>>, ScoreError>)
    ensures r.Success? ==> |r.value| == |rs| && forall i :: 0 <= i < |rs| ==> rs[i] == Success(r.value[i])
    ensures r.Success? <==> forall i :: 0 <= i < |rs| ==> rs[i].Success?
    ensures r.Failure? ==> exists i :: (0 <= i < |rs| && rs[i] == Failure(r.error)
      && (forall j :: 0 <= j < i ==> rs[j].Success?))
  {
    if rs == [] then Success([])
    else
      match rs[0]
      case Failure(e) => Failure(e)
      case Success(name) =>
        match AllNames(rs[1..])
        case Failure(e) =>
          ghost var i :| 0 <= i < |rs[1..]| && rs[1..][i] == Failure(e)
            && (forall j :: 0 <= j < i ==> rs[1..][j].Success?);
          assert rs[i + 1] == Failure(e);
          Failure(e)
        case Success(names) =>
          assert forall i :: 1 <= i < |rs| ==> rs[i] == rs[1..][i - 1];
          Success([name] + names)
  }

  /**
   * `get_part_names` over a list of parts: one name per part, in order; the
   * first part whose name cannot be resolved aborts the whole list.
   */
  function PartNames(parts: seq<Element>): (r: Result<seq<Option<string>>, ScoreError>)
    ensures r.Success? ==> |r.value| == |parts|
    ensures r.Success? ==> forall i :: 0 <= i < |parts| ==> PartName(parts[i]) == Success(r.value[i])
    ensures r.Success? <==> forall i :: 0 <= i < |parts| ==> PartName(parts[i]).Success?
    ensures r.Failure? ==> exists i :: (0 <= i < |parts| && PartName(parts[i]) == Failure(r.error)
      && (forall j :: 0 <= j < i ==> PartName(parts[j]).Success?))
  {
    var rs := Resolve(parts);
    var r := AllNames(rs);
    if r.Failure? then
      ghost var i :| 0 <= i < |rs| && rs[i] == Failure(r.error) && (forall j :: 0 <= j < i ==> rs[j].Success?);
      assert PartName(parts[i]) == Failure(r.error);
      r
    else r
  }

  /** Each of the first k results is a name other than `name`. */
  predicate NamedOtherwise(rs: seq<Result<Option<string>, ScoreError>>, k: nat, name: Option<string>)
    requires k <= |rs|
  {
    forall j :: 0 <= j < k ==> rs[j].Success? && rs[j].value != name
  }

  /** Each of the first k parts has a name, and it is not `name`. */
  predicate PartsNamedOtherwise(parts: seq<Element>, k: nat, name: Option<string>)
    requires k <= |parts|
  {
    forall j :: 0 <= j < k ==> PartName(parts[j]).Success? && PartName(parts[j]).value != name
  }

  lemma {:induction false} ResolveNamedOtherwise(parts: seq<Element>, k: nat, name: Option<string>)
    requires k <= |parts|
    ensures NamedOtherwise(Resolve(parts), k, name) <==> PartsNamedOtherwise(parts, k, name)
  {
    var rs := Resolve(parts);
    assert forall j :: 0 <= j < k ==> rs[j] == PartName(parts[j]);
  }

  /** The index of the first result that names `name`, with the errors met before it. */
  function FirstNamed(rs: seq<Result<Option<string>, ScoreError>>, name: Option<string>): (r: Result<nat, ScoreError>)
    requires forall i :: 0 <= i < |rs| ==> rs[i] != Failure(PartNotFound)
    ensures r.Success? ==> r.value < |rs| && rs[r.value] == Success(name) && NamedOtherwise(rs, r.value, name)
    ensures r == Failure(PartNotFound) <==> NamedOtherwise(rs, |rs|, name)
    ensures r.Failure? && r.error != PartNotFound
      ==> exists j :: 0 <= j < |rs| && rs[j] == Failure(r.error) && NamedOtherwise(rs, j, name)
  {
    if rs == [] then Failure(PartNotFound)
    else
      match rs[0]
      case Failure(e) => Failure(e)
      case Success(n) =>
        if n == name then Success(0)
        else
          assert forall i :: 1 <= i < |rs| ==> rs[i] == rs[1..][i - 1];
          match FirstNamed(rs[1..], name)
          case Success(k) => Success(k + 1)
          case Failure(e) =>
            if e == PartNotFound then Failure(e)
            else
              ghost var j :| 0 <= j < |rs[1..]| && rs[1..][j] == Failure(e) && NamedOtherwise(rs[1..], j, name);
              assert rs[j + 1] == Failure(e);
              Failure(e)
  }

  /**
   * `next((p for p in parts if get_part_name(p) == part_name), None)`: the
   * index of the first part whose name equals `name`. Names are resolved in
   * order up to that part, so an unnamed part before it raises; no match at
   * all is `PartNotFound`.
   */
  function FindPart(parts: seq<Element>, name: Option<string>): (r: Result<nat, ScoreError>)
    ensures r.Success? ==> (r.value < |parts| && PartName(parts[r.value]) == Success(name)
      && PartsNamedOtherwise(parts, r.value, name))
    ensures r == Failure(PartNotFound) <==> PartsNamedOtherwise(parts, |parts|, name)
    ensures r.Failure? && r.error != PartNotFound
      ==> exists j :: 0 <= j < |parts| && PartName(parts[j]) == Failure(r.error) && PartsNamedOtherwise(parts, j, name)
  {
    var rs := Resolve(parts);
    var r := FirstNamed(rs, name);
    ResolveNamedOtherwise(parts, |parts|, name);
    if r.Success? then
      ResolveNamedOtherwise(parts, r.value, name);
      r
    else if r.error != PartNotFound then
      ghost var j :| 0 <= j < |rs| && rs[j] == Failure(r.error) && NamedOtherwise(rs, j, name);
      ResolveNamedOtherwise(parts, j, name);
      r
    else
      r
  }

  /**
   * The batch drivers look every listed name up again: each lookup succeeds,
   * and lands on the first part carrying that name, which is the listed part
   * itself exactly when no earlier part has the same name.
   */
  lemma {:induction false} FindListedName(parts: seq<Element>, names: seq<Option<string>>, i: nat)
    requires PartNames(parts) == Success(names) && i < |parts|
    ensures FindPart(parts, names[i]).Success?
    ensures FindPart(parts, names[i]).value <= i
    ensures names[FindPart(parts, names[i]).value] == names[i]
    ensures FindPart(parts, names[i]).value == i <==> forall j :: 0 <= j < i ==> names[j] != names[i]
  {
    assert PartName(parts[i]) == Success(names[i]);
    assert forall j :: 0 <= j < |parts| ==> PartName(parts[j]) == Success(names[j]);
  }
}
