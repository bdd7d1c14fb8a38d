/**
 * `get_musescore_version`: the major version of the program that wrote a
 * score, read from the first `programVersion` element of the parsed
 * document as the integer before the first dot.
 */
module Versions {
  import opened Wrappers
  import opened Strings
  import opened XmlTree

  /** The exceptions the version lookup raises, by cause. */
  datatype VersionError =
    | NoVersion     // ValueError: no programVersion element
    | NoText        // AttributeError: `.split` on the text None of an empty element
    | NotAnInteger  // ValueError: `int()` of text that is no integer

  predicate IsDigit(c: char) {
    '0' <= c <= '9'
  }

  predicate AllDigits(s: string) {
    forall i :: 0 <= i < |s| ==> IsDigit(s[i])
  }

  /** The value of a string of decimal digits, most significant first. */
  function DigitsValue(s: string): nat
    requires AllDigits(s)
    decreases |s|
  {
    if s == [] then 0 else 10 * DigitsValue(s[..|s| - 1]) + (s[|s| - 1] - '0') as nat
  }

  /** An optional sign followed by at least one decimal digit. */
  predicate IsInteger(s: string) {
    if |s| > 0 && (s[0] == '-' || s[0] == '+') then |s| > 1 && AllDigits(s[1..])
    else |s| > 0 && AllDigits(s)
  }

  /** Python's `int(s)` on the texts it reads as a decimal integer; None stands for the ValueError. */
  function ParseInt(s: string): (r: Option<int>)
    ensures r.Some? <==> IsInteger(s)
  {
    if |s| > 0 && s[0] == '-' then
      if |s| > 1 && AllDigits(s[1..]) then Some(-(DigitsValue(s[1..]) as int)) else None
    else if |s| > 0 && s[0] == '+' then
      if |s| > 1 && AllDigits(s[1..]) then Some(DigitsValue(s[1..]) as int) else None
    else if |s| > 0 && AllDigits(s) then Some(DigitsValue(s) as int)
    else None
  }

  /** The decimal digits of n, without leading zeros. */
  function ShowNat(n: nat): (r: string)
    ensures |r| > 0 && AllDigits(r)
  {
    var d := ['0' + (n % 10) as char];
    if n < 10 then d
    else
      var r := ShowNat(n / 10) + d;
      assert forall i :: 0 <= i < |r| - 1 ==> r[i] == ShowNat(n / 10)[i];
      r
  }

  /** `str(n)`. */
  function ShowInt(n: int): (r: string)
    ensures '.' !in r
  {
    var r := if n < 0 then "-" + ShowNat(-n) else ShowNat(n);
    assert forall i :: 0 <= i < |r| ==> r[i] == '-' || IsDigit(r[i]);
    r
  }

  lemma {:induction false} DigitsOfShow(n: nat)
    ensures DigitsValue(ShowNat(n)) == n
  {
    var s := ShowNat(n);
    if n >= 10 {
      DigitsOfShow(n / 10);
      assert s[..|s| - 1] == ShowNat(n / 10);
    }
  }

  /** `int(str(n)) == n`: the parse inverts the rendering. */
  lemma {:induction false} ParseShow(n: int)
    ensures ParseInt(ShowInt(n)) == Some(n)
  {
    if n < 0 {
      DigitsOfShow(-n);
      assert ShowInt(n)[1..] == ShowNat(-n);
    } else {
      DigitsOfShow(n);
    }
  }

  /** The text of the element found by `root.find(".//programVersion")`, or the error on the way. */
  function VersionText(root: Element): (r: Result<string, VersionError>)
    ensures r == Failure(NoVersion) <==> forall x :: x in Descendants(root) ==> x.tag != "programVersion"
    ensures r.Failure? ==> r.error in {NoVersion, NoText}
  {
    match FirstDescendant(root, Tag("programVersion"))
    case None => Failure(NoVersion)
    case Some(p) =>
      match At(root, p).text
      case None => Failure(NoText)
      case Some(t) => Success(t)
  }

  /** `get_musescore_version`: `int(text.split(".")[0])` of the first programVersion. */
  function MajorVersion(root: Element): (r: Result<int, VersionError>)
    ensures r == Failure(NoVersion) <==> forall x :: x in Descendants(root) ==> x.tag != "programVersion"
    ensures VersionText(root).Success? ==> (r.Success? <==> IsInteger(First(VersionText(root).value, '.')))
  {
    match VersionText(root)
    case Failure(e) => Failure(e)
    case Success(t) =>
      match ParseInt(First(t, '.'))
      case None => Failure(NotAnInteger)
      case Some(v) => Success(v)
  }

  /** A version text `n.rest` (or just `n`) gives major version n. */
  lemma {:induction false} MajorVersionOf(root: Element, n: int, rest: Option<string>)
    requires VersionText(root) == Success(ShowInt(n) + (if rest.Some? then "." + rest.value else ""))
    ensures MajorVersion(root) == Success(n)
  {
    var t := ShowInt(n) + (if rest.Some? then "." + rest.value else "");
    if rest.Some? {
      SplitPrefix(ShowInt(n), rest.value, '.');
      assert t == ShowInt(n) + ['.'] + rest.value;
      assert Split(t, '.') == [ShowInt(n)] + Split(rest.value, '.');
    } else {
      SplitPlain(ShowInt(n), '.');
      assert t == ShowInt(n);
    }
    assert First(t, '.') == ShowInt(n);
    ParseShow(n);
  }
}
