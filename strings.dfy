/**
 * Splitting text at a one-character separator, as JavaScript's and Python's
 * `split` do it, and the pieces the code takes from the result: the first
 * (`s.split('.')[0]`) and the last (`s.split('/').pop()`, which is also what
 * a POSIX `basename` returns).
 */
module Strings {

  /** `s.split(sep)`: the pieces between separators, in order; the empty text gives one empty piece. */
  function Split(s: string, sep: char): (r: seq<string>)
    ensures |r| >= 1
    ensures forall i :: 0 <= i < |r| ==> sep !in r[i]
    decreases |s|
  {
    if s == [] then [""]
    else
      var rest := Split(s[1..], sep);
      if s[0] == sep then [""] + rest
      else
        var r := [[s[0]] + rest[0]] + rest[1..];
        assert forall i :: 1 <= i < |r| ==> r[i] == rest[i];
        r
  }

  /** The number of times c occurs in s. */
  function Occurrences(s: string, c: char): nat {
    if s == [] then 0 else (if s[0] == c then 1 else 0) + Occurrences(s[1..], c)
  }

  /** `sep.join(parts)`. */
  function Join(parts: seq<string>, sep: char): string
    requires |parts| >= 1
    decreases |parts|
  {
    if |parts| == 1 then parts[0] else parts[0] + [sep] + Join(parts[1..], sep)
  }

  /** Joining the pieces back with the separator gives the text that was split. */
  lemma {:induction false} JoinSplit(s: string, sep: char)
    ensures Join(Split(s, sep), sep) == s
    decreases |s|
  {
    if s != [] {
      var rest := Split(s[1..], sep);
      JoinSplit(s[1..], sep);
      if s[0] == sep {
        assert Split(s, sep) == [""] + rest;
        assert (([""] + rest)[1..]) == rest;
      } else {
        var r := Split(s, sep);
        assert r == [[s[0]] + rest[0]] + rest[1..];
        if |rest| == 1 {
          assert Join(r, sep) == [s[0]] + rest[0];
        } else {
          assert r[1..] == rest[1..];
          assert Join(r, sep) == [s[0]] + rest[0] + [sep] + Join(rest[1..], sep);
          assert Join(rest, sep) == rest[0] + [sep] + Join(rest[1..], sep);
        }
      }
    }
  }

  /** Splitting the joined pieces gives them back, when none holds the separator. */
  lemma {:induction false} SplitJoin(parts: seq<string>, sep: char)
    requires |parts| >= 1
    requires forall i :: 0 <= i < |parts| ==> sep !in parts[i]
    ensures Split(Join(parts, sep), sep) == parts
    decreases |parts|
  {
    if |parts| == 1 {
      SplitPlain(parts[0], sep);
    } else {
      SplitJoin(parts[1..], sep);
      SplitPrefix(parts[0], Join(parts[1..], sep), sep);
      assert parts == [parts[0]] + parts[1..];
    }
  }

  /** Text without the separator is one piece. */
  lemma {:induction false} SplitPlain(s: string, sep: char)
    requires sep !in s
    ensures Split(s, sep) == [s]
    decreases |s|
  {
    if s != [] {
      SplitPlain(s[1..], sep);
      assert [s[0]] + s[1..] == s;
    }
  }

  /** A separator after a piece without one starts a new piece. */
  lemma {:induction false} SplitPrefix(a: string, b: string, sep: char)
    requires sep !in a
    ensures Split(a + [sep] + b, sep) == [a] + Split(b, sep)
    decreases |a|
  {
    if a == [] {
      assert a + [sep] + b == [sep] + b;
      assert ([sep] + b)[1..] == b;
    } else {
      assert (a + [sep] + b)[1..] == a[1..] + [sep] + b;
      SplitPrefix(a[1..], b, sep);
      assert [a[0]] + a[1..] == a;
    }
  }

  /** There is one more piece than there are separators. */
  lemma {:induction false} SplitCount(s: string, sep: char)
    ensures |Split(s, sep)| == Occurrences(s, sep) + 1
    decreases |s|
  {
    if s != [] {
      SplitCount(s[1..], sep);
    }
  }

  /** `s.split(sep)[0]`: the text before the first separator. */
  function First(s: string, sep: char): (r: string)
    ensures sep !in r
  {
    Split(s, sep)[0]
  }

  /** The first piece is a prefix, followed by the separator unless it is all of s. */
  lemma {:induction false} FirstIsPrefix(s: string, sep: char)
    ensures |First(s, sep)| <= |s| && First(s, sep) == s[..|First(s, sep)|]
    ensures |First(s, sep)| < |s| ==> s[|First(s, sep)|] == sep
    ensures sep !in s ==> First(s, sep) == s
    decreases |s|
  {
    if s != [] {
      FirstIsPrefix(s[1..], sep);
    }
  }

  /** `s.split(sep).pop()` (and a POSIX `basename` for sep '/'): the text after the last separator. */
  function Last(s: string, sep: char): (r: string)
    ensures sep !in r
  {
    var ps := Split(s, sep);
    ps[|ps| - 1]
  }

  /** The last piece is a suffix, preceded by the separator unless it is all of s. */
  lemma {:induction false} LastIsSuffix(s: string, sep: char)
    ensures |Last(s, sep)| <= |s| && Last(s, sep) == s[|s| - |Last(s, sep)|..]
    ensures |Last(s, sep)| < |s| ==> s[|s| - |Last(s, sep)| - 1] == sep
    ensures |Split(s, sep)| > 1 ==> |Last(s, sep)| < |s|
    ensures sep !in s ==> Last(s, sep) == s
    decreases |s|
  {
    if s != [] {
      LastIsSuffix(s[1..], sep);
      var rest := Split(s[1..], sep);
      var l := Last(s[1..], sep);
      if s[0] == sep {
        assert Last(s, sep) == l;
      } else if |rest| == 1 {
        JoinSplit(s[1..], sep);
        assert l == s[1..];
        assert Last(s, sep) == [s[0]] + l;
        assert [s[0]] + s[1..] == s;
      } else {
        assert Last(s, sep) == l;
        assert |l| < |s| - 1;
      }
    }
  }

  /** The text before the last separator (empty when there is none). */
  function Head(s: string, sep: char): (r: string)
  {
    LastIsSuffix(s, sep);
    s[..|s| - |Last(s, sep)|]
  }

  lemma {:induction false} HeadLast(s: string, sep: char)
    ensures Head(s, sep) + Last(s, sep) == s
    ensures Head(s, sep) == [] || Head(s, sep)[|Head(s, sep)| - 1] == sep
  {
    LastIsSuffix(s, sep);
  }

  /** After a text that is empty or ends with the separator, a piece without one is the last piece. */
  lemma {:induction false} LastAfter(a: string, b: string, sep: char)
    requires a == [] || a[|a| - 1] == sep
    requires sep !in b
    ensures Last(a + b, sep) == b
    ensures Head(a + b, sep) == a
  {
    LastIsSuffix(a + b, sep);
    var l := Last(a + b, sep);
    assert (a + b)[..|a|] == a;
  }
}
