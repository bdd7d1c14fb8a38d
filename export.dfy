/**
 * `export_to_other_format`: the format check, the output file name and
 * directory built from the input path with POSIX path rules, and the choice
 * of renderer by the score's major version. The renderer run itself is an
 * input: whether it succeeded.
 */
module Export {
  import opened Wrappers
  import opened Strings
  import opened XmlTree
  import opened Versions

  const MuseScore3Path: string := "/Applications/MuseScore 3.app/Contents/MacOS/mscore"
  const MuseScore4Path: string := "/Applications/MuseScore 4.app/Contents/MacOS/mscore"

  /** The formats the renderer can write, in the order the code lists them. */
  const ExportFormats: seq<string> := [
    "flac", "metajson", "mid", "midi", "mlog", "mp3", "mpos", "mscx", "mscz",
    "musicxml", "mxl", "ogg", "pdf", "png", "spos", "svg", "wav", "xml"
  ]

  /** The exceptions `export_to_other_format` raises, by cause. */
  datatype ExportError =
    | UnsupportedFormat               // ValueError: a format not in the list
    | VersionUnreadable(VersionError) // raised by `get_musescore_version`
    | UnsupportedVersion(version: int) // ValueError: a major version other than 3 or 4

  /** A non-empty file name component without an extension. */
  predicate PlainName(f: string) {
    f != "" && '.' !in f && '/' !in f
  }

  lemma {:induction false} FormatsAreNames()
    ensures |ExportFormats| == 18
    ensures forall f :: f in ExportFormats ==> f != "" && '.' !in f && '/' !in f
  {
    forall i | 0 <= i < |ExportFormats|
      ensures PlainName(ExportFormats[i])
    {
    }
  }

  // ---------------------------------------------------------------------------
  // POSIX path rules

  /** `os.path.basename(p)`: what follows the last '/'. */
  function Basename(p: string): (r: string)
    ensures '/' !in r
  {
    Last(p, '/')
  }

  predicate AllSlashes(s: string) {
    forall i :: 0 <= i < |s| ==> s[i] == '/'
  }

  /** Slices of s from the slices of s without its last element. */
  lemma {:induction false} InitSlices<T>(s: seq<T>, k: nat)
    requires k < |s|
    ensures s[..|s| - 1][..k] == s[..k]
    ensures s[k..] == s[..|s| - 1][k..] + [s[|s| - 1]]
  {
  }

  /** `s.rstrip('/')`. */
  function StripSlashes(s: string): (r: string)
    ensures |r| <= |s| && r == s[..|r|]
    ensures r == [] || r[|r| - 1] != '/'
    ensures AllSlashes(s[|r|..])
  {
    if s == [] || s[|s| - 1] != '/' then s
    else
      var r := StripSlashes(s[..|s| - 1]);
      InitSlices(s, |r|);
      r
  }

  /**
   * `os.path.dirname(p)`: everything up to the last '/', with trailing
   * slashes dropped unless there is nothing but slashes.
   */
  function Dirname(p: string): string {
    var head := Head(p, '/');
    if head != [] && !AllSlashes(head) then StripSlashes(head) else head
  }

  /** `os.path.join(a, b)` with two components. */
  function Join(a: string, b: string): string {
    if |b| > 0 && b[0] == '/' then b
    else if a == [] || a[|a| - 1] == '/' then a + b
    else a + "/" + b
  }

  /** A final dot in a name marks an extension only if something other than dots precedes it. */
  predicate HasStem(s: string) {
    exists i :: 0 <= i < |s| && s[i] != '.'
  }

  /**
   * `os.path.splitext(p)`: the extension is the last component's text from
   * its last dot on, unless only dots precede that dot in the component.
   */
  function SplitExt(p: string): (string, string) {
    var dir, name := Head(p, '/'), Last(p, '/');
    var upToDot := Head(name, '.');
    if upToDot != [] && HasStem(upToDot[..|upToDot| - 1]) then
      (dir + upToDot[..|upToDot| - 1], "." + Last(name, '.'))
    else (p, "")
  }

  /** The root and the extension put back together give the path. */
  lemma {:induction false} SplitExtJoin(p: string)
    ensures SplitExt(p).0 + SplitExt(p).1 == p
  {
    var dir, name := Head(p, '/'), Last(p, '/');
    assert dir + name == p by {
      HeadLast(p, '/');
    }
    var upToDot, ext := Head(name, '.'), Last(name, '.');
    assert upToDot + ext == name && (upToDot == [] || upToDot[|upToDot| - 1] == '.') by {
      HeadLast(name, '.');
    }
    if upToDot != [] && HasStem(upToDot[..|upToDot| - 1]) {
      var stem := upToDot[..|upToDot| - 1];
      assert SplitExt(p) == (dir + stem, "." + ext);
      assert upToDot == stem + ['.'];
      assert (dir + stem) + ("." + ext) == dir + (upToDot + ext);
    }
  }

  // ---------------------------------------------------------------------------
  // export_to_other_format

  /** `f"{splitext(basename(mscz_path))[0]}.{output_format}"`. */
  function OutputFilename(msczPath: string, format: string): string {
    SplitExt(Basename(msczPath)).0 + "." + format
  }

  /**
   * The output directory: `target_dir` when given, else the input's
   * absolute directory joined with the format's name. `abspath` is the
   * process's `os.path.abspath`, which depends on the working directory.
   */
  function TargetDir(msczPath: string, format: string, targetDir: Option<string>, abspath: string -> string): string {
    match targetDir
    case Some(d) => d
    case None => Join(abspath(Dirname(msczPath)), format)
  }

  function OutputPath(msczPath: string, format: string, targetDir: Option<string>, abspath: string -> string): string {
    Join(TargetDir(msczPath, format, targetDir, abspath), OutputFilename(msczPath, format))
  }

  /** The renderer for a major version: 3 and 4 have one, any other raises. */
  function RendererFor(version: int): (r: Result<string, ExportError>)
    ensures version == 3 ==> r == Success(MuseScore3Path)
    ensures version == 4 ==> r == Success(MuseScore4Path)
    ensures version != 3 && version != 4 ==> r == Failure(UnsupportedVersion(version))
  {
    if version == 3 then Success(MuseScore3Path)
    else if version == 4 then Success(MuseScore4Path)
    else Failure(UnsupportedVersion(version))
  }

  /**
   * `export_to_other_format(mscz_path, output_format, target_dir)`: the path
   * written, None when the renderer fails, or the error raised. `doc` is the
   * parsed score inside the file and `rendered` the renderer's outcome.
   */
  function ExportToOtherFormat(msczPath: string, format: string, targetDir: Option<string>,
                               abspath: string -> string, doc: Element, rendered: bool): Result<Option<string>, ExportError>
  {
    if format !in ExportFormats then Failure(UnsupportedFormat)
    else
      var outputPath := OutputPath(msczPath, format, targetDir, abspath);
      match MajorVersion(doc)
      case Failure(e) => Failure(VersionUnreadable(e))
      case Success(v) =>
        match RendererFor(v)
        case Failure(e) => Failure(e)
        case Success(_) => Success(if rendered then Some(outputPath) else None)
  }

  /** An unknown format is refused before any path is built or the version is read. */
  lemma {:induction false} FormatCheckedFirst(msczPath: string, format: string, targetDir: Option<string>,
                           abspath: string -> string, doc: Element, rendered: bool)
    ensures ExportToOtherFormat(msczPath, format, targetDir, abspath, doc, rendered) == Failure(UnsupportedFormat)
        <==> format !in ExportFormats
  {
  }

  /** For a known format, the version decides between an error and a run; the run's outcome decides the result. */
  lemma {:induction false} ExportOutcome(msczPath: string, format: string, targetDir: Option<string>,
                      abspath: string -> string, doc: Element, rendered: bool)
    requires format in ExportFormats
    ensures MajorVersion(doc).Failure? ==>
      ExportToOtherFormat(msczPath, format, targetDir, abspath, doc, rendered) == Failure(VersionUnreadable(MajorVersion(doc).error))
    ensures MajorVersion(doc).Success? && MajorVersion(doc).value !in {3, 4} ==>
      ExportToOtherFormat(msczPath, format, targetDir, abspath, doc, rendered) == Failure(UnsupportedVersion(MajorVersion(doc).value))
    ensures MajorVersion(doc).Success? && MajorVersion(doc).value in {3, 4} ==>
      ExportToOtherFormat(msczPath, format, targetDir, abspath, doc, rendered)
      == Success(if rendered then Some(OutputPath(msczPath, format, targetDir, abspath)) else None)
  {
  }

  /** Joining a name without '/' onto a directory gives a path whose basename is that name. */
  lemma {:induction false} BasenameOfJoin(a: string, b: string)
    requires '/' !in b
    ensures Basename(Join(a, b)) == b
  {
    var j := Join(a, b);
    if a == [] || a[|a| - 1] == '/' {
      LastAfter(a, b, '/');
    } else {
      assert j == (a + "/") + b;
      LastAfter(a + "/", b, '/');
    }
  }

  /** The output path's last component is the output file name. */
  lemma {:induction false} OutputPathName(msczPath: string, format: string, targetDir: Option<string>, abspath: string -> string)
    requires format in ExportFormats
    ensures Basename(OutputPath(msczPath, format, targetDir, abspath)) == OutputFilename(msczPath, format)
  {
    var b := Basename(msczPath);
    assert '/' !in SplitExt(b).0 by {
      SplitExtJoin(b);
      assert forall i :: 0 <= i < |SplitExt(b).0| ==> SplitExt(b).0[i] == b[i];
    }
    FormatsAreNames();
    assert '/' !in OutputFilename(msczPath, format);
    BasenameOfJoin(TargetDir(msczPath, format, targetDir, abspath), OutputFilename(msczPath, format));
  }

  /** Without a target directory, the output lands in a directory named after the format. */
  lemma {:induction false} DefaultTargetDir(msczPath: string, format: string, abspath: string -> string)
    requires format in ExportFormats
    ensures Basename(TargetDir(msczPath, format, None, abspath)) == format
  {
    FormatsAreNames();
    BasenameOfJoin(abspath(Dirname(msczPath)), format);
  }

  /** The output file name splits back into the input's stem and the format as extension. */
  lemma {:induction false} OutputFilenameSplits(msczPath: string, format: string)
    requires format in ExportFormats
    requires HasStem(SplitExt(Basename(msczPath)).0)
    ensures SplitExt(OutputFilename(msczPath, format)) == (SplitExt(Basename(msczPath)).0, "." + format)
  {
    var stem := SplitExt(Basename(msczPath)).0;
    assert '.' !in format && '/' !in format by {
      FormatsAreNames();
    }
    assert '/' !in stem by {
      SplitExtJoin(Basename(msczPath));
      assert forall i :: 0 <= i < |stem| ==> stem[i] == Basename(msczPath)[i];
    }
    assert OutputFilename(msczPath, format) == stem + ['.'] + format;
    SplitExtOfName(stem, format);
  }

  /** `stem.ext` splits into the stem and `.ext` when the extension has no dot and the stem is not all dots. */
  lemma {:induction false} SplitExtOfName(stem: string, ext: string)
    requires '/' !in stem && '/' !in ext && '.' !in ext
    requires HasStem(stem)
    ensures SplitExt(stem + ['.'] + ext) == (stem, "." + ext)
  {
    var f := stem + ['.'] + ext;
    assert f == (stem + ['.']) + ext;
    assert Head(f, '/') == [] && Last(f, '/') == f by {
      assert '/' !in f;
      SplitPlain(f, '/');
    }
    assert Head(f, '.') == stem + ['.'] && Last(f, '.') == ext by {
      LastAfter(stem + ['.'], ext, '.');
    }
    var upToDot := stem + ['.'];
    assert upToDot[..|upToDot| - 1] == stem;
    assert [] + stem == stem;
  }
}
