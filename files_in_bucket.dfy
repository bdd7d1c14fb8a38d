/**
 * `getFilenamesInBucket`: the file names under a prefix, taken from the
 * keys of a listing's `Contents` as the text after the last '/'.
 */
module FilesInBucket {
  import opened Wrappers
  import opened Strings
  import opened S3Subpaths

  /**
   * The name an object contributes: the text after the last '/' of its key;
   * a missing or empty key, or a key ending in '/' (a folder marker), gives
   * none, as an empty name is skipped.
   */
  function FileNameOf(o: S3Object): (r: Option<string>)
    ensures r.Some? ==> r.value != "" && '/' !in r.value
  {
    if o.key.None? || o.key.value == "" then None
    else
      var name := Last(o.key.value, '/');
      if name == "" then None else Some(name)
  }

  /** The names the objects contribute, in listing order. */
  function FileNames(objects: seq<S3Object>): (r: seq<string>)
    ensures |r| <= |objects|
    ensures forall f :: f in r ==> f != "" && '/' !in f
  {
    if objects == [] then []
    else
      var here := if FileNameOf(objects[0]).Some? then [FileNameOf(objects[0]).value] else [];
      here + FileNames(objects[1..])
  }

  /** Names of consecutive listings follow one another: the order of `Contents` is kept. */
  lemma {:induction false} FileNamesAppend(a: seq<S3Object>, b: seq<S3Object>)
    ensures FileNames(a + b) == FileNames(a) + FileNames(b)
    decreases |a|
  {
    if a != [] {
      assert (a + b)[1..] == a[1..] + b;
      FileNamesAppend(a[1..], b);
    } else {
      assert a + b == b;
    }
  }

  /** A key's last segment is empty exactly when the key is empty or ends with '/'. */
  lemma {:induction false} EmptyName(key: string)
    ensures Last(key, '/') == "" <==> key == "" || key[|key| - 1] == '/'
  {
    LastIsSuffix(key, '/');
    if key != "" && key[|key| - 1] == '/' {
      LastAfter(key, "", '/');
      assert key + "" == key;
    }
  }

  /**
   * Every name is the text after the last '/' of a listed key, and every
   * listed key that is not empty and does not end with '/' contributes its name.
   */
  lemma {:induction false} FileNamesSpec(objects: seq<S3Object>)
    ensures forall f :: f in FileNames(objects) ==>
      exists o :: o in objects && o.key.Some? && Last(o.key.value, '/') == f
    ensures forall o :: (o in objects && o.key.Some? && o.key.value != "" && o.key.value[|o.key.value| - 1] != '/'
      ==> Last(o.key.value, '/') in FileNames(objects))
    decreases |objects|
  {
    if objects != [] {
      FileNamesSpec(objects[1..]);
      forall o | o in objects && o.key.Some? && o.key.value != "" && o.key.value[|o.key.value| - 1] != '/'
        ensures Last(o.key.value, '/') in FileNames(objects)
      {
        EmptyName(o.key.value);
        if o != objects[0] {
          assert o in objects[1..];
        }
      }
      forall f | f in FileNames(objects)
        ensures exists o :: o in objects && o.key.Some? && Last(o.key.value, '/') == f
      {
        if f !in FileNames(objects[1..]) {
          assert objects[0] in objects;
        } else {
          var o :| o in objects[1..] && o.key.Some? && Last(o.key.value, '/') == f;
          assert o in objects;
        }
      }
    }
  }

  /** `getFilenamesInBucket(bucket, prefix)`, given the listing's `Contents`. */
  method GetFilenamesInBucket(contents: Option<seq<S3Object>>) returns (files: seq<string>)
    ensures files == FileNames(Objects(contents))
  {
    if contents.Some? {
      var objects := contents.value;
      files := [];
      var i := 0;
      while i < |objects|
        invariant 0 <= i <= |objects|
        invariant files == FileNames(objects[..i])
      {
        var file := objects[i];
        if file.key.Some? && file.key.value != "" {
          var filename := Last(file.key.value, '/');
          if filename != "" {
            files := files + [filename];
          }
        }
        assert objects[..i + 1] == objects[..i] + [file];
        FileNamesAppend(objects[..i], [file]);
        i := i + 1;
      }
      assert objects[..i] == objects;
    } else {
      files := [];
    }
  }
}
