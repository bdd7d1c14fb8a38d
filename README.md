# Part extraction and silencing for MuseScore scores, and the S3 helpers around it

This project models the core of a tool that prepares practice material from
MuseScore files. The tool has three parts.

**The score engine.** This is the Python module `utils/musescore.py`. It works
on the parsed XML tree of a score.

- It lists the score's `Part` elements and resolves each part's name from
  `Instrument/longName`, `Instrument/shortName` or `trackName`.
- Removal mode (`create_single_part_mscz`) removes every other part together
  with its `Staff`.
- Silence mode (`silence_all_parts_except`) keeps all parts. It retags every
  timed element in the other parts' staves as `Rest`, then deletes every
  `Harmony` element.
- Two batch drivers apply either mode once per part.

**The script helpers.** These are in `scripts/utils/midi.py` and
`scripts/utils/musescore.py`.

- They merge MIDI files and force every track onto the grand piano program.
- They check an export format against a fixed list of 18 formats.
- They build the export path.
- They pick the renderer from the major version written in the score.

**The web helpers.** These are TypeScript.

- `getSubpaths` lists the folder names at one depth of an S3 listing. It
  removes duplicates and sorts them as JavaScript does.
- `getFilenamesInBucket` lists the last path segment of each key.
- The `presigned-url` handler caches presigned URLs.

**The tree.** An XML element is a value `Element(uid, tag, attrib, text, children)`.

- `uid` stands for Python object identity. The source relies on identity in
  `p != part` and in `parent.remove(x)`.
- An ElementTree query is a function on that value. `.//X` is a walk of the
  descendants in document order.
- The engine's in-place edits are methods of the class `ScoreTree.Score`. Its
  field `root` holds the tree. Each method's `ensures` ties the new `root` to a
  function of the old one.
- The functions and the lemmas about them state what the edits do:
  - silencing only retags elements, and only inside the part's staff;
  - removal cuts exactly the part's block and then the staff's block out of
    document order;
  - no `Harmony` element is left afterwards, and the count returned is the
    number removed.

**The S3 helpers.**

- An S3 listing is a sequence of objects with an optional key.
- JavaScript's `sort` is modelled as an order on characters, with `undefined`
  sorted last.
- The clock and the URL generator of the presigned-URL handler are parameters.

The library modules are as follows.

- `Wrappers` holds `Option` and `Result`.
- `Strings` covers `split`, `join`, `pop` and `[0]` on strings.
- `XmlTree` covers iteration, paths, queries, edits along a path, and
  document-order facts about those edits.

## Model

| member | source | states |
|---|---|---|
| PartNames.GetParts | utils/musescore.py:344-345 | The result holds exactly the `Part` descendants of the root. It keeps their document order and has one entry per `Part`. |
| PartNames.WrittenPartName | utils/musescore.py:348-367 | As written, the name of a part is a name or one of three errors: no `Instrument`, a short name only, or no name at all. |
| PartNames.PartName | utils/musescore.py:348-367 | With the corrected fallback, the name of a part is a name or one of two errors: no `Instrument`, or no name at all. |
| PartNames.PartNameNeedsInstrument | utils/musescore.py:350-352 | Resolution fails for lack of an `Instrument` exactly when the part has no `Instrument` child. |
| PartNames.PartNameFromLongName | utils/musescore.py:353-367 | When the first `Instrument` has a `longName`, the name is that element's text. |
| PartNames.PartNameFromShortName | utils/musescore.py:355-356 | Without a `longName`, a `shortName` decides the name, as the comment at line 355 intends. |
| PartNames.PartNameFromTrackName | utils/musescore.py:356-366 | When there is neither `longName` nor `shortName`, the name is the part's `trackName` text. With no `trackName` it is an error. |
| PartNames.ShortNameNeverReturned | utils/musescore.py:354-367 | A part with a `shortName` but no `longName` never resolves. The code falls through to reading the text of the missing `longName`. |
| PartNames.ShortNameFallbackLost | utils/musescore.py:354-367 | A violin part named only `Vln.` fails as written, but resolves to `Vln.` under the intended rule. |
| PartNames.IntendedExtendsWritten | utils/musescore.py:354-367 | The corrected rule, which the lookup and the batch drivers use, agrees with the written one wherever the written one does not fail on a short name. Where it does, the corrected rule returns the short name. |
| PartNames.Resolve | utils/musescore.py:26 | One resolution per part, in order. |
| PartNames.PartNames | utils/musescore.py:24-26 | `get_part_names` yields one name per part, in order. It fails exactly when some part fails, with the error of the first failing part. |
| PartNames.FindPart | utils/musescore.py:101-103 | The lookup `next(...)` returns the first part, in document order, whose name equals the wanted name. It reports "not found" exactly when every part resolves to another name. It fails with a resolution error only when that error comes before any match. |
| PartNames.FirstNamed | utils/musescore.py:193-195 | The same first-match rule over a list of resolution results. It is an if-and-only-if for "not found". |
| PartNames.FindListedName | utils/musescore.py:80-82 | In the batch drivers, looking up a name read from part i always succeeds. It finds an index at most i with the same name, and finds i exactly when no earlier part has that name. |
| ScoreEdit.StaffIdOf | utils/musescore.py:160 | The staff id is read from the first `Staff` child. It fails exactly when the part has no `Staff` child. |
| ScoreEdit.ScoreStaff | utils/musescore.py:161 | `./Score/Staff[@id=...]` finds the first such staff, ordered by the `Score` child and then by the staff within it. It finds none exactly when no such staff exists. |
| ScoreEdit.StaffOfPart | utils/musescore.py:159-161 | `get_staff_element_with_measures` fails for lack of a `Staff` child or for an id that cannot be quoted. Otherwise it is the first matching score staff. |
| ScoreEdit.SilencePartEffect | utils/musescore.py:164-176 | A missing staff is an error. Silencing leaves document order and every label outside the staff's block unchanged. Inside the block, elements are only retagged `Rest`, and only timed ones. |
| ScoreEdit.RetaggedStaff | utils/musescore.py:167-176 | Silencing one staff changes nothing but tags, and only timed elements become `Rest`. |
| ScoreEdit.RetaggedVoice | utils/musescore.py:174-176 | Silencing one voice changes nothing but tags, and only timed elements become `Rest`. |
| ScoreEdit.SilenceVoiceLabels | utils/musescore.py:174-176 | A silenced voice keeps its own label. Every descendant keeps its place and label, except that each timed one becomes `Rest`. |
| ScoreEdit.PartPath | utils/musescore.py:379-383 | The part to remove is found under the parent of the first `Part` with its id. A path is returned only when the part is a child of that parent. The result is "no parent" exactly when no `Part` has that id. |
| ScoreEdit.RemovedPart | utils/musescore.py:370-388 | `remove_part` either succeeds or raises one of four errors: no `Staff` child, an id that cannot be quoted, no parent, or not a child of it. |
| ScoreEdit.RemovedPartEffect | utils/musescore.py:378-388 | Removal cuts the part's block out of document order. It then cuts the block of the first remaining `Staff` whose id is the part's staff id. Every other element keeps its place and order. |
| ScoreEdit.NonHarmony | utils/musescore.py:114-116 | Deleting the `Harmony` children of one parent keeps exactly its other children. |
| ScoreEdit.HarmonyParents | utils/musescore.py:112 | `.//Harmony/..` lists exactly the elements that have a `Harmony` child. |
| ScoreEdit.HarmonyStep | utils/musescore.py:113-117 | One pass of the outer Harmony loop extends the stripped set by one parent. It adds that parent's `Harmony` children to the count. |
| ScoreEdit.StripCovered | utils/musescore.py:111-117 | Once every parent of a `Harmony` element has been stripped, no `Harmony` element is left. |
| ScoreEdit.HarmonyChildrenCount | utils/musescore.py:111-117 | Summed over all elements, the number of `Harmony` children equals the number of `Harmony` descendants. |
| ScoreEdit.HarmonyStrippedEffect | utils/musescore.py:110-117 | After the Harmony loop no `Harmony` element is left. `removed_count` equals the number of `Harmony` elements before the loop. |
| ScoreEdit.StripTwice | utils/musescore.py:113-116 | Stripping two sets of parents in turn is the same as stripping their union. |
| ScoreTree.SilenceVoices | utils/musescore.py:170-176 | The voice loop over one measure produces the silenced measure. |
| ScoreTree.Score.SilenceAllMeasuresOfPart | utils/musescore.py:164-176 | It succeeds exactly when the staff is found. The new tree is the silenced tree, and on error nothing has changed. |
| ScoreTree.Score.RemovePart | utils/musescore.py:370-388 | It succeeds exactly when `remove_part` does, with the same error. The new tree is the one with part and staff removed. |
| ScoreTree.Score.StripHarmony | utils/musescore.py:110-117 | The Harmony loop leaves no `Harmony` element. It returns the number of `Harmony` elements that were in the tree. |
| ScoreTree.Score.SilenceOtherParts | utils/musescore.py:106-108 | The loop silences every listed part except the kept one, which is recognised by identity. It stops at the first error. |
| ScoreTree.Score.RemoveOtherParts | utils/musescore.py:197-200 | The loop removes every listed part except the kept one. It stops at the first error. |
| ScoreTree.Score.SilenceAllPartsExcept | utils/musescore.py:85-117 | Silence mode: look up the part, silence the others, then strip Harmony. The tree and the count are the ones the mode defines, and a failing lookup is its error. |
| ScoreTree.Score.CreateSinglePart | utils/musescore.py:179-200 | Removal mode: look up the part, then remove the others. The tree is the one the mode defines, and a failing lookup is its error. |
| ScoreTree.LookupFailsFirst | utils/musescore.py:101-103 | A failing lookup ends both modes with its own error, before any edit. |
| ScoreTree.KeptPartSkipped | utils/musescore.py:106-108 | The identity test skips the kept part: in either loop, a list holding only the kept part leaves the tree unchanged. |
| ScoreTree.ForOthersEdit | utils/musescore.py:197-200 | In either loop, a part other than the kept one is edited and the loop goes on. An error ends the loop. |
| ScoreTree.BatchEach | utils/musescore.py:52-54 | Every output of a batch is named by its part's resolved name. Its score is that mode's result for that name. |
| ScoreTree.CreateSeparateScores | utils/musescore.py:31-54 | One removal-mode score per part, in part order. It stops at the first error. |
| ScoreTree.CreateSilencedScores | utils/musescore.py:57-82 | One silence-mode score per part, in part order. It stops at the first error. |
| SilenceMode.SilencePartRested | utils/musescore.py:164-176 | Silencing one part keeps every element in place, with its identity, attributes, text and number of children. It retags no `Part`. |
| SilenceMode.SilenceLoopRested | utils/musescore.py:106-108 | The whole silencing loop has the same effect as one part. |
| SilenceMode.HarmonyLoopKeepsParts | utils/musescore.py:110-117 | The Harmony loop removes no `Part` that lies outside every `Harmony` element. |
| SilenceMode.ReplaceAtOther | utils/musescore.py:159-161 | Silencing the staff found at one `./Score/Staff` position leaves the staff at every other such position as it was. |
| SilenceMode.KeptStaffUntouched | utils/musescore.py:106-108 | When no part the loop silences names a staff's id, the loop leaves that staff, with its whole subtree, exactly as it was. |
| SilenceMode.SilenceModeKeepsStaff | utils/musescore.py:98-108 | In silence mode, the staff holding the kept part's measures leaves the silencing loop unchanged and still carries its id, when no other part names the same staff id. |
| SilenceMode.SilenceModeKeepsParts | utils/musescore.py:98-117 | Silence mode keeps every `Part`: the same identities, in the same order, so the same number. |
| RemovalMode.RemovedPartKeys | utils/musescore.py:370-388 | One removal leaves only elements that were there. It keeps identities distinct and leaves nothing with the removed part's identity. |
| RemovalMode.RemovalLoopKeys | utils/musescore.py:197-200 | After the removal loop, every listed part other than the kept one is gone. |
| RemovalMode.RemovalModeKeepsOnlyPart | utils/musescore.py:179-200 | In removal mode every `Part` left in the output has the identity of the part that was looked up. |
| RemovalMode.RemoveAtShrunk | utils/musescore.py:383-388 | `parent.remove(child)` keeps the root's identity and tag. Every element left stands where one stood before, with no new element in its subtree. |
| RemovalMode.CutAvoids | utils/musescore.py:383-388 | Removing a `Part` or `Staff` other than the kept part keeps the kept part, when the kept part lies inside no other `Part` or `Staff`. |
| RemovalMode.PartBlockTag | utils/musescore.py:381-384 | The subtree that `remove_part` cuts out for another part is rooted at a `Part`, as that element was in the score. |
| RemovalMode.RemovedPartKeeps | utils/musescore.py:370-388 | One `remove_part` call for another part keeps the kept part and the root's identity and tag. |
| RemovalMode.RemovalLoopKeeps | utils/musescore.py:198-200 | The removal loop keeps the kept part and the root's identity and tag. |
| RemovalMode.RemovalModeKeepsPart | utils/musescore.py:179-200 | In removal mode a `Part` with the identity of the part looked up is still in the output, when it lies inside no other `Part` or `Staff`. |
| Midi.FirstProgramChange | scripts/utils/midi.py:27-32 | The index of the first `program_change` in a track, or none when the track has none. |
| Midi.GrandPianoTrack | scripts/utils/midi.py:26-37 | When a track has a `program_change`, only the first one gets program 0 and every other message is kept. When it has none, the grand piano message is inserted at index 0, in front of the unchanged track. |
| Midi.GrandPianoFirst | scripts/utils/midi.py:24-37 | After the change, every track's first `program_change` selects program 0, and it is at the same index as before when there was one. |
| Midi.GrandPianoIdempotent | scripts/utils/midi.py:17-37 | Applying the change twice to a track is the same as applying it once. |
| Midi.GrandPianoTracksIdempotent | scripts/utils/midi.py:17-37 | Applying the change twice to a track list is the same as applying it once. |
| Midi.MidiFile.SetTracksToGrandPianoSound | scripts/utils/midi.py:17-37 | The loop changes every track as above. It keeps the number and order of the tracks. |
| Midi.ConcatLength | scripts/utils/midi.py:7-10 | Each input file's tracks appear in the merged list as one block, in file order. |
| Midi.ConcatAppend | scripts/utils/midi.py:7-10 | Merging a list of files in two groups gives the first group's tracks followed by the second group's. |
| Midi.MergeMidiFiles | scripts/utils/midi.py:5-12 | The merged tracks are the concatenation in file order. Each track is changed to grand piano exactly when that flag is set. |
| Export.FormatsAreNames | scripts/utils/musescore.py:11-48 | The list has 18 formats, each a non-empty name with no `.` or `/`. |
| Export.FormatCheckedFirst | scripts/utils/musescore.py:63-64 | The export fails as an unsupported format exactly when the format is not in the list, before anything else. |
| Export.ExportOutcome | scripts/utils/musescore.py:71-92 | An unreadable version or a version other than 3 or 4 is an error. Otherwise the result is the output path when the renderer succeeds, and none when it fails. |
| Export.RendererFor | scripts/utils/musescore.py:72-77 | Version 3 selects the MuseScore 3 binary and version 4 the MuseScore 4 binary. Any other version is an error. |
| Export.OutputPathName | scripts/utils/musescore.py:65-68 | The last component of the output path is the output filename. |
| Export.OutputFilenameSplits | scripts/utils/musescore.py:65 | The output filename splits into the input's stem and `.` followed by the format. |
| Export.DefaultTargetDir | scripts/utils/musescore.py:66-67 | Without a target directory, the directory used is named after the format. |
| Export.SplitExtJoin | scripts/utils/musescore.py:65 | `splitext` splits a path into two parts that join back to it. |
| Export.BasenameOfJoin | scripts/utils/musescore.py:68 | The basename of `join(dir, name)` is `name`. |
| Versions.MajorVersion | scripts/utils/musescore.py:106-110 | The version is missing exactly when the score has no `programVersion` element. Otherwise it parses exactly when the text before the first `.` is an integer. |
| Versions.MajorVersionOf | utils/musescore.py:304-308 | A version text `n` or `n.rest` yields major version `n`. |
| Versions.ParseShow | scripts/utils/musescore.py:108 | `int()` reads back every integer written in decimal. |
| Versions.VersionText | scripts/utils/musescore.py:106-108 | The version text is missing exactly when no `programVersion` element exists. |
| S3Subpaths.Objects | src/lib/server/s3.ts:28-32 | A listing without `Contents` is empty. Otherwise it is the `Contents`. |
| S3Subpaths.Level | src/lib/server/s3.ts:42 | The depth is 0 without a prefix. Otherwise it is the number of `/` in the prefix. |
| S3Subpaths.SegmentShape | src/lib/server/s3.ts:46-50 | A segment contains no `/`. It is `undefined` exactly when the key has too few `/`. |
| S3Subpaths.Dedup | src/lib/server/s3.ts:44-51 | The set keeps every value once and adds none. |
| S3Subpaths.SortStrings | src/lib/server/s3.ts:52 | `sort` returns a sorted permutation. |
| S3Subpaths.JsSortOrder | src/lib/server/s3.ts:52 | Sorting distinct values yields strictly ascending strings, with `undefined` after all of them. |
| S3Subpaths.SubpathsSpec | src/lib/server/s3.ts:37-55 | A value is in the result exactly when it is the segment at that depth of some object's key. The result is strictly ascending, so it has no duplicates. |
| FilesInBucket.FileNames | webapp/src/lib/server/s3/files-in-bucket.ts:16-25 | There are at most as many names as objects, each non-empty and free of `/`. |
| FilesInBucket.EmptyName | webapp/src/lib/server/s3/files-in-bucket.ts:19-20 | The last segment is empty exactly when the key is empty or ends in `/`. |
| FilesInBucket.FileNamesSpec | webapp/src/lib/server/s3/files-in-bucket.ts:17-23 | Every name is the last segment of some key. Every key that does not end in `/` contributes its last segment. |
| FilesInBucket.FileNamesAppend | webapp/src/lib/server/s3/files-in-bucket.ts:17-24 | The output follows `Contents` order: listing two runs of objects gives the first run's names, then the second's. |
| FilesInBucket.GetFilenamesInBucket | webapp/src/lib/server/s3/files-in-bucket.ts:15-28 | The loop returns the file names of `Contents`, and none when there are no `Contents`. |
| PresignedUrl.CacheKeyInjective | webapp/src/routes/api/presigned-url/+server.ts:20 | Two requests whose buckets contain no `/` share a cache key only when bucket and key are both equal. |
| PresignedUrl.Lookup | webapp/src/routes/api/presigned-url/+server.ts:21-28 | A cached URL is served exactly when the key is cached and its expiry is later than ten minutes from now. |
| PresignedUrl.StoredEntry | webapp/src/routes/api/presigned-url/+server.ts:33-36 | The stored entry expires 3600 units after the time of storing. |
| PresignedUrl.StoredNeverServed | webapp/src/routes/api/presigned-url/+server.ts:23-35 | An entry stored as written is never served at any later time. |
| PresignedUrl.IntendedServedFiftyMinutes | webapp/src/routes/api/presigned-url/+server.ts:23-35 | With the expiry in milliseconds, an entry is served exactly during the first fifty minutes after it is stored. |
| PresignedUrl.UrlCache.Get | webapp/src/routes/api/presigned-url/+server.ts:12-41 | A missing parameter gives a 400 and leaves the cache unchanged. A hit returns the cached URL and leaves the cache unchanged. A miss presigns for 3600 seconds, returns the new URL, and stores it under its key alone, with the corrected expiry one hour ahead in milliseconds. |
| Strings.JoinSplit | src/lib/server/s3.ts:48 | Joining the pieces of `split` restores the string. |
| Strings.SplitCount | src/lib/server/s3.ts:42 | `split` yields one piece more than there are separators. |
| Strings.LastIsSuffix | webapp/src/lib/server/s3/files-in-bucket.ts:19 | `split('/').pop()` is the suffix after the last `/`, or the whole string when it has none. |
| Strings.FirstIsPrefix | scripts/utils/musescore.py:108 | `split('.')[0]` is the prefix before the first `.`, or the whole string when it has none. |

## Left out

- Reading and writing `.mscz` archives is not modelled. That covers the zip handling, temporary folders, copying and renaming. The engine takes the parsed tree as input and returns the edited tree.
- XML parsing and serialisation by ElementTree are not modelled, nor are the debug printing and the `print` calls.
- The MuseScore subprocess, the mp3 drivers and the per-part output files are not modelled. A renderer's success is a boolean parameter of the export.
- The `argparse` command lines and the script entry points are not modelled.
- Loading and saving MIDI files with `mido` are not modelled. A track is a sequence of messages, and a file is its track list. Other `MidiFile` attributes are not modelled.
- The AWS clients, listing calls, presigning and environment lookup are not modelled. A listing is its optional `Contents`, and the URL generator and `Date.now()` are parameters.
- Errors raised by the S3 client are not modelled.
- Export.TargetDir: `abspath` depends on the working directory, so it is a parameter. Only the final `/format` component of the default directory is stated.
- Versions.ParseInt: accepts an optional sign followed by ASCII digits. Python's `int()` also accepts surrounding whitespace, underscores and non-ASCII digits; those are not modelled.
- S3Subpaths.SortStrings: sorts by code point, whereas JavaScript compares UTF-16 code units. The two orders differ only outside the Basic Multilingual Plane.
- S3Subpaths.JsSortOrder: a key with too few `/` yields `undefined`. The `Set` keeps one `undefined`, which sorts last. A missing key counts as `''`, as in the source.
- ScoreEdit.StaffOfPart: an id containing `'` makes the ElementTree predicate invalid. That case is modelled as an error. A `Staff` without an `id` is looked up as the text `None`, as the f-string does.
- ScoreEdit.HarmonyStrippedEffect: the inner Harmony loop of one parent is modelled as one step. The parents are taken in document order. The result and the count do not depend on that order.
- ScoreTree.Score.RemovePart: on error, no new tree is promised. Python leaves a partly edited tree there, which the caller then drops.
- ScoreTree.Score.SilenceAllPartsExcept: on error, no new tree is promised. Python leaves a partly edited tree there, which the caller then drops.
- ScoreTree.Score.CreateSinglePart: on error, no new tree is promised. Python leaves a partly edited tree there, which the caller then drops.
- ScoreTree.Score.SilenceOtherParts and ScoreTree.Score.RemoveOtherParts hold the per-part loops that `silence_all_parts_except` and `create_single_part_mscz` write inline.
- ScoreTree.SilenceVoices holds the inner loop of `silence_all_measures_of_part`.
- ScoreTree.CreateSeparateScores: the loops use the part list read once before the loop, as Python does.
- ScoreTree.SinglePartScore: each removal reads the part's staff id from the part as listed before the loop. Python reads it from the live element, whose `Staff` child an earlier removal may already have taken. If two parts share a staff id, Python then raises `AttributeError` where the model goes on. The two agree when staff ids are distinct.
- ScoreTree.Score.RemoveOtherParts: reads each staff id from the part list taken before the loop, not from the live element. If two parts share a staff id, Python raises `AttributeError` where the model goes on. See ScoreTree.SinglePartScore.
- ScoreTree.Score.CreateSinglePart: inherits the snapshot of ScoreTree.Score.RemoveOtherParts. The two agree with Python when staff ids are distinct.
- ScoreEdit.RemovedPart: the part handed in is the one listed before the loop. Its `Staff` child may already be gone from the live tree.
- PartNames.FindPart: resolves names by the corrected rule, PartNames.PartName. A part named only by a `shortName` is therefore found, where the code as written raises; PartNames.WrittenPartName keeps the written rule.
- PartNames.PartNames: names each part by the corrected rule, PartNames.PartName. Where `get_part_names` (utils/musescore.py:26) raises on a part named only by a `shortName`, the model returns that name.
- PartNames.Resolve: uses the corrected rule, PartNames.PartName. It does not raise on a part named only by a `shortName`.
- ScoreTree.Batch: names outputs by the corrected rule, PartNames.PartName. The source raises at utils/musescore.py:53 and :81 on a part named only by a `shortName`.
- ScoreTree.BatchEach: names outputs by the corrected rule, PartNames.PartName. The source raises at utils/musescore.py:53 and :81 on a part named only by a `shortName`.
- ScoreTree.CreateSeparateScores: names outputs by the corrected rule, PartNames.PartName. The source raises at utils/musescore.py:53 on a part named only by a `shortName`.
- ScoreTree.CreateSilencedScores: names outputs by the corrected rule, PartNames.PartName. The source raises at utils/musescore.py:81 on a part named only by a `shortName`.
- SilenceMode.SilenceModeKeepsParts: assumes that no `Part` is itself timed and that no `Part` lies inside a `Harmony` element. Without these assumptions the source could retag or delete a `Part`.
- SilenceMode.SilenceModeKeepsStaff: assumes that no other part names the kept part's staff id. If one does, Python silences the kept part's staff as well.
- RemovalMode.RemovalModeKeepsOnlyPart: assumes distinct identities, as Python objects have, and a root that is not itself a `Part`. It states that no other part is left. That the kept part is left is RemovalMode.RemovalModeKeepsPart.
- RemovalMode.RemovalModeKeepsPart: assumes the kept part lies inside no other `Part` or `Staff`, since removing such an element would take the kept part with it. The part is found by identity, and its subtree may have lost elements.
- RemovalMode.RemovalLoopKeys: states which elements remain. The order of what remains is stated per removal, by ScoreEdit.RemovedPartEffect, and is not carried through the loop.
- PresignedUrl.UrlCache.Get: stores the corrected expiry, PresignedUrl.IntendedEntry, instead of the written `Date.now() + 3600`. The written entry is PresignedUrl.StoredEntry.
- Concurrent requests to the handler are not modelled. The cache is one object updated by one request at a time.

## Findings

| source | as written | input that shows it | evidently intended | confidence | as-written member | corrected member |
|---|---|---|---|---|---|---|
| utils/musescore.py:354-367 | With no `longName` but a `shortName`, the code skips the `trackName` branch and reads `long_name_element.text` on `None` | A part whose `Instrument` has only `<shortName>Vln.</shortName>` | Return the short name's text | high, not executed | PartNames.ShortNameFallbackLost | PartNames.IntendedExtendsWritten |
| webapp/src/routes/api/presigned-url/+server.ts:35 | The expiry is `Date.now() + 3600`, which is seconds added to milliseconds | Store at t = 0, then ask again at t = 0: 3600 > 600000 is false, so the entry is never served | `Date.now() + 3600 * 1000`, served for fifty minutes | high, not executed | PresignedUrl.StoredNeverServed | PresignedUrl.IntendedServedFiftyMinutes |
