/**
 * Merging MIDI files into one and giving every track the Grand Piano sound:
 * a track's first program change is set to program 0, and a track without
 * one gets a program change to program 0 in front.
 */
module Midi {
  import opened Wrappers

  /** A MIDI message: a program change, or a message of any other type. */
  datatype Message =
    | ProgramChange(channel: nat, program: nat, time: nat)
    | Other(kind: string, time: nat, data: seq<nat>)

  type Track = seq<Message>

  /** `Message("program_change", program=0, time=0)`; the channel defaults to 0. */
  const GrandPiano: Message := ProgramChange(0, 0, 0)

  /** The position of the first program change of a track. */
  function FirstProgramChange(t: Track): (r: Option<nat>)
    ensures r.Some? ==> r.value < |t| && t[r.value].ProgramChange?
    ensures r.Some? ==> forall j :: 0 <= j < r.value ==> !t[j].ProgramChange?
    ensures r.None? ==> forall j :: 0 <= j < |t| ==> !t[j].ProgramChange?
  {
    if t == [] then None
    else if t[0].ProgramChange? then Some(0)
    else
      match FirstProgramChange(t[1..])
      case None => None
      case Some(i) => Some(i + 1)
  }

  /**
   * A track after `set_tracks_to_grand_piano_sound`: its first program change
   * selects program 0 and every other message is kept; without a program
   * change, one to program 0 is put in front of the unchanged track.
   */
  function GrandPianoTrack(t: Track): (r: Track)
    ensures |t| <= |r| <= |t| + 1
    ensures FirstProgramChange(t).Some? ==> (
      var i := FirstProgramChange(t).value;
      |r| == |t| && r[i] == t[i].(program := 0)
      && forall j :: 0 <= j < |t| && j != i ==> r[j] == t[j])
    ensures FirstProgramChange(t).None? ==> |r| == |t| + 1 && r[0] == GrandPiano && r[1..] == t
  {
    match FirstProgramChange(t)
    case Some(i) => t[i := t[i].(program := 0)]
    case None => [GrandPiano] + t
  }

  /** After the change, a track's first program change is there and selects program 0. */
  lemma {:induction false} GrandPianoFirst(t: Track)
    ensures FirstProgramChange(GrandPianoTrack(t)).Some?
    ensures GrandPianoTrack(t)[FirstProgramChange(GrandPianoTrack(t)).value].program == 0
    ensures FirstProgramChange(t).Some? ==> FirstProgramChange(GrandPianoTrack(t)) == FirstProgramChange(t)
  {
    var r := GrandPianoTrack(t);
    match FirstProgramChange(t)
    case Some(i) =>
      FirstProgramChangeAt(r, i);
    case None =>
      FirstProgramChangeAt(r, 0);
  }

  /** A program change with none before it is the first one. */
  lemma {:induction false} FirstProgramChangeAt(t: Track, i: nat)
    requires i < |t| && t[i].ProgramChange?
    requires forall j :: 0 <= j < i ==> !t[j].ProgramChange?
    ensures FirstProgramChange(t) == Some(i)
  {
    if i > 0 {
      FirstProgramChangeAt(t[1..], i - 1);
    }
  }

  /** Setting the Grand Piano sound twice changes nothing the first time did not. */
  lemma {:induction false} GrandPianoIdempotent(t: Track)
    ensures GrandPianoTrack(GrandPianoTrack(t)) == GrandPianoTrack(t)
  {
    var r := GrandPianoTrack(t);
    GrandPianoFirst(t);
    var k := FirstProgramChange(r).value;
    assert r[k := r[k].(program := 0)] == r;
  }

  /** Every track of a file, each given the Grand Piano sound. */
  function GrandPianoTracks(ts: seq<Track>): (r: seq<Track>)
    ensures |r| == |ts|
    ensures forall i :: 0 <= i < |ts| ==> r[i] == GrandPianoTrack(ts[i])
  {
    seq(|ts|, i requires 0 <= i < |ts| => GrandPianoTrack(ts[i]))
  }

  lemma {:induction false} GrandPianoTracksIdempotent(ts: seq<Track>)
    ensures GrandPianoTracks(GrandPianoTracks(ts)) == GrandPianoTracks(ts)
  {
    forall i | 0 <= i < |ts|
      ensures GrandPianoTracks(GrandPianoTracks(ts))[i] == GrandPianoTracks(ts)[i]
    {
      GrandPianoIdempotent(ts[i]);
    }
  }

  /** The tracks of several files one after the other, in file order. */
  function Concat(files: seq<seq<Track>>): seq<Track>
    decreases |files|
  {
    if files == [] then [] else Concat(files[..|files| - 1]) + files[|files| - 1]
  }

  /** Concatenating two groups of files concatenates their track lists. */
  lemma {:induction false} ConcatAppend(a: seq<seq<Track>>, b: seq<seq<Track>>)
    ensures Concat(a + b) == Concat(a) + Concat(b)
    decreases |b|
  {
    if b == [] {
      assert a + b == a;
    } else {
      assert (a + b)[..|a + b| - 1] == a + b[..|b| - 1];
      ConcatAppend(a, b[..|b| - 1]);
    }
  }

  /** A merged file holds one track per track of its inputs. */
  lemma {:induction false} ConcatLength(files: seq<seq<Track>>, f: nat)
    requires f < |files|
    ensures |Concat(files)| >= |Concat(files[..f])| + |files[f]|
    ensures Concat(files)[|Concat(files[..f])|..|Concat(files[..f])| + |files[f]|] == files[f]
  {
    assert files == files[..f + 1] + files[f + 1..];
    ConcatAppend(files[..f + 1], files[f + 1..]);
    assert files[..f + 1][..f] == files[..f];
  }

  /** `mido.MidiFile`: only its list of tracks is modelled. */
  class MidiFile {
    var tracks: seq<Track>

    constructor ()
      ensures tracks == []
    {
      tracks := [];
    }

    /** `set_tracks_to_grand_piano_sound(mid)`, which edits the tracks in place. */
    method SetTracksToGrandPianoSound()
      modifies this
      ensures tracks == GrandPianoTracks(old(tracks))
    {
      var ti := 0;
      while ti < |tracks|
        invariant 0 <= ti <= |tracks| == |old(tracks)|
        invariant forall j :: 0 <= j < ti ==> tracks[j] == GrandPianoTrack(old(tracks)[j])
        invariant forall j :: ti <= j < |tracks| ==> tracks[j] == old(tracks)[j]
      {
        var track := tracks[ti];
        ghost var original := track;
        var found := false;
        var i := 0;
        while i < |track|
          invariant 0 <= i <= |track| && track == original && !found
          invariant forall j :: 0 <= j < i ==> !track[j].ProgramChange?
        {
          if track[i].ProgramChange? {
            FirstProgramChangeAt(track, i);
            track := track[i := track[i].(program := 0)];
            found := true;
            break;
          }
          i := i + 1;
        }
        if !found {
          track := [GrandPiano] + track;
        }
        assert track == GrandPianoTrack(original);
        tracks := tracks[ti := track];
        ti := ti + 1;
      }
    }
  }

  /**
   * `merge_midi_files`: the tracks of every file, file by file and in each
   * file's order, in a new file; with `set_to_grand_piano` every merged track
   * then gets the Grand Piano sound. `files` holds each input file's tracks.
   */
  method MergeMidiFiles(files: seq<seq<Track>>, setToGrandPiano: bool) returns (merged: MidiFile)
    ensures fresh(merged)
    ensures merged.tracks == if setToGrandPiano then GrandPianoTracks(Concat(files)) else Concat(files)
  {
    merged := new MidiFile();
    var f := 0;
    while f < |files|
      invariant 0 <= f <= |files|
      invariant merged.tracks == Concat(files[..f])
    {
      var midi := files[f];
      var t := 0;
      while t < |midi|
        invariant 0 <= t <= |midi|
        invariant merged.tracks == Concat(files[..f]) + midi[..t]
      {
        merged.tracks := merged.tracks + [midi[t]];
        assert midi[..t + 1] == midi[..t] + [midi[t]];
        t := t + 1;
      }
      assert midi[..t] == midi;
      assert files[..f + 1][..f] == files[..f];
      f := f + 1;
    }
    assert files[..f] == files;
    if setToGrandPiano {
      merged.SetTracksToGrandPianoSound();
    }
  }
}
