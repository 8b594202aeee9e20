/**
 * What the main window writes once a glottis segmentation video is loaded: one glottal
 * midline per segmentation frame, the `glottal_midlines.json` dictionary built from them,
 * the zero-padded frame image names, and the progress flag of the project.
 */
module MainWindow {
  import opened Wrappers
  import opened Formatting
  import opened Geometry

  /** The two end points `glottal_midline` finds on one frame; either may be missing. */
  datatype Midline = Midline(upper: Option<Point>, lower: Option<Point>)

  /** The `{"Upper": [x, y], "Lower": [x, y]}` record stored for one frame. */
  datatype MidlineEntry = MidlineEntry(upper: seq<real>, lower: seq<real>)

  const ProgressKey := "progress_gl_seg"
  const Finished := "finished"

  /** The stored form of one end point: its coordinates, or `[-1, -1]` when there is none. */
  function EndpointEntry(e: Option<Point>): (v: seq<real>)
    ensures |v| == 2
    ensures e.Some? ==> v == [e.value.x, e.value.y]
  {
    if e.Some? then [e.value.x, e.value.y] else [-1.0, -1.0]
  }

  /** Reading a stored end point back: the `[-1, -1]` sentinel means "no point". */
  function EndpointOf(v: seq<real>): (e: Option<Point>)
    requires |v| == 2
    ensures e.None? <==> v == [-1.0, -1.0]
  {
    if v == [-1.0, -1.0] then None else Some(Point(v[0], v[1]))
  }

  /**
   * The sentinel cannot be mistaken for a point of the image: every missing or in-image end
   * point reads back as itself.
   */
  lemma EndpointRoundTrip(e: Option<Point>, width: int, height: int)
    requires e.Some? ==> InImage(e.value, width, height)
    ensures EndpointOf(EndpointEntry(e)) == e
  {
  }

  /** A point at `(-1, -1)` is the one point the stored form cannot tell from a missing one. */
  lemma SentinelAmbiguous()
    ensures EndpointEntry(Some(Point(-1.0, -1.0))) == EndpointEntry(None)
  {
  }

  function EntryOf(m: Midline): (e: MidlineEntry) {
    MidlineEntry(EndpointEntry(m.upper), EndpointEntry(m.lower))
  }

  /** The dictionary key of frame `i`: `f"Frame{i}"`. */
  function FrameKey(i: nat): (key: string) {
    "Frame" + Decimal(i)
  }

  /** Different frames get different keys. */
  lemma FrameKeyInjective(i: nat, j: nat)
    requires FrameKey(i) == FrameKey(j)
    ensures i == j
  {
    assert Decimal(i) == ("Frame" + Decimal(i))[5..] == ("Frame" + Decimal(j))[5..] == Decimal(j);
    DecimalInjective(i, j);
  }

  /**
   * The loop of `save_segmentations_and_midlines` that fills `glottal_midline_dict`: one key
   * `Frame<i>` for each midline, holding that midline's end points.
   */
  method MidlineDictionary(midlines: seq<Midline>) returns (d: map<string, MidlineEntry>)
    ensures d.Keys == FrameKeys(|midlines|) && |d| == |midlines|
    ensures forall i :: 0 <= i < |midlines| ==> FrameKey(i) in d && d[FrameKey(i)] == EntryOf(midlines[i])
  {
    d := map[];
    for i := 0 to |midlines|
      invariant d.Keys == FrameKeys(i)
      invariant forall j :: 0 <= j < i ==> FrameKey(j) in d && d[FrameKey(j)] == EntryOf(midlines[j])
    {
      FrameKeysSnoc(i);
      d := d[FrameKey(i) := EntryOf(midlines[i])];
    }
    FrameKeysCount(|midlines|);
  }

  /** The keys of frames `0 .. n-1`. */
  ghost function FrameKeys(n: nat): (keys: set<string>) {
    set j | 0 <= j < n :: FrameKey(j)
  }

  /** The key of frame `n` is new, and adding it gives the keys of frames `0 .. n`. */
  lemma FrameKeysSnoc(n: nat)
    ensures FrameKey(n) !in FrameKeys(n)
    ensures FrameKeys(n + 1) == FrameKeys(n) + {FrameKey(n)}
  {
    if FrameKey(n) in FrameKeys(n) {
      var j :| 0 <= j < n && FrameKey(n) == FrameKey(j);
      FrameKeyInjective(n, j);
    }
  }

  /** There are exactly `n` keys for `n` frames. */
  lemma {:induction false} FrameKeysCount(n: nat)
    ensures |FrameKeys(n)| == n
  {
    if n > 0 {
      FrameKeysCount(n - 1);
      FrameKeysSnoc(n - 1);
    }
  }

  /**
   * The loop of `save_segmentations_and_midlines` that writes the frames: frame `i` goes to the
   * image file `{i:05d}.png`.
   */
  method SegmentationFiles<Image>(segmentations: seq<Image>) returns (files: seq<(string, Image)>)
    ensures |files| == |segmentations|
    ensures forall i :: 0 <= i < |files| ==> files[i] == (FrameFileName(i), segmentations[i])
    ensures forall i, j :: 0 <= i < j < |files| ==> files[i].0 != files[j].0
  {
    files := [];
    for i := 0 to |segmentations|
      invariant |files| == i
      invariant forall j :: 0 <= j < i ==> files[j] == (FrameFileName(j), segmentations[j])
      invariant forall j, k :: 0 <= j < k < i ==> files[j].0 != files[k].0
    {
      forall j | 0 <= j < i
        ensures FrameFileName(j) != FrameFileName(i)
      {
        if FrameFileName(j) == FrameFileName(i) {
          FrameFileNameInjective(j, i);
        }
      }
      files := files + [(FrameFileName(i), segmentations[i])];
    }
  }

  /**
   * `update_glottis_progress`: the loaded progress record with `progress_gl_seg` set to
   * `finished`; every other key keeps its value.
   */
  function UpdateGlottisProgress(progress: map<string, string>): (updated: map<string, string>)
    ensures updated.Keys == progress.Keys + {ProgressKey}
    ensures updated[ProgressKey] == Finished
    ensures forall k :: k in progress && k != ProgressKey ==> updated[k] == progress[k]
  {
    progress[ProgressKey := Finished]
  }

  /**
   * `generate_glottis_data`: one midline per segmentation frame, in frame order, saved with the
   * frames, then the progress flag. `midline` stands for `glottal_midline`, which is not part of
   * this model; the progress record is the one read from `progress_status.json`.
   */
  method GenerateGlottisData<Image>(segmentations: seq<Image>, midline: Image -> Midline, progress: map<string, string>)
    returns (midlines: seq<Midline>, dictionary: map<string, MidlineEntry>, files: seq<(string, Image)>,
             newProgress: map<string, string>)
    ensures |midlines| == |segmentations|
    ensures forall i :: 0 <= i < |segmentations| ==> midlines[i] == midline(segmentations[i])
    ensures |dictionary| == |segmentations|
    ensures forall i :: 0 <= i < |segmentations| ==>
      FrameKey(i) in dictionary && dictionary[FrameKey(i)] == EntryOf(midline(segmentations[i]))
    ensures |files| == |segmentations|
    ensures forall i :: 0 <= i < |files| ==> files[i] == (FrameFileName(i), segmentations[i])
    ensures newProgress == UpdateGlottisProgress(progress)
  {
    midlines := seq(|segmentations|, i requires 0 <= i < |segmentations| => midline(segmentations[i]));
    dictionary := MidlineDictionary(midlines);
    files := SegmentationFiles(segmentations);
    newProgress := UpdateGlottisProgress(progress);
  }
}
