/**
 * The state behind the vocal-fold segmentation page: the key-frame transform table
 * (`dict_transform`), the segment marks (`marks_list`), their JSON document, and the
 * handlers that change them.
 *
 * In memory a key frame is a `nat`; the table keeps Python's dictionary insertion order
 * in `keyOrder` beside a `map` from frame to transform. Decimal text appears only in the
 * JSON document, where `dict_transform` maps `str(frame)` to `[x, y, scale, rotation]`.
 */
module VocalfoldSegmentation {
  import opened Wrappers
  import opened Formatting
  import opened Geometry

  /** A polygon placement `[x, y, scale, rotation]`. */
  datatype Transform = Transform(x: real, y: real, scale: real, rotation: real)

  /** `[0, 0, 1, 0]`: no shift, unit scale, no rotation. */
  const Identity := Transform(0.0, 0.0, 1.0, 0.0)

  function TransformValues(t: Transform): (v: seq<real>) {
    [t.x, t.y, t.scale, t.rotation]
  }

  /** Reads a four-element JSON list back as a transform. */
  function TransformOf(v: seq<real>): (t: Option<Transform>)
    ensures t.Some? <==> |v| == 4
    ensures t.Some? ==> TransformValues(t.value) == v
  {
    if |v| == 4 then Some(Transform(v[0], v[1], v[2], v[3])) else None
  }

  predicate Distinct(s: seq<nat>) {
    forall i, j :: 0 <= i < j < |s| ==> s[i] != s[j]
  }

  predicate StrictlyAscending(s: seq<nat>) {
    forall i, j :: 0 <= i < j < |s| ==> s[i] < s[j]
  }

  /** A dictionary's view: the keys in insertion order, each once, and exactly the keys of the map. */
  predicate WellFormedTable(keyOrder: seq<nat>, transforms: map<nat, Transform>) {
    Distinct(keyOrder) &&
    (forall k :: k in keyOrder ==> k in transforms) && (forall k :: k in transforms ==> k in keyOrder)
  }

  // Re-sorting the keys: `sorted(dict_transform.keys(), key=int)`

  function Insert(x: nat, s: seq<nat>): (r: seq<nat>)
    requires StrictlyAscending(s) && x !in s
    ensures StrictlyAscending(r)
    ensures multiset(r) == multiset(s) + multiset{x}
  {
    if s == [] then [x]
    else if x < s[0] then
      AscendingCons(x, s);
      [x] + s
    else
      var t := Insert(x, s[1..]);
      AboveHead(x, s, t);
      AscendingCons(s[0], t);
      assert s == [s[0]] + s[1..];
      [s[0]] + t
  }

  /** Inserting a key above the head into the tail keeps every element above the head. */
  lemma AboveHead(x: nat, s: seq<nat>, t: seq<nat>)
    requires StrictlyAscending(s) && s != [] && s[0] < x
    requires multiset(t) == multiset(s[1..]) + multiset{x}
    ensures forall y :: y in t ==> s[0] < y
  {
    forall y | y in t ensures s[0] < y {
      assert y in multiset(t);
      if y != x {
        assert y in multiset(s[1..]);
        var i :| 0 <= i < |s[1..]| && s[1..][i] == y;
        assert s[i + 1] == y;
      }
    }
  }

  lemma AscendingCons(h: nat, t: seq<nat>)
    requires StrictlyAscending(t) && forall y :: y in t ==> h < y
    ensures StrictlyAscending([h] + t)
  {
    forall i, j | 0 <= i < j < |t| + 1 ensures ([h] + t)[i] < ([h] + t)[j] {
      assert ([h] + t)[j] == t[j - 1] && t[j - 1] in t;
      if i > 0 {
        assert ([h] + t)[i] == t[i - 1];
      }
    }
  }

  lemma DistinctCons(h: nat, t: seq<nat>)
    ensures Distinct([h] + t) <==> h !in t && Distinct(t)
  {
    var s := [h] + t;
    if Distinct(s) {
      forall i, j | 0 <= i < j < |t| ensures t[i] != t[j] {
        assert s[i + 1] == t[i] && s[j + 1] == t[j];
      }
      forall j | 0 <= j < |t| ensures t[j] != h {
        assert s[0] == h && s[j + 1] == t[j];
      }
    }
    if h !in t && Distinct(t) {
      forall i, j | 0 <= i < j < |s| ensures s[i] != s[j] {
        assert s[j] == t[j - 1];
        if i > 0 {
          assert s[i] == t[i - 1];
        }
      }
    }
  }

  /** The keys in ascending numeric order: a strictly ascending permutation of the input. */
  function SortByValue(s: seq<nat>): (r: seq<nat>)
    requires Distinct(s)
    ensures StrictlyAscending(r)
    ensures multiset(r) == multiset(s)
  {
    if s == [] then []
    else
      var init := s[..|s| - 1];
      assert s == init + [s[|s| - 1]];
      assert s[|s| - 1] !in init;
      var sorted := SortByValue(init);
      assert s[|s| - 1] !in multiset(sorted);
      Insert(s[|s| - 1], sorted)
  }

  lemma AscendingIsDistinct(s: seq<nat>)
    requires StrictlyAscending(s)
    ensures Distinct(s)
  {
  }

  // The table operations, as values

  /**
   * End-of-segment selection (`update_signal_end_btn_pressed`): a frame that is not yet a key
   * gets the identity transform and the keys are re-sorted; a frame that is a key leaves the
   * table, order included, as it was.
   */
  function InsertKeyFrame(keyOrder: seq<nat>, transforms: map<nat, Transform>, position: nat)
    : (r: (seq<nat>, map<nat, Transform>))
    requires WellFormedTable(keyOrder, transforms)
    ensures WellFormedTable(r.0, r.1)
    ensures position in r.1
    ensures forall k :: k in transforms ==> k in r.1 && r.1[k] == transforms[k]
    ensures position in transforms ==> r == (keyOrder, transforms)
    ensures position !in transforms ==>
      r.1 == transforms[position := Identity] && StrictlyAscending(r.0) &&
      multiset(r.0) == multiset(keyOrder) + multiset{position}
  {
    if position in transforms then (keyOrder, transforms)
    else
      var extended := keyOrder + [position];
      assert Distinct(extended);
      var sorted := SortByValue(extended);
      AscendingIsDistinct(sorted);
      assert forall k :: k in sorted <==> k in multiset(extended);
      (sorted, transforms[position := Identity])
  }

  /**
   * The move-frame update (`update_signal_current_move_frame`): `dict_transform[str(frame)] = t`.
   * An existing key keeps its place; a new key goes last, as in a Python dictionary.
   */
  function SetKeyFrame(keyOrder: seq<nat>, transforms: map<nat, Transform>, frame: nat, t: Transform)
    : (r: (seq<nat>, map<nat, Transform>))
    requires WellFormedTable(keyOrder, transforms)
    ensures WellFormedTable(r.0, r.1)
    ensures frame in r.1 && r.1[frame] == t
    ensures forall k :: k != frame ==> (k in r.1 <==> k in transforms)
    ensures forall k :: k != frame && k in transforms ==> r.1[k] == transforms[k]
    ensures frame in transforms ==> r.0 == keyOrder
    ensures frame !in transforms ==> r.0 == keyOrder + [frame]
  {
    if frame in transforms then (keyOrder, transforms[frame := t])
    else (keyOrder + [frame], transforms[frame := t])
  }

  /** The keys without `v`, in their old order (`dict.pop` keeps the order of the others). */
  function Without(s: seq<nat>, v: nat): (r: seq<nat>)
    ensures forall x :: x in r <==> x in s && x != v
    ensures Distinct(s) ==> Distinct(r)
    ensures v !in s ==> r == s
  {
    if s == [] then []
    else
      var rest := Without(s[1..], v);
      assert s == [s[0]] + s[1..];
      DistinctCons(s[0], s[1..]);
      DistinctCons(s[0], rest);
      if s[0] == v then rest else [s[0]] + rest
  }

  /**
   * Popping a key that is present takes out exactly its position: the keys before it and the
   * keys after it stay, in their order.
   */
  lemma {:induction false} WithoutAt(s: seq<nat>, i: nat)
    requires Distinct(s) && i < |s|
    ensures Without(s, s[i]) == s[..i] + s[i + 1..]
  {
    assert s == [s[0]] + s[1..];
    DistinctCons(s[0], s[1..]);
    if i == 0 {
      assert s[0] !in s[1..];
    } else {
      assert s[0] != s[i];
      WithoutAt(s[1..], i - 1);
      assert s[1..][i - 1] == s[i];
      assert s[1..][..i - 1] + s[1..][i..] == s[1..i] + s[i + 1..];
      assert [s[0]] + s[1..i] == s[..i];
    }
  }

  /** Removing a key frame from a well-formed table leaves a well-formed table. */
  lemma WithoutKeyFrame(keyOrder: seq<nat>, transforms: map<nat, Transform>, v: nat)
    requires WellFormedTable(keyOrder, transforms)
    ensures WellFormedTable(Without(keyOrder, v), transforms - {v})
  {
  }

  // The remove guard as Python evaluates it

  /** A dictionary key or a compared value as the interpreter sees it: text never equals an integer. */
  datatype PyValue = PyStr(text: string) | PyInt(number: int)

  /** The keys of `dict_transform`: the decimal texts of the key frames. */
  function KeyView(transforms: map<nat, Transform>): (view: set<PyValue>) {
    set k | k in transforms :: PyStr(Decimal(k))
  }

  /**
   * The condition of `remove_mark` as written: `f"{value}" in keys and value != "0" and
   * value != f"{n - 1}"`, with `value` the integer slider position.
   */
  predicate RemoveGuard(value: nat, keys: set<PyValue>, videoLength: nat)
    requires videoLength >= 1
  {
    PyStr(Decimal(value)) in keys && PyInt(value) != PyStr("0") && PyInt(value) != PyStr(Decimal(videoLength - 1))
  }

  /**
   * The two boundary tests compare an integer with text and are always true, so the guard is
   * just key membership; and `pop(value)` looks up the integer, which is never a key.
   */
  lemma RemoveGuardIsMembership(value: nat, transforms: map<nat, Transform>, videoLength: nat)
    requires videoLength >= 1
    ensures RemoveGuard(value, KeyView(transforms), videoLength) <==> value in transforms
    ensures PyInt(value) !in KeyView(transforms)
  {
    if PyStr(Decimal(value)) in KeyView(transforms) {
      var k :| k in transforms && PyStr(Decimal(k)) == PyStr(Decimal(value));
      DecimalInjective(k, value);
    }
  }

  /** The first and the last frame pass the guard whenever they are keys: nothing protects them. */
  lemma BoundaryFramesPassRemoveGuard(transforms: map<nat, Transform>, videoLength: nat)
    requires videoLength >= 1
    ensures 0 in transforms ==> RemoveGuard(0, KeyView(transforms), videoLength)
    ensures videoLength - 1 in transforms ==> RemoveGuard(videoLength - 1, KeyView(transforms), videoLength)
  {
    RemoveGuardIsMembership(0, transforms, videoLength);
    RemoveGuardIsMembership(videoLength - 1, transforms, videoLength);
  }

  // The JSON document

  /** The annotation as the page holds it, and as it is stored. */
  datatype Annotation = Annotation(keyOrder: seq<nat>, transforms: map<nat, Transform>, marks: seq<int>, polygon: seq<Point>)

  /** `{"dict_transform": {...}, "marks_list": [...], "polygon": [[x, y], ...]}`, the dictionary as its item list. */
  datatype Document = Document(dictTransform: seq<(string, seq<real>)>, marksList: seq<int>, polygon: seq<seq<real>>)

  /** The items of `dict_transform` in insertion order: `str(frame)` with its four numbers. */
  function EncodeTable(keyOrder: seq<nat>, transforms: map<nat, Transform>): (items: seq<(string, seq<real>)>)
    requires forall k :: k in keyOrder ==> k in transforms
    ensures |items| == |keyOrder|
    ensures forall i :: 0 <= i < |items| ==>
      items[i].0 == Decimal(keyOrder[i]) && items[i].1 == TransformValues(transforms[keyOrder[i]])
  {
    if keyOrder == [] then []
    else
      var last := keyOrder[|keyOrder| - 1];
      EncodeTable(keyOrder[..|keyOrder| - 1], transforms) + [(Decimal(last), TransformValues(transforms[last]))]
  }

  /** Reads the items back; a key that `str` cannot produce, a repeated frame or a list of other than four numbers fails. */
  function DecodeTable(items: seq<(string, seq<real>)>): (r: Option<(seq<nat>, map<nat, Transform>)>)
    ensures r.Some? ==> WellFormedTable(r.value.0, r.value.1) && |r.value.0| == |items|
  {
    if items == [] then Some(([], map[]))
    else DecodeItem(DecodeTable(items[..|items| - 1]), items[|items| - 1])
  }

  /** Adds one `(key, values)` item to a table read so far. */
  function DecodeItem(table: Option<(seq<nat>, map<nat, Transform>)>, item: (string, seq<real>))
    : (r: Option<(seq<nat>, map<nat, Transform>)>)
    requires table.Some? ==> WellFormedTable(table.value.0, table.value.1)
    ensures r.Some? ==> table.Some? && WellFormedTable(r.value.0, r.value.1) && |r.value.0| == |table.value.0| + 1
  {
    match table
    case None => None
    case Some((keyOrder, transforms)) =>
      match Parse(item.0)
      case None => None
      case Some(k) =>
        if k in transforms || TransformOf(item.1).None? then None
        else
          assert Distinct(keyOrder + [k]) by { DistinctSnoc(keyOrder, k); }
          Some((keyOrder + [k], transforms[k := TransformOf(item.1).value]))
  }

  lemma DistinctSnoc(s: seq<nat>, k: nat)
    requires Distinct(s) && k !in s
    ensures Distinct(s + [k])
  {
    var t := s + [k];
    forall i, j | 0 <= i < j < |t| ensures t[i] != t[j] {
      assert t[i] == s[i];
      if j < |s| {
        assert t[j] == s[j];
      }
    }
  }

  function EncodePolygon(points: seq<Point>): (rows: seq<seq<real>>)
    ensures |rows| == |points|
    ensures forall i :: 0 <= i < |rows| ==> rows[i] == [points[i].x, points[i].y]
  {
    seq(|points|, i requires 0 <= i < |points| => [points[i].x, points[i].y])
  }

  /** `QPointF(polygon[i][0], polygon[i][1])` for every row; a row with fewer than two numbers fails. */
  function DecodePolygon(rows: seq<seq<real>>): (r: Option<seq<Point>>)
    ensures r.Some? <==> forall i :: 0 <= i < |rows| ==> |rows[i]| >= 2
    ensures r.Some? ==> |r.value| == |rows|
    ensures r.Some? ==> forall i :: 0 <= i < |rows| ==> r.value[i] == Point(rows[i][0], rows[i][1])
  {
    if forall i :: 0 <= i < |rows| ==> |rows[i]| >= 2 then
      Some(seq(|rows|, i requires 0 <= i < |rows| && |rows[i]| >= 2 => Point(rows[i][0], rows[i][1])))
    else
      None
  }

  /** `upload_existing_data`: the document written to `vocalfold_points.json`. */
  function Encode(a: Annotation): (doc: Document)
    requires forall k :: k in a.keyOrder ==> k in a.transforms
  {
    Document(EncodeTable(a.keyOrder, a.transforms), a.marks, EncodePolygon(a.polygon))
  }

  /** `download_data_from_project_folder` on a non-empty file. */
  function Decode(d: Document): (r: Option<Annotation>)
    ensures r.Some? ==> WellFormedTable(r.value.keyOrder, r.value.transforms)
  {
    match (DecodeTable(d.dictTransform), DecodePolygon(d.polygon))
    case (Some((keyOrder, transforms)), Some(points)) => Some(Annotation(keyOrder, transforms, d.marksList, points))
    case _ => None
  }

  /** The items depend only on the table's entries at the listed keys. */
  lemma {:induction false} EncodeTableAgree(keyOrder: seq<nat>, t1: map<nat, Transform>, t2: map<nat, Transform>)
    requires forall k :: k in keyOrder ==> k in t1 && k in t2 && t1[k] == t2[k]
    ensures EncodeTable(keyOrder, t1) == EncodeTable(keyOrder, t2)
  {
    if keyOrder != [] {
      EncodeTableAgree(keyOrder[..|keyOrder| - 1], t1, t2);
    }
  }

  lemma {:induction false} DecodeEncodeTable(keyOrder: seq<nat>, transforms: map<nat, Transform>)
    requires WellFormedTable(keyOrder, transforms)
    ensures DecodeTable(EncodeTable(keyOrder, transforms)) == Some((keyOrder, transforms))
  {
    if keyOrder != [] {
      var n := |keyOrder|;
      var init, last := keyOrder[..n - 1], keyOrder[n - 1];
      var rest := transforms - {last};
      WellFormedInit(keyOrder, transforms);
      DecodeEncodeTable(init, rest);
      EncodeTableAgree(init, rest, transforms);
      var prefix := EncodeTable(init, transforms);
      var item := (Decimal(last), TransformValues(transforms[last]));
      assert EncodeTable(keyOrder, transforms) == prefix + [item];
      DecodeTableSnoc(prefix, item);
      DecodeNewItem(init, rest, last, transforms[last]);
    }
  }

  lemma DecodeTableSnoc(items: seq<(string, seq<real>)>, item: (string, seq<real>))
    ensures DecodeTable(items + [item]) == DecodeItem(DecodeTable(items), item)
  {
    assert (items + [item])[..|items|] == items;
  }

  /** An item for a frame not yet in the table adds that frame last. */
  lemma DecodeNewItem(keyOrder: seq<nat>, transforms: map<nat, Transform>, k: nat, t: Transform)
    requires WellFormedTable(keyOrder, transforms) && k !in transforms
    ensures DecodeItem(Some((keyOrder, transforms)), (Decimal(k), TransformValues(t))) ==
      Some((keyOrder + [k], transforms[k := t]))
  {
    ParseDecimal(k);
    assert TransformOf(TransformValues(t)) == Some(t);
  }

  /** Dropping the last key from a well-formed table leaves a well-formed table without that entry. */
  lemma WellFormedInit(keyOrder: seq<nat>, transforms: map<nat, Transform>)
    requires WellFormedTable(keyOrder, transforms) && keyOrder != []
    ensures WellFormedTable(keyOrder[..|keyOrder| - 1], transforms - {keyOrder[|keyOrder| - 1]})
    ensures keyOrder[|keyOrder| - 1] !in keyOrder[..|keyOrder| - 1]
    ensures keyOrder[..|keyOrder| - 1] + [keyOrder[|keyOrder| - 1]] == keyOrder
    ensures (transforms - {keyOrder[|keyOrder| - 1]})[keyOrder[|keyOrder| - 1] := transforms[keyOrder[|keyOrder| - 1]]] == transforms
  {
    var n := |keyOrder|;
    var init, last := keyOrder[..n - 1], keyOrder[n - 1];
    forall k | k in transforms - {last} ensures k in init {
      var i :| 0 <= i < n && keyOrder[i] == k;
      assert i < n - 1 && init[i] == k;
    }
  }

  lemma {:induction false} EncodeDecodeTable(items: seq<(string, seq<real>)>)
    requires DecodeTable(items).Some?
    ensures EncodeTable(DecodeTable(items).value.0, DecodeTable(items).value.1) == items
  {
    if items != [] {
      var n := |items|;
      var init, item := items[..n - 1], items[n - 1];
      assert items == init + [item];
      var (keyOrder, transforms) := DecodeTable(init).value;
      EncodeDecodeTable(init);
      var k := Parse(item.0).value;
      DecimalOfParse(item.0);
      var t := TransformOf(item.1).value;
      assert DecodeTable(items) == Some((keyOrder + [k], transforms[k := t]));
      EncodeTableAgree(keyOrder, transforms, transforms[k := t]);
      assert (keyOrder + [k])[..n - 1] == keyOrder;
    }
  }

  /** Writing the annotation and reading it back gives the same table, in the same order, the same marks and the same polygon. */
  lemma DecodeEncode(a: Annotation)
    requires WellFormedTable(a.keyOrder, a.transforms)
    ensures Decode(Encode(a)) == Some(a)
  {
    DecodeEncodeTable(a.keyOrder, a.transforms);
    var rows := EncodePolygon(a.polygon);
    assert DecodePolygon(rows).value == a.polygon;
  }

  /** A document that reads back, with two numbers per polygon row, is exactly what writing its annotation produces. */
  lemma EncodeDecode(d: Document)
    requires Decode(d).Some?
    requires forall i :: 0 <= i < |d.polygon| ==> |d.polygon[i]| == 2
    ensures Encode(Decode(d).value) == d
  {
    EncodeDecodeTable(d.dictTransform);
    var rows := EncodePolygon(Decode(d).value.polygon);
    assert forall i :: 0 <= i < |rows| ==> rows[i] == d.polygon[i];
  }

  /** The state a page starts from when no saved document exists. */
  function FreshAnnotation(videoLength: nat): (a: Annotation)
    requires videoLength >= 1
    ensures WellFormedTable(a.keyOrder, a.transforms) && StrictlyAscending(a.keyOrder)
    ensures a.transforms.Keys == {0, videoLength - 1}
    ensures forall k :: k in a.transforms ==> a.transforms[k] == Identity
    ensures a.marks == [0, videoLength - 1] && a.polygon == []
  {
    Annotation(if videoLength == 1 then [0] else [0, videoLength - 1],
      map[0 := Identity, videoLength - 1 := Identity], [0, videoLength - 1], [])
  }

  /** The fresh table, as stored: exactly the keys "0" and `str(n - 1)`, both `[0, 0, 1, 0]`, in that order. */
  lemma FreshDocument(videoLength: nat)
    requires videoLength >= 2
    ensures Encode(FreshAnnotation(videoLength)).dictTransform ==
      [("0", [0.0, 0.0, 1.0, 0.0]), (Decimal(videoLength - 1), [0.0, 0.0, 1.0, 0.0])]
    ensures Encode(FreshAnnotation(videoLength)).marksList == [0, videoLength - 1]
  {
    var items := Encode(FreshAnnotation(videoLength)).dictTransform;
    assert items[0].0 == Decimal(0);
  }

  // The page

  /** What `generate_segmentation_for_frame` returns: a mask image, or the `np.array([-1])` sentinel. */
  datatype Rendering = Sentinel | Mask(pixels: seq<int>)

  /** The signals the page emits. */
  datatype Event =
    | NewMark(frame: int)
    | RemoveMarkRequested(frame: int)
    | MoveWindowFrame(target: nat)
    | DictionaryChanged
    | MarksToInterpolate(marks: seq<int>)

  class VocalfoldSegmentationWidget {
    /** `len(self.qvideo)`. */
    const videoLength: nat
    var keyOrder: seq<nat>
    var transforms: map<nat, Transform>
    var marks: seq<int>
    /** The polygon restored from the saved document, handed to the drawing view. */
    var polygonPoints: seq<Point>
    /**
     * `self.polygon`: the polygon last handed to the move and interpolation views, or `None` while
     * the attribute does not exist yet.
     */
    var handedOver: Option<seq<Point>>
    var endSegment: Option<nat>
    ghost var events: seq<Event>

    /** The table is a well-formed dictionary and always holds the last frame, which the page reads on start-up. */
    ghost predicate Valid()
      reads this
    {
      videoLength >= 1 && WellFormedTable(keyOrder, transforms) && videoLength - 1 in transforms
    }

    /**
     * `__init__` with `download_data_from_project_folder`: `saved` is the stored document, or
     * `None` when the file is empty.
     */
    constructor (videoLength: nat, saved: Option<Document>)
      requires videoLength >= 1
      requires saved.Some? ==> Decode(saved.value).Some? && videoLength - 1 in Decode(saved.value).value.transforms
      requires saved.Some? ==> Decode(saved.value).Some? && |Decode(saved.value).value.polygon| > 0
      ensures Valid() && this.videoLength == videoLength && endSegment == None
      ensures saved.None? ==> Annotation(keyOrder, transforms, marks, polygonPoints) == FreshAnnotation(videoLength)
      ensures saved.Some? ==> Annotation(keyOrder, transforms, marks, polygonPoints) == Decode(saved.value).value
      ensures handedOver == if saved.Some? then Some(polygonPoints) else None
      ensures events == [MoveWindowFrame(videoLength - 1), MarksToInterpolate(marks), DictionaryChanged]
    {
      this.videoLength := videoLength;
      var a := if saved.None? then FreshAnnotation(videoLength) else Decode(saved.value).value;
      keyOrder := a.keyOrder;
      transforms := a.transforms;
      marks := a.marks;
      polygonPoints := a.polygon;
      handedOver := if saved.None? then None else Some(a.polygon);
      endSegment := None;
      events := [MoveWindowFrame(videoLength - 1), MarksToInterpolate(a.marks), DictionaryChanged];
    }

    /** The annotation `upload_existing_data` stores, with the drawing view's current polygon. */
    function Snapshot(polygon: seq<Point>): (a: Annotation)
      reads this
    {
      Annotation(keyOrder, transforms, marks, polygon)
    }

    /** `add_mark`: only emits the slider position; the table and the marks stay as they are. */
    method AddMark(value: int)
      modifies this`events
      ensures events == old(events) + [NewMark(value)]
    {
      events := events + [NewMark(value)];
    }

    /**
     * `remove_mark` as written: the guard reduces to key membership, and `pop(value)` with the
     * integer raises `KeyError`, so a key frame is never removed and the first and last frame
     * are not protected. `raisedKeyError` is whether the exception escapes the handler.
     */
    method RemoveMark(value: nat) returns (raisedKeyError: bool)
      requires Valid()
      modifies this`events, this`keyOrder, this`transforms
      ensures Valid()
      ensures raisedKeyError <==> value in transforms
      ensures transforms == old(transforms) && keyOrder == old(keyOrder)
      ensures events == old(events) + [RemoveMarkRequested(value)]
    {
      events := events + [RemoveMarkRequested(value)];
      raisedKeyError := false;
      RemoveGuardIsMembership(value, transforms, videoLength);
      if RemoveGuard(value, KeyView(transforms), videoLength) {
        if PyInt(value) in KeyView(transforms) {
          assert false;
        }
        raisedKeyError := true;
      }
    }

    /** `remove_mark` as intended: drops a key frame other than the first and the last. */
    method RemoveKeyFrame(value: nat) returns (removed: bool)
      requires Valid()
      modifies this`events, this`keyOrder, this`transforms
      ensures Valid()
      ensures removed <==> value in old(transforms) && value != 0 && value != videoLength - 1
      ensures transforms == if removed then old(transforms) - {value} else old(transforms)
      ensures keyOrder == if removed then Without(old(keyOrder), value) else old(keyOrder)
      ensures events == old(events) + [RemoveMarkRequested(value)] + if removed then [DictionaryChanged] else []
    {
      events := events + [RemoveMarkRequested(value)];
      removed := value in transforms && value != 0 && value != videoLength - 1;
      if removed {
        WithoutKeyFrame(keyOrder, transforms, value);
        keyOrder := Without(keyOrder, value);
        transforms := transforms - {value};
        events := events + [DictionaryChanged];
      }
    }

    /**
     * `add_polygon_to_transform_view`, run on the drawing view's `segmentation_updated`: the
     * drawing view's points `q` become `self.polygon`, and the table is re-emitted.
     */
    method PolygonUpdated(q: seq<Point>)
      modifies this`handedOver, this`events
      ensures handedOver == Some(q)
      ensures events == old(events) + [DictionaryChanged]
    {
      handedOver := Some(q);
      events := events + [DictionaryChanged];
    }

    /**
     * `update_signal_end_btn_pressed`: returns the transform handed to the move view. The table is
     * updated first; then reading `self.polygon` raises `AttributeError` when no polygon has been
     * handed over yet (the drawing view's point list is never `None`).
     */
    method EndSegmentSelected(position: nat) returns (shown: Transform, raisedAttributeError: bool)
      requires Valid()
      modifies this`events, this`keyOrder, this`transforms, this`endSegment
      ensures Valid()
      ensures endSegment == Some(position)
      ensures (keyOrder, transforms) == InsertKeyFrame(old(keyOrder), old(transforms), position)
      ensures shown == transforms[position]
      ensures raisedAttributeError <==> handedOver.None?
      ensures events == old(events) + [MoveWindowFrame(position)]
    {
      endSegment := Some(position);
      events := events + [MoveWindowFrame(position)];
      var r := InsertKeyFrame(keyOrder, transforms, position);
      keyOrder, transforms := r.0, r.1;
      shown := transforms[position];
      raisedAttributeError := handedOver.None?;
    }

    /** `update_signal_current_move_frame`: stores the move view's transform for its frame. */
    method MoveFrameUpdated(frame: nat, t: Transform)
      requires Valid()
      modifies this`events, this`keyOrder, this`transforms
      ensures Valid()
      ensures (keyOrder, transforms) == SetKeyFrame(old(keyOrder), old(transforms), frame, t)
      ensures events == old(events) + [DictionaryChanged]
    {
      var r := SetKeyFrame(keyOrder, transforms, frame, t);
      keyOrder, transforms := r.0, r.1;
      events := events + [DictionaryChanged];
    }

    /** `update_signal_current_marks_updating`: replaces the marks wholesale. */
    method MarksUpdated(newMarks: seq<int>)
      modifies this`marks, this`events
      ensures marks == newMarks
      ensures events == old(events) + [MarksToInterpolate(newMarks)]
    {
      marks := newMarks;
      events := events + [MarksToInterpolate(newMarks)];
    }

    /**
     * `save`: renders frames `0 .. n-1` in order and writes each as `f"{i:05d}.png"`; at the first
     * sentinel it stops, keeping the files already written, and stores no document. Only when every
     * frame rendered is the annotation stored. `render` stands for `generate_segmentation_for_frame`
     * and `polygon` for the drawing view's points.
     */
    method Save(render: nat -> Rendering, polygon: seq<Point>)
      returns (written: seq<(string, Rendering)>, persisted: Option<Document>)
      requires Valid()
      ensures |written| <= videoLength
      ensures forall i :: 0 <= i < |written| ==> written[i] == (FrameFileName(i), render(i)) && render(i).Mask?
      ensures |written| < videoLength ==> render(|written|).Sentinel?
      ensures persisted.Some? <==> |written| == videoLength
      ensures persisted.Some? ==> persisted.value == Encode(Snapshot(polygon))
    {
      written := [];
      var i := 0;
      while i < videoLength
        invariant 0 <= i <= videoLength && |written| == i
        invariant forall k :: 0 <= k < i ==> written[k] == (FrameFileName(k), render(k)) && render(k).Mask?
      {
        var frame := render(i);
        if frame.Sentinel? {
          return written, None;
        }
        written := written + [(FrameFileName(i), frame)];
        i := i + 1;
      }
      persisted := Some(Encode(Snapshot(polygon)));
    }
  }
}
