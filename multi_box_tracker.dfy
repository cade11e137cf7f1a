/**
 * MultiBoxTracker: keeps the boxes shown on screen from one frame to the
 * next. Each call of processResults drops degenerate detections, snapshots
 * the current entries (only when there are some), and then, detection by
 * detection, reuses the first snapshot entry whose centre lies within the
 * tolerance (raising its confidence and renaming it when a breed is known)
 * or makes a new entry coloured by its position, stopping at 15 entries.
 *
 * The tracker's entries are mutable objects that both of its lists may
 * share. They are modelled as a store of entry values, `entries`, that the
 * lists refer to by index: updating an entry in place is replacing the
 * value at its index, and sharing is holding the same index.
 */
module MultiBoxTracking {
  import opened Wrappers
  import opened Seqs
  import opened BoxGeometry
  import opened Recognitions

  const MinSize: real := 16.0
  const BoxToleranceX: real := 50.0
  const BoxToleranceY: real := 50.0

  /**
   * COLORS as ARGB words: BLUE, RED, GREEN, YELLOW, CYAN, MAGENTA, WHITE,
   * then #55FF55, #FFA500, #FF8888, #AAAAFF, #FFFFAA, #55AAAA, #AA33AA,
   * #0D0068 with full alpha (Java holds them as signed ints).
   */
  const Colors: seq<int> := [
    0xFF0000FF, 0xFFFF0000, 0xFF00FF00, 0xFFFFFF00, 0xFF00FFFF,
    0xFFFF00FF, 0xFFFFFFFF, 0xFF55FF55, 0xFFFFA500, 0xFFFF8888,
    0xFFAAAAFF, 0xFFFFFFAA, 0xFF55AAAA, 0xFFAA33AA, 0xFF0D0068]

  /** The state of one TrackedRecognition. */
  datatype TrackedRecognition = TrackedRecognition(location: Rect, detectionConfidence: real, color: int, title: string)

  function Abs(x: real): real { if x < 0.0 then -x else x }

  /** A detection box that processResults keeps: located, and at least MIN_SIZE wide and high. */
  predicate Trackable(r: Recognition)
  {
    r.location.Some? && !(Width(r.location.value) < MinSize || Height(r.location.value) < MinSize)
  }

  /** The first pass of processResults: the detections worth tracking, in order. */
  method RectsToTrack(results: seq<Recognition>) returns (rectsToTrack: seq<Recognition>)
    ensures rectsToTrack == Filter(results, Trackable)
  {
    rectsToTrack := [];
    for i := 0 to |results|
      invariant rectsToTrack == Filter(results[..i], Trackable)
    {
      FilterPrefixStep(results, Trackable, i);
      var result := results[i];
      if result.location.None? {
        continue;
      }
      var detectionFrameRect := result.location.value;
      if Width(detectionFrameRect) < MinSize || Height(detectionFrameRect) < MinSize {
        continue;
      }
      rectsToTrack := rectsToTrack + [result];
    }
    assert results[..|results|] == results;
  }

  /** GetSimilarBoxByLocation's test: both centre distances strictly within the tolerance. */
  predicate Similar(a: Rect, b: Rect)
  {
    Abs(CenterX(a) - CenterX(b)) < BoxToleranceX && Abs(CenterY(a) - CenterY(b)) < BoxToleranceY
  }

  /** The index of the first box of `locs` similar to `loc`, or -1 when there is none. */
  function FirstSimilar(loc: Rect, locs: seq<Rect>): (ii: int)
    ensures -1 <= ii < |locs|
  {
    if locs == [] then -1
    else if Similar(loc, locs[0]) then 0
    else
      var ii := FirstSimilar(loc, locs[1..]);
      if ii == -1 then -1 else ii + 1
  }

  /** FirstSimilar finds the first similar box, and answers -1 exactly when there is none. */
  lemma {:induction false} FirstSimilarExactly(loc: Rect, locs: seq<Rect>)
    ensures var ii := FirstSimilar(loc, locs);
      (ii == -1 <==> forall k | 0 <= k < |locs| :: !Similar(loc, locs[k])) &&
      (ii >= 0 ==> Similar(loc, locs[ii]) && forall k | 0 <= k < ii :: !Similar(loc, locs[k]))
  {
    if locs != [] && !Similar(loc, locs[0]) {
      FirstSimilarExactly(loc, locs[1..]);
      assert forall k | 1 <= k < |locs| :: locs[1..][k - 1] == locs[k];
    }
  }

  /** Every index of `ids` names an entry of `store`. */
  predicate InStore(store: seq<TrackedRecognition>, ids: seq<nat>)
  {
    forall i | 0 <= i < |ids| :: ids[i] < |store|
  }

  /** The boxes of the entries `ids` refers to, in order. */
  function Locations(store: seq<TrackedRecognition>, ids: seq<nat>): (locs: seq<Rect>)
    requires InStore(store, ids)
    ensures |locs| == |ids|
  {
    if ids == [] then []
    else
      var n := |ids| - 1;
      Locations(store, ids[..n]) + [store[ids[n]].location]
  }

  /** The i-th box is that of the entry the i-th index names. */
  lemma {:induction false} LocationsExactly(store: seq<TrackedRecognition>, ids: seq<nat>)
    requires InStore(store, ids)
    ensures forall i | 0 <= i < |ids| :: Locations(store, ids)[i] == store[ids[i]].location
  {
    if ids != [] {
      var n := |ids| - 1;
      LocationsExactly(store, ids[..n]);
      assert forall i | 0 <= i < n :: ids[..n][i] == ids[i];
    }
  }

  /** The list processResults iterates over is its own: the old one only while the current one is empty. */
  function Snapshot(trackedObjects: seq<nat>, oldTrackedObjects: seq<nat>): seq<nat>
  {
    if |trackedObjects| > 0 then trackedObjects else oldTrackedObjects
  }

  /** How many detections processResults handles before the cap. */
  function Capped(n: nat): (c: nat)
    ensures c <= n && c <= |Colors|
    ensures c == n || c == |Colors|
  {
    if n < |Colors| then n else |Colors|
  }

  /** The title a detection gives an entry: its breed name when known, else `title`. */
  function NewTitle(breedName: Option<string>, title: string): string
  {
    if breedName.Some? then breedName.value else title
  }

  /**
   * What the tracker reads of a located Recognition, as a value. Nothing
   * changes a Recognition while processResults runs, so reading its fields
   * once is the same as reading them at each use.
   */
  datatype Detection = Detection(location: Rect, confidence: real, title: string, breedName: Option<string>)

  function DetectionOf(r: Recognition): (d: Detection)
    requires r.location.Some?
    reads r
  {
    Detection(BoxOf(r), r.confidence, r.title, r.breedName)
  }

  /** The values of the records `rs`, in order. */
  function Detections(rs: seq<Recognition>): (ds: seq<Detection>)
    requires HasLocations(rs)
    reads rs
    ensures |ds| == |rs| && forall i | 0 <= i < |rs| :: ds[i] == DetectionOf(rs[i])
  {
    if rs == [] then [] else Detections(rs[..|rs| - 1]) + [DetectionOf(rs[|rs| - 1])]
  }

  /** UpdateExistingTrackedentry: the larger confidence; renamed when a breed is known. */
  function UpdateExistingTrackedEntry(existingEntry: TrackedRecognition, recognition: Detection): (trackedRecognition: TrackedRecognition)
    ensures trackedRecognition.location == existingEntry.location
    ensures trackedRecognition.detectionConfidence >= existingEntry.detectionConfidence
    ensures trackedRecognition.detectionConfidence >= recognition.confidence
    ensures trackedRecognition.detectionConfidence in {existingEntry.detectionConfidence, recognition.confidence}
    ensures recognition.breedName.Some? ==> trackedRecognition.title == recognition.breedName.value
    ensures recognition.breedName.None? ==> trackedRecognition.title == existingEntry.title
    ensures trackedRecognition.color == existingEntry.color
  {
    existingEntry.(detectionConfidence := Max(recognition.confidence, existingEntry.detectionConfidence),
                   title := NewTitle(recognition.breedName, existingEntry.title))
  }

  /**
   * CreateNewTrackedEntry: the detection's confidence, a copy of its box,
   * and its breed name as the title when known, else its coarse title. The
   * colour is Java's default 0 until processResults sets it.
   */
  function CreateNewTrackedEntry(recognition: Detection): (trackedRecognition: TrackedRecognition)
    ensures trackedRecognition.location == recognition.location
    ensures trackedRecognition.detectionConfidence == recognition.confidence
    ensures trackedRecognition.title == if recognition.breedName.Some? then recognition.breedName.value else recognition.title
    ensures trackedRecognition.color == 0
  {
    var title := if recognition.breedName.Some? then recognition.breedName.value else recognition.title;
    TrackedRecognition(recognition.location, recognition.confidence, 0, title)
  }

  /** GetSimilarBoxByLocation: scan the entries in order for the first similar one. */
  method GetSimilarBoxByLocation(newRecognition: Recognition, entries: seq<TrackedRecognition>, oldTrackedObjects: seq<nat>)
    returns (ii: int)
    requires newRecognition.location.Some? && InStore(entries, oldTrackedObjects)
    ensures ii == FirstSimilar(BoxOf(newRecognition), Locations(entries, oldTrackedObjects))
  {
    var newLocation := newRecognition.location.value;
    ghost var locs := Locations(entries, oldTrackedObjects);
    LocationsExactly(entries, oldTrackedObjects);
    FirstSimilarExactly(newLocation, locs);
    var centerX := CenterX(newLocation);
    var centerY := CenterY(newLocation);
    for k := 0 to |oldTrackedObjects|
      invariant forall j | 0 <= j < k :: !Similar(newLocation, locs[j])
    {
      var oldObject := entries[oldTrackedObjects[k]];
      var distanceX := Abs(centerX - CenterX(oldObject.location));
      var distanceY := Abs(centerY - CenterY(oldObject.location));
      if distanceX < BoxToleranceX && distanceY < BoxToleranceY {
        return k;
      }
    }
    return -1;
  }

  // ---------------------------------------------------------------------
  // What one frame does, as a function of the store
  // ---------------------------------------------------------------------

  /**
   * One detection of processResults' loop, against the entries `olds` of
   * `store`: the updated store and the index of the entry tracked. A new
   * entry gets colour `color`.
   */
  function Step(store: seq<TrackedRecognition>, olds: seq<nat>, d: Detection, color: int): (res: (seq<TrackedRecognition>, nat))
    requires InStore(store, olds)
    ensures |res.0| >= |store| && res.1 < |res.0|
  {
    var m := FirstSimilar(d.location, Locations(store, olds));
    if m != -1 then (store[olds[m] := UpdateExistingTrackedEntry(store[olds[m]], d)], olds[m])
    else (store + [CreateNewTrackedEntry(d).(color := color)], |store|)
  }

  /**
   * The detections `ds`, in order: the final store and the indices of the
   * entries tracked. The i-th tracked entry, when new, gets COLORS[i].
   */
  function Track(ds: seq<Detection>, olds: seq<nat>, store: seq<TrackedRecognition>, colors: seq<int>): (res: (seq<TrackedRecognition>, seq<nat>))
    requires |ds| <= |colors| && InStore(store, olds)
    ensures |res.1| == |ds| && |res.0| >= |store| && InStore(res.0, res.1)
  {
    if ds == [] then (store, [])
    else
      var n := |ds| - 1;
      var before := Track(ds[..n], olds, store, colors);
      var after := Step(before.0, olds, ds[n], colors[n]);
      (after.0, before.1 + [after.1])
  }

  /**
   * The entry each detection of `ds` is matched to, in order: the index in
   * the snapshot of its first similar box, or -1 when it makes a new entry.
   */
  function Assignments(ds: seq<Detection>, locs: seq<Rect>): (ms: seq<int>)
    ensures |ms| == |ds|
    ensures forall i | 0 <= i < |ms| :: -1 <= ms[i] < |locs|
  {
    if ds == [] then []
    else
      var n := |ds| - 1;
      Assignments(ds[..n], locs) + [FirstSimilar(ds[n].location, locs)]
  }

  /** Whether the detection at `i` was matched to entry `k`. */
  predicate Hit(ms: seq<int>, i: nat, olds: seq<nat>, k: nat)
    requires i < |ms|
  {
    0 <= ms[i] < |olds| && olds[ms[i]] == k
  }

  /** Whether the detection at `i` renames entry `k`: it matched it and carries a breed name. */
  predicate Renames(ds: seq<Detection>, ms: seq<int>, i: nat, olds: seq<nat>, k: nat)
    requires i < |ds| == |ms|
  {
    Hit(ms, i, olds, k) && ds[i].breedName.Some?
  }

  /**
   * The confidence entry `k` ends with after the detections `ds`, matched as
   * `ms` says, having had `c`: each match keeps the larger of the two.
   */
  function ConfAfter(ds: seq<Detection>, ms: seq<int>, olds: seq<nat>, k: nat, c: real): real
    requires |ds| == |ms|
  {
    if ds == [] then c
    else
      var n := |ds| - 1;
      var before := ConfAfter(ds[..n], ms[..n], olds, k, c);
      if Hit(ms, n, olds, k) then Max(ds[n].confidence, before) else before
  }

  /**
   * The title entry `k` ends with after the detections `ds`, matched as `ms`
   * says, having had `title`: each match with a breed name renames it.
   */
  function TitleAfter(ds: seq<Detection>, ms: seq<int>, olds: seq<nat>, k: nat, title: string): string
    requires |ds| == |ms|
  {
    if ds == [] then title
    else
      var n := |ds| - 1;
      var before := TitleAfter(ds[..n], ms[..n], olds, k, title);
      if Renames(ds, ms, n, olds, k) then ds[n].breedName.value else before
  }

  // ---------------------------------------------------------------------
  // Properties
  // ---------------------------------------------------------------------

  /** The detections kept for tracking are, in order, exactly the trackable ones. */
  lemma RectsToTrackExactly(results: seq<Recognition>)
    ensures var rects := Filter(results, Trackable);
      IsSubsequence(rects, results) && HasLocations(rects) &&
      (forall r | r in rects :: Trackable(r)) &&
      (forall r | r in results && Trackable(r) :: r in rects)
  {
    FilterIsSubsequence(results, Trackable);
    FilterMembers(results, Trackable);
  }

  lemma TrackedHaveLocations(results: seq<Recognition>)
    ensures HasLocations(Filter(results, Trackable))
  {
    FilterMembers(results, Trackable);
  }

  /** Each detection is matched to its first similar snapshot box. */
  lemma {:induction false} AssignmentsExactly(ds: seq<Detection>, locs: seq<Rect>)
    ensures forall i | 0 <= i < |ds| :: Assignments(ds, locs)[i] == FirstSimilar(ds[i].location, locs)
  {
    if ds != [] {
      var n := |ds| - 1;
      assert forall i | 0 <= i < n :: ds[..n][i] == ds[i];
      AssignmentsExactly(ds[..n], locs);
    }
  }

  /**
   * A matched entry's confidence is the largest of its own and those of the
   * detections that matched it.
   */
  lemma {:induction false} ConfAfterIsMax(ds: seq<Detection>, ms: seq<int>, olds: seq<nat>, k: nat, c: real)
    requires |ds| == |ms|
    ensures var r := ConfAfter(ds, ms, olds, k, c);
      r >= c &&
      (forall i | 0 <= i < |ds| && Hit(ms, i, olds, k) :: r >= ds[i].confidence) &&
      (r == c || exists i | 0 <= i < |ds| && Hit(ms, i, olds, k) :: r == ds[i].confidence)
  {
    if ds != [] {
      var n := |ds| - 1;
      ConfAfterIsMax(ds[..n], ms[..n], olds, k, c);
      assert forall i | 0 <= i < n :: ds[..n][i] == ds[i] && ms[..n][i] == ms[i];
    }
  }

  /** An entry no detection matched keeps its confidence. */
  lemma {:induction false} ConfAfterUnmatched(ds: seq<Detection>, ms: seq<int>, olds: seq<nat>, k: nat, c: real)
    requires |ds| == |ms|
    requires forall i | 0 <= i < |ds| :: !Hit(ms, i, olds, k)
    ensures ConfAfter(ds, ms, olds, k, c) == c
  {
    if ds != [] {
      var n := |ds| - 1;
      assert forall i | 0 <= i < n :: Hit(ms[..n], i, olds, k) == Hit(ms, i, olds, k);
      ConfAfterUnmatched(ds[..n], ms[..n], olds, k, c);
    }
  }

  /** An entry no detection renamed keeps its title. */
  lemma {:induction false} TitleAfterKept(ds: seq<Detection>, ms: seq<int>, olds: seq<nat>, k: nat, title: string)
    requires |ds| == |ms|
    requires forall i | 0 <= i < |ds| :: !Renames(ds, ms, i, olds, k)
    ensures TitleAfter(ds, ms, olds, k, title) == title
  {
    if ds != [] {
      var n := |ds| - 1;
      assert forall i | 0 <= i < n :: Renames(ds[..n], ms[..n], i, olds, k) == Renames(ds, ms, i, olds, k);
      TitleAfterKept(ds[..n], ms[..n], olds, k, title);
    }
  }

  /** An entry's title ends as the breed name of the last detection that renamed it. */
  lemma {:induction false} TitleAfterIsLast(ds: seq<Detection>, ms: seq<int>, olds: seq<nat>, k: nat, title: string, i: nat)
    requires i < |ds| == |ms| && Renames(ds, ms, i, olds, k)
    requires forall j | i < j < |ds| :: !Renames(ds, ms, j, olds, k)
    ensures TitleAfter(ds, ms, olds, k, title) == ds[i].breedName.value
  {
    var n := |ds| - 1;
    if i < n {
      assert forall j | 0 <= j < n :: Renames(ds[..n], ms[..n], j, olds, k) == Renames(ds, ms, j, olds, k);
      TitleAfterIsLast(ds[..n], ms[..n], olds, k, title, i);
    }
  }

  /** Track over one more detection is Step after Track. */
  lemma TrackStep(ds: seq<Detection>, olds: seq<nat>, store: seq<TrackedRecognition>, colors: seq<int>, i: nat)
    requires i < |ds| && i < |colors| && InStore(store, olds)
    ensures var before := Track(ds[..i], olds, store, colors);
      var after := Step(before.0, olds, ds[i], colors[i]);
      Track(ds[..i + 1], olds, store, colors) == (after.0, before.1 + [after.1])
  {
    assert ds[..i + 1][..i] == ds[..i];
  }

  /** Replacing entries other than `olds` leaves the boxes of `olds` as they were. */
  lemma LocationsKept(store: seq<TrackedRecognition>, store': seq<TrackedRecognition>, olds: seq<nat>)
    requires InStore(store, olds) && |store'| >= |store|
    requires forall k | 0 <= k < |store| :: store'[k].location == store[k].location
    ensures Locations(store', olds) == Locations(store, olds)
  {
    LocationsExactly(store, olds);
    LocationsExactly(store', olds);
  }

  /** No detection moves an entry: Step keeps every box of the store. */
  lemma StepKeepsLocations(store: seq<TrackedRecognition>, olds: seq<nat>, d: Detection, color: int)
    requires InStore(store, olds)
    ensures var after := Step(store, olds, d, color).0;
      forall k | 0 <= k < |store| :: after[k].location == store[k].location
  {
  }

  /** Track keeps every box of the store, so the snapshot's boxes stay what they were. */
  lemma {:induction false} TrackKeepsLocations(ds: seq<Detection>, olds: seq<nat>, store: seq<TrackedRecognition>, colors: seq<int>)
    requires |ds| <= |colors| && InStore(store, olds)
    ensures var after := Track(ds, olds, store, colors).0;
      (forall k | 0 <= k < |store| :: after[k].location == store[k].location) &&
      Locations(after, olds) == Locations(store, olds)
  {
    if ds != [] {
      var n := |ds| - 1;
      var before := Track(ds[..n], olds, store, colors);
      TrackKeepsLocations(ds[..n], olds, store, colors);
      StepKeepsLocations(before.0, olds, ds[n], colors[n]);
    }
    LocationsKept(store, Track(ds, olds, store, colors).0, olds);
  }

  /** What Step does to an entry it had: updated when it is the match, else unchanged. */
  lemma StepOldEntry(store: seq<TrackedRecognition>, olds: seq<nat>, d: Detection, color: int, k: nat)
    requires InStore(store, olds) && k < |store|
    ensures var m := FirstSimilar(d.location, Locations(store, olds));
      Step(store, olds, d, color).0[k] ==
        if m != -1 && olds[m] == k then UpdateExistingTrackedEntry(store[k], d) else store[k]
  {
  }

  /** What Step does with a detection no entry of `olds` is similar to: it appends the new entry. */
  lemma StepNewEntry(store: seq<TrackedRecognition>, olds: seq<nat>, d: Detection, color: int)
    requires InStore(store, olds)
    requires FirstSimilar(d.location, Locations(store, olds)) == -1
    ensures Step(store, olds, d, color) == (store + [CreateNewTrackedEntry(d).(color := color)], |store|)
  {
  }

  /** Step changes no entry past `store0`, the store the snapshot refers to. */
  lemma StepKeepsNewEntry(store0: seq<TrackedRecognition>, store: seq<TrackedRecognition>, olds: seq<nat>, d: Detection, color: int, j: nat)
    requires InStore(store0, olds) && |store0| <= j < |store|
    ensures Step(store, olds, d, color).0[j] == store[j]
  {
    StepOldEntry(store, olds, d, color, j);
  }

  /** A detection matched to a snapshot box tracks that box's entry. */
  lemma {:induction false} TrackMatchedAt(ds: seq<Detection>, olds: seq<nat>, store: seq<TrackedRecognition>, colors: seq<int>, i: nat)
    requires |ds| <= |colors| && InStore(store, olds) && i < |ds|
    requires Assignments(ds, Locations(store, olds))[i] != -1
    ensures Track(ds, olds, store, colors).1[i] == olds[Assignments(ds, Locations(store, olds))[i]]
  {
    var n := |ds| - 1;
    var locs := Locations(store, olds);
    var before := Track(ds[..n], olds, store, colors);
    var after := Step(before.0, olds, ds[n], colors[n]);
    assert Track(ds, olds, store, colors).1 == before.1 + [after.1];
    assert Assignments(ds, locs) == Assignments(ds[..n], locs) + [FirstSimilar(ds[n].location, locs)];
    if i < n {
      TrackMatchedAt(ds[..n], olds, store, colors, i);
    } else {
      TrackKeepsLocations(ds[..n], olds, store, colors);
    }
  }

  /**
   * A detection matched to no snapshot box gets a new entry, past the old
   * store, made from it and coloured COLORS[i], that no later detection
   * changes.
   */
  lemma {:induction false} TrackNewEntryAt(ds: seq<Detection>, olds: seq<nat>, store: seq<TrackedRecognition>, colors: seq<int>, i: nat)
    requires |ds| <= |colors| && InStore(store, olds) && i < |ds|
    requires Assignments(ds, Locations(store, olds))[i] == -1
    ensures var res := Track(ds, olds, store, colors);
      |store| <= res.1[i] && res.0[res.1[i]] == CreateNewTrackedEntry(ds[i]).(color := colors[i])
  {
    var n := |ds| - 1;
    var locs := Locations(store, olds);
    var before := Track(ds[..n], olds, store, colors);
    var after := Step(before.0, olds, ds[n], colors[n]);
    assert Track(ds, olds, store, colors) == (after.0, before.1 + [after.1]);
    assert Assignments(ds, locs) == Assignments(ds[..n], locs) + [FirstSimilar(ds[n].location, locs)];
    if i < n {
      assert ds[..n][i] == ds[i];
      TrackNewEntryAt(ds[..n], olds, store, colors, i);
      var k := before.1[i];
      StepKeepsNewEntry(store, before.0, olds, ds[n], colors[n], k);
      assert Track(ds, olds, store, colors).1[i] == k && after.0[k] == before.0[k];
    } else {
      TrackKeepsLocations(ds[..n], olds, store, colors);
      StepNewEntry(before.0, olds, ds[n], colors[n]);
      assert Track(ds, olds, store, colors).1[i] == |before.0|;
    }
  }

  /**
   * The entries processResults tracks: a detection matched to a snapshot box
   * reuses that entry; any other gets a new entry, past the old store, made
   * from it and coloured COLORS[i], that no later detection changes.
   */
  lemma TrackEntries(ds: seq<Detection>, olds: seq<nat>, store: seq<TrackedRecognition>, colors: seq<int>)
    requires |ds| <= |colors| && InStore(store, olds)
    ensures var ms := Assignments(ds, Locations(store, olds));
      var res := Track(ds, olds, store, colors);
      forall i | 0 <= i < |ds| ::
        (ms[i] != -1 ==> res.1[i] == olds[ms[i]]) &&
        (ms[i] == -1 ==> |store| <= res.1[i] && res.0[res.1[i]] == CreateNewTrackedEntry(ds[i]).(color := colors[i]))
  {
    var ms := Assignments(ds, Locations(store, olds));
    forall i | 0 <= i < |ds|
      ensures var res := Track(ds, olds, store, colors);
        (ms[i] != -1 ==> res.1[i] == olds[ms[i]]) &&
        (ms[i] == -1 ==> |store| <= res.1[i] && res.0[res.1[i]] == CreateNewTrackedEntry(ds[i]).(color := colors[i]))
    {
      if ms[i] != -1 {
        TrackMatchedAt(ds, olds, store, colors, i);
      } else {
        TrackNewEntryAt(ds, olds, store, colors, i);
      }
    }
  }

  /**
   * What processResults does to the entries it had: each keeps its box and
   * colour, ends with the largest confidence among its own and those of the
   * detections matched to it, and with the breed name of the last of those
   * that carried one.
   */
  lemma {:induction false} TrackOldEntries(ds: seq<Detection>, olds: seq<nat>, store: seq<TrackedRecognition>, colors: seq<int>)
    requires |ds| <= |colors| && InStore(store, olds)
    ensures var ms := Assignments(ds, Locations(store, olds));
      var res := Track(ds, olds, store, colors);
      forall k | 0 <= k < |store| ::
        res.0[k] == TrackedRecognition(store[k].location,
                                       ConfAfter(ds, ms, olds, k, store[k].detectionConfidence),
                                       store[k].color,
                                       TitleAfter(ds, ms, olds, k, store[k].title))
  {
    if ds != [] {
      var n := |ds| - 1;
      var locs := Locations(store, olds);
      var before := Track(ds[..n], olds, store, colors);
      var after := Step(before.0, olds, ds[n], colors[n]);
      assert Track(ds, olds, store, colors).0 == after.0;
      TrackOldEntries(ds[..n], olds, store, colors);
      TrackKeepsLocations(ds[..n], olds, store, colors);
      var ms := Assignments(ds, locs);
      assert ms[..n] == Assignments(ds[..n], locs);
      forall k | 0 <= k < |store|
        ensures after.0[k] == TrackedRecognition(store[k].location,
                                       ConfAfter(ds, ms, olds, k, store[k].detectionConfidence),
                                       store[k].color,
                                       TitleAfter(ds, ms, olds, k, store[k].title))
      {
        StepOldEntry(before.0, olds, ds[n], colors[n], k);
      }
    }
  }

  // ---------------------------------------------------------------------
  // The tracker
  // ---------------------------------------------------------------------

  /**
   * One pass of processResults' loop: the detection updates the first
   * similar snapshot entry, or is added as a new entry coloured `color`.
   */
  method TrackOne(potential: Recognition, store: seq<TrackedRecognition>, olds: seq<nat>, color: int)
    returns (store': seq<TrackedRecognition>, trackedRecognition: nat)
    requires potential.location.Some? && InStore(store, olds)
    ensures (store', trackedRecognition) == Step(store, olds, DetectionOf(potential), color)
  {
    var similarBoxIndex := GetSimilarBoxByLocation(potential, store, olds);
    if similarBoxIndex != -1 {
      var oldRecognition := olds[similarBoxIndex];
      store' := store[oldRecognition := UpdateExistingTrackedEntry(store[oldRecognition], DetectionOf(potential))];
      trackedRecognition := oldRecognition;
    } else {
      var newEntry := CreateNewTrackedEntry(DetectionOf(potential));
      newEntry := newEntry.(color := color);
      trackedRecognition := |store|;
      store' := store + [newEntry];
    }
  }

  /**
   * The loop of processResults, on the entries and the snapshot: it tracks
   * the detections in order until COLORS.length of them are tracked.
   */
  method TrackAll(rectsToTrack: seq<Recognition>, olds: seq<nat>, store0: seq<TrackedRecognition>)
    returns (store: seq<TrackedRecognition>, tracked: seq<nat>)
    requires HasLocations(rectsToTrack) && InStore(store0, olds)
    ensures (store, tracked) == Track(Detections(rectsToTrack)[..Capped(|rectsToTrack|)], olds, store0, Colors)
    ensures InStore(store, tracked) && InStore(store, olds)
  {
    ghost var ds := Detections(rectsToTrack);
    // The source breaks once COLORS.length entries are tracked; as the
    // list grows by one per detection, that test is the loop guard here.
    store := store0;
    tracked := [];
    var idx := 0;
    while idx < |rectsToTrack| && |tracked| < |Colors|
      invariant idx <= |rectsToTrack| && |tracked| == idx <= |Colors|
      invariant (store, tracked) == Track(ds[..idx], olds, store0, Colors)
    {
      TrackStep(ds, olds, store0, Colors, idx);
      ghost var before := Track(ds[..idx], olds, store0, Colors);
      assert before.0 == store && before.1 == tracked;
      ghost var step := Step(before.0, olds, ds[idx], Colors[idx]);
      assert Track(ds[..idx + 1], olds, store0, Colors) == (step.0, tracked + [step.1]);
      var trackedRecognition;
      store, trackedRecognition := TrackOne(rectsToTrack[idx], store, olds, Colors[|tracked|]);
      tracked := tracked + [trackedRecognition];
      idx := idx + 1;
    }
    assert idx == Capped(|rectsToTrack|);
  }

  /**
   * The body of processResults, on the tracker's state as values: the
   * entries, the list and the snapshot after one frame of detections.
   */
  method ProcessFrame(results: seq<Recognition>, entries: seq<TrackedRecognition>, trackedObjects: seq<nat>, oldTrackedObjects: seq<nat>)
    returns (entries': seq<TrackedRecognition>, trackedObjects': seq<nat>, oldTrackedObjects': seq<nat>)
    requires InStore(entries, trackedObjects) && InStore(entries, oldTrackedObjects)
    ensures InStore(entries', trackedObjects') && InStore(entries', oldTrackedObjects')
    ensures oldTrackedObjects' == Snapshot(trackedObjects, oldTrackedObjects)
    ensures var rects := Filter(results, Trackable);
      HasLocations(rects) &&
      (entries', trackedObjects') == Track(Detections(rects)[..Capped(|rects|)], oldTrackedObjects', entries, Colors)
  {
    var rectsToTrack := RectsToTrack(results);
    TrackedHaveLocations(results);

    // The snapshot is taken only when something is tracked; the list is
    // then cleared, and left empty when no detection is trackable.
    oldTrackedObjects' := oldTrackedObjects;
    if |trackedObjects| > 0 {
      oldTrackedObjects' := trackedObjects;
    }
    entries', trackedObjects' := entries, [];
    if rectsToTrack != [] {
      entries', trackedObjects' := TrackAll(rectsToTrack, oldTrackedObjects', entries);
    } else {
      assert Detections(rectsToTrack)[..Capped(0)] == [];
    }
  }

  class MultiBoxTracker {
    /** The TrackedRecognition objects; the lists hold their indices. */
    var entries: seq<TrackedRecognition>
    var trackedObjects: seq<nat>
    var oldTrackedObjects: seq<nat>

    ghost predicate Valid()
      reads this
    {
      InStore(entries, trackedObjects) && InStore(entries, oldTrackedObjects)
    }

    constructor ()
      ensures Valid() && entries == [] && trackedObjects == [] && oldTrackedObjects == []
    {
      entries := [];
      trackedObjects := [];
      oldTrackedObjects := [];
    }

    /**
     * processResults over the detections of one frame: the new lists and
     * entries are those Track gives for the trackable detections, up to
     * COLORS.length of them, against the snapshot.
     */
    method ProcessResults(results: seq<Recognition>)
      requires Valid()
      modifies this
      ensures Valid()
      ensures oldTrackedObjects == Snapshot(old(trackedObjects), old(oldTrackedObjects))
      ensures var rects := Filter(results, Trackable);
        HasLocations(rects) &&
        (entries, trackedObjects) == Track(Detections(rects)[..Capped(|rects|)], oldTrackedObjects, old(entries), Colors)
    {
      TrackedHaveLocations(results);
      ghost var ds := Detections(Filter(results, Trackable));
      entries, trackedObjects, oldTrackedObjects := ProcessFrame(results, entries, trackedObjects, oldTrackedObjects);
      assert Detections(Filter(results, Trackable)) == ds;
    }
  }
}
