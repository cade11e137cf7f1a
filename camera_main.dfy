/**
 * CameraTest's MainActivity: the computations between the detector and the
 * screen. These are the dog/cat filter, the breed-string accumulation and
 * its sort, the in-place rescale of the boxes to the camera bitmap, the
 * display-orientation arithmetic and the unpacking of ARGB pixels into the
 * breed network's input.
 *
 * Bitmaps, the camera and the two networks are not modelled: what they
 * deliver (the detections, the pixels, the breed scores of each box, the
 * display rotation and the camera's facing and orientation) is given.
 * Floats are reals.
 */
module CameraMain {
  import opened Wrappers
  import opened Seqs
  import opened JavaStrings
  import opened BoxGeometry
  import opened LabelTables
  import opened ClassesParsing

  /**
   * The camera app's detection record: title and confidence are fixed when
   * it is made, the box is replaced by setLocation.
   */
  class Recognition {
    const title: string
    const confidence: real
    var location: Rect

    constructor (title: string, confidence: real, location: Rect)
      ensures this.title == title && this.confidence == confidence && this.location == location
    {
      this.title := title;
      this.confidence := confidence;
      this.location := location;
    }

    method SetLocation(location: Rect)
      modifies this
      ensures this.location == location
    {
      this.location := location;
    }
  }

  // ---------------------------------------------------------------------
  // onlyDogsWithTreshHold
  // ---------------------------------------------------------------------

  /** The test of onlyDogsWithTreshHold: above the threshold and titled "dog" or "cat". */
  function DogOrCat(threshold: real): Recognition -> bool
  {
    (r: Recognition) => r.confidence > threshold && (r.title == "dog" || r.title == "cat")
  }

  /** Keep, in order, the records above the threshold whose title is "dog" or "cat". */
  method OnlyDogsWithThreshold(boxes: seq<Recognition>, threshold: real) returns (result: seq<Recognition>)
    ensures result == Filter(boxes, DogOrCat(threshold))
    ensures forall r :: r in result <==> r in boxes && r.confidence > threshold && (r.title == "dog" || r.title == "cat")
    ensures IsSubsequence(result, boxes)
  {
    result := [];
    for ii := 0 to |boxes|
      invariant result == Filter(boxes[..ii], DogOrCat(threshold))
    {
      FilterPrefixStep(boxes, DogOrCat(threshold), ii);
      if boxes[ii].confidence > threshold && (boxes[ii].title == "dog" || boxes[ii].title == "cat") {
        result := result + [boxes[ii]];
      }
    }
    assert boxes[..|boxes|] == boxes;
    FilterMembers(boxes, DogOrCat(threshold));
    FilterIsSubsequence(boxes, DogOrCat(threshold));
  }

  // ---------------------------------------------------------------------
  // DoRecognition
  // ---------------------------------------------------------------------

  /** Java's string conversion: a null name reads "null" when concatenated. */
  function Text(name: Option<string>): string
  {
    if name.Some? then name.value else "null"
  }

  /** How many scores are above the threshold. */
  function HitCount(scores: seq<real>, minValue: real): nat
  {
    if scores == [] then 0
    else HitCount(scores[..|scores| - 1], minValue) + (if scores[|scores| - 1] > minValue then 1 else 0)
  }

  /** The index-to-name lookups of the scores above the threshold, in index order. */
  function HitNames(scores: seq<real>, minValue: real, indexToCode: map<int, string>, codesToHuman: map<string, string>)
    : (names: seq<Option<string>>)
    ensures |names| == HitCount(scores, minValue)
  {
    if scores == [] then []
    else
      var n := |scores| - 1;
      HitNames(scores[..n], minValue, indexToCode, codesToHuman) +
        (if scores[n] > minValue then [LookupName(indexToCode, codesToHuman, n)] else [])
  }

  /** The entry that a run of names builds in one slot: the first name, then "\n" and each further one. */
  function Joined(names: seq<Option<string>>): Option<string>
    requires names != []
  {
    if |names| == 1 then names[0]
    else Some(Text(Joined(names[..|names| - 1])) + "\n" + Text(names[|names| - 1]))
  }

  /** Joining one more name puts "\n" and that name after the entry so far. */
  lemma JoinedAppend(names: seq<Option<string>>, name: Option<string>)
    requires names != []
    ensures Joined(names + [name]) == Some(Text(Joined(names)) + "\n" + Text(name))
  {
    var all := names + [name];
    assert all[..|all| - 1] == names && all[|all| - 1] == name;
  }

  /** One label of box `ii`: join it onto slot ii when the list reaches that far, append it otherwise. */
  function AddLabel(breeds: seq<Option<string>>, ii: nat, name: Option<string>): seq<Option<string>>
  {
    if |breeds| > ii then breeds[ii := Some(Text(breeds[ii]) + "\n" + Text(name))]
    else breeds + [name]
  }

  /** The inner loop of DoRecognition over the scores of box `ii`. */
  function BoxLabels(breeds: seq<Option<string>>, ii: nat, scores: seq<real>, minValue: real,
                     indexToCode: map<int, string>, codesToHuman: map<string, string>): seq<Option<string>>
  {
    if scores == [] then breeds
    else
      var n := |scores| - 1;
      var before := BoxLabels(breeds, ii, scores[..n], minValue, indexToCode, codesToHuman);
      if scores[n] > minValue then AddLabel(before, ii, LookupName(indexToCode, codesToHuman, n)) else before
  }

  /** The outer loop of DoRecognition over the boxes, before the sort. */
  function Accumulate(boxScores: seq<seq<real>>, minValue: real,
                      indexToCode: map<int, string>, codesToHuman: map<string, string>): seq<Option<string>>
  {
    if boxScores == [] then []
    else
      var n := |boxScores| - 1;
      BoxLabels(Accumulate(boxScores[..n], minValue, indexToCode, codesToHuman), n, boxScores[n],
                minValue, indexToCode, codesToHuman)
  }

  /** All labels above the threshold, over all boxes. */
  function TotalHits(boxScores: seq<seq<real>>, minValue: real): nat
  {
    if boxScores == [] then 0
    else TotalHits(boxScores[..|boxScores| - 1], minValue) + HitCount(boxScores[|boxScores| - 1], minValue)
  }

  function Wrap(s: seq<string>): (r: seq<Option<string>>)
    ensures |r| == |s| && forall i | 0 <= i < |s| :: r[i] == Some(s[i])
  {
    seq(|s|, i requires 0 <= i < |s| => Some(s[i]))
  }

  predicate NoNulls(breeds: seq<Option<string>>)
  {
    forall i | 0 <= i < |breeds| :: breeds[i].Some?
  }

  function Values(breeds: seq<Option<string>>): (r: seq<string>)
    requires NoNulls(breeds)
    ensures |r| == |breeds| && forall i | 0 <= i < |breeds| :: r[i] == breeds[i].value
  {
    seq(|breeds|, i requires 0 <= i < |breeds| => breeds[i].value)
  }

  /**
   * Collections.sort on the breed list: fewer than two entries are left as
   * they are; otherwise a null entry makes a comparison throw (None), and
   * strings are put in ascending order.
   */
  function SortBreeds(breeds: seq<Option<string>>): (r: Option<seq<Option<string>>>)
    ensures r.None? <==> |breeds| >= 2 && !NoNulls(breeds)
    ensures r.Some? ==> multiset(r.value) == multiset(breeds)
    ensures r.Some? && |breeds| >= 2 ==> NoNulls(r.value) && Sorted(Values(r.value))
  {
    if |breeds| < 2 then Some(breeds)
    else if !NoNulls(breeds) then None
    else
      var sorted := SortStrings(Values(breeds));
      WrapPermutation(sorted, Values(breeds));
      assert Wrap(Values(breeds)) == breeds;
      assert Values(Wrap(sorted)) == sorted;
      Some(Wrap(sorted))
  }

  /** Lifting two permutations of strings to names keeps them permutations. */
  lemma WrapPermutation(x: seq<string>, y: seq<string>)
    requires multiset(x) == multiset(y)
    ensures multiset(Wrap(x)) == multiset(Wrap(y))
  {
    forall o: Option<string>
      ensures multiset(Wrap(x))[o] == multiset(Wrap(y))[o]
    {
      WrapCount(x, o);
      WrapCount(y, o);
    }
  }

  /** Each name occurs in the lifted list as often as its string does in the original; null never does. */
  lemma {:induction false} WrapCount(x: seq<string>, o: Option<string>)
    ensures multiset(Wrap(x))[o] == if o.Some? then multiset(x)[o.value] else 0
  {
    if x != [] {
      var n := |x| - 1;
      WrapCount(x[..n], o);
      assert x == x[..n] + [x[n]];
      assert Wrap(x) == Wrap(x[..n]) + [Some(x[n])];
    }
  }

  /**
   * DoRecognition with the breed network's scores for the crop of each dog
   * box given: every score index above the threshold adds its name, and the
   * list is sorted; None where the sort throws.
   */
  method DoRecognition(parser: ClassesParser, dogBoxes: seq<Recognition>, boxScores: seq<seq<real>>, breedThreshold: real)
    returns (resultBreeds: Option<seq<Option<string>>>)
    requires |boxScores| == |dogBoxes|
    ensures resultBreeds == SortBreeds(Accumulate(boxScores, breedThreshold, parser.indexToCode, parser.codesToHuman))
  {
    var breeds: seq<Option<string>> := [];
    for ii := 0 to |dogBoxes|
      invariant breeds == Accumulate(boxScores[..ii], breedThreshold, parser.indexToCode, parser.codesToHuman)
    {
      var resultMobileNets := boxScores[ii];
      var minValue := breedThreshold;
      assert boxScores[..ii + 1][..ii] == boxScores[..ii];
      ghost var start := breeds;
      for jj := 0 to |resultMobileNets|
        invariant breeds == BoxLabels(start, ii, resultMobileNets[..jj], minValue, parser.indexToCode, parser.codesToHuman)
      {
        assert resultMobileNets[..jj + 1][..jj] == resultMobileNets[..jj];
        if resultMobileNets[jj] > minValue {
          if |breeds| > ii {
            var currentValue := breeds[ii];
            breeds := breeds[ii := Some(Text(currentValue) + "\n" + Text(parser.GetValueByIndex(jj)))];
          } else {
            breeds := breeds + [parser.GetValueByIndex(jj)];
          }
        }
      }
      assert resultMobileNets[..|resultMobileNets|] == resultMobileNets;
    }
    assert boxScores[..|boxScores|] == boxScores;
    resultBreeds := SortBreeds(breeds);
  }

  /**
   * A box's labels leave every other slot alone. The list grows only while
   * it is not longer than the box's index, by one per label, so it never
   * gets past ii + 1 entries.
   */
  lemma {:induction false} BoxLabelsShape(breeds: seq<Option<string>>, ii: nat, scores: seq<real>, minValue: real,
                                          indexToCode: map<int, string>, codesToHuman: map<string, string>)
    ensures var r := BoxLabels(breeds, ii, scores, minValue, indexToCode, codesToHuman);
      && |r| == (if |breeds| > ii then |breeds|
                 else if |breeds| + HitCount(scores, minValue) <= ii + 1 then |breeds| + HitCount(scores, minValue)
                 else ii + 1)
      && (forall k | 0 <= k < |breeds| && k != ii :: r[k] == breeds[k])
      && (HitCount(scores, minValue) == 0 ==> r == breeds)
  {
    if scores != [] {
      var n := |scores| - 1;
      BoxLabelsShape(breeds, ii, scores[..n], minValue, indexToCode, codesToHuman);
    }
  }

  /** A box whose slot is the next free one gets one entry holding all its names, joined. */
  lemma {:induction false} BoxLabelsAtSlot(breeds: seq<Option<string>>, scores: seq<real>, minValue: real,
                                           indexToCode: map<int, string>, codesToHuman: map<string, string>)
    requires HitCount(scores, minValue) > 0
    ensures BoxLabels(breeds, |breeds|, scores, minValue, indexToCode, codesToHuman) ==
              breeds + [Joined(HitNames(scores, minValue, indexToCode, codesToHuman))]
  {
    var ii := |breeds|;
    var n := |scores| - 1;
    var prefix := scores[..n];
    var names := HitNames(scores, minValue, indexToCode, codesToHuman);
    if HitCount(prefix, minValue) == 0 {
      BoxLabelsShape(breeds, ii, prefix, minValue, indexToCode, codesToHuman);
      assert names == [LookupName(indexToCode, codesToHuman, n)];
    } else {
      BoxLabelsAtSlot(breeds, prefix, minValue, indexToCode, codesToHuman);
      BoxLabelsJoinNext(breeds, scores, minValue, indexToCode, codesToHuman);
    }
  }

  /** One more score of a box that already has its entry: a hit joins its name onto that entry. */
  lemma BoxLabelsJoinNext(breeds: seq<Option<string>>, scores: seq<real>, minValue: real,
                          indexToCode: map<int, string>, codesToHuman: map<string, string>)
    requires scores != [] && HitCount(scores[..|scores| - 1], minValue) > 0
    requires BoxLabels(breeds, |breeds|, scores[..|scores| - 1], minValue, indexToCode, codesToHuman) ==
               breeds + [Joined(HitNames(scores[..|scores| - 1], minValue, indexToCode, codesToHuman))]
    ensures BoxLabels(breeds, |breeds|, scores, minValue, indexToCode, codesToHuman) ==
              breeds + [Joined(HitNames(scores, minValue, indexToCode, codesToHuman))]
  {
    var ii := |breeds|;
    var n := |scores| - 1;
    var prefix := scores[..n];
    var names := HitNames(scores, minValue, indexToCode, codesToHuman);
    var before := HitNames(prefix, minValue, indexToCode, codesToHuman);
    var partial := BoxLabels(breeds, ii, prefix, minValue, indexToCode, codesToHuman);
    if scores[n] > minValue {
      var name := LookupName(indexToCode, codesToHuman, n);
      assert names == before + [name];
      JoinedAppend(before, name);
      assert partial[ii] == Joined(before);
      assert AddLabel(partial, ii, name) == breeds + [Joined(names)];
    } else {
      assert names == before;
    }
  }

  /** The list never has more entries than boxes, nor more than labels. */
  lemma {:induction false} AccumulateLength(boxScores: seq<seq<real>>, minValue: real,
                                            indexToCode: map<int, string>, codesToHuman: map<string, string>)
    ensures |Accumulate(boxScores, minValue, indexToCode, codesToHuman)| <= |boxScores|
    ensures |Accumulate(boxScores, minValue, indexToCode, codesToHuman)| <= TotalHits(boxScores, minValue)
  {
    if boxScores != [] {
      var n := |boxScores| - 1;
      AccumulateLength(boxScores[..n], minValue, indexToCode, codesToHuman);
      BoxLabelsShape(Accumulate(boxScores[..n], minValue, indexToCode, codesToHuman), n, boxScores[n],
                     minValue, indexToCode, codesToHuman);
    }
  }

  /** When every box has a label, there is one entry per box. */
  lemma {:induction false} AccumulateAllHitLength(boxScores: seq<seq<real>>, minValue: real,
                                                  indexToCode: map<int, string>, codesToHuman: map<string, string>)
    requires forall b | 0 <= b < |boxScores| :: HitCount(boxScores[b], minValue) > 0
    ensures |Accumulate(boxScores, minValue, indexToCode, codesToHuman)| == |boxScores|
  {
    if boxScores != [] {
      var n := |boxScores| - 1;
      var prefix := boxScores[..n];
      assert forall b | 0 <= b < |prefix| :: prefix[b] == boxScores[b];
      AccumulateAllHitLength(prefix, minValue, indexToCode, codesToHuman);
      BoxLabelsShape(Accumulate(prefix, minValue, indexToCode, codesToHuman), n, boxScores[n],
                     minValue, indexToCode, codesToHuman);
    }
  }

  /** When every box has a label, slot b holds exactly box b's names, joined. */
  lemma {:induction false} AccumulateAllHit(boxScores: seq<seq<real>>, minValue: real,
                                            indexToCode: map<int, string>, codesToHuman: map<string, string>, b: nat)
    requires forall b | 0 <= b < |boxScores| :: HitCount(boxScores[b], minValue) > 0
    requires b < |boxScores|
    ensures |Accumulate(boxScores, minValue, indexToCode, codesToHuman)| == |boxScores|
    ensures Accumulate(boxScores, minValue, indexToCode, codesToHuman)[b] ==
              Joined(HitNames(boxScores[b], minValue, indexToCode, codesToHuman))
  {
    var n := |boxScores| - 1;
    var prefix := boxScores[..n];
    assert forall b | 0 <= b < |prefix| :: prefix[b] == boxScores[b];
    AccumulateAllHitLength(prefix, minValue, indexToCode, codesToHuman);
    var before := Accumulate(prefix, minValue, indexToCode, codesToHuman);
    assert Accumulate(boxScores, minValue, indexToCode, codesToHuman) ==
             BoxLabels(before, n, boxScores[n], minValue, indexToCode, codesToHuman);
    if b < n {
      AccumulateAllHit(prefix, minValue, indexToCode, codesToHuman, b);
      BoxLabelsShape(before, n, boxScores[n], minValue, indexToCode, codesToHuman);
    } else {
      BoxLabelsAtSlot(before, boxScores[n], minValue, indexToCode, codesToHuman);
    }
  }

  /**
   * As written, a box after a box without labels does not get its own
   * slot: its labels fill the free slots one by one. Box 0 has no label,
   * box 1 has two, and the list ends with two entries, one per label of
   * box 1.
   */
  lemma AccumulateSplitsBox()
    ensures var indexToCode := map[1 := "n1", 2 := "n2"];
      var codesToHuman := map["n1" := "Akita", "n2" := "Boxer"];
      Accumulate([[0.1], [0.1, 0.9, 0.9]], 0.3, indexToCode, codesToHuman) == [Some("Akita"), Some("Boxer")]
  {
    var indexToCode := map[1 := "n1", 2 := "n2"];
    var codesToHuman := map["n1" := "Akita", "n2" := "Boxer"];
    var scores: seq<seq<real>> := [[0.1], [0.1, 0.9, 0.9]];
    var box0: seq<real> := [0.1];
    var box1: seq<real> := [0.1, 0.9, 0.9];
    assert scores[..1] == [box0] && [box0][..0] == [];
    assert box0[..0] == [];
    assert BoxLabels([], 0, box0, 0.3, indexToCode, codesToHuman) == [];
    assert Accumulate([box0], 0.3, indexToCode, codesToHuman) == [];
    assert box1[..2] == [0.1, 0.9] && box1[..2][..1] == [0.1] && box1[..2][..1][..0] == [];
    assert BoxLabels([], 1, [0.1], 0.3, indexToCode, codesToHuman) == [];
    assert BoxLabels([], 1, box1[..2], 0.3, indexToCode, codesToHuman) == [Some("Akita")];
  }

  /**
   * The entries one per labelled box that the slot rule is after: a box
   * with labels contributes one entry of its joined names, a box without
   * contributes nothing.
   */
  function PerBoxLabels(boxScores: seq<seq<real>>, minValue: real,
                        indexToCode: map<int, string>, codesToHuman: map<string, string>): seq<Option<string>>
  {
    if boxScores == [] then []
    else
      var n := |boxScores| - 1;
      PerBoxLabels(boxScores[..n], minValue, indexToCode, codesToHuman) +
        (if HitCount(boxScores[n], minValue) > 0
         then [Joined(HitNames(boxScores[n], minValue, indexToCode, codesToHuman))]
         else [])
  }

  /**
   * The corrected accumulation keeps one entry per labelled box, whatever
   * the earlier boxes did; as-written and corrected agree when every box
   * has a label.
   */
  lemma {:induction false} PerBoxLabelsCorrect(boxScores: seq<seq<real>>, minValue: real,
                                               indexToCode: map<int, string>, codesToHuman: map<string, string>)
    ensures |PerBoxLabels(boxScores, minValue, indexToCode, codesToHuman)| ==
              |Filter(boxScores, s => HitCount(s, minValue) > 0)|
    ensures (forall b | 0 <= b < |boxScores| :: HitCount(boxScores[b], minValue) > 0) ==>
              PerBoxLabels(boxScores, minValue, indexToCode, codesToHuman) ==
                Accumulate(boxScores, minValue, indexToCode, codesToHuman)
  {
    if boxScores != [] {
      var n := |boxScores| - 1;
      var prefix := boxScores[..n];
      PerBoxLabelsCorrect(prefix, minValue, indexToCode, codesToHuman);
      if forall b | 0 <= b < |boxScores| :: HitCount(boxScores[b], minValue) > 0 {
        assert forall b | 0 <= b < |prefix| :: prefix[b] == boxScores[b];
        BoxLabelsAtSlot(Accumulate(prefix, minValue, indexToCode, codesToHuman), boxScores[n],
                        minValue, indexToCode, codesToHuman);
        AccumulateAllHitLength(prefix, minValue, indexToCode, codesToHuman);
      }
    }
  }

  // ---------------------------------------------------------------------
  // ResizeBoxestoCameraSize
  // ---------------------------------------------------------------------

  /** One rescale: each coordinate divided by the ratio on its axis. */
  function Rescaled(box: Rect, refWidth: real, refHeight: real): Rect
    requires refWidth != 0.0 && refHeight != 0.0
  {
    Rect(box.left / refWidth, box.top / refHeight, box.right / refWidth, box.bottom / refHeight)
  }

  /** How often a record is listed. */
  function Occurrences(s: seq<Recognition>, r: Recognition): nat
  {
    if s == [] then 0
    else Occurrences(s[..|s| - 1], r) + (if s[|s| - 1] == r then 1 else 0)
  }

  /** A box rescaled `times` times over: a record listed twice is rescaled twice. */
  function RescaledTimes(box: Rect, refWidth: real, refHeight: real, times: nat): Rect
    requires refWidth != 0.0 && refHeight != 0.0
  {
    if times == 0 then box else Rescaled(RescaledTimes(box, refWidth, refHeight, times - 1), refWidth, refHeight)
  }

  /**
   * Rescale the boxes, in place, from a currentWidth x currentHeight
   * picture to a ToWidth x ToHeight one, and return the same list.
   */
  method ResizeBoxesToCameraSize(dogboxes: seq<Recognition>, toWidth: real, toHeight: real,
                                 currentWidth: real, currentHeight: real)
    returns (resizedBoxes: seq<Recognition>)
    requires toWidth != 0.0 && toHeight != 0.0 && currentWidth != 0.0 && currentHeight != 0.0
    modifies set r | r in dogboxes
    ensures resizedBoxes == dogboxes
    ensures forall r | r in dogboxes ::
              r.location == RescaledTimes(old(r.location), currentWidth / toWidth, currentHeight / toHeight,
                                          Occurrences(dogboxes, r))
  {
    resizedBoxes := dogboxes;
    var refWidth := currentWidth / toWidth;
    var refHeight := currentHeight / toHeight;
    QuotientNonZero(currentWidth, toWidth);
    QuotientNonZero(currentHeight, toHeight);
    for ii := 0 to |resizedBoxes|
      invariant resizedBoxes == dogboxes
      invariant forall r | r in dogboxes ::
                  r.location == RescaledTimes(old(r.location), refWidth, refHeight, Occurrences(dogboxes[..ii], r))
    {
      var value := resizedBoxes[ii];
      var resizedBox := Rect(value.location.left / refWidth, value.location.top / refHeight,
                             value.location.right / refWidth, value.location.bottom / refHeight);
      assert dogboxes[..ii + 1] == dogboxes[..ii] + [value];
      assert Occurrences(dogboxes[..ii + 1], value) == Occurrences(dogboxes[..ii], value) + 1;
      assert resizedBox == Rescaled(value.location, refWidth, refHeight);
      value.SetLocation(resizedBox);
    }
    assert dogboxes[..|dogboxes|] == dogboxes;
  }

  /**
   * One rescale from the detector's crop to the camera bitmap multiplies
   * each coordinate by To/current, so a box inside the crop lands inside
   * the bitmap.
   */
  lemma RescaleIntoFrame(box: Rect, toWidth: real, toHeight: real, currentWidth: real, currentHeight: real)
    requires toWidth > 0.0 && toHeight > 0.0 && currentWidth > 0.0 && currentHeight > 0.0
    requires 0.0 <= box.left <= box.right <= currentWidth && 0.0 <= box.top <= box.bottom <= currentHeight
    ensures var r := Rescaled(box, currentWidth / toWidth, currentHeight / toHeight);
      && r.left == box.left * toWidth / currentWidth && r.right == box.right * toWidth / currentWidth
      && r.top == box.top * toHeight / currentHeight && r.bottom == box.bottom * toHeight / currentHeight
      && 0.0 <= r.left <= r.right <= toWidth && 0.0 <= r.top <= r.bottom <= toHeight
  {
    RescaleAxis(box.left, box.right, toWidth, currentWidth);
    RescaleAxis(box.top, box.bottom, toHeight, currentHeight);
  }

  /** The same on one axis, for the two edges lo <= hi. */
  lemma RescaleAxis(lo: real, hi: real, to: real, current: real)
    requires to > 0.0 && current > 0.0 && 0.0 <= lo <= hi <= current
    ensures current / to != 0.0
    ensures lo / (current / to) == lo * to / current && hi / (current / to) == hi * to / current
    ensures 0.0 <= lo * to / current <= hi * to / current <= to
  {
    QuotientNonZero(current, to);
    ScaleCoordinate(lo, to, current);
    ScaleCoordinate(hi, to, current);
    ScaleMonotone(lo, hi, to, current);
  }

  lemma QuotientNonZero(x: real, y: real)
    requires x != 0.0 && y != 0.0
    ensures x / y != 0.0
  {
    assert (x / y) * y == x;
  }

  lemma ScaleCoordinate(x: real, to: real, current: real)
    requires to > 0.0 && current > 0.0 && 0.0 <= x <= current
    ensures x / (current / to) == x * to / current
    ensures 0.0 <= x * to / current <= to
  {
    assert (current / to) * to == current;
    assert x * to / current <= current * to / current;
  }

  lemma ScaleMonotone(x: real, y: real, to: real, current: real)
    requires to > 0.0 && current > 0.0 && x <= y
    ensures x * to / current <= y * to / current
  {
    assert x * to <= y * to;
  }

  // ---------------------------------------------------------------------
  // setCameraDisplayOrientation
  // ---------------------------------------------------------------------

  /** Surface.ROTATION_0, _90, _180 and _270. */
  const Rotation0 := 0
  const Rotation90 := 1
  const Rotation180 := 2
  const Rotation270 := 3
  /** CameraInfo.CAMERA_FACING_BACK and CAMERA_FACING_FRONT. */
  const FacingBack := 0
  const FacingFront := 1

  /** The switch on the display rotation; a value outside the four leaves degrees at 0. */
  function Degrees(rotation: int): (degrees: int)
    ensures degrees == 0 || degrees == 90 || degrees == 180 || degrees == 270
    ensures Rotation0 <= rotation <= Rotation270 ==> degrees == 90 * rotation
  {
    if rotation == Rotation0 then 0
    else if rotation == Rotation90 then 90
    else if rotation == Rotation180 then 180
    else if rotation == Rotation270 then 270
    else 0
  }

  /** Java's `a % 360`: the remainder of truncating division, which takes the sign of `a`. */
  function JavaRem360(a: int): (r: int)
    ensures -360 < r < 360
    ensures a >= 0 ==> r >= 0
    ensures a <= 0 ==> r <= 0
    ensures (a - r) % 360 == 0
  {
    if a >= 0 then a % 360 else -((-a) % 360)
  }

  /** The angle handed to camera.setDisplayOrientation. */
  function DisplayOrientation(rotation: int, facing: int, orientation: int): int
  {
    var degrees := Degrees(rotation);
    var result :=
      if facing == FacingBack then (360 - degrees) + orientation
      else if facing == FacingFront then ((360 - degrees) - orientation) + 360
      else 0;
    JavaRem360(result)
  }

  /**
   * For a camera orientation in [0, 360) (Android reports 0, 90, 180 or
   * 270) the angle is a proper one in [0, 360): for the back camera it is
   * orientation minus the display rotation, for the front camera minus
   * their sum, both taken mod 360, and 0 for any other facing.
   */
  lemma DisplayOrientationCorrect(rotation: int, facing: int, orientation: int)
    requires 0 <= orientation < 360
    ensures 0 <= DisplayOrientation(rotation, facing, orientation) < 360
    ensures facing == FacingBack ==>
              DisplayOrientation(rotation, facing, orientation) == (orientation - Degrees(rotation)) % 360
    ensures facing == FacingFront ==>
              DisplayOrientation(rotation, facing, orientation) == (-(orientation + Degrees(rotation))) % 360
    ensures facing != FacingBack && facing != FacingFront ==> DisplayOrientation(rotation, facing, orientation) == 0
  {
    var degrees := Degrees(rotation);
    if facing == FacingBack {
      SameRemainder(360 - degrees + orientation, orientation - degrees, 1);
    } else if facing == FacingFront {
      SameRemainder(720 - degrees - orientation, -(orientation + degrees), 2);
    }
  }

  lemma SameRemainder(a: int, b: int, k: int)
    requires a == b + 360 * k
    ensures a % 360 == b % 360
  {
  }

  // ---------------------------------------------------------------------
  // PredictWithMobileNets: the unpack loop
  // ---------------------------------------------------------------------

  /** m_nImageSize: the breed network's input is 224 x 224 RGB. */
  const ImageSize := 224
  const InputLength := ImageSize * ImageSize * 3

  /** The byte of an ARGB pixel at the given shift: (val >> shift) & 0xFF. */
  function ChannelBits(pixel: bv32, shift: nat): bv32
    requires shift <= 24
  {
    (pixel >> shift) & 0xFF
  }

  /** That byte as a number. */
  function Channel(pixel: bv32, shift: nat): (b: int)
    requires shift <= 24
    ensures 0 <= b <= 255
  {
    ChannelBits(pixel, shift) as int
  }

  /** A byte over 255, as the network's input. */
  function ChannelValue(pixel: bv32, shift: nat): (v: real)
    requires shift <= 24
    ensures 0.0 <= v <= 1.0
  {
    Channel(pixel, shift) as real / 255.0
  }

  /**
   * Fill the input array from the pixels: slots 3i, 3i + 1 and 3i + 2 hold
   * the red, green and blue byte of pixel i, over 255.
   */
  method UnpackPixels(intValues: seq<bv32>) returns (input: array<real>)
    requires |intValues| == ImageSize * ImageSize
    ensures fresh(input) && input.Length == InputLength
    ensures forall i | 0 <= i < |intValues| ::
              input[i * 3 + 0] == ChannelValue(intValues[i], 16) &&
              input[i * 3 + 1] == ChannelValue(intValues[i], 8) &&
              input[i * 3 + 2] == ChannelValue(intValues[i], 0)
  {
    input := new real[InputLength](_ => 0.0);
    for i := 0 to |intValues|
      invariant forall j | 0 <= j < i ::
                  input[j * 3 + 0] == ChannelValue(intValues[j], 16) &&
                  input[j * 3 + 1] == ChannelValue(intValues[j], 8) &&
                  input[j * 3 + 2] == ChannelValue(intValues[j], 0)
    {
      var val := intValues[i];
      input[i * 3 + 0] := ChannelValue(val, 16);
      input[i * 3 + 1] := ChannelValue(val, 8);
      input[i * 3 + 2] := ChannelValue(val, 0);
    }
  }

  /** The three bytes of a pixel put back together give its RGB part: alpha is the only thing dropped. */
  lemma ChannelsRepack(p: bv32)
    ensures (ChannelBits(p, 16) << 16) | (ChannelBits(p, 8) << 8) | ChannelBits(p, 0) == p & 0xFF_FFFF
  {
  }
}
