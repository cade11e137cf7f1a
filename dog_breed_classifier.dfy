/**
 * DogBreedClassifier, part 3: the class whitelist, the code tables read
 * from the asset files, the breed fan-out of getDogBreedBoxes, and the
 * recognizeImage pipeline that chains decode, whitelist, nms and fan-out.
 *
 * The two tables are static HashMaps in the source; here they are fields of
 * the classifier object, which is where every shown use reaches them.
 */
module DogBreedClassifier {
  import opened Wrappers
  import opened Seqs
  import opened JavaStrings
  import opened LabelTables
  import opened BoxGeometry
  import opened Recognitions
  import opened DogBreedDecode
  import opened DogBreedNms

  /** POSSIBLE_DOG_CLASSES_ARRAY: the detector classes that can hold a dog. */
  const PossibleDogClasses: seq<int> := [14, 15, 16, 17, 18, 19, 20, 21, 22, 23, 77]

  /** The classes 14 to 23 and 77. */
  predicate IsDogClass(c: int)
  {
    14 <= c <= 23 || c == 77
  }

  /** possibleDetectionClasses.contains(item.getDetectedClass()). */
  function InClasses(classes: seq<int>): Recognition -> bool
  {
    (r: Recognition) => r.detectedClass in classes
  }

  /** The whitelist read from dog_codes.txt: every line, trimmed. */
  function TrimmedLines(lines: seq<string>): (codes: seq<string>)
  {
    if lines == [] then [] else TrimmedLines(lines[..|lines| - 1]) + [Trim(lines[|lines| - 1])]
  }

  lemma {:induction false} TrimmedLinesElements(lines: seq<string>)
    ensures |TrimmedLines(lines)| == |lines|
    ensures forall i | 0 <= i < |lines| :: TrimmedLines(lines)[i] == Trim(lines[i])
  {
    if lines != [] {
      TrimmedLinesElements(lines[..|lines| - 1]);
      assert forall i | 0 <= i < |lines| - 1 :: lines[..|lines| - 1][i] == lines[i];
    }
  }

  /** The score vector of one box; an inference that threw leaves none. */
  function ScoresOf(s: Option<seq<real>>): seq<real>
  {
    if s.Some? then s.value else []
  }

  /** The score indices, ascending, whose score is above the threshold. */
  function Hits(v: seq<real>, minValue: real): seq<nat>
  {
    if v == [] then []
    else Hits(v[..|v| - 1], minValue) + (if v[|v| - 1] > minValue then [|v| - 1] else [])
  }

  /** `n` appends of the same record. */
  function Repeat(r: Recognition, n: nat): (s: seq<Recognition>)
    ensures |s| == n
    ensures forall k | 0 <= k < n :: s[k] == r
  {
    if n == 0 then [] else Repeat(r, n - 1) + [r]
  }

  /** The list getDogBreedBoxes returns: each box once per score above the threshold, boxes in order. */
  function FanOut(results: seq<Recognition>, scores: seq<Option<seq<real>>>, minValue: real): seq<Recognition>
    requires |scores| == |results|
  {
    if results == [] then []
    else
      var n := |results| - 1;
      FanOut(results[..n], scores[..n], minValue) + Repeat(results[n], |Hits(ScoresOf(scores[n]), minValue)|)
  }

  /** The breed network's output for the crop of each box, in list order. */
  function CropScores(boxes: seq<Recognition>, breedScores: Rect -> Option<seq<real>>): (scores: seq<Option<seq<real>>>)
    requires HasLocations(boxes)
    ensures |scores| == |boxes|
    ensures forall i | 0 <= i < |boxes| :: scores[i] == breedScores(BoxOf(boxes[i]))
  {
    seq(|boxes|, i requires 0 <= i < |boxes| => breedScores(BoxOf(boxes[i])))
  }

  /** The records recognizeImage keeps before the breed step: the dog classes, then nms. */
  function Survivors(detections: seq<Recognition>, numLabels: nat): (survivors: seq<Recognition>)
    requires HasLocations(detections)
    ensures HasLocations(survivors)
    ensures forall r | r in survivors :: r in detections && IsDogClass(r.detectedClass) && 0 <= r.detectedClass < numLabels
  {
    FilterKeepsLocations(detections, InClasses(PossibleDogClasses));
    NmsUpToOrdered(Filter(detections, InClasses(PossibleDogClasses)), numLabels, IouTest());
    NmsUpToMembers(Filter(detections, InClasses(PossibleDogClasses)), numLabels, IouTest());
    OnlyDogClassesExactly(detections);
    FilterMembers(detections, InClasses(PossibleDogClasses));
    NmsUpTo(Filter(detections, InClasses(PossibleDogClasses)), numLabels, IouTest())
  }

  /** The breed name a box holds after its score loop, having held `name` before it. */
  function BreedAfterBox(indexToCode: map<int, string>, codesToHuman: map<string, string>,
                         v: seq<real>, minValue: real, name: Option<string>): Option<string>
  {
    var h := Hits(v, minValue);
    if h == [] then name else LookupName(indexToCode, codesToHuman, h[|h| - 1])
  }

  /** The breed name of record `r` after the loop over `results`, having held `name` before it. */
  function BreedAfter(indexToCode: map<int, string>, codesToHuman: map<string, string>,
                      results: seq<Recognition>, scores: seq<Option<seq<real>>>, minValue: real,
                      r: Recognition, name: Option<string>): Option<string>
    requires |scores| == |results|
  {
    if results == [] then name
    else
      var n := |results| - 1;
      var before := BreedAfter(indexToCode, codesToHuman, results[..n], scores[..n], minValue, r, name);
      if results[n] == r then BreedAfterBox(indexToCode, codesToHuman, ScoresOf(scores[n]), minValue, before)
      else before
  }

  // ---------------------------------------------------------------------
  // Properties of the specification functions
  // ---------------------------------------------------------------------

  /** getOnlyDogClasses keeps, in order, exactly the detections of classes 14 to 23 and 77. */
  lemma OnlyDogClassesExactly(results: seq<Recognition>)
    ensures var out := Filter(results, InClasses(PossibleDogClasses));
      IsSubsequence(out, results) &&
      (forall r | r in out :: IsDogClass(r.detectedClass)) &&
      (forall r | r in results && IsDogClass(r.detectedClass) :: r in out)
  {
    FilterIsSubsequence(results, InClasses(PossibleDogClasses));
    FilterMembers(results, InClasses(PossibleDogClasses));
  }

  /** Hits lists, in strictly ascending order, exactly the indices whose score beats the threshold. */
  lemma {:induction false} HitsExactly(v: seq<real>, minValue: real)
    ensures forall j :: j in Hits(v, minValue) <==> 0 <= j < |v| && v[j] > minValue
    ensures var h := Hits(v, minValue);
      forall a, b | 0 <= a < b < |h| :: h[a] < h[b]
  {
    if v != [] {
      var init := v[..|v| - 1];
      HitsExactly(init, minValue);
      assert forall j | 0 <= j < |init| :: init[j] == v[j];
      var h := Hits(v, minValue);
      forall a, b | 0 <= a < b < |h|
        ensures h[a] < h[b]
      {
        if b == |h| - 1 && v[|v| - 1] > minValue {
          assert h[a] in Hits(init, minValue);
        } else {
          assert h[a] == Hits(init, minValue)[a] && h[b] == Hits(init, minValue)[b];
        }
      }
    }
  }

  /** The last hit is the greatest index above the threshold; with no hit, no score is above it. */
  lemma {:induction false} LastHitIsLast(v: seq<real>, minValue: real)
    ensures var h := Hits(v, minValue);
      (h == [] ==> forall j | 0 <= j < |v| :: v[j] <= minValue) &&
      (h != [] ==> h[|h| - 1] < |v| && v[h[|h| - 1]] > minValue &&
                   forall j | h[|h| - 1] < j < |v| :: v[j] <= minValue)
  {
    if v != [] {
      var n := |v| - 1;
      var init := v[..n];
      LastHitIsLast(init, minValue);
      assert forall j | 0 <= j < n :: init[j] == v[j];
    }
  }

  /** One more score extends the hits by that index exactly when it beats the threshold. */
  lemma HitsStep(v: seq<real>, minValue: real, jj: nat)
    requires jj < |v|
    ensures Hits(v[..jj + 1], minValue) == Hits(v[..jj], minValue) + (if v[jj] > minValue then [jj] else [])
  {
    assert v[..jj + 1][..jj] == v[..jj];
  }

  /** Every record in the fan-out is a box of the input that had a score above the threshold, and each such box is there. */
  lemma FanOutMembers(results: seq<Recognition>, scores: seq<Option<seq<real>>>, minValue: real)
    requires |scores| == |results|
    ensures forall x | x in FanOut(results, scores, minValue) ::
              exists i | 0 <= i < |results| :: results[i] == x && Hits(ScoresOf(scores[i]), minValue) != []
    ensures forall i | 0 <= i < |results| && Hits(ScoresOf(scores[i]), minValue) != [] ::
              results[i] in FanOut(results, scores, minValue)
  {
    FanOutSound(results, scores, minValue);
    FanOutComplete(results, scores, minValue);
  }

  /** Every record in the fan-out is an input box with a hit. */
  lemma {:induction false} FanOutSound(results: seq<Recognition>, scores: seq<Option<seq<real>>>, minValue: real)
    requires |scores| == |results|
    ensures forall x | x in FanOut(results, scores, minValue) ::
              exists i | 0 <= i < |results| :: results[i] == x && Hits(ScoresOf(scores[i]), minValue) != []
  {
    if results != [] {
      var n := |results| - 1;
      var front := FanOut(results[..n], scores[..n], minValue);
      FanOutSound(results[..n], scores[..n], minValue);
      var tail := Repeat(results[n], |Hits(ScoresOf(scores[n]), minValue)|);
      assert FanOut(results, scores, minValue) == front + tail;
      forall x | x in front + tail
        ensures exists i | 0 <= i < |results| :: results[i] == x && Hits(ScoresOf(scores[i]), minValue) != []
      {
        if x in front {
          var i :| 0 <= i < n && results[..n][i] == x && Hits(ScoresOf(scores[..n][i]), minValue) != [];
          assert results[i] == x && scores[i] == scores[..n][i];
        } else {
          assert x in tail;
          assert results[n] == x;
        }
      }
    }
  }

  /** Every input box with a hit is in the fan-out. */
  lemma {:induction false} FanOutComplete(results: seq<Recognition>, scores: seq<Option<seq<real>>>, minValue: real)
    requires |scores| == |results|
    ensures forall i | 0 <= i < |results| && Hits(ScoresOf(scores[i]), minValue) != [] ::
              results[i] in FanOut(results, scores, minValue)
  {
    if results != [] {
      var n := |results| - 1;
      var front := FanOut(results[..n], scores[..n], minValue);
      FanOutComplete(results[..n], scores[..n], minValue);
      var tail := Repeat(results[n], |Hits(ScoresOf(scores[n]), minValue)|);
      assert FanOut(results, scores, minValue) == front + tail;
      forall i | 0 <= i < |results| && Hits(ScoresOf(scores[i]), minValue) != []
        ensures results[i] in front + tail
      {
        if i < n {
          assert results[..n][i] == results[i] && scores[..n][i] == scores[i];
          assert results[i] in front;
        } else {
          assert tail[0] == results[n];
        }
      }
    }
  }

  /** With distinct boxes, each box appears in the fan-out once per score above the threshold. */
  lemma {:induction false} FanOutCount(results: seq<Recognition>, scores: seq<Option<seq<real>>>, minValue: real, i: nat)
    requires |scores| == |results| && i < |results|
    requires forall a, b | 0 <= a < b < |results| :: results[a] != results[b]
    ensures multiset(FanOut(results, scores, minValue))[results[i]] == |Hits(ScoresOf(scores[i]), minValue)|
  {
    var n := |results| - 1;
    var r := results[i];
    var front := FanOut(results[..n], scores[..n], minValue);
    var tail := Repeat(results[n], |Hits(ScoresOf(scores[n]), minValue)|);
    assert FanOut(results, scores, minValue) == front + tail;
    if i < n {
      assert results[..n][i] == r && scores[..n][i] == scores[i];
      FanOutCount(results[..n], scores[..n], minValue, i);
      RepeatCount(results[n], |Hits(ScoresOf(scores[n]), minValue)|, r);
    } else {
      assert r !in results[..n] by {
        forall a | 0 <= a < n
          ensures results[..n][a] != r
        {
          assert results[..n][a] == results[a];
        }
      }
      FanOutAbsent(results[..n], scores[..n], minValue, r);
      RepeatCount(r, |Hits(ScoresOf(scores[n]), minValue)|, r);
    }
  }

  /** A record that is not among the boxes is not in the fan-out. */
  lemma {:induction false} FanOutAbsent(results: seq<Recognition>, scores: seq<Option<seq<real>>>, minValue: real, x: Recognition)
    requires |scores| == |results| && x !in results
    ensures multiset(FanOut(results, scores, minValue))[x] == 0
  {
    if results != [] {
      var n := |results| - 1;
      assert x !in results[..n] && results[n] != x;
      FanOutAbsent(results[..n], scores[..n], minValue, x);
      RepeatCount(results[n], |Hits(ScoresOf(scores[n]), minValue)|, x);
      assert FanOut(results, scores, minValue) ==
             FanOut(results[..n], scores[..n], minValue) + Repeat(results[n], |Hits(ScoresOf(scores[n]), minValue)|);
    }
  }

  lemma {:induction false} RepeatCount(r: Recognition, n: nat, x: Recognition)
    ensures multiset(Repeat(r, n))[x] == if x == r then n else 0
  {
    if n > 0 {
      RepeatCount(r, n - 1, x);
      assert Repeat(r, n) == Repeat(r, n - 1) + [r];
    }
  }

  /**
   * With distinct boxes, a box's breed name ends as the name looked up for
   * its last score above the threshold, and is untouched when it has none.
   */
  lemma {:induction false} BreedOfDistinct(indexToCode: map<int, string>, codesToHuman: map<string, string>,
                                           results: seq<Recognition>, scores: seq<Option<seq<real>>>, minValue: real,
                                           i: nat, name: Option<string>)
    requires |scores| == |results| && i < |results|
    requires forall a, b | 0 <= a < b < |results| :: results[a] != results[b]
    ensures var h := Hits(ScoresOf(scores[i]), minValue);
      BreedAfter(indexToCode, codesToHuman, results, scores, minValue, results[i], name) ==
        if h == [] then name else LookupName(indexToCode, codesToHuman, h[|h| - 1])
  {
    var n := |results| - 1;
    if i < n {
      assert results[..n][i] == results[i] && scores[..n][i] == scores[i];
      BreedOfDistinct(indexToCode, codesToHuman, results[..n], scores[..n], minValue, i, name);
    } else {
      BreedUntouched(indexToCode, codesToHuman, results[..n], scores[..n], minValue, results[i], name);
    }
  }

  /** A record that is not among the boxes keeps its breed name. */
  lemma {:induction false} BreedUntouched(indexToCode: map<int, string>, codesToHuman: map<string, string>,
                                          results: seq<Recognition>, scores: seq<Option<seq<real>>>, minValue: real,
                                          r: Recognition, name: Option<string>)
    requires |scores| == |results| && r !in results
    ensures BreedAfter(indexToCode, codesToHuman, results, scores, minValue, r, name) == name
  {
    if results != [] {
      var n := |results| - 1;
      assert results[n] != r && r !in results[..n];
      BreedUntouched(indexToCode, codesToHuman, results[..n], scores[..n], minValue, r, name);
    }
  }

  lemma FanOutStep(results: seq<Recognition>, scores: seq<Option<seq<real>>>, minValue: real, i: nat)
    requires |scores| == |results| && i < |results|
    ensures FanOut(results[..i + 1], scores[..i + 1], minValue) ==
              FanOut(results[..i], scores[..i], minValue) + Repeat(results[i], |Hits(ScoresOf(scores[i]), minValue)|)
  {
    assert results[..i + 1][..i] == results[..i];
    assert scores[..i + 1][..i] == scores[..i];
  }

  lemma BreedAfterStep(indexToCode: map<int, string>, codesToHuman: map<string, string>,
                       results: seq<Recognition>, scores: seq<Option<seq<real>>>, minValue: real, i: nat)
    requires |scores| == |results| && i < |results|
    ensures forall r: Recognition, name: Option<string> ::
              BreedAfter(indexToCode, codesToHuman, results[..i + 1], scores[..i + 1], minValue, r, name) ==
              var before := BreedAfter(indexToCode, codesToHuman, results[..i], scores[..i], minValue, r, name);
              if results[i] == r then BreedAfterBox(indexToCode, codesToHuman, ScoresOf(scores[i]), minValue, before)
              else before
  {
    assert results[..i + 1][..i] == results[..i];
    assert scores[..i + 1][..i] == scores[..i];
  }

  // ---------------------------------------------------------------------
  // The classifier
  // ---------------------------------------------------------------------

  /** FillPossibleClassesList: copy the class array into a list. */
  method FillPossibleClassesList() returns (allClasses: seq<int>)
    ensures allClasses == PossibleDogClasses
    ensures forall c :: c in allClasses <==> IsDogClass(c)
  {
    allClasses := [];
    for i := 0 to |PossibleDogClasses|
      invariant allClasses == PossibleDogClasses[..i]
    {
      allClasses := allClasses + [PossibleDogClasses[i]];
    }
  }

  /** getDogCodesFromFile: every line of dog_codes.txt, trimmed. */
  method GetDogCodesFromFile(lines: seq<string>) returns (dogCodes: seq<string>)
    ensures dogCodes == TrimmedLines(lines)
  {
    dogCodes := [];
    for i := 0 to |lines|
      invariant dogCodes == TrimmedLines(lines[..i])
    {
      assert lines[..i + 1][..i] == lines[..i];
      dogCodes := dogCodes + [Trim(lines[i])];
    }
    assert lines[..|lines|] == lines;
  }

  class Classifier {
    /** The label file's lines, one per detector class. */
    const labels: seq<string>
    const possibleDetectionClasses: seq<int>
    /** Line number (from 1) to code, from codes.txt. */
    var indexToCode: map<int, string>
    /** Code to breed name, from dog_code_names.txt, restricted to dog_codes.txt. */
    var codesToHuman: map<string, string>

    /**
     * create, given the lines of the label file, codes.txt,
     * dog_code_names.txt and dog_codes.txt.
     */
    constructor Create(labelLines: seq<string>, codeLines: seq<string>, nameLines: seq<string>, dogCodeLines: seq<string>)
      ensures labels == labelLines
      ensures possibleDetectionClasses == PossibleDogClasses
      ensures indexToCode == CodesTable(codeLines)
      ensures codesToHuman == NamesTable(nameLines, Some(TrimmedLines(dogCodeLines)))
    {
      var allClasses := FillPossibleClassesList();
      labels := labelLines;
      possibleDetectionClasses := allClasses;
      indexToCode := map[];
      codesToHuman := map[];
      new;
      InitializeMap(codeLines, nameLines, dogCodeLines);
      EmptyUnion(CodesTable(codeLines));
      EmptyUnion(NamesTable(nameLines, Some(TrimmedLines(dogCodeLines))));
    }

    method InitializeMap(codeLines: seq<string>, nameLines: seq<string>, dogCodeLines: seq<string>)
      modifies this
      ensures indexToCode == old(indexToCode) + CodesTable(codeLines)
      ensures codesToHuman == old(codesToHuman) + NamesTable(nameLines, Some(TrimmedLines(dogCodeLines)))
    {
      ReadCodesFile(codeLines);
      FillCodesWithValues(nameLines, dogCodeLines);
    }

    /** ReadCodesFile: put line N (from 1) under key N, untrimmed: the result of trim() is discarded. */
    method ReadCodesFile(lines: seq<string>)
      modifies this
      ensures codesToHuman == old(codesToHuman)
      ensures indexToCode == old(indexToCode) + CodesTable(lines)
    {
      var index := 1;
      for i := 0 to |lines|
        invariant index == i + 1
        invariant codesToHuman == old(codesToHuman)
        invariant indexToCode == old(indexToCode) + CodesTable(lines[..i])
      {
        var mLine := lines[i];
        assert lines[..i + 1][..i] == lines[..i];
        UnionUpdate(old(indexToCode), CodesTable(lines[..i]), index, mLine);
        indexToCode := indexToCode[index := mLine];
        index := index + 1;
      }
      assert lines[..|lines|] == lines;
    }

    /** FillCodesWithValues: put code and name of every trimmed line with two tab fields and a whitelisted code. */
    method FillCodesWithValues(nameLines: seq<string>, dogCodeLines: seq<string>)
      modifies this
      ensures indexToCode == old(indexToCode)
      ensures codesToHuman == old(codesToHuman) + NamesTable(nameLines, Some(TrimmedLines(dogCodeLines)))
    {
      var onlyDogCodes := GetDogCodesFromFile(dogCodeLines);
      for i := 0 to |nameLines|
        invariant indexToCode == old(indexToCode)
        invariant codesToHuman == old(codesToHuman) + NamesTable(nameLines[..i], Some(onlyDogCodes))
      {
        var codeAndName := JavaSplit(Trim(nameLines[i]), '\t');
        NamesTableStep(nameLines, Some(onlyDogCodes), i);
        if |codeAndName| >= 2 && codeAndName[0] in onlyDogCodes {
          UnionUpdate(old(codesToHuman), NamesTable(nameLines[..i], Some(onlyDogCodes)), codeAndName[0], codeAndName[1]);
          codesToHuman := codesToHuman[codeAndName[0] := codeAndName[1]];
        }
      }
      assert nameLines[..|nameLines|] == nameLines;
    }

    /** getOnlyDogClasses: keep the detections whose class is in possibleDetectionClasses, in order. */
    method GetOnlyDogClasses(results: seq<Recognition>) returns (onlyDogClasses: seq<Recognition>)
      ensures onlyDogClasses == Filter(results, InClasses(possibleDetectionClasses))
    {
      onlyDogClasses := [];
      for i := 0 to |results|
        invariant onlyDogClasses == Filter(results[..i], InClasses(possibleDetectionClasses))
      {
        FilterPrefixStep(results, InClasses(possibleDetectionClasses), i);
        if results[i].detectedClass in possibleDetectionClasses {
          onlyDogClasses := onlyDogClasses + [results[i]];
        }
      }
      assert results[..|results|] == results;
    }

    /**
     * The label loop of getDogBreedBoxes for one box: for every score above
     * the threshold, look its index up, set the box's breed name and append
     * the box.
     */
    method LabelBox(result: Recognition, classScores: seq<real>, minValue: real, boxes: seq<Recognition>)
      returns (dogBreedBoxes: seq<Recognition>)
      modifies result
      ensures dogBreedBoxes == boxes + Repeat(result, |Hits(classScores, minValue)|)
      ensures result.breedName == BreedAfterBox(indexToCode, codesToHuman, classScores, minValue, old(result.breedName))
    {
      dogBreedBoxes := boxes;
      for jj := 0 to |classScores|
        invariant dogBreedBoxes == boxes + Repeat(result, |Hits(classScores[..jj], minValue)|)
        invariant result.breedName ==
                    BreedAfterBox(indexToCode, codesToHuman, classScores[..jj], minValue, old(result.breedName))
      {
        HitsStep(classScores, minValue, jj);
        if classScores[jj] > minValue {
          var breedName := LookupName(indexToCode, codesToHuman, jj);
          result.SetBreedName(breedName);
          dogBreedBoxes := dogBreedBoxes + [result];
        }
      }
      assert classScores[..|classScores|] == classScores;
    }

    /**
     * getDogBreedBoxes, with the breed network's output for each box given:
     * None where mobileNetLite.run threw (the box is then skipped).
     */
    method GetDogBreedBoxes(results: seq<Recognition>, classScores: seq<Option<seq<real>>>, minValue: real)
      returns (dogBreedBoxes: seq<Recognition>)
      requires |classScores| == |results|
      modifies set r | r in results
      ensures dogBreedBoxes == FanOut(results, classScores, minValue)
      ensures forall k | 0 <= k < |results| ::
                results[k].breedName ==
                  BreedAfter(indexToCode, codesToHuman, results, classScores, minValue, results[k], old(results[k].breedName))
    {
      dogBreedBoxes := [];
      for i := 0 to |results|
        invariant dogBreedBoxes == FanOut(results[..i], classScores[..i], minValue)
        invariant forall k | 0 <= k < |results| ::
                    results[k].breedName ==
                      BreedAfter(indexToCode, codesToHuman, results[..i], classScores[..i], minValue,
                                 results[k], old(results[k].breedName))
      {
        var result := results[i];
        FanOutStep(results, classScores, minValue, i);
        BreedAfterStep(indexToCode, codesToHuman, results, classScores, minValue, i);
        if classScores[i].Some? {
          dogBreedBoxes := LabelBox(result, classScores[i].value, minValue, dogBreedBoxes);
        }
      }
      assert results[..|results|] == results && classScores[..|classScores|] == classScores;
    }

    /**
     * recognizeImage over given network outputs: the detector's tensors in
     * `f` (whose threshold is also the breed threshold), and the breed
     * network's output for the crop of each box. None when the decode
     * throws. Otherwise the records decoded from the tensors, `decoded`, are
     * new; the result is the breed fan-out of those that survive the
     * whitelist and nms, and each decoded record ends with the breed name
     * of its last hit (or none).
     */
    method RecognizeImage(f: Frame, breedScores: Rect -> Option<seq<real>>)
      returns (dogBreedResults: Option<seq<Recognition>>, ghost decoded: seq<Recognition>)
      requires f.WellShaped() && f.labels == labels
      requires possibleDetectionClasses == PossibleDogClasses
      ensures dogBreedResults.None? <==> Decode(f, |f.bboxes|).None?
      ensures dogBreedResults.Some? ==>
                var cs := Decode(f, |f.bboxes|).value;
                |decoded| == |cs| &&
                (forall k | 0 <= k < |cs| :: fresh(decoded[k]) && Carries(decoded[k], cs[k])) &&
                (forall k, l | 0 <= k < l < |cs| :: decoded[k] != decoded[l])
      ensures dogBreedResults.Some? ==>
                HasLocations(decoded) &&
                var survivors := Survivors(decoded, |labels|);
                var scores := CropScores(survivors, breedScores);
                dogBreedResults.value == FanOut(survivors, scores, f.objThresh) &&
                forall r | r in decoded ::
                  r.breedName == BreedAfter(indexToCode, codesToHuman, survivors, scores, f.objThresh, r, None)
      ensures dogBreedResults.Some? ==>
                forall r | r in dogBreedResults.value ::
                  fresh(r) && r.location.Some? && IsDogClass(r.detectedClass) && 0 <= r.detectedClass < |labels|
    {
      var detections := GetDetectionsForTiny(f);
      decoded := [];
      if detections.None? {
        return None, decoded;
      }
      var all := detections.value;
      decoded := all;
      assert HasLocations(all) && forall r | r in all :: fresh(r) && r.breedName == None by {
        var cs := Decode(f, |f.bboxes|).value;
        forall r | r in all
          ensures r.location.Some? && fresh(r) && r.breedName == None
        {
          var k :| 0 <= k < |all| && all[k] == r;
          assert Describes(all[k], cs[k]);
        }
      }
      var boxes := BreedsOfDogs(all, breedScores, f.objThresh);
      dogBreedResults := Some(boxes);
    }

    /**
     * The part of recognizeImage after decoding: whitelist, nms, then the
     * breed fan-out. Records that do not survive keep their breed name.
     */
    method BreedsOfDogs(detections: seq<Recognition>, breedScores: Rect -> Option<seq<real>>, minValue: real)
      returns (dogBreedResults: seq<Recognition>)
      requires HasLocations(detections)
      requires possibleDetectionClasses == PossibleDogClasses
      modifies set r | r in detections
      ensures var survivors := Survivors(detections, |labels|);
              var scores := CropScores(survivors, breedScores);
              dogBreedResults == FanOut(survivors, scores, minValue) &&
              forall r | r in detections ::
                r.breedName == BreedAfter(indexToCode, codesToHuman, survivors, scores, minValue, r, old(r.breedName))
      ensures forall r | r in dogBreedResults ::
                r in detections && r.location.Some? && IsDogClass(r.detectedClass) && 0 <= r.detectedClass < |labels|
    {
      var onlyDogClasses := GetOnlyDogClasses(detections);
      assert HasLocations(onlyDogClasses) by {
        FilterKeepsLocations(detections, InClasses(possibleDetectionClasses));
      }
      var dogRecognitions := Nms(onlyDogClasses, |labels|);
      assert dogRecognitions == Survivors(detections, |labels|);
      var scores := CropScores(dogRecognitions, breedScores);
      dogBreedResults := GetDogBreedBoxes(dogRecognitions, scores, minValue);
      forall r | r in detections
        ensures r.breedName == BreedAfter(indexToCode, codesToHuman, dogRecognitions, scores, minValue, r, old(r.breedName))
      {
        if r in dogRecognitions {
          var k :| 0 <= k < |dogRecognitions| && dogRecognitions[k] == r;
        } else {
          BreedUntouched(indexToCode, codesToHuman, dogRecognitions, scores, minValue, r, old(r.breedName));
        }
      }
      assert forall r | r in dogBreedResults :: r in dogRecognitions by {
        FanOutMembers(dogRecognitions, scores, minValue);
      }
    }
  }
}
