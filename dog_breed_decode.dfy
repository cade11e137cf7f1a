/**
 * DogBreedClassifier, part 1: turning the YOLOv4-tiny output tensors into
 * detector records (getDetectionsForTiny). One row per grid cell: a box
 * (centre x, centre y, width, height) and one score per label. A row becomes
 * a record when its best score beats the object threshold.
 */
module DogBreedDecode {
  import opened Wrappers
  import opened JavaStrings
  import opened BoxGeometry
  import opened Recognitions

  /** Side of the square network input. */
  const InputSize: nat := 416
  /** Number of rows the tiny model emits; the model below takes the row count from the tensors. */
  const OutputWidthTiny: nat := 2535

  /** The detector's two output tensors plus what decoding reads besides them. */
  datatype Frame = Frame(
    bboxes: seq<seq<real>>,
    scores: seq<seq<real>>,
    labels: seq<string>,
    bitmapWidth: int,
    bitmapHeight: int,
    objThresh: real)
  {
    /** One box of four numbers and one score per label for every row. */
    predicate WellShaped()
    {
      |bboxes| == |scores| &&
      forall i | 0 <= i < |bboxes| :: |bboxes[i]| == 4 && |scores[i]| == |labels|
    }
  }

  /**
   * The class scan over the first n scores, starting from class -1 with
   * score 0 and taking a class only when it is strictly better: the result is
   * the first class with the largest score if that score is positive, and
   * (-1, 0) otherwise.
   */
  function ScanMax(scores: seq<real>, n: nat): (best: (int, real))
    requires n <= |scores|
    ensures -1 <= best.0 < n
    ensures best.1 >= 0.0
    ensures forall c | 0 <= c < n :: scores[c] <= best.1
    ensures best.0 == -1 ==> best.1 == 0.0
    ensures best.0 >= 0 ==>
              scores[best.0] == best.1 && best.1 > 0.0 && forall c | 0 <= c < best.0 :: scores[c] < best.1
  {
    if n == 0 then (-1, 0.0)
    else
      var prev := ScanMax(scores, n - 1);
      if scores[n - 1] > prev.1 then (n - 1, scores[n - 1]) else prev
  }

  /** The inner argmax loop of getDetectionsForTiny. */
  method ArgMaxClass(classes: seq<real>) returns (detectedClass: int, maxClass: real)
    ensures (detectedClass, maxClass) == ScanMax(classes, |classes|)
  {
    maxClass := 0.0;
    detectedClass := -1;
    var c := 0;
    while c < |classes|
      invariant 0 <= c <= |classes|
      invariant (detectedClass, maxClass) == ScanMax(classes, c)
    {
      if classes[c] > maxClass {
        detectedClass := c;
        maxClass := classes[c];
      }
      c := c + 1;
    }
  }

  /** The box of a row: centre and extent turned into edges, clamped to the bitmap. */
  function DecodeBox(box: seq<real>, width: int, height: int): (r: Rect)
    requires |box| == 4
    ensures r.left >= 0.0 && r.top >= 0.0
    ensures r.right <= (width - 1) as real && r.bottom <= (height - 1) as real
    ensures r.left >= box[0] - box[2] / 2.0 && r.top >= box[1] - box[3] / 2.0
    ensures r.right <= box[0] + box[2] / 2.0 && r.bottom <= box[1] + box[3] / 2.0
    ensures box[0] - box[2] / 2.0 >= 0.0 ==> r.left == box[0] - box[2] / 2.0
    ensures box[1] - box[3] / 2.0 >= 0.0 ==> r.top == box[1] - box[3] / 2.0
    ensures box[0] + box[2] / 2.0 <= (width - 1) as real ==> r.right == box[0] + box[2] / 2.0
    ensures box[1] + box[3] / 2.0 <= (height - 1) as real ==> r.bottom == box[1] + box[3] / 2.0
  {
    var x, y, w, h := box[0], box[1], box[2], box[3];
    Rect(Max(0.0, x - w / 2.0), Max(0.0, y - h / 2.0),
         Min((width - 1) as real, x + w / 2.0), Min((height - 1) as real, y + h / 2.0))
  }

  /** What a decoded row would become: its row number, class, label, score and box. */
  datatype Candidate = Candidate(row: nat, cls: nat, title: string, score: real, box: Rect)

  /**
   * A row is skipped, yields a record, or, when it passes the threshold with
   * no class chosen (only possible for a negative threshold), makes
   * labels.get(-1) throw.
   */
  datatype RowOutcome = Skip | Emit(candidate: Candidate) | Crash

  function DecodeRow(f: Frame, i: nat): RowOutcome
    requires f.WellShaped() && i < |f.bboxes|
  {
    var best := ScanMax(f.scores[i], |f.scores[i]|);
    if !(best.1 > f.objThresh) then Skip
    else if best.0 < 0 then Crash
    else Emit(Candidate(i, best.0, f.labels[best.0], best.1, DecodeBox(f.bboxes[i], f.bitmapWidth, f.bitmapHeight)))
  }

  /**
   * A row yields a record exactly when some score is positive and above the
   * threshold; the record carries the first best class, its label and score,
   * and the clamped box. It crashes exactly when the threshold is negative and
   * no score is positive.
   */
  lemma DecodeRowOutcome(f: Frame, i: nat)
    requires f.WellShaped() && i < |f.bboxes|
    ensures DecodeRow(f, i).Emit? <==>
              exists c | 0 <= c < |f.labels| :: f.scores[i][c] > 0.0 && f.scores[i][c] > f.objThresh
    ensures DecodeRow(f, i).Crash? <==>
              f.objThresh < 0.0 && forall c | 0 <= c < |f.labels| :: f.scores[i][c] <= 0.0
    ensures DecodeRow(f, i).Emit? ==>
              var cand := DecodeRow(f, i).candidate;
              cand.row == i && cand.cls < |f.labels| && cand.title == f.labels[cand.cls] &&
              cand.score == f.scores[i][cand.cls] && cand.score > f.objThresh &&
              (forall c | 0 <= c < |f.labels| :: f.scores[i][c] <= cand.score) &&
              (forall c | 0 <= c < cand.cls :: f.scores[i][c] < cand.score) &&
              cand.box == DecodeBox(f.bboxes[i], f.bitmapWidth, f.bitmapHeight)
  {
    var best := ScanMax(f.scores[i], |f.scores[i]|);
    if best.0 >= 0 {
      assert f.scores[i][best.0] == best.1;
    }
  }

  /** The outcomes of rows 0..n-1, in row order. */
  function Outcomes(f: Frame, n: nat): (os: seq<RowOutcome>)
    requires f.WellShaped() && n <= |f.bboxes|
    ensures |os| == n && forall i | 0 <= i < n :: os[i] == DecodeRow(f, i)
  {
    seq(n, i requires 0 <= i < n => DecodeRow(f, i))
  }

  /** Going through row outcomes in order; the first crash ends it with no result. */
  function Collect(os: seq<RowOutcome>): (r: Option<seq<Candidate>>)
    ensures r.Some? ==> |r.value| <= |os|
  {
    if os == [] then Some([])
    else
      match Collect(os[..|os| - 1])
      case None => None
      case Some(cs) =>
        match os[|os| - 1]
        case Skip => Some(cs)
        case Emit(c) => Some(cs + [c])
        case Crash => None
  }

  /** Decoding rows 0..n-1 in order; the first crashing row ends it with no result. */
  function Decode(f: Frame, n: nat): (r: Option<seq<Candidate>>)
    requires f.WellShaped() && n <= |f.bboxes|
    ensures r.Some? ==> |r.value| <= n
  {
    Collect(Outcomes(f, n))
  }

  /** Outcomes in which an emitting row's candidate carries that row's number. */
  predicate Numbered(os: seq<RowOutcome>)
  {
    forall j | 0 <= j < |os| && os[j].Emit? :: os[j].candidate.row == j
  }

  lemma OutcomesNumbered(f: Frame, n: nat)
    requires f.WellShaped() && n <= |f.bboxes|
    ensures Numbered(Outcomes(f, n))
  {
    var os := Outcomes(f, n);
    forall j | 0 <= j < n && os[j].Emit?
      ensures os[j].candidate.row == j
    {
      assert os[j] == DecodeRow(f, j);
    }
  }

  /** One more outcome: a crash ends the run, a skip adds nothing, an emit appends its candidate. */
  lemma CollectStep(os: seq<RowOutcome>, o: RowOutcome)
    ensures Collect(os).None? || o.Crash? ==> Collect(os + [o]).None?
    ensures Collect(os).Some? && o.Skip? ==> Collect(os + [o]) == Collect(os)
    ensures Collect(os).Some? && o.Emit? ==> Collect(os + [o]) == Some(Collect(os).value + [o.candidate])
  {
    assert (os + [o])[..|os|] == os;
  }

  lemma {:induction false} CollectFailsExactly(os: seq<RowOutcome>)
    ensures Collect(os).None? <==> exists j | 0 <= j < |os| :: os[j].Crash?
  {
    if os != [] {
      var init, last := os[..|os| - 1], os[|os| - 1];
      assert os == init + [last];
      CollectStep(init, last);
      CollectFailsExactly(init);
      if exists j | 0 <= j < |init| :: init[j].Crash? {
        var j :| 0 <= j < |init| && init[j].Crash?;
        assert os[j] == init[j];
      }
      if exists j | 0 <= j < |os| :: os[j].Crash? {
        var j :| 0 <= j < |os| && os[j].Crash?;
        if j < |init| {
          assert init[j] == os[j];
        }
      }
    }
  }

  lemma {:induction false} CollectSound(os: seq<RowOutcome>)
    requires Numbered(os) && Collect(os).Some?
    ensures var cs := Collect(os).value;
      forall k | 0 <= k < |cs| :: cs[k].row < |os| && os[cs[k].row] == Emit(cs[k])
  {
    if os != [] {
      var init, last := os[..|os| - 1], os[|os| - 1];
      assert os == init + [last];
      CollectStep(init, last);
      assert Numbered(init) by {
        forall j | 0 <= j < |init| && init[j].Emit?
          ensures init[j].candidate.row == j
        {
          assert init[j] == os[j];
        }
      }
      CollectSound(init);
      var cs := Collect(init).value;
      forall k | 0 <= k < |cs|
        ensures os[cs[k].row] == Emit(cs[k])
      {
        assert os[cs[k].row] == init[cs[k].row];
      }
      if last.Emit? {
        AppendKeeps(cs, last.candidate, (x: Candidate) => x.row < |os| && os[x.row] == Emit(x));
      }
    }
  }

  /** A property of every candidate and of one more holds of every candidate after the append. */
  lemma AppendKeeps(cs: seq<Candidate>, c: Candidate, p: Candidate -> bool)
    requires forall k | 0 <= k < |cs| :: p(cs[k])
    requires p(c)
    ensures forall k | 0 <= k < |cs + [c]| :: p((cs + [c])[k])
  {
    forall k | 0 <= k < |cs + [c]|
      ensures p((cs + [c])[k])
    {
      if k < |cs| {
        assert (cs + [c])[k] == cs[k];
      }
    }
  }

  lemma {:induction false} CollectRowsIncrease(os: seq<RowOutcome>)
    requires Numbered(os) && Collect(os).Some?
    ensures var cs := Collect(os).value;
      forall k, l | 0 <= k < l < |cs| :: cs[k].row < cs[l].row
  {
    if os != [] {
      var init, last := os[..|os| - 1], os[|os| - 1];
      assert os == init + [last];
      CollectStep(init, last);
      assert Numbered(init) by {
        forall j | 0 <= j < |init| && init[j].Emit?
          ensures init[j].candidate.row == j
        {
          assert init[j] == os[j];
        }
      }
      CollectRowsIncrease(init);
      CollectSound(init);
      if last.Emit? {
        AppendIncreasing(Collect(init).value, last.candidate);
      }
    }
  }

  /** Appending a candidate from a later row keeps the rows strictly increasing. */
  lemma AppendIncreasing(cs: seq<Candidate>, c: Candidate)
    requires forall k, l | 0 <= k < l < |cs| :: cs[k].row < cs[l].row
    requires forall k | 0 <= k < |cs| :: cs[k].row < c.row
    ensures forall k, l | 0 <= k < l < |cs + [c]| :: (cs + [c])[k].row < (cs + [c])[l].row
  {
    forall k, l | 0 <= k < l < |cs + [c]|
      ensures (cs + [c])[k].row < (cs + [c])[l].row
    {
      assert (cs + [c])[k] == cs[k];
      if l < |cs| {
        assert (cs + [c])[l] == cs[l];
      }
    }
  }

  lemma {:induction false} CollectComplete(os: seq<RowOutcome>)
    requires Collect(os).Some?
    ensures var cs := Collect(os).value;
      forall j | 0 <= j < |os| && os[j].Emit? :: exists k | 0 <= k < |cs| :: cs[k] == os[j].candidate
  {
    if os != [] {
      var init, last := os[..|os| - 1], os[|os| - 1];
      assert os == init + [last];
      CollectStep(init, last);
      CollectComplete(init);
      var cs, all := Collect(init).value, Collect(os).value;
      forall j | 0 <= j < |os| && os[j].Emit?
        ensures exists k | 0 <= k < |all| :: all[k] == os[j].candidate
      {
        if j < |init| {
          assert init[j] == os[j];
          var k :| 0 <= k < |cs| && cs[k] == init[j].candidate;
          assert all[k] == cs[k];
        } else {
          assert all[|cs|] == last.candidate;
        }
      }
    }
  }

  lemma {:induction false} CollectAllSkipped(os: seq<RowOutcome>)
    requires forall j | 0 <= j < |os| :: os[j].Skip?
    ensures Collect(os) == Some([])
  {
    if os != [] {
      var init, last := os[..|os| - 1], os[|os| - 1];
      assert os == init + [last];
      CollectStep(init, last);
      assert forall j | 0 <= j < |init| :: init[j] == os[j];
      CollectAllSkipped(init);
    }
  }

  /** Decoding gives no result exactly when one of the rows crashes. */
  lemma DecodeFailsExactly(f: Frame, n: nat)
    requires f.WellShaped() && n <= |f.bboxes|
    ensures Decode(f, n).None? <==> exists i | 0 <= i < n :: DecodeRow(f, i).Crash?
  {
    CollectFailsExactly(Outcomes(f, n));
  }

  /** Decoding one more row: a crash ends it, a skip adds nothing, an emit appends that row's record. */
  lemma DecodeNext(f: Frame, n: nat)
    requires f.WellShaped() && n < |f.bboxes|
    ensures Decode(f, n).None? || DecodeRow(f, n).Crash? ==> Decode(f, n + 1).None?
    ensures Decode(f, n).Some? && DecodeRow(f, n).Skip? ==> Decode(f, n + 1) == Decode(f, n)
    ensures Decode(f, n).Some? && DecodeRow(f, n).Emit? ==>
              Decode(f, n + 1) == Some(Decode(f, n).value + [DecodeRow(f, n).candidate])
  {
    assert Outcomes(f, n + 1) == Outcomes(f, n) + [DecodeRow(f, n)];
    CollectStep(Outcomes(f, n), DecodeRow(f, n));
  }

  /** Decoding one more row appends that row's record, if it emits one. */
  lemma DecodeStep(f: Frame, n: nat)
    requires f.WellShaped() && n < |f.bboxes| && Decode(f, n + 1).Some?
    ensures Decode(f, n).Some?
    ensures DecodeRow(f, n).Emit? ==> Decode(f, n + 1).value == Decode(f, n).value + [DecodeRow(f, n).candidate]
    ensures DecodeRow(f, n).Skip? ==> Decode(f, n + 1).value == Decode(f, n).value
    ensures !DecodeRow(f, n).Crash?
  {
    DecodeNext(f, n);
  }

  /** Every decoded candidate is what its row emits. */
  lemma DecodeSound(f: Frame, n: nat)
    requires f.WellShaped() && n <= |f.bboxes| && Decode(f, n).Some?
    ensures var cs := Decode(f, n).value;
      forall k | 0 <= k < |cs| :: cs[k].row < n && DecodeRow(f, cs[k].row) == Emit(cs[k])
  {
    OutcomesNumbered(f, n);
    CollectSound(Outcomes(f, n));
  }

  /** Candidates come in strictly increasing row order, so each row yields at most one. */
  lemma DecodeRowsIncrease(f: Frame, n: nat)
    requires f.WellShaped() && n <= |f.bboxes| && Decode(f, n).Some?
    ensures var cs := Decode(f, n).value;
      forall k, l | 0 <= k < l < |cs| :: cs[k].row < cs[l].row
  {
    OutcomesNumbered(f, n);
    CollectRowsIncrease(Outcomes(f, n));
  }

  /** Every row that emits a record is among the candidates. */
  lemma DecodeComplete(f: Frame, n: nat)
    requires f.WellShaped() && n <= |f.bboxes| && Decode(f, n).Some?
    ensures var cs := Decode(f, n).value;
      forall i | 0 <= i < n && DecodeRow(f, i).Emit? :: exists k | 0 <= k < |cs| :: cs[k].row == i
  {
    var os := Outcomes(f, n);
    var cs := Decode(f, n).value;
    OutcomesNumbered(f, n);
    CollectComplete(os);
    forall i | 0 <= i < n && DecodeRow(f, i).Emit?
      ensures exists k | 0 <= k < |cs| :: cs[k].row == i
    {
      assert os[i] == DecodeRow(f, i);
      var k :| 0 <= k < |cs| && cs[k] == os[i].candidate;
    }
  }

  /** Rows that are all skipped decode to nothing. */
  lemma DecodeAllSkipped(f: Frame, n: nat)
    requires f.WellShaped() && n <= |f.bboxes|
    requires forall i | 0 <= i < n :: DecodeRow(f, i).Skip?
    ensures Decode(f, n) == Some([])
  {
    CollectAllSkipped(Outcomes(f, n));
  }

  /**
   * With a non-negative threshold, an all-zero score tensor (what the output
   * buffers hold when the interpreter call fails and its exception is
   * swallowed) decodes to no records at all.
   */
  lemma ZeroScoresDecodeToNothing(f: Frame)
    requires f.WellShaped() && f.objThresh >= 0.0
    requires forall i, c | 0 <= i < |f.scores| && 0 <= c < |f.labels| :: f.scores[i][c] == 0.0
    ensures Decode(f, |f.bboxes|) == Some([])
  {
    forall i | 0 <= i < |f.bboxes|
      ensures DecodeRow(f, i).Skip?
    {
      DecodeRowOutcome(f, i);
    }
    DecodeAllSkipped(f, |f.bboxes|);
  }

  /** The fixed fields of a record built from a candidate: id is the row number as text. */
  predicate Carries(r: Recognition, c: Candidate)
  {
    r.id == NatToDecimal(c.row) && r.title == c.title && r.confidence == c.score &&
    r.location == Some(c.box) && r.detectedClass == c.cls as int
  }

  /** A record just built from a candidate: no breed yet. */
  predicate Describes(r: Recognition, c: Candidate)
    reads r
  {
    Carries(r, c) && r.breedName == None
  }

  /**
   * getDetectionsForTiny over the (already computed) output tensors: None
   * when a row makes labels.get(-1) throw, otherwise one new record per
   * decoded candidate, in row order.
   */
  method GetDetectionsForTiny(f: Frame) returns (detections: Option<seq<Recognition>>)
    requires f.WellShaped()
    ensures detections.None? <==> Decode(f, |f.bboxes|).None?
    ensures detections.Some? ==>
              var cs := Decode(f, |f.bboxes|).value;
              |detections.value| == |cs| &&
              (forall k | 0 <= k < |cs| :: fresh(detections.value[k]) && Describes(detections.value[k], cs[k])) &&
              (forall k, l | 0 <= k < l < |cs| :: detections.value[k] != detections.value[l])
  {
    var found: seq<Recognition> := [];
    ghost var cs: seq<Candidate> := [];
    var i := 0;
    while i < |f.bboxes|
      invariant 0 <= i <= |f.bboxes|
      invariant Decode(f, i) == Some(cs)
      invariant |found| == |cs|
      invariant forall k | 0 <= k < |found| :: fresh(found[k]) && Describes(found[k], cs[k])
      invariant forall k, l | 0 <= k < l < |found| :: found[k] != found[l]
    {
      DecodeNext(f, i);
      var detectedClass, maxClass := ArgMaxClass(f.scores[i]);
      var score := maxClass;
      if score > f.objThresh {
        if detectedClass < 0 {
          assert DecodeRow(f, i).Crash?;
          DecodeFailsExactly(f, |f.bboxes|);
          return None;
        }
        var rect := DecodeBox(f.bboxes[i], f.bitmapWidth, f.bitmapHeight);
        var r := new Recognition(NatToDecimal(i), f.labels[detectedClass], score, Some(rect), detectedClass);
        ghost var c := Candidate(i, detectedClass, f.labels[detectedClass], score, rect);
        assert DecodeRow(f, i) == Emit(c);
        found, cs := found + [r], cs + [c];
      } else {
        assert DecodeRow(f, i) == Skip;
      }
      i := i + 1;
    }
    return Some(found);
  }
}
