/**
 * DogBreedClassifier, part 2: per-class non-maximum suppression (nms). For
 * every class in label order, repeatedly take the most confident remaining
 * box of that class, keep it, and drop every other remaining box whose IoU
 * with it is not below the threshold (0.25).
 *
 * The specification functions take the overlap test as a parameter, so the
 * suppression properties below hold for any test; nms itself uses IouTest.
 */
module DogBreedNms {
  import opened Seqs
  import opened BoxGeometry
  import opened Recognitions

  const NmsThresh: real := 0.25

  /** A test on the kept box and another box: true when the other box may stay. */
  type OverlapTest = (Rect, Rect) -> bool

  /** The test nms applies: box_iou(max, b) < mNmsThresh. */
  function IouTest(): OverlapTest
  {
    (a: Rect, b: Rect) => IouBelow(a, b, NmsThresh)
  }

  function OfClass(k: int): Recognition -> bool
  {
    (r: Recognition) => r.detectedClass == k
  }

  function ClassBelow(k: int): Recognition -> bool
  {
    (r: Recognition) => 0 <= r.detectedClass < k
  }

  /** Whether a box survives beside the kept box `max`. */
  function KeptBeside(max: Rect, below: OverlapTest): Recognition -> bool
  {
    (r: Recognition) => r.location.Some? && below(max, r.location.value)
  }

  /** The head of the confidence-ordered queue: a most confident element (the first such one). */
  function FirstMaxIndex(pool: seq<Recognition>): (m: nat)
    requires pool != []
    ensures m < |pool|
    ensures forall j | 0 <= j < |pool| :: pool[j].confidence <= pool[m].confidence
    ensures forall j | 0 <= j < m :: pool[j].confidence < pool[m].confidence
  {
    if |pool| == 1 then 0
    else
      var m := FirstMaxIndex(pool[..|pool| - 1]);
      if pool[|pool| - 1].confidence > pool[m].confidence then |pool| - 1 else m
  }

  lemma FilterKeepsLocations(list: seq<Recognition>, p: Recognition -> bool)
    requires HasLocations(list)
    ensures HasLocations(Filter(list, p))
  {
    FilterMembers(list, p);
  }

  lemma RemoveAtHasLocations(pool: seq<Recognition>, m: nat)
    requires HasLocations(pool) && m < |pool|
    ensures HasLocations(RemoveAt(pool, m))
  {
    var d := RemoveAt(pool, m);
    forall r | r in d
      ensures r.location.Some?
    {
      assert r in multiset(d);
    }
  }

  /** One round of step 2: the box kept, and the queue that remains after dropping its overlaps. */
  datatype Round = Round(kept: Recognition, rest: seq<Recognition>)

  function NmsRound(pool: seq<Recognition>, below: OverlapTest): Round
    requires HasLocations(pool) && pool != []
  {
    var m := FirstMaxIndex(pool);
    Round(pool[m], Filter(RemoveAt(pool, m), KeptBeside(BoxOf(pool[m]), below)))
  }

  /** A round keeps a most confident box and leaves fewer boxes, all of them with locations. */
  lemma NmsRoundShrinks(pool: seq<Recognition>, below: OverlapTest)
    requires HasLocations(pool) && pool != []
    ensures |NmsRound(pool, below).rest| < |pool|
    ensures HasLocations(NmsRound(pool, below).rest)
  {
    var m := FirstMaxIndex(pool);
    RemoveAtHasLocations(pool, m);
    FilterKeepsLocations(RemoveAt(pool, m), KeptBeside(BoxOf(pool[m]), below));
  }

  /**
   * A round keeps a most confident box of the queue; what remains is drawn
   * from the rest of the queue and is exactly the boxes that pass the test
   * beside the kept one.
   */
  lemma NmsRoundFacts(pool: seq<Recognition>, below: OverlapTest)
    requires HasLocations(pool) && pool != []
    ensures var r := NmsRound(pool, below);
      r.kept in pool &&
      (forall x | x in pool :: x.confidence <= r.kept.confidence) &&
      |r.rest| < |pool| &&
      HasLocations(r.rest) &&
      multiset(r.rest) + multiset{r.kept} <= multiset(pool) &&
      (forall x | x in r.rest :: x in pool && below(BoxOf(r.kept), BoxOf(x))) &&
      (forall x | x in pool && x != r.kept && x !in r.rest :: !below(BoxOf(r.kept), BoxOf(x)))
  {
    var m := FirstMaxIndex(pool);
    RemoveAtHasLocations(pool, m);
    RoundFacts(pool, m, RemoveAt(pool, m), below);
  }

  lemma RoundFacts(pool: seq<Recognition>, m: nat, d: seq<Recognition>, below: OverlapTest)
    requires HasLocations(pool) && m < |pool| && d == RemoveAt(pool, m) && HasLocations(d)
    ensures var rest := Filter(d, KeptBeside(BoxOf(pool[m]), below));
      HasLocations(rest) &&
      multiset(rest) + multiset{pool[m]} <= multiset(pool) &&
      (forall x | x in rest :: x in pool && below(BoxOf(pool[m]), BoxOf(x))) &&
      (forall x | x in pool && x != pool[m] && x !in rest :: !below(BoxOf(pool[m]), BoxOf(x)))
  {
    var rest := Filter(d, KeptBeside(BoxOf(pool[m]), below));
    FilterMembers(d, KeptBeside(BoxOf(pool[m]), below));
    FilterMultiset(d, KeptBeside(BoxOf(pool[m]), below));
    forall x | x in rest
      ensures x in pool
    {
      assert x in multiset(d);
    }
    forall x | x in pool && x != pool[m]
      ensures x in d
    {
      assert x in multiset(pool);
    }
  }

  /** Suppression within one class's queue. */
  function NmsClass(pool: seq<Recognition>, below: OverlapTest): seq<Recognition>
    requires HasLocations(pool)
    decreases |pool|
  {
    if pool == [] then []
    else
      NmsRoundShrinks(pool, below);
      var r := NmsRound(pool, below);
      [r.kept] + NmsClass(r.rest, below)
  }

  /** Suppression for classes 0..k-1, their results concatenated in class order. */
  function NmsUpTo(list: seq<Recognition>, k: nat, below: OverlapTest): seq<Recognition>
    requires HasLocations(list)
  {
    if k == 0 then []
    else
      FilterKeepsLocations(list, OfClass(k - 1));
      NmsUpTo(list, k - 1, below) + NmsClass(Filter(list, OfClass(k - 1)), below)
  }

  lemma NmsRoundUnfold(pool: seq<Recognition>, below: OverlapTest)
    requires HasLocations(pool) && pool != []
    ensures var m := FirstMaxIndex(pool);
      NmsRound(pool, below) == Round(pool[m], Filter(RemoveAt(pool, m), KeptBeside(BoxOf(pool[m]), below)))
  {
  }

  lemma NmsClassUnfold(pool: seq<Recognition>, below: OverlapTest)
    requires HasLocations(pool) && pool != []
    ensures HasLocations(NmsRound(pool, below).rest)
    ensures NmsClass(pool, below) == [NmsRound(pool, below).kept] + NmsClass(NmsRound(pool, below).rest, below)
  {
    NmsRoundShrinks(pool, below);
  }

  /** One round of the queue loop, in the terms of NmsClass. */
  lemma SuppressStep(kept: seq<Recognition>, pq: seq<Recognition>, next: seq<Recognition>, below: OverlapTest)
    requires HasLocations(pq) && pq != []
    requires next == Filter(RemoveAt(pq, FirstMaxIndex(pq)), KeptBeside(BoxOf(pq[FirstMaxIndex(pq)]), below))
    ensures HasLocations(next)
    ensures kept + NmsClass(pq, below) == (kept + [pq[FirstMaxIndex(pq)]]) + NmsClass(next, below)
  {
    var head := pq[FirstMaxIndex(pq)];
    assert NmsClass(pq, below) == [head] + NmsClass(next, below) by {
      NmsRoundUnfold(pq, below);
      NmsClassUnfold(pq, below);
    }
    AppendAssociative(kept, [head], NmsClass(next, below));
  }

  lemma AppendAssociative(a: seq<Recognition>, b: seq<Recognition>, c: seq<Recognition>)
    ensures a + (b + c) == (a + b) + c
  {
  }

  /** Step 1 of nms for class k: queue every detection of that class. */
  method CollectClass(list: seq<Recognition>, k: int) returns (pq: seq<Recognition>)
    ensures pq == Filter(list, OfClass(k))
  {
    pq := [];
    for i := 0 to |list|
      invariant pq == Filter(list[..i], OfClass(k))
    {
      FilterPrefixStep(list, OfClass(k), i);
      if list[i].detectedClass == k {
        pq := pq + [list[i]];
      }
    }
    assert list[..|list|] == list;
  }

  /**
   * The inner loop of step 2: re-queue the detections that survive beside the
   * kept box. nms passes IouTest, the source's box_iou(max, b) < mNmsThresh.
   */
  method KeepSurvivors(max: Rect, detections: seq<Recognition>, below: OverlapTest) returns (kept: seq<Recognition>)
    requires HasLocations(detections)
    ensures kept == Filter(detections, KeptBeside(max, below))
  {
    kept := [];
    for j := 0 to |detections|
      invariant kept == Filter(detections[..j], KeptBeside(max, below))
    {
      FilterPrefixStep(detections, KeptBeside(max, below), j);
      assert detections[j] in detections;
      if below(max, BoxOf(detections[j])) {
        kept := kept + [detections[j]];
      }
    }
    assert detections[..|detections|] == detections;
  }

  /** Step 2 of nms for one class: drain the queue, keeping its head and re-queueing the survivors. */
  method SuppressClass(pool: seq<Recognition>, below: OverlapTest) returns (kept: seq<Recognition>)
    requires HasLocations(pool)
    ensures kept == NmsClass(pool, below)
  {
    kept := [];
    var pq := pool;
    while |pq| > 0
      invariant HasLocations(pq)
      invariant kept + NmsClass(pq, below) == NmsClass(pool, below)
      decreases |pq|
    {
      var m := FirstMaxIndex(pq);
      var max := pq[m];
      RemoveAtHasLocations(pq, m);
      var next := KeepSurvivors(BoxOf(max), RemoveAt(pq, m), below);
      SuppressStep(kept, pq, next, below);
      kept := kept + [max];
      pq := next;
    }
    assert kept + [] == kept;
  }

  /** nms over a list, with one class per label. */
  method Nms(list: seq<Recognition>, numLabels: nat) returns (nmsList: seq<Recognition>)
    requires HasLocations(list)
    ensures nmsList == NmsUpTo(list, numLabels, IouTest())
  {
    nmsList := [];
    for k := 0 to numLabels
      invariant nmsList == NmsUpTo(list, k, IouTest())
    {
      var pq := CollectClass(list, k);
      FilterKeepsLocations(list, OfClass(k));
      var kept := SuppressClass(pq, IouTest());
      nmsList := nmsList + kept;
    }
  }

  /** Within one class, the result is drawn from the queue, each box at most as often as queued. */
  lemma {:induction false} NmsClassMultiset(pool: seq<Recognition>, below: OverlapTest)
    requires HasLocations(pool)
    ensures multiset(NmsClass(pool, below)) <= multiset(pool)
    decreases |pool|
  {
    if pool != [] {
      var r := NmsRound(pool, below);
      NmsRoundFacts(pool, below);
      NmsClassMultiset(r.rest, below);
      NmsClassUnfold(pool, below);
      assert multiset(NmsClass(pool, below)) == multiset{r.kept} + multiset(NmsClass(r.rest, below));
    }
  }

  /** Within one class, every kept box comes from the queue. */
  lemma {:induction false} NmsClassMembers(pool: seq<Recognition>, below: OverlapTest)
    requires HasLocations(pool)
    ensures forall x | x in NmsClass(pool, below) :: x in pool
    decreases |pool|
  {
    if pool != [] {
      var r := NmsRound(pool, below);
      NmsRoundFacts(pool, below);
      NmsClassMembers(r.rest, below);
      NmsClassUnfold(pool, below);
    }
  }

  /** Within one class, kept boxes come out in non-increasing confidence. */
  lemma {:induction false} NmsClassOrdered(pool: seq<Recognition>, below: OverlapTest)
    requires HasLocations(pool)
    ensures var out := NmsClass(pool, below);
      forall i, j | 0 <= i < j < |out| :: out[i].confidence >= out[j].confidence
    decreases |pool|
  {
    if pool != [] {
      var r := NmsRound(pool, below);
      NmsClassUnfold(pool, below);
      var tail := NmsClass(r.rest, below);
      assert forall y | y in tail :: y.confidence <= r.kept.confidence by {
        NmsRoundFacts(pool, below);
        NmsClassMembers(r.rest, below);
      }
      NmsClassOrdered(r.rest, below);
      ConsOrdered(r.kept, tail);
    }
  }

  /** Within one class, a kept box passes the test against every box kept after it. */
  lemma {:induction false} NmsClassSeparated(pool: seq<Recognition>, below: OverlapTest)
    requires HasLocations(pool)
    ensures HasLocations(NmsClass(pool, below))
    ensures var out := NmsClass(pool, below);
      forall i, j | 0 <= i < j < |out| :: below(BoxOf(out[i]), BoxOf(out[j]))
    decreases |pool|
  {
    if pool != [] {
      var r := NmsRound(pool, below);
      NmsClassUnfold(pool, below);
      var tail := NmsClass(r.rest, below);
      assert r.kept.location.Some? && forall y | y in tail :: below(BoxOf(r.kept), BoxOf(y)) by {
        NmsRoundFacts(pool, below);
        NmsClassMembers(r.rest, below);
      }
      NmsClassSeparated(r.rest, below);
      ConsSeparated(r.kept, tail, below);
    }
  }

  /** Within one class, every queued box is kept or fails the test beside a kept box. */
  lemma {:induction false} NmsClassCovers(pool: seq<Recognition>, below: OverlapTest)
    requires HasLocations(pool)
    ensures HasLocations(NmsClass(pool, below))
    ensures forall x | x in pool ::
              x in NmsClass(pool, below) ||
              exists y | y in NmsClass(pool, below) :: !below(BoxOf(y), BoxOf(x))
    decreases |pool|
  {
    NmsClassSeparated(pool, below);
    if pool != [] {
      var r := NmsRound(pool, below);
      NmsRoundFacts(pool, below);
      NmsClassCovers(r.rest, below);
      var out := NmsClass(pool, below);
      var tail := NmsClass(r.rest, below);
      assert out == [r.kept] + tail;
      assert r.kept in out;
      forall x | x in pool
        ensures x in out || exists y | y in out :: !below(BoxOf(y), BoxOf(x))
      {
        if x != r.kept && x in r.rest && x !in tail {
          var y :| y in tail && !below(BoxOf(y), BoxOf(x));
          assert y in out;
        }
      }
    }
  }

  lemma ConsOrdered(h: Recognition, tail: seq<Recognition>)
    requires forall y | y in tail :: y.confidence <= h.confidence
    requires forall i, j | 0 <= i < j < |tail| :: tail[i].confidence >= tail[j].confidence
    ensures var out := [h] + tail;
      forall i, j | 0 <= i < j < |out| :: out[i].confidence >= out[j].confidence
  {
    var out := [h] + tail;
    forall i, j | 0 <= i < j < |out|
      ensures out[i].confidence >= out[j].confidence
    {
      assert out[j] == tail[j - 1];
      if i > 0 {
        assert out[i] == tail[i - 1];
      }
    }
  }

  lemma ConsSeparated(h: Recognition, tail: seq<Recognition>, below: OverlapTest)
    requires h.location.Some? && HasLocations(tail)
    requires forall y | y in tail :: below(BoxOf(h), BoxOf(y))
    requires forall i, j | 0 <= i < j < |tail| :: below(BoxOf(tail[i]), BoxOf(tail[j]))
    ensures HasLocations([h] + tail)
    ensures var out := [h] + tail;
      forall i, j | 0 <= i < j < |out| :: below(BoxOf(out[i]), BoxOf(out[j]))
  {
    var out := [h] + tail;
    forall i, j | 0 <= i < j < |out|
      ensures below(BoxOf(out[i]), BoxOf(out[j]))
    {
      assert out[j] == tail[j - 1];
      if i > 0 {
        assert out[i] == tail[i - 1];
      }
    }
  }

  /** Suppression over classes 0..k-1 keeps each detection at most as often as the input holds it. */
  lemma {:induction false} NmsUpToMultiset(list: seq<Recognition>, k: nat, below: OverlapTest)
    requires HasLocations(list)
    ensures multiset(NmsUpTo(list, k, below)) <= multiset(Filter(list, ClassBelow(k)))
    decreases k
  {
    if k > 0 {
      NmsUpToMultiset(list, k - 1, below);
      NmsUpToUnfold(list, k, below);
      NmsClassMultiset(Filter(list, OfClass(k - 1)), below);
      ClassBelowSplit(list, k);
      ConcatWithin(NmsUpTo(list, k, below), NmsUpTo(list, k - 1, below), NmsClass(Filter(list, OfClass(k - 1)), below),
                   Filter(list, ClassBelow(k - 1)), Filter(list, OfClass(k - 1)), Filter(list, ClassBelow(k)));
    }
  }

  /** The detections of classes below k are those below k-1 together with those of class k-1. */
  lemma ClassBelowSplit(list: seq<Recognition>, k: nat)
    requires k > 0
    ensures multiset(Filter(list, ClassBelow(k))) ==
            multiset(Filter(list, ClassBelow(k - 1))) + multiset(Filter(list, OfClass(k - 1)))
  {
    FilterSplit(list, ClassBelow(k), ClassBelow(k - 1), OfClass(k - 1));
  }

  lemma NmsUpToUnfold(list: seq<Recognition>, k: nat, below: OverlapTest)
    requires HasLocations(list) && k > 0
    ensures HasLocations(Filter(list, OfClass(k - 1)))
    ensures NmsUpTo(list, k, below) == NmsUpTo(list, k - 1, below) + NmsClass(Filter(list, OfClass(k - 1)), below)
  {
    FilterKeepsLocations(list, OfClass(k - 1));
  }

  lemma ConcatWithin(out: seq<Recognition>, front: seq<Recognition>, back: seq<Recognition>,
                     frontFrom: seq<Recognition>, backFrom: seq<Recognition>, from: seq<Recognition>)
    requires out == front + back
    requires multiset(front) <= multiset(frontFrom) && multiset(back) <= multiset(backFrom)
    requires multiset(from) == multiset(frontFrom) + multiset(backFrom)
    ensures multiset(out) <= multiset(from)
  {
    assert multiset(out) == multiset(front) + multiset(back);
  }

  /** Suppression over classes 0..k-1 keeps only input detections of those classes. */
  lemma {:induction false} NmsUpToMembers(list: seq<Recognition>, k: nat, below: OverlapTest)
    requires HasLocations(list)
    ensures forall r | r in NmsUpTo(list, k, below) :: r in list && 0 <= r.detectedClass < k
    decreases k
  {
    if k > 0 {
      var pool := Filter(list, OfClass(k - 1));
      FilterKeepsLocations(list, OfClass(k - 1));
      var front := NmsUpTo(list, k - 1, below);
      var back := NmsClass(pool, below);
      assert NmsUpTo(list, k, below) == front + back;
      assert forall r | r in front :: r in list && 0 <= r.detectedClass < k - 1 by {
        NmsUpToMembers(list, k - 1, below);
      }
      assert forall r | r in back :: r in list && r.detectedClass == k - 1 by {
        NmsClassMembers(pool, below);
        FilterMembers(list, OfClass(k - 1));
      }
    }
  }

  /**
   * The result is grouped by class in ascending order; within a class,
   * confidence does not increase and every earlier box passes the test
   * against every later one.
   */
  lemma {:induction false} NmsUpToOrdered(list: seq<Recognition>, k: nat, below: OverlapTest)
    requires HasLocations(list)
    ensures HasLocations(NmsUpTo(list, k, below))
    ensures var out := NmsUpTo(list, k, below);
      forall i, j | 0 <= i < j < |out| ::
        out[i].detectedClass <= out[j].detectedClass &&
        (out[i].detectedClass == out[j].detectedClass ==>
           out[i].confidence >= out[j].confidence && below(BoxOf(out[i]), BoxOf(out[j])))
    decreases k
  {
    if k > 0 {
      NmsUpToOrdered(list, k - 1, below);
      NmsUpToMembers(list, k - 1, below);
      NmsUpToUnfold(list, k, below);
      NmsClassOfClass(list, k, below);
      NmsClassOrdered(Filter(list, OfClass(k - 1)), below);
      NmsClassSeparated(Filter(list, OfClass(k - 1)), below);
      GroupsConcatenate(NmsUpTo(list, k, below), NmsUpTo(list, k - 1, below),
                        NmsClass(Filter(list, OfClass(k - 1)), below), k - 1, below);
    }
  }

  /** Suppression of class k-1's queue keeps only detections of class k-1. */
  lemma NmsClassOfClass(list: seq<Recognition>, k: nat, below: OverlapTest)
    requires HasLocations(list) && k > 0
    ensures HasLocations(Filter(list, OfClass(k - 1)))
    ensures forall r | r in NmsClass(Filter(list, OfClass(k - 1)), below) :: r.detectedClass == k - 1
  {
    FilterKeepsLocations(list, OfClass(k - 1));
    NmsClassMembers(Filter(list, OfClass(k - 1)), below);
    FilterMembers(list, OfClass(k - 1));
  }

  /** Class k-1's queue holds every detection of class k-1. */
  lemma ClassQueued(list: seq<Recognition>, k: nat)
    requires k > 0
    ensures forall x | x in list && x.detectedClass == k - 1 :: x in Filter(list, OfClass(k - 1))
  {
    FilterMembers(list, OfClass(k - 1));
  }

  lemma GroupsConcatenate(out: seq<Recognition>, front: seq<Recognition>, back: seq<Recognition>, c: int, below: OverlapTest)
    requires out == front + back
    requires HasLocations(front) && HasLocations(back)
    requires forall r | r in front :: r.detectedClass < c
    requires forall r | r in back :: r.detectedClass == c
    requires forall i, j | 0 <= i < j < |front| ::
        front[i].detectedClass <= front[j].detectedClass &&
        (front[i].detectedClass == front[j].detectedClass ==>
           front[i].confidence >= front[j].confidence && below(BoxOf(front[i]), BoxOf(front[j])))
    requires forall i, j | 0 <= i < j < |back| :: back[i].confidence >= back[j].confidence
    requires forall i, j | 0 <= i < j < |back| :: below(BoxOf(back[i]), BoxOf(back[j]))
    ensures HasLocations(out)
    ensures forall i, j | 0 <= i < j < |out| ::
        out[i].detectedClass <= out[j].detectedClass &&
        (out[i].detectedClass == out[j].detectedClass ==>
           out[i].confidence >= out[j].confidence && below(BoxOf(out[i]), BoxOf(out[j])))
  {
    forall i, j | 0 <= i < j < |out|
      ensures out[i].detectedClass <= out[j].detectedClass &&
        (out[i].detectedClass == out[j].detectedClass ==>
           out[i].confidence >= out[j].confidence && below(BoxOf(out[i]), BoxOf(out[j])))
    {
      if j < |front| {
        assert out[i] == front[i] && out[j] == front[j];
      } else if i < |front| {
        assert out[i] == front[i] && out[i] in front;
        assert out[j] == back[j - |front|] && out[j] in back;
      } else {
        assert out[i] == back[i - |front|] && out[j] == back[j - |front|];
      }
    }
  }

  /**
   * Every detection of classes 0..k-1 is kept, or fails the test beside a
   * kept detection of its own class.
   */
  lemma {:induction false} NmsUpToCovers(list: seq<Recognition>, k: nat, below: OverlapTest)
    requires HasLocations(list)
    ensures HasLocations(NmsUpTo(list, k, below))
    ensures var out := NmsUpTo(list, k, below);
      forall x | x in list && 0 <= x.detectedClass < k ::
        x in out ||
        exists y | y in out :: y.detectedClass == x.detectedClass && !below(BoxOf(y), BoxOf(x))
    decreases k
  {
    if k > 0 {
      NmsUpToCovers(list, k - 1, below);
      NmsUpToUnfold(list, k, below);
      NmsClassOfClass(list, k, below);
      NmsClassCovers(Filter(list, OfClass(k - 1)), below);
      ClassQueued(list, k);
      CoversConcatenate(NmsUpTo(list, k, below), list, NmsUpTo(list, k - 1, below),
                        NmsClass(Filter(list, OfClass(k - 1)), below), k, below);
    }
  }

  lemma CoversConcatenate(out: seq<Recognition>, list: seq<Recognition>, front: seq<Recognition>, back: seq<Recognition>, k: nat, below: OverlapTest)
    requires out == front + back
    requires k > 0 && HasLocations(list) && HasLocations(front) && HasLocations(back)
    requires forall x | x in list && 0 <= x.detectedClass < k - 1 ::
        x in front ||
        exists y | y in front :: y.detectedClass == x.detectedClass && !below(BoxOf(y), BoxOf(x))
    requires forall r | r in back :: r.detectedClass == k - 1
    requires forall x | x in list && x.detectedClass == k - 1 ::
        x in back || exists y | y in back :: !below(BoxOf(y), BoxOf(x))
    ensures HasLocations(out)
    ensures forall x | x in list && 0 <= x.detectedClass < k ::
        x in out ||
        exists y | y in out :: y.detectedClass == x.detectedClass && !below(BoxOf(y), BoxOf(x))
  {
    forall x | x in list && 0 <= x.detectedClass < k
      ensures x in out ||
        exists y | y in out :: y.detectedClass == x.detectedClass && !below(BoxOf(y), BoxOf(x))
    {
      if x.detectedClass < k - 1 {
        if x !in front {
          var y :| y in front && y.detectedClass == x.detectedClass && !below(BoxOf(y), BoxOf(x));
          assert y in out;
        }
      } else if x !in back {
        var y :| y in back && !below(BoxOf(y), BoxOf(x));
        assert y in out;
      }
    }
  }

  /**
   * What nms guarantees, with its own test: a sub-multiset of the input
   * holding only classes below the label count, no longer than the input,
   * grouped by class; within a class, confidence is non-increasing and any
   * two kept boxes have IoU below 0.25 (in both orders); and every input
   * detection of a valid class is kept or has IoU of at least 0.25 (or an
   * undefined IoU) with a kept detection of its class.
   */
  lemma NmsProperties(list: seq<Recognition>, numLabels: nat)
    requires HasLocations(list)
    ensures var out := NmsUpTo(list, numLabels, IouTest());
      HasLocations(out) &&
      multiset(out) <= multiset(list) &&
      |out| <= |list| &&
      (forall r | r in out :: 0 <= r.detectedClass < numLabels) &&
      (forall i, j | 0 <= i < j < |out| ::
         out[i].detectedClass <= out[j].detectedClass &&
         (out[i].detectedClass == out[j].detectedClass ==>
            out[i].confidence >= out[j].confidence &&
            IouBelow(BoxOf(out[i]), BoxOf(out[j]), NmsThresh) &&
            IouBelow(BoxOf(out[j]), BoxOf(out[i]), NmsThresh))) &&
      (forall x | x in list && 0 <= x.detectedClass < numLabels ::
         x in out ||
         exists y | y in out :: y.detectedClass == x.detectedClass && !IouBelow(BoxOf(y), BoxOf(x), NmsThresh))
  {
    var below := IouTest();
    var out := NmsUpTo(list, numLabels, below);
    NmsUpToMultiset(list, numLabels, below);
    NmsUpToMembers(list, numLabels, below);
    NmsUpToOrdered(list, numLabels, below);
    NmsUpToCovers(list, numLabels, below);
    FilterMultiset(list, ClassBelow(numLabels));
    assert |multiset(out)| <= |multiset(list)| by {
      SubMultisetSize(multiset(out), multiset(list));
    }
    forall i, j | 0 <= i < j < |out| && out[i].detectedClass == out[j].detectedClass
      ensures IouBelow(BoxOf(out[j]), BoxOf(out[i]), NmsThresh)
    {
      IouSymmetric(BoxOf(out[i]), BoxOf(out[j]));
    }
  }

  lemma SubMultisetSize(a: multiset<Recognition>, b: multiset<Recognition>)
    requires a <= b
    ensures |a| <= |b|
  {
    assert b == a + (b - a);
  }
}
