/**
 * Class-agnostic greedy non-maximum suppression, as torchvision.ops.nms
 * documents it: visit the candidates by decreasing score, keep the best one
 * left, drop every remaining candidate whose overlap with it is greater than
 * the threshold, repeat. Candidates are named by their index into `cands`;
 * the overlap measure `iou` is a parameter (the ensemble passes
 * Detections.IoU).
 */
module Nms {
  import opened Detections

  /** Every index in `xs` names a candidate. */
  predicate InRange(cands: seq<Row>, xs: seq<nat>)
  {
    forall t :: 0 <= t < |xs| ==> xs[t] < |cands|
  }

  predicate Distinct(xs: seq<nat>)
  {
    forall a, b :: 0 <= a < b < |xs| ==> xs[a] != xs[b]
  }

  /** Scores do not increase along `xs`. */
  predicate ScoreSorted(cands: seq<Row>, xs: seq<nat>)
    requires InRange(cands, xs)
  {
    forall a, b :: 0 <= a < b < |xs| ==> cands[xs[a]].score >= cands[xs[b]].score
  }

  /**
   * An order in which the library's descending sort may visit the
   * candidates: every index once, scores non-increasing. How ties are broken
   * is left open.
   */
  predicate IsScoreOrder(cands: seq<Row>, order: seq<nat>)
  {
    && |order| == |cands|
    && InRange(cands, order)
    && Distinct(order)
    && (forall i :: 0 <= i < |cands| ==> i in order)
    && ScoreSorted(cands, order)
  }

  /** No candidate of `keep` overlaps a later one by more than `thr`. */
  predicate Apart(cands: seq<Row>, keep: seq<nat>, thr: real, iou: (Row, Row) -> real)
    requires InRange(cands, keep)
  {
    forall a, b :: 0 <= a < b < |keep| ==> iou(cands[keep[a]], cands[keep[b]]) <= thr
  }

  /** Some candidate of `keep`, scoring at least as high as `x`, overlaps `x` by more than `thr`. */
  predicate Covered(cands: seq<Row>, keep: seq<nat>, x: nat, thr: real, iou: (Row, Row) -> real)
    requires InRange(cands, keep) && x < |cands|
  {
    exists t :: 0 <= t < |keep| && iou(cands[keep[t]], cands[x]) > thr && cands[keep[t]].score >= cands[x].score
  }

  /** Candidate `x` is suppressed by the kept candidate `top`. */
  predicate Suppresses(cands: seq<Row>, top: nat, x: nat, thr: real, iou: (Row, Row) -> real)
    requires top < |cands| && x < |cands|
  {
    iou(cands[top], cands[x]) > thr
  }

  /** The candidates of `xs` that survive `top`, in their order in `xs`. */
  function Survivors(cands: seq<Row>, top: nat, xs: seq<nat>, thr: real, iou: (Row, Row) -> real): (r: seq<nat>)
    requires top < |cands| && InRange(cands, xs)
    ensures |r| <= |xs| && InRange(cands, r)
    decreases |xs|
  {
    if xs == [] then []
    else
      var last := xs[|xs| - 1];
      Survivors(cands, top, xs[..|xs| - 1], thr, iou)
        + (if Suppresses(cands, top, last, thr, iou) then [] else [last])
  }

  /** A candidate survives exactly when it is in `xs` and `top` does not suppress it. */
  lemma {:induction false} SurvivorsMembers(cands: seq<Row>, top: nat, xs: seq<nat>, thr: real, iou: (Row, Row) -> real)
    requires top < |cands| && InRange(cands, xs)
    ensures forall x :: x in Survivors(cands, top, xs, thr, iou) <==> x in xs && !Suppresses(cands, top, x, thr, iou)
    decreases |xs|
  {
    if xs != [] {
      var init := xs[..|xs| - 1];
      SurvivorsMembers(cands, top, init, thr, iou);
      assert xs == init + [xs[|xs| - 1]];
    }
  }

  /** Survivors of a list extended by one more candidate. */
  lemma SurvivorsSnoc(cands: seq<Row>, top: nat, xs: seq<nat>, x: nat, thr: real, iou: (Row, Row) -> real)
    requires top < |cands| && InRange(cands, xs) && x < |cands|
    ensures Survivors(cands, top, xs + [x], thr, iou)
      == Survivors(cands, top, xs, thr, iou) + (if iou(cands[top], cands[x]) <= thr then [x] else [])
  {
    assert (xs + [x])[..|xs|] == xs;
  }

  /** The indices greedy suppression keeps when it visits `rest` in order. */
  function GreedyKeep(cands: seq<Row>, rest: seq<nat>, thr: real, iou: (Row, Row) -> real): (keep: seq<nat>)
    requires InRange(cands, rest)
    ensures |keep| <= |rest| && InRange(cands, keep)
    ensures forall x :: x in keep ==> x in rest
    ensures rest != [] ==> |keep| > 0 && keep[0] == rest[0]
    decreases |rest|
  {
    if rest == [] then []
    else
      SurvivorsMembers(cands, rest[0], rest[1..], thr, iou);
      [rest[0]] + GreedyKeep(cands, Survivors(cands, rest[0], rest[1..], thr, iou), thr, iou)
  }

  lemma {:induction false} SurvivorsDistinct(cands: seq<Row>, top: nat, xs: seq<nat>, thr: real, iou: (Row, Row) -> real)
    requires top < |cands| && InRange(cands, xs) && Distinct(xs)
    ensures Distinct(Survivors(cands, top, xs, thr, iou))
    decreases |xs|
  {
    if xs != [] {
      var init := xs[..|xs| - 1];
      assert Distinct(init);
      SurvivorsDistinct(cands, top, init, thr, iou);
      SurvivorsMembers(cands, top, init, thr, iou);
      assert xs[|xs| - 1] !in init;
    }
  }

  lemma {:induction false} SurvivorsSorted(cands: seq<Row>, top: nat, xs: seq<nat>, thr: real, iou: (Row, Row) -> real)
    requires top < |cands| && InRange(cands, xs) && ScoreSorted(cands, xs)
    ensures ScoreSorted(cands, Survivors(cands, top, xs, thr, iou))
    decreases |xs|
  {
    if xs != [] {
      var init := xs[..|xs| - 1];
      var last := xs[|xs| - 1];
      assert ScoreSorted(cands, init);
      SurvivorsSorted(cands, top, init, thr, iou);
      SurvivorsMembers(cands, top, init, thr, iou);
      var s := Survivors(cands, top, init, thr, iou);
      forall x | x in s
        ensures cands[x].score >= cands[last].score
      {
        var a :| 0 <= a < |init| && init[a] == x;
        assert xs[a] == x;
      }
    }
  }

  /** A list without repeats keeps none twice. */
  lemma {:induction false} GreedyDistinct(cands: seq<Row>, rest: seq<nat>, thr: real, iou: (Row, Row) -> real)
    requires InRange(cands, rest) && Distinct(rest)
    ensures Distinct(GreedyKeep(cands, rest, thr, iou))
    decreases |rest|
  {
    if rest != [] {
      var s := Survivors(cands, rest[0], rest[1..], thr, iou);
      SurvivorsDistinct(cands, rest[0], rest[1..], thr, iou);
      SurvivorsMembers(cands, rest[0], rest[1..], thr, iou);
      GreedyDistinct(cands, s, thr, iou);
      assert rest[0] !in rest[1..];
      assert rest[0] !in GreedyKeep(cands, s, thr, iou);
    }
  }

  /** Kept candidates come out in the visiting order, so by non-increasing score. */
  lemma {:induction false} GreedySorted(cands: seq<Row>, rest: seq<nat>, thr: real, iou: (Row, Row) -> real)
    requires InRange(cands, rest) && ScoreSorted(cands, rest)
    ensures ScoreSorted(cands, GreedyKeep(cands, rest, thr, iou))
    decreases |rest|
  {
    if rest != [] {
      var tail := rest[1..];
      assert ScoreSorted(cands, tail);
      var s := Survivors(cands, rest[0], tail, thr, iou);
      SurvivorsSorted(cands, rest[0], tail, thr, iou);
      SurvivorsMembers(cands, rest[0], tail, thr, iou);
      GreedySorted(cands, s, thr, iou);
      forall x | x in GreedyKeep(cands, s, thr, iou)
        ensures cands[rest[0]].score >= cands[x].score
      {
        var b :| 0 <= b < |tail| && tail[b] == x;
        assert rest[b + 1] == x;
      }
    }
  }

  /** No kept candidate overlaps a later kept candidate by more than `thr`. */
  lemma {:induction false} GreedyApart(cands: seq<Row>, rest: seq<nat>, thr: real, iou: (Row, Row) -> real)
    requires InRange(cands, rest)
    ensures Apart(cands, GreedyKeep(cands, rest, thr, iou), thr, iou)
    decreases |rest|
  {
    if rest != [] {
      var s := Survivors(cands, rest[0], rest[1..], thr, iou);
      SurvivorsMembers(cands, rest[0], rest[1..], thr, iou);
      GreedyApart(cands, s, thr, iou);
      var keep := GreedyKeep(cands, rest, thr, iou);
      var tail := GreedyKeep(cands, s, thr, iou);
      assert keep == [rest[0]] + tail;
      forall a, b | 0 <= a < b < |keep|
        ensures iou(cands[keep[a]], cands[keep[b]]) <= thr
      {
        assert keep[b] == tail[b - 1];
        if a == 0 {
          assert keep[0] == rest[0];
          assert tail[b - 1] in tail;
          assert keep[b] in s;
          assert !Suppresses(cands, rest[0], keep[b], thr, iou);
        } else {
          assert keep[a] == tail[a - 1];
          assert Apart(cands, tail, thr, iou);
          assert iou(cands[tail[a - 1]], cands[tail[b - 1]]) <= thr;
        }
      }
    }
  }

  /**
   * Every visited candidate that is not kept overlaps, by more than `thr`,
   * a kept candidate of at least its score.
   */
  lemma {:induction false} GreedyCovers(cands: seq<Row>, rest: seq<nat>, thr: real, iou: (Row, Row) -> real, x: nat)
    requires InRange(cands, rest) && ScoreSorted(cands, rest)
    requires x in rest && x !in GreedyKeep(cands, rest, thr, iou)
    ensures Covered(cands, GreedyKeep(cands, rest, thr, iou), x, thr, iou)
    decreases |rest|
  {
    var keep := GreedyKeep(cands, rest, thr, iou);
    var tail := rest[1..];
    var s := Survivors(cands, rest[0], tail, thr, iou);
    assert keep == [rest[0]] + GreedyKeep(cands, s, thr, iou);
    assert x != rest[0];
    var b :| 0 <= b < |rest| && rest[b] == x;
    assert b > 0 && x in tail;
    if Suppresses(cands, rest[0], x, thr, iou) {
      assert cands[rest[0]].score >= cands[rest[b]].score;
      assert keep[0] == rest[0];
      assert Covered(cands, keep, x, thr, iou);
    } else {
      assert ScoreSorted(cands, tail);
      SurvivorsSorted(cands, rest[0], tail, thr, iou);
      SurvivorsMembers(cands, rest[0], tail, thr, iou);
      GreedyCovers(cands, s, thr, iou, x);
      var kept := GreedyKeep(cands, s, thr, iou);
      var t :| 0 <= t < |kept| && iou(cands[kept[t]], cands[x]) > thr
        && cands[kept[t]].score >= cands[x].score;
      assert keep[t + 1] == kept[t];
      assert Covered(cands, keep, x, thr, iou);
    }
  }

  /** Every pair of candidates overlaps the same under `iou` in `cands` and in `cands'`. */
  predicate SameOverlaps(cands: seq<Row>, cands': seq<Row>, iou: (Row, Row) -> real)
  {
    |cands| == |cands'| &&
    forall i, j :: 0 <= i < |cands| && 0 <= j < |cands| ==> iou(cands[i], cands[j]) == iou(cands'[i], cands'[j])
  }

  lemma {:induction false} SurvivorsSameOverlaps(cands: seq<Row>, cands': seq<Row>, top: nat, xs: seq<nat>, thr: real, iou: (Row, Row) -> real)
    requires SameOverlaps(cands, cands', iou)
    requires top < |cands| && InRange(cands, xs)
    ensures Survivors(cands, top, xs, thr, iou) == Survivors(cands', top, xs, thr, iou)
    decreases |xs|
  {
    if xs != [] {
      SurvivorsSameOverlaps(cands, cands', top, xs[..|xs| - 1], thr, iou);
    }
  }

  /**
   * The kept indices depend on the visiting order and the pairwise overlaps
   * only: nothing else about the rows (their class column in particular)
   * takes part in suppression.
   */
  lemma {:induction false} GreedySameOverlaps(cands: seq<Row>, cands': seq<Row>, rest: seq<nat>, thr: real, iou: (Row, Row) -> real)
    requires SameOverlaps(cands, cands', iou)
    requires InRange(cands, rest)
    ensures GreedyKeep(cands, rest, thr, iou) == GreedyKeep(cands', rest, thr, iou)
    decreases |rest|
  {
    if rest != [] {
      SurvivorsSameOverlaps(cands, cands', rest[0], rest[1..], thr, iou);
      GreedySameOverlaps(cands, cands', Survivors(cands, rest[0], rest[1..], thr, iou), thr, iou);
    }
  }

  /** One round of suppression: the candidates of `xs` that `top` does not suppress. */
  method DropOverlapping(cands: seq<Row>, top: nat, xs: seq<nat>, thr: real, iou: (Row, Row) -> real)
    returns (survivors: seq<nat>)
    requires top < |cands| && InRange(cands, xs)
    ensures survivors == Survivors(cands, top, xs, thr, iou)
  {
    survivors := [];
    var t := 0;
    while t < |xs|
      invariant 0 <= t <= |xs|
      invariant survivors == Survivors(cands, top, xs[..t], thr, iou)
    {
      var x := xs[t];
      assert xs[..t + 1] == xs[..t] + [x];
      SurvivorsSnoc(cands, top, xs[..t], x, thr, iou);
      if iou(cands[top], cands[x]) <= thr {
        survivors := survivors + [x];
      }
      t := t + 1;
    }
    assert xs[..t] == xs;
  }

  /** Everything greedy suppression promises about the indices it keeps from a score order. */
  lemma GreedyFromScoreOrder(cands: seq<Row>, order: seq<nat>, thr: real, iou: (Row, Row) -> real)
    requires IsScoreOrder(cands, order)
    ensures var keep := GreedyKeep(cands, order, thr, iou);
      && Distinct(keep)
      && ScoreSorted(cands, keep)
      && Apart(cands, keep, thr, iou)
      && (forall x :: 0 <= x < |cands| && x !in keep ==> Covered(cands, keep, x, thr, iou))
      && (|cands| > 0 ==> |keep| > 0 && forall x :: 0 <= x < |cands| ==> cands[keep[0]].score >= cands[x].score)
  {
    var keep := GreedyKeep(cands, order, thr, iou);
    GreedyDistinct(cands, order, thr, iou);
    GreedySorted(cands, order, thr, iou);
    GreedyApart(cands, order, thr, iou);
    forall x | 0 <= x < |cands| && x !in keep
      ensures Covered(cands, keep, x, thr, iou)
    {
      GreedyCovers(cands, order, thr, iou, x);
    }
    if |cands| > 0 {
      forall x | 0 <= x < |cands|
        ensures cands[keep[0]].score >= cands[x].score
      {
        assert x in order;
        var b :| 0 <= b < |order| && order[b] == x;
        if b > 0 {
          assert cands[order[0]].score >= cands[order[b]].score;
        }
      }
    }
  }

  /**
   * Two candidates, the first scoring higher: the second is dropped exactly
   * when its overlap with the first is greater than the threshold, so an
   * overlap equal to the threshold keeps both.
   */
  lemma TwoCandidates(cands: seq<Row>, a: nat, b: nat, thr: real, iou: (Row, Row) -> real)
    requires a < |cands| && b < |cands|
    ensures GreedyKeep(cands, [a, b], thr, iou) == if iou(cands[a], cands[b]) > thr then [a] else [a, b]
  {
    assert [a, b][1..] == [b];
    assert [b][..0] == [];
  }

  /** Two candidates, the first scoring at least as high, are visited first to second. */
  lemma TwoInOrder(cands: seq<Row>)
    requires |cands| == 2 && cands[0].score >= cands[1].score
    ensures IsScoreOrder(cands, [0, 1])
  {
    forall i | 0 <= i < |cands|
      ensures i in [0, 1]
    {
      assert [0, 1][i] == i;
    }
  }

  /** No candidates, nothing kept; a single candidate is always kept. */
  lemma FewCandidates(cands: seq<Row>, a: nat, thr: real, iou: (Row, Row) -> real)
    requires a < |cands|
    ensures GreedyKeep(cands, [], thr, iou) == []
    ensures GreedyKeep(cands, [a], thr, iou) == [a]
  {
  }

  /**
   * The suppression loop. `order` stands for the library's sort of the
   * candidates by descending score; `rest` holds the candidates neither kept
   * nor suppressed yet, in that order.
   */
  method NonMaxSuppression(cands: seq<Row>, order: seq<nat>, thr: real, iou: (Row, Row) -> real) returns (keep: seq<nat>)
    requires IsScoreOrder(cands, order)
    ensures keep == GreedyKeep(cands, order, thr, iou)
    ensures InRange(cands, keep) && Distinct(keep) && ScoreSorted(cands, keep)
    ensures Apart(cands, keep, thr, iou)
    ensures forall x :: 0 <= x < |cands| && x !in keep ==> Covered(cands, keep, x, thr, iou)
    ensures |cands| > 0 ==> |keep| > 0 && forall x :: 0 <= x < |cands| ==> cands[keep[0]].score >= cands[x].score
  {
    keep := [];
    var rest := order;
    while rest != []
      invariant InRange(cands, rest)
      invariant keep + GreedyKeep(cands, rest, thr, iou) == GreedyKeep(cands, order, thr, iou)
      decreases |rest|
    {
      var top := rest[0];
      ghost var before := keep;
      keep := keep + [top];
      var survivors := DropOverlapping(cands, top, rest[1..], thr, iou);
      assert GreedyKeep(cands, rest, thr, iou) == [top] + GreedyKeep(cands, survivors, thr, iou);
      assert keep + GreedyKeep(cands, survivors, thr, iou) == before + GreedyKeep(cands, rest, thr, iou);
      rest := survivors;
    }
    assert keep == GreedyKeep(cands, order, thr, iou);
    GreedyFromScoreOrder(cands, order, thr, iou);
  }

}
