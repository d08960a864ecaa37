/**
 * The ensemble step of ComboDetector.infer: every detector's rows are cloned,
 * their class column is rewritten from the detector's own class index to the
 * shared vocabulary's id (local index -> name -> global id), the rows of all
 * detectors are concatenated in detector order, and class-agnostic greedy
 * suppression picks the rows that are returned.
 */
module ComboDetect {
  import opened Results
  import opened Detections
  import Nms

  /**
   * What one detector hands over after its forward pass (already filtered by
   * the confidence threshold): its index -> name table and its result rows,
   * a table the merge must not change.
   */
  datatype Prediction = Prediction(names: map<int, string>, origBoxes: array<Row>)

  /** The value of a prediction at one moment. */
  datatype Output = Output(names: map<int, string>, rows: seq<Row>)

  /** The two dictionary lookups that can raise KeyError, with the row that raised it. */
  datatype LookupError =
    | UnknownIndex(detector: nat, row: nat, index: int)
    | UnknownName(detector: nat, row: nat, name: string)

  function Snapshot(results: seq<Prediction>): (dets: seq<Output>)
    reads set d | 0 <= d < |results| :: results[d].origBoxes
    ensures |dets| == |results|
    ensures forall d :: 0 <= d < |results| ==>
      dets[d].names == results[d].names && dets[d].rows == results[d].origBoxes[..]
  {
    seq(|results|, d requires 0 <= d < |results|
                     reads if 0 <= d < |results| then {results[d].origBoxes} else {} =>
      Output(results[d].names, results[d].origBoxes[..]))
  }

  /** Python's int() on a float: truncation toward zero. */
  function Trunc(x: real): (k: int)
    ensures 0.0 <= x ==> k as real <= x < k as real + 1.0
    ensures x < 0.0 ==> k as real - 1.0 < x <= k as real
  {
    if x >= 0.0 then x.Floor else -((-x).Floor)
  }

  /** Both lookups of the row's class succeed. */
  predicate Resolvable(names: map<int, string>, unit2idx: map<string, int>, row: Row)
  {
    Trunc(row.cls) in names && names[Trunc(row.cls)] in unit2idx
  }

  /** A class column holding an id of the shared vocabulary. */
  predicate InVocabulary(unit2idx: map<string, int>, c: real)
  {
    c == c.Floor as real && c.Floor in unit2idx.Values
  }

  /** The shared-vocabulary id of the row's class. */
  function GlobalId(names: map<int, string>, unit2idx: map<string, int>, row: Row): (id: int)
    requires Resolvable(names, unit2idx, row)
    ensures id in unit2idx.Values
  {
    unit2idx[names[Trunc(row.cls)]]
  }

  /** Line 39 for one row: the lookups, then the class column overwritten. */
  function Relabel(d: nat, i: nat, names: map<int, string>, unit2idx: map<string, int>, row: Row)
    : (r: Result<Row, LookupError>)
    ensures r.Ok? <==> Resolvable(names, unit2idx, row)
    ensures r.Ok? ==> r.value == row.(cls := GlobalId(names, unit2idx, row) as real)
    ensures r.Failure? ==> r.error.detector == d && r.error.row == i
    ensures r.Failure? ==> (r.error.UnknownIndex? <==> Trunc(row.cls) !in names)
    ensures r.Failure? && r.error.UnknownIndex? ==> r.error.index == Trunc(row.cls)
    ensures r.Failure? && r.error.UnknownName? ==> r.error.name == names[Trunc(row.cls)]
  {
    var k := Trunc(row.cls);
    if k !in names then Failure(UnknownIndex(d, i, k))
    else if names[k] !in unit2idx then Failure(UnknownName(d, i, names[k]))
    else Ok(row.(cls := unit2idx[names[k]] as real))
  }

  /** The rows of detector `d`, relabelled in order; the first failing lookup is reported. */
  function RelabelAll(d: nat, names: map<int, string>, unit2idx: map<string, int>, rows: seq<Row>)
    : (r: Result<seq<Row>, LookupError>)
    ensures r.Ok? ==> |r.value| == |rows|
    decreases |rows|
  {
    if rows == [] then Ok([])
    else
      match RelabelAll(d, names, unit2idx, rows[..|rows| - 1])
      case Failure(e) => Failure(e)
      case Ok(done) =>
        match Relabel(d, |rows| - 1, names, unit2idx, rows[|rows| - 1])
        case Failure(e) => Failure(e)
        case Ok(row) => Ok(done + [row])
  }

  /** Lines 34-40: the relabelled rows of all detectors, concatenated in detector order. */
  function Merge(dets: seq<Output>, unit2idx: map<string, int>): (r: Result<seq<Row>, LookupError>)
    ensures r.Ok? ==> |r.value| == |Flatten(dets)|
    decreases |dets|
  {
    if dets == [] then Ok([])
    else
      var last := dets[|dets| - 1];
      match Merge(dets[..|dets| - 1], unit2idx)
      case Failure(e) => Failure(e)
      case Ok(done) =>
        match RelabelAll(|dets| - 1, last.names, unit2idx, last.rows)
        case Failure(e) => Failure(e)
        case Ok(more) => Ok(done + more)
  }

  /** The number of rows all detectors report together. */
  function RowCount(dets: seq<Output>): nat
  {
    if dets == [] then 0 else |dets[0].rows| + RowCount(dets[1..])
  }

  /** Counting from the last detector instead of the first gives the same total. */
  lemma {:induction false} RowCountLast(dets: seq<Output>)
    requires dets != []
    ensures RowCount(dets) == RowCount(dets[..|dets| - 1]) + |dets[|dets| - 1].rows|
    decreases |dets|
  {
    if |dets| > 1 {
      RowCountLast(dets[1..]);
      assert dets[1..][..|dets| - 2] == dets[..|dets| - 1][1..];
    }
  }

  /** The detectors' rows as they are, concatenated in detector order. */
  function Flatten(dets: seq<Output>): (r: seq<Row>)
    ensures |r| == RowCount(dets)
    decreases |dets|
  {
    if dets == [] then []
    else
      RowCountLast(dets);
      Flatten(dets[..|dets| - 1]) + dets[|dets| - 1].rows
  }

  /** Where detector `d`'s rows start in the concatenation. */
  function Offset(dets: seq<Output>, d: nat): nat
    requires d <= |dets|
  {
    |Flatten(dets[..d])|
  }

  /** Rows in `keep` order: the effect of `preds[i]` at line 46. */
  function Select(cands: seq<Row>, keep: seq<nat>): (out: seq<Row>)
    requires Nms.InRange(cands, keep)
    ensures |out| == |keep| && forall t :: 0 <= t < |keep| ==> out[t] == cands[keep[t]]
  {
    seq(|keep|, t requires 0 <= t < |keep| => cands[keep[t]])
  }

  /** Two rows agree everywhere except possibly in the class column. */
  predicate SameButClass(a: Row, b: Row)
  {
    a == b.(cls := a.cls)
  }

  // ---------------------------------------------------------------------
  // Properties of the merge

  /**
   * Relabelling a detector's rows fails exactly when some row's lookups fail,
   * at the first such row; otherwise it keeps the rows in order and
   * changes their class column only.
   */
  lemma {:induction false} RelabelAllSpec(d: nat, names: map<int, string>, unit2idx: map<string, int>, rows: seq<Row>)
    ensures var r := RelabelAll(d, names, unit2idx, rows);
      && (r.Ok? <==> forall i :: 0 <= i < |rows| ==> Resolvable(names, unit2idx, rows[i]))
      && (r.Ok? ==>
            && |r.value| == |rows|
            && forall i :: 0 <= i < |rows| ==>
                 Resolvable(names, unit2idx, rows[i]) &&
                 r.value[i] == rows[i].(cls := GlobalId(names, unit2idx, rows[i]) as real))
      && (r.Failure? ==>
            && r.error.detector == d && r.error.row < |rows|
            && !Resolvable(names, unit2idx, rows[r.error.row])
            && forall i :: 0 <= i < r.error.row ==> Resolvable(names, unit2idx, rows[i]))
    decreases |rows|
  {
    if rows != [] {
      var init := rows[..|rows| - 1];
      RelabelAllSpec(d, names, unit2idx, init);
      var r := RelabelAll(d, names, unit2idx, rows);
      var last := |rows| - 1;
      if RelabelAll(d, names, unit2idx, init).Ok? {
        var done := RelabelAll(d, names, unit2idx, init).value;
        if Resolvable(names, unit2idx, rows[last]) {
          assert r.value == done + [rows[last].(cls := GlobalId(names, unit2idx, rows[last]) as real)];
        } else {
          assert r.error.row == last;
        }
      } else {
        assert r == RelabelAll(d, names, unit2idx, init);
        assert !Resolvable(names, unit2idx, init[r.error.row]);
      }
    }
  }

  lemma {:induction false} FlattenPrefix(dets: seq<Output>, d: nat, i: nat)
    requires d < |dets| && i < |dets[d].rows|
    ensures Offset(dets, d) + i < |Flatten(dets)|
    ensures Flatten(dets)[Offset(dets, d) + i] == dets[d].rows[i]
    decreases |dets|
  {
    var init := dets[..|dets| - 1];
    if d < |dets| - 1 {
      assert init[..d] == dets[..d];
      FlattenPrefix(init, d, i);
    } else {
      assert dets[..d] == init;
    }
  }

  /**
   * The merge either fails at a row whose lookups fail, every row before it
   * (in detector order, then row order) resolving, or succeeds exactly when
   * every row resolves; then row i of detector d sits at Offset(d) + i with
   * only its class column rewritten to the global id, and nothing else is
   * in the result.
   */
  lemma {:induction false} MergeSpec(dets: seq<Output>, unit2idx: map<string, int>)
    ensures var r := Merge(dets, unit2idx);
      && (r.Ok? <==> forall d, i :: 0 <= d < |dets| && 0 <= i < |dets[d].rows| ==>
            Resolvable(dets[d].names, unit2idx, dets[d].rows[i]))
      && (r.Ok? ==>
            && |r.value| == |Flatten(dets)|
            && forall k :: 0 <= k < |r.value| ==> SameButClass(r.value[k], Flatten(dets)[k]))
      && (r.Failure? ==> var e := r.error;
            && e.detector < |dets| && e.row < |dets[e.detector].rows|
            && !Resolvable(dets[e.detector].names, unit2idx, dets[e.detector].rows[e.row])
            && (forall d, i :: 0 <= d < e.detector && 0 <= i < |dets[d].rows| ==>
                  Resolvable(dets[d].names, unit2idx, dets[d].rows[i]))
            && (forall i :: 0 <= i < e.row ==>
                  Resolvable(dets[e.detector].names, unit2idx, dets[e.detector].rows[i])))
    decreases |dets|
  {
    MergeRows(dets, unit2idx);
    MergeResolves(dets, unit2idx);
    MergeFailure(dets, unit2idx);
  }

  /** A successful merge resolved every row. */
  lemma {:induction false} MergeResolves(dets: seq<Output>, unit2idx: map<string, int>)
    ensures Merge(dets, unit2idx).Ok? ==>
      forall d, i :: 0 <= d < |dets| && 0 <= i < |dets[d].rows| ==>
        Resolvable(dets[d].names, unit2idx, dets[d].rows[i])
    decreases |dets|
  {
    if dets != [] && Merge(dets, unit2idx).Ok? {
      var n := |dets| - 1;
      MergeResolves(dets[..n], unit2idx);
      RelabelAllSpec(n, dets[n].names, unit2idx, dets[n].rows);
      forall d, i | 0 <= d < |dets| && 0 <= i < |dets[d].rows|
        ensures Resolvable(dets[d].names, unit2idx, dets[d].rows[i])
      {
        if d < n {
          assert dets[d] == dets[..n][d];
        }
      }
    }
  }

  /** A failed merge names the first row, in detector then row order, whose lookups fail. */
  lemma {:induction false} MergeFailure(dets: seq<Output>, unit2idx: map<string, int>)
    ensures var r := Merge(dets, unit2idx);
      r.Failure? ==> var e := r.error;
        && e.detector < |dets| && e.row < |dets[e.detector].rows|
        && !Resolvable(dets[e.detector].names, unit2idx, dets[e.detector].rows[e.row])
        && (forall d, i :: 0 <= d < e.detector && 0 <= i < |dets[d].rows| ==>
              Resolvable(dets[d].names, unit2idx, dets[d].rows[i]))
        && (forall i :: 0 <= i < e.row ==>
              Resolvable(dets[e.detector].names, unit2idx, dets[e.detector].rows[i]))
    decreases |dets|
  {
    if dets != [] && Merge(dets, unit2idx).Failure? {
      var n := |dets| - 1;
      var init := dets[..n];
      if Merge(init, unit2idx).Ok? {
        MergeResolves(init, unit2idx);
        RelabelAllSpec(n, dets[n].names, unit2idx, dets[n].rows);
        var e := Merge(dets, unit2idx).error;
        assert e == RelabelAll(n, dets[n].names, unit2idx, dets[n].rows).error;
        forall d, i | 0 <= d < n && 0 <= i < |dets[d].rows|
          ensures Resolvable(dets[d].names, unit2idx, dets[d].rows[i])
        {
          assert dets[d] == init[d];
        }
      } else {
        MergeFailure(init, unit2idx);
        var e := Merge(init, unit2idx).error;
        assert Merge(dets, unit2idx).error == e;
        assert dets[e.detector] == init[e.detector];
        forall d, i | 0 <= d < e.detector && 0 <= i < |dets[d].rows|
          ensures Resolvable(dets[d].names, unit2idx, dets[d].rows[i])
        {
          assert dets[d] == init[d];
        }
      }
    }
  }

  /** A successful merge has one row per original row, each unchanged but for its class. */
  lemma {:induction false} MergeRows(dets: seq<Output>, unit2idx: map<string, int>)
    ensures var r := Merge(dets, unit2idx);
      r.Ok? ==>
        && |r.value| == |Flatten(dets)|
        && forall k :: 0 <= k < |r.value| ==> SameButClass(r.value[k], Flatten(dets)[k])
    decreases |dets|
  {
    if dets != [] {
      var n := |dets| - 1;
      var init := dets[..n];
      var last := dets[n];
      var r := Merge(dets, unit2idx);
      if r.Ok? {
        MergeRows(init, unit2idx);
        RelabelAllSpec(n, last.names, unit2idx, last.rows);
        var done := Merge(init, unit2idx).value;
        var more := RelabelAll(n, last.names, unit2idx, last.rows).value;
        assert r.value == done + more;
        assert Flatten(dets) == Flatten(init) + last.rows;
        forall k | 0 <= k < |r.value|
          ensures SameButClass(r.value[k], Flatten(dets)[k])
        {
          if k >= |done| {
            assert r.value[k] == more[k - |done|];
          } else {
            assert r.value[k] == done[k];
          }
        }
      }
    }
  }

  /**
   * Line 39, row by row: on success, row i of detector d appears at
   * Offset(d) + i, unchanged except that its class column holds
   * unit2idx[names_d[int(cls)]].
   */
  lemma {:induction false} MergeAt(dets: seq<Output>, unit2idx: map<string, int>, d: nat, i: nat)
    requires Merge(dets, unit2idx).Ok?
    requires d < |dets| && i < |dets[d].rows|
    ensures Resolvable(dets[d].names, unit2idx, dets[d].rows[i])
    ensures Offset(dets, d) + i < |Merge(dets, unit2idx).value|
    ensures Merge(dets, unit2idx).value[Offset(dets, d) + i]
      == dets[d].rows[i].(cls := GlobalId(dets[d].names, unit2idx, dets[d].rows[i]) as real)
    decreases |dets|
  {
    var n := |dets| - 1;
    var init := dets[..n];
    var last := dets[n];
    var done := Merge(init, unit2idx).value;
    var more := RelabelAll(n, last.names, unit2idx, last.rows).value;
    assert Merge(dets, unit2idx).value == done + more;
    if d < n {
      assert init[..d] == dets[..d];
      MergeAt(init, unit2idx, d, i);
    } else {
      RelabelAllSpec(n, last.names, unit2idx, last.rows);
      MergeRows(init, unit2idx);
      assert dets[..d] == init;
    }
  }

  /** When no detector returns a row, the candidates are the empty table and infer returns no rows. */
  lemma MergeNothing(dets: seq<Output>, unit2idx: map<string, int>, thr: real)
    requires forall d :: 0 <= d < |dets| ==> dets[d].rows == []
    ensures Merge(dets, unit2idx) == Ok([])
    ensures Nms.IsScoreOrder(Flatten(dets), []) && InferSpec(dets, unit2idx, thr, []) == Ok([])
  {
    NothingToMerge(dets, unit2idx);
    assert Select([], []) == [];
  }

  lemma {:induction false} NothingToMerge(dets: seq<Output>, unit2idx: map<string, int>)
    requires forall d :: 0 <= d < |dets| ==> dets[d].rows == []
    ensures Flatten(dets) == [] && Merge(dets, unit2idx) == Ok([])
    decreases |dets|
  {
    if dets != [] {
      var n := |dets| - 1;
      NothingToMerge(dets[..n], unit2idx);
      assert dets[n].rows == [];
      assert RelabelAll(n, dets[n].names, unit2idx, dets[n].rows) == Ok([]);
    }
  }

  // ---------------------------------------------------------------------
  // Lemmas used by Infer

  lemma RelabelAllStopsAt(d: nat, names: map<int, string>, unit2idx: map<string, int>, rows: seq<Row>, j: nat)
    requires j <= |rows| && RelabelAll(d, names, unit2idx, rows[..j]).Failure?
    ensures RelabelAll(d, names, unit2idx, rows) == RelabelAll(d, names, unit2idx, rows[..j])
    decreases |rows| - j
  {
    if j < |rows| {
      assert rows[..j + 1][..j] == rows[..j];
      RelabelAllStopsAt(d, names, unit2idx, rows, j + 1);
    } else {
      assert rows[..j] == rows;
    }
  }

  /** One more detector: its relabelled rows are appended, or its lookup error ends the merge. */
  lemma MergeStep(dets: seq<Output>, unit2idx: map<string, int>, d: nat, preds: seq<Row>)
    requires d < |dets| && Merge(dets[..d], unit2idx) == Ok(preds)
    ensures Merge(dets[..d + 1], unit2idx) ==
      match RelabelAll(d, dets[d].names, unit2idx, dets[d].rows)
      case Failure(e) => Failure(e)
      case Ok(more) => Ok(preds + more)
  {
    assert dets[..d + 1][..d] == dets[..d];
  }

  lemma MergeStopsAt(dets: seq<Output>, unit2idx: map<string, int>, j: nat)
    requires j <= |dets| && Merge(dets[..j], unit2idx).Failure?
    ensures Merge(dets, unit2idx) == Merge(dets[..j], unit2idx)
    decreases |dets| - j
  {
    if j < |dets| {
      assert dets[..j + 1][..j] == dets[..j];
      MergeStopsAt(dets, unit2idx, j + 1);
    } else {
      assert dets[..j] == dets;
    }
  }

  /** Suppression over the merged rows visits them in an order that sorts the original rows. */
  lemma MergeKeepsScoreOrder(dets: seq<Output>, unit2idx: map<string, int>, order: seq<nat>)
    requires Merge(dets, unit2idx).Ok? && Nms.IsScoreOrder(Flatten(dets), order)
    ensures Nms.IsScoreOrder(Merge(dets, unit2idx).value, order)
  {
    MergeSpec(dets, unit2idx);
  }

  /** The overlap of two merged rows is that of the original rows. */
  lemma MergeKeepsOverlaps(dets: seq<Output>, unit2idx: map<string, int>)
    requires Merge(dets, unit2idx).Ok?
    ensures Nms.SameOverlaps(Merge(dets, unit2idx).value, Flatten(dets), IoU)
  {
    MergeSpec(dets, unit2idx);
    var c, f := Merge(dets, unit2idx).value, Flatten(dets);
    forall i, j | 0 <= i < |c| && 0 <= j < |c|
      ensures IoU(c[i], c[j]) == IoU(f[i], f[j])
    {
      assert SameButClass(c[i], f[i]) && SameButClass(c[j], f[j]);
      IoUReadsBoxOnly(c[i], c[j], f[i], f[j]);
    }
  }

  // ---------------------------------------------------------------------

  /** What infer returns: the merge's KeyError, or the rows suppression keeps, best first. */
  function InferSpec(dets: seq<Output>, unit2idx: map<string, int>, thr: real, order: seq<nat>)
    : (r: Result<seq<Row>, LookupError>)
    requires Nms.IsScoreOrder(Flatten(dets), order)
    ensures r.Ok? <==> Merge(dets, unit2idx).Ok?
    ensures r.Failure? ==> r.error == Merge(dets, unit2idx).error
    ensures r.Ok? ==> |r.value| <= |Flatten(dets)| && (Flatten(dets) != [] ==> r.value != [])
  {
    match Merge(dets, unit2idx)
    case Failure(e) => Failure(e)
    case Ok(cands) =>
      MergeKeepsScoreOrder(dets, unit2idx, order);
      Ok(Select(cands, Nms.GreedyKeep(cands, order, thr, IoU)))
  }

  /**
   * Suppression is class-agnostic: the rows kept are the ones greedy
   * suppression keeps over the detectors' original rows, before the class
   * column is rewritten.
   */
  lemma InferClassAgnostic(dets: seq<Output>, unit2idx: map<string, int>, thr: real, order: seq<nat>)
    requires Nms.IsScoreOrder(Flatten(dets), order)
    requires Merge(dets, unit2idx).Ok?
    ensures InferSpec(dets, unit2idx, thr, order)
      == Ok(Select(Merge(dets, unit2idx).value, Nms.GreedyKeep(Flatten(dets), order, thr, IoU)))
  {
    MergeKeepsOverlaps(dets, unit2idx);
    Nms.GreedySameOverlaps(Merge(dets, unit2idx).value, Flatten(dets), order, thr, IoU);
  }

  /** Every class column infer returns holds an id of the shared vocabulary. */
  lemma InferVocabulary(dets: seq<Output>, unit2idx: map<string, int>, thr: real, order: seq<nat>)
    requires Nms.IsScoreOrder(Flatten(dets), order)
    requires InferSpec(dets, unit2idx, thr, order).Ok?
    ensures var out := InferSpec(dets, unit2idx, thr, order).value;
      forall t :: 0 <= t < |out| ==> InVocabulary(unit2idx, out[t].cls)
  {
    var cands := Merge(dets, unit2idx).value;
    MergeKeepsScoreOrder(dets, unit2idx, order);
    var keep := Nms.GreedyKeep(cands, order, thr, IoU);
    var out := Select(cands, keep);
    forall t | 0 <= t < |out|
      ensures InVocabulary(unit2idx, out[t].cls)
    {
      MergeInVocabulary(dets, unit2idx, keep[t]);
    }
  }

  /**
   * What suppression promises of the rows `out` it returns for the
   * candidates `cands`, `keep` being their indices: by non-increasing score,
   * no two overlapping by more than the threshold, every dropped candidate
   * overlapping by more than the threshold a returned row that scores at
   * least as high, and the best candidate first.
   */
  predicate Suppressed(cands: seq<Row>, keep: seq<nat>, out: seq<Row>, thr: real)
  {
    && (forall a, b :: 0 <= a < b < |out| ==> out[a].score >= out[b].score)
    && (forall a, b :: 0 <= a < |out| && 0 <= b < |out| && a != b ==> IoU(out[a], out[b]) <= thr)
    && (forall x :: 0 <= x < |cands| && x !in keep ==>
          exists t :: 0 <= t < |out| && IoU(out[t], cands[x]) > thr && out[t].score >= cands[x].score)
    && (|cands| > 0 ==> |out| > 0 && forall x :: 0 <= x < |cands| ==> out[0].score >= cands[x].score)
  }

  /** The rows infer returns are suppressed as the library promises, each candidate at most once. */
  lemma InferSuppression(dets: seq<Output>, unit2idx: map<string, int>, thr: real, order: seq<nat>)
    requires Nms.IsScoreOrder(Flatten(dets), order)
    requires Merge(dets, unit2idx).Ok?
    ensures var cands := Merge(dets, unit2idx).value;
      var keep := Nms.GreedyKeep(cands, order, thr, IoU);
      && InferSpec(dets, unit2idx, thr, order) == Ok(Select(cands, keep))
      && Nms.Distinct(keep)
      && Suppressed(cands, keep, Select(cands, keep), thr)
  {
    var cands := Merge(dets, unit2idx).value;
    MergeKeepsScoreOrder(dets, unit2idx, order);
    Nms.GreedyFromScoreOrder(cands, order, thr, IoU);
    SelectKept(cands, Nms.GreedyKeep(cands, order, thr, IoU), thr);
  }

  /** The rows of a suppression result, read off the indices it keeps. */
  lemma SelectKept(cands: seq<Row>, keep: seq<nat>, thr: real)
    requires Nms.InRange(cands, keep) && Nms.ScoreSorted(cands, keep) && Nms.Apart(cands, keep, thr, IoU)
    requires forall x :: 0 <= x < |cands| && x !in keep ==> Nms.Covered(cands, keep, x, thr, IoU)
    requires |cands| > 0 ==> |keep| > 0 && forall x :: 0 <= x < |cands| ==> cands[keep[0]].score >= cands[x].score
    ensures Suppressed(cands, keep, Select(cands, keep), thr)
  {
    var out := Select(cands, keep);
    forall a, b | 0 <= a < b < |out|
      ensures out[a].score >= out[b].score && IoU(out[a], out[b]) <= thr
    {
      assert out[a] == cands[keep[a]] && out[b] == cands[keep[b]];
    }
    forall a, b | 0 <= a < |out| && 0 <= b < |out| && a != b
      ensures IoU(out[a], out[b]) <= thr
    {
      if b < a {
        IoUSymmetric(out[a], out[b]);
      }
    }
    forall x | 0 <= x < |cands| && x !in keep
      ensures exists t :: 0 <= t < |out| && IoU(out[t], cands[x]) > thr && out[t].score >= cands[x].score
    {
      assert Nms.Covered(cands, keep, x, thr, IoU);
      var t :| 0 <= t < |keep| && IoU(cands[keep[t]], cands[x]) > thr && cands[keep[t]].score >= cands[x].score;
      assert out[t] == cands[keep[t]];
    }
  }

  /** Every merged row carries a class id taken from the shared vocabulary. */
  lemma {:induction false} MergeInVocabulary(dets: seq<Output>, unit2idx: map<string, int>, k: nat)
    requires Merge(dets, unit2idx).Ok? && k < |Merge(dets, unit2idx).value|
    ensures InVocabulary(unit2idx, Merge(dets, unit2idx).value[k].cls)
    decreases |dets|
  {
    var n := |dets| - 1;
    var init := dets[..n];
    var last := dets[n];
    var done := Merge(init, unit2idx).value;
    if k < |done| {
      MergeInVocabulary(init, unit2idx, k);
    } else {
      RelabelAllSpec(n, last.names, unit2idx, last.rows);
      var i := k - |done|;
      assert Merge(dets, unit2idx).value[k] == RelabelAll(n, last.names, unit2idx, last.rows).value[i];
      var id := GlobalId(last.names, unit2idx, last.rows[i]);
      assert (id as real).Floor == id;
    }
  }

  // ---------------------------------------------------------------------
  // Worked cases

  lemma FlattenPair(x: Output, y: Output)
    ensures Flatten([x]) == x.rows && Flatten([x, y]) == x.rows + y.rows
  {
    assert [x][..0] == [];
    assert [x, y][..1] == [x];
  }

  lemma RelabelPair(d: nat, names: map<int, string>, unit2idx: map<string, int>, p: Row, q: Row)
    requires Resolvable(names, unit2idx, p) && Resolvable(names, unit2idx, q)
    ensures RelabelAll(d, names, unit2idx, [p])
      == Ok([p.(cls := GlobalId(names, unit2idx, p) as real)])
    ensures RelabelAll(d, names, unit2idx, [p, q])
      == Ok([p.(cls := GlobalId(names, unit2idx, p) as real), q.(cls := GlobalId(names, unit2idx, q) as real)])
  {
    assert [p][..0] == [];
    assert [p, q][..1] == [p];
    var p', q' := p.(cls := GlobalId(names, unit2idx, p) as real), q.(cls := GlobalId(names, unit2idx, q) as real);
    assert [] + [p'] == [p'];
    assert [p'] + [q'] == [p', q'];
  }

  lemma MergePair(x: Output, y: Output, unit2idx: map<string, int>)
    ensures Merge([x], unit2idx) == RelabelAll(0, x.names, unit2idx, x.rows)
    ensures RelabelAll(0, x.names, unit2idx, x.rows).Ok? && RelabelAll(1, y.names, unit2idx, y.rows).Ok? ==>
      Merge([x, y], unit2idx)
        == Ok(RelabelAll(0, x.names, unit2idx, x.rows).value + RelabelAll(1, y.names, unit2idx, y.rows).value)
  {
    assert [x][..0] == [];
    assert [x, y][..1] == [x];
    match RelabelAll(0, x.names, unit2idx, x.rows)
    case Failure(_) =>
    case Ok(more) => assert [] + more == more;
  }

  /** Two boxes met in the worked cases below: they overlap by 81/119. */
  const knightA := Row(0.0, 0.0, 10.0, 10.0, 0.9, 0.0, 0.0)
  const knightB := Row(1.0, 1.0, 11.0, 11.0, 0.8, 3.0, 0.0)
  /** A box far from knightA. */
  const archerC := Row(20.0, 20.0, 30.0, 30.0, 0.8, 0.0, 0.0)

  lemma TwoReportsRelabel()
    ensures Merge([Output(map[0 := "knight"], [knightA]), Output(map[3 := "knight"], [knightB])], map["knight" := 7])
      == Ok([knightA.(cls := 7.0), knightB.(cls := 7.0)])
  {
    var x, y := Output(map[0 := "knight"], [knightA]), Output(map[3 := "knight"], [knightB]);
    var vocab := map["knight" := 7];
    assert Trunc(0.0) == 0 && Trunc(3.0) == 3;
    assert GlobalId(x.names, vocab, knightA) == 7 && GlobalId(y.names, vocab, knightB) == 7;
    RelabelPair(0, x.names, vocab, knightA, knightA);
    RelabelPair(1, y.names, vocab, knightB, knightB);
    MergePair(x, y, vocab);
    assert [knightA.(cls := 7.0)] + [knightB.(cls := 7.0)] == [knightA.(cls := 7.0), knightB.(cls := 7.0)];
  }

  lemma TwoReportsOverlap()
    ensures var c := [knightA.(cls := 7.0), knightB.(cls := 7.0)];
      Nms.GreedyKeep(c, [0, 1], 0.5, IoU) == [0]
  {
    var c := [knightA.(cls := 7.0), knightB.(cls := 7.0)];
    assert Intersection(c[0], c[1]) == 81.0;
    assert IoU(c[0], c[1]) == 81.0 / 119.0;
    Nms.TwoCandidates(c, 0, 1, 0.5, IoU);
  }

  /**
   * Two detectors report the same unit: boxes [0,0,10,10] at 0.9 and
   * [1,1,11,11] at 0.8 overlap by 81/119 > 0.5, so only the first survives,
   * carrying the shared id of its class name.
   */
  lemma OverlappingReportsMerge(dets: seq<Output>, vocab: map<string, int>)
    requires dets == [Output(map[0 := "knight"], [knightA]), Output(map[3 := "knight"], [knightB])]
    requires vocab == map["knight" := 7]
    ensures Nms.IsScoreOrder(Flatten(dets), [0, 1])
    ensures InferSpec(dets, vocab, 0.5, [0, 1]) == Ok([knightA.(cls := 7.0)])
  {
    FlattenPair(dets[0], dets[1]);
    Nms.TwoInOrder([knightA, knightB]);
    TwoReportsRelabel();
    TwoReportsOverlap();
    var c := [knightA.(cls := 7.0), knightB.(cls := 7.0)];
    InferFrom(dets, vocab, 0.5, [0, 1], c, [0]);
    assert Select(c, [0]) == [c[0]];
  }

  /** InferSpec once the merged rows `cands` and the indices `keep` suppression keeps are known. */
  lemma InferFrom(dets: seq<Output>, unit2idx: map<string, int>, thr: real, order: seq<nat>,
                  cands: seq<Row>, keep: seq<nat>)
    requires Nms.IsScoreOrder(Flatten(dets), order) && Merge(dets, unit2idx) == Ok(cands)
    requires Nms.IsScoreOrder(cands, order) ==> Nms.GreedyKeep(cands, order, thr, IoU) == keep
    ensures Nms.InRange(cands, keep)
    ensures InferSpec(dets, unit2idx, thr, order) == Ok(Select(cands, keep))
  {
    MergeKeepsScoreOrder(dets, unit2idx, order);
  }

  lemma OneReportRelabel()
    ensures Merge([Output(map[0 := "archer"], [knightA, archerC])], map["archer" := 2])
      == Ok([knightA.(cls := 2.0), archerC.(cls := 2.0)])
  {
    var x := Output(map[0 := "archer"], [knightA, archerC]);
    var vocab := map["archer" := 2];
    assert Trunc(0.0) == 0;
    assert GlobalId(x.names, vocab, knightA) == 2 && GlobalId(x.names, vocab, archerC) == 2;
    RelabelPair(0, x.names, vocab, knightA, archerC);
    MergePair(x, x, vocab);
  }

  lemma OneReportApart()
    ensures var c := [knightA.(cls := 2.0), archerC.(cls := 2.0)];
      Nms.GreedyKeep(c, [0, 1], 0.5, IoU) == [0, 1]
  {
    var c := [knightA.(cls := 2.0), archerC.(cls := 2.0)];
    IoUApart(c[0], c[1]);
    Nms.TwoCandidates(c, 0, 1, 0.5, IoU);
  }

  /** Two boxes that do not meet are both returned, best first. */
  lemma DisjointReportsKept(dets: seq<Output>, vocab: map<string, int>)
    requires dets == [Output(map[0 := "archer"], [knightA, archerC])]
    requires vocab == map["archer" := 2]
    ensures Nms.IsScoreOrder(Flatten(dets), [0, 1])
    ensures InferSpec(dets, vocab, 0.5, [0, 1]) == Ok([knightA.(cls := 2.0), archerC.(cls := 2.0)])
  {
    FlattenPair(dets[0], dets[0]);
    Nms.TwoInOrder([knightA, archerC]);
    OneReportRelabel();
    OneReportApart();
    var c := [knightA.(cls := 2.0), archerC.(cls := 2.0)];
    InferFrom(dets, vocab, 0.5, [0, 1], c, [0, 1]);
    assert Select(c, [0, 1]) == c;
  }

  /** A class name the shared vocabulary lacks is a KeyError naming the row. */
  lemma UnknownNameFails()
    ensures var a := Row(0.0, 0.0, 10.0, 10.0, 0.9, 0.0, 0.0);
      var b := Row(1.0, 1.0, 5.0, 5.0, 0.6, 1.0, 0.0);
      var dets := [Output(map[0 := "knight", 1 := "goblin"], [a, b])];
      && Nms.IsScoreOrder(Flatten(dets), [0, 1])
      && InferSpec(dets, map["knight" := 7], 0.5, [0, 1]) == Failure(UnknownName(0, 1, "goblin"))
  {
    var a := Row(0.0, 0.0, 10.0, 10.0, 0.9, 0.0, 0.0);
    var b := Row(1.0, 1.0, 5.0, 5.0, 0.6, 1.0, 0.0);
    var x := Output(map[0 := "knight", 1 := "goblin"], [a, b]);
    FlattenPair(x, x);
    Nms.TwoInOrder([a, b]);
    UnknownNameMerge(x, a, b);
  }

  lemma UnknownNameMerge(x: Output, a: Row, b: Row)
    requires a == Row(0.0, 0.0, 10.0, 10.0, 0.9, 0.0, 0.0) && b == Row(1.0, 1.0, 5.0, 5.0, 0.6, 1.0, 0.0)
    requires x == Output(map[0 := "knight", 1 := "goblin"], [a, b])
    ensures Merge([x], map["knight" := 7]) == Failure(UnknownName(0, 1, "goblin"))
  {
    var vocab := map["knight" := 7];
    assert Trunc(0.0) == 0 && Trunc(1.0) == 1;
    RelabelPair(0, x.names, vocab, a, a);
    assert [a, b][..1] == [a];
    assert RelabelAll(0, x.names, vocab, [a, b]) == Failure(UnknownName(0, 1, "goblin"));
    MergePair(x, x, vocab);
  }

  /**
   * Lines 36-40 for detector `d`: its rows are cloned and the clone's class
   * column overwritten row by row; a failing lookup raises at once.
   */
  method RelabelClone(d: nat, p: Prediction, unit2idx: map<string, int>)
    returns (r: Result<seq<Row>, LookupError>)
    ensures r == RelabelAll(d, p.names, unit2idx, p.origBoxes[..])
  {
    var boxes := new Row[p.origBoxes.Length](k requires 0 <= k < p.origBoxes.Length reads p.origBoxes => p.origBoxes[k]);
    ghost var src := boxes[..];
    assert src == p.origBoxes[..];
    var out: seq<Row> := [];
    var i := 0;
    while i < boxes.Length
      invariant 0 <= i <= boxes.Length
      invariant forall j :: i <= j < boxes.Length ==> boxes[j] == src[j]
      invariant RelabelAll(d, p.names, unit2idx, src[..i]) == Ok(out)
    {
      assert src[..i + 1][..i] == src[..i];
      var k := Trunc(boxes[i].cls);
      if k !in p.names {
        r := Failure(UnknownIndex(d, i, k));
        RelabelAllStopsAt(d, p.names, unit2idx, src, i + 1);
        return;
      }
      var name := p.names[k];
      if name !in unit2idx {
        r := Failure(UnknownName(d, i, name));
        RelabelAllStopsAt(d, p.names, unit2idx, src, i + 1);
        return;
      }
      boxes[i] := boxes[i].(cls := unit2idx[name] as real);
      out := out + [boxes[i]];
      i := i + 1;
    }
    assert src[..i] == src;
    r := Ok(out);
  }

  /** Lines 34-44: every detector's rows relabelled, concatenated in detector order. */
  method MergeResults(results: seq<Prediction>, unit2idx: map<string, int>)
    returns (r: Result<seq<Row>, LookupError>)
    ensures r == Merge(Snapshot(results), unit2idx)
  {
    ghost var dets := Snapshot(results);
    var preds: seq<Row> := [];
    var d := 0;
    while d < |results|
      invariant 0 <= d <= |results|
      invariant Merge(dets[..d], unit2idx) == Ok(preds)
    {
      var rows := RelabelClone(d, results[d], unit2idx);
      MergeStep(dets, unit2idx, d, preds);
      if rows.Failure? {
        r := Failure(rows.error);
        MergeStopsAt(dets, unit2idx, d + 1);
        return;
      }
      preds := preds + rows.value;
      d := d + 1;
    }
    assert dets[..d] == dets;
    r := Ok(preds);
  }

  /** Lines 45-46: the rows suppression keeps, best first. */
  method Suppress(preds: seq<Row>, order: seq<nat>, thr: real) returns (kept: seq<Row>)
    requires Nms.IsScoreOrder(preds, order)
    ensures kept == Select(preds, Nms.GreedyKeep(preds, order, thr, IoU))
  {
    var keep := Nms.NonMaxSuppression(preds, order, thr, IoU);
    kept := Select(preds, keep);
  }

  /** The ensemble; the detectors' forward passes happen before infer sees their rows. */
  class ComboDetector {
    const iouThre: real

    constructor (iouThre: real)
      requires 0.0 <= iouThre
      ensures this.iouThre == iouThre
    {
      this.iouThre := iouThre;
    }

    /**
     * infer on the detectors' results. `order` is the order in which the
     * library's descending sort by score visits the rows; ties are not fixed.
     */
    method Infer(results: seq<Prediction>, unit2idx: map<string, int>, order: seq<nat>)
      returns (r: Result<seq<Row>, LookupError>)
      requires Nms.IsScoreOrder(Flatten(Snapshot(results)), order)
      ensures r == InferSpec(Snapshot(results), unit2idx, iouThre, order)
    {
      ghost var dets := Snapshot(results);
      var merged := MergeResults(results, unit2idx);
      if merged.Failure? {
        return Failure(merged.error);
      }
      var preds := merged.value;
      MergeKeepsScoreOrder(dets, unit2idx, order);
      var kept := Suppress(preds, order, iouThre);
      r := Ok(kept);
      assert InferSpec(dets, unit2idx, iouThre, order) == r;
    }
  }

}
