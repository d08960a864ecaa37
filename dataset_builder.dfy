/**
 * The table and array work of YOLODataset: the index of (image, box file)
 * pairs repeated for training, the placeholder for an empty box list, the
 * 12-field box rows read from a box file (class field rotated to the end,
 * normalised coordinates turned into pixels), the padding shift, the
 * horizontal flip and the fixed-capacity output buffer.
 *
 * A box table is a sequence of rows of 12 reals:
 * (x, y, w, h, seven state fields, class) once rotated.
 */
module Dataset {
  import opened Results

  /** The ways the numpy calls of the loader raise. */
  datatype DataError =
    | BadShape(count: nat)                     // reshape(-1, 12) of a count not divisible by 12
    | EmptyMax                                 // .max() of a box table without rows
    | TooManyBoxes(count: nat, capacity: nat)  // pbox[:n] = box with n > capacity
    | FlatAnnotation(lines: nat)               // paths[:, 0] of the 1-D table of a 0- or 1-line file

  // ---------------------------------------------------------------------
  // The index table of __init__ and __len__

  /** numpy's repeat: each element `r` times in a row, order kept. */
  function Repeat<T>(s: seq<T>, r: nat): (out: seq<T>)
    ensures |out| == |s| * r
  {
    if s == [] then [] else seq(r, _ => s[0]) + Repeat(s[1..], r)
  }

  lemma MulMono(a: nat, b: nat, r: nat)
    requires a <= b
    ensures a * r <= b * r
  {
    assert b * r == a * r + (b - a) * r;
  }

  /** Copy t of entry i sits at position i * r + t of the repeated table. */
  lemma {:induction false} RepeatAt<T>(s: seq<T>, r: nat, i: nat, t: nat)
    requires i < |s| && t < r
    ensures i * r + t < |s| * r && Repeat(s, r)[i * r + t] == s[i]
    decreases i
  {
    MulMono(i + 1, |s|, r);
    assert (i + 1) * r == i * r + r;
    if i > 0 {
      RepeatAt(s[1..], r, i - 1, t);
      assert i * r == (i - 1) * r + r;
    }
  }

  /** Entry k of the repeated table is entry k div r of the original. */
  lemma RepeatIndex<T>(s: seq<T>, r: nat, k: nat)
    requires k < |s| * r
    ensures 0 < r && k / r < |s| && Repeat(s, r)[k] == s[k / r]
  {
    var q, t := k / r, k % r;
    assert k == q * r + t;
    if q >= |s| {
      MulMono(|s|, q, r);
      assert false;
    }
    RepeatAt(s, r, q, t);
  }

  /** Row k of the repeated path columns is annotation line k div r. */
  lemma RepeatedEntry(table: seq<(string, string)>, r: nat, k: nat)
    requires k < |table| * r
    ensures 0 < r && k / r < |table|
    ensures Repeat(ImageColumn(table), r)[k] == table[k / r].0
    ensures Repeat(BoxColumn(table), r)[k] == table[k / r].1
  {
    RepeatIndex(ImageColumn(table), r, k);
    RepeatIndex(BoxColumn(table), r, k);
  }

  function ImageColumn(table: seq<(string, string)>): (col: seq<string>)
    ensures |col| == |table| && forall i :: 0 <= i < |table| ==> col[i] == table[i].0
  {
    seq(|table|, i requires 0 <= i < |table| => table[i].0)
  }

  function BoxColumn(table: seq<(string, string)>): (col: seq<string>)
    ensures |col| == |table| && forall i :: 0 <= i < |table| ==> col[i] == table[i].1
  {
    seq(|table|, i requires 0 <= i < |table| => table[i].1)
  }

  // ---------------------------------------------------------------------
  // Box tables

  /** Every row has the 12 fields of a box. */
  predicate Table(rows: seq<seq<real>>)
  {
    forall i :: 0 <= i < |rows| ==> |rows[i]| == 12
  }

  /** The rows of a two-dimensional array. */
  function Rows(a: array2<real>): (rows: seq<seq<real>>)
    reads a
    ensures |rows| == a.Length0
    ensures forall i :: 0 <= i < a.Length0 ==> |rows[i]| == a.Length1
    ensures forall i, j :: 0 <= i < a.Length0 && 0 <= j < a.Length1 ==> rows[i][j] == a[i, j]
  {
    seq(a.Length0, i requires 0 <= i < a.Length0 reads a =>
      seq(a.Length1, j requires 0 <= j < a.Length1 reads a => a[i, j]))
  }

  /** Two box tables with the same cells are the same table. */
  lemma SameTable(a: seq<seq<real>>, b: seq<seq<real>>)
    requires |a| == |b| && Table(a) && Table(b)
    requires forall i, j :: 0 <= i < |a| && 0 <= j < 12 ==> a[i][j] == b[i][j]
    ensures a == b
  {
    forall i | 0 <= i < |a|
      ensures a[i] == b[i]
    {
      assert forall j :: 0 <= j < 12 ==> a[i][j] == b[i][j];
    }
  }

  /** The placeholder row of _check_bbox_need_placeholder. */
  const Placeholder: seq<real> := [0.0, 0.0, 1.0, 1.0, -1.0]

  /** np.roll(row, -1): field 0 moves to the end, the others one place forward. */
  function RotateLeft(row: seq<real>): (r: seq<real>)
    requires |row| > 0
    ensures |r| == |row| && r[|row| - 1] == row[0]
    ensures forall j :: 0 <= j < |row| - 1 ==> r[j] == row[j + 1]
  {
    row[1..] + [row[0]]
  }

  /**
   * Lines 45-48: the numbers of a box file cut into rows of 12, each rotated
   * left by one; no numbers give no rows, a count not divisible by 12 fails.
   */
  function Reshape(flat: seq<real>): (r: Result<seq<seq<real>>, DataError>)
    ensures r.Failure? <==> |flat| % 12 != 0
    ensures r.Ok? ==> Table(r.value) && |r.value| == |flat| / 12
    ensures r.Ok? ==> forall i, j :: 0 <= i < |r.value| && 0 <= j < 12 ==>
      r.value[i][j] == flat[12 * i + (j + 1) % 12]
  {
    if |flat| % 12 != 0 then Failure(BadShape(|flat|))
    else Ok(seq(|flat| / 12, i requires 0 <= i < |flat| / 12 => RotateLeft(flat[12 * i .. 12 * i + 12])))
  }

  /** `box[:, :4].max() <= 1`, for a table with rows. */
  predicate Normalised(rows: seq<seq<real>>)
    requires Table(rows)
  {
    forall i, j :: 0 <= i < |rows| && 0 <= j < 4 ==> rows[i][j] <= 1.0
  }

  /** A cell x of column c in pixels: x and w times the width, y and h times the height. */
  function Scale(x: real, c: nat, w: real, h: real): (r: real)
    ensures 4 <= c ==> r == x
  {
    if c == 0 || c == 2 then x * w else if c == 1 || c == 3 then x * h else x
  }

  /** Columns 0 and 2 times the width, columns 1 and 3 times the height, the rest untouched. */
  function ToPixels(rows: seq<seq<real>>, w: real, h: real): (r: seq<seq<real>>)
    requires Table(rows)
    ensures |r| == |rows| && Table(r)
    ensures forall i, j :: 0 <= i < |rows| && 0 <= j < 12 ==> r[i][j] == Scale(rows[i][j], j, w, h)
  {
    seq(|rows|, i requires 0 <= i < |rows| =>
      seq(12, j requires 0 <= j < 12 => Scale(rows[i][j], j, w, h)))
  }

  /** The padding shift: dw added to column 0, dh to column 1. */
  function Shift(rows: seq<seq<real>>, dw: real, dh: real): (r: seq<seq<real>>)
    requires Table(rows)
    ensures |r| == |rows| && Table(r)
    ensures forall i, j :: 0 <= i < |rows| && 0 <= j < 12 ==>
      r[i][j] == (if j == 0 then rows[i][j] + dw else if j == 1 then rows[i][j] + dh else rows[i][j])
  {
    seq(|rows|, i requires 0 <= i < |rows| => rows[i][0 := rows[i][0] + dw][1 := rows[i][1] + dh])
  }

  /** The left-right flip of an image `width` wide: column 0 becomes width - x. */
  function Flip(rows: seq<seq<real>>, width: real): (r: seq<seq<real>>)
    requires Table(rows)
    ensures |r| == |rows| && Table(r)
    ensures forall i, j :: 0 <= i < |rows| && 0 <= j < 12 ==>
      r[i][j] == (if j == 0 then width - rows[i][j] else rows[i][j])
  {
    seq(|rows|, i requires 0 <= i < |rows| => rows[i][0 := width - rows[i][0]])
  }

  /** `n` rows of 12 zeros. */
  function Zeros(n: nat): (r: seq<seq<real>>)
    ensures |r| == n && Table(r)
    ensures forall i, j :: 0 <= i < n && 0 <= j < 12 ==> r[i][j] == 0.0
  {
    seq(n, _ => seq(12, _ => 0.0))
  }

  /** The output buffer: the box rows, then zero rows up to `capacity`. */
  function Padded(rows: seq<seq<real>>, capacity: nat): (r: seq<seq<real>>)
    requires |rows| <= capacity
    ensures |r| == capacity && r[..|rows|] == rows
  {
    rows + Zeros(capacity - |rows|)
  }

  /** What load_file gives for the numbers of a box file and an image w0 wide and h0 high. */
  function LoadBoxesSpec(flat: seq<real>, w0: nat, h0: nat): (r: Result<seq<seq<real>>, DataError>)
    ensures r.Failure? <==> |flat| % 12 != 0 || flat == []
    ensures r.Failure? ==> r.error == if |flat| % 12 != 0 then BadShape(|flat|) else EmptyMax
    ensures r.Ok? ==> Table(r.value) && 12 * |r.value| == |flat|
  {
    match Reshape(flat)
    case Failure(e) => Failure(e)
    case Ok(rows) =>
      if rows == [] then Failure(EmptyMax)
      else if Normalised(rows) then Ok(ToPixels(rows, w0 as real, h0 as real))
      else Ok(rows)
  }

  /** What __getitem__ does to the box rows: the padding shift, then the flip if it is drawn. */
  function Augmented(rows: seq<seq<real>>, dh: real, dw: real, width: real, flipped: bool): (r: seq<seq<real>>)
    requires Table(rows)
    ensures |r| == |rows| && Table(r)
    ensures forall i, j :: 0 <= i < |rows| && 0 <= j < 12 ==>
      r[i][j] == (if j == 0 then (if flipped then width - (rows[i][0] + dw) else rows[i][0] + dw)
                  else if j == 1 then rows[i][1] + dh
                  else rows[i][j])
  {
    if flipped then Flip(Shift(rows, dw, dh), width) else Shift(rows, dw, dh)
  }

  // ---------------------------------------------------------------------
  // Properties of the box tables

  /** A file with no numbers has no rows, and then the .max() at line 51 raises. */
  lemma EmptyFileFails(flat: seq<real>, w0: nat, h0: nat)
    requires flat == []
    ensures Reshape(flat) == Ok([])
    ensures LoadBoxesSpec(flat, w0, h0) == Failure(EmptyMax)
  {
    assert Reshape(flat).Ok? && |Reshape(flat).value| == 0;
  }

  /**
   * A successful load keeps one row per 12 numbers; the class field (the
   * first number of each group) ends up in column 11 and columns 4-10 are
   * the state fields as read.
   */
  lemma LoadKeepsFields(flat: seq<real>, w0: nat, h0: nat)
    requires LoadBoxesSpec(flat, w0, h0).Ok?
    ensures var rows := LoadBoxesSpec(flat, w0, h0).value;
      && Table(rows) && 12 * |rows| == |flat| && |rows| > 0
      && forall i, j :: 0 <= i < |rows| && 4 <= j < 12 ==>
           rows[i][j] == flat[12 * i + (j + 1) % 12]
  {
  }

  /** Flipping twice restores the rows. */
  lemma {:induction false} FlipTwice(rows: seq<seq<real>>, width: real)
    requires Table(rows)
    ensures Flip(Flip(rows, width), width) == rows
  {
    SameTable(Flip(Flip(rows, width), width), rows);
  }

  /** Shifting back by (-dw, -dh) undoes the padding shift. */
  lemma {:induction false} ShiftBack(rows: seq<seq<real>>, dw: real, dh: real)
    requires Table(rows)
    ensures Shift(Shift(rows, dw, dh), -dw, -dh) == rows
  {
    SameTable(Shift(Shift(rows, dw, dh), -dw, -dh), rows);
  }

  /** Scaling again by the inverses of the image size recovers the normalised coordinates. */
  lemma {:induction false} ToPixelsBack(rows: seq<seq<real>>, w: real, h: real, iw: real, ih: real)
    requires Table(rows) && w * iw == 1.0 && h * ih == 1.0
    ensures ToPixels(ToPixels(rows, w, h), iw, ih) == rows
  {
    var back := ToPixels(ToPixels(rows, w, h), iw, ih);
    forall i, j | 0 <= i < |rows| && 0 <= j < 12
      ensures back[i][j] == rows[i][j]
    {
      ToPixelsBackAt(rows, w, h, iw, ih, i, j);
    }
    SameTable(back, rows);
  }

  lemma ToPixelsBackAt(rows: seq<seq<real>>, w: real, h: real, iw: real, ih: real, i: nat, j: nat)
    requires Table(rows) && w * iw == 1.0 && h * ih == 1.0 && i < |rows| && j < 12
    ensures ToPixels(ToPixels(rows, w, h), iw, ih)[i][j] == rows[i][j]
  {
    var there := ToPixels(rows, w, h);
    var x := rows[i][j];
    assert there[i][j] == Scale(x, j, w, h);
    assert ToPixels(there, iw, ih)[i][j] == Scale(there[i][j], j, iw, ih);
    UndoScale(x, j, w, h, iw, ih);
  }

  lemma UndoScale(x: real, c: nat, w: real, h: real, iw: real, ih: real)
    requires w * iw == 1.0 && h * ih == 1.0
    ensures Scale(Scale(x, c, w, h), c, iw, ih) == x
  {
    if c == 0 || c == 2 {
      MulInverse(x, w, iw);
    } else if c == 1 || c == 3 {
      MulInverse(x, h, ih);
    }
  }

  lemma MulInverse(x: real, f: real, g: real)
    requires f * g == 1.0
    ensures x * f * g == x
  {
    assert x * f * g == x * (f * g);
  }

  /** Normalised boxes of a w-by-h image land inside [.., w] x [.., h] pixels. */
  lemma ToPixelsBounded(rows: seq<seq<real>>, w: real, h: real)
    requires Table(rows) && Normalised(rows) && w >= 0.0 && h >= 0.0
    ensures var r := ToPixels(rows, w, h);
      forall i :: 0 <= i < |r| ==> r[i][0] <= w && r[i][2] <= w && r[i][1] <= h && r[i][3] <= h
  {
    var r := ToPixels(rows, w, h);
    forall i | 0 <= i < |r|
      ensures r[i][0] <= w && r[i][2] <= w && r[i][1] <= h && r[i][3] <= h
    {
      var x1, y1, x2, y2 := rows[i][0], rows[i][1], rows[i][2], rows[i][3];
      ScaleAtMost(x1, w);
      ScaleAtMost(x2, w);
      ScaleAtMost(y1, h);
      ScaleAtMost(y2, h);
      assert r[i][0] == Scale(x1, 0, w, h) == x1 * w;
      assert r[i][2] == Scale(x2, 2, w, h) == x2 * w;
      assert r[i][1] == Scale(y1, 1, w, h) == y1 * h;
      assert r[i][3] == Scale(y2, 3, w, h) == y2 * h;
    }
  }

  lemma ScaleAtMost(x: real, w: real)
    requires x <= 1.0 && w >= 0.0
    ensures x * w <= w
  {
    assert (1.0 - x) * w >= 0.0;
  }

  /**
   * The buffer holds `capacity` rows of 12: the box rows first, every other
   * row zero; the first |rows| rows give the boxes back.
   */
  lemma PaddedLayout(rows: seq<seq<real>>, capacity: nat)
    requires Table(rows) && |rows| <= capacity
    ensures var p := Padded(rows, capacity);
      && |p| == capacity && Table(p)
      && p[..|rows|] == rows
      && forall i, j :: |rows| <= i < capacity && 0 <= j < 12 ==> p[i][j] == 0.0
  {
    var p := Padded(rows, capacity);
    assert p[..|rows|] == rows;
    forall i, j | |rows| <= i < capacity && 0 <= j < 12
      ensures p[i][j] == 0.0
    {
      assert p[i] == Zeros(capacity - |rows|)[i - |rows|];
    }
  }

  // ---------------------------------------------------------------------
  // The in-place column updates

  /** Row i of ScaleInPlace; the other rows stay as they are. */
  method ScaleRow(box: array2<real>, i: nat, w: real, h: real)
    requires box.Length1 == 12 && i < box.Length0
    modifies box
    ensures forall r, c :: 0 <= r < box.Length0 && 0 <= c < 12 ==>
      box[r, c] == if r != i then old(box[r, c]) else Scale(old(box[r, c]), c, w, h)
  {
    var c := 0;
    while c < 4
      invariant 0 <= c <= 4
      invariant forall r, k :: 0 <= r < box.Length0 && 0 <= k < 12 ==>
        box[r, k] == if r == i && k < c then Scale(old(box[r, k]), k, w, h) else old(box[r, k])
    {
      box[i, c] := Scale(box[i, c], c, w, h);
      c := c + 1;
    }
  }

  /** Lines 52-53: box[:, [0,2]] *= w; box[:, [1,3]] *= h. */
  method ScaleInPlace(box: array2<real>, w: real, h: real)
    requires box.Length1 == 12
    modifies box
    ensures Rows(box) == ToPixels(old(Rows(box)), w, h)
  {
    ghost var before := Rows(box);
    var i := 0;
    while i < box.Length0
      invariant 0 <= i <= box.Length0
      invariant forall r, c :: 0 <= r < box.Length0 && 0 <= c < 12 ==>
        box[r, c] == if r < i then Scale(before[r][c], c, w, h) else before[r][c]
    {
      ScaleRow(box, i, w, h);
      i := i + 1;
    }
    ghost var now := Rows(box);
    assert forall r, c :: 0 <= r < |now| && 0 <= c < 12 ==> now[r][c] == Scale(before[r][c], c, w, h);
    ScaledIsToPixels(before, now, w, h);
  }

  /** A table whose cells are those of `rows` times the column factors is ToPixels of `rows`. */
  lemma ScaledIsToPixels(rows: seq<seq<real>>, scaled: seq<seq<real>>, w: real, h: real)
    requires Table(rows) && Table(scaled) && |scaled| == |rows|
    requires forall r, c :: 0 <= r < |rows| && 0 <= c < 12 ==> scaled[r][c] == Scale(rows[r][c], c, w, h)
    ensures scaled == ToPixels(rows, w, h)
  {
    var p := ToPixels(rows, w, h);
    forall r, c | 0 <= r < |rows| && 0 <= c < 12
      ensures scaled[r][c] == p[r][c]
    {
      assert p[r][c] == Scale(rows[r][c], c, w, h);
    }
    SameTable(scaled, p);
  }

  /** Lines 66-67: box[:, 0] += dw; box[:, 1] += dh. */
  method ShiftInPlace(box: array2<real>, dw: real, dh: real)
    requires box.Length1 == 12
    modifies box
    ensures Rows(box) == Shift(old(Rows(box)), dw, dh)
  {
    ghost var before := Rows(box);
    ghost var after := Shift(before, dw, dh);
    var i := 0;
    while i < box.Length0
      invariant 0 <= i <= box.Length0
      invariant forall r, c :: 0 <= r < box.Length0 && 0 <= c < 12 ==>
        box[r, c] == if r < i then after[r][c] else before[r][c]
    {
      box[i, 0] := box[i, 0] + dw;
      box[i, 1] := box[i, 1] + dh;
      i := i + 1;
    }
    SameTable(Rows(box), after);
  }

  /** Line 73: box[:, 0] = width - box[:, 0]. */
  method FlipInPlace(box: array2<real>, width: real)
    requires box.Length1 == 12
    modifies box
    ensures Rows(box) == Flip(old(Rows(box)), width)
  {
    ghost var before := Rows(box);
    ghost var after := Flip(before, width);
    var i := 0;
    while i < box.Length0
      invariant 0 <= i <= box.Length0
      invariant forall r, c :: 0 <= r < box.Length0 && 0 <= c < 12 ==>
        box[r, c] == if r < i then after[r][c] else before[r][c]
    {
      box[i, 0] := width - box[i, 0];
      i := i + 1;
    }
    SameTable(Rows(box), after);
  }

  /** Line 76: pbox[:len(box)] = box. The rows after the first len(box) are left as they were. */
  method CopyRows(pbox: array2<real>, box: array2<real>)
    requires pbox != box && box.Length1 == 12 && pbox.Length1 == 12 && box.Length0 <= pbox.Length0
    modifies pbox
    ensures Rows(pbox) == Rows(box) + old(Rows(pbox))[box.Length0..]
  {
    ghost var before := Rows(pbox);
    ghost var after := Rows(box) + before[box.Length0..];
    var i := 0;
    while i < box.Length0
      invariant 0 <= i <= box.Length0
      invariant forall r, c :: 0 <= r < pbox.Length0 && 0 <= c < 12 ==>
        pbox[r, c] == if r < i then box[r, c] else before[r][c]
    {
      var j := 0;
      while j < 12
        invariant 0 <= j <= 12
        invariant forall r, c :: 0 <= r < pbox.Length0 && 0 <= c < 12 ==>
          pbox[r, c] == if r < i || (r == i && c < j) then box[r, c] else before[r][c]
      {
        pbox[i, j] := box[i, j];
        j := j + 1;
      }
      i := i + 1;
    }
    forall r, c | 0 <= r < pbox.Length0 && 0 <= c < 12
      ensures Rows(pbox)[r][c] == after[r][c]
    {
      if r >= box.Length0 {
        assert after[r] == before[r];
      }
    }
    SameTable(Rows(pbox), after);
  }

  // ---------------------------------------------------------------------

  class YOLODataset {
    const subset: string
    /** False exactly for the 'val' subset. */
    const augment: bool
    /** MAX_NUM_BBOXES: the number of rows of the output buffer. */
    const maxNumBox: nat
    var pathsImg: seq<string>
    var pathsBox: seq<string>
    /** The annotation file's (image, box file) pairs, and the repeat count training uses. */
    ghost const annotation: seq<(string, string)>
    ghost const repeat: nat

    ghost predicate Valid()
      reads this
    {
      if subset == "train" then
        pathsImg == Repeat(ImageColumn(annotation), repeat) && pathsBox == Repeat(BoxColumn(annotation), repeat)
      else
        pathsImg == ImageColumn(annotation) && pathsBox == BoxColumn(annotation)
    }

    /**
     * Lines 17-28, for an annotation file already parsed into `annotation`.
     * Only a file of two or more lines parses to the 2-D table lines 25-28 index.
     * MAX_NUM_BBOXES is positive.
     */
    constructor (subset: string, annotation: seq<(string, string)>, repeat: nat, maxNumBox: nat)
      requires |annotation| >= 2 && maxNumBox > 0
      ensures Valid()
      ensures this.subset == subset && this.annotation == annotation && this.repeat == repeat
      ensures this.maxNumBox == maxNumBox
      ensures augment <==> subset != "val"
    {
      this.subset := subset;
      this.augment := if subset == "val" then false else true;
      this.maxNumBox := maxNumBox;
      this.annotation := annotation;
      this.repeat := repeat;
      var img := ImageColumn(annotation);
      var boxes := BoxColumn(annotation);
      if subset == "train" {
        img := Repeat(img, repeat);
        boxes := Repeat(boxes, repeat);
      }
      pathsImg := img;
      pathsBox := boxes;
    }

    /**
     * Lines 17-28 with the outcome of line 25: for a file of fewer than two
     * lines `np.genfromtxt` returns a 1-D array, and `paths[:, 0]` raises
     * IndexError; otherwise the dataset is built.
     */
    static method Open(subset: string, annotation: seq<(string, string)>, repeat: nat, maxNumBox: nat)
      returns (r: Result<YOLODataset, DataError>)
      requires maxNumBox > 0
      ensures r.Failure? <==> |annotation| < 2
      ensures r.Failure? ==> r.error == FlatAnnotation(|annotation|)
      ensures r.Ok? ==> fresh(r.value) && r.value.Valid()
      ensures r.Ok? ==> r.value.subset == subset && r.value.annotation == annotation && r.value.repeat == repeat
      ensures r.Ok? ==> r.value.maxNumBox == maxNumBox && (r.value.augment <==> subset != "val")
    {
      if |annotation| < 2 {
        return Failure(FlatAnnotation(|annotation|));
      }
      var ds := new YOLODataset(subset, annotation, repeat, maxNumBox);
      r := Ok(ds);
    }

    /** __len__: the training table is `repeat` times as long. */
    function Len(): (n: nat)
      reads this
      requires Valid()
      ensures n == if subset == "train" then |annotation| * repeat else |annotation|
    {
      |pathsImg|
    }

    /** Line 40: the files of entry idx; in training, entry idx is annotation line idx div repeat. */
    function Paths(idx: nat): (p: (string, string))
      reads this
      requires Valid() && idx < Len()
      ensures subset == "train" ==> 0 < repeat && idx / repeat < |annotation| && p == annotation[idx / repeat]
      ensures subset != "train" ==> p == annotation[idx]
    {
      if subset == "train" then
        RepeatedEntry(annotation, repeat, idx);
        (pathsImg[idx], pathsBox[idx])
      else
        (pathsImg[idx], pathsBox[idx])
    }

    /** _check_bbox_need_placeholder: an empty box list becomes one placeholder row. */
    static function NeedPlaceholder(bboxes: seq<seq<real>>): (r: seq<seq<real>>)
      ensures bboxes == [] ==> r == [Placeholder]
      ensures bboxes != [] ==> r == bboxes
    {
      if |bboxes| == 0 then [Placeholder] else bboxes
    }

    /**
     * The box part of load_file (lines 44-53) for the numbers of the box
     * file and an image w0 wide and h0 high.
     */
    static method LoadBoxes(flat: seq<real>, w0: nat, h0: nat) returns (r: Result<array2<real>, DataError>)
      ensures r.Failure? <==> LoadBoxesSpec(flat, w0, h0).Failure?
      ensures r.Failure? ==> r.error == LoadBoxesSpec(flat, w0, h0).error
      ensures r.Ok? ==> fresh(r.value) && r.value.Length1 == 12 && Rows(r.value) == LoadBoxesSpec(flat, w0, h0).value
    {
      if |flat| % 12 != 0 {
        return Failure(BadShape(|flat|));
      }
      var m := |flat| / 12;
      var box := new real[m, 12]((i, j) requires 0 <= i < m && 0 <= j < 12 => flat[12 * i + (j + 1) % 12]);
      SameTable(Rows(box), Reshape(flat).value);
      if m == 0 {
        return Failure(EmptyMax);
      }
      if Normalised(Rows(box)) {
        ScaleInPlace(box, w0 as real, h0 as real);
      }
      r := Ok(box);
    }

    /**
     * The box part of __getitem__ (lines 65-77), for the rows load_file
     * gave, the padding (dh, dw), the padded image's width and the coin
     * `random.random() < 0.5`. Returns the buffer and the number of boxes.
     */
    method GetItem(box: array2<real>, dh: real, dw: real, width: real, coin: bool)
      returns (r: Result<(array2<real>, nat), DataError>)
      requires box.Length1 == 12
      modifies box
      ensures Rows(box) == Augmented(old(Rows(box)), dh, dw, width, augment && coin)
      ensures r.Failure? <==> box.Length0 > maxNumBox
      ensures r.Failure? ==> r.error == TooManyBoxes(box.Length0, maxNumBox)
      ensures r.Ok? ==>
        && fresh(r.value.0) && r.value.1 == box.Length0
        && r.value.0.Length0 == maxNumBox && r.value.0.Length1 == 12
        && Rows(r.value.0) == Padded(Rows(box), maxNumBox)
    {
      ShiftInPlace(box, dw, dh);
      if augment && coin {
        if box.Length0 > 0 {
          FlipInPlace(box, width);
        } else {
          SameTable(Rows(box), Flip(Rows(box), width));
        }
      }
      var pbox := new real[maxNumBox, 12]((i, j) => 0.0);
      SameTable(Rows(pbox), Zeros(maxNumBox));
      if box.Length0 > maxNumBox {
        return Failure(TooManyBoxes(box.Length0, maxNumBox));
      }
      if box.Length0 > 0 {
        CopyRows(pbox, box);
      }
      assert Zeros(maxNumBox)[box.Length0..] == Zeros(maxNumBox - box.Length0);
      r := Ok((pbox, box.Length0));
    }
  }

}
