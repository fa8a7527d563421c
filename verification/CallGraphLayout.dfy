/** The box layout of the call graph: one column per rank, one row per factory of the rank. */
module CallGraphLayout {
  /** The bounding box of a label, in pixels. */
  datatype Label = Label(w: nat, h: nat)

  type Columns = seq<seq<Label>>

  const MIN_XSPACE := 50
  const MIN_YSPACE := 10
  const PAD := 4

  function ColumnWidth(col: seq<Label>): (w: nat)
    ensures forall j :: 0 <= j < |col| ==> col[j].w <= w
    ensures col != [] ==> exists j :: 0 <= j < |col| && col[j].w == w
  {
    if col == [] then 0
    else
      var rest := ColumnWidth(col[..|col| - 1]);
      var last := col[|col| - 1].w;
      if last > rest then last else rest
  }

  function ColumnHeight(col: seq<Label>): nat {
    if col == [] then 0 else ColumnHeight(col[..|col| - 1]) + col[|col| - 1].h
  }

  function TotalWidth(cols: Columns): nat {
    if cols == [] then 0 else TotalWidth(cols[..|cols| - 1]) + ColumnWidth(cols[|cols| - 1])
  }

  /** The greatest column height. */
  function TotalHeight(cols: Columns): (t: nat)
    ensures forall i :: 0 <= i < |cols| ==> ColumnHeight(cols[i]) <= t
  {
    if cols == [] then 0
    else
      var rest := TotalHeight(cols[..|cols| - 1]);
      var last := ColumnHeight(cols[|cols| - 1]);
      if rest < last then last else rest
  }

  /** The number of rows of the first column of greatest height. */
  function RowsOfTallest(cols: Columns): nat {
    if cols == [] then 0
    else
      var rest := cols[..|cols| - 1];
      if TotalHeight(rest) < ColumnHeight(cols[|cols| - 1]) then |cols[|cols| - 1]| else RowsOfTallest(rest)
  }

  function CanvasWidth(cols: Columns, frame: int): int {
    var least := TotalWidth(cols) + (|cols| + 1) * MIN_XSPACE;
    if frame < least then least else frame
  }

  function CanvasHeight(cols: Columns, frame: int): int {
    var least := TotalHeight(cols) + (RowsOfTallest(cols) + 1) * MIN_YSPACE;
    if frame < least then least else frame
  }

  function XSpace(cols: Columns, cwidth: int): int {
    (cwidth - TotalWidth(cols)) / (|cols| + 1)
  }

  function YSpace(col: seq<Label>, cheight: int): int {
    (cheight - ColumnHeight(col)) / (|col| + 1)
  }

  /** The left edge of the labels of column i. */
  function XPos(cols: Columns, xspace: int, i: nat): int
    requires i <= |cols|
  {
    if i == 0 then xspace / 2 else XPos(cols, xspace, i - 1) + ColumnWidth(cols[i - 1]) + xspace
  }

  /** The top edge of the label of row j. */
  function YPos(col: seq<Label>, yspace: int, j: nat): int
    requires j <= |col|
  {
    if j == 0 then yspace else YPos(col, yspace, j - 1) + col[j - 1].h + yspace
  }

  /** The rectangle drawn for a label. */
  datatype Box = Box(x1: int, x2: int, y1: int, y2: int)

  ghost predicate Inside(b: Box, width: int, height: int) {
    0 <= b.x1 <= b.x2 <= width && 0 <= b.y1 <= b.y2 <= height
  }

  ghost predicate Apart(b: Box, c: Box) {
    b.x2 <= c.x1 || c.x2 <= b.x1 || b.y2 <= c.y1 || c.y2 <= b.y1
  }

  /** The box of row j of a column of labels that starts at xpos. */
  function BoxInColumn(col: seq<Label>, xpos: int, yspace: int, j: nat): Box
    requires j < |col|
  {
    var y := YPos(col, yspace, j);
    Box(xpos - PAD, xpos + col[j].w + PAD, y - PAD, y + col[j].h + PAD)
  }

  /** The box drawn for row j of column i on a canvas of the given size. */
  function BoxAt(cols: Columns, cwidth: int, cheight: int, i: nat, j: nat): Box
    requires i < |cols| && j < |cols[i]|
  {
    BoxInColumn(cols[i], XPos(cols, XSpace(cols, cwidth), i), YSpace(cols[i], cheight), j)
  }

  // ---- even spacing ----

  /** n times x, as the layout adds it up. */
  ghost function Times(n: nat, x: int): int {
    if n == 0 then 0 else Times(n - 1, x) + x
  }

  lemma {:induction false} TimesIs(n: nat, x: int)
    ensures Times(n, x) == n * x
  {
    if n > 0 {
      TimesIs(n - 1, x);
      assert n * x == (n - 1) * x + x;
    }
  }

  /** The rounded-down space fits `gaps` times, and is at least `least` exactly when that fits. */
  lemma Spacing(room: int, gaps: nat, least: int)
    requires gaps > 0
    ensures Times(gaps, room / gaps) <= room
    ensures room / gaps >= least <==> room >= gaps * least
  {
    var q := room / gaps;
    TimesIs(gaps, q);
    assert room == gaps * q + room % gaps;
    if q >= least {
      assert gaps * q >= gaps * least;
    } else {
      assert gaps * (q + 1) <= gaps * least;
      assert gaps * (q + 1) == gaps * q + gaps;
    }
  }

  // ---- columns ----

  lemma {:induction false} XPosIs(cols: Columns, xspace: int, i: nat)
    requires i <= |cols|
    ensures XPos(cols, xspace, i) == xspace / 2 + TotalWidth(cols[..i]) + Times(i, xspace)
  {
    if i > 0 {
      XPosIs(cols, xspace, i - 1);
      assert cols[..i][..i - 1] == cols[..i - 1];
    } else {
      assert cols[..0] == [];
    }
  }

  lemma {:induction false} XPosGrows(cols: Columns, xspace: int, i: nat, k: nat)
    requires i < k <= |cols| && xspace >= 0
    ensures XPos(cols, xspace, i) + ColumnWidth(cols[i]) + xspace <= XPos(cols, xspace, k)
  {
    if i < k - 1 {
      XPosGrows(cols, xspace, i, k - 1);
    }
  }

  lemma {:induction false} XPosStart(cols: Columns, xspace: int, i: nat)
    requires i <= |cols| && xspace >= 0
    ensures XPos(cols, xspace, i) >= xspace / 2
  {
    if i > 0 {
      XPosStart(cols, xspace, i - 1);
    }
  }

  /** Columns are at least 50 pixels apart and stay inside the canvas, whatever the labels. */
  lemma ColumnsApart(cols: Columns, frame: int, i: nat, k: nat)
    requires i < k <= |cols|
    ensures var cwidth := CanvasWidth(cols, frame);
            var xspace := XSpace(cols, cwidth);
            && xspace >= MIN_XSPACE
            && XPos(cols, xspace, i) >= MIN_XSPACE / 2
            && XPos(cols, xspace, i) + ColumnWidth(cols[i]) + xspace <= XPos(cols, xspace, k)
            && XPos(cols, xspace, k) <= cwidth
  {
    hide XPos, TotalWidth, ColumnWidth;
    var cwidth, n := CanvasWidth(cols, frame), |cols|;
    var xspace := XSpace(cols, cwidth);
    Spacing(cwidth - TotalWidth(cols), n + 1, MIN_XSPACE);
    XPosStart(cols, xspace, i);
    XPosGrows(cols, xspace, i, k);
    XPosIs(cols, xspace, n);
    assert cols[..n] == cols;
    if k < n {
      XPosGrows(cols, xspace, k, n);
    }
  }

  // ---- rows ----

  lemma {:induction false} YPosIs(col: seq<Label>, yspace: int, j: nat)
    requires j <= |col|
    ensures YPos(col, yspace, j) == ColumnHeight(col[..j]) + Times(j + 1, yspace)
  {
    if j > 0 {
      YPosIs(col, yspace, j - 1);
      assert col[..j][..j - 1] == col[..j - 1];
    } else {
      assert col[..0] == [];
      assert Times(1, yspace) == Times(0, yspace) + yspace;
    }
  }

  lemma {:induction false} YPosGrows(col: seq<Label>, yspace: int, j: nat, k: nat)
    requires j < k <= |col| && yspace >= 0
    ensures YPos(col, yspace, j) + col[j].h + yspace <= YPos(col, yspace, k)
  {
    if j < k - 1 {
      YPosGrows(col, yspace, j, k - 1);
    }
  }

  lemma {:induction false} YPosStart(col: seq<Label>, yspace: int, j: nat)
    requires j <= |col| && yspace >= 0
    ensures YPos(col, yspace, j) >= yspace
  {
    if j > 0 {
      YPosStart(col, yspace, j - 1);
    }
  }

  lemma RowsApart(col: seq<Label>, cheight: int, j: nat, k: nat)
    requires j < k <= |col| && YSpace(col, cheight) >= 0
    ensures YPos(col, YSpace(col, cheight), j) >= YSpace(col, cheight)
    ensures YPos(col, YSpace(col, cheight), j) + col[j].h + YSpace(col, cheight) <= YPos(col, YSpace(col, cheight), k)
    ensures YPos(col, YSpace(col, cheight), k) <= cheight
  {
    var yspace, n := YSpace(col, cheight), |col|;
    Spacing(cheight - ColumnHeight(col), n + 1, 0);
    YPosStart(col, yspace, j);
    YPosGrows(col, yspace, j, k);
    YPosIs(col, yspace, n);
    assert col[..n] == col;
    if k < n {
      YPosGrows(col, yspace, k, n);
    }
  }

  /** In a column whose rounded-down row spacing is at least twice the padding, boxes are inside
      the canvas and apart. */
  lemma RoomyColumnIsClean(cols: Columns, fw: int, fh: int, i: nat, j: nat, k: nat)
    requires i < |cols| && j < k < |cols[i]|
    requires YSpace(cols[i], CanvasHeight(cols, fh)) >= 2 * PAD
    ensures var cw, ch := CanvasWidth(cols, fw), CanvasHeight(cols, fh);
            && Inside(BoxAt(cols, cw, ch, i, j), cw, ch) && Inside(BoxAt(cols, cw, ch, i, k), cw, ch)
            && Apart(BoxAt(cols, cw, ch, i, j), BoxAt(cols, cw, ch, i, k))
  {
    BoxInside(cols, fw, fh, i, j);
    BoxInside(cols, fw, fh, i, k);
    RowsApart(cols[i], CanvasHeight(cols, fh), j, k);
  }

  lemma BoxInside(cols: Columns, fw: int, fh: int, i: nat, j: nat)
    requires i < |cols| && j < |cols[i]|
    requires YSpace(cols[i], CanvasHeight(cols, fh)) >= PAD
    ensures var cw, ch := CanvasWidth(cols, fw), CanvasHeight(cols, fh);
            Inside(BoxAt(cols, cw, ch, i, j), cw, ch)
  {
    ColumnsApart(cols, fw, i, i + 1);
    RowsApart(cols[i], CanvasHeight(cols, fh), j, j + 1);
  }

  /** Neighbouring boxes of a column are apart exactly when the rounded-down row spacing is at
      least twice the padding. */
  lemma RowsApartExactlyWhen(cols: Columns, fw: int, fh: int, i: nat, j: nat)
    requires i < |cols| && j + 1 < |cols[i]|
    ensures var cw, ch := CanvasWidth(cols, fw), CanvasHeight(cols, fh);
            Apart(BoxAt(cols, cw, ch, i, j), BoxAt(cols, cw, ch, i, j + 1)) <==> YSpace(cols[i], ch) >= 2 * PAD
  {
    var cw, ch := CanvasWidth(cols, fw), CanvasHeight(cols, fh);
    var y := YSpace(cols[i], ch);
    assert YPos(cols[i], y, j + 1) == YPos(cols[i], y, j) + cols[i][j].h + y;
    HeightFits(cols, fh, i);
  }

  /** The canvas is at least as high as each column with its gaps rounded down. */
  lemma HeightFits(cols: Columns, fh: int, i: nat)
    requires i < |cols|
    ensures YSpace(cols[i], CanvasHeight(cols, fh)) >= 0
  {
    Spacing(CanvasHeight(cols, fh) - ColumnHeight(cols[i]), |cols[i]| + 1, 0);
  }

  /** Labels of different columns never touch, whatever their sizes. */
  lemma DifferentColumnsApart(cols: Columns, fw: int, fh: int, i: nat, j: nat, k: nat, m: nat)
    requires i < k < |cols| && j < |cols[i]| && m < |cols[k]|
    ensures var cw, ch := CanvasWidth(cols, fw), CanvasHeight(cols, fh);
            BoxAt(cols, cw, ch, i, j).x2 + 42 <= BoxAt(cols, cw, ch, k, m).x1
  {
    ColumnsApart(cols, fw, i, k);
  }

  /** All labels of a drawing have this height. */
  ghost predicate CommonHeight(cols: Columns, h: nat) {
    forall i, j :: 0 <= i < |cols| && 0 <= j < |cols[i]| ==> cols[i][j].h == h
  }

  lemma {:induction false} CommonColumnHeight(col: seq<Label>, h: nat)
    requires forall j :: 0 <= j < |col| ==> col[j].h == h
    ensures ColumnHeight(col) == Times(|col|, h)
  {
    if col != [] {
      CommonColumnHeight(col[..|col| - 1], h);
    }
  }

  lemma {:induction false} TimesGrows(m: nat, n: nat, h: nat)
    requires h > 0 && m <= n
    ensures Times(m, h) + (n - m) <= Times(n, h)
  {
    if m < n {
      TimesGrows(m, n - 1, h);
    }
  }

  lemma {:induction false} TallestHasMostRows(cols: Columns, h: nat)
    requires CommonHeight(cols, h) && h > 0
    ensures TotalHeight(cols) == Times(RowsOfTallest(cols), h)
    ensures forall i :: 0 <= i < |cols| ==> |cols[i]| <= RowsOfTallest(cols)
  {
    if cols != [] {
      var rest, last := cols[..|cols| - 1], cols[|cols| - 1];
      TallestHasMostRows(rest, h);
      CommonColumnHeight(last, h);
      if |last| <= RowsOfTallest(rest) {
        TimesGrows(|last|, RowsOfTallest(rest), h);
      } else {
        TimesGrows(RowsOfTallest(rest), |last|, h);
      }
      forall i | 0 <= i < |cols|
        ensures |cols[i]| <= RowsOfTallest(cols)
      {
        if i < |rest| {
          assert cols[i] == rest[i];
        }
      }
    }
  }

  /** With one label height, as many rows as the tallest column has leave room for every column. */
  lemma CommonHeightSpacing(cols: Columns, h: nat, fh: int, i: nat)
    requires CommonHeight(cols, h) && h > 0 && i < |cols|
    ensures YSpace(cols[i], CanvasHeight(cols, fh)) >= MIN_YSPACE
  {
    var ch, n, most := CanvasHeight(cols, fh), |cols[i]|, RowsOfTallest(cols);
    TallestHasMostRows(cols, h);
    CommonColumnHeight(cols[i], h);
    TimesGrows(n, most, h);
    Spacing(ch - ColumnHeight(cols[i]), n + 1, MIN_YSPACE);
  }

  /** With one label height every box lies inside the canvas and no two boxes overlap. */
  lemma CommonHeightIsClean(cols: Columns, h: nat, fw: int, fh: int, i: nat, j: nat, k: nat, m: nat)
    requires CommonHeight(cols, h) && h > 0
    requires i < |cols| && j < |cols[i]| && k < |cols| && m < |cols[k]| && (i, j) != (k, m)
    ensures var cw, ch := CanvasWidth(cols, fw), CanvasHeight(cols, fh);
            && Inside(BoxAt(cols, cw, ch, i, j), cw, ch)
            && Apart(BoxAt(cols, cw, ch, i, j), BoxAt(cols, cw, ch, k, m))
  {
    CommonHeightSpacing(cols, h, fh, i);
    BoxInside(cols, fw, fh, i, j);
    if i < k {
      DifferentColumnsApart(cols, fw, fh, i, j, k, m);
    } else if k < i {
      DifferentColumnsApart(cols, fw, fh, k, m, i, j);
    } else if j < m {
      RoomyColumnIsClean(cols, fw, fh, i, j, m);
    } else {
      RoomyColumnIsClean(cols, fw, fh, i, m, j);
    }
  }

  /** The row count comes from the tallest column, so a column with more, smaller labels may be
      squeezed: here its two boxes overlap by a pixel. */
  lemma UnevenHeightsOverlap()
    ensures var cols := [[Label(10, 100)], [Label(10, 50), Label(10, 49)]];
            var cw, ch := CanvasWidth(cols, 0), CanvasHeight(cols, 0);
            !Apart(BoxAt(cols, cw, ch, 1, 0), BoxAt(cols, cw, ch, 1, 1))
  {
    var a, b := [Label(10, 100)], [Label(10, 50), Label(10, 49)];
    var cols := [a, b];
    assert a[..0] == [] && b[..1] == [b[0]] && [b[0]][..0] == [];
    assert ColumnHeight(a) == 100;
    assert ColumnHeight([b[0]]) == 50;
    assert ColumnHeight(b) == 99;
    assert cols[..1] == [a];
    assert TotalHeight([a]) == 100 && RowsOfTallest([a]) == 1;
    assert TotalHeight(cols) == 100 && RowsOfTallest(cols) == 1;
    assert YSpace(b, CanvasHeight(cols, 0)) == 7;
    RowsApartExactlyWhen(cols, 0, 0, 1, 0);
  }

  lemma OneRowSpacing(cols: Columns, fh: int, i: nat)
    requires i < |cols| && |cols[i]| == 1
    ensures YSpace(cols[i], CanvasHeight(cols, fh)) >= PAD
  {
    Spacing(CanvasHeight(cols, fh) - ColumnHeight(cols[i]), 2, PAD);
  }

  /** Every column with rows to keep apart has room for the padding between them. */
  ghost predicate Roomy(cols: Columns, cheight: int) {
    forall i :: 0 <= i < |cols| && |cols[i]| >= 2 ==> YSpace(cols[i], cheight) >= 2 * PAD
  }

  /** A label of height 100 beside twenty of height 5, which take no more height but need more gaps: the
      row spacing is zero, and the first box of the second column leaves the canvas. */
  lemma TallLabelPushesOut()
    ensures var cols := [[Label(10, 100)], seq(20, _ => Label(10, 5))];
            var cw, ch := CanvasWidth(cols, 0), CanvasHeight(cols, 0);
            YSpace(cols[1], ch) == 0 && !Inside(BoxAt(cols, cw, ch, 1, 0), cw, ch)
  {
    var a, b := [Label(10, 100)], seq(20, _ => Label(10, 5));
    var cols := [a, b];
    assert a[..0] == [] && cols[..1] == [a];
    assert ColumnHeight(a) == 100;
    CommonColumnHeight(b, 5);
    TimesIs(20, 5);
    assert TotalHeight([a]) == 100 && RowsOfTallest([a]) == 1;
    assert TotalHeight(cols) == 100 && RowsOfTallest(cols) == 1;
  }

  // ---- the canvas ----

  /** The canvas is the narrowest that holds the frame and leaves 50 pixels between columns. */
  lemma CanvasWidthIsLeast(cols: Columns, frame: int, w: int)
    ensures frame <= CanvasWidth(cols, frame) && XSpace(cols, CanvasWidth(cols, frame)) >= 50
    ensures frame <= w && XSpace(cols, w) >= 50 ==> CanvasWidth(cols, frame) <= w
  {
    Spacing(CanvasWidth(cols, frame) - TotalWidth(cols), |cols| + 1, 50);
    Spacing(w - TotalWidth(cols), |cols| + 1, 50);
  }

  /** Column i is the first of the greatest height. */
  predicate FirstTallest(cols: Columns, i: nat)
    requires i < |cols|
  {
    && (forall k :: 0 <= k < |cols| ==> ColumnHeight(cols[k]) <= ColumnHeight(cols[i]))
    && (forall k :: 0 <= k < i ==> ColumnHeight(cols[k]) < ColumnHeight(cols[i]))
  }

  lemma {:induction false} TallestIs(cols: Columns, i: nat)
    requires i < |cols| && FirstTallest(cols, i) && ColumnHeight(cols[i]) > 0
    ensures TotalHeight(cols) == ColumnHeight(cols[i]) && RowsOfTallest(cols) == |cols[i]|
  {
    hide ColumnHeight;
    var rest := cols[..|cols| - 1];
    assert forall k :: 0 <= k < |rest| ==> rest[k] == cols[k];
    if i < |rest| {
      TallestIs(rest, i);
    } else {
      BelowAll(rest, ColumnHeight(cols[i]));
    }
  }

  lemma {:induction false} BelowAll(cols: Columns, h: nat)
    requires h > 0 && forall k :: 0 <= k < |cols| ==> ColumnHeight(cols[k]) < h
    ensures TotalHeight(cols) < h
  {
    if cols != [] {
      BelowAll(cols[..|cols| - 1], h);
    }
  }

  /** The canvas is the lowest that holds the frame and leaves 10 pixels between the rows of the first
      column of greatest height. */
  lemma CanvasHeightIsLeast(cols: Columns, frame: int, i: nat, h: int)
    requires i < |cols| && FirstTallest(cols, i) && ColumnHeight(cols[i]) > 0
    ensures frame <= CanvasHeight(cols, frame) && YSpace(cols[i], CanvasHeight(cols, frame)) >= 10
    ensures frame <= h && YSpace(cols[i], h) >= 10 ==> CanvasHeight(cols, frame) <= h
  {
    TallestIs(cols, i);
    Spacing(CanvasHeight(cols, frame) - ColumnHeight(cols[i]), |cols[i]| + 1, 10);
    Spacing(h - ColumnHeight(cols[i]), |cols[i]| + 1, 10);
  }

  /** Three labels in a frame that is wide but low: the canvas and the boxes in pixels. */
  lemma ThreeLabels()
    ensures var cols := [[Label(30, 20)], [Label(40, 20), Label(10, 24)]];
            && CanvasWidth(cols, 310) == 310 && CanvasHeight(cols, 60) == 74
            && BoxAt(cols, 310, 74, 0, 0) == Box(36, 74, 23, 51)
            && BoxAt(cols, 310, 74, 1, 0) == Box(146, 194, 6, 34)
            && BoxAt(cols, 310, 74, 1, 1) == Box(146, 164, 36, 68)
  {
    var a, b := [Label(30, 20)], [Label(40, 20), Label(10, 24)];
    var cols := [a, b];
    assert a[..0] == [] && b[..1] == [b[0]] && [b[0]][..0] == [] && cols[..1] == [a];
    assert ColumnHeight(a) == 20 && ColumnHeight([b[0]]) == 20 && ColumnHeight(b) == 44;
    assert ColumnWidth(a) == 30 && ColumnWidth([b[0]]) == 40 && ColumnWidth(b) == 40;
    assert TotalWidth([a]) == 30 && TotalWidth(cols) == 70;
    assert TotalHeight([a]) == 20 && RowsOfTallest([a]) == 1;
    assert TotalHeight(cols) == 44 && RowsOfTallest(cols) == 2;
    assert XSpace(cols, 310) == 80 && YSpace(a, 74) == 27 && YSpace(b, 74) == 10;
    assert XPos(cols, 80, 0) == 40 && XPos(cols, 80, 1) == 150;
    assert YPos(b, 10, 0) == 10 && YPos(b, 10, 1) == 40;
  }

  // ---- the loops ----

  /** The boxes of one column, from the top down. */
  method PlaceColumn(col: seq<Label>, xpos: int, yspace: int) returns (boxes: seq<Box>)
    ensures |boxes| == |col| && forall j :: 0 <= j < |col| ==> boxes[j] == BoxInColumn(col, xpos, yspace, j)
  {
    boxes := [];
    var ypos := yspace;
    var i := 0;
    while i < |col|
      invariant 0 <= i <= |col| && |boxes| == i && ypos == YPos(col, yspace, i)
      invariant forall j :: 0 <= j < i ==> boxes[j] == BoxInColumn(col, xpos, yspace, j)
    {
      boxes := boxes + [Box(xpos - PAD, xpos + col[i].w + PAD, ypos - PAD, ypos + col[i].h + PAD)];
      ypos := ypos + col[i].h + yspace;
      i := i + 1;
    }
  }

  /** The layout: the canvas is made large enough and every box goes where BoxAt says. */
  method Layout(cols: Columns, fw: int, fh: int) returns (cwidth: int, cheight: int, boxes: seq<seq<Box>>)
    ensures cwidth == CanvasWidth(cols, fw) && cheight == CanvasHeight(cols, fh)
    ensures |boxes| == |cols| && forall i :: 0 <= i < |cols| ==> |boxes[i]| == |cols[i]|
    ensures forall i, j :: 0 <= i < |cols| && 0 <= j < |cols[i]| ==> boxes[i][j] == BoxAt(cols, cwidth, cheight, i, j)
  {
    cwidth, cheight, boxes := CanvasWidth(cols, fw), CanvasHeight(cols, fh), [];
    var xspace := XSpace(cols, cwidth);
    var xpos := xspace / 2;
    var r := 0;
    while r < |cols|
      invariant 0 <= r <= |cols| && |boxes| == r && xpos == XPos(cols, xspace, r)
      invariant forall i :: 0 <= i < r ==> |boxes[i]| == |cols[i]|
      invariant forall i, j :: 0 <= i < r && 0 <= j < |cols[i]| ==> boxes[i][j] == BoxAt(cols, cwidth, cheight, i, j)
    {
      var column := PlaceColumn(cols[r], xpos, YSpace(cols[r], cheight));
      boxes := boxes + [column];
      xpos := xpos + ColumnWidth(cols[r]) + xspace;
      r := r + 1;
    }
  }
}
