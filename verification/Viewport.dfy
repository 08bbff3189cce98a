/** The article reader's viewport model: which row shows a rendered line, which a
    row of an image, and how a reading position survives rebuilding it. */
module Viewport {
  import opened Common
  import opened Boxes

  datatype ItemKind = TextRow(line: nat) | ImageRow(img: nat) | AltRow(img: nat)

  /** Pixel height of a character cell and width of one, both positive. */
  datatype Cell = Cell(h: nat, w: nat)

  datatype Model = Model(items: seq<ItemKind>, blockRow: seq<nat>, rRows: seq<nat>)

  // --------------------------------------------------------------- geometry

  /** Ceiling division. */
  function CeilDiv(a: nat, b: nat): (r: nat)
    requires 0 < b
    ensures r * b >= a && (a > 0 ==> 0 < r && (r - 1) * b < a)
  {
    DivFacts(a + b - 1, b);
    (a + b - 1) / b
  }

  lemma {:induction false} DivFacts(x: nat, b: nat)
    requires 0 < b
    ensures x / b * b <= x < x / b * b + b && (b <= x ==> 0 < x / b)
    ensures (x / b - 1) * b == x / b * b - b
  {
  }

  function WidthColumns(a: Anchor, cols: nat): nat {
    Max(1, Min(a.displayCols, Max(0, cols - a.indentCols)))
  }

  function WidthPixels(a: Anchor, cols: nat, cell: Cell): (r: nat)
    ensures 0 < r
  {
    var px := WidthColumns(a, cols) * cell.w;
    Max(1, Min(px, 0xFFFF_FFFF))
  }

  /** Displayed height in pixels, taken to fit 32 bits. */
  function DisplayHeight(a: Anchor, px: nat): (r: nat)
    ensures 0 < r
  {
    if a.w == 0 then 1 else Max(1, px * a.h / a.w)
  }

  /** The picture keeps its proportions: the height is to the width as the picture's own
      height is to its own width, rounded down, and never nothing. */
  lemma {:induction false} ProportionsKept(a: Anchor, px: nat)
    requires 0 < a.w
    ensures var h := DisplayHeight(a, px);
            && (h * a.w <= px * a.h || (h == 1 && px * a.h < a.w))
            && px * a.h < (h + 1) * a.w
  {
    var x := px * a.h;
    DivFacts(x, a.w);
    assert (x / a.w + 1) * a.w == x / a.w * a.w + a.w;
  }

  /** It is as wide as its box, as far as the window has room behind the indent, and one
      column at least. */
  lemma {:induction false} WidthFits(a: Anchor, cols: nat)
    ensures var c := WidthColumns(a, cols);
            && 1 <= c && (a.displayCols >= 1 ==> c <= a.displayCols)
            && (a.indentCols < cols ==> a.indentCols + c <= cols)
            && (a.indentCols + c < cols ==> c >= a.displayCols)
  {
  }

  function HeightPixels(a: Anchor, cols: nat, cell: Cell): (r: nat)
    ensures 0 < r
  {
    DisplayHeight(a, WidthPixels(a, cols, cell))
  }

  /** Cell rows of an image: just enough for its height. */
  function RowsOf(a: Anchor, cols: nat, cell: Cell): (r: nat)
    requires 0 < cell.h
    ensures (r - 1) * cell.h < HeightPixels(a, cols, cell) <= r * cell.h && 0 < r
  {
    CeilDiv(HeightPixels(a, cols, cell), cell.h)
  }

  // ------------------------------------------------------------- the model

  /** A line is replaced by an image when a shown image's block contains it. */
  predicate Covered(images: seq<Anchor>, shown: seq<bool>, line: nat)
    requires |shown| == |images|
  {
    exists i :: 0 <= i < |images| && shown[i] && images[i].blockStart <= line < images[i].blockEnd
  }

  /** A line inside such a block, behind its first, has no row it could stand for. */
  predicate Hidden(images: seq<Anchor>, shown: seq<bool>, line: nat)
    requires |shown| == |images|
  {
    exists i :: 0 <= i < |images| && shown[i] && images[i].blockStart < line < images[i].blockEnd
  }

  /** Lines `from .. to` outside the first `n` images' shown blocks, in order. */
  function Uncovered(images: seq<Anchor>, shown: seq<bool>, to: nat): seq<nat>
    requires |shown| == |images|
  {
    if to == 0 then []
    else
      var rest := Uncovered(images, shown, to - 1);
      if Covered(images, shown, to - 1) then rest else rest + [to - 1]
  }

  /** The rendered lines among the items, in order. */
  function TextLines(items: seq<ItemKind>): seq<nat> {
    if items == [] then []
    else
      var rest := TextLines(items[..|items| - 1]);
      if items[|items| - 1].TextRow? then rest + [items[|items| - 1].line] else rest
  }

  /** The rendered line an item stands for: an image's rows stand for its first line. */
  function KeyOf(images: seq<Anchor>, item: ItemKind): nat {
    match item
    case TextRow(line) => line
    case ImageRow(i) => if i < |images| then images[i].blockStart else 0
    case AltRow(i) => if i < |images| then images[i].blockStart else 0
  }

  function Many(item: ItemKind, n: nat): (r: seq<ItemKind>)
    ensures |r| == n && forall k :: 0 <= k < n ==> r[k] == item
  {
    seq(n, _ => item)
  }

  function TextRange(from: nat, to: nat): (r: seq<ItemKind>)
    ensures |r| == Max(0, to - from) && forall k :: 0 <= k < |r| ==> r[k] == TextRow(from + k)
  {
    seq(Max(0, to - from), k requires 0 <= k => TextRow(from + k))
  }

  /** The items of image `i`: its rows and alt text, or its box's own lines. */
  function BlockItems(images: seq<Anchor>, shown: seq<bool>, rows: seq<nat>, i: nat): seq<ItemKind>
    requires i < |images| == |shown| == |rows|
  {
    if shown[i] then Many(ImageRow(i), rows[i]) + [AltRow(i)]
    else TextRange(images[i].blockStart, images[i].blockEnd)
  }

  function EndOf(images: seq<Anchor>, i: nat): nat
    requires i <= |images|
  {
    if i == 0 then 0 else images[i - 1].blockEnd
  }

  /** Items up to the end of the `n`-th image. */
  function ItemsTo(images: seq<Anchor>, shown: seq<bool>, rows: seq<nat>, n: nat): seq<ItemKind>
    requires n <= |images| == |shown| == |rows|
  {
    if n == 0 then []
    else
      ItemsTo(images, shown, rows, n - 1) + TextRange(EndOf(images, n - 1), images[n - 1].blockStart)
      + BlockItems(images, shown, rows, n - 1)
  }

  lemma {:induction false} Apart(images: seq<Anchor>, total: nat, i: nat)
    requires i < |images| && IntervalsOk(images, total)
    ensures EndOf(images, i) <= images[i].blockStart < images[i].blockEnd <= total
  {
  }

  function AllItems(images: seq<Anchor>, shown: seq<bool>, rows: seq<nat>, total: nat): seq<ItemKind>
    requires |images| == |shown| == |rows|
  {
    ItemsTo(images, shown, rows, |images|) + TextRange(EndOf(images, |images|), total)
  }

  lemma {:induction false} EndBound(images: seq<Anchor>, total: nat)
    requires IntervalsOk(images, total)
    ensures EndOf(images, |images|) <= total
  {
  }

  /** Row counts of all images at a width, with none for those shown as text. */
  function RowCounts(images: seq<Anchor>, cols: nat, cell: Cell): (r: seq<nat>)
    requires 0 < cell.h
    ensures |r| == |images| && forall i :: 0 <= i < |r| ==> r[i] == RowsOf(images[i], cols, cell)
  {
    seq(|images|, i requires 0 <= i < |images| => RowsOf(images[i], cols, cell))
  }

  /** One image: the lines before its block, then its rows or its box. */
  method AddImage(images: seq<Anchor>, shown: seq<bool>, total: nat, i: nat, items: seq<ItemKind>, cols: nat, cell: Cell)
    returns (items': seq<ItemKind>, at: nat, r: nat)
    requires |shown| == |images| && IntervalsOk(images, total) && 0 < cell.h && i < |images|
    requires items == ItemsTo(images, shown, RowCounts(images, cols, cell), i)
    ensures items <= items' == ItemsTo(images, shown, RowCounts(images, cols, cell), i + 1)
    ensures BlockPlaced(items', shown[i], RowCounts(images, cols, cell)[i], at, r, i)
    ensures forall x :: |items| <= x < |items'| && items'[x].ImageRow? ==> items'[x].img == i && at <= x < at + r
  {
    var a := images[i];
    Apart(images, total, i);
    ghost var rows := RowCounts(images, cols, cell);
    var text := TextRange(EndOf(images, i), a.blockStart);
    at := |items + text|;
    if shown[i] {
      r := RowsOf(a, cols, cell);
      items' := items + text + (Many(ImageRow(i), r) + [AltRow(i)]);
      PicturePlaced(items, text, rows[i], i);
    } else {
      r := 0;
      items' := items + text + TextRange(a.blockStart, a.blockEnd);
      BoxPlaced(items, text, TextRange(a.blockStart, a.blockEnd), rows[i], i);
    }
  }

  lemma {:induction false} PicturePlaced(items: seq<ItemKind>, text: seq<ItemKind>, r: nat, i: nat)
    requires forall k :: 0 <= k < |text| ==> text[k].TextRow?
    ensures var all, at := items + text + (Many(ImageRow(i), r) + [AltRow(i)]), |items + text|;
            && items <= all && BlockPlaced(all, true, r, at, r, i)
            && forall x :: |items| <= x < |all| && all[x].ImageRow? ==> all[x].img == i && at <= x < at + r
  {
    var all, at := items + text + (Many(ImageRow(i), r) + [AltRow(i)]), |items + text|;
    assert all[at..at + r] == Many(ImageRow(i), r);
  }

  lemma {:induction false} BoxPlaced(items: seq<ItemKind>, text: seq<ItemKind>, box: seq<ItemKind>, rows: nat, i: nat)
    requires forall k :: 0 <= k < |text| ==> text[k].TextRow?
    requires forall k :: 0 <= k < |box| ==> box[k].TextRow?
    ensures var all := items + text + box;
            && items <= all && BlockPlaced(all, false, rows, |items + text|, 0, i)
            && forall x :: |items| <= x < |all| ==> !all[x].ImageRow?
  {
  }

  /** The loop over the images; `shown` says whose full picture could be prepared. */
  method BuildModel(images: seq<Anchor>, shown: seq<bool>, total: nat, cols: nat, cell: Cell) returns (m: Model)
    requires |shown| == |images| && IntervalsOk(images, total) && 0 < cell.h
    ensures IsModel(m, images, shown, total, cols, cell)
  {
    var items: seq<ItemKind> := [];
    var blockRow: seq<nat>, rRows: seq<nat> := [], [];
    ghost var rows := RowCounts(images, cols, cell);
    for i := 0 to |images|
      invariant items == ItemsTo(images, shown, rows, i)
      invariant |blockRow| == |rRows| == i
      invariant AllPlaced(items, shown, rows, blockRow, rRows) && RowsOwned(items, blockRow, rRows)
    {
      ghost var before := items;
      var at, r;
      items, at, r := AddImage(images, shown, total, i, items, cols, cell);
      AllStillPlaced(before, items, shown, rows, blockRow, rRows);
      OneMorePlaced(items, shown, rows, blockRow, rRows, at, r);
      blockRow, rRows := blockRow + [at], rRows + [r];
    }
    EndBound(images, total);
    ghost var before := items;
    items := items + TextRange(EndOf(images, |images|), total);
    AllStillPlaced(before, items, shown, rows, blockRow, rRows);
    m := Model(items, blockRow, rRows);
  }

  ghost predicate IsModel(m: Model, images: seq<Anchor>, shown: seq<bool>, total: nat, cols: nat, cell: Cell)
    requires |shown| == |images| && IntervalsOk(images, total) && 0 < cell.h
  {
    var rows := RowCounts(images, cols, cell);
    && m.items == AllItems(images, shown, rows, total)
    && |m.blockRow| == |m.rRows| == |images|
    && AllPlaced(m.items, shown, rows, m.blockRow, m.rRows)
    && RowsOwned(m.items, m.blockRow, m.rRows)
  }

  /** An image's rows lie in its own stretch of the model only. */
  ghost predicate RowsOwned(items: seq<ItemKind>, blockRow: seq<nat>, rRows: seq<nat>)
    requires |blockRow| == |rRows|
  {
    forall x :: 0 <= x < |items| && items[x].ImageRow? ==>
      items[x].img < |blockRow| && blockRow[items[x].img] <= x < blockRow[items[x].img] + rRows[items[x].img]
  }

  ghost predicate AllPlaced(items: seq<ItemKind>, shown: seq<bool>, rows: seq<nat>, blockRow: seq<nat>, rRows: seq<nat>)
    requires |blockRow| == |rRows| <= |shown| == |rows|
  {
    forall j :: 0 <= j < |blockRow| ==> BlockPlaced(items, shown[j], rows[j], blockRow[j], rRows[j], j)
  }

  /** A shown image fills its rows and one alt row; a degraded one has none of its own. */
  ghost predicate BlockPlaced(items: seq<ItemKind>, shown: bool, rows: nat, at: nat, r: nat, i: nat) {
    && r == (if shown then rows else 0) && at <= |items|
    && (shown ==> at + rows < |items| && items[at..at + rows] == Many(ImageRow(i), rows) && items[at + rows] == AltRow(i))
  }

  lemma {:induction false} StillPlaced(before: seq<ItemKind>, items: seq<ItemKind>, shown: bool, rows: nat, at: nat, r: nat, i: nat)
    requires before <= items && BlockPlaced(before, shown, rows, at, r, i)
    ensures BlockPlaced(items, shown, rows, at, r, i)
  {
    if shown { assert items[at..at + rows] == before[at..at + rows]; }
  }

  lemma {:induction false} AllStillPlaced(before: seq<ItemKind>, items: seq<ItemKind>, shown: seq<bool>, rows: seq<nat>,
                                          blockRow: seq<nat>, rRows: seq<nat>)
    requires before <= items && |blockRow| == |rRows| <= |shown| == |rows|
    requires AllPlaced(before, shown, rows, blockRow, rRows)
    ensures AllPlaced(items, shown, rows, blockRow, rRows)
  {
    forall j | 0 <= j < |blockRow| ensures BlockPlaced(items, shown[j], rows[j], blockRow[j], rRows[j], j) {
      StillPlaced(before, items, shown[j], rows[j], blockRow[j], rRows[j], j);
    }
  }

  lemma {:induction false} OneMorePlaced(items: seq<ItemKind>, shown: seq<bool>, rows: seq<nat>, blockRow: seq<nat>,
                                         rRows: seq<nat>, at: nat, r: nat)
    requires |blockRow| == |rRows| < |shown| == |rows| && AllPlaced(items, shown, rows, blockRow, rRows)
    requires BlockPlaced(items, shown[|blockRow|], rows[|blockRow|], at, r, |blockRow|)
    ensures AllPlaced(items, shown, rows, blockRow + [at], rRows + [r])
  {
  }

  // -------------------------------------------------- which lines are shown

  lemma {:induction false} TextLinesJoin(a: seq<ItemKind>, b: seq<ItemKind>)
    ensures TextLines(a + b) == TextLines(a) + TextLines(b)
  {
    if b == [] {
      assert a + b == a;
    } else {
      var n := |b| - 1;
      TextLinesJoin(a, b[..n]);
      assert (a + b)[..|a + b| - 1] == a + b[..n];
    }
  }

  lemma {:induction false} NoTextLines(items: seq<ItemKind>)
    requires forall k :: 0 <= k < |items| ==> !items[k].TextRow?
    ensures TextLines(items) == []
  {
    if items != [] { NoTextLines(items[..|items| - 1]); }
  }

  /** A stretch of lines outside every shown block continues the uncovered lines. */
  lemma {:induction false} UncoveredRange(images: seq<Anchor>, shown: seq<bool>, from: nat, to: nat)
    requires |shown| == |images| && from <= to
    requires forall l :: from <= l < to ==> !Covered(images, shown, l)
    ensures Uncovered(images, shown, to) == Uncovered(images, shown, from) + TextLines(TextRange(from, to))
  {
    if from < to {
      UncoveredRange(images, shown, from, to - 1);
      var r := TextRange(from, to);
      assert r[..|r| - 1] == TextRange(from, to - 1);
    }
  }

  lemma {:induction false} CoveredRange(images: seq<Anchor>, shown: seq<bool>, from: nat, to: nat)
    requires |shown| == |images| && from <= to
    requires forall l :: from <= l < to ==> Covered(images, shown, l)
    ensures Uncovered(images, shown, to) == Uncovered(images, shown, from)
  {
    if from < to { CoveredRange(images, shown, from, to - 1); }
  }

  /** No shown block reaches between two neighbouring blocks, nor a shown one into another. */
  lemma {:induction false} BetweenBlocks(images: seq<Anchor>, shown: seq<bool>, total: nat, n: nat, line: nat)
    requires |shown| == |images| && IntervalsOk(images, total) && n <= |images| && EndOf(images, n) <= line
    requires n < |images| ==> line < images[n].blockEnd
    ensures Covered(images, shown, line) <==> n < |images| && shown[n] && images[n].blockStart <= line
  {
    forall i | 0 <= i < |images| && i != n ensures !(images[i].blockStart <= line < images[i].blockEnd) {
      if i < n {
        assert i < n - 1 ==> images[i].blockEnd <= images[n - 1].blockStart < images[n - 1].blockEnd;
      } else {
        assert images[n].blockEnd <= images[i].blockStart;
      }
    }
  }

  /** The stretch before an image's block, then the block itself. */
  lemma {:induction false} BlockLines(images: seq<Anchor>, shown: seq<bool>, rows: seq<nat>, i: nat, total: nat)
    requires i < |images| == |shown| == |rows| && IntervalsOk(images, total)
    ensures EndOf(images, i) <= images[i].blockStart <= images[i].blockEnd
    ensures Uncovered(images, shown, images[i].blockStart) ==
            Uncovered(images, shown, EndOf(images, i)) + TextLines(TextRange(EndOf(images, i), images[i].blockStart))
    ensures Uncovered(images, shown, images[i].blockEnd) ==
            Uncovered(images, shown, images[i].blockStart) + TextLines(BlockItems(images, shown, rows, i))
  {
    var a := images[i];
    Apart(images, total, i);
    forall l | EndOf(images, i) <= l < a.blockEnd
      ensures Covered(images, shown, l) <==> shown[i] && a.blockStart <= l
    {
      BetweenBlocks(images, shown, total, i, l);
    }
    UncoveredRange(images, shown, EndOf(images, i), a.blockStart);
    if shown[i] {
      CoveredRange(images, shown, a.blockStart, a.blockEnd);
      NoTextLines(BlockItems(images, shown, rows, i));
    } else {
      UncoveredRange(images, shown, a.blockStart, a.blockEnd);
    }
  }

  lemma {:induction false} ItemsStep(images: seq<Anchor>, shown: seq<bool>, rows: seq<nat>, i: nat, total: nat)
    requires i < |images| == |shown| == |rows| && IntervalsOk(images, total)
    ensures EndOf(images, i) <= images[i].blockStart < images[i].blockEnd
    ensures ItemsTo(images, shown, rows, i + 1) ==
            ItemsTo(images, shown, rows, i) + TextRange(EndOf(images, i), images[i].blockStart)
            + BlockItems(images, shown, rows, i)
  {
    Apart(images, total, i);
  }

  lemma {:induction false} TextLinesStep(images: seq<Anchor>, shown: seq<bool>, rows: seq<nat>, n: nat, total: nat)
    requires 0 < n <= |images| == |shown| == |rows| && IntervalsOk(images, total)
    requires TextLines(ItemsTo(images, shown, rows, n - 1)) == Uncovered(images, shown, EndOf(images, n - 1))
    ensures TextLines(ItemsTo(images, shown, rows, n)) == Uncovered(images, shown, EndOf(images, n))
  {
    var i := n - 1;
    var head, gap := ItemsTo(images, shown, rows, i), TextRange(EndOf(images, i), images[i].blockStart);
    ItemsStep(images, shown, rows, i, total);
    ThreeParts(head, gap, BlockItems(images, shown, rows, i));
    BlockLines(images, shown, rows, i, total);
  }

  lemma {:induction false} TextLinesTo(images: seq<Anchor>, shown: seq<bool>, rows: seq<nat>, n: nat, total: nat)
    requires n <= |images| == |shown| == |rows| && IntervalsOk(images, total)
    ensures TextLines(ItemsTo(images, shown, rows, n)) == Uncovered(images, shown, EndOf(images, n))
  {
    if n > 0 {
      TextLinesTo(images, shown, rows, n - 1, total);
      var items, to := ItemsTo(images, shown, rows, n - 1), EndOf(images, n - 1);
      assert TextLines(items) == Uncovered(images, shown, to);
      TextLinesStep(images, shown, rows, n, total);
    }
  }

  lemma {:induction false} ThreeParts(a: seq<ItemKind>, b: seq<ItemKind>, c: seq<ItemKind>)
    ensures TextLines(a + b + c) == TextLines(a) + TextLines(b) + TextLines(c)
  {
    TextLinesJoin(a + b, c);
    TextLinesJoin(a, b);
  }

  /** The model shows every rendered line outside the shown images' blocks once, in order. */
  lemma {:induction false} EveryLineOnce(images: seq<Anchor>, shown: seq<bool>, rows: seq<nat>, total: nat)
    requires |images| == |shown| == |rows| && IntervalsOk(images, total)
    ensures TextLines(AllItems(images, shown, rows, total)) == Uncovered(images, shown, total)
  {
    var n := |images|;
    EndBound(images, total);
    TextLinesTo(images, shown, rows, n, total);
    TextLinesJoin(ItemsTo(images, shown, rows, n), TextRange(EndOf(images, n), total));
    forall l | EndOf(images, n) <= l < total ensures !Covered(images, shown, l) {
      BetweenBlocks(images, shown, total, n, l);
    }
    UncoveredRange(images, shown, EndOf(images, n), total);
  }

  // -------------------------------------------------------- reading position

  /** Items stand for lines in ascending order, each of them visible. */
  ghost predicate Ascending(images: seq<Anchor>, items: seq<ItemKind>) {
    forall j, k :: 0 <= j < k < |items| ==> KeyOf(images, items[j]) <= KeyOf(images, items[k])
  }

  ghost predicate Within(images: seq<Anchor>, items: seq<ItemKind>, from: nat, to: nat) {
    forall k :: 0 <= k < |items| ==> from <= KeyOf(images, items[k]) < to
  }

  ghost predicate Stands(images: seq<Anchor>, items: seq<ItemKind>, line: nat) {
    exists k :: 0 <= k < |items| && KeyOf(images, items[k]) == line
  }

  lemma {:induction false} PartsJoin(images: seq<Anchor>, a: seq<ItemKind>, b: seq<ItemKind>, from: nat, mid: nat, to: nat)
    requires from <= mid <= to && Ascending(images, a) && Ascending(images, b)
    requires Within(images, a, from, mid) && Within(images, b, mid, to)
    ensures Ascending(images, a + b) && Within(images, a + b, from, to)
    ensures forall line: nat :: Stands(images, a + b, line) <==> Stands(images, a, line) || Stands(images, b, line)
  {
    forall j, k | 0 <= j < k < |a + b| ensures KeyOf(images, (a + b)[j]) <= KeyOf(images, (a + b)[k]) {
      if j < |a| <= k { assert KeyOf(images, a[j]) < mid <= KeyOf(images, b[k - |a|]); }
    }
    forall line: nat ensures Stands(images, a + b, line) <==> Stands(images, a, line) || Stands(images, b, line) {
      StandsJoin(images, a, b, line);
    }
  }

  lemma {:induction false} StandsJoin(images: seq<Anchor>, a: seq<ItemKind>, b: seq<ItemKind>, line: nat)
    ensures Stands(images, a + b, line) <==> Stands(images, a, line) || Stands(images, b, line)
  {
    if Stands(images, a, line) {
      var k :| 0 <= k < |a| && KeyOf(images, a[k]) == line;
      assert (a + b)[k] == a[k];
    }
    if Stands(images, b, line) {
      var k :| 0 <= k < |b| && KeyOf(images, b[k]) == line;
      assert (a + b)[|a| + k] == b[k];
    }
  }

  lemma {:induction false} RangePart(images: seq<Anchor>, from: nat, to: nat)
    requires from <= to
    ensures Ascending(images, TextRange(from, to)) && Within(images, TextRange(from, to), from, to)
    ensures forall line: nat :: Stands(images, TextRange(from, to), line) <==> from <= line < to
  {
    forall line: nat | from <= line < to ensures Stands(images, TextRange(from, to), line) {
      assert TextRange(from, to)[line - from] == TextRow(line);
    }
  }

  lemma {:induction false} BlockPart(images: seq<Anchor>, shown: seq<bool>, rows: seq<nat>, i: nat, total: nat)
    requires i < |images| == |shown| == |rows| && IntervalsOk(images, total)
    ensures images[i].blockStart < images[i].blockEnd
    ensures var b := BlockItems(images, shown, rows, i);
            && Ascending(images, b) && Within(images, b, images[i].blockStart, images[i].blockEnd)
            && forall line: nat :: Stands(images, b, line) <==>
                 images[i].blockStart <= line < images[i].blockEnd && (shown[i] ==> line == images[i].blockStart)
  {
    Apart(images, total, i);
    if shown[i] {
      var b := BlockItems(images, shown, rows, i);
      assert b[rows[i]] == AltRow(i);
    } else {
      RangePart(images, images[i].blockStart, images[i].blockEnd);
    }
  }

  lemma {:induction false} HiddenBetween(images: seq<Anchor>, shown: seq<bool>, total: nat, n: nat, line: nat)
    requires |shown| == |images| && IntervalsOk(images, total) && n <= |images| && EndOf(images, n) <= line
    requires n < |images| ==> line < images[n].blockEnd
    ensures Hidden(images, shown, line) <==> n < |images| && shown[n] && images[n].blockStart < line
  {
    forall i | 0 <= i < |images| && i != n ensures !(images[i].blockStart < line < images[i].blockEnd) {
      if i < n {
        assert i < n - 1 ==> images[i].blockEnd <= images[n - 1].blockStart < images[n - 1].blockEnd;
      } else {
        assert images[n].blockEnd <= images[i].blockStart;
      }
    }
  }

  /** Up to image `n` the items ascend, and stand for every line that is not hidden. */
  ghost predicate Covers(images: seq<Anchor>, shown: seq<bool>, items: seq<ItemKind>, to: nat)
    requires |shown| == |images|
  {
    && Ascending(images, items) && Within(images, items, 0, to)
    && forall line: nat :: line < to ==> (Stands(images, items, line) <==> !Hidden(images, shown, line))
  }

  lemma {:induction false} CoversMore(images: seq<Anchor>, shown: seq<bool>, a: seq<ItemKind>, b: seq<ItemKind>, mid: nat, to: nat)
    requires |shown| == |images| && mid <= to && Covers(images, shown, a, mid)
    requires Ascending(images, b) && Within(images, b, mid, to)
    requires forall line: nat :: mid <= line < to ==> (Stands(images, b, line) <==> !Hidden(images, shown, line))
    ensures Covers(images, shown, a + b, to)
  {
    PartsJoin(images, a, b, 0, mid, to);
    forall line: nat | line < to ensures Stands(images, a + b, line) <==> !Hidden(images, shown, line) {
      if line < mid { assert !Stands(images, b, line); } else { assert !Stands(images, a, line); }
    }
  }

  lemma {:induction false} CoversBlock(images: seq<Anchor>, shown: seq<bool>, rows: seq<nat>, i: nat, total: nat, head: seq<ItemKind>, all: seq<ItemKind>)
    requires i < |images| == |shown| == |rows| && IntervalsOk(images, total)
    requires Covers(images, shown, head, EndOf(images, i)) && EndOf(images, i) <= images[i].blockStart < images[i].blockEnd
    requires all == head + TextRange(EndOf(images, i), images[i].blockStart) + BlockItems(images, shown, rows, i)
    ensures Covers(images, shown, all, EndOf(images, i + 1))
  {
    var from, a := EndOf(images, i), images[i];
    forall line: nat | from <= line < a.blockEnd
      ensures Hidden(images, shown, line) <==> shown[i] && a.blockStart < line
    {
      HiddenBetween(images, shown, total, i, line);
    }
    RangePart(images, from, a.blockStart);
    CoversMore(images, shown, head, TextRange(from, a.blockStart), from, a.blockStart);
    BlockPart(images, shown, rows, i, total);
    CoversMore(images, shown, head + TextRange(from, a.blockStart), BlockItems(images, shown, rows, i), a.blockStart, a.blockEnd);
  }

  lemma {:induction false} CoversStep(images: seq<Anchor>, shown: seq<bool>, rows: seq<nat>, n: nat, total: nat)
    requires 0 < n <= |images| == |shown| == |rows| && IntervalsOk(images, total)
    requires Covers(images, shown, ItemsTo(images, shown, rows, n - 1), EndOf(images, n - 1))
    ensures Covers(images, shown, ItemsTo(images, shown, rows, n), EndOf(images, n))
  {
    var i := n - 1;
    ItemsStep(images, shown, rows, i, total);
    CoversBlock(images, shown, rows, i, total, ItemsTo(images, shown, rows, i), ItemsTo(images, shown, rows, i + 1));
  }

  lemma {:induction false} CoversTo(images: seq<Anchor>, shown: seq<bool>, rows: seq<nat>, n: nat, total: nat)
    requires n <= |images| == |shown| == |rows| && IntervalsOk(images, total)
    ensures Covers(images, shown, ItemsTo(images, shown, rows, n), EndOf(images, n))
  {
    if n > 0 {
      CoversTo(images, shown, rows, n - 1, total);
      CoversStep(images, shown, rows, n, total);
    }
  }

  /** The items of a model ascend through exactly the lines that are not hidden. */
  lemma {:induction false} ModelCovers(images: seq<Anchor>, shown: seq<bool>, rows: seq<nat>, total: nat)
    requires |images| == |shown| == |rows| && IntervalsOk(images, total)
    ensures Covers(images, shown, AllItems(images, shown, rows, total), total)
  {
    var n := |images|;
    EndBound(images, total);
    CoversTo(images, shown, rows, n, total);
    RangePart(images, EndOf(images, n), total);
    forall line: nat | EndOf(images, n) <= line < total ensures !Hidden(images, shown, line) {
      HiddenBetween(images, shown, total, n, line);
    }
    CoversMore(images, shown, ItemsTo(images, shown, rows, n), TextRange(EndOf(images, n), total), EndOf(images, n), total);
  }

  function AnchorLine(images: seq<Anchor>, items: seq<ItemKind>, scroll: nat): nat {
    if scroll < |items| then KeyOf(images, items[scroll]) else 0
  }

  /** The first item standing for `line` or a later one. */
  method ScrollToLine(images: seq<Anchor>, items: seq<ItemKind>, line: nat) returns (at: nat)
    ensures at == FirstFrom(images, items, line, 0)
  {
    at := 0;
    while at < |items|
      invariant at <= |items| && FirstFrom(images, items, line, at) == FirstFrom(images, items, line, 0)
    {
      if KeyOf(images, items[at]) >= line { return; }
      at := at + 1;
    }
  }

  function FirstFrom(images: seq<Anchor>, items: seq<ItemKind>, line: nat, at: nat): (r: nat)
    requires at <= |items|
    ensures at <= r <= |items|
    ensures forall k :: at <= k < r ==> KeyOf(images, items[k]) < line
    ensures r < |items| ==> KeyOf(images, items[r]) >= line
    decreases |items| - at
  {
    if at == |items| || KeyOf(images, items[at]) >= line then at else FirstFrom(images, items, line, at + 1)
  }

  /** Scrolling a rebuilt model to the old anchor line finds that line again exactly
      when the line is not hidden inside an image that is shown now. */
  lemma {:induction false} PositionKept(images: seq<Anchor>, shown: seq<bool>, rows: seq<nat>, total: nat, line: nat)
    requires |images| == |shown| == |rows| && IntervalsOk(images, total) && line < total
    ensures var items := AllItems(images, shown, rows, total);
            AnchorLine(images, items, FirstFrom(images, items, line, 0)) == line <==> !Hidden(images, shown, line)
  {
    ModelCovers(images, shown, rows, total);
    FindsLine(images, AllItems(images, shown, rows, total), line);
    assert line == 0 ==> !Hidden(images, shown, line);
  }

  /** In ascending items the search finds a line exactly when some item stands for it. */
  lemma {:induction false} FindsLine(images: seq<Anchor>, items: seq<ItemKind>, line: nat)
    requires Ascending(images, items)
    ensures Stands(images, items, line) ==> AnchorLine(images, items, FirstFrom(images, items, line, 0)) == line
    ensures line > 0 && !Stands(images, items, line) ==> AnchorLine(images, items, FirstFrom(images, items, line, 0)) != line
  {
    var at := FirstFrom(images, items, line, 0);
    if Stands(images, items, line) {
      var k :| 0 <= k < |items| && KeyOf(images, items[k]) == line;
      assert at <= k;
      assert at < k ==> KeyOf(images, items[at]) <= KeyOf(images, items[k]);
    }
  }

  /** Images only ever degrade from picture to box: then the reading position is
      kept from any row of any model to its rebuilding at any other width. */
  lemma {:induction false} RebuildKeepsPosition(images: seq<Anchor>, before: seq<bool>, after: seq<bool>, rows: seq<nat>,
                                                rows': seq<nat>, total: nat, scroll: nat)
    requires |images| == |before| == |after| == |rows| == |rows'| && IntervalsOk(images, total)
    requires forall i :: 0 <= i < |images| && after[i] ==> before[i]
    requires scroll < |AllItems(images, before, rows, total)|
    ensures var line := AnchorLine(images, AllItems(images, before, rows, total), scroll);
            var items := AllItems(images, after, rows', total);
            AnchorLine(images, items, FirstFrom(images, items, line, 0)) == line
  {
    var items := AllItems(images, before, rows, total);
    var line := AnchorLine(images, items, scroll);
    ModelCovers(images, before, rows, total);
    assert KeyOf(images, items[scroll]) == line;
    assert Stands(images, items, line);
    PositionKept(images, after, rows', total, line);
  }
}
