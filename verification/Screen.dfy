/** The article reader on the terminal: full frames, and the one-row scroll that
    moves what is on the screen (ECMA-48 SU and SD, sections 8.3.147 and 8.3.113)
    and draws a single row. */
module Screen {
  import opened Common
  import opened Boxes
  import opened Viewport

  const MIN_COLS := 76

  /** What one terminal row shows; a picture row shows pixel rows `y0 .. y1`. */
  datatype Shown = Empty | Text(line: nat, cols: nat) | Alt(img: nat, cols: nat) | Picture(img: nat, y0: nat, y1: nat)

  type Rows = seq<Shown>

  // ------------------------------------------------------ what should be seen

  /** Pixel rows of row `k` of an image `height` pixels high. */
  function PixelRow(img: nat, k: nat, height: nat, ch: nat): Shown {
    Picture(img, Min(k * ch, height), Min((k + 1) * ch, height))
  }

  function RowAt(m: Model, images: seq<Anchor>, cols: nat, cell: Cell, x: nat): Shown {
    if x >= |m.items| then Empty
    else
      match m.items[x]
      case TextRow(line) => Text(line, cols)
      case AltRow(i) => Alt(i, cols)
      case ImageRow(i) =>
        if i < |images| && i < |m.blockRow| && m.blockRow[i] <= x
        then PixelRow(i, x - m.blockRow[i], HeightPixels(images[i], cols, cell), cell.h)
        else Empty
  }

  /** The full frame of a model at a scroll position. */
  function Frame(m: Model, images: seq<Anchor>, cols: nat, rows: nat, cell: Cell, scroll: nat): (f: Rows)
    ensures |f| == rows && forall y :: 0 <= y < rows ==> f[y] == RowAt(m, images, cols, cell, scroll + y)
  {
    seq(rows, y requires 0 <= y => RowAt(m, images, cols, cell, scroll + y))
  }

  function AllShown(images: seq<Anchor>): (r: seq<bool>)
    ensures |r| == |images| && forall i :: 0 <= i < |r| ==> r[i]
  {
    seq(|images|, _ => true)
  }

  ghost predicate Ready(m: Model, images: seq<Anchor>, total: nat, cols: nat, cell: Cell) {
    IntervalsOk(images, total) && 0 < cell.h && IsModel(m, images, AllShown(images), total, cols, cell)
  }

  /** What drawing relies on: every image has its rows, and picture rows belong to an image. */
  ghost predicate Laid(m: Model, images: seq<Anchor>, cols: nat, cell: Cell) {
    && 0 < cell.h && |m.blockRow| == |m.rRows| == |images|
    && RowsOwned(m.items, m.blockRow, m.rRows)
    && forall n :: 0 <= n < |images| ==>
         BlockPlaced(m.items, true, RowsOf(images[n], cols, cell), m.blockRow[n], m.rRows[n], n)
  }

  lemma {:induction false} ReadyIsLaid(m: Model, images: seq<Anchor>, total: nat, cols: nat, cell: Cell)
    requires Ready(m, images, total, cols, cell)
    ensures Laid(m, images, cols, cell)
  {
    forall n | 0 <= n < |images|
      ensures BlockPlaced(m.items, true, RowsOf(images[n], cols, cell), m.blockRow[n], m.rRows[n], n)
    {
      assert BlockPlaced(m.items, AllShown(images)[n], RowCounts(images, cols, cell)[n], m.blockRow[n], m.rRows[n], n);
    }
  }

  // ----------------------------------------------------------- arithmetic

  lemma {:induction false} MulOrder(a: int, b: int, c: nat)
    requires a <= b
    ensures a * c <= b * c
  {
  }

  lemma {:induction false} MulSum(a: int, b: int, c: int)
    ensures (a + b) * c == a * c + b * c
  {
  }

  lemma {:induction false} CeilIs(x: nat, b: nat, n: nat)
    requires 0 < b && 0 < n && (n - 1) * b < x <= n * b
    ensures CeilDiv(x, b) == n
  {
    var r := CeilDiv(x, b);
    if r < n { MulOrder(r, n - 1, b); }
    if n < r { MulOrder(n, r - 1, b); }
  }

  // -------------------------------------------------------- one image's slice

  /** Pixels of `visible` rows from row `k` on. */
  function SliceWindow(height: nat, ch: nat, k: nat, visible: nat): (nat, nat) {
    var y0 := Min(k * ch, height);
    var y1 := Min((k + visible) * ch, height);
    if y1 <= y0 then (Max(0, y0 - 1), Min(Max(y0, 1), height)) else (y0, y1)
  }

  /** Inside the image the window is exact: `visible` rows, never the fallback. */
  lemma {:induction false} SliceExact(height: nat, ch: nat, r: nat, k: nat, visible: nat)
    requires 0 < ch && 0 < visible && k + visible <= r && (r - 1) * ch < height <= r * ch
    ensures SliceWindow(height, ch, k, visible) == (k * ch, Min((k + visible) * ch, height))
    ensures k * ch < Min((k + visible) * ch, height)
    ensures CeilDiv(Min((k + visible) * ch, height) - k * ch, ch) == visible
  {
    MulOrder(k + visible - 1, r - 1, ch);
    MulOrder(k, k + visible - 1, ch);
    MulOrder(k + 1, k + visible, ch);
    MulSum(k, visible, ch);
    MulSum(k, visible - 1, ch);
    MulSum(k, 1, ch);
    CeilIs(Min((k + visible) * ch, height) - k * ch, ch, visible);
  }

  /** Row `j` of a slice is row `k + j` of the image: slices tile it. */
  lemma {:induction false} SliceRow(img: nat, height: nat, ch: nat, k: nat, visible: nat, j: nat)
    requires 0 < ch && j < visible && (k + j) * ch < height
    ensures (k * ch) + (j * ch) == (k + j) * ch
    ensures Picture(img, k * ch + j * ch, Min(k * ch + (j + 1) * ch, Min((k + visible) * ch, height))) ==
            PixelRow(img, k + j, height, ch)
  {
    MulSum(k, j, ch);
    MulSum(k, j + 1, ch);
    MulOrder(k + j + 1, k + visible, ch);
  }

  datatype Placement = Hidden | At(y: nat, y0: nat, y1: nat)

  /** Rows of the image that lie above the screen, and rows of it on the screen. */
  function Above(top: int): nat { Max(0, -top) }

  function OnScreen(top: int, r: nat, rows: nat): int { Min(r - Above(top), rows - Max(0, top)) }

  /** Where an image of `r` rows whose first lies `top` rows below the screen's top
      goes: whole when it fits, else the slice of its visible rows. */
  method PlaceImage(a: Anchor, top: int, rows: nat, cols: nat, cell: Cell) returns (p: Placement)
    requires 0 < cell.h && 0 < rows
    ensures p.Hidden? <==> OnScreen(top, RowsOf(a, cols, cell), rows) <= 0
    ensures p.At? ==>
              p == At(Max(0, top), Above(top) * cell.h,
                      SliceEnd(HeightPixels(a, cols, cell), cell.h, Above(top), OnScreen(top, RowsOf(a, cols, cell), rows)))
  {
    var r, height := RowsOf(a, cols, cell), HeightPixels(a, cols, cell);
    if top + r <= 0 || top >= rows { return Hidden; }
    var k, y := Max(0, -top), Max(0, top);
    var visible := Max(1, Min(r - k, Max(0, rows - y)));
    SliceExact(height, cell.h, r, k, visible);
    if top >= 0 && top + r <= rows {
      p := At(y, 0, height);
    } else {
      var (y0, y1) := SliceWindow(height, cell.h, k, visible);
      p := At(y, y0, y1);
    }
  }

  function SliceEnd(height: nat, ch: nat, k: nat, visible: int): nat { Max(0, Min((k + visible) * ch, height)) }

  /** The terminal shows a picture from row `y` on, one cell row after another. */
  method Paint(screen: Rows, img: nat, y: nat, y0: nat, y1: nat, ch: nat) returns (screen': Rows)
    requires 0 < ch && y0 < y1 && y + CeilDiv(y1 - y0, ch) <= |screen|
    ensures |screen'| == |screen|
    ensures forall j :: 0 <= j < |screen| && !(y <= j < y + CeilDiv(y1 - y0, ch)) ==> screen'[j] == screen[j]
    ensures forall j :: 0 <= j < CeilDiv(y1 - y0, ch) ==>
              screen'[y + j] == Picture(img, y0 + j * ch, Min(y0 + (j + 1) * ch, y1))
  {
    screen' := screen;
    for j := 0 to CeilDiv(y1 - y0, ch)
      invariant |screen'| == |screen|
      invariant forall i :: 0 <= i < |screen| && !(y <= i < y + j) ==> screen'[i] == screen[i]
      invariant forall i :: 0 <= i < j ==> screen'[y + i] == Picture(img, y0 + i * ch, Min(y0 + (i + 1) * ch, y1))
    {
      assert j * ch >= 0;
      screen' := screen'[y + j := Picture(img, y0 + j * ch, Min(y0 + (j + 1) * ch, y1))];
    }
  }

  // ------------------------------------------------------------ a full frame

  /** A text or alt row as printed; picture rows stay empty until the pictures come. */
  function CellRow(m: Model, images: seq<Anchor>, cols: nat, cell: Cell, x: nat): Shown {
    if x < |m.items| && m.items[x].ImageRow? then Empty else RowAt(m, images, cols, cell, x)
  }

  /** The first `n` images have been painted, the others not yet. */
  ghost predicate PaintedTo(screen: Rows, m: Model, images: seq<Anchor>, cols: nat, rows: nat, cell: Cell, scroll: nat, n: nat) {
    |screen| == rows && forall y :: 0 <= y < rows ==> screen[y] == RowPainted(m, images, cols, cell, scroll + y, n)
  }

  function RowPainted(m: Model, images: seq<Anchor>, cols: nat, cell: Cell, x: nat, n: nat): Shown {
    if x < |m.items| && m.items[x].ImageRow? && m.items[x].img >= n then Empty else RowAt(m, images, cols, cell, x)
  }

  lemma {:induction false} OwnRowsOf(m: Model, r: nat, n: nat, x: nat)
    requires |m.blockRow| == |m.rRows| && n < |m.blockRow| && RowsOwned(m.items, m.blockRow, m.rRows)
    requires BlockPlaced(m.items, true, r, m.blockRow[n], m.rRows[n], n)
    ensures m.blockRow[n] + r < |m.items| && m.rRows[n] == r
    ensures x < |m.items| && m.items[x] == ImageRow(n) <==> m.blockRow[n] <= x < m.blockRow[n] + r
  {
    var at := m.blockRow[n];
    if at <= x < at + r { assert m.items[at..at + r][x - at] == m.items[x]; }
  }

  /** Which model rows belong to image `n`. */
  lemma {:induction false} OwnRows(m: Model, images: seq<Anchor>, cols: nat, cell: Cell, n: nat, x: nat)
    requires Laid(m, images, cols, cell) && n < |images|
    ensures m.rRows[n] == RowsOf(images[n], cols, cell) && m.blockRow[n] + m.rRows[n] < |m.items|
    ensures x < |m.items| && m.items[x] == ImageRow(n) <==> m.blockRow[n] <= x < m.blockRow[n] + m.rRows[n]
  {
    OwnRowsOf(m, RowsOf(images[n], cols, cell), n, x);
  }

  /** What one row of a frame shows, by the item there: nothing behind the last, a line of
      text, or an image's alt text. */
  lemma {:induction false} FrameText(m: Model, images: seq<Anchor>, cols: nat, rows: nat, cell: Cell, scroll: nat, y: nat)
    requires y < rows
    ensures var shown, x := Frame(m, images, cols, rows, cell, scroll)[y], scroll + y;
            && (x >= |m.items| ==> shown == Empty)
            && (x < |m.items| && m.items[x].TextRow? ==> shown == Text(m.items[x].line, cols))
            && (x < |m.items| && m.items[x].AltRow? ==> shown == Alt(m.items[x].img, cols))
  {
  }

  /** Or the pixels of its own row of an image, all of them and no more. */
  lemma {:induction false} FramePicture(m: Model, images: seq<Anchor>, cols: nat, rows: nat, cell: Cell, scroll: nat, y: nat)
    requires Laid(m, images, cols, cell) && y < rows && scroll + y < |m.items| && m.items[scroll + y].ImageRow?
    ensures var i := m.items[scroll + y].img;
            && i < |images| == |m.blockRow| && 0 <= scroll + y - m.blockRow[i] < RowsOf(images[i], cols, cell)
            && ShowsPixels(Frame(m, images, cols, rows, cell, scroll)[y], i, scroll + y - m.blockRow[i],
                           HeightPixels(images[i], cols, cell), cell.h)
  {
    var i := m.items[scroll + y].img;
    OwnRows(m, images, cols, cell, i, scroll + y);
    PixelsShown(i, scroll + y - m.blockRow[i], RowsOf(images[i], cols, cell), HeightPixels(images[i], cols, cell), cell.h);
  }

  /** Pixel rows `k * ch` up to the next cell row's first, or to the picture's last. */
  predicate ShowsPixels(shown: Shown, img: nat, k: nat, height: nat, ch: nat) {
    && shown.Picture? && shown.img == img && shown.y0 == k * ch && shown.y0 < shown.y1
    && shown.y1 == if (k + 1) * ch < height then (k + 1) * ch else height
  }

  lemma {:induction false} PixelsShown(img: nat, k: nat, r: nat, height: nat, ch: nat)
    requires 0 < ch && k < r && (r - 1) * ch < height
    ensures ShowsPixels(PixelRow(img, k, height, ch), img, k, height, ch)
  {
    MulOrder(k, r - 1, ch);
    MulSum(k, 1, ch);
  }

  /** Every image has its rows in the model, one behind the other, and its alt text below. */
  lemma {:induction false} ImageLaid(m: Model, images: seq<Anchor>, cols: nat, cell: Cell, i: nat)
    requires Laid(m, images, cols, cell) && i < |images|
    ensures i < |m.blockRow| && m.blockRow[i] + RowsOf(images[i], cols, cell) < |m.items|
    ensures forall x :: m.blockRow[i] <= x < m.blockRow[i] + RowsOf(images[i], cols, cell) ==> m.items[x] == ImageRow(i)
    ensures m.items[m.blockRow[i] + RowsOf(images[i], cols, cell)] == AltRow(i)
  {
    var at, r := m.blockRow[i], RowsOf(images[i], cols, cell);
    assert BlockPlaced(m.items, true, r, at, m.rRows[i], i);
    forall x | at <= x < at + r ensures m.items[x] == ImageRow(i) { OwnRows(m, images, cols, cell, i, x); }
  }

  /** Painting image `n` turns exactly its rows into what they should be. */
  lemma {:induction false} PaintStep(m: Model, images: seq<Anchor>, cols: nat, cell: Cell, n: nat, x: nat)
    requires Laid(m, images, cols, cell) && n < |images|
    ensures var at, r := m.blockRow[n], RowsOf(images[n], cols, cell);
            RowPainted(m, images, cols, cell, x, n + 1) ==
            if at <= x < at + r then PixelRow(n, x - at, HeightPixels(images[n], cols, cell), cell.h)
            else RowPainted(m, images, cols, cell, x, n)
  {
    OwnRows(m, images, cols, cell, n, x);
  }

  /** Text rows of the frame, before any picture. */
  method FillRows(m: Model, images: seq<Anchor>, cols: nat, rows: nat, cell: Cell, scroll: nat) returns (screen: Rows)
    requires scroll <= |m.items|
    ensures |screen| == rows && forall y :: 0 <= y < rows ==> screen[y] == CellRow(m, images, cols, cell, scroll + y)
  {
    screen := seq(rows, _ => Empty);
    var end := Min(scroll + rows, |m.items|);
    for i := 0 to end - scroll
      invariant |screen| == rows
      invariant forall y :: 0 <= y < i ==> screen[y] == CellRow(m, images, cols, cell, scroll + y)
      invariant forall y :: i <= y < rows ==> screen[y] == Empty
    {
      var kind := m.items[scroll + i];
      if kind.TextRow? { screen := screen[i := Text(kind.line, cols)]; }
      else if kind.AltRow? { screen := screen[i := Alt(kind.img, cols)]; }
    }
  }

  /** One image of a frame: skipped, or painted onto exactly its own rows. */
  method DrawImage(screen: Rows, m: Model, images: seq<Anchor>, cols: nat, rows: nat, cell: Cell, scroll: nat, n: nat)
    returns (screen': Rows)
    requires Laid(m, images, cols, cell) && n < |images| && 0 < rows
    requires PaintedTo(screen, m, images, cols, rows, cell, scroll, n)
    ensures PaintedTo(screen', m, images, cols, rows, cell, scroll, n + 1)
  {
    OwnRows(m, images, cols, cell, n, 0);
    var top := m.blockRow[n] as int - scroll;
    screen' := PlaceAndPaint(screen, images[n], n, top, m.rRows[n] + 1, rows, cols, cell);
    forall y: nat | y < rows ensures screen'[y] == RowPainted(m, images, cols, cell, scroll + y, n + 1) {
      PaintStep(m, images, cols, cell, n, scroll + y);
    }
  }

  method PlaceAndPaint(screen: Rows, a: Anchor, n: nat, top: int, blockHeight: nat, rows: nat, cols: nat, cell: Cell)
    returns (screen': Rows)
    requires 0 < cell.h && 0 < rows == |screen| && blockHeight == RowsOf(a, cols, cell) + 1
    ensures |screen'| == |screen|
    ensures forall y :: 0 <= y < rows ==>
              screen'[y] == if top <= y < top + RowsOf(a, cols, cell)
                            then PixelRow(n, y - top, HeightPixels(a, cols, cell), cell.h) else screen[y]
  {
    if top + blockHeight <= 0 || top >= rows { return screen; }
    var p := PlaceImage(a, top, rows, cols, cell);
    if p.Hidden? { return screen; }
    screen' := PaintSlice(screen, n, a, top, rows, cols, cell, p);
  }

  /** The rows painted by a placement are rows of the image, in place. */
  method PaintSlice(screen: Rows, n: nat, a: Anchor, top: int, rows: nat, cols: nat, cell: Cell, p: Placement)
    returns (screen': Rows)
    requires 0 < cell.h && 0 < rows == |screen| && 0 < OnScreen(top, RowsOf(a, cols, cell), rows)
    requires p == At(Max(0, top), Above(top) * cell.h,
                     SliceEnd(HeightPixels(a, cols, cell), cell.h, Above(top), OnScreen(top, RowsOf(a, cols, cell), rows)))
    ensures |screen'| == |screen|
    ensures forall y :: 0 <= y < rows ==>
              screen'[y] == if top <= y < top + RowsOf(a, cols, cell)
                            then PixelRow(n, y - top, HeightPixels(a, cols, cell), cell.h) else screen[y]
  {
    ghost var r, height := RowsOf(a, cols, cell), HeightPixels(a, cols, cell);
    SliceExact(height, cell.h, r, Above(top), OnScreen(top, r, rows));
    screen' := Paint(screen, n, p.y, p.y0, p.y1, cell.h);
    SliceShown(screen, screen', n, top, r, rows, height, cell.h);
  }

  /** Row `j` of a picture cut from `y0` to `y1`. */
  function SliceRowOf(n: nat, y0: int, y1: nat, ch: nat, j: int): Shown {
    Picture(n, Max(0, y0 + j * ch), Max(0, Min(y0 + (j + 1) * ch, y1)))
  }

  /** The painted rows are the image's rows that lie on the screen. */
  lemma {:induction false} SliceShown(screen: Rows, screen': Rows, n: nat, top: int, r: nat, rows: nat, height: nat, ch: nat)
    requires 0 < ch && 0 < rows == |screen| == |screen'| && 0 < OnScreen(top, r, rows) && (r - 1) * ch < height
    requires forall j :: 0 <= j < rows && !(Max(0, top) <= j < Max(0, top) + OnScreen(top, r, rows)) ==> screen'[j] == screen[j]
    requires forall j :: 0 <= j < OnScreen(top, r, rows) ==>
               (screen'[Max(0, top) + j] ==
                SliceRowOf(n, Above(top) * ch, SliceEnd(height, ch, Above(top), OnScreen(top, r, rows)), ch, j))
    ensures forall y :: 0 <= y < rows ==>
              screen'[y] == if top <= y < top + r then PixelRow(n, y - top, height, ch) else screen[y]
  {
    var k, visible := Above(top), OnScreen(top, r, rows);
    forall y | 0 <= y < rows && top <= y < top + r
      ensures screen'[y] == PixelRow(n, y - top, height, ch)
    {
      var j: nat := y - Max(0, top);
      assert screen'[Max(0, top) + j] == SliceRowOf(n, k * ch, SliceEnd(height, ch, k, visible), ch, j);
      RowOfImage(n, height, ch, k, visible, j, r);
    }
  }

  lemma {:induction false} RowOfImage(img: nat, height: nat, ch: nat, k: nat, visible: nat, j: nat, r: nat)
    requires 0 < ch && j < visible && k + visible <= r && (r - 1) * ch < height
    ensures SliceRowOf(img, k * ch, SliceEnd(height, ch, k, visible), ch, j) == PixelRow(img, k + j, height, ch)
  {
    MulOrder(k + j, r - 1, ch);
    MulOrder(0, k, ch);
    MulOrder(0, j, ch);
    SliceRow(img, height, ch, k, visible, j);
  }

  /** Clear, draw the text, put the pictures on top: the screen is the frame. */
  method DrawFrame(m: Model, images: seq<Anchor>, cols: nat, rows: nat, cell: Cell, scroll: nat)
    returns (screen: Rows)
    requires Laid(m, images, cols, cell) && 0 < rows && scroll <= |m.items|
    ensures screen == Frame(m, images, cols, rows, cell, scroll)
  {
    screen := FillRows(m, images, cols, rows, cell, scroll);
    for n := 0 to |images|
      invariant PaintedTo(screen, m, images, cols, rows, cell, scroll, n)
    {
      screen := DrawImage(screen, m, images, cols, rows, cell, scroll, n);
    }
  }

  // ----------------------------------------------------------- one-row scroll

  datatype Physical = Up | Down

  /** Direction, model row and screen row of a step by one; None for any other step. */
  function IncrementalTarget(from: nat, to: nat, rows: nat): Option<(Physical, nat, nat)> {
    if rows == 0 then None
    else if to == from + 1 then Some((Up, to + rows - 1, rows - 1))
    else if from == to + 1 then Some((Down, to, 0))
    else None
  }

  function Shift(screen: Rows, d: Physical): Rows
    requires screen != []
  {
    if d.Up? then screen[1..] + [Empty] else [Empty] + screen[..|screen| - 1]
  }

  /** The newly exposed row; None if the model has no such row. */
  method DrawExposed(m: Model, images: seq<Anchor>, cols: nat, cell: Cell, x: nat) returns (r: Option<Shown>)
    requires Laid(m, images, cols, cell)
    ensures r.None? <==> x >= |m.items|
    ensures r.Some? ==> r.value == RowAt(m, images, cols, cell, x)
  {
    if x >= |m.items| { return None; }
    var kind := m.items[x];
    if kind.TextRow? { return Some(Text(kind.line, cols)); }
    if kind.AltRow? { return Some(Alt(kind.img, cols)); }
    OwnRows(m, images, cols, cell, kind.img, x);
    var shown := DrawPixelRow(images[kind.img], kind.img, cols, cell, x - m.blockRow[kind.img]);
    r := Some(shown);
  }

  method DrawPixelRow(a: Anchor, img: nat, cols: nat, cell: Cell, k: nat) returns (r: Shown)
    requires 0 < cell.h && k < RowsOf(a, cols, cell)
    ensures r == PixelRow(img, k, HeightPixels(a, cols, cell), cell.h)
  {
    var height := HeightPixels(a, cols, cell);
    SliceExact(height, cell.h, RowsOf(a, cols, cell), k, 1);
    var (y0, y1) := SliceWindow(height, cell.h, k, 1);
    r := Picture(img, y0, y1);
  }

  /** Moving the screen by one row and drawing the exposed one equals a full redraw. */
  lemma {:induction false} ScrollIsRedraw(m: Model, images: seq<Anchor>, cols: nat, rows: nat, cell: Cell, from: nat, to: nat)
    requires 0 < rows && IncrementalTarget(from, to, rows).Some?
    ensures var (d, x, y) := IncrementalTarget(from, to, rows).value;
            y < rows && Shift(Frame(m, images, cols, rows, cell, from), d)[y := RowAt(m, images, cols, cell, x)]
                        == Frame(m, images, cols, rows, cell, to)
  {
    var (d, x, y) := IncrementalTarget(from, to, rows).value;
    var before, after := Frame(m, images, cols, rows, cell, from), Frame(m, images, cols, rows, cell, to);
    var shifted := Shift(before, d)[y := RowAt(m, images, cols, cell, x)];
    forall k | 0 <= k < rows ensures shifted[k] == after[k] {
      if d.Up? && k < rows - 1 { assert shifted[k] == before[k + 1]; }
      if d.Down? && k > 0 { assert shifted[k] == before[k - 1]; }
    }
  }

  // --------------------------------------------------------------- the reader

  datatype Action = LineDown | LineUp | PageDown | PageUp | Top | Bottom

  /** The running reader. Pictures are taken to encode without failure. */
  class Reader {
    const images: seq<Anchor>
    const total: nat
    const cell: Cell
    var model: Model
    var scroll: nat
    var cols: nat
    var rows: nat
    var screen: Rows

    /** The screen is the full frame of model and position, and the position is in range. */
    ghost predicate Valid()
      reads this
    {
      && Ready(model, images, total, cols, cell) && MIN_COLS <= cols && 0 < rows
      && scroll <= MaxScroll()
      && screen == Frame(model, images, cols, rows, cell, scroll)
    }

    function MaxScroll(): nat
      reads this`model, this`rows
    {
      Max(0, |model.items| - rows)
    }

    constructor (images: seq<Anchor>, total: nat, cell: Cell, cols: nat, rows: nat)
      requires IntervalsOk(images, total) && 0 < cell.h && MIN_COLS <= cols
      ensures Valid() && this.images == images && scroll == 0
    {
      this.images, this.total, this.cell := images, total, cell;
      this.cols, this.rows := cols, Max(1, rows);
      var m := BuildModel(images, AllShown(images), total, cols, cell);
      ReadyIsLaid(m, images, total, cols, cell);
      var s := DrawFrame(m, images, cols, Max(1, rows), cell, 0);
      model, scroll, screen := m, 0, s;
    }

    /** One key press. The incremental step never runs off the model. */
    method Press(action: Action)
      requires Valid()
      modifies this`scroll, this`screen
      ensures Valid()
      ensures scroll ==
              match action
              case LineDown => Min(old(scroll) + 1, MaxScroll())
              case LineUp => Max(0, old(scroll) - 1)
              case PageDown => Min(old(scroll) + rows, MaxScroll())
              case PageUp => Max(0, old(scroll) - rows)
              case Top => 0
              case Bottom => MaxScroll()
    {
      var limit := MaxScroll();
      var next: nat :=
        match action
        case LineDown => Min(scroll + 1, limit)
        case LineUp => Max(0, scroll - 1)
        case PageDown => Min(scroll + rows, limit)
        case PageUp => Max(0, scroll - rows)
        case Top => 0
        case Bottom => limit;
      if next != scroll { ScrollTo(next); }
    }

    /** To another position: by one row where that is enough, else a full frame. */
    method ScrollTo(next: nat)
      requires Valid() && next <= MaxScroll()
      modifies this`scroll, this`screen
      ensures Valid() && scroll == next
    {
      ReadyIsLaid(model, images, total, cols, cell);
      if IncrementalTarget(scroll, next, rows).Some? {
        ScrollByOne(next);
      } else {
        screen := DrawFrame(model, images, cols, rows, cell, next);
        scroll := next;
      }
    }

    method ScrollByOne(next: nat)
      requires Valid() && Laid(model, images, cols, cell) && next <= MaxScroll()
      requires IncrementalTarget(scroll, next, rows).Some?
      modifies this`scroll, this`screen
      ensures Valid() && scroll == next
    {
      var (direction, row, y) := IncrementalTarget(scroll, next, rows).value;
      var exposed := DrawExposed(model, images, cols, cell, row);
      ScrollIsRedraw(model, images, cols, rows, cell, scroll, next);
      screen := Shift(screen, direction)[y := exposed.value];
      scroll := next;
    }

    /** The model at another width, and the row where reading goes on in it. */
    method Rebuild(w: nat) returns (m: Model, at: nat)
      requires Valid()
      ensures Ready(m, images, total, w, cell)
      ensures scroll < |model.items| ==> AnchorLine(images, m.items, at) == AnchorLine(images, model.items, scroll)
    {
      var anchor := AnchorLine(images, model.items, scroll);
      m := BuildModel(images, AllShown(images), total, w, cell);
      at := ScrollToLine(images, m.items, anchor);
      if scroll < |model.items| {
        RebuildKeepsPosition(images, AllShown(images), AllShown(images), RowCounts(images, cols, cell),
                             RowCounts(images, w, cell), total, scroll);
      }
    }

    /** A new window size: too narrow hands over to the pager, which opens one past
        the line `at` stands for; a new width rebuilds the model and keeps the reading
        position. `at` is the position before it is clamped to the new window. */
    method Resize(w: nat, h: nat) returns (handoff: bool, at: nat)
      requires Valid()
      modifies this`model, this`cols, this`rows, this`scroll, this`screen
      ensures Valid() && handoff == (w < MIN_COLS)
      ensures handoff ==> unchanged(this) && at == scroll
      ensures !handoff ==> cols == w && rows == Max(1, h) && scroll == Min(at, MaxScroll())
      ensures old(scroll) < |old(model).items| ==> Line(at) == old(Line(scroll))
    {
      handoff, at := w < MIN_COLS, scroll;
      if !handoff { at := Adopt(w, h); }
    }

    /** A window wide enough: the model for it, and the reading position in it. */
    method Adopt(w: nat, h: nat) returns (at: nat)
      requires Valid() && MIN_COLS <= w
      modifies this`model, this`cols, this`rows, this`scroll, this`screen
      ensures Valid() && cols == w && rows == Max(1, h) && scroll == Min(at, MaxScroll())
      ensures old(scroll) < |old(model).items| ==> Line(at) == old(Line(scroll))
    {
      var m;
      m, at := Refit(w);
      Show(m, w, h, at);
    }

    /** The rendered line that model row `at` stands for. */
    function Line(at: nat): nat
      reads this`model
    {
      AnchorLine(images, model.items, at)
    }

    /** The model for a width: rebuilt only when the width is new. */
    method Refit(w: nat) returns (m: Model, at: nat)
      requires Valid()
      ensures Ready(m, images, total, w, cell)
      ensures w == cols ==> m == model && at == scroll
      ensures scroll < |model.items| ==> AnchorLine(images, m.items, at) == Line(scroll)
    {
      m, at := model, scroll;
      if w != cols { m, at := Rebuild(w); }
    }

    /** Take over a model and window size, clamp, and draw the whole frame. */
    method Show(m: Model, w: nat, h: nat, at: nat)
      requires MIN_COLS <= w && Ready(m, images, total, w, cell)
      modifies this`model, this`cols, this`rows, this`scroll, this`screen
      ensures Valid() && model == m && cols == w && rows == Max(1, h) && scroll == Min(at, MaxScroll())
    {
      model, cols, rows := m, w, Max(1, h);
      scroll := Min(at, MaxScroll());
      ReadyIsLaid(m, images, total, w, cell);
      screen := DrawFrame(m, images, w, rows, cell, scroll);
    }
  }
}
