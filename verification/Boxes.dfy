/** Rendering a tree of blocks to lines, with one anchor for every image box that
    has a processed image; what the lines, the text and the anchors are. */
module Boxes {
  import opened Common
  import opened Text
  import opened Wrap
  import opened Sgr
  import opened SgrReaders

  const WIDTH := 76

  datatype Item = Item(blocks: seq<Block>)

  datatype Block =
    | Paragraph(segs: seq<Seg>)
    | Heading(segs: seq<Seg>)
    | Rule
    | Code(code: seq<string>)
    | Quote(inner: seq<Block>)
    | List(ordered: bool, start: nat, items: seq<Item>)
    | Table(head: seq<string>, rows: seq<seq<string>>)
    | Image(alt: string, url: string, dest: string)

  datatype ImgMeta = ImgMeta(path: string, asset: string, w: nat, h: nat)

  datatype Anchor = Anchor(blockStart: nat, blockEnd: nat, path: string, asset: string, w: nat, h: nat,
                           indentCols: nat, displayCols: nat, alt: string)

  datatype Indent = Indent(first: string, cont: string, width: nat)

  function Repeat(s: string, n: nat): string {
    if n == 0 then "" else s + Repeat(s, n - 1)
  }

  function Dim(s: string): string { Csi(DimOn) + s + Csi(WeightOff) }

  function QuotePrefix(q: nat): string { Repeat(Dim("> "), q) }

  /** The indent inside a quote. */
  function Quoted(ind: Indent): Indent {
    Indent(ind.first + QuotePrefix(1), ind.cont + QuotePrefix(1), Max(0, ind.width - 2))
  }

  function BoxTop(width: nat): string { "\U{250c}\U{2500} image " + Repeat("\U{2500}", Max(0, width - 9)) }

  function BoxBottom(width: nat): string { "\U{2514}" + Repeat("\U{2500}", Max(0, width - 1)) }

  function ContentWidth(ind: Indent): nat { Max(0, ind.width - 3) }

  /** Rows of an image box between its borders: the wrapped alt text and URL. */
  function BoxRows(w: CharWidth, alt: string, url: string, ind: Indent): nat {
    |Lines(w, Atoms(AltSegs(alt)), ContentWidth(ind))| + |Lines(w, Atoms(UrlSegs(url)), ContentWidth(ind))|
  }

  // ------------------------------------------------------------ lines of a block

  /** Wrapped lines printed behind their prefixes. */
  function Printed(ls: seq<Line>, first: string, cont: string): (r: seq<string>)
    ensures |r| == |ls|
  {
    seq(|ls|, i requires 0 <= i < |ls| => (if i == 0 then first else cont) + RenderFrom(MergeOf(ls[i]), PLAIN, None))
  }

  /** A segment list wrapped, printed and prefixed. */
  function WrappedLines(w: CharWidth, segs: seq<Seg>, width: nat, first: string, cont: string): (r: seq<string>)
    ensures |r| == |Lines(w, Atoms(segs), width)|
  {
    Printed(Lines(w, Atoms(segs), width), first, cont)
  }

  function AltSegs(alt: string): seq<Seg> { [Seg(PLAIN, alt, None)] }

  function UrlSegs(url: string): seq<Seg> { [Seg(PLAIN.(cyan := true), url, Some(url))] }

  function Bar(ind: Indent): string { ind.cont + Dim("\U{2502}") + " " }

  /** The placeholder box: border, wrapped alt text, wrapped URL, border. */
  function BoxLines(w: CharWidth, alt: string, url: string, ind: Indent): (r: seq<string>)
    ensures |r| == BoxRows(w, alt, url, ind) + 2
    ensures r[0] == ind.first + Dim(BoxTop(ind.width)) && r[|r| - 1] == ind.cont + Dim(BoxBottom(ind.width))
  {
    Framed(ind.first + Dim(BoxTop(ind.width)),
           WrappedLines(w, AltSegs(alt), ContentWidth(ind), Bar(ind), Bar(ind)),
           WrappedLines(w, UrlSegs(url), ContentWidth(ind), Bar(ind), Bar(ind)),
           ind.cont + Dim(BoxBottom(ind.width)))
  }

  function Framed(top: string, alt: seq<string>, url: seq<string>, bottom: string): (r: seq<string>)
    ensures |r| == |alt| + |url| + 2 && r[0] == top && r[|r| - 1] == bottom
  {
    [top] + alt + url + [bottom]
  }

  /** The mark in front of an item's first block. */
  function Marker(ordered: bool, number: nat): string {
    if ordered then Repeat(" ", Max(0, 3 - |Decimal(number)|)) + Decimal(number) + ". " else "  \U{2022} "
  }

  function Lead(q: nat, level: nat): string { QuotePrefix(q) + Repeat("  ", level) }

  /** The indent of an item's first block. */
  function ItemFirst(ordered: bool, number: nat, q: nat, level: nat): Indent {
    Indent(Lead(q, level) + Marker(ordered, number), Lead(q, level) + "    ", Max(0, WIDTH - (2 * q + 2 * level + 4)))
  }

  /** The indent of its other blocks. */
  function ItemLater(q: nat, level: nat): Indent {
    Indent(Lead(q, level) + "    ", Lead(q, level) + "    ", Max(0, WIDTH - (2 * q + 2 * level + 4)))
  }

  function CodeLines(code: seq<string>, ind: Indent): seq<string> {
    seq(|code|, i requires 0 <= i < |code| => (if i == 0 then ind.first else ind.cont) + Dim("\U{2502}") + "   " + code[i])
  }

  function TableLines(head: seq<string>, rows: seq<seq<string>>, ind: Indent): seq<string> {
    [ind.first + Join(head), ind.cont + Dim("---- | ----")] + seq(|rows|, i requires 0 <= i < |rows| => ind.cont + Join(rows[i]))
  }

  function Join(cells: seq<string>): string {
    if cells == [] then "" else if |cells| == 1 then cells[0] else cells[0] + " | " + Join(cells[1..])
  }

  /** The lines of a block inside `q` quotes and `level` lists. */
  function Rendered(w: CharWidth, b: Block, q: nat, level: nat, ind: Indent): seq<string>
    decreases b, 0
  {
    match b
    case Paragraph(segs) => WrappedLines(w, segs, ind.width, ind.first, ind.cont)
    case Heading(segs) => WrappedLines(w, segs, ind.width, ind.first, ind.cont)
    case Rule => [ind.first + Dim(Repeat("-", WIDTH))]
    case Code(code) => CodeLines(code, ind)
    case Quote(inner) => RenderedAll(w, inner, q + 1, level, Quoted(ind))
    case List(ordered, start, items) => RenderedItems(w, ordered, start, items, q, level)
    case Table(head, rows) => TableLines(head, rows, ind)
    case Image(alt, url, _) => BoxLines(w, alt, url, ind)
  }

  /** Blocks with an empty line after each but a quote. */
  function RenderedAll(w: CharWidth, bs: seq<Block>, q: nat, level: nat, ind: Indent): seq<string>
    decreases bs, 1
  {
    if bs == [] then []
    else
      var n := |bs| - 1;
      RenderedAll(w, bs[..n], q, level, ind) + Rendered(w, bs[n], q, level, ind) + if bs[n].Quote? then [] else [""]
  }

  function RenderedItem(w: CharWidth, bs: seq<Block>, first: Indent, later: Indent, q: nat, level: nat): seq<string>
    decreases bs, 1
  {
    if bs == [] then []
    else
      var n := |bs| - 1;
      RenderedItem(w, bs[..n], first, later, q, level) + Rendered(w, bs[n], q, level + 1, if n == 0 then first else later)
  }

  function RenderedItems(w: CharWidth, ordered: bool, start: nat, items: seq<Item>, q: nat, level: nat): seq<string>
    decreases items, 1
  {
    if items == [] then []
    else
      var n := |items| - 1;
      RenderedItems(w, ordered, start, items[..n], q, level)
      + RenderedItem(w, items[n].blocks, ItemFirst(ordered, start + n, q, level), ItemLater(q, level), q, level)
  }

  // ------------------------------------------------------------ images of a tree

  /** Where an image stands: the quotes around it and the lists around its innermost
      list, and the columns of its item's mark if it is in a list. */
  datatype Where = Where(depth: nat, lead: Option<nat>)

  const TOP := Where(0, None)

  function InQuote(at: Where): Where { at.(depth := at.depth + 1) }

  /** Inside an item whose mark takes `lead` columns. */
  function InItem(at: Where, lead: nat): Where {
    Where(at.depth + (if at.lead.Some? then 1 else 0), Some(lead))
  }

  function MarkerCols(ordered: bool, number: nat): nat {
    if ordered then Max(3, |Decimal(number)|) + 2 else 4
  }

  /** A processed image of a tree, with its indent and its place. */
  datatype Spot = Spot(image: Block, ind: Indent, at: Where)

  /** The images of a tree that have been processed, in reading order. */
  function Spots(b: Block, q: nat, level: nat, ind: Indent, at: Where, img: string -> Option<ImgMeta>): seq<Spot>
    decreases b, 0
  {
    match b
    case Image(_, _, dest) => if img(dest).Some? then [Spot(b, ind, at)] else []
    case Quote(inner) => SpotsAll(inner, q + 1, level, Quoted(ind), InQuote(at), img)
    case List(ordered, start, items) => SpotsItems(ordered, start, items, q, level, at, img)
    case _ => []
  }

  function SpotsAll(bs: seq<Block>, q: nat, level: nat, ind: Indent, at: Where, img: string -> Option<ImgMeta>): seq<Spot>
    decreases bs, 1
  {
    if bs == [] then []
    else SpotsAll(bs[..|bs| - 1], q, level, ind, at, img) + Spots(bs[|bs| - 1], q, level, ind, at, img)
  }

  function SpotsItem(bs: seq<Block>, first: Indent, later: Indent, lead: nat, q: nat, level: nat, at: Where,
                     img: string -> Option<ImgMeta>): seq<Spot>
    decreases bs, 1
  {
    if bs == [] then []
    else
      var n := |bs| - 1;
      SpotsItem(bs[..n], first, later, lead, q, level, at, img)
      + Spots(bs[n], q, level + 1, if n == 0 then first else later, InItem(at, if n == 0 then lead else 4), img)
  }

  function SpotsItems(ordered: bool, start: nat, items: seq<Item>, q: nat, level: nat, at: Where, img: string -> Option<ImgMeta>)
    : seq<Spot>
    decreases items, 1
  {
    if items == [] then []
    else
      var n := |items| - 1;
      SpotsItems(ordered, start, items[..n], q, level, at, img)
      + SpotsItem(items[n].blocks, ItemFirst(ordered, start + n, q, level), ItemLater(q, level), MarkerCols(ordered, start + n),
                  q, level, at, img)
  }

  /** The images of an article. */
  function ArticleSpots(blocks: seq<Block>, img: string -> Option<ImgMeta>): seq<Spot> {
    SpotsAll(blocks, 0, 0, Indent("", "", WIDTH), TOP, img)
  }

  /** The box of an image, drawn with its indent, fills the anchor's interval. */
  ghost predicate BoxAt(w: CharWidth, lines: seq<string>, a: Anchor, s: Spot)
    requires s.image.Image?
  {
    && a.blockStart <= a.blockEnd <= |lines|
    && lines[a.blockStart..a.blockEnd] == BoxLines(w, s.image.alt, s.image.url, s.ind)
    && a.displayCols == s.ind.width && a.indentCols == VisibleWidth(w, s.ind.first)
  }

  /** `a` is the anchor of the image at `s`. */
  ghost predicate Delimits(w: CharWidth, lines: seq<string>, a: Anchor, s: Spot, img: string -> Option<ImgMeta>) {
    && s.image.Image? && img(s.image.dest) == Some(ImgMeta(a.path, a.asset, a.w, a.h)) && a.alt == s.image.alt
    && BoxAt(w, lines, a, s)
  }

  ghost predicate Placed(w: CharWidth, lines: seq<string>, a: Anchor, s: Spot, lo: nat, img: string -> Option<ImgMeta>) {
    Delimits(w, lines, a, s, img) && lo <= a.blockStart
  }

  /** The anchors belong to `spots`, one each, in order and apart, from line `lo` on. */
  ghost predicate AnchorsFit(w: CharWidth, lines: seq<string>, mine: seq<Anchor>, lo: nat,
                             spots: seq<Spot>, img: string -> Option<ImgMeta>)
  {
    && |spots| == |mine|
    && (forall k :: 0 <= k < |mine| ==> Placed(w, lines, mine[k], spots[k], lo, img))
    && (forall j, k :: 0 <= j < k < |mine| ==> mine[j].blockEnd <= mine[k].blockStart)
  }

  /** What was emitted since `lines0` and `anchors0`: `rendered`, and the anchors of `spots`. */
  ghost predicate Appended(w: CharWidth, img: string -> Option<ImgMeta>, lines0: seq<string>, anchors0: seq<Anchor>,
                           lines: seq<string>, anchors: seq<Anchor>, rendered: seq<string>, spots: seq<Spot>)
  {
    && lines == lines0 + rendered && anchors0 <= anchors
    && AnchorsFit(w, lines, anchors[|anchors0|..], |lines0|, spots, img)
  }

  class Renderer {
    const w: CharWidth
    const img: string -> Option<ImgMeta>
    var lines: seq<string>
    var anchors: seq<Anchor>

    constructor (w: CharWidth, img: string -> Option<ImgMeta>)
      ensures this.w == w && this.img == img && lines == [] && anchors == []
    {
      this.w, this.img := w, img;
      lines, anchors := [], [];
    }

    /** Wrap, print, and prefix: one output line for every wrapped line. */
    method PushWrapped(segs: seq<Seg>, width: nat, first: string, cont: string)
      modifies this
      ensures anchors == old(anchors) && lines == old(lines) + WrappedLines(w, segs, width, first, cont)
    {
      var wrapped := WrapSegments(w, segs, width);
      PushPrinted(wrapped, Lines(w, Atoms(segs), width), first, cont);
    }

    method PushPrinted(wrapped: seq<seq<Seg>>, ghost ls: seq<Line>, first: string, cont: string)
      requires |wrapped| == |ls| && forall k :: 0 <= k < |wrapped| ==> wrapped[k] == MergeOf(ls[k])
      modifies this
      ensures anchors == old(anchors) && lines == old(lines) + Printed(ls, first, cont)
    {
      ghost var before, all := lines, Printed(ls, first, cont);
      for i := 0 to |wrapped|
        invariant anchors == old(anchors) && lines == before + all[..i]
      {
        var text := RenderLine(wrapped[i]);
        ghost var pre := lines;
        lines := lines + [(if i == 0 then first else cont) + text];
        OneMore(before, all, i, pre, lines);
      }
      assert all[..|wrapped|] == all;
    }

    method PushLines(texts: seq<string>)
      modifies this
      ensures anchors == old(anchors) && lines == old(lines) + texts
    {
      lines := lines + texts;
    }

    method RenderBox(b: Block, ind: Indent)
      requires b.Image?
      modifies this
      ensures anchors == old(anchors) && lines == old(lines) + BoxLines(w, b.alt, b.url, ind)
    {
      var top, bottom := ind.first + Dim(BoxTop(ind.width)), ind.cont + Dim(BoxBottom(ind.width));
      PushLines([top]);
      PushWrapped(AltSegs(b.alt), ContentWidth(ind), Bar(ind), Bar(ind));
      PushWrapped(UrlSegs(b.url), ContentWidth(ind), Bar(ind), Bar(ind));
      PushLines([bottom]);
      Grouped(old(lines), [top], WrappedLines(w, AltSegs(b.alt), ContentWidth(ind), Bar(ind), Bar(ind)),
              WrappedLines(w, UrlSegs(b.url), ContentWidth(ind), Bar(ind), Bar(ind)), [bottom]);
    }

    method RenderImage(b: Block, ind: Indent, ghost at: Where)
      requires b.Image?
      modifies this
      ensures Appended(w, img, old(lines), old(anchors), lines, anchors, BoxLines(w, b.alt, b.url, ind), Spots(b, 0, 0, ind, at, img))
    {
      ghost var lines0, anchors0 := lines, anchors;
      var start := |lines|;
      RenderBox(b, ind);
      var meta := img(b.dest);
      if meta.Some? {
        var m := meta.value;
        var indent := MeasureWidth(w, ind.first);
        var a := Anchor(start, |lines|, m.path, m.asset, m.w, m.h, indent, ind.width, b.alt);
        anchors := anchors + [a];
        AppendedBox(w, img, lines0, anchors0, lines, a, Spot(b, ind, at));
      }
    }

    method RenderBlocks(bs: seq<Block>, q: nat, level: nat, ind: Indent, ghost at: Where)
      modifies this
      ensures Appended(w, img, old(lines), old(anchors), lines, anchors,
                       RenderedAll(w, bs, q, level, ind), SpotsAll(bs, q, level, ind, at, img))
      decreases bs, 1
    {
      ghost var lines0, anchors0 := lines, anchors;
      AppendedNothing(w, img, lines, anchors);
      for i := 0 to |bs|
        invariant Appended(w, img, lines0, anchors0, lines, anchors,
                           RenderedAll(w, bs[..i], q, level, ind), SpotsAll(bs[..i], q, level, ind, at, img))
      {
        ghost var lines1, anchors1 := lines, anchors;
        RenderBlock(bs[i], q, level, ind, at);
        ghost var lines2 := lines;
        if !bs[i].Quote? { lines := lines + [""]; }
        BlockAppended(w, img, bs, i, q, level, ind, at, lines0, anchors0, lines1, anchors1, lines2, anchors, lines);
      }
      assert bs[..|bs|] == bs;
    }

    method RenderBlock(b: Block, q: nat, level: nat, ind: Indent, ghost at: Where)
      modifies this
      ensures Appended(w, img, old(lines), old(anchors), lines, anchors, Rendered(w, b, q, level, ind), Spots(b, q, level, ind, at, img))
      decreases b, 0
    {
      match b
      case Paragraph(segs) => PushWrapped(segs, ind.width, ind.first, ind.cont);
      case Heading(segs) => PushWrapped(segs, ind.width, ind.first, ind.cont);
      case Rule => PushLines([ind.first + Dim(Repeat("-", WIDTH))]);
      case Code(code) => PushLines(CodeLines(code, ind));
      case Quote(inner) => RenderBlocks(inner, q + 1, level, Quoted(ind), InQuote(at));
      case List(ordered, start, items) => RenderItems(ordered, start, items, q, level, at);
      case Table(head, rows) => PushLines(TableLines(head, rows, ind));
      case Image(_, _, _) => RenderImage(b, ind, at);
    }

    method RenderItems(ordered: bool, start: nat, items: seq<Item>, q: nat, level: nat, ghost at: Where)
      modifies this
      ensures Appended(w, img, old(lines), old(anchors), lines, anchors,
                       RenderedItems(w, ordered, start, items, q, level), SpotsItems(ordered, start, items, q, level, at, img))
      decreases items, 1
    {
      ghost var lines0, anchors0 := lines, anchors;
      AppendedNothing(w, img, lines, anchors);
      for i := 0 to |items|
        invariant Appended(w, img, lines0, anchors0, lines, anchors,
                           RenderedItems(w, ordered, start, items[..i], q, level),
                           SpotsItems(ordered, start, items[..i], q, level, at, img))
      {
        ghost var lines1, anchors1 := lines, anchors;
        RenderItem(items[i].blocks, ItemFirst(ordered, start + i, q, level), ItemLater(q, level), q, level,
                   MarkerCols(ordered, start + i), at);
        ItemAppended(w, img, ordered, start, items, i, q, level, at, lines0, anchors0, lines1, anchors1, lines, anchors);
      }
      assert items[..|items|] == items;
    }

    /** The blocks of one list item: only the first starts behind the mark. */
    method RenderItem(bs: seq<Block>, first: Indent, later: Indent, q: nat, level: nat, ghost lead: nat, ghost at: Where)
      modifies this
      ensures Appended(w, img, old(lines), old(anchors), lines, anchors,
                       RenderedItem(w, bs, first, later, q, level), SpotsItem(bs, first, later, lead, q, level, at, img))
      decreases bs, 1
    {
      ghost var lines0, anchors0 := lines, anchors;
      AppendedNothing(w, img, lines, anchors);
      for i := 0 to |bs|
        invariant Appended(w, img, lines0, anchors0, lines, anchors,
                           RenderedItem(w, bs[..i], first, later, q, level),
                           SpotsItem(bs[..i], first, later, lead, q, level, at, img))
      {
        ghost var lines1, anchors1 := lines, anchors;
        RenderBlock(bs[i], q, level + 1, if i == 0 then first else later, InItem(at, if i == 0 then lead else 4));
        PartAppended(w, img, bs, i, first, later, lead, q, level, at, lines0, anchors0, lines1, anchors1, lines, anchors);
      }
      assert bs[..|bs|] == bs;
    }

    /** The whole article: trailing blank lines go, every box stays whole, and the
        lines are joined to the text of the file. */
    method RenderAnsi(blocks: seq<Block>) returns (text: string)
      requires lines == [] && anchors == []
      modifies this
      ensures AnchorsFit(w, lines, anchors, 0, ArticleSpots(blocks, img), img)
      ensures lines == ArticleLines(w, blocks) && text == FileText(lines)
    {
      RenderBlocks(blocks, 0, 0, Indent("", "", WIDTH), TOP);
      AppendedFirst(w, img, lines, anchors, RenderedAll(w, blocks, 0, 0, Indent("", "", WIDTH)), ArticleSpots(blocks, img));
      DropBlanks(ArticleSpots(blocks, img));
      text := Text();
    }

    method DropBlanks(ghost spots: seq<Spot>)
      requires AnchorsFit(w, lines, anchors, 0, spots, img)
      modifies this
      ensures anchors == old(anchors) && AnchorsFit(w, lines, anchors, 0, spots, img) && lines == WithoutBlanks(old(lines))
    {
      while lines != [] && lines[|lines| - 1] == ""
        invariant anchors == old(anchors) && AnchorsFit(w, lines, anchors, 0, spots, img)
        invariant WithoutBlanks(lines) == WithoutBlanks(old(lines))
        decreases |lines|
      {
        FitPops(w, lines, anchors, spots, img);
        lines := lines[..|lines| - 1];
      }
    }

    /** The lines joined, and one line break. */
    method Text() returns (text: string)
      ensures text == FileText(lines)
    {
      text := "";
      for i := 0 to |lines|
        invariant text == Separated(lines[..i])
      {
        assert lines[..i + 1][..i] == lines[..i];
        text := if i == 0 then lines[i] else text + "\n" + lines[i];
      }
      assert lines[..|lines|] == lines;
      text := text + "\n";
    }
  }

  lemma {:induction false} OneMore(before: seq<string>, all: seq<string>, i: nat, lines: seq<string>, next: seq<string>)
    requires i < |all| && lines == before + all[..i] && next == lines + [all[i]]
    ensures next == before + all[..i + 1]
  {
  }

  lemma {:induction false} Grouped(s: seq<string>, a: seq<string>, b: seq<string>, c: seq<string>, d: seq<string>)
    ensures s + a + b + c + d == s + (a + b + c + d)
  {
  }

  // ------------------------------------------------------------ one piece more

  lemma {:induction false} AppendedNothing(w: CharWidth, img: string -> Option<ImgMeta>, lines: seq<string>, anchors: seq<Anchor>)
    ensures Appended(w, img, lines, anchors, lines, anchors, [], [])
  {
  }

  lemma {:induction false} AppendedFirst(w: CharWidth, img: string -> Option<ImgMeta>, lines: seq<string>, anchors: seq<Anchor>,
                                         rendered: seq<string>, spots: seq<Spot>)
    requires Appended(w, img, [], [], lines, anchors, rendered, spots)
    ensures lines == rendered && AnchorsFit(w, lines, anchors, 0, spots, img)
  {
    assert anchors[0..] == anchors && [] + rendered == rendered;
  }

  lemma {:induction false} AppendedBox(w: CharWidth, img: string -> Option<ImgMeta>, lines0: seq<string>, anchors0: seq<Anchor>,
                                       lines: seq<string>, a: Anchor, s: Spot)
    requires s.image.Image? && lines == lines0 + BoxLines(w, s.image.alt, s.image.url, s.ind)
    requires img(s.image.dest) == Some(ImgMeta(a.path, a.asset, a.w, a.h)) && a.alt == s.image.alt
    requires a.blockStart == |lines0| && a.blockEnd == |lines|
    requires a.displayCols == s.ind.width && a.indentCols == VisibleWidth(w, s.ind.first)
    ensures Appended(w, img, lines0, anchors0, lines, anchors0 + [a], BoxLines(w, s.image.alt, s.image.url, s.ind), [s])
  {
    assert lines[|lines0|..|lines|] == BoxLines(w, s.image.alt, s.image.url, s.ind);
    assert (anchors0 + [a])[|anchors0|..] == [a];
    assert Placed(w, lines, a, s, |lines0|, img);
  }

  lemma {:induction false} AppendedTwice(w: CharWidth, img: string -> Option<ImgMeta>, lines0: seq<string>, anchors0: seq<Anchor>,
                                         lines1: seq<string>, anchors1: seq<Anchor>, r1: seq<string>, s1: seq<Spot>,
                                         lines2: seq<string>, anchors2: seq<Anchor>, r2: seq<string>, s2: seq<Spot>)
    requires Appended(w, img, lines0, anchors0, lines1, anchors1, r1, s1)
    requires Appended(w, img, lines1, anchors1, lines2, anchors2, r2, s2)
    ensures Appended(w, img, lines0, anchors0, lines2, anchors2, r1 + r2, s1 + s2)
  {
    var first, second := anchors1[|anchors0|..], anchors2[|anchors1|..];
    assert anchors2[|anchors0|..] == first + second;
    FitJoin(w, lines1, first, lines2, second, |lines0|, s1, s2, img);
    Regroup(lines0, r1, r2);
  }

  lemma {:induction false} AppendedLines(w: CharWidth, img: string -> Option<ImgMeta>, lines0: seq<string>, anchors0: seq<Anchor>,
                                         lines: seq<string>, anchors: seq<Anchor>, rendered: seq<string>, spots: seq<Spot>,
                                         more: seq<string>)
    requires Appended(w, img, lines0, anchors0, lines, anchors, rendered, spots)
    ensures Appended(w, img, lines0, anchors0, lines + more, anchors, rendered + more, spots)
  {
    FitGrows(w, lines, anchors[|anchors0|..], |lines0|, spots, img, more);
    Regroup(lines0, rendered, more);
  }

  /** One block and its empty line, if it takes one. */
  lemma {:induction false} BlockAppended(w: CharWidth, img: string -> Option<ImgMeta>, bs: seq<Block>, i: nat, q: nat, level: nat,
                                         ind: Indent, at: Where, lines0: seq<string>, anchors0: seq<Anchor>,
                                         lines1: seq<string>, anchors1: seq<Anchor>, lines2: seq<string>, anchors2: seq<Anchor>,
                                         lines: seq<string>)
    requires i < |bs|
    requires Appended(w, img, lines0, anchors0, lines1, anchors1,
                      RenderedAll(w, bs[..i], q, level, ind), SpotsAll(bs[..i], q, level, ind, at, img))
    requires Appended(w, img, lines1, anchors1, lines2, anchors2, Rendered(w, bs[i], q, level, ind), Spots(bs[i], q, level, ind, at, img))
    requires lines == if bs[i].Quote? then lines2 else lines2 + [""]
    ensures Appended(w, img, lines0, anchors0, lines, anchors2,
                     RenderedAll(w, bs[..i + 1], q, level, ind), SpotsAll(bs[..i + 1], q, level, ind, at, img))
  {
    var r1, r2 := RenderedAll(w, bs[..i], q, level, ind), Rendered(w, bs[i], q, level, ind);
    var s1, s2 := SpotsAll(bs[..i], q, level, ind, at, img), Spots(bs[i], q, level, ind, at, img);
    AppendedTwice(w, img, lines0, anchors0, lines1, anchors1, r1, s1, lines2, anchors2, r2, s2);
    RenderedAllNext(w, bs, i, q, level, ind);
    SpotsAllNext(bs, i, q, level, ind, at, img);
    if bs[i].Quote? {
      assert r1 + r2 + [] == r1 + r2;
    } else {
      AppendedLines(w, img, lines0, anchors0, lines2, anchors2, r1 + r2, s1 + s2, [""]);
    }
  }

  lemma {:induction false} ItemAppended(w: CharWidth, img: string -> Option<ImgMeta>, ordered: bool, start: nat, items: seq<Item>,
                                        i: nat, q: nat, level: nat, at: Where, lines0: seq<string>, anchors0: seq<Anchor>,
                                        lines1: seq<string>, anchors1: seq<Anchor>, lines2: seq<string>, anchors2: seq<Anchor>)
    requires i < |items|
    requires Appended(w, img, lines0, anchors0, lines1, anchors1, RenderedItems(w, ordered, start, items[..i], q, level),
                      SpotsItems(ordered, start, items[..i], q, level, at, img))
    requires Appended(w, img, lines1, anchors1, lines2, anchors2,
                      RenderedItem(w, items[i].blocks, ItemFirst(ordered, start + i, q, level), ItemLater(q, level), q, level),
                      SpotsItem(items[i].blocks, ItemFirst(ordered, start + i, q, level), ItemLater(q, level),
                                MarkerCols(ordered, start + i), q, level, at, img))
    ensures Appended(w, img, lines0, anchors0, lines2, anchors2, RenderedItems(w, ordered, start, items[..i + 1], q, level),
                     SpotsItems(ordered, start, items[..i + 1], q, level, at, img))
  {
    AppendedTwice(w, img, lines0, anchors0, lines1, anchors1, RenderedItems(w, ordered, start, items[..i], q, level),
                  SpotsItems(ordered, start, items[..i], q, level, at, img), lines2, anchors2,
                  RenderedItem(w, items[i].blocks, ItemFirst(ordered, start + i, q, level), ItemLater(q, level), q, level),
                  SpotsItem(items[i].blocks, ItemFirst(ordered, start + i, q, level), ItemLater(q, level),
                            MarkerCols(ordered, start + i), q, level, at, img));
    RenderedItemsNext(w, ordered, start, items, i, q, level);
    SpotsItemsNext(ordered, start, items, i, q, level, at, img);
  }

  lemma {:induction false} PartAppended(w: CharWidth, img: string -> Option<ImgMeta>, bs: seq<Block>, i: nat, first: Indent,
                                        later: Indent, lead: nat, q: nat, level: nat, at: Where,
                                        lines0: seq<string>, anchors0: seq<Anchor>, lines1: seq<string>, anchors1: seq<Anchor>,
                                        lines2: seq<string>, anchors2: seq<Anchor>)
    requires i < |bs|
    requires Appended(w, img, lines0, anchors0, lines1, anchors1, RenderedItem(w, bs[..i], first, later, q, level),
                      SpotsItem(bs[..i], first, later, lead, q, level, at, img))
    requires var ind, place := if i == 0 then first else later, InItem(at, if i == 0 then lead else 4);
             Appended(w, img, lines1, anchors1, lines2, anchors2, Rendered(w, bs[i], q, level + 1, ind),
                      Spots(bs[i], q, level + 1, ind, place, img))
    ensures Appended(w, img, lines0, anchors0, lines2, anchors2, RenderedItem(w, bs[..i + 1], first, later, q, level),
                     SpotsItem(bs[..i + 1], first, later, lead, q, level, at, img))
  {
    var ind, place := if i == 0 then first else later, InItem(at, if i == 0 then lead else 4);
    AppendedTwice(w, img, lines0, anchors0, lines1, anchors1, RenderedItem(w, bs[..i], first, later, q, level),
                  SpotsItem(bs[..i], first, later, lead, q, level, at, img), lines2, anchors2,
                  Rendered(w, bs[i], q, level + 1, ind), Spots(bs[i], q, level + 1, ind, place, img));
    RenderedItemNext(w, bs, i, first, later, q, level);
    SpotsItemNext(bs, i, first, later, lead, q, level, at, img);
  }

  lemma {:induction false} RenderedAllNext(w: CharWidth, bs: seq<Block>, i: nat, q: nat, level: nat, ind: Indent)
    requires i < |bs|
    ensures RenderedAll(w, bs[..i + 1], q, level, ind)
         == RenderedAll(w, bs[..i], q, level, ind) + Rendered(w, bs[i], q, level, ind) + if bs[i].Quote? then [] else [""]
  {
    var all := bs[..i + 1];
    assert all[..i] == bs[..i] && all[i] == bs[i];
  }

  lemma {:induction false} SpotsAllNext(bs: seq<Block>, i: nat, q: nat, level: nat, ind: Indent, at: Where,
                                        img: string -> Option<ImgMeta>)
    requires i < |bs|
    ensures SpotsAll(bs[..i + 1], q, level, ind, at, img)
         == SpotsAll(bs[..i], q, level, ind, at, img) + Spots(bs[i], q, level, ind, at, img)
  {
    var all := bs[..i + 1];
    assert all[..i] == bs[..i] && all[i] == bs[i];
  }

  lemma {:induction false} RenderedItemNext(w: CharWidth, bs: seq<Block>, i: nat, first: Indent, later: Indent, q: nat, level: nat)
    requires i < |bs|
    ensures RenderedItem(w, bs[..i + 1], first, later, q, level)
         == RenderedItem(w, bs[..i], first, later, q, level) + Rendered(w, bs[i], q, level + 1, if i == 0 then first else later)
  {
    var all := bs[..i + 1];
    assert all[..i] == bs[..i] && all[i] == bs[i];
  }

  lemma {:induction false} SpotsItemNext(bs: seq<Block>, i: nat, first: Indent, later: Indent, lead: nat, q: nat, level: nat,
                                         at: Where, img: string -> Option<ImgMeta>)
    requires i < |bs|
    ensures SpotsItem(bs[..i + 1], first, later, lead, q, level, at, img)
         == SpotsItem(bs[..i], first, later, lead, q, level, at, img)
            + Spots(bs[i], q, level + 1, if i == 0 then first else later, InItem(at, if i == 0 then lead else 4), img)
  {
    var all := bs[..i + 1];
    assert all[..i] == bs[..i] && all[i] == bs[i];
  }

  lemma {:induction false} RenderedItemsNext(w: CharWidth, ordered: bool, start: nat, items: seq<Item>, i: nat, q: nat, level: nat)
    requires i < |items|
    ensures RenderedItems(w, ordered, start, items[..i + 1], q, level)
         == RenderedItems(w, ordered, start, items[..i], q, level)
            + RenderedItem(w, items[i].blocks, ItemFirst(ordered, start + i, q, level), ItemLater(q, level), q, level)
  {
    var all := items[..i + 1];
    assert all[..i] == items[..i] && all[i] == items[i];
  }

  lemma {:induction false} SpotsItemsNext(ordered: bool, start: nat, items: seq<Item>, i: nat, q: nat, level: nat, at: Where,
                                          img: string -> Option<ImgMeta>)
    requires i < |items|
    ensures SpotsItems(ordered, start, items[..i + 1], q, level, at, img)
         == SpotsItems(ordered, start, items[..i], q, level, at, img)
            + SpotsItem(items[i].blocks, ItemFirst(ordered, start + i, q, level), ItemLater(q, level),
                        MarkerCols(ordered, start + i), q, level, at, img)
  {
    var all := items[..i + 1];
    assert all[..i] == items[..i] && all[i] == items[i];
  }

  lemma {:induction false} DelimitsGrows(w: CharWidth, lines: seq<string>, a: Anchor, s: Spot,
                                         img: string -> Option<ImgMeta>, more: seq<string>)
    requires Delimits(w, lines, a, s, img)
    ensures Delimits(w, lines + more, a, s, img) && a.blockEnd <= |lines|
  {
    assert (lines + more)[a.blockStart..a.blockEnd] == lines[a.blockStart..a.blockEnd];
  }

  lemma {:induction false} FitGrows(w: CharWidth, lines: seq<string>, mine: seq<Anchor>, lo: nat,
                                    spots: seq<Spot>, img: string -> Option<ImgMeta>, more: seq<string>)
    requires AnchorsFit(w, lines, mine, lo, spots, img)
    ensures AnchorsFit(w, lines + more, mine, lo, spots, img)
    ensures forall k :: 0 <= k < |mine| ==> mine[k].blockEnd <= |lines|
  {
    forall k | 0 <= k < |mine| ensures Placed(w, lines + more, mine[k], spots[k], lo, img) && mine[k].blockEnd <= |lines| {
      assert Placed(w, lines, mine[k], spots[k], lo, img);
      DelimitsGrows(w, lines, mine[k], spots[k], img, more);
    }
  }

  lemma {:induction false} PairsJoin<A, B>(p: (A, B) -> bool, first: seq<A>, second: seq<A>, a: seq<B>, b: seq<B>, k: nat)
    requires |a| == |first| && |b| == |second| && k < |first + second|
    requires forall j :: 0 <= j < |first| ==> p(first[j], a[j])
    requires forall j :: 0 <= j < |second| ==> p(second[j], b[j])
    ensures p((first + second)[k], (a + b)[k])
  {
    if k >= |first| { assert p(second[k - |first|], b[k - |first|]); }
  }

  lemma {:induction false} PlacedJoin(w: CharWidth, lines: seq<string>, first: seq<Anchor>, second: seq<Anchor>, lo: nat, mid: nat,
                                      a: seq<Spot>, b: seq<Spot>, img: string -> Option<ImgMeta>, k: nat)
    requires |a| == |first| && |b| == |second| && lo <= mid && k < |first + second|
    requires forall j :: 0 <= j < |first| ==> Placed(w, lines, first[j], a[j], lo, img)
    requires forall j :: 0 <= j < |second| ==> Placed(w, lines, second[j], b[j], mid, img)
    ensures Placed(w, lines, (first + second)[k], (a + b)[k], lo, img)
  {
    PairsJoin((x: Anchor, y: Spot) => Placed(w, lines, x, y, lo, img), first, second, a, b, k);
  }

  /** What two neighbouring pieces emit fits together. */
  lemma {:induction false} FitJoin(w: CharWidth, before: seq<string>, first: seq<Anchor>, lines: seq<string>,
                                   second: seq<Anchor>, lo: nat, a: seq<Spot>, b: seq<Spot>,
                                   img: string -> Option<ImgMeta>)
    requires before <= lines && lo <= |before|
    requires AnchorsFit(w, before, first, lo, a, img)
    requires AnchorsFit(w, lines, second, |before|, b, img)
    ensures AnchorsFit(w, lines, first + second, lo, a + b, img)
  {
    var more := lines[|before|..];
    assert lines == before + more;
    FitGrows(w, before, first, lo, a, img, more);
    forall k | 0 <= k < |first + second| ensures Placed(w, lines, (first + second)[k], (a + b)[k], lo, img) {
      PlacedJoin(w, lines, first, second, lo, |before|, a, b, img, k);
    }
    assert forall k :: 0 <= k < |second| ==> Placed(w, lines, second[k], b[k], |before|, img);
    InOrder(first, second, |before|);
  }

  lemma {:induction false} InOrder(first: seq<Anchor>, second: seq<Anchor>, at: nat)
    requires forall k :: 0 <= k < |first| ==> first[k].blockEnd <= at
    requires forall k :: 0 <= k < |second| ==> at <= second[k].blockStart
    requires forall j, k :: 0 <= j < k < |first| ==> first[j].blockEnd <= first[k].blockStart
    requires forall j, k :: 0 <= j < k < |second| ==> second[j].blockEnd <= second[k].blockStart
    ensures forall j, k :: 0 <= j < k < |first + second| ==> (first + second)[j].blockEnd <= (first + second)[k].blockStart
  {
  }

  /** A blank last line is never the last line of a box. */
  lemma {:induction false} FitPops(w: CharWidth, lines: seq<string>, mine: seq<Anchor>, spots: seq<Spot>,
                                   img: string -> Option<ImgMeta>)
    requires AnchorsFit(w, lines, mine, 0, spots, img) && lines != [] && lines[|lines| - 1] == ""
    ensures AnchorsFit(w, lines[..|lines| - 1], mine, 0, spots, img)
  {
    forall k | 0 <= k < |mine| ensures Placed(w, lines[..|lines| - 1], mine[k], spots[k], 0, img) {
      assert Placed(w, lines, mine[k], spots[k], 0, img);
      DelimitsPops(w, lines, mine[k], spots[k], img);
    }
  }

  lemma {:induction false} DelimitsPops(w: CharWidth, lines: seq<string>, a: Anchor, s: Spot, img: string -> Option<ImgMeta>)
    requires Delimits(w, lines, a, s, img) && lines != [] && lines[|lines| - 1] == ""
    ensures Delimits(w, lines[..|lines| - 1], a, s, img)
  {
    var box := BoxLines(w, s.image.alt, s.image.url, s.ind);
    assert lines[a.blockEnd - 1] == lines[a.blockStart..a.blockEnd][|box| - 1] == box[|box| - 1];
    assert |s.ind.cont + Dim(BoxBottom(s.ind.width))| > 0;
    assert lines[..|lines| - 1][a.blockStart..a.blockEnd] == lines[a.blockStart..a.blockEnd];
  }

  // ------------------------------------------------------------ text of the file

  /** Empty lines at the end go. */
  function WithoutBlanks(lines: seq<string>): seq<string> {
    if lines != [] && lines[|lines| - 1] == "" then WithoutBlanks(lines[..|lines| - 1]) else lines
  }

  /** The lines of an article. */
  function ArticleLines(w: CharWidth, blocks: seq<Block>): seq<string> {
    WithoutBlanks(RenderedAll(w, blocks, 0, 0, Indent("", "", WIDTH)))
  }

  /** Lines joined by line breaks. */
  function Separated(lines: seq<string>): string {
    if lines == [] then ""
    else if |lines| == 1 then lines[0]
    else Separated(lines[..|lines| - 1]) + "\n" + lines[|lines| - 1]
  }

  /** The file: one line break after the last line. */
  function FileText(lines: seq<string>): string { Separated(lines) + "\n" }

  // ------------------------------------------------------ the reader's preflight

  predicate IntervalsOk(images: seq<Anchor>, n: nat) {
    && (forall k :: 0 <= k < |images| ==> images[k].blockStart < images[k].blockEnd <= n)
    && (forall j, k :: 0 <= j < k < |images| ==> images[j].blockEnd <= images[k].blockStart)
  }

  predicate GeometryOk(a: Anchor) { a.w != 0 && a.h != 0 && a.indentCols <= a.displayCols <= WIDTH }
}
