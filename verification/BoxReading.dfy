/** What a rendered article shows, told from its tree alone: every paragraph, heading,
    code block, table, rule and image in reading order, each on its own lines, behind the
    prefixes of the quotes and lists around it. */
module BoxReading {
  import opened Common
  import opened Text
  import opened Wrap
  import opened WrapQuality
  import opened Sgr
  import opened SgrReaders
  import opened Boxes

  // ------------------------------------------------------------------ places

  /** A list item's number, if its list has numbers, and whether it is the item's first
      block that is looked at. */
  datatype InItem = InItem(ordered: bool, number: nat, starts: bool)

  /** A place in the tree: quotes and lists around the innermost list, the item there, and
      the quotes inside it. Outside lists only quotes count. */
  datatype Place = Place(outer: nat, lists: nat, item: Option<InItem>, inner: nat)

  const OUTSIDE := Place(0, 0, None, 0)

  function QuotedPlace(at: Place): Place { at.(inner := at.inner + 1) }

  function ItemPlace(at: Place, ordered: bool, number: nat, starts: bool): Place {
    Place(at.outer + at.inner, if at.item.Some? then at.lists + 1 else 0, Some(InItem(ordered, number, starts)), 0)
  }

  function Mark(ordered: bool, number: nat): string {
    if !ordered then "  \U{2022} "
    else if number < 10 then "  " + Decimal(number) + ". "
    else if number < 100 then " " + Decimal(number) + ". "
    else Decimal(number) + ". "
  }

  function Quotes(n: nat): string { Repeat(Dim("> "), n) }

  /** In front of a block's first line: the item's mark for the first block of an item,
      four blanks for the others. */
  function FirstPrefix(at: Place): string {
    if at.item.None? then Quotes(at.inner)
    else
      Quotes(at.outer) + Repeat("  ", at.lists)
      + (if at.item.value.starts then Mark(at.item.value.ordered, at.item.value.number) else "    ")
      + Quotes(at.inner)
  }

  /** In front of its other lines. */
  function OtherPrefix(at: Place): string {
    if at.item.None? then Quotes(at.inner)
    else Quotes(at.outer) + Repeat("  ", at.lists) + "    " + Quotes(at.inner)
  }

  /** Columns for its text. */
  function TextWidth(at: Place): nat {
    Max(0, 76 - 2 * at.inner - if at.item.None? then 0 else 2 * (at.outer + at.lists) + 4)
  }

  // ------------------------------------------------------------ what is shown

  /** A block that is drawn, at its place, or the empty line after a block. */
  datatype Leaf = Drawn(block: Block, at: Place) | Gap

  function Leaves(b: Block, at: Place): seq<Leaf>
    decreases b, 0
  {
    match b
    case Quote(inner) => LeavesAll(inner, QuotedPlace(at))
    case List(ordered, start, items) => LeavesItems(ordered, start, items, at)
    case _ => [Drawn(b, at)]
  }

  function LeavesAll(bs: seq<Block>, at: Place): seq<Leaf>
    decreases bs, 1
  {
    if bs == [] then []
    else
      var n := |bs| - 1;
      LeavesAll(bs[..n], at) + Leaves(bs[n], at) + if bs[n].Quote? then [] else [Gap]
  }

  function LeavesItem(bs: seq<Block>, ordered: bool, number: nat, at: Place): seq<Leaf>
    decreases bs, 1
  {
    if bs == [] then []
    else
      var n := |bs| - 1;
      LeavesItem(bs[..n], ordered, number, at) + Leaves(bs[n], ItemPlace(at, ordered, number, n == 0))
  }

  function LeavesItems(ordered: bool, start: nat, items: seq<Item>, at: Place): seq<Leaf>
    decreases items, 1
  {
    if items == [] then []
    else
      var n := |items| - 1;
      LeavesItems(ordered, start, items[..n], at) + LeavesItem(items[n].blocks, ordered, start + n, at)
  }

  /** Text on lines of its own: behind the prefixes, line by line, the characters of the
      segments but their line breaks, each once and in order, printed with its style and
      link, and no line wider than allowed. */
  ghost predicate TextShown(w: CharWidth, segs: seq<Seg>, width: nat, lines: seq<string>, first: string, other: string) {
    exists ls: seq<Line> :: TextOn(w, segs, width, lines, first, other, ls)
  }

  ghost predicate TextOn(w: CharWidth, segs: seq<Seg>, width: nat, lines: seq<string>, first: string, other: string, ls: seq<Line>) {
    && |ls| == |lines| && Flatten(ls) == WithoutNewlines(Atoms(segs))
    && (2 <= width ==> forall k :: 0 <= k < |ls| ==> Width(w, ls[k]) <= width)
    && forall k :: 0 <= k < |lines| ==> lines[k] == (if k == 0 then first else other) + RenderFrom(MergeOf(ls[k]), PLAIN, None)
  }

  ghost predicate CodeShown(code: seq<string>, lines: seq<string>, first: string, other: string) {
    && |lines| == |code|
    && forall k :: 0 <= k < |code| ==> lines[k] == (if k == 0 then first else other) + Dim("\U{2502}") + "   " + code[k]
  }

  ghost predicate TableShown(head: seq<string>, rows: seq<seq<string>>, lines: seq<string>, first: string, other: string) {
    && |lines| == 2 + |rows| && lines[0] == first + Join(head) && lines[1] == other + Dim("---- | ----")
    && forall k :: 0 <= k < |rows| ==> lines[2 + k] == other + Join(rows[k])
  }

  /** A box: its borders, and between them the alt text and then the linked URL. */
  ghost predicate ImageShown(w: CharWidth, alt: string, url: string, width: nat, lines: seq<string>, first: string, other: string) {
    var bar, inside := other + Dim("\U{2502}") + " ", Max(0, width - 3);
    && 2 <= |lines|
    && lines[0] == first + Dim("\U{250c}\U{2500} image " + Repeat("\U{2500}", Max(0, width - 9)))
    && lines[|lines| - 1] == other + Dim("\U{2514}" + Repeat("\U{2500}", Max(0, width - 1)))
    && exists m :: 1 <= m <= |lines| - 1
         && TextShown(w, [Seg(PLAIN, alt, None)], inside, lines[1..m], bar, bar)
         && TextShown(w, [Seg(Style(false, false, false, true), url, Some(url))], inside, lines[m..|lines| - 1], bar, bar)
  }

  ghost predicate LeafShown(w: CharWidth, leaf: Leaf, lines: seq<string>) {
    match leaf
    case Gap => lines == [""]
    case Drawn(b, at) =>
      match b
      case Paragraph(segs) => TextShown(w, segs, TextWidth(at), lines, FirstPrefix(at), OtherPrefix(at))
      case Heading(segs) => TextShown(w, segs, TextWidth(at), lines, FirstPrefix(at), OtherPrefix(at))
      case Rule => lines == [FirstPrefix(at) + Dim(Repeat("-", 76))]
      case Code(code) => CodeShown(code, lines, FirstPrefix(at), OtherPrefix(at))
      case Table(head, rows) => TableShown(head, rows, lines, FirstPrefix(at), OtherPrefix(at))
      case Image(alt, url, _) => ImageShown(w, alt, url, TextWidth(at), lines, FirstPrefix(at), OtherPrefix(at))
      case Quote(_) => false
      case List(_, _, _) => false
  }

  /** Lines in stretches, one for each part, one after the other. */
  ghost predicate Stretches<T>(lines: seq<string>, parts: seq<T>, shown: (T, seq<string>) -> bool)
    decreases |parts|
  {
    if parts == [] then lines == []
    else
      var n := |parts| - 1;
      exists cut: nat :: cut <= |lines| && Stretches(lines[..cut], parts[..n], shown) && shown(parts[n], lines[cut..])
  }

  lemma {:induction false} StretchesOne<T>(lines: seq<string>, part: T, shown: (T, seq<string>) -> bool)
    requires shown(part, lines)
    ensures Stretches(lines, [part], shown)
  {
    assert [part][..0] == [] && lines[..0] == [] && lines[0..] == lines;
    assert Stretches(lines[..0], [part][..0], shown);
  }

  lemma {:induction false} StretchesSnoc<T>(a: seq<string>, la: seq<T>, b: seq<string>, part: T, shown: (T, seq<string>) -> bool)
    requires Stretches(a, la, shown) && shown(part, b)
    ensures Stretches(a + b, la + [part], shown)
  {
    var lines, parts := a + b, la + [part];
    assert lines[..|a|] == a && lines[|a|..] == b && parts[..|la|] == la && parts[|la|] == part;
    assert Stretches(lines[..|a|], parts[..|parts| - 1], shown);
  }

  lemma {:induction false} StretchesJoin<T>(a: seq<string>, la: seq<T>, b: seq<string>, lb: seq<T>, shown: (T, seq<string>) -> bool)
    requires Stretches(a, la, shown) && Stretches(b, lb, shown)
    ensures Stretches(a + b, la + lb, shown)
    decreases |lb|
  {
    if lb == [] {
      assert a + b == a && la + lb == la;
    } else {
      var n := |lb| - 1;
      var cut: nat :| cut <= |b| && Stretches(b[..cut], lb[..n], shown) && shown(lb[n], b[cut..]);
      StretchesJoin(a, la, b[..cut], lb[..n], shown);
      StretchesSnoc(a + b[..cut], la + lb[..n], b[cut..], lb[n], shown);
      assert a + b == a + b[..cut] + b[cut..] && la + lb == la + lb[..n] + [lb[n]];
    }
  }

  ghost predicate ShownIn<T>(lines: seq<string>, part: T, span: (nat, nat), shown: (T, seq<string>) -> bool) {
    span.0 <= span.1 <= |lines| && shown(part, lines[span.0..span.1])
  }

  /** From line `from` to line `to` one interval begins where the one before it ends. */
  predicate Chained(spans: seq<(nat, nat)>, from: nat, to: nat) {
    if spans == [] then from == to
    else
      var n := |spans| - 1;
      spans[n].1 == to && Chained(spans[..n], from, spans[n].0)
  }

  /** The stretches as intervals: in order, apart, and covering every line. */
  lemma {:induction false} Intervals<T>(lines: seq<string>, parts: seq<T>, shown: (T, seq<string>) -> bool)
    returns (spans: seq<(nat, nat)>)
    requires Stretches(lines, parts, shown)
    ensures |spans| == |parts| && Chained(spans, 0, |lines|)
    ensures forall k :: 0 <= k < |parts| ==> ShownIn(lines, parts[k], spans[k], shown)
    decreases |parts|
  {
    spans := [];
    if parts != [] {
      var n := |parts| - 1;
      var cut: nat :| cut <= |lines| && Stretches(lines[..cut], parts[..n], shown) && shown(parts[n], lines[cut..]);
      var before := Intervals(lines[..cut], parts[..n], shown);
      spans := before + [(cut, |lines|)];
      ChainedSnoc(before, cut, |lines|);
      assert lines[cut..|lines|] == lines[cut..];
      forall k | 0 <= k < |parts| ensures ShownIn(lines, parts[k], spans[k], shown) {
        if k < n {
          assert parts[k] == parts[..n][k] && spans[k] == before[k];
          ShownInLonger(lines, cut, parts[..n][k], before[k], shown);
        }
      }
    }
  }

  lemma {:induction false} ChainedSnoc(spans: seq<(nat, nat)>, cut: nat, to: nat)
    requires Chained(spans, 0, cut)
    ensures Chained(spans + [(cut, to)], 0, to)
  {
    assert (spans + [(cut, to)])[..|spans|] == spans;
  }

  lemma {:induction false} ShownInLonger<T>(lines: seq<string>, cut: nat, part: T, span: (nat, nat), shown: (T, seq<string>) -> bool)
    requires cut <= |lines| && ShownIn(lines[..cut], part, span, shown)
    ensures ShownIn(lines, part, span, shown)
  {
    assert lines[..cut][span.0..span.1] == lines[span.0..span.1];
  }

  ghost function ShownBy(w: CharWidth): (Leaf, seq<string>) -> bool {
    (leaf: Leaf, lines: seq<string>) => LeafShown(w, leaf, lines)
  }

  /** The lines are those of the leaves, one after the other. */
  ghost predicate Lays(w: CharWidth, lines: seq<string>, leaves: seq<Leaf>) {
    Stretches(lines, leaves, ShownBy(w))
  }

  // -------------------------------------------------------- one leaf's lines

  lemma {:induction false} WrappedShown(w: CharWidth, segs: seq<Seg>, width: nat, first: string, other: string)
    ensures TextShown(w, segs, width, WrappedLines(w, segs, width, first, other), first, other)
  {
    var ls := Lines(w, Atoms(segs), width);
    LinesKeepText(w, Atoms(segs), width);
    if 2 <= width { LinesFit(w, Atoms(segs), width); }
    assert TextOn(w, segs, width, WrappedLines(w, segs, width, first, other), first, other, ls);
  }

  lemma {:induction false} BoxShown(w: CharWidth, alt: string, url: string, ind: Indent)
    ensures ImageShown(w, alt, url, ind.width, BoxLines(w, alt, url, ind), ind.first, ind.cont)
  {
    var lines := BoxLines(w, alt, url, ind);
    var a := WrappedLines(w, AltSegs(alt), ContentWidth(ind), Bar(ind), Bar(ind));
    var u := WrappedLines(w, UrlSegs(url), ContentWidth(ind), Bar(ind), Bar(ind));
    WrappedShown(w, AltSegs(alt), ContentWidth(ind), Bar(ind), Bar(ind));
    WrappedShown(w, UrlSegs(url), ContentWidth(ind), Bar(ind), Bar(ind));
    FramedParts(ind.first + Dim(BoxTop(ind.width)), a, u, ind.cont + Dim(BoxBottom(ind.width)));
    assert 1 <= 1 + |a| <= |lines| - 1;
  }

  lemma {:induction false} FramedParts(top: string, a: seq<string>, u: seq<string>, bottom: string)
    ensures var f := Framed(top, a, u, bottom); f[1..1 + |a|] == a && f[1 + |a|..|f| - 1] == u
  {
  }

  // ---------------------------------------------------------------- prefixes

  lemma {:induction false} MarkIs(ordered: bool, number: nat)
    ensures Marker(ordered, number) == Mark(ordered, number)
  {
    if ordered {
      DecimalSize(number);
      var d := Decimal(number);
      assert Repeat(" ", 0) == "" && Repeat(" ", 1) == " " && Repeat(" ", 2) == "  ";
      assert "" + d + ". " == d + ". ";
    }
  }

  lemma {:induction false} DecimalSize(n: nat)
    ensures |Decimal(n)| == 1 <==> n < 10
    ensures |Decimal(n)| == 2 <==> 10 <= n < 100
  {
    if n >= 10 {
      var d := Decimal(n / 10);
      if n >= 100 { assert |d| > 1 by { DecimalSize(n / 10); } } else { assert |d| == 1; }
    }
  }

  /** The renderer's counters and indent agree with the place. */
  ghost predicate Agrees(ind: Indent, q: nat, level: nat, at: Place) {
    && ind.first == FirstPrefix(at) && ind.cont == OtherPrefix(at) && ind.width == TextWidth(at)
    && Counts(q, level, at)
  }

  predicate Counts(q: nat, level: nat, at: Place) {
    q == at.outer + at.inner && level == if at.item.Some? then at.lists + 1 else 0
  }

  lemma {:induction false} OneQuoteMore(n: nat)
    ensures Quotes(n) + QuotePrefix(1) == Quotes(n + 1)
  {
    assert QuotePrefix(1) == Dim("> ") + "" == Dim("> ");
    if n > 0 {
      OneQuoteMore(n - 1);
      Regroup(Dim("> "), Quotes(n - 1), QuotePrefix(1));
    }
  }

  lemma {:induction false} QuotedAgrees(ind: Indent, q: nat, level: nat, at: Place)
    requires Agrees(ind, q, level, at)
    ensures Agrees(Quoted(ind), q + 1, level, QuotedPlace(at))
  {
    OneQuoteMore(at.inner);
    if at.item.Some? {
      var mark := if at.item.value.starts then Mark(at.item.value.ordered, at.item.value.number) else "    ";
      Regroup(Quotes(at.outer) + Repeat("  ", at.lists) + mark, Quotes(at.inner), QuotePrefix(1));
      Regroup(Quotes(at.outer) + Repeat("  ", at.lists) + "    ", Quotes(at.inner), QuotePrefix(1));
    }
  }

  lemma {:induction false} ItemAgrees(ordered: bool, number: nat, q: nat, level: nat, at: Place, starts: bool)
    requires Counts(q, level, at)
    ensures Agrees(if starts then ItemFirst(ordered, number, q, level) else ItemLater(q, level), q, level + 1,
                   ItemPlace(at, ordered, number, starts))
  {
    MarkIs(ordered, number);
    assert Quotes(0) == "" && Quotes(q) == QuotePrefix(q);
    var lead := Lead(q, level);
    assert lead + Mark(ordered, number) + "" == lead + Mark(ordered, number) && lead + "    " + "" == lead + "    ";
  }

  // ------------------------------------------------------------ through the tree

  lemma {:induction false} LeafLays(w: CharWidth, lines: seq<string>, leaf: Leaf)
    requires LeafShown(w, leaf, lines)
    ensures Lays(w, lines, [leaf])
  {
    StretchesOne(lines, leaf, ShownBy(w));
  }

  lemma {:induction false} NothingLays(w: CharWidth)
    ensures Lays(w, [], [])
  {
  }

  lemma {:induction false} LaysJoin(w: CharWidth, a: seq<string>, la: seq<Leaf>, b: seq<string>, lb: seq<Leaf>)
    requires Lays(w, a, la) && Lays(w, b, lb)
    ensures Lays(w, a + b, la + lb)
  {
    StretchesJoin(a, la, b, lb, ShownBy(w));
  }

  lemma {:induction false} BlockShown(w: CharWidth, b: Block, q: nat, level: nat, ind: Indent, at: Place)
    requires Agrees(ind, q, level, at)
    ensures Lays(w, Rendered(w, b, q, level, ind), Leaves(b, at))
    decreases b, 0
  {
    match b
    case Quote(inner) =>
      QuotedAgrees(ind, q, level, at);
      BlocksShown(w, inner, q + 1, level, Quoted(ind), QuotedPlace(at));
    case List(ordered, start, items) => ItemsShown(w, ordered, start, items, q, level, at);
    case _ => PlainShown(w, b, q, level, ind, at);
  }

  lemma {:induction false} PlainShown(w: CharWidth, b: Block, q: nat, level: nat, ind: Indent, at: Place)
    requires Agrees(ind, q, level, at) && !b.Quote? && !b.List?
    ensures Lays(w, Rendered(w, b, q, level, ind), [Drawn(b, at)])
  {
    match b {
      case Paragraph(segs) => WrappedShown(w, segs, ind.width, ind.first, ind.cont);
      case Heading(segs) => WrappedShown(w, segs, ind.width, ind.first, ind.cont);
      case Rule =>
      case Code(code) => CodeIs(code, ind);
      case Table(head, rows) => TableIs(head, rows, ind);
      case Image(alt, url, _) => BoxShown(w, alt, url, ind);
    }
    PlainLeaf(w, b, q, level, ind, at);
    LeafLays(w, Rendered(w, b, q, level, ind), Drawn(b, at));
  }

  /** What a block's lines are, in terms of its indent, they are in terms of its place. */
  lemma {:induction false} PlainLeaf(w: CharWidth, b: Block, q: nat, level: nat, ind: Indent, at: Place)
    requires ind.first == FirstPrefix(at) && ind.cont == OtherPrefix(at) && ind.width == TextWidth(at) && !b.Quote? && !b.List?
    requires b.Paragraph? ==> TextShown(w, b.segs, ind.width, WrappedLines(w, b.segs, ind.width, ind.first, ind.cont), ind.first, ind.cont)
    requires b.Heading? ==> TextShown(w, b.segs, ind.width, WrappedLines(w, b.segs, ind.width, ind.first, ind.cont), ind.first, ind.cont)
    requires b.Code? ==> CodeShown(b.code, CodeLines(b.code, ind), ind.first, ind.cont)
    requires b.Table? ==> TableShown(b.head, b.rows, TableLines(b.head, b.rows, ind), ind.first, ind.cont)
    requires b.Image? ==> ImageShown(w, b.alt, b.url, ind.width, BoxLines(w, b.alt, b.url, ind), ind.first, ind.cont)
    ensures LeafShown(w, Drawn(b, at), Rendered(w, b, q, level, ind))
  {
  }

  lemma {:induction false} CodeIs(code: seq<string>, ind: Indent)
    ensures CodeShown(code, CodeLines(code, ind), ind.first, ind.cont)
  {
  }

  lemma {:induction false} TableIs(head: seq<string>, rows: seq<seq<string>>, ind: Indent)
    ensures TableShown(head, rows, TableLines(head, rows, ind), ind.first, ind.cont)
  {
  }

  lemma {:induction false} BlocksShown(w: CharWidth, bs: seq<Block>, q: nat, level: nat, ind: Indent, at: Place)
    requires Agrees(ind, q, level, at)
    ensures Lays(w, RenderedAll(w, bs, q, level, ind), LeavesAll(bs, at))
    decreases bs, 1
  {
    if bs != [] {
      var n := |bs| - 1;
      var a, b := RenderedAll(w, bs[..n], q, level, ind), Rendered(w, bs[n], q, level, ind);
      BlocksShown(w, bs[..n], q, level, ind, at);
      BlockShown(w, bs[n], q, level, ind, at);
      LaysJoin(w, a, LeavesAll(bs[..n], at), b, Leaves(bs[n], at));
      GapShown(w, a + b, LeavesAll(bs[..n], at) + Leaves(bs[n], at), bs[n].Quote?);
    }
  }

  lemma {:induction false} GapShown(w: CharWidth, lines: seq<string>, leaves: seq<Leaf>, none: bool)
    requires Lays(w, lines, leaves)
    ensures Lays(w, lines + (if none then [] else [""]), leaves + (if none then [] else [Gap]))
  {
    if none {
      assert lines + [] == lines && leaves + [] == leaves;
    } else {
      LeafLays(w, [""], Gap);
      LaysJoin(w, lines, leaves, [""], [Gap]);
    }
  }

  lemma {:induction false} ItemShown(w: CharWidth, bs: seq<Block>, ordered: bool, number: nat, q: nat, level: nat, at: Place)
    requires Counts(q, level, at)
    ensures Lays(w, RenderedItem(w, bs, ItemFirst(ordered, number, q, level), ItemLater(q, level), q, level),
                 LeavesItem(bs, ordered, number, at))
    decreases bs, 1
  {
    if bs == [] {
      NothingLays(w);
    } else {
      var n := |bs| - 1;
      assert bs[..n + 1] == bs;
      ItemShown(w, bs[..n], ordered, number, q, level, at);
      ItemAgrees(ordered, number, q, level, at, n == 0);
      BlockShown(w, bs[n], q, level + 1, if n == 0 then ItemFirst(ordered, number, q, level) else ItemLater(q, level),
                 ItemPlace(at, ordered, number, n == 0));
      PartShown(w, bs, n, ordered, number, q, level, at);
    }
  }

  lemma {:induction false} PartShown(w: CharWidth, bs: seq<Block>, n: nat, ordered: bool, number: nat, q: nat, level: nat, at: Place)
    requires n < |bs|
    requires Lays(w, RenderedItem(w, bs[..n], ItemFirst(ordered, number, q, level), ItemLater(q, level), q, level),
                  LeavesItem(bs[..n], ordered, number, at))
    requires Lays(w, Rendered(w, bs[n], q, level + 1, if n == 0 then ItemFirst(ordered, number, q, level) else ItemLater(q, level)),
                  Leaves(bs[n], ItemPlace(at, ordered, number, n == 0)))
    ensures Lays(w, RenderedItem(w, bs[..n + 1], ItemFirst(ordered, number, q, level), ItemLater(q, level), q, level),
                 LeavesItem(bs[..n + 1], ordered, number, at))
  {
    var first, later := ItemFirst(ordered, number, q, level), ItemLater(q, level);
    RenderedItemNext(w, bs, n, first, later, q, level);
    LeavesItemNext(bs, n, ordered, number, at);
    LaysJoin(w, RenderedItem(w, bs[..n], first, later, q, level), LeavesItem(bs[..n], ordered, number, at),
             Rendered(w, bs[n], q, level + 1, if n == 0 then first else later),
             Leaves(bs[n], ItemPlace(at, ordered, number, n == 0)));
  }

  lemma {:induction false} LeavesItemNext(bs: seq<Block>, n: nat, ordered: bool, number: nat, at: Place)
    requires n < |bs|
    ensures LeavesItem(bs[..n + 1], ordered, number, at)
         == LeavesItem(bs[..n], ordered, number, at) + Leaves(bs[n], ItemPlace(at, ordered, number, n == 0))
  {
    assert bs[..n + 1][..n] == bs[..n];
  }

  lemma {:induction false} ItemsShown(w: CharWidth, ordered: bool, start: nat, items: seq<Item>, q: nat, level: nat, at: Place)
    requires Counts(q, level, at)
    ensures Lays(w, RenderedItems(w, ordered, start, items, q, level), LeavesItems(ordered, start, items, at))
    decreases items, 1
  {
    if items == [] {
      NothingLays(w);
    } else {
      var n := |items| - 1;
      assert items[..n + 1] == items;
      ItemsShown(w, ordered, start, items[..n], q, level, at);
      ItemShown(w, items[n].blocks, ordered, start + n, q, level, at);
      NumberedShown(w, ordered, start, items, n, q, level, at);
    }
  }

  lemma {:induction false} NumberedShown(w: CharWidth, ordered: bool, start: nat, items: seq<Item>, n: nat, q: nat, level: nat, at: Place)
    requires n < |items|
    requires Lays(w, RenderedItems(w, ordered, start, items[..n], q, level), LeavesItems(ordered, start, items[..n], at))
    requires Lays(w, RenderedItem(w, items[n].blocks, ItemFirst(ordered, start + n, q, level), ItemLater(q, level), q, level),
                  LeavesItem(items[n].blocks, ordered, start + n, at))
    ensures Lays(w, RenderedItems(w, ordered, start, items[..n + 1], q, level), LeavesItems(ordered, start, items[..n + 1], at))
  {
    RenderedItemsNext(w, ordered, start, items, n, q, level);
    LeavesItemsNext(ordered, start, items, n, at);
    LaysJoin(w, RenderedItems(w, ordered, start, items[..n], q, level), LeavesItems(ordered, start, items[..n], at),
             RenderedItem(w, items[n].blocks, ItemFirst(ordered, start + n, q, level), ItemLater(q, level), q, level),
             LeavesItem(items[n].blocks, ordered, start + n, at));
  }

  lemma {:induction false} LeavesItemsNext(ordered: bool, start: nat, items: seq<Item>, n: nat, at: Place)
    requires n < |items|
    ensures LeavesItems(ordered, start, items[..n + 1], at)
         == LeavesItems(ordered, start, items[..n], at) + LeavesItem(items[n].blocks, ordered, start + n, at)
  {
    assert items[..n + 1][..n] == items[..n];
  }

  // --------------------------------------------------------------- the article

  function Empties(n: nat): (r: seq<string>)
    ensures |r| == n
  {
    seq(n, _ => "")
  }

  lemma {:induction false} BlanksOff(lines: seq<string>) returns (n: nat)
    ensures lines == WithoutBlanks(lines) + Empties(n)
    ensures WithoutBlanks(lines) != [] ==> WithoutBlanks(lines)[|WithoutBlanks(lines)| - 1] != ""
  {
    n := 0;
    if lines != [] && lines[|lines| - 1] == "" {
      n := BlanksOff(lines[..|lines| - 1]);
      n := n + 1;
      assert Empties(n) == Empties(n - 1) + [""];
      assert lines == lines[..|lines| - 1] + [""];
    } else {
      assert lines + Empties(0) == lines;
    }
  }

  /** Every article: its lines, with the empty lines that were taken off at the end, are
      those of the blocks of its tree in reading order. */
  lemma {:induction false} ArticleShown(w: CharWidth, blocks: seq<Block>) returns (n: nat)
    ensures Lays(w, ArticleLines(w, blocks) + Empties(n), LeavesAll(blocks, OUTSIDE))
    ensures ArticleLines(w, blocks) != [] ==> ArticleLines(w, blocks)[|ArticleLines(w, blocks)| - 1] != ""
  {
    TopShown(w, blocks);
    n := BlanksOff(RenderedAll(w, blocks, 0, 0, Indent("", "", WIDTH)));
  }

  /** The same as intervals: one for every block and every empty line between blocks, in
      reading order and without a line left over. */
  lemma {:induction false} ArticleIntervals(w: CharWidth, blocks: seq<Block>) returns (n: nat, spans: seq<(nat, nat)>)
    ensures var lines, leaves := ArticleLines(w, blocks) + Empties(n), LeavesAll(blocks, OUTSIDE);
            && |spans| == |leaves| && Chained(spans, 0, |lines|)
            && forall k :: 0 <= k < |leaves| ==>
                 spans[k].0 <= spans[k].1 <= |lines| && LeafShown(w, leaves[k], lines[spans[k].0..spans[k].1])
  {
    n := ArticleShown(w, blocks);
    var lines, leaves := ArticleLines(w, blocks) + Empties(n), LeavesAll(blocks, OUTSIDE);
    spans := Intervals(lines, leaves, ShownBy(w));
    forall k | 0 <= k < |leaves|
      ensures spans[k].0 <= spans[k].1 <= |lines| && LeafShown(w, leaves[k], lines[spans[k].0..spans[k].1])
    {
      assert ShownIn(lines, leaves[k], spans[k], ShownBy(w));
    }
  }

  lemma {:induction false} TopShown(w: CharWidth, blocks: seq<Block>)
    ensures Lays(w, RenderedAll(w, blocks, 0, 0, Indent("", "", WIDTH)), LeavesAll(blocks, OUTSIDE))
  {
    assert Quotes(0) == "";
    BlocksShown(w, blocks, 0, 0, Indent("", "", WIDTH), OUTSIDE);
  }

  /** The renderer: the file is the lines of the tree's blocks in reading order, each line
      ended, without the empty ones at the end; and the anchors delimit the boxes. */
  method RenderArticle(w: CharWidth, img: string -> Option<ImgMeta>, blocks: seq<Block>)
    returns (text: string, anchors: seq<Anchor>, ghost lines: seq<string>, ghost off: nat)
    ensures text == FileText(lines) && Lays(w, lines + Empties(off), LeavesAll(blocks, OUTSIDE))
    ensures lines != [] ==> lines[|lines| - 1] != ""
    ensures AnchorsFit(w, lines, anchors, 0, ArticleSpots(blocks, img), img)
  {
    var renderer := new Renderer(w, img);
    text := renderer.RenderAnsi(blocks);
    anchors, lines := renderer.anchors, renderer.lines;
    off := ArticleShown(w, blocks);
  }

  /** A table row shows its cells in order, with a bar between two of them. */
  lemma {:induction false} CellsJoined(cells: seq<string>, i: nat)
    ensures 0 < i < |cells| ==> Join(cells) == Join(cells[..i]) + " | " + Join(cells[i..])
    ensures |cells| == 1 ==> Join(cells) == cells[0]
  {
    if 1 < i < |cells| {
      CellsJoined(cells[1..], i - 1);
      assert cells[..i][1..] == cells[1..][..i - 1] && cells[1..][i - 1..] == cells[i..] && cells[..i][0] == cells[0];
      Reassociate(cells[0] + " | ", Join(cells[1..][..i - 1]), " | ", Join(cells[i..]));
    } else if i == 1 < |cells| {
      assert cells[..1] == [cells[0]];
    }
  }

  // ------------------------------------------------------- read on a terminal

  /** Nothing a terminal could take for anything but itself. */
  predicate Plain(a: Atom) {
    a.c != ESC && (a.link.Some? ==> ESC !in a.link.value && BEL !in a.link.value && a.link.value != "")
  }

  predicate PlainSegs(segs: seq<Seg>) {
    LinksUsable(segs) && forall k :: 0 <= k < |segs| ==> Clean(segs[k])
  }

  lemma {:induction false} MergedPlain(l: Line)
    requires forall k :: 0 <= k < |l| ==> Plain(l[k])
    ensures Atoms(MergeOf(l)) == l && Merged(MergeOf(l)) && PlainSegs(MergeOf(l))
  {
    if l != [] {
      var n := |l| - 1;
      MergedPlain(l[..n]);
      PushAtomKeeps(MergeOf(l[..n]), l[n]);
      PushPlain(MergeOf(l[..n]), l[n]);
      assert l == l[..n] + [l[n]];
    }
  }

  lemma {:induction false} PushPlain(segs: seq<Seg>, a: Atom)
    requires PlainSegs(segs) && Plain(a)
    ensures PlainSegs(PushAtom(segs, a))
  {
    var out := PushAtom(segs, a);
    forall k | 0 <= k < |out| ensures Clean(out[k]) && out[k].link != Some("") && (out[k].link.Some? ==> BEL !in out[k].link.value) {
      if k < |segs| { assert Clean(segs[k]); }
    }
  }

  /** A printed line of plain text, read by a terminal, is that text with its styles and
      links, and leaves nothing switched on. */
  lemma {:induction false} LineRead(l: Line)
    requires forall k :: 0 <= k < |l| ==> Plain(l[k])
    ensures Scan(RenderFrom(MergeOf(l), PLAIN, None), PLAIN, None) == Some(Scanned(l, PLAIN, None))
  {
    MergedPlain(l);
    PrintedShows(MergeOf(l), PLAIN, None);
    LinksShown(MergeOf(l), None);
  }

  /** Behind its prefixes a block of plain text shows, line by line, its characters but the
      line breaks, each once and in order, with its own style and link. */
  lemma {:induction false} TextRead(w: CharWidth, segs: seq<Seg>, width: nat, lines: seq<string>, first: string, other: string)
    returns (bodies: seq<string>, ls: seq<Line>)
    requires TextShown(w, segs, width, lines, first, other) && forall k :: 0 <= k < |Atoms(segs)| ==> Plain(Atoms(segs)[k])
    ensures |bodies| == |ls| == |lines| && Flatten(ls) == WithoutNewlines(Atoms(segs))
    ensures forall k :: 0 <= k < |lines| ==>
              lines[k] == (if k == 0 then first else other) + bodies[k]
              && Scan(bodies[k], PLAIN, None) == Some(Scanned(ls[k], PLAIN, None))
  {
    ls :| TextOn(w, segs, width, lines, first, other, ls);
    bodies := seq(|ls|, k requires 0 <= k < |ls| => RenderFrom(MergeOf(ls[k]), PLAIN, None));
    PlainKept(Atoms(segs));
    forall k | 0 <= k < |lines| ensures Scan(bodies[k], PLAIN, None) == Some(Scanned(ls[k], PLAIN, None)) {
      PlainParts(ls, k);
      LineRead(ls[k]);
    }
  }

  lemma {:induction false} PlainKept(s: Line)
    requires forall k :: 0 <= k < |s| ==> Plain(s[k])
    ensures forall k :: 0 <= k < |WithoutNewlines(s)| ==> Plain(WithoutNewlines(s)[k])
  {
    if s != [] { PlainKept(s[1..]); }
  }

  lemma {:induction false} PlainParts(ls: seq<Line>, i: nat)
    requires i < |ls| && forall k :: 0 <= k < |Flatten(ls)| ==> Plain(Flatten(ls)[k])
    ensures forall k :: 0 <= k < |ls[i]| ==> Plain(ls[i][k])
  {
    var first, rest := ls[0], Flatten(ls[1..]);
    forall k | 0 <= k < |first| ensures Plain(first[k]) { assert Flatten(ls)[k] == first[k]; }
    if i > 0 {
      forall k | 0 <= k < |rest| ensures Plain(rest[k]) { assert Flatten(ls)[|first| + k] == rest[k]; }
      PlainParts(ls[1..], i - 1);
    }
  }
}
