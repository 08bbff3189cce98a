/** Which images of an article the reader's geometry check lets through: the columns
    of an image's indent and of its box, by the quotes and lists around it. */
module BoxGeometry {
  import opened Common
  import opened Text
  import opened Wrap
  import opened Sgr
  import opened SgrReaders
  import opened Boxes

  /** The marks of quotes and list items take one column each. */
  ghost predicate MarksNarrow(w: CharWidth) {
    w('>') == 1 && w('.') == 1 && w('\U{2022}') == 1 && forall c :: Digit(c) ==> w(c) == 1
  }

  /** Columns in front of an image at `at`. */
  function Cols(at: Where): nat { 2 * at.depth + if at.lead.Some? then at.lead.value else 0 }

  /** Columns its box is given. */
  function WidthAt(at: Where): nat { Max(0, WIDTH - 2 * at.depth - if at.lead.Some? then 4 else 0) }

  /** The box is at least as wide as the indent in front of it. */
  predicate Fits(at: Where) {
    if at.lead.Some? then 4 * at.depth + at.lead.value <= 72 else at.depth <= 19
  }

  /** `s` takes `n` columns, whatever follows it. */
  ghost predicate Measures(w: CharWidth, s: string, n: nat) {
    forall rest :: VisibleWidth(w, s + rest) == n + VisibleWidth(w, rest)
  }

  ghost predicate Matches(w: CharWidth, ind: Indent, at: Where) {
    Measures(w, ind.first, Cols(at)) && ind.width == WidthAt(at)
  }

  ghost predicate AllMatch(w: CharWidth, spots: seq<Spot>) {
    spots == [] || (AllMatch(w, spots[..|spots| - 1]) && Matches(w, spots[|spots| - 1].ind, spots[|spots| - 1].at))
  }

  // ------------------------------------------------------------------ columns

  lemma {:induction false} MeasuresJoin(w: CharWidth, a: string, m: nat, b: string, n: nat)
    requires Measures(w, a, m) && Measures(w, b, n)
    ensures Measures(w, a + b, m + n)
  {
    forall rest ensures VisibleWidth(w, a + b + rest) == m + n + VisibleWidth(w, rest) {
      assert a + b + rest == a + (b + rest);
      assert VisibleWidth(w, b + rest) == n + VisibleWidth(w, rest);
    }
  }

  lemma {:induction false} MeasuresChar(w: CharWidth, c: char)
    requires c != ESC
    ensures Measures(w, [c], w(c))
  {
    forall rest ensures VisibleWidth(w, [c] + rest) == w(c) + VisibleWidth(w, rest) {
      assert ([c] + rest)[1..] == rest;
    }
  }

  lemma {:induction false} MeasuresCsi(w: CharWidth, code: Code)
    requires code != Unknown
    ensures Measures(w, Csi(code), 0)
  {
    forall rest ensures VisibleWidth(w, Csi(code) + rest) == VisibleWidth(w, rest) { CsiMeasured(w, code, rest); }
  }

  lemma {:induction false} MeasuresRepeat(w: CharWidth, s: string, cols: nat, n: nat)
    requires Measures(w, s, cols)
    ensures Measures(w, Repeat(s, n), n * cols)
  {
    if n == 0 {
      MeasuresNothing(w);
    } else {
      MeasuresRepeat(w, s, cols, n - 1);
      MeasuresJoin(w, s, cols, Repeat(s, n - 1), (n - 1) * cols);
    }
  }

  lemma {:induction false} MeasuresPair(w: CharWidth, a: char, b: char)
    requires a != ESC && b != ESC
    ensures Measures(w, [a, b], w(a) + w(b))
  {
    MeasuresChar(w, a);
    MeasuresChar(w, b);
    MeasuresJoin(w, [a], w(a), [b], w(b));
    assert [a] + [b] == [a, b];
  }

  lemma {:induction false} MeasuresQuotes(w: CharWidth, q: nat)
    requires w('>') == 1
    ensures Measures(w, QuotePrefix(q), 2 * q)
  {
    var mark := "> ";
    assert mark == ['>', ' '];
    MeasuresPair(w, '>', ' ');
    MeasuresCsi(w, DimOn);
    MeasuresCsi(w, WeightOff);
    MeasuresJoin(w, Csi(DimOn), 0, mark, 2);
    MeasuresJoin(w, Csi(DimOn) + mark, 2, Csi(WeightOff), 0);
    MeasuresRepeat(w, Dim(mark), 2, q);
  }

  lemma {:induction false} MeasuresDigits(w: CharWidth, s: string)
    requires forall k :: 0 <= k < |s| ==> Digit(s[k])
    requires forall c :: Digit(c) ==> w(c) == 1
    ensures Measures(w, s, |s|)
  {
    if s == "" {
      MeasuresNothing(w);
    } else {
      MeasuresDigits(w, s[1..]);
      assert Digit(s[0]);
      MeasuresChar(w, s[0]);
      MeasuresJoin(w, [s[0]], 1, s[1..], |s| - 1);
      assert s == [s[0]] + s[1..];
    }
  }

  lemma {:induction false} MeasuresMarker(w: CharWidth, ordered: bool, number: nat)
    requires MarksNarrow(w)
    ensures Measures(w, Marker(ordered, number), MarkerCols(ordered, number))
  {
    if ordered {
      var d := Decimal(number);
      var pad := Max(0, 3 - |d|);
      MeasuresChar(w, ' ');
      assert " " == [' '];
      MeasuresRepeat(w, " ", 1, pad);
      MeasuresDigits(w, d);
      MeasuresPair(w, '.', ' ');
      assert ". " == ['.', ' '];
      MeasuresJoin(w, Repeat(" ", pad), pad, d, |d|);
      MeasuresJoin(w, Repeat(" ", pad) + d, pad + |d|, ". ", 2);
    } else {
      MeasuresPair(w, ' ', ' ');
      MeasuresPair(w, '\U{2022}', ' ');
      MeasuresJoin(w, [' ', ' '], 2, ['\U{2022}', ' '], 2);
      assert "  \U{2022} " == [' ', ' '] + ['\U{2022}', ' '];
    }
  }

  lemma {:induction false} MeasuresLead(w: CharWidth, q: nat, level: nat)
    requires w('>') == 1
    ensures Measures(w, Lead(q, level), 2 * (q + level))
  {
    MeasuresQuotes(w, q);
    MeasuresPair(w, ' ', ' ');
    assert "  " == [' ', ' '];
    MeasuresRepeat(w, "  ", 2, level);
    MeasuresJoin(w, QuotePrefix(q), 2 * q, Repeat("  ", level), 2 * level);
  }

  /** Both indents of a list item match their places. */
  lemma {:induction false} ItemMatches(w: CharWidth, ordered: bool, number: nat, q: nat, level: nat, at: Where)
    requires MarksNarrow(w) && Level(at, q, level)
    ensures Matches(w, ItemFirst(ordered, number, q, level), InItem(at, MarkerCols(ordered, number)))
    ensures Matches(w, ItemLater(q, level), InItem(at, 4))
  {
    MeasuresLead(w, q, level);
    MeasuresMarker(w, ordered, number);
    MeasuresJoin(w, Lead(q, level), 2 * (q + level), Marker(ordered, number), MarkerCols(ordered, number));
    MeasuresPair(w, ' ', ' ');
    MeasuresJoin(w, [' ', ' '], 2, [' ', ' '], 2);
    assert "    " == [' ', ' '] + [' ', ' '];
    MeasuresJoin(w, Lead(q, level), 2 * (q + level), "    ", 4);
  }

  lemma {:induction false} QuotedMatches(w: CharWidth, ind: Indent, at: Where)
    requires w('>') == 1 && Matches(w, ind, at)
    ensures Matches(w, Quoted(ind), InQuote(at))
  {
    MeasuresQuotes(w, 1);
    MeasuresJoin(w, ind.first, Cols(at), QuotePrefix(1), 2);
  }

  // ------------------------------------------------------------ through the tree

  /** The counters of the renderer agree with the place. */
  predicate Level(at: Where, q: nat, level: nat) { at.depth + (if at.lead.Some? then 1 else 0) == q + level }

  lemma {:induction false} MatchJoin(w: CharWidth, a: seq<Spot>, b: seq<Spot>)
    requires AllMatch(w, a) && AllMatch(w, b)
    ensures AllMatch(w, a + b)
  {
    if b == [] {
      assert a + b == a;
    } else {
      assert (a + b)[..|a + b| - 1] == a + b[..|b| - 1];
      MatchJoin(w, a, b[..|b| - 1]);
    }
  }

  lemma {:induction false} MatchAt(w: CharWidth, spots: seq<Spot>, k: nat)
    requires AllMatch(w, spots) && k < |spots|
    ensures Matches(w, spots[k].ind, spots[k].at)
  {
    if k < |spots| - 1 { MatchAt(w, spots[..|spots| - 1], k); }
  }

  lemma {:induction false} SpotsMatch(w: CharWidth, b: Block, q: nat, level: nat, ind: Indent, at: Where,
                                      img: string -> Option<ImgMeta>)
    requires MarksNarrow(w) && Level(at, q, level) && Matches(w, ind, at)
    ensures AllMatch(w, Spots(b, q, level, ind, at, img))
    decreases b, 0
  {
    match b
    case Quote(inner) =>
      QuotedMatches(w, ind, at);
      SpotsAllMatch(w, inner, q + 1, level, Quoted(ind), InQuote(at), img);
    case List(ordered, start, items) => SpotsItemsMatch(w, ordered, start, items, q, level, at, img);
    case _ =>
      assert Spots(b, q, level, ind, at, img)[..0] == [];
  }

  lemma {:induction false} SpotsAllMatch(w: CharWidth, bs: seq<Block>, q: nat, level: nat, ind: Indent, at: Where,
                                         img: string -> Option<ImgMeta>)
    requires MarksNarrow(w) && Level(at, q, level) && Matches(w, ind, at)
    ensures AllMatch(w, SpotsAll(bs, q, level, ind, at, img))
    decreases bs, 1
  {
    if bs != [] {
      SpotsAllMatch(w, bs[..|bs| - 1], q, level, ind, at, img);
      SpotsMatch(w, bs[|bs| - 1], q, level, ind, at, img);
      MatchJoin(w, SpotsAll(bs[..|bs| - 1], q, level, ind, at, img), Spots(bs[|bs| - 1], q, level, ind, at, img));
    }
  }

  lemma {:induction false} SpotsItemMatch(w: CharWidth, bs: seq<Block>, first: Indent, later: Indent, lead: nat, q: nat,
                                          level: nat, at: Where, img: string -> Option<ImgMeta>)
    requires MarksNarrow(w) && Level(at, q, level)
    requires Matches(w, first, InItem(at, lead)) && Matches(w, later, InItem(at, 4))
    ensures AllMatch(w, SpotsItem(bs, first, later, lead, q, level, at, img))
    decreases bs, 1
  {
    if bs != [] {
      var n := |bs| - 1;
      SpotsItemMatch(w, bs[..n], first, later, lead, q, level, at, img);
      SpotsMatch(w, bs[n], q, level + 1, if n == 0 then first else later, InItem(at, if n == 0 then lead else 4), img);
      MatchJoin(w, SpotsItem(bs[..n], first, later, lead, q, level, at, img),
                Spots(bs[n], q, level + 1, if n == 0 then first else later, InItem(at, if n == 0 then lead else 4), img));
    }
  }

  lemma {:induction false} SpotsItemsMatch(w: CharWidth, ordered: bool, start: nat, items: seq<Item>, q: nat, level: nat,
                                           at: Where, img: string -> Option<ImgMeta>)
    requires MarksNarrow(w) && Level(at, q, level)
    ensures AllMatch(w, SpotsItems(ordered, start, items, q, level, at, img))
    decreases items, 1
  {
    if items != [] {
      var n := |items| - 1;
      SpotsItemsMatch(w, ordered, start, items[..n], q, level, at, img);
      NumberedMatch(w, ordered, start + n, items[n].blocks, q, level, at, img);
      assert items[..n + 1] == items;
      SpotsItemsNext(ordered, start, items, n, q, level, at, img);
      MatchJoin(w, SpotsItems(ordered, start, items[..n], q, level, at, img),
                SpotsItem(items[n].blocks, ItemFirst(ordered, start + n, q, level), ItemLater(q, level),
                          MarkerCols(ordered, start + n), q, level, at, img));
    }
  }

  lemma {:induction false} NumberedMatch(w: CharWidth, ordered: bool, number: nat, bs: seq<Block>, q: nat, level: nat,
                                         at: Where, img: string -> Option<ImgMeta>)
    requires MarksNarrow(w) && Level(at, q, level)
    ensures AllMatch(w, SpotsItem(bs, ItemFirst(ordered, number, q, level), ItemLater(q, level), MarkerCols(ordered, number),
                                  q, level, at, img))
    decreases bs, 2
  {
    ItemMatches(w, ordered, number, q, level, at);
    SpotsItemMatch(w, bs, ItemFirst(ordered, number, q, level), ItemLater(q, level), MarkerCols(ordered, number), q, level, at, img);
  }

  // ---------------------------------------------------------------- the check

  lemma {:induction false} MatchedColumns(w: CharWidth, ind: Indent, at: Where)
    requires Matches(w, ind, at)
    ensures VisibleWidth(w, ind.first) == Cols(at) && ind.width == WidthAt(at)
  {
    assert ind.first + "" == ind.first;
    assert VisibleWidth(w, ind.first + "") == Cols(at) + VisibleWidth(w, "");
  }

  /** The anchor of every image of every article carries the columns of the image's
      place, and passes the reader's geometry check if and only if the image is not
      empty and its place leaves a box as wide as the indent. */
  lemma {:induction false} GeometryExact(w: CharWidth, blocks: seq<Block>, img: string -> Option<ImgMeta>,
                                         lines: seq<string>, anchors: seq<Anchor>, k: nat)
    requires MarksNarrow(w) && AnchorsFit(w, lines, anchors, 0, ArticleSpots(blocks, img), img) && k < |anchors|
    ensures var at := ArticleSpots(blocks, img)[k].at;
            && anchors[k].indentCols == Cols(at) && anchors[k].displayCols == WidthAt(at)
            && (GeometryOk(anchors[k]) <==> anchors[k].w != 0 && anchors[k].h != 0 && Fits(at))
  {
    SpotColumns(w, blocks, img, k);
    AnchorColumns(w, lines, anchors, ArticleSpots(blocks, img), img, k);
    FitsIff(ArticleSpots(blocks, img)[k].at);
  }

  lemma {:induction false} SpotColumns(w: CharWidth, blocks: seq<Block>, img: string -> Option<ImgMeta>, k: nat)
    requires MarksNarrow(w) && k < |ArticleSpots(blocks, img)|
    ensures var s := ArticleSpots(blocks, img)[k]; VisibleWidth(w, s.ind.first) == Cols(s.at) && s.ind.width == WidthAt(s.at)
  {
    var top := Indent("", "", WIDTH);
    MeasuresNothing(w);
    SpotsAllMatch(w, blocks, 0, 0, top, TOP, img);
    MatchAt(w, ArticleSpots(blocks, img), k);
    MatchedColumns(w, ArticleSpots(blocks, img)[k].ind, ArticleSpots(blocks, img)[k].at);
  }

  lemma {:induction false} MeasuresNothing(w: CharWidth)
    ensures Measures(w, "", 0)
  {
    forall rest ensures VisibleWidth(w, "" + rest) == VisibleWidth(w, rest) { assert "" + rest == rest; }
  }

  lemma {:induction false} AnchorColumns(w: CharWidth, lines: seq<string>, anchors: seq<Anchor>, spots: seq<Spot>,
                                         img: string -> Option<ImgMeta>, k: nat)
    requires AnchorsFit(w, lines, anchors, 0, spots, img) && k < |anchors|
    ensures anchors[k].indentCols == VisibleWidth(w, spots[k].ind.first) && anchors[k].displayCols == spots[k].ind.width
  {
    assert Placed(w, lines, anchors[k], spots[k], 0, img);
  }

  lemma {:induction false} FitsIff(at: Where)
    ensures Cols(at) <= WidthAt(at) <= WIDTH <==> Fits(at)
  {
  }

  // ---------------------------------------------------------- refused articles

  /** A block inside `n` quotes. */
  function InQuotes(n: nat, b: Block): Block { if n == 0 then b else Quote([InQuotes(n - 1, b)]) }

  /** A block alone in `n` lists, one inside the other. */
  function InLists(n: nat, ordered: bool, start: nat, b: Block): Block {
    if n == 0 then b else List(ordered, start, [Item([InLists(n - 1, ordered, start, b)])])
  }

  lemma {:induction false} OneBlock(b: Block, q: nat, level: nat, ind: Indent, at: Where, img: string -> Option<ImgMeta>)
    ensures SpotsAll([b], q, level, ind, at, img) == Spots(b, q, level, ind, at, img)
  {
    assert [b][..0] == [];
  }

  lemma {:induction false} OneItem(b: Block, ordered: bool, start: nat, q: nat, level: nat, at: Where,
                                   img: string -> Option<ImgMeta>)
    ensures Spots(List(ordered, start, [Item([b])]), q, level, Indent("", "", 0), at, img)
         == Spots(b, q, level + 1, ItemFirst(ordered, start, q, level), InItem(at, MarkerCols(ordered, start)), img)
  {
    var items := [Item([b])];
    assert items[..0] == [] && items[..1] == items;
    SpotsItemsNext(ordered, start, items, 0, q, level, at, img);
    FirstBlock(b, ItemFirst(ordered, start, q, level), ItemLater(q, level), MarkerCols(ordered, start), q, level, at, img);
  }

  lemma {:induction false} FirstBlock(b: Block, first: Indent, later: Indent, lead: nat, q: nat, level: nat, at: Where,
                                      img: string -> Option<ImgMeta>)
    ensures SpotsItem([b], first, later, lead, q, level, at, img) == Spots(b, q, level + 1, first, InItem(at, lead), img)
  {
    assert [b][..0] == [];
  }

  /** An image inside `n` quotes and nothing else stands at depth `n`. */
  lemma {:induction false} QuotesPlace(n: nat, b: Block, q: nat, level: nat, ind: Indent, at: Where,
                                       img: string -> Option<ImgMeta>)
    requires b.Image? && img(b.dest).Some?
    ensures var spots := Spots(InQuotes(n, b), q, level, ind, at, img);
            |spots| == 1 && spots[0].image == b && spots[0].at == at.(depth := at.depth + n)
  {
    if n > 0 {
      OneBlock(InQuotes(n - 1, b), q + 1, level, Quoted(ind), InQuote(at), img);
      QuotesPlace(n - 1, b, q + 1, level, Quoted(ind), InQuote(at), img);
    }
  }

  /** An image alone in lists inside lists inside quotes. */
  lemma {:induction false} ListsPlace(n: nat, ordered: bool, start: nat, b: Block, q: nat, level: nat, ind: Indent, at: Where,
                                      img: string -> Option<ImgMeta>)
    requires b.Image? && img(b.dest).Some? && n > 0
    ensures var spots := Spots(InLists(n, ordered, start, b), q, level, ind, at, img);
            && |spots| == 1 && spots[0].image == b
            && spots[0].at == Where(at.depth + n - (if at.lead.Some? then 0 else 1), Some(MarkerCols(ordered, start)))
    decreases n
  {
    OneItem(InLists(n - 1, ordered, start, b), ordered, start, q, level, at, img);
    if n > 1 {
      ListsPlace(n - 1, ordered, start, b, q, level + 1, ItemFirst(ordered, start, q, level),
                 InItem(at, MarkerCols(ordered, start)), img);
    }
  }

  lemma {:induction false} ListInQuotesPlace(n: nat, m: nat, ordered: bool, start: nat, b: Block, q: nat, level: nat,
                                             ind: Indent, at: Where, img: string -> Option<ImgMeta>)
    requires b.Image? && img(b.dest).Some? && m > 0 && at.lead.None?
    ensures var spots := Spots(InQuotes(n, InLists(m, ordered, start, b)), q, level, ind, at, img);
            |spots| == 1 && spots[0].image == b && spots[0].at == Where(at.depth + n + m - 1, Some(MarkerCols(ordered, start)))
  {
    if n == 0 {
      ListsPlace(m, ordered, start, b, q, level, ind, at, img);
    } else {
      OneBlock(InQuotes(n - 1, InLists(m, ordered, start, b)), q + 1, level, Quoted(ind), InQuote(at), img);
      ListInQuotesPlace(n - 1, m, ordered, start, b, q + 1, level, Quoted(ind), InQuote(at), img);
    }
  }

  /** An article that is one image in quotes passes up to nineteen of them. */
  lemma {:induction false} QuotedImagePasses(n: nat, b: Block, img: string -> Option<ImgMeta>)
    requires b.Image? && img(b.dest).Some?
    ensures |ArticleSpots([InQuotes(n, b)], img)| == 1
    ensures Fits(ArticleSpots([InQuotes(n, b)], img)[0].at) <==> n <= 19
  {
    var top := Indent("", "", WIDTH);
    OneBlock(InQuotes(n, b), 0, 0, top, TOP, img);
    QuotesPlace(n, b, 0, 0, top, TOP, img);
  }

  /** One image in `m` lists inside `n` quotes passes up to eighteen levels in all behind
      bullets and up to seventeen behind numbers of at most six digits; every four
      further digits cost one level. */
  lemma {:induction false} ListedImagePasses(n: nat, m: nat, ordered: bool, start: nat, b: Block, img: string -> Option<ImgMeta>)
    requires b.Image? && img(b.dest).Some? && m > 0
    ensures var spots := ArticleSpots([InQuotes(n, InLists(m, ordered, start, b))], img);
            && |spots| == 1
            && (Fits(spots[0].at) <==> 4 * (n + m) + (if ordered then Max(3, |Decimal(start)|) + 2 else 4) <= 76)
            && (!ordered ==> (Fits(spots[0].at) <==> n + m <= 18))
            && (ordered && |Decimal(start)| <= 6 ==> (Fits(spots[0].at) <==> n + m <= 17))
  {
    var top := Indent("", "", WIDTH);
    OneBlock(InQuotes(n, InLists(m, ordered, start, b)), 0, 0, top, TOP, img);
    ListInQuotesPlace(n, m, ordered, start, b, 0, 0, top, TOP, img);
  }
}
