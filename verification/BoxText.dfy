/** From the rendered lines to the file and back: the reader splits the text again,
    checks the anchors against it, and finds the image boxes by line number. */
module BoxText {
  import opened Common
  import opened Text
  import opened Wrap
  import opened WrapQuality
  import opened Sgr
  import opened Boxes
  import opened BoxGeometry

  /** What the reader sees of one pushed line. */
  lemma {:induction false} OneLine(s: string)
    ensures |TextLines(s + "\n")| >= 1 && (|TextLines(s + "\n")| == 1 <==> '\n' !in s)
    ensures '\n' !in s ==> TextLines(s + "\n") == [Chomp(s)]
  {
    var t := s + "\n";
    match Find(s, '\n')
    case None =>
      assert t[..|s|] == s && t[|s| + 1..] == "";
      LinesAtBreak(t, |s|);
    case Some(n) =>
      assert t[..n] == s[..n] && t[n + 1..] == s[n + 1..] + "\n";
      LinesAtBreak(t, n);
      OneLine(s[n + 1..]);
  }

  // ------------------------------------------------------------ the lines again

  /** What the reader sees of pushed lines, each ended by a line break. */
  function Shown(lines: seq<string>): seq<string> {
    if lines == [] then [] else Shown(lines[..|lines| - 1]) + TextLines(lines[|lines| - 1] + "\n")
  }

  /** Some line holds a line break of its own. */
  ghost predicate Torn(lines: seq<string>) { exists s :: s in lines && '\n' in s }

  ghost predicate Returns(lines: seq<string>) { exists s :: s in lines && EndsInReturn(s) }

  lemma {:induction false} FileLines(lines: seq<string>)
    requires lines != []
    ensures TextLines(FileText(lines)) == Shown(lines)
  {
    var n := |lines| - 1;
    var last := lines[n] + "\n";
    if n == 0 {
      assert Shown(lines[..0]) == [] && [] + TextLines(last) == TextLines(last);
    } else {
      FileLines(lines[..n]);
      assert FileText(lines) == FileText(lines[..n]) + last;
      SplitAtBreak(Separated(lines[..n]), last);
    }
  }

  lemma {:induction false} ShownSum(a: seq<string>, b: seq<string>)
    ensures Shown(a + b) == Shown(a) + Shown(b)
  {
    if b == [] {
      assert a + b == a;
    } else {
      var n := |b| - 1;
      assert (a + b)[..|a + b| - 1] == a + b[..n];
      ShownSum(a, b[..n]);
      Regroup(Shown(a), Shown(b[..n]), TextLines(b[n] + "\n"));
    }
  }

  lemma {:induction false} ShownCount(lines: seq<string>)
    ensures |Shown(lines)| >= |lines| && (|Shown(lines)| == |lines| <==> !Torn(lines))
    ensures !Torn(lines) ==> forall k :: 0 <= k < |lines| ==> Shown(lines)[k] == Chomp(lines[k])
  {
    if lines != [] {
      var n := |lines| - 1;
      ShownCount(lines[..n]);
      OneLine(lines[n]);
      TornLast(lines);
    }
  }

  lemma {:induction false} TornLast(lines: seq<string>)
    requires lines != []
    ensures Torn(lines) <==> Torn(lines[..|lines| - 1]) || '\n' in lines[|lines| - 1]
  {
    var n := |lines| - 1;
    assert lines == lines[..n] + [lines[n]];
    if Torn(lines) {
      var s :| s in lines && '\n' in s;
      if s != lines[n] { assert s in lines[..n]; }
    }
  }

  /** Splitting the file gives the rendered lines back if and only if there is a line,
      none holds a line break, and none ends in a carriage return. */
  lemma {:induction false} TextReadBack(lines: seq<string>)
    ensures TextLines(FileText(lines)) == lines <==> lines != [] && !Torn(lines) && !Returns(lines)
  {
    if lines == [] {
      OneLine("");
      assert FileText(lines) == "" + "\n";
    } else {
      FileLines(lines);
      ShownCount(lines);
      if !Torn(lines) { Unchomped(Shown(lines), lines); }
    }
  }

  lemma {:induction false} Unchomped(shown: seq<string>, lines: seq<string>)
    requires |shown| == |lines| && forall k :: 0 <= k < |lines| ==> shown[k] == Chomp(lines[k])
    ensures shown == lines <==> !Returns(lines)
  {
    if Returns(lines) {
      var s :| s in lines && EndsInReturn(s);
      var k :| 0 <= k < |lines| && lines[k] == s;
      assert |shown[k]| < |lines[k]|;
    } else {
      forall k | 0 <= k < |lines| ensures shown[k] == lines[k] { assert lines[k] in lines; }
    }
  }

  /** Lines `start` to `end` come out where `lines[..start]` and `lines[..end]` end, and
      that is the interval with their own numbers if and only if no line break is
      inside any line up to `end`. */
  lemma {:induction false} Landing(lines: seq<string>, start: nat, end: nat)
    requires start <= end <= |lines| && lines != []
    ensures var text, s, e := TextLines(FileText(lines)), |Shown(lines[..start])|, |Shown(lines[..end])|;
            && start <= s <= e <= |text| && text[s..e] == Shown(lines[start..end])
            && (s == start && e == end <==> !Torn(lines[..end]))
  {
    FileLines(lines);
    var first, box, rest := lines[..start], lines[start..end], lines[end..];
    assert lines[..end] == first + box && lines == lines[..end] + rest;
    ShownSum(first, box);
    ShownSum(lines[..end], rest);
    ShownCount(first);
    ShownCount(lines[..end]);
    if Torn(first) {
      var x :| x in first && '\n' in x;
      assert x in lines[..end];
    }
  }

  /** With no line break inside a line up to `end`, the text has these very lines at
      their numbers if and only if none of them ends in a carriage return. */
  lemma {:induction false} LinesInPlace(lines: seq<string>, start: nat, end: nat)
    requires start <= end <= |lines| && lines != [] && !Torn(lines[..end])
    ensures var text := TextLines(FileText(lines));
            end <= |text| && (text[start..end] == lines[start..end] <==> !Returns(lines[start..end]))
  {
    Landing(lines, start, end);
    var box := lines[start..end];
    forall x | x in box ensures '\n' !in x { assert x in lines[..end]; }
    ShownCount(box);
    Unchomped(Shown(box), box);
  }

  // ------------------------------------------------------ the reader's preflight

  datatype PreflightError = EmptyText | OutOfBounds | Overlap | ZeroSize | BadColumns | BadAsset

  ghost predicate Accepted(n: nat, images: seq<Anchor>, assetOk: string -> bool) {
    n != 0 && IntervalsOk(images, n) && forall k :: 0 <= k < |images| ==> GeometryOk(images[k]) && assetOk(images[k].asset)
  }

  /** The checks over a rendered text and its anchors; `assetOk` says whether an asset
      is well named and its file is there. */
  method Preflight(text: string, images: seq<Anchor>, assetOk: string -> bool) returns (e: Option<PreflightError>)
    ensures e.None? <==> Accepted(|TextLines(text)|, images, assetOk)
    ensures e == Some(EmptyText) <==> text == ""
    ensures IntervalsOk(images, |TextLines(text)|) ==> e != Some(OutOfBounds) && e != Some(Overlap)
  {
    var n := |TextLines(text)|;
    if n == 0 { return Some(EmptyText); }
    var prevEnd := 0;
    for i := 0 to |images|
      invariant IntervalsOk(images[..i], n) && forall k :: 0 <= k < i ==> GeometryOk(images[k]) && assetOk(images[k].asset)
      invariant prevEnd == if i == 0 then 0 else images[i - 1].blockEnd
    {
      var a := images[i];
      if !(a.blockStart < a.blockEnd && a.blockEnd <= n) { return Some(OutOfBounds); }
      if a.blockStart < prevEnd { return Some(Overlap); }
      IntervalsGrow(images, i, n);
      prevEnd := a.blockEnd;
      if a.w == 0 || a.h == 0 { return Some(ZeroSize); }
      if a.indentCols > a.displayCols || a.displayCols > WIDTH { return Some(BadColumns); }
      if !assetOk(a.asset) { return Some(BadAsset); }
    }
    assert images[..|images|] == images;
    e := None;
  }

  lemma {:induction false} IntervalsGrow(images: seq<Anchor>, i: nat, n: nat)
    requires i < |images| && IntervalsOk(images[..i], n)
    requires images[i].blockStart < images[i].blockEnd <= n && (i > 0 ==> images[i - 1].blockEnd <= images[i].blockStart)
    ensures IntervalsOk(images[..i + 1], n)
  {
    var all, before := images[..i + 1], images[..i];
    forall j | 0 <= j < i ensures all[j].blockEnd <= all[i].blockStart {
      assert before[j].blockEnd <= before[i - 1].blockEnd by {
        if j < i - 1 { assert before[j].blockEnd <= before[i - 1].blockStart < before[i - 1].blockEnd; }
      }
    }
    forall j, k | 0 <= j < k < i + 1 ensures all[j].blockEnd <= all[k].blockStart {
      if k < i { assert before[j].blockEnd <= before[k].blockStart; }
    }
  }

  /** The intervals of a rendered article always lie in order within the text. */
  lemma {:induction false} IntervalsInText(w: CharWidth, lines: seq<string>, mine: seq<Anchor>, spots: seq<Spot>,
                                           img: string -> Option<ImgMeta>)
    requires AnchorsFit(w, lines, mine, 0, spots, img)
    ensures |TextLines(FileText(lines))| > 0 && IntervalsOk(mine, |TextLines(FileText(lines))|)
  {
    TextLonger(lines);
    forall k | 0 <= k < |mine| ensures mine[k].blockStart < mine[k].blockEnd <= |TextLines(FileText(lines))| {
      assert Placed(w, lines, mine[k], spots[k], 0, img);
      assert |lines[mine[k].blockStart..mine[k].blockEnd]| >= 2;
    }
  }

  lemma {:induction false} TextLonger(lines: seq<string>)
    ensures |TextLines(FileText(lines))| >= Max(1, |lines|)
  {
    if lines == [] {
      OneLine("");
      assert FileText(lines) == "" + "\n";
    } else {
      FileLines(lines);
      ShownCount(lines);
    }
  }

  /** The reader accepts a rendered article, whatever stands in it, if and only if its
      images are not empty, stand where the box is as wide as the indent, and have
      their assets. */
  lemma {:induction false} ArticleAccepted(w: CharWidth, blocks: seq<Block>, img: string -> Option<ImgMeta>,
                                           anchors: seq<Anchor>, assetOk: string -> bool)
    requires MarksNarrow(w)
    requires AnchorsFit(w, ArticleLines(w, blocks), anchors, 0, ArticleSpots(blocks, img), img)
    ensures Accepted(|TextLines(FileText(ArticleLines(w, blocks)))|, anchors, assetOk)
       <==> forall k :: 0 <= k < |anchors| ==> anchors[k].w != 0 && anchors[k].h != 0
                                               && Fits(ArticleSpots(blocks, img)[k].at) && assetOk(anchors[k].asset)
  {
    var lines := ArticleLines(w, blocks);
    IntervalsInText(w, lines, anchors, ArticleSpots(blocks, img), img);
    forall k | 0 <= k < |anchors|
      ensures GeometryOk(anchors[k]) <==> anchors[k].w != 0 && anchors[k].h != 0 && Fits(ArticleSpots(blocks, img)[k].at)
    {
      GeometryExact(w, blocks, img, lines, anchors, k);
    }
  }

  // --------------------------------------------- which trees tear their lines

  ghost predicate LinkTorn(a: Atom) { a.link.Some? && '\n' in a.link.value }

  /** A character is shown with a link that holds a line break. */
  ghost predicate SegsTorn(segs: seq<Seg>) { exists a :: a in Atoms(segs) && a.c != '\n' && LinkTorn(a) }

  /** A line break outside wrapped text: in a link's target, a code line or a table cell. */
  ghost predicate BlockTorn(b: Block)
    decreases b, 0
  {
    match b
    case Paragraph(segs) => SegsTorn(segs)
    case Heading(segs) => SegsTorn(segs)
    case Rule => false
    case Code(code) => Torn(code)
    case Quote(inner) => AnyTorn(inner)
    case List(_, _, items) => ItemsTorn(items)
    case Table(head, rows) => Torn(head) || exists r :: r in rows && Torn(r)
    case Image(_, url, _) => SegsTorn(UrlSegs(url))
  }

  ghost predicate AnyTorn(bs: seq<Block>)
    decreases bs, 1
  {
    bs != [] && (AnyTorn(bs[..|bs| - 1]) || BlockTorn(bs[|bs| - 1]))
  }

  ghost predicate ItemsTorn(items: seq<Item>)
    decreases items, 1
  {
    items != [] && (ItemsTorn(items[..|items| - 1]) || AnyTorn(items[|items| - 1].blocks))
  }

  lemma {:induction false} TornSum(a: seq<string>, b: seq<string>)
    ensures Torn(a + b) <==> Torn(a) || Torn(b)
  {
    if Torn(a) { var s :| s in a && '\n' in s; assert s in a + b; }
    if Torn(b) { var s :| s in b && '\n' in s; assert s in a + b; }
  }

  ghost predicate SegTorn(s: Seg) { '\n' in s.text || (s.link.Some? && '\n' in s.link.value) }

  ghost predicate AnySegTorn(segs: seq<Seg>) { exists s :: s in segs && SegTorn(s) }

  ghost predicate AtomTorn(a: Atom) { a.c == '\n' || LinkTorn(a) }

  ghost predicate AnyAtomTorn(l: Line) { exists a :: a in l && AtomTorn(a) }

  ghost predicate AnyLineTorn(ls: seq<Line>) { exists l :: l in ls && AnyAtomTorn(l) }

  lemma {:induction false} EmitWhole(codes: seq<Code>)
    ensures '\n' !in Emit(codes)
  {
    if codes != [] { EmitWhole(codes[1..]); }
  }

  lemma {:induction false} PieceTorn(seg: Seg, active: Style, link: Option<string>)
    requires link.Some? ==> '\n' !in link.value
    ensures '\n' in Piece(seg, active, link) <==> SegTorn(seg)
  {
    EmitWhole(Codes(active, seg.style));
    var close := if link != seg.link && link.Some? then OscClose() else "";
    var open := if link != seg.link && seg.link.Some? then OscOpen(seg.link.value) else "";
    assert '\n' in open <==> seg.link.Some? && '\n' in seg.link.value;
  }

  /** A printed line holds a line break exactly if a text or a link in it does. */
  lemma {:induction false} PrintedTorn(segs: seq<Seg>, active: Style, link: Option<string>)
    requires link.Some? ==> '\n' !in link.value
    ensures '\n' in RenderFrom(segs, active, link) <==> AnySegTorn(segs)
  {
    if segs != [] {
      PieceTorn(segs[0], active, link);
      if SegTorn(segs[0]) {
      } else {
        PrintedTorn(segs[1..], segs[0].style, segs[0].link);
        assert segs == [segs[0]] + segs[1..];
      }
    }
  }

  lemma {:induction false} PushTorn(segs: seq<Seg>, a: Atom)
    ensures AnySegTorn(PushAtom(segs, a)) <==> AnySegTorn(segs) || AtomTorn(a)
  {
    var n := |segs| - 1;
    var out := PushAtom(segs, a);
    if segs != [] && segs[n].style == a.style && segs[n].link == a.link {
      assert segs == segs[..n] + [segs[n]] && out == segs[..n] + [out[n]];
      assert SegTorn(out[n]) <==> SegTorn(segs[n]) || AtomTorn(a);
      LastSeg(segs[..n], segs[n]);
      LastSeg(segs[..n], out[n]);
    } else {
      assert SegTorn(Seg(a.style, [a.c], a.link)) <==> AtomTorn(a);
      LastSeg(segs, Seg(a.style, [a.c], a.link));
    }
  }

  lemma {:induction false} LastSeg(segs: seq<Seg>, s: Seg)
    ensures AnySegTorn(segs + [s]) <==> AnySegTorn(segs) || SegTorn(s)
  {
    if AnySegTorn(segs) { var x :| x in segs && SegTorn(x); assert x in segs + [s]; }
    if SegTorn(s) { assert s in segs + [s]; }
  }

  lemma {:induction false} AtomsJoin(l: Line, m: Line)
    ensures AnyAtomTorn(l + m) <==> AnyAtomTorn(l) || AnyAtomTorn(m)
  {
    if AnyAtomTorn(l) { var x :| x in l && AtomTorn(x); assert x in l + m; }
    if AnyAtomTorn(m) { var x :| x in m && AtomTorn(x); assert x in l + m; }
  }

  lemma {:induction false} MergedTorn(l: Line)
    ensures AnySegTorn(MergeOf(l)) <==> AnyAtomTorn(l)
  {
    if l != [] {
      var n := |l| - 1;
      MergedTorn(l[..n]);
      PushTorn(MergeOf(l[..n]), l[n]);
      assert l == l[..n] + [l[n]];
      AtomsJoin(l[..n], [l[n]]);
      assert AnyAtomTorn([l[n]]) <==> AtomTorn(l[n]) by { assert l[n] in [l[n]]; }
    }
  }

  lemma {:induction false} FlattenTorn(ls: seq<Line>)
    ensures AnyLineTorn(ls) <==> AnyAtomTorn(Flatten(ls))
  {
    if ls != [] {
      FlattenTorn(ls[1..]);
      AtomsJoin(ls[0], Flatten(ls[1..]));
      assert ls == [ls[0]] + ls[1..];
    }
  }

  lemma {:induction false} KeptAtoms(s: Line, a: Atom)
    ensures a in WithoutNewlines(s) <==> a in s && a.c != '\n'
  {
    if s != [] {
      KeptAtoms(s[1..], a);
      assert s == [s[0]] + s[1..];
    }
  }

  /** Wrapped text tears its lines exactly if a shown character's link does: the text's
      own line breaks are spent on the layout. */
  lemma {:induction false} WrappedTorn(w: CharWidth, segs: seq<Seg>, width: nat, first: string, cont: string)
    requires '\n' !in first && '\n' !in cont
    ensures Torn(WrappedLines(w, segs, width, first, cont)) <==> SegsTorn(segs)
  {
    var ls := Lines(w, Atoms(segs), width);
    LinesKeepText(w, Atoms(segs), width);
    FlattenTorn(ls);
    forall a ensures a in WithoutNewlines(Atoms(segs)) <==> a in Atoms(segs) && a.c != '\n' { KeptAtoms(Atoms(segs), a); }
    PrintedLinesTorn(ls, first, cont);
  }

  lemma {:induction false} PrintedLinesTorn(ls: seq<Line>, first: string, cont: string)
    requires '\n' !in first && '\n' !in cont
    ensures Torn(Printed(ls, first, cont)) <==> AnyLineTorn(ls)
  {
    var out := Printed(ls, first, cont);
    forall k | 0 <= k < |ls| ensures '\n' in out[k] <==> AnyAtomTorn(ls[k]) {
      MergedTorn(ls[k]);
      PrintedTorn(MergeOf(ls[k]), PLAIN, None);
    }
    if Torn(out) { var s :| s in out && '\n' in s; var k :| 0 <= k < |out| && out[k] == s; assert ls[k] in ls; }
    if AnyLineTorn(ls) { var l :| l in ls && AnyAtomTorn(l); var k :| 0 <= k < |ls| && ls[k] == l; assert out[k] in out; }
  }

  // ------------------------------------------------------------ through the tree

  predicate Whole(ind: Indent) { '\n' !in ind.first && '\n' !in ind.cont }

  lemma {:induction false} RepeatWhole(s: string, n: nat)
    requires '\n' !in s
    ensures '\n' !in Repeat(s, n)
  {
    if n > 0 { RepeatWhole(s, n - 1); }
  }

  lemma {:induction false} DigitsWhole(s: string)
    requires forall k :: 0 <= k < |s| ==> Digit(s[k])
    ensures '\n' !in s
  {
  }

  lemma {:induction false} QuotesWhole(q: nat)
    ensures '\n' !in QuotePrefix(q)
  {
    RepeatWhole(Dim("> "), q);
  }

  lemma {:induction false} MarkerWhole(ordered: bool, number: nat)
    ensures '\n' !in Marker(ordered, number)
  {
    if ordered {
      RepeatWhole(" ", Max(0, 3 - |Decimal(number)|));
      DigitsWhole(Decimal(number));
    }
  }

  lemma {:induction false} ItemWhole(ordered: bool, number: nat, q: nat, level: nat)
    ensures Whole(ItemFirst(ordered, number, q, level)) && Whole(ItemLater(q, level))
  {
    QuotesWhole(q);
    RepeatWhole("  ", level);
    MarkerWhole(ordered, number);
  }

  lemma {:induction false} BoxTorn(w: CharWidth, alt: string, url: string, ind: Indent)
    requires Whole(ind)
    ensures Torn(BoxLines(w, alt, url, ind)) <==> SegsTorn(UrlSegs(url))
  {
    var top, bottom := ind.first + Dim(BoxTop(ind.width)), ind.cont + Dim(BoxBottom(ind.width));
    var a := WrappedLines(w, AltSegs(alt), ContentWidth(ind), Bar(ind), Bar(ind));
    var u := WrappedLines(w, UrlSegs(url), ContentWidth(ind), Bar(ind), Bar(ind));
    BordersWhole(ind);
    WrappedTorn(w, AltSegs(alt), ContentWidth(ind), Bar(ind), Bar(ind));
    WrappedTorn(w, UrlSegs(url), ContentWidth(ind), Bar(ind), Bar(ind));
    NoLinks(alt);
    FramedTorn(top, a, u, bottom);
  }

  lemma {:induction false} FramedTorn(top: string, a: seq<string>, u: seq<string>, bottom: string)
    requires '\n' !in top && '\n' !in bottom
    ensures Torn(Framed(top, a, u, bottom)) <==> Torn(a) || Torn(u)
  {
    TornSum([top], a);
    TornSum([top] + a, u);
    TornSum([top] + a + u, [bottom]);
  }

  lemma {:induction false} BordersWhole(ind: Indent)
    requires Whole(ind)
    ensures '\n' !in ind.first + Dim(BoxTop(ind.width)) && '\n' !in ind.cont + Dim(BoxBottom(ind.width))
    ensures '\n' !in Bar(ind)
  {
    RepeatWhole("\U{2500}", Max(0, ind.width - 9));
    RepeatWhole("\U{2500}", Max(0, ind.width - 1));
  }

  lemma {:induction false} NoLinks(alt: string)
    ensures !SegsTorn(AltSegs(alt))
  {
    assert AltSegs(alt)[1..] == [];
    assert Atoms(AltSegs(alt)) == SegAtoms(AltSegs(alt)[0]);
  }

  lemma {:induction false} CodeTorn(code: seq<string>, ind: Indent)
    requires Whole(ind)
    ensures Torn(CodeLines(code, ind)) <==> Torn(code)
  {
    var out := CodeLines(code, ind);
    forall k | 0 <= k < |code| ensures '\n' in out[k] <==> '\n' in code[k] {
      var pre := (if k == 0 then ind.first else ind.cont) + Dim("\U{2502}") + "   ";
      assert out[k] == pre + code[k] && '\n' !in pre;
    }
    SameTorn(out, code);
  }

  lemma {:induction false} SameTorn(a: seq<string>, b: seq<string>)
    requires |a| == |b| && forall k :: 0 <= k < |a| ==> ('\n' in a[k] <==> '\n' in b[k])
    ensures Torn(a) <==> Torn(b)
  {
    if Torn(a) { var s :| s in a && '\n' in s; var k :| 0 <= k < |a| && a[k] == s; assert b[k] in b; }
    if Torn(b) { var s :| s in b && '\n' in s; var k :| 0 <= k < |b| && b[k] == s; assert a[k] in a; }
  }

  lemma {:induction false} JoinTorn(cells: seq<string>)
    ensures '\n' in Join(cells) <==> Torn(cells)
  {
    if |cells| == 1 {
      assert cells[0] in cells;
    } else if cells != [] {
      JoinTorn(cells[1..]);
      assert cells == [cells[0]] + cells[1..];
      TornSum([cells[0]], cells[1..]);
      assert cells[0] in [cells[0]];
    }
  }

  lemma {:induction false} TableTorn(head: seq<string>, rows: seq<seq<string>>, ind: Indent)
    requires Whole(ind)
    ensures Torn(TableLines(head, rows, ind)) <==> Torn(head) || exists r :: r in rows && Torn(r)
  {
    var out := seq(|rows|, i requires 0 <= i < |rows| => ind.cont + Join(rows[i]));
    var joined := seq(|rows|, i requires 0 <= i < |rows| => Join(rows[i]));
    var h, rule := ind.first + Join(head), ind.cont + Dim("---- | ----");
    SameTorn(out, joined);
    RowsTorn(rows, joined);
    JoinTorn(head);
    assert Torn([h, rule]) <==> '\n' in h by { assert h in [h, rule]; }
    TornSum([h, rule], out);
    assert TableLines(head, rows, ind) == [h, rule] + out;
  }

  lemma {:induction false} RowsTorn(rows: seq<seq<string>>, joined: seq<string>)
    requires |joined| == |rows| && forall k :: 0 <= k < |rows| ==> joined[k] == Join(rows[k])
    ensures Torn(joined) <==> exists r :: r in rows && Torn(r)
  {
    if Torn(joined) {
      var s :| s in joined && '\n' in s;
      var k :| 0 <= k < |joined| && joined[k] == s;
      JoinTorn(rows[k]);
      assert rows[k] in rows;
    }
    if exists r :: r in rows && Torn(r) {
      var r :| r in rows && Torn(r);
      var k :| 0 <= k < |rows| && rows[k] == r;
      JoinTorn(rows[k]);
      assert joined[k] in joined;
    }
  }

  lemma {:induction false} RuleWhole(ind: Indent)
    requires Whole(ind)
    ensures !Torn([ind.first + Dim(Repeat("-", WIDTH))])
  {
    DashesWhole(ind.first, WIDTH);
  }

  lemma {:induction false} DashesWhole(first: string, n: nat)
    requires '\n' !in first
    ensures !Torn([first + Dim(Repeat("-", n))])
  {
    RepeatWhole("-", n);
  }

  lemma {:induction false} QuotedWhole(ind: Indent)
    requires Whole(ind)
    ensures Whole(Quoted(ind))
  {
    QuotesWhole(1);
  }

  /** The lines of a block are torn exactly if its tree holds such a line break. */
  lemma {:induction false} RenderedTorn(w: CharWidth, b: Block, q: nat, level: nat, ind: Indent)
    requires Whole(ind)
    ensures Torn(Rendered(w, b, q, level, ind)) <==> BlockTorn(b)
    decreases b, 0
  {
    match b
    case Paragraph(segs) => WrappedTorn(w, segs, ind.width, ind.first, ind.cont);
    case Heading(segs) => WrappedTorn(w, segs, ind.width, ind.first, ind.cont);
    case Rule => RuleWhole(ind);
    case Code(code) => CodeTorn(code, ind);
    case Quote(inner) =>
      QuotedWhole(ind);
      RenderedAllTorn(w, inner, q + 1, level, Quoted(ind));
    case List(ordered, start, items) => RenderedItemsTorn(w, ordered, start, items, q, level);
    case Table(head, rows) => TableTorn(head, rows, ind);
    case Image(alt, url, _) => BoxTorn(w, alt, url, ind);
  }

  lemma {:induction false} RenderedAllTorn(w: CharWidth, bs: seq<Block>, q: nat, level: nat, ind: Indent)
    requires Whole(ind)
    ensures Torn(RenderedAll(w, bs, q, level, ind)) <==> AnyTorn(bs)
    decreases bs, 1
  {
    if bs != [] {
      var n := |bs| - 1;
      var a, b := RenderedAll(w, bs[..n], q, level, ind), Rendered(w, bs[n], q, level, ind);
      RenderedAllTorn(w, bs[..n], q, level, ind);
      RenderedTorn(w, bs[n], q, level, ind);
      TornSum(a, b);
      TornSum(a + b, if bs[n].Quote? then [] else [""]);
    }
  }

  lemma {:induction false} RenderedItemTorn(w: CharWidth, bs: seq<Block>, first: Indent, later: Indent, q: nat, level: nat)
    requires Whole(first) && Whole(later)
    ensures Torn(RenderedItem(w, bs, first, later, q, level)) <==> AnyTorn(bs)
    decreases bs, 1
  {
    if bs != [] {
      var n := |bs| - 1;
      assert bs[..n + 1] == bs;
      RenderedItemTorn(w, bs[..n], first, later, q, level);
      RenderedTorn(w, bs[n], q, level + 1, if n == 0 then first else later);
      PartTorn(w, bs, n, first, later, q, level);
    }
  }

  lemma {:induction false} PartTorn(w: CharWidth, bs: seq<Block>, n: nat, first: Indent, later: Indent, q: nat, level: nat)
    requires n < |bs|
    ensures Torn(RenderedItem(w, bs[..n + 1], first, later, q, level)) <==>
            Torn(RenderedItem(w, bs[..n], first, later, q, level))
            || Torn(Rendered(w, bs[n], q, level + 1, if n == 0 then first else later))
  {
    RenderedItemNext(w, bs, n, first, later, q, level);
    TornSum(RenderedItem(w, bs[..n], first, later, q, level),
            Rendered(w, bs[n], q, level + 1, if n == 0 then first else later));
  }

  lemma {:induction false} RenderedItemsTorn(w: CharWidth, ordered: bool, start: nat, items: seq<Item>, q: nat, level: nat)
    ensures Torn(RenderedItems(w, ordered, start, items, q, level)) <==> ItemsTorn(items)
    decreases items, 1
  {
    if items != [] {
      var n := |items| - 1;
      RenderedItemsTorn(w, ordered, start, items[..n], q, level);
      NumberedTorn(w, ordered, start + n, items[n].blocks, q, level);
      assert items[..n + 1] == items;
      ItemTorn(w, ordered, start, items, n, q, level);
    }
  }

  lemma {:induction false} ItemTorn(w: CharWidth, ordered: bool, start: nat, items: seq<Item>, n: nat, q: nat, level: nat)
    requires n < |items|
    ensures Torn(RenderedItems(w, ordered, start, items[..n + 1], q, level)) <==>
            Torn(RenderedItems(w, ordered, start, items[..n], q, level))
            || Torn(RenderedItem(w, items[n].blocks, ItemFirst(ordered, start + n, q, level), ItemLater(q, level), q, level))
  {
    RenderedItemsNext(w, ordered, start, items, n, q, level);
    TornSum(RenderedItems(w, ordered, start, items[..n], q, level),
            RenderedItem(w, items[n].blocks, ItemFirst(ordered, start + n, q, level), ItemLater(q, level), q, level));
  }

  lemma {:induction false} NumberedTorn(w: CharWidth, ordered: bool, number: nat, bs: seq<Block>, q: nat, level: nat)
    ensures Torn(RenderedItem(w, bs, ItemFirst(ordered, number, q, level), ItemLater(q, level), q, level)) <==> AnyTorn(bs)
    decreases bs, 2
  {
    ItemWhole(ordered, number, q, level);
    RenderedItemTorn(w, bs, ItemFirst(ordered, number, q, level), ItemLater(q, level), q, level);
  }

  lemma {:induction false} BlanksTorn(lines: seq<string>)
    ensures Torn(WithoutBlanks(lines)) <==> Torn(lines)
  {
    if lines != [] && lines[|lines| - 1] == "" {
      BlanksTorn(lines[..|lines| - 1]);
      TornLast(lines);
    }
  }

  /** Every pushed line of an article is one line of its file, under its own number, if
      and only if no link, code line or table cell of the tree holds a line break. */
  lemma {:induction false} NumbersKept(w: CharWidth, blocks: seq<Block>)
    ensures var lines := ArticleLines(w, blocks);
            lines != [] ==> (|TextLines(FileText(lines))| == |lines| <==> !AnyTorn(blocks))
  {
    var lines := ArticleLines(w, blocks);
    ArticleTorn(w, blocks);
    if lines != [] {
      FileLines(lines);
      ShownCount(lines);
    }
  }

  lemma {:induction false} ArticleTorn(w: CharWidth, blocks: seq<Block>)
    ensures Torn(ArticleLines(w, blocks)) <==> AnyTorn(blocks)
  {
    var top := Indent("", "", WIDTH);
    RenderedAllTorn(w, blocks, 0, 0, top);
    BlanksTorn(RenderedAll(w, blocks, 0, 0, top));
  }

  /** In an article without such line breaks every anchor delimits its image's box in
      the text that the reader splits, unless a row of the box ends in a carriage
      return, which the split takes away. */
  lemma {:induction false} BoxesInText(w: CharWidth, blocks: seq<Block>, img: string -> Option<ImgMeta>, anchors: seq<Anchor>, k: nat)
    requires !AnyTorn(blocks) && k < |anchors|
    requires AnchorsFit(w, ArticleLines(w, blocks), anchors, 0, ArticleSpots(blocks, img), img)
    ensures var text, a, s := TextLines(FileText(ArticleLines(w, blocks))), anchors[k], ArticleSpots(blocks, img)[k];
            && s.image.Image? && a.blockStart <= a.blockEnd <= |text|
            && (text[a.blockStart..a.blockEnd] == BoxLines(w, s.image.alt, s.image.url, s.ind)
                <==> !Returns(BoxLines(w, s.image.alt, s.image.url, s.ind)))
  {
    var lines, a, s := ArticleLines(w, blocks), anchors[k], ArticleSpots(blocks, img)[k];
    ArticleTorn(w, blocks);
    assert Placed(w, lines, a, s, 0, img);
    assert |lines[a.blockStart..a.blockEnd]| >= 2;
    forall x | x in lines[..a.blockEnd] ensures '\n' !in x { assert x in lines; }
    LinesInPlace(lines, a.blockStart, a.blockEnd);
  }

  /** A table cell with a line break moves the image behind it: the anchor's interval
      starts too early. */
  lemma {:induction false} TornCellMovesBox(w: CharWidth, b: Block, img: string -> Option<ImgMeta>, anchors: seq<Anchor>)
    requires b.Image? && img(b.dest).Some?
    requires var blocks := [Table(["a\nb"], []), b]; AnchorsFit(w, ArticleLines(w, blocks), anchors, 0, ArticleSpots(blocks, img), img)
    ensures |anchors| == 1 && anchors[0].blockStart <= |ArticleLines(w, [Table(["a\nb"], []), b])|
    ensures anchors[0].blockStart < |Shown(ArticleLines(w, [Table(["a\nb"], []), b])[..anchors[0].blockStart])|
  {
    var lines, top := ArticleLines(w, [Table(["a\nb"], []), b]), Indent("", "", WIDTH);
    TableThenImage(b, img);
    TornHead(w, b);
    var a := anchors[0];
    assert Placed(w, lines, a, Spot(b, top, TOP), 0, img);
    var box := BoxLines(w, b.alt, b.url, top);
    assert lines[a.blockStart] == lines[a.blockStart..a.blockEnd][0] == box[0];
    assert box[0][0] == ESC;
    BehindTornHead(lines, a.blockStart);
  }

  lemma {:induction false} BehindTornHead(lines: seq<string>, start: nat)
    requires start < |lines| && lines[0] == "a\nb" && lines[start] != lines[0]
    ensures start < |Shown(lines[..start])|
  {
    var before := lines[..start];
    assert before[0] == lines[0] && lines[0][1] == '\n';
    assert before[0] in before;
    ShownCount(before);
  }

  lemma {:induction false} TableThenImage(b: Block, img: string -> Option<ImgMeta>)
    requires b.Image? && img(b.dest).Some?
    ensures ArticleSpots([Table(["a\nb"], []), b], img) == [Spot(b, Indent("", "", WIDTH), TOP)]
  {
    var table := Table(["a\nb"], []);
    var blocks := [table, b];
    var top := Indent("", "", WIDTH);
    assert blocks[..1] == [table] && [table][..0] == [];
    assert SpotsAll([table], 0, 0, top, TOP, img) == [];
    assert SpotsAll(blocks, 0, 0, top, TOP, img) == SpotsAll([table], 0, 0, top, TOP, img) + Spots(b, 0, 0, top, TOP, img);
  }

  lemma {:induction false} TornHead(w: CharWidth, b: Block)
    requires b.Image?
    ensures var lines := ArticleLines(w, [Table(["a\nb"], []), b]); lines != [] && lines[0] == "a\nb"
  {
    var table, top := Table(["a\nb"], []), Indent("", "", WIDTH);
    var first := RenderedAll(w, [table], 0, 0, top);
    FirstLine(w, table, top);
    var more := Rendered(w, b, 0, 0, top);
    TwoBlocks(w, table, b, top);
    assert (first + more + [""])[0] == first[0];
    BlanksKeepHead(first + more + [""]);
  }

  lemma {:induction false} TwoBlocks(w: CharWidth, x: Block, b: Block, ind: Indent)
    requires b.Image?
    ensures RenderedAll(w, [x, b], 0, 0, ind) == RenderedAll(w, [x], 0, 0, ind) + Rendered(w, b, 0, 0, ind) + [""]
  {
    assert [x, b][..1] == [x];
  }

  lemma {:induction false} FirstLine(w: CharWidth, table: Block, top: Indent)
    requires table == Table(["a\nb"], []) && top.first == ""
    ensures var r := RenderedAll(w, [table], 0, 0, top); r != [] && r[0] == "a\nb"
  {
    assert [table][..0] == [];
    var lines := TableLines(["a\nb"], [], top);
    assert Rendered(w, table, 0, 0, top) == lines;
    assert lines[0] == "" + Join(["a\nb"]) == "a\nb";
    assert RenderedAll(w, [table], 0, 0, top) == [] + lines + [""];
  }

  lemma {:induction false} BlanksKeepHead(lines: seq<string>)
    requires lines != [] && lines[0] != ""
    ensures var r := WithoutBlanks(lines); r != [] && r[0] == lines[0]
  {
    if lines[|lines| - 1] == "" { BlanksKeepHead(lines[..|lines| - 1]); }
  }
}
