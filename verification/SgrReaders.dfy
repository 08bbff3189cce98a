/** The two consumers of a printed line: the article reader's parser, which keeps
    styles and drops links, and the renderer's own measure of display width. */
module SgrReaders {
  import opened Common
  import opened Sgr
  import opened Text
  import opened Wrap

  // ------------------------------------------------- which lines come back whole

  type Cells = seq<(char, Style)>

  function DropLinks(line: Line): (r: Cells)
    ensures |r| == |line| && forall k :: 0 <= k < |r| ==> r[k] == (line[k].c, line[k].style)
  {
    seq(|line|, k requires 0 <= k < |line| => (line[k].c, line[k].style))
  }

  predicate BelFree(segs: seq<Seg>) {
    forall k :: 0 <= k < |segs| && segs[k].link.Some? ==> BEL !in segs[k].link.value
  }

  lemma {:induction false} ExpectedGrows(segs: seq<Seg>, link: Option<string>)
    ensures |Expected(segs, link)| >= |Atoms(segs)|
  {
    if segs != [] { ExpectedGrows(segs[1..], segs[0].link); }
  }

  lemma {:induction false} BelFreeSplit(segs: seq<Seg>)
    requires segs != []
    ensures BelFree(segs) <==> (segs[0].link.Some? ==> BEL !in segs[0].link.value) && BelFree(segs[1..])
  {
    assert forall k :: 0 < k < |segs| ==> segs[k] == segs[1..][k - 1];
  }

  lemma {:induction false} ExpectedLength(segs: seq<Seg>, link: Option<string>)
    requires link.Some? ==> BEL !in link.value
    ensures |Expected(segs, link)| == |Atoms(segs)| <==> BelFree(segs)
  {
    if segs != [] {
      BelFreeSplit(segs);
      ExpectedGrows(segs[1..], segs[0].link);
      if segs[0].link.Some? ==> BEL !in segs[0].link.value { ExpectedLength(segs[1..], segs[0].link); }
    }
  }

  lemma {:induction false} DropLinksJoin(a: Line, b: Line)
    ensures DropLinks(a + b) == DropLinks(a) + DropLinks(b)
  {
  }

  lemma {:induction false} ExpectedStyles(segs: seq<Seg>, link: Option<string>)
    requires BelFree(segs)
    ensures DropLinks(Expected(segs, link)) == DropLinks(Atoms(segs))
  {
    if segs != [] {
      var seg := segs[0];
      BelFreeSplit(segs);
      ExpectedStyles(segs[1..], seg.link);
      assert "" + seg.text == seg.text;
      DropLinksJoin(TextAtoms(seg.text, seg.style, Arrived(seg.link)), Expected(segs[1..], seg.link));
      DropLinksJoin(SegAtoms(seg), Atoms(segs[1..]));
      assert DropLinks(TextAtoms(seg.text, seg.style, Arrived(seg.link))) == DropLinks(SegAtoms(seg));
    }
  }

  /** Printer and parser undo each other, character by character and style by
      style, exactly when no link contains a BEL. */
  lemma {:induction false} StylesComeBack(segs: seq<Seg>)
    requires forall k :: 0 <= k < |segs| ==> Clean(segs[k])
    ensures var r := Scan(RenderFrom(segs, PLAIN, None), PLAIN, None);
            && r.Some? && r.value.style == PLAIN && r.value.link == None
            && (DropLinks(r.value.atoms) == DropLinks(Atoms(segs)) <==> BelFree(segs))
  {
    PrintedShows(segs, PLAIN, None);
    ExpectedLength(segs, None);
    if BelFree(segs) { ExpectedStyles(segs, None); }
  }

  /** Every link can be told from none and from text. */
  predicate LinksUsable(segs: seq<Seg>) {
    BelFree(segs) && forall k :: 0 <= k < |segs| ==> segs[k].link != Some("")
  }

  lemma {:induction false} UsableSplit(segs: seq<Seg>)
    requires segs != []
    ensures LinksUsable(segs) <==>
            (segs[0].link.Some? ==> BEL !in segs[0].link.value) && segs[0].link != Some("") && LinksUsable(segs[1..])
  {
    BelFreeSplit(segs);
    assert forall k :: 0 < k < |segs| ==> segs[k] == segs[1..][k - 1];
  }

  /** With usable links every character is shown with its own link; in a line without
      empty segments only then. */
  lemma {:induction false} LinksShown(segs: seq<Seg>, link: Option<string>)
    ensures LinksUsable(segs) ==> Expected(segs, link) == Atoms(segs)
    ensures (link.Some? ==> BEL !in link.value) && (forall k :: 0 <= k < |segs| ==> segs[k].text != "") ==>
              (Expected(segs, link) == Atoms(segs) <==> LinksUsable(segs))
  {
    if segs != [] {
      var seg := segs[0];
      BelFreeSplit(segs);
      UsableSplit(segs);
      assert forall k :: 0 <= k < |segs| - 1 ==> segs[1..][k] == segs[k + 1];
      if link.Some? ==> BEL !in link.value { ExpectedLength(segs, link); }
      if seg.link.Some? ==> BEL !in seg.link.value {
        LinksShown(segs[1..], seg.link);
        assert "" + seg.text == seg.text;
        HeadShown(seg, Expected(segs[1..], seg.link), Atoms(segs[1..]));
      }
    }
  }

  lemma {:induction false} HeadShown(seg: Seg, a: Line, b: Line)
    requires seg.link.Some? ==> BEL !in seg.link.value
    ensures seg.link != Some("") && a == b ==> TextAtoms(seg.text, seg.style, Arrived(seg.link)) + a == SegAtoms(seg) + b
    ensures seg.text != "" && TextAtoms(seg.text, seg.style, Arrived(seg.link)) + a == SegAtoms(seg) + b ==>
              seg.link != Some("") && a == b
  {
    var x, y := TextAtoms(seg.text, seg.style, Arrived(seg.link)), SegAtoms(seg);
    if seg.text != "" { assert (x + a)[0] == x[0] && (y + b)[0] == y[0]; }
    assert (x + a)[|x|..] == a && (y + b)[|y|..] == b;
  }

  // ------------------------------------------------------- the reader's parser

  datatype Span = Span(text: string, style: Style)

  function TextCells(text: string, style: Style): (r: Cells)
    ensures |r| == |text| && forall k :: 0 <= k < |r| ==> r[k] == (text[k], style)
  {
    seq(|text|, k requires 0 <= k < |text| => (text[k], style))
  }

  function SpanCells(spans: seq<Span>): Cells {
    if spans == [] then []
    else SpanCells(spans[..|spans| - 1]) + TextCells(spans[|spans| - 1].text, spans[|spans| - 1].style)
  }

  method FlushText(out: seq<Span>, text: string, style: Style) returns (out': seq<Span>)
    ensures SpanCells(out') == SpanCells(out) + TextCells(text, style)
  {
    out' := out;
    if text != "" {
      out' := out + [Span(text, style)];
      assert out'[..|out|] == out;
    }
  }

  /** The loop's account: what is done, and what the rest will still show. */
  ghost predicate Parsed(line: string, out: seq<Span>, text: string, style: Style, rest: string, done: Line, link: Option<string>) {
    && Scan(line, PLAIN, None) == Before(done, Scan(rest, style, link))
    && DropLinks(done) == SpanCells(out) + TextCells(text, style)
  }

  /** One escape sequence at the head of `rest`; false where the reader stops. */
  method Escape(ghost line: string, out: seq<Span>, text: string, style: Style, rest: string, ghost done: Line, ghost link: Option<string>)
    returns (ok: bool, out': seq<Span>, style': Style, rest': string, ghost link': Option<string>)
    requires |rest| > 1 && rest[0] == ESC && (rest[1] == '[' || rest[1] == ']')
    requires Parsed(line, out, text, style, rest, done, link)
    ensures !ok ==> Scan(line, PLAIN, None).None?
    ensures ok ==> |rest'| < |rest| && Parsed(line, out', "", style', rest', done, link')
  {
    ok, style', link' := true, style, link;
    out' := FlushText(out, text, style);
    if rest[1] == '[' {
      var end := ScanCsi(rest);
      var next := ApplySgr(rest[..end], style);
      if next.None? { return false, out, style, rest, link; }
      style', rest' := next.value, rest[end..];
    } else {
      var end := ScanOsc(rest);
      link' := LinkOf(OscBody(rest[..end]), link);
      rest' := rest[end..];
    }
    assert TextCells("", style') == [];
    assert DropLinks(done) == SpanCells(out') + TextCells("", style');
  }

  method ScanCsi(s: string) returns (end: nat)
    requires |s| >= 2
    ensures end == CsiEnd(s, 2) && 2 <= end <= |s|
  {
    end := 2;
    while end < |s|
      invariant 2 <= end <= |s| && CsiEnd(s, 2) == CsiEnd(s, end)
    {
      if Final(s[end]) { return end + 1; }
      end := end + 1;
    }
  }

  method ScanOsc(s: string) returns (end: nat)
    requires |s| >= 2
    ensures end == OscEnd(s, 2) && 2 <= end <= |s|
  {
    end := 2;
    while end < |s|
      invariant 2 <= end <= |s| && OscEnd(s, 2) == OscEnd(s, end)
    {
      if s[end] == BEL { return end + 1; }
      if s[end] == ESC && end + 1 < |s| && s[end + 1] == '\\' { return end + 2; }
      end := end + 1;
    }
  }

  /** The spans of a line; None where a malformed sequence stops the reader. */
  method ParseLine(line: string) returns (r: Option<seq<Span>>)
    ensures r.None? <==> Scan(line, PLAIN, None).None?
    ensures r.Some? ==> SpanCells(r.value) == DropLinks(Scan(line, PLAIN, None).value.atoms)
  {
    var out: seq<Span> := [];
    var text, style, rest := "", PLAIN, line;
    ghost var done: Line, link: Option<string> := [], None;
    BeforeNothing(Scan(line, PLAIN, None));
    while rest != ""
      invariant Parsed(line, out, text, style, rest, done, link)
      decreases |rest|
    {
      if rest[0] == ESC && |rest| > 1 && (rest[1] == '[' || rest[1] == ']') {
        var ok: bool;
        ok, out, style, rest, link := Escape(line, out, text, style, rest, done, link);
        if !ok { return None; }
        text := "";
      } else {
        var a := Atom(style, link, rest[0]);
        BeforeTwice(done, [a], Scan(rest[1..], style, link));
        TextGrows(out, text, style, done, a);
        text, rest, done := text + [rest[0]], rest[1..], done + [a];
      }
    }
    out := FlushText(out, text, style);
    assert done + [] == done;
    r := Some(out);
  }

  lemma {:induction false} TextGrows(out: seq<Span>, text: string, style: Style, done: Line, a: Atom)
    requires DropLinks(done) == SpanCells(out) + TextCells(text, style) && a.style == style
    ensures DropLinks(done + [a]) == SpanCells(out) + TextCells(text + [a.c], style)
  {
    assert DropLinks(done + [a]) == DropLinks(done) + [(a.c, style)];
    assert TextCells(text + [a.c], style) == TextCells(text, style) + [(a.c, style)];
  }

  // ------------------------------------------------------------ visible width

  predicate Alphabetic(c: char) { 'a' <= c <= 'z' || 'A' <= c <= 'Z' }

  function AlphaEnd(s: string, i: nat): (end: nat)
    requires i <= |s|
    ensures i <= end <= |s|
    decreases |s| - i
  {
    if i == |s| then i else if Alphabetic(s[i]) then i + 1 else AlphaEnd(s, i + 1)
  }

  function VisibleWidth(w: CharWidth, s: string): nat
    decreases |s|
  {
    if s == "" then 0
    else if s[0] == ESC then
      if |s| > 1 && s[1] == ']' then VisibleWidth(w, s[OscEnd(s, 2)..])
      else VisibleWidth(w, s[AlphaEnd(s, 1)..])
    else w(s[0]) + VisibleWidth(w, s[1..])
  }

  /** One pass over the characters, with the previous-ESC flag of the OSC loop. */
  method MeasureWidth(w: CharWidth, s: string) returns (n: nat)
    ensures n == VisibleWidth(w, s)
  {
    n := 0;
    var i := 0;
    assert s[0..] == s;
    while i < |s|
      invariant i <= |s| && n + VisibleWidth(w, s[i..]) == VisibleWidth(w, s)
    {
      var start := i;
      if s[i] == ESC {
        i := i + 1;
        if i < |s| && s[i] == ']' {
          i := SkipOsc(s, start);
        } else {
          i := SkipToLetter(s, start);
        }
      } else {
        assert s[i..][1..] == s[i + 1..];
        n := n + w(s[i]);
        i := i + 1;
      }
    }
  }

  method SkipOsc(s: string, start: nat) returns (i: nat)
    requires start + 2 <= |s|
    ensures start + 2 <= i <= |s| && s[i..] == s[start..][OscEnd(s[start..], 2)..]
  {
    var prevEsc := false;
    i := start + 2;
    ghost var t := s[start..];
    while i < |s|
      invariant start + 2 <= i <= |s|
      invariant prevEsc ==> i - start > 2 && t[i - start - 1] == ESC && OscEnd(t, 2) == OscEnd(t, i - start - 1)
      invariant !prevEsc ==> OscEnd(t, 2) == OscEnd(t, i - start)
    {
      var c := s[i];
      assert t[i - start] == c;
      if c == BEL || (prevEsc && c == '\\') {
        i := i + 1;
        return;
      }
      prevEsc := c == ESC;
      i := i + 1;
    }
  }

  method SkipToLetter(s: string, start: nat) returns (i: nat)
    requires start + 1 <= |s|
    ensures start + 1 <= i <= |s| && s[i..] == s[start..][AlphaEnd(s[start..], 1)..]
  {
    i := start + 1;
    ghost var t := s[start..];
    while i < |s|
      invariant start + 1 <= i <= |s| && AlphaEnd(t, 1) == AlphaEnd(t, i - start)
    {
      assert t[i - start] == s[i];
      if Alphabetic(s[i]) {
        i := i + 1;
        return;
      }
      i := i + 1;
    }
  }

  lemma {:induction false} WidthOfCons(w: CharWidth, a: Atom, s: Line)
    ensures Width(w, [a] + s) == w(a.c) + Width(w, s)
  {
    WidthConcat(w, [a], s);
    assert [a][..0] == [];
  }

  lemma {:induction false} TextMeasured(w: CharWidth, text: string, rest: string, st: Style, link: Option<string>)
    requires EscapeFree(text)
    ensures VisibleWidth(w, text + rest) == Width(w, TextAtoms(text, st, link)) + VisibleWidth(w, rest)
  {
    if text == "" {
      assert text + rest == rest;
    } else {
      TextMeasured(w, text[1..], rest, st, link);
      TailOfSum(text, rest);
      InkMeasured(w, text + rest);
      assert TextAtoms(text, st, link) == [Atom(st, link, text[0])] + TextAtoms(text[1..], st, link);
      WidthOfCons(w, Atom(st, link, text[0]), TextAtoms(text[1..], st, link));
    }
  }

  lemma {:induction false} InkMeasured(w: CharWidth, s: string)
    requires s != "" && s[0] != ESC
    ensures VisibleWidth(w, s) == w(s[0]) + VisibleWidth(w, s[1..])
  {
  }

  lemma {:induction false} AlphaEndAt(s: string, i: nat, end: nat)
    requires i < end <= |s| && Alphabetic(s[end - 1]) && forall k :: i <= k < end - 1 ==> !Alphabetic(s[k])
    ensures AlphaEnd(s, i) == end
    decreases end - i
  {
    if i + 1 < end { AlphaEndAt(s, i + 1, end); }
  }

  lemma {:induction false} CsiMeasured(w: CharWidth, code: Code, rest: string)
    requires code != Unknown
    ensures VisibleWidth(w, Csi(code) + rest) == VisibleWidth(w, rest)
  {
    var s, p := Csi(code) + rest, Param(code);
    ParamReads(code);
    var end := |p| + 3;
    assert s[1] == '[' && s[end - 1] == 'm' && s[end..] == rest;
    forall k | 1 <= k < end - 1 ensures !Alphabetic(s[k]) {
      if k >= 2 { assert s[k] == p[k - 2]; }
    }
    AlphaEndAt(s, 1, end);
  }

  lemma {:induction false} EmitMeasured(w: CharWidth, codes: seq<Code>, rest: string)
    requires Unknown !in codes
    ensures VisibleWidth(w, Emit(codes) + rest) == VisibleWidth(w, rest)
  {
    if codes == [] {
      assert "" + rest == rest;
    } else {
      Joined(Csi(codes[0]), Emit(codes[1..]), rest);
      CsiMeasured(w, codes[0], Emit(codes[1..]) + rest);
      EmitMeasured(w, codes[1..], rest);
    }
  }

  lemma {:induction false} OscMeasured(w: CharWidth, url: string, rest: string)
    requires EscapeFree(url) && BEL !in url
    ensures VisibleWidth(w, OscOpen(url) + rest) == VisibleWidth(w, rest)
  {
    var s, n := OscOpen(url) + rest, 5 + |url|;
    assert s[5..n] == url;
    forall k | 2 <= k < n ensures s[k] != BEL && s[k] != ESC {
      if k >= 5 { assert s[k] == url[k - 5]; }
    }
    OscEndAt(s, 2, n);
    assert s[n + 2..] == rest;
  }

  lemma {:induction false} PieceMeasured(w: CharWidth, seg: Seg, rest: string, active: Style, link: Option<string>)
    requires Clean(seg) && (seg.link.Some? ==> BEL !in seg.link.value)
    ensures VisibleWidth(w, Piece(seg, active, link) + rest) == Width(w, SegAtoms(seg)) + VisibleWidth(w, rest)
  {
    var close := if link != seg.link && link.Some? then OscClose() else "";
    var codes := Emit(Codes(active, seg.style));
    var open := if link != seg.link && seg.link.Some? then OscOpen(seg.link.value) else "";
    var tail := seg.text + rest;
    PieceParts(close + codes, open, seg.text, rest);
    Joined(close, codes, open + tail);
    if close != "" { OscMeasured(w, "", codes + (open + tail)); }
    else { assert close + (codes + (open + tail)) == codes + (open + tail); }
    CodesKnown(active, seg.style);
    EmitMeasured(w, Codes(active, seg.style), open + tail);
    if open != "" { OscMeasured(w, seg.link.value, tail); } else { assert open + tail == tail; }
    TextMeasured(w, seg.text, rest, seg.style, seg.link);
  }

  /** The measured width of a printed line is the sum of its characters' widths. */
  lemma {:induction false} PrintedWidth(w: CharWidth, segs: seq<Seg>, active: Style, link: Option<string>)
    requires BelFree(segs) && forall k :: 0 <= k < |segs| ==> Clean(segs[k])
    ensures VisibleWidth(w, RenderFrom(segs, active, link)) == Width(w, Atoms(segs))
  {
    if segs == [] {
      EndMeasured(w, active, link);
    } else {
      BelFreeSplit(segs);
      assert forall k :: 0 <= k < |segs| - 1 ==> segs[1..][k] == segs[k + 1];
      PrintedWidth(w, segs[1..], segs[0].style, segs[0].link);
      PieceMeasured(w, segs[0], RenderFrom(segs[1..], segs[0].style, segs[0].link), active, link);
      WidthConcat(w, SegAtoms(segs[0]), Atoms(segs[1..]));
    }
  }

  lemma {:induction false} EndMeasured(w: CharWidth, active: Style, link: Option<string>)
    ensures VisibleWidth(w, Ending(active, link)) == 0
  {
    var reset := if active != PLAIN then Csi(Reset) else "";
    if link.Some? { OscMeasured(w, "", reset); } else { assert Ending(active, link) == reset; }
    if active != PLAIN {
      CsiMeasured(w, Reset, "");
      assert Csi(Reset) + "" == Csi(Reset);
    }
  }

  /** With a BEL in a link's target the measure stops inside the target and takes the
      shown text for the rest of an escape sequence. */
  lemma {:induction false} BelLosesWidth(w: CharWidth)
    ensures var segs := [Seg(PLAIN, "x", Some([BEL]))];
            VisibleWidth(w, RenderFrom(segs, PLAIN, None)) == 0 && Width(w, Atoms(segs)) == w('x')
  {
    var seg := Seg(PLAIN, "x", Some([BEL]));
    var tail := [ESC, '\\', 'x'] + OscClose();
    var line := [ESC, ']', '8', ';', ';', BEL] + tail;
    assert Codes(PLAIN, PLAIN) == [];
    assert [seg][1..] == [];
    assert RenderFrom([seg], PLAIN, None) == Piece(seg, PLAIN, None) + RenderFrom([], PLAIN, Some([BEL]));
    assert Piece(seg, PLAIN, None) == OscOpen([BEL]) + "x";
    assert RenderFrom([seg], PLAIN, None) == line;
    assert OscEnd(line, 5) == 6 == OscEnd(line, 4) == OscEnd(line, 3) == OscEnd(line, 2);
    assert line[6..] == tail;
    assert AlphaEnd(tail, 2) == 3 == AlphaEnd(tail, 1);
    assert tail[3..] == OscClose();
    OscMeasured(w, "", "");
    assert OscOpen("") + "" == OscOpen("");
    assert Atoms([seg]) == [Atom(PLAIN, Some([BEL]), 'x')];
    assert Atoms([seg])[..0] == [];
  }
}
