/** Line breaking of styled text: greedy filling by display width, breaking after
    a space or beside a wide character, cutting hard only where neither exists. */
module Wrap {
  import opened Common

  /** Display width of a character: 0, 1 or 2, and 1 for a space. */
  type CharWidth = w: char -> nat | (forall c :: w(c) <= 2) && w(' ') == 1
    witness c => 1

  /** The SGR attributes the renderer uses. */
  datatype Style = Style(bold: bool, italic: bool, dim: bool, cyan: bool)

  /** A run of text in one style and one link. */
  datatype Seg = Seg(style: Style, text: string, link: Option<string>)

  datatype Atom = Atom(style: Style, link: Option<string>, c: char)

  type Line = seq<Atom>

  // ------------------------------------------------------------------ atoms

  function SegAtoms(seg: Seg): (r: Line)
    ensures |r| == |seg.text| && forall k :: 0 <= k < |r| ==> r[k] == Atom(seg.style, seg.link, seg.text[k])
  {
    seq(|seg.text|, k requires 0 <= k < |seg.text| => Atom(seg.style, seg.link, seg.text[k]))
  }

  function Atoms(segs: seq<Seg>): Line {
    if segs == [] then [] else SegAtoms(segs[0]) + Atoms(segs[1..])
  }

  function Width(w: CharWidth, s: Line): nat {
    if s == [] then 0 else Width(w, s[..|s| - 1]) + w(s[|s| - 1].c)
  }

  lemma {:induction false} WidthConcat(w: CharWidth, a: Line, b: Line)
    ensures Width(w, a + b) == Width(w, a) + Width(w, b)
  {
    if b == [] {
      assert a + b == a;
    } else {
      var n := |b| - 1;
      WidthConcat(w, a, b[..n]);
      assert (a + b)[..|a + b| - 1] == a + b[..n];
    }
  }

  // ----------------------------------------------------- what is to be laid out

  /** A line may end before position `p`: after a space, or beside a wide character. */
  predicate Opportunity(w: CharWidth, s: Line, p: int) {
    0 < p < |s| && (s[p - 1].c == ' ' || w(s[p - 1].c) == 2 || w(s[p].c) == 2)
  }

  /** The longest prefix that fits, of at least one character. */
  function Fit(w: CharWidth, s: Line, width: nat, n: nat): (r: nat)
    requires 0 < n <= |s|
    ensures n <= r <= |s|
    decreases |s| - n
  {
    if n < |s| && Width(w, s[..n + 1]) <= width then Fit(w, s, width, n + 1) else n
  }

  function LastOpportunity(w: CharWidth, s: Line, n: nat): (r: nat)
    ensures r <= n && (r > 0 ==> Opportunity(w, s, r))
    ensures forall p :: r < p <= n ==> !Opportunity(w, s, p)
  {
    if n == 0 || Opportunity(w, s, n) then n else LastOpportunity(w, s, n - 1)
  }

  /** Where the first line of `s` ends. */
  function Cut(w: CharWidth, s: Line, width: nat): (r: nat)
    requires s != []
    ensures 0 < r <= |s|
  {
    var n := Fit(w, s, width, 1);
    if n == |s| then n
    else
      var p := LastOpportunity(w, s, n);
      if p > 0 then p else n
  }

  function NewlineAt(s: Line): (k: nat)
    ensures k <= |s| && (k < |s| ==> s[k].c == '\n')
    ensures forall j :: 0 <= j < k ==> s[j].c != '\n'
  {
    if s == [] || s[0].c == '\n' then 0 else 1 + NewlineAt(s[1..])
  }

  function Lines(w: CharWidth, s: Line, width: nat): seq<Line>
    decreases |s|
  {
    if s == [] then []
    else
      var k := NewlineAt(s);
      if k == 0 then [[]] + Lines(w, s[1..], width)
      else
        var cut := Cut(w, s[..k], width);
        if cut < k then [s[..cut]] + Lines(w, s[cut..], width)
        else [s[..k]] + Lines(w, s[Min(k + 1, |s|)..], width)
  }

  // ------------------------------------------------------------- the wrapper

  function RecomputeFrom(w: CharWidth, cur: Line, n: nat): Option<nat>
    requires n <= |cur|
  {
    if n == 0 then None
    else
      var i := n - 1;
      if cur[i].c == ' ' || (n < |cur| && (w(cur[i].c) == 2 || w(cur[n].c) == 2)) then Some(i)
      else RecomputeFrom(w, cur, i)
  }

  /** The last break opportunity inside a line, as the index of the atom before it. */
  method RecomputeBreak(w: CharWidth, cur: Line) returns (bp: Option<nat>)
    ensures bp == RecomputeFrom(w, cur, |cur|)
  {
    bp := None;
    for i := 0 to |cur|
      invariant bp == RecomputeFrom(w, cur, i)
    {
      if cur[i].c == ' ' {
        bp := Some(i);
      } else if i + 1 < |cur| {
        var next := cur[i + 1].c;
        if w(cur[i].c) == 2 || w(next) == 2 { bp := Some(i); }
      }
    }
  }

  /** The break opportunity tracked while a line grows is the recomputed one. */
  lemma {:induction false} RecomputeGrows(w: CharWidth, cur: Line, a: Atom)
    ensures RecomputeFrom(w, cur + [a], |cur| + 1) ==
            if a.c == ' ' then Some(|cur|)
            else if cur != [] && (w(cur[|cur| - 1].c) == 2 || w(a.c) == 2) then Some(|cur| - 1)
            else RecomputeFrom(w, cur, |cur|)
  {
    if cur != [] {
      var n := |cur| - 1;
      RecomputePrefix(w, cur, a, n);
    }
  }

  lemma {:induction false} RecomputePrefix(w: CharWidth, cur: Line, a: Atom, n: nat)
    requires n < |cur|
    ensures RecomputeFrom(w, cur + [a], n) == RecomputeFrom(w, cur, n)
  {
    if n > 0 { RecomputePrefix(w, cur, a, n - 1); }
  }

  /** At an overflow before `a`, the tracked break and the boundary test find the
      last opportunity of the fitting prefix. */
  lemma {:induction false} BreakIsLast(w: CharWidth, s: Line, n: nat)
    requires 0 < n < |s|
    ensures LastOpportunity(w, s, n) ==
            if w(s[n - 1].c) == 2 || w(s[n].c) == 2 then n
            else match RecomputeFrom(w, s[..n], n) case None => 0 case Some(i) => i + 1
  {
    if !(w(s[n - 1].c) == 2 || w(s[n].c) == 2) && s[n - 1].c != ' ' {
      LastBelow(w, s, n, n - 1);
    }
  }

  lemma {:induction false} LastBelow(w: CharWidth, s: Line, n: nat, m: nat)
    requires m < n <= |s|
    ensures LastOpportunity(w, s, m) == match RecomputeFrom(w, s[..n], m) case None => 0 case Some(i) => i + 1
  {
    if m > 0 && !Opportunity(w, s, m) { LastBelow(w, s, n, m - 1); }
  }

  /** The wrapper's state between characters. */
  ghost predicate Tracking(w: CharWidth, cur: Line, curw: nat, breakAt: Option<nat>, width: nat) {
    && curw == Width(w, cur)
    && breakAt == RecomputeFrom(w, cur, |cur|)
    && (|cur| <= 1 || curw <= width)
    && (forall k :: 0 <= k < |cur| ==> cur[k].c != '\n')
  }

  lemma {:induction false} FitIs(w: CharWidth, s: Line, width: nat, n: nat, r: nat)
    requires 0 < n <= r <= |s| && (r == n || Width(w, s[..r]) <= width)
    requires r == |s| || Width(w, s[..r + 1]) > width
    ensures Fit(w, s, width, n) == r
    decreases r - n
  {
    if n < r {
      WidthConcat(w, s[..n + 1], s[n + 1..r]);
      assert s[..n + 1] + s[n + 1..r] == s[..r];
      FitIs(w, s, width, n + 1, r);
    }
  }

  lemma {:induction false} NewlineAfter(cur: Line, rest: Line)
    requires forall k :: 0 <= k < |cur| ==> cur[k].c != '\n'
    ensures NewlineAt(cur + rest) == |cur| + NewlineAt(rest)
  {
    if cur == [] {
      assert cur + rest == rest;
    } else {
      NewlineAfter(cur[1..], rest);
      assert (cur + rest)[1..] == cur[1..] + rest;
    }
  }

  /** A newline closes the current line, empty or not. */
  lemma {:induction false} LinesAtNewline(w: CharWidth, cur: Line, curw: nat, breakAt: Option<nat>, ahead: Line, width: nat)
    requires Tracking(w, cur, curw, breakAt, width) && ahead != [] && ahead[0].c == '\n'
    ensures Lines(w, cur + ahead, width) == [cur] + Lines(w, ahead[1..], width)
  {
    var s := cur + ahead;
    NewlineAfter(cur, ahead);
    assert s[..|cur|] == cur && s[|cur| + 1..] == ahead[1..];
    if cur != [] {
      assert cur[..|cur|] == cur;
      FitIs(w, cur, width, 1, |cur|);
    }
  }

  /** The end of the text closes a line that holds something. */
  lemma {:induction false} LinesAtEnd(w: CharWidth, cur: Line, curw: nat, breakAt: Option<nat>, width: nat)
    requires Tracking(w, cur, curw, breakAt, width)
    ensures Lines(w, cur, width) == if cur == [] then [] else [cur]
  {
    if cur != [] {
      assert cur + [] == cur && cur[..|cur|] == cur;
      NewlineAfter(cur, []);
      FitIs(w, cur, width, 1, |cur|);
    }
  }

  /** Where the wrapper breaks when `a` does not fit any more. */
  function BreakBefore(w: CharWidth, cur: Line, breakAt: Option<nat>, a: Atom): (cut: nat)
    requires cur != [] && (breakAt.Some? ==> breakAt.value < |cur|)
    ensures 0 < cut <= |cur|
  {
    if w(cur[|cur| - 1].c) == 2 || w(a.c) == 2 then |cur|
    else match breakAt case None => |cur| case Some(i) => i + 1
  }

  lemma {:induction false} RecomputeBound(w: CharWidth, cur: Line, n: nat)
    requires n <= |cur|
    ensures RecomputeFrom(w, cur, n).Some? ==> RecomputeFrom(w, cur, n).value < n
  {
    if n > 0 { RecomputeBound(w, cur, n - 1); }
  }

  lemma {:induction false} FirstLineIs(w: CharWidth, s: Line, width: nat, cut: nat)
    requires 0 < NewlineAt(s) && cut == Cut(w, s[..NewlineAt(s)], width) < NewlineAt(s)
    ensures Lines(w, s, width) == [s[..cut]] + Lines(w, s[cut..], width)
  {
  }

  lemma {:induction false} LinesSplit(w: CharWidth, cur: Line, ahead: Line, width: nat, cut: nat)
    requires cut <= |cur| && 0 < NewlineAt(cur + ahead)
    requires cut == Cut(w, (cur + ahead)[..NewlineAt(cur + ahead)], width) < NewlineAt(cur + ahead)
    ensures Lines(w, cur + ahead, width) == [cur[..cut]] + Lines(w, cur[cut..] + ahead, width)
  {
    FirstLineIs(w, cur + ahead, width, cut);
    SplitSum(cur, ahead, cut);
  }

  lemma {:induction false} SplitSum(cur: Line, ahead: Line, cut: nat)
    requires cut <= |cur|
    ensures (cur + ahead)[..cut] == cur[..cut] && (cur + ahead)[cut..] == cur[cut..] + ahead
  {
  }

  /** Before an overflowing character the line is cut at its last opportunity. */
  lemma {:induction false} CutAtOverflow(w: CharWidth, par: Line, width: nat, n: nat)
    requires 0 < n < |par| && (n == 1 || Width(w, par[..n]) <= width) && Width(w, par[..n]) + w(par[n].c) > width
    ensures Cut(w, par, width) ==
            if w(par[n - 1].c) == 2 || w(par[n].c) == 2 then n
            else match RecomputeFrom(w, par[..n], n) case None => n case Some(i) => i + 1
  {
    assert par[..n + 1][..n] == par[..n];
    FitIs(w, par, width, 1, n);
    BreakIsLast(w, par, n);
  }

  lemma {:induction false} OverflowCut(w: CharWidth, cur: Line, curw: nat, breakAt: Option<nat>, ahead: Line, width: nat)
    requires Tracking(w, cur, curw, breakAt, width) && cur != []
    requires ahead != [] && ahead[0].c != '\n' && curw + w(ahead[0].c) > width
    ensures breakAt.Some? ==> breakAt.value < |cur|
    ensures var s, cut := cur + ahead, BreakBefore(w, cur, breakAt, ahead[0]);
            |cur| < NewlineAt(s) && cut == Cut(w, s[..NewlineAt(s)], width)
  {
    RecomputeBound(w, cur, |cur|);
    NewlineAfter(cur, ahead);
    var s := cur + ahead;
    var par := s[..NewlineAt(s)];
    assert par[..|cur|] == cur && par[|cur|] == ahead[0];
    CutAtOverflow(w, par, width, |cur|);
  }

  /** On overflow the wrapper breaks where the first line of the text ends. */
  lemma {:induction false} LinesAtOverflow(w: CharWidth, cur: Line, curw: nat, breakAt: Option<nat>, ahead: Line, width: nat)
    requires Tracking(w, cur, curw, breakAt, width) && cur != []
    requires ahead != [] && ahead[0].c != '\n' && curw + w(ahead[0].c) > width
    ensures breakAt.Some? ==> breakAt.value < |cur|
    ensures var cut := BreakBefore(w, cur, breakAt, ahead[0]);
            Lines(w, cur + ahead, width) == [cur[..cut]] + Lines(w, cur[cut..] + ahead, width)
  {
    OverflowCut(w, cur, curw, breakAt, ahead, width);
    LinesSplit(w, cur, ahead, width, BreakBefore(w, cur, breakAt, ahead[0]));
  }

  /** What is left of the line after a break has room for the character that overflowed. */
  lemma {:induction false} LeftoverFits(w: CharWidth, cur: Line, curw: nat, breakAt: Option<nat>, a: Atom, width: nat)
    requires Tracking(w, cur, curw, breakAt, width) && cur != [] && a.c != '\n' && curw + w(a.c) > width
    requires breakAt.Some? ==> breakAt.value < |cur|
    ensures var left := cur[BreakBefore(w, cur, breakAt, a)..];
            left == [] || Width(w, left) + w(a.c) <= width
  {
    var cut, s := BreakBefore(w, cur, breakAt, a), cur + [a];
    var n := |cur|;
    if cut < n {
      assert s[..n] == cur;
      BreakIsLast(w, s, n);
      assert Opportunity(w, s, cut) && !Opportunity(w, s, cut + 1) && !Opportunity(w, s, n);
      var kept := cur[..cut];
      assert Width(w, kept) >= w(kept[cut - 1].c) >= 1;
      WidthConcat(w, kept, cur[cut..]);
      assert kept + cur[cut..] == cur;
    }
  }

  lemma {:induction false} LeftoverTracks(w: CharWidth, cur: Line, curw: nat, breakAt: Option<nat>, a: Atom, width: nat)
    requires Tracking(w, cur, curw, breakAt, width) && cur != [] && a.c != '\n' && curw + w(a.c) > width
    requires breakAt.Some? ==> breakAt.value < |cur|
    ensures var left := cur[BreakBefore(w, cur, breakAt, a)..];
            && Tracking(w, left, Width(w, left), RecomputeFrom(w, left, |left|), width)
            && (left == [] || Width(w, left) + w(a.c) <= width)
  {
    LeftoverFits(w, cur, curw, breakAt, a, width);
  }

  /** Make room for `a`, which does not fit: emit a line, keep what is left of it. */
  method BreakLine(w: CharWidth, cur: Line, curw: nat, breakAt: Option<nat>, a: Atom, ghost ahead: Line, width: nat)
    returns (line: Line, cur': Line, curw': nat, breakAt': Option<nat>)
    requires Tracking(w, cur, curw, breakAt, width) && cur != []
    requires ahead != [] && ahead[0] == a && a.c != '\n' && curw + w(a.c) > width
    ensures Tracking(w, cur', curw', breakAt', width) && (cur' == [] || curw' + w(a.c) <= width)
    ensures Lines(w, cur + ahead, width) == [line] + Lines(w, cur' + ahead, width)
  {
    LinesAtOverflow(w, cur, curw, breakAt, ahead, width);
    LeftoverTracks(w, cur, curw, breakAt, a, width);
    line, cur', curw', breakAt' := CutLine(w, cur, breakAt, a);
  }

  /** The line up to the break, and what is left with its width and break measured anew. */
  method CutLine(w: CharWidth, cur: Line, breakAt: Option<nat>, a: Atom)
    returns (line: Line, cur': Line, curw': nat, breakAt': Option<nat>)
    requires cur != [] && (breakAt.Some? ==> breakAt.value < |cur|)
    ensures var cut := BreakBefore(w, cur, breakAt, a); line == cur[..cut] && cur' == cur[cut..]
    ensures curw' == Width(w, cur') && breakAt' == RecomputeFrom(w, cur', |cur'|)
  {
    var atBoundary := w(cur[|cur| - 1].c) == 2 || w(a.c) == 2;
    var bp := if atBoundary then Some(|cur| - 1) else breakAt;
    if bp.Some? {
      line, cur' := cur[..bp.value + 1], cur[bp.value + 1..];
      curw' := LineWidth(w, cur');
      breakAt' := RecomputeBreak(w, cur');
    } else {
      line, cur', curw', breakAt' := cur, [], 0, None;
    }
  }

  /** A character other than a newline: break first if it does not fit. */
  method PlaceInk(w: CharWidth, raw: seq<Line>, cur: Line, curw: nat, breakAt: Option<nat>, a: Atom, ghost ahead: Line, width: nat)
    returns (raw': seq<Line>, cur': Line, curw': nat, breakAt': Option<nat>)
    requires Tracking(w, cur, curw, breakAt, width) && ahead != [] && ahead[0] == a && a.c != '\n'
    ensures Tracking(w, cur', curw', breakAt', width)
    ensures raw' + Lines(w, cur' + ahead[1..], width) == raw + Lines(w, cur + ahead, width)
  {
    raw', cur', curw', breakAt' := raw, cur, curw, breakAt;
    if cur != [] && curw + w(a.c) > width {
      var line: Line;
      line, cur', curw', breakAt' := BreakLine(w, cur, curw, breakAt, a, ahead, width);
      raw' := raw + [line];
    }
    TakeFirst(cur', ahead);
    cur', curw', breakAt' := Push(w, cur', curw', breakAt', a, width);
  }

  /** One character of the text, the first of what lies ahead. */
  method Place(w: CharWidth, raw: seq<Line>, cur: Line, curw: nat, breakAt: Option<nat>, a: Atom, ghost ahead: Line, width: nat)
    returns (raw': seq<Line>, cur': Line, curw': nat, breakAt': Option<nat>)
    requires Tracking(w, cur, curw, breakAt, width) && ahead != [] && ahead[0] == a
    ensures Tracking(w, cur', curw', breakAt', width)
    ensures raw' + Lines(w, cur' + ahead[1..], width) == raw + Lines(w, cur + ahead, width)
  {
    if a.c != '\n' {
      raw', cur', curw', breakAt' := PlaceInk(w, raw, cur, curw, breakAt, a, ahead, width);
      return;
    }
    NewlineEnds(w, raw, cur, curw, breakAt, ahead, width);
    raw', cur', curw', breakAt' := raw + [cur], [], 0, None;
  }

  lemma {:induction false} NewlineEnds(w: CharWidth, raw: seq<Line>, cur: Line, curw: nat, breakAt: Option<nat>, ahead: Line,
                                       width: nat)
    requires Tracking(w, cur, curw, breakAt, width) && ahead != [] && ahead[0].c == '\n'
    ensures (raw + [cur]) + Lines(w, [] + ahead[1..], width) == raw + Lines(w, cur + ahead, width)
  {
    LinesAtNewline(w, cur, curw, breakAt, ahead, width);
    assert [] + ahead[1..] == ahead[1..];
  }

  lemma {:induction false} TakeFirst(cur: Line, ahead: Line)
    requires ahead != []
    ensures cur + ahead == cur + [ahead[0]] + ahead[1..]
  {
  }

  /** Append a character that fits, keeping the tracked break up to date. */
  method Push(w: CharWidth, cur: Line, curw: nat, breakAt: Option<nat>, a: Atom, width: nat)
    returns (cur': Line, curw': nat, breakAt': Option<nat>)
    requires Tracking(w, cur, curw, breakAt, width) && a.c != '\n' && (cur == [] || curw + w(a.c) <= width)
    ensures Tracking(w, cur', curw', breakAt', width) && cur' == cur + [a]
  {
    Grow(w, cur, a);
    breakAt' := breakAt;
    if a.c == ' ' {
      breakAt' := Some(|cur|);
    } else if cur != [] && (w(cur[|cur| - 1].c) == 2 || w(a.c) == 2) {
      breakAt' := Some(|cur| - 1);
    }
    cur', curw' := cur + [a], curw + w(a.c);
  }

  lemma {:induction false} Grow(w: CharWidth, cur: Line, a: Atom)
    ensures Width(w, cur + [a]) == Width(w, cur) + w(a.c)
    ensures RecomputeFrom(w, cur + [a], |cur| + 1) ==
            if a.c == ' ' then Some(|cur|)
            else if cur != [] && (w(cur[|cur| - 1].c) == 2 || w(a.c) == 2) then Some(|cur| - 1)
            else RecomputeFrom(w, cur, |cur|)
  {
    assert (cur + [a])[..|cur|] == cur;
    RecomputeGrows(w, cur, a);
  }

  method LineWidth(w: CharWidth, cur: Line) returns (n: nat)
    ensures n == Width(w, cur)
  {
    n := 0;
    for i := 0 to |cur|
      invariant n == Width(w, cur[..i])
    {
      assert cur[..i + 1][..i] == cur[..i];
      n := n + w(cur[i].c);
    }
    assert cur[..|cur|] == cur;
  }

  /** Merge neighbours of one style and link back into segments. */
  function PushAtom(line: seq<Seg>, a: Atom): seq<Seg> {
    if line != [] && line[|line| - 1].style == a.style && line[|line| - 1].link == a.link
    then line[|line| - 1 := line[|line| - 1].(text := line[|line| - 1].text + [a.c])]
    else line + [Seg(a.style, [a.c], a.link)]
  }

  /** The segments of a line: maximal runs of one style and link. */
  function MergeOf(line: Line): seq<Seg> {
    if line == [] then [] else PushAtom(MergeOf(line[..|line| - 1]), line[|line| - 1])
  }

  /** No segment is empty, and neighbours differ in style or link. */
  predicate Merged(line: seq<Seg>) {
    && (forall k :: 0 <= k < |line| ==> line[k].text != "")
    && (forall k :: 0 < k < |line| ==> line[k - 1].style != line[k].style || line[k - 1].link != line[k].link)
  }

  lemma {:induction false} AtomsConcat(a: seq<Seg>, b: seq<Seg>)
    ensures Atoms(a + b) == Atoms(a) + Atoms(b)
  {
    if a == [] {
      assert a + b == b;
    } else {
      AtomsConcat(a[1..], b);
      TailOfSum(a, b);
      Regroup(SegAtoms(a[0]), Atoms(a[1..]), Atoms(b));
    }
  }

  lemma {:induction false} PushAtomKeeps(line: seq<Seg>, a: Atom)
    requires Merged(line)
    ensures Merged(PushAtom(line, a)) && Atoms(PushAtom(line, a)) == Atoms(line) + [a]
  {
    if line != [] && line[|line| - 1].style == a.style && line[|line| - 1].link == a.link {
      var n := |line| - 1;
      LastSegGrows(line[..n], line[n], a);
      assert line == line[..n] + [line[n]];
      assert PushAtom(line, a) == line[..n] + [line[n].(text := line[n].text + [a.c])];
    } else {
      NewSeg(line, a);
    }
  }

  lemma {:induction false} NewSeg(line: seq<Seg>, a: Atom)
    ensures Atoms(line + [Seg(a.style, [a.c], a.link)]) == Atoms(line) + [a]
  {
    AtomsConcat(line, [Seg(a.style, [a.c], a.link)]);
    assert Atoms([Seg(a.style, [a.c], a.link)]) == [a];
  }

  lemma {:induction false} LastSegGrows(rest: seq<Seg>, last: Seg, a: Atom)
    requires last.style == a.style && last.link == a.link
    ensures Atoms(rest + [last.(text := last.text + [a.c])]) == Atoms(rest + [last]) + [a]
  {
    var grown := last.(text := last.text + [a.c]);
    AtomsConcat(rest, [last]);
    AtomsConcat(rest, [grown]);
    assert Atoms([last]) == SegAtoms(last) && Atoms([grown]) == SegAtoms(grown);
    assert SegAtoms(grown) == SegAtoms(last) + [a];
  }

  method MergeLine(line: Line) returns (segs: seq<Seg>)
    ensures Merged(segs) && Atoms(segs) == line && segs == MergeOf(line)
  {
    segs := [];
    for i := 0 to |line|
      invariant Merged(segs) && Atoms(segs) == line[..i] && segs == MergeOf(line[..i])
    {
      PushAtomKeeps(segs, line[i]);
      assert line[..i + 1] == line[..i] + [line[i]] && line[..i + 1][..i] == line[..i];
      segs := PushAtom(segs, line[i]);
    }
    assert line[..|line|] == line;
  }

  method MergeLines(raw: seq<Line>) returns (out: seq<seq<Seg>>)
    ensures |out| == |raw| && forall k :: 0 <= k < |out| ==> Merged(out[k]) && Atoms(out[k]) == raw[k] && out[k] == MergeOf(raw[k])
  {
    out := [];
    for i := 0 to |raw|
      invariant |out| == i && forall k :: 0 <= k < i ==> Merged(out[k]) && Atoms(out[k]) == raw[k] && out[k] == MergeOf(raw[k])
    {
      var line := MergeLine(raw[i]);
      out := out + [line];
    }
  }

  method PlaceSeg(w: CharWidth, raw: seq<Line>, cur: Line, curw: nat, breakAt: Option<nat>, seg: Seg, ghost ahead: Line, width: nat)
    returns (raw': seq<Line>, cur': Line, curw': nat, breakAt': Option<nat>)
    requires Tracking(w, cur, curw, breakAt, width) && SegAtoms(seg) <= ahead
    ensures Tracking(w, cur', curw', breakAt', width)
    ensures raw' + Lines(w, cur' + ahead[|seg.text|..], width) == raw + Lines(w, cur + ahead, width)
  {
    raw', cur', curw', breakAt' := raw, cur, curw, breakAt;
    assert ahead[0..] == ahead;
    for j := 0 to |seg.text|
      invariant Tracking(w, cur', curw', breakAt', width)
      invariant raw' + Lines(w, cur' + ahead[j..], width) == raw + Lines(w, cur + ahead, width)
    {
      var a := Atom(seg.style, seg.link, seg.text[j]);
      assert ahead[j] == SegAtoms(seg)[j] == a;
      assert ahead[j..][1..] == ahead[j + 1..];
      raw', cur', curw', breakAt' := Place(w, raw', cur', curw', breakAt', a, ahead[j..], width);
    }
  }

  /** Wrapping yields exactly the lines of the text, each in merged segments. */
  method WrapSegments(w: CharWidth, segs: seq<Seg>, width: nat) returns (out: seq<seq<Seg>>)
    ensures var ls := Lines(w, Atoms(segs), width);
            |out| == |ls| && forall k :: 0 <= k < |out| ==> Merged(out[k]) && Atoms(out[k]) == ls[k] && out[k] == MergeOf(ls[k])
  {
    var raw: seq<Line> := [];
    var cur: Line := [];
    var curw: nat := 0;
    var breakAt: Option<nat> := None;
    ghost var all := Lines(w, Atoms(segs), width);
    assert [] + Atoms(segs) == Atoms(segs) && segs[0..] == segs;
    for i := 0 to |segs|
      invariant Tracking(w, cur, curw, breakAt, width)
      invariant raw + Lines(w, cur + Atoms(segs[i..]), width) == all
    {
      ghost var ahead := Atoms(segs[i..]);
      assert segs[i..][0] == segs[i] && segs[i..][1..] == segs[i + 1..];
      assert ahead[|segs[i].text|..] == Atoms(segs[i + 1..]);
      raw, cur, curw, breakAt := PlaceSeg(w, raw, cur, curw, breakAt, segs[i], ahead, width);
    }
    assert cur + Atoms(segs[|segs|..]) == cur;
    LinesAtEnd(w, cur, curw, breakAt, width);
    if cur != [] { raw := raw + [cur]; }
    out := MergeLines(raw);
  }
}
