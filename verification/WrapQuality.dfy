/** What wrapping promises: nothing lost, every line fits, and no layout that
    breaks only at opportunities does better. */
module WrapQuality {
  import opened Common
  import opened Wrap

  function Flatten(ls: seq<Line>): Line {
    if ls == [] then [] else ls[0] + Flatten(ls[1..])
  }

  function WithoutNewlines(s: Line): Line {
    if s == [] then []
    else if s[0].c == '\n' then WithoutNewlines(s[1..])
    else [s[0]] + WithoutNewlines(s[1..])
  }

  ghost predicate NewlineFree(s: Line) {
    forall k :: 0 <= k < |s| ==> s[k].c != '\n'
  }

  lemma {:induction false} WithoutNewlinesSplit(s: Line, n: nat)
    requires n <= |s| && NewlineFree(s[..n])
    ensures WithoutNewlines(s) == s[..n] + WithoutNewlines(s[n..])
  {
    if n > 0 {
      assert s[..n][0] == s[0];
      assert s[1..][..n - 1] == s[..n][1..] && s[1..][n - 1..] == s[n..];
      WithoutNewlinesSplit(s[1..], n - 1);
      assert s[..n] == [s[0]] + s[1..][..n - 1];
    }
  }

  /** Every character but the newlines comes out once, in order, with its style and link. */
  lemma {:induction false} LinesKeepText(w: CharWidth, s: Line, width: nat)
    ensures Flatten(Lines(w, s, width)) == WithoutNewlines(s)
    decreases |s|
  {
    if s != [] {
      var upto, next := FirstLineOf(w, s, width);
      LinesKeepText(w, s[next..], width);
      WithoutNewlinesSplit(s, upto);
      FlattenHead(s[..upto], Lines(w, s[next..], width));
    }
  }

  /** The first line ends at `upto`; the next starts there, or behind a newline there. */
  lemma {:induction false} FirstLineOf(w: CharWidth, s: Line, width: nat) returns (upto: nat, next: nat)
    requires s != []
    ensures upto <= next <= |s| && 0 < next && NewlineFree(s[..upto])
    ensures Lines(w, s, width) == [s[..upto]] + Lines(w, s[next..], width)
    ensures WithoutNewlines(s[upto..]) == WithoutNewlines(s[next..])
  {
    var k := NewlineAt(s);
    var cut := if k == 0 then 0 else Cut(w, s[..k], width);
    upto := if cut < k then cut else k;
    next := if cut < k then cut else Min(k + 1, |s|);
    assert upto < next ==> s[upto..][1..] == s[next..];
  }

  lemma {:induction false} FlattenHead(first: Line, rest: seq<Line>)
    ensures Flatten([first] + rest) == first + Flatten(rest)
  {
    assert ([first] + rest)[1..] == rest;
  }

  lemma {:induction false} FitFits(w: CharWidth, s: Line, width: nat, n: nat)
    requires 0 < n <= |s| && Width(w, s[..n]) <= width
    ensures Width(w, s[..Fit(w, s, width, n)]) <= width
    decreases |s| - n
  {
    if n < |s| && Width(w, s[..n + 1]) <= width { FitFits(w, s, width, n + 1); }
  }

  lemma {:induction false} WidthPrefix(w: CharWidth, s: Line, m: nat, n: nat)
    requires m <= n <= |s|
    ensures Width(w, s[..m]) <= Width(w, s[..n])
  {
    WidthConcat(w, s[..m], s[m..n]);
    assert s[..m] + s[m..n] == s[..n];
  }

  lemma {:induction false} WidthFirst(w: CharWidth, s: Line)
    requires s != []
    ensures Width(w, s[..1]) == w(s[0].c)
  {
    assert s[..1][..0] == [];
  }

  /** From two columns up, every line fits. */
  lemma {:induction false} LinesFit(w: CharWidth, s: Line, width: nat)
    requires 2 <= width
    ensures forall k :: 0 <= k < |Lines(w, s, width)| ==> Width(w, Lines(w, s, width)[k]) <= width
    decreases |s|
  {
    if s != [] {
      var k := NewlineAt(s);
      if k == 0 {
        LinesFit(w, s[1..], width);
      } else {
        var par := s[..k];
        var cut := Cut(w, par, width);
        CutFits(w, par, width);
        assert s[..cut] == par[..cut] && (cut == k ==> s[..k] == par[..cut]);
        LinesFit(w, s[if cut < k then cut else Min(k + 1, |s|)..], width);
      }
    }
  }

  lemma {:induction false} CutFits(w: CharWidth, s: Line, width: nat)
    requires s != [] && 2 <= width
    ensures Width(w, s[..Cut(w, s, width)]) <= width
  {
    WidthFirst(w, s);
    FitFits(w, s, width, 1);
    WidthPrefix(w, s, Cut(w, s, width), Fit(w, s, width, 1));
  }

  lemma {:induction false} FitIsMaximal(w: CharWidth, s: Line, width: nat, n: nat, p: nat)
    requires 0 < n <= |s| && Fit(w, s, width, n) < p <= |s|
    ensures Width(w, s[..p]) > width
    decreases |s| - n
  {
    if n < |s| && Width(w, s[..n + 1]) <= width {
      FitIsMaximal(w, s, width, n + 1, p);
    } else {
      WidthPrefix(w, s, n + 1, p);
    }
  }

  /** A line that does not take all the rest of its paragraph is the longest
      fitting prefix that ends at an opportunity; it is cut elsewhere only if no
      fitting prefix does, and then it is the longest fitting prefix. */
  lemma {:induction false} CutIsLongest(w: CharWidth, s: Line, width: nat)
    requires s != [] && Cut(w, s, width) < |s|
    ensures var cut := Cut(w, s, width);
            && Width(w, s) > width
            && (forall p :: cut < p <= |s| && Opportunity(w, s, p) ==> Width(w, s[..p]) > width)
            && (!Opportunity(w, s, cut) ==>
                  && (forall p :: Opportunity(w, s, p) ==> p > cut && Width(w, s[..p]) > width)
                  && (forall p :: cut < p <= |s| ==> Width(w, s[..p]) > width))
  {
    var n := Fit(w, s, width, 1);
    forall p | n < p <= |s| ensures Width(w, s[..p]) > width { FitIsMaximal(w, s, width, 1, p); }
    assert s[..|s|] == s;
  }

  /** Line ends `ends` lay out `s` from `from`: every line fits, and every end
      but the last is an opportunity. */
  predicate LaysOut(w: CharWidth, s: Line, width: nat, from: nat, ends: seq<nat>)
    decreases |ends|
  {
    if ends == [] then from == |s|
    else
      && from < ends[0] <= |s| && Width(w, s[from..ends[0]]) <= width
      && (ends[0] < |s| ==> Opportunity(w, s, ends[0]))
      && LaysOut(w, s, width, ends[0], ends[1..])
  }

  /** Greedy lines of `s` end only at opportunities. */
  predicate NoHardCut(w: CharWidth, s: Line, width: nat)
    decreases |s|
  {
    s == [] ||
    var cut := Cut(w, s, width);
    cut == |s| || (Opportunity(w, s, cut) && NoHardCut(w, s[cut..], width))
  }

  /** One line of the rest `s[g..]` reaches at least as far as any line that
      starts no later. */
  lemma {:induction false} GreedyReaches(w: CharWidth, s: Line, width: nat, a: nat, g: nat, end: nat)
    requires a <= g < end <= |s| && Width(w, s[a..end]) <= width && (end < |s| ==> Opportunity(w, s, end))
    ensures var cut := Cut(w, s[g..], width);
            end <= g + cut && (cut == |s| - g || Opportunity(w, s[g..], cut))
  {
    var rest := s[g..];
    assert s[a..end] == s[a..g] + s[g..end] && rest[..end - g] == s[g..end];
    WidthConcat(w, s[a..g], s[g..end]);
    assert end < |s| ==> Opportunity(w, rest, end - g);
    CutReaches(w, rest, width, end - g);
  }

  lemma {:induction false} CutReaches(w: CharWidth, rest: Line, width: nat, p: nat)
    requires 0 < p <= |rest| && Width(w, rest[..p]) <= width && (p < |rest| ==> Opportunity(w, rest, p))
    ensures var cut := Cut(w, rest, width);
            p <= cut && (cut == |rest| || Opportunity(w, rest, cut))
  {
    if Fit(w, rest, width, 1) < p { FitIsMaximal(w, rest, width, 1, p); }
  }

  /** One greedy line, then the rest. */
  lemma {:induction false} OneLine(w: CharWidth, rest: Line, width: nat)
    requires NewlineFree(rest) && rest != []
    ensures |Lines(w, rest, width)| == 1 + |Lines(w, rest[Cut(w, rest, width)..], width)|
  {
    assert NewlineAt(rest) == |rest| && rest[..|rest|] == rest;
    if Cut(w, rest, width) == |rest| { assert rest[|rest|..] == []; }
  }

  /** Started no earlier than a fitting layout, greedy filling stays ahead of it. */
  lemma {:induction false} GreedyIsOptimal(w: CharWidth, s: Line, rest: Line, width: nat, a: nat, g: nat, ends: seq<nat>)
    requires NewlineFree(s) && a <= g <= |s| && rest == s[g..] && LaysOut(w, s, width, a, ends)
    ensures NoHardCut(w, rest, width) && |Lines(w, rest, width)| <= |ends|
    decreases |s| - g, |ends|
  {
    if g < |s| {
      if ends[0] <= g {
        GreedyIsOptimal(w, s, rest, width, ends[0], g, ends[1..]);
      } else {
        GreedyReaches(w, s, width, a, g, ends[0]);
        OneLine(w, rest, width);
        var cut := Cut(w, rest, width);
        GreedyIsOptimal(w, s, rest[cut..], width, ends[0], g + cut, ends[1..]);
      }
    }
  }

  /** Greedy wrapping is optimal: if any layout with breaks only at opportunities
      fits, the greedy one has no hard cut and no more lines. */
  lemma {:induction false} WrappingIsOptimal(w: CharWidth, par: Line, width: nat, ends: seq<nat>)
    requires NewlineFree(par) && LaysOut(w, par, width, 0, ends)
    ensures NoHardCut(w, par, width) && |Lines(w, par, width)| <= |ends|
  {
    GreedyIsOptimal(w, par, par, width, 0, 0, ends);
  }

  lemma {:induction false} LastLineOf(w: CharWidth, par: Line, ahead: Line, width: nat)
    requires NewlineFree(par) && par != [] && ahead != [] && ahead[0].c == '\n' && Cut(w, par, width) == |par|
    ensures Lines(w, par + ahead, width) == [par] + Lines(w, ahead[1..], width) && Lines(w, par, width) == [par]
  {
    var s := par + ahead;
    NewlineAfter(par, ahead);
    assert s[..|par|] == par && s[|par| + 1..] == ahead[1..];
    assert par[..|par|] == par && NewlineAt(par) == |par| && par[|par|..] == [];
  }

  /** A newline ends its paragraph: the parts are laid out on their own. */
  lemma {:induction false} ParagraphsApart(w: CharWidth, par: Line, ahead: Line, width: nat)
    requires NewlineFree(par) && ahead != [] && ahead[0].c == '\n'
    ensures Lines(w, par + ahead, width) ==
            (if par == [] then [[]] else Lines(w, par, width)) + Lines(w, ahead[1..], width)
    decreases |par|
  {
    if par == [] {
      assert par + ahead == ahead;
    } else {
      var cut := Cut(w, par, width);
      if cut == |par| {
        LastLineOf(w, par, ahead, width);
      } else {
        ParagraphsApart(w, par[cut..], ahead, width);
        SplitBoth(w, par, ahead, width);
        Prepended(par[..cut], Lines(w, par[cut..], width), Lines(w, ahead[1..], width));
      }
    }
  }

  lemma {:induction false} Prepended(first: Line, rest: seq<Line>, after: seq<Line>)
    ensures [first] + (rest + after) == [first] + rest + after
  {
  }

  lemma {:induction false} SplitBoth(w: CharWidth, par: Line, ahead: Line, width: nat)
    requires NewlineFree(par) && par != [] && ahead != [] && ahead[0].c == '\n' && Cut(w, par, width) < |par|
    ensures var cut := Cut(w, par, width);
            && Lines(w, par + ahead, width) == [par[..cut]] + Lines(w, par[cut..] + ahead, width)
            && Lines(w, par, width) == [par[..cut]] + Lines(w, par[cut..], width)
  {
    NewlineAfter(par, ahead);
    assert (par + ahead)[..|par|] == par && par[..|par|] == par && NewlineAt(par) == |par|;
    LinesSplit(w, par, ahead, width, Cut(w, par, width));
    FirstLineIs(w, par, width, Cut(w, par, width));
  }
}
