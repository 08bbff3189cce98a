/** Printing a line of styled segments, with SGR codes only where the style changes
    and OSC 8 links, and the two readers that must undo it: the article reader's parser and the
    renderer's own width measure. SGR is section 8.3.117 of ECMA-48. */
module Sgr {
  import opened Common
  import opened Text
  import opened Wrap

  const ESC: char := 0x1b as char
  const BEL: char := 0x07 as char
  const PLAIN := Style(false, false, false, false)

  // --------------------------------------------------------------- printing

  datatype Code = Reset | BoldOn | DimOn | ItalicOn | WeightOff | ItalicOff | CyanOn | CyanOff | Unknown

  function Param(code: Code): string {
    match code
    case Reset => "0"
    case BoldOn => "1"
    case DimOn => "2"
    case ItalicOn => "3"
    case WeightOff => "22"
    case ItalicOff => "23"
    case CyanOn => "36"
    case CyanOff => "39"
    case Unknown => "?"
  }

  function Csi(code: Code): string { [ESC, '['] + Param(code) + "m" }

  function OscOpen(url: string): string { [ESC, ']', '8', ';', ';'] + url + [ESC, '\\'] }

  function OscClose(): string { OscOpen("") }

  function When(b: bool, code: Code): seq<Code> { if b then [code] else [] }

  /** 22 ends bold and dim together, so whichever stays is sent again. */
  function WeightCodes(active: Style, next: Style): seq<Code> {
    if (active.bold && !next.bold) || (active.dim && !next.dim)
    then [WeightOff] + When(next.bold, BoldOn) + When(next.dim, DimOn)
    else When(next.bold && !active.bold, BoldOn) + When(next.dim && !active.dim, DimOn)
  }

  /** The SGR codes that lead from one style to the next, in printing order. */
  function Codes(active: Style, next: Style): seq<Code> {
    When(active.italic && !next.italic, ItalicOff) + When(active.cyan && !next.cyan, CyanOff) + WeightCodes(active, next)
    + When(next.italic && !active.italic, ItalicOn) + When(next.cyan && !active.cyan, CyanOn)
  }

  /** Nothing is printed between equal styles, and only then. */
  lemma {:induction false} CodesOnlyWhereChanged(active: Style, next: Style)
    ensures Codes(active, next) == [] <==> active == next
  {
    if active == next {
    } else if active.bold && !next.bold {
      assert WeightOff in Codes(active, next);
    } else if active.dim && !next.dim {
      assert WeightOff in Codes(active, next);
    } else if active.italic && !next.italic {
      assert ItalicOff in Codes(active, next);
    } else if active.cyan && !next.cyan {
      assert CyanOff in Codes(active, next);
    }
  }

  function Emit(codes: seq<Code>): string {
    if codes == [] then "" else Csi(codes[0]) + Emit(codes[1..])
  }

  /** What is printed for one segment. */
  function Piece(seg: Seg, active: Style, link: Option<string>): string {
    (if link != seg.link && link.Some? then OscClose() else "")
    + Emit(Codes(active, seg.style))
    + (if link != seg.link && seg.link.Some? then OscOpen(seg.link.value) else "")
    + seg.text
  }

  function Ending(active: Style, link: Option<string>): string {
    (if link.Some? then OscClose() else "") + (if active != PLAIN then Csi(Reset) else "")
  }

  function RenderFrom(segs: seq<Seg>, active: Style, link: Option<string>): string {
    if segs == [] then Ending(active, link)
    else Piece(segs[0], active, link) + RenderFrom(segs[1..], segs[0].style, segs[0].link)
  }

  lemma {:induction false} Joined(a: string, b: string, c: string)
    ensures a + (b + c) == a + b + c
  {
  }

  method RenderLine(segs: seq<Seg>) returns (out: string)
    ensures out == RenderFrom(segs, PLAIN, None)
  {
    out := "";
    var active, link := PLAIN, None;
    assert segs[0..] == segs;
    for i := 0 to |segs|
      invariant out + RenderFrom(segs[i..], active, link) == RenderFrom(segs, PLAIN, None)
    {
      var seg := segs[i];
      assert segs[i..][0] == seg && segs[i..][1..] == segs[i + 1..];
      var piece := PrintSeg(seg, active, link);
      Joined(out, piece, RenderFrom(segs[i + 1..], seg.style, seg.link));
      out, active, link := out + piece, seg.style, seg.link;
    }
    var tail := PrintEnd(active, link);
    out := out + tail;
  }

  method PrintEnd(active: Style, link: Option<string>) returns (tail: string)
    ensures tail == Ending(active, link)
  {
    tail := "";
    if link.Some? { tail := OscClose(); }
    if active != PLAIN { tail := tail + Csi(Reset); }
  }

  /** Closing and opening happen in the order that keeps sequences paired. */
  method PrintSeg(seg: Seg, active: Style, link: Option<string>) returns (out: string)
    ensures out == Piece(seg, active, link)
  {
    out := if link != seg.link && link.Some? then OscClose() else "";
    out := out + Emit(Codes(active, seg.style));
    out := out + if link != seg.link && seg.link.Some? then OscOpen(seg.link.value) else "";
    out := out + seg.text;
  }

  // ---------------------------------------------------------------- reading

  predicate Final(c: char) { 0x40 <= c as int <= 0x7e }

  /** End of the CSI sequence whose parameters start at `i`: behind its final byte. */
  function CsiEnd(s: string, i: nat): (end: nat)
    requires i <= |s|
    ensures i <= end <= |s|
    decreases |s| - i
  {
    if i == |s| then i else if Final(s[i]) then i + 1 else CsiEnd(s, i + 1)
  }

  /** End of an OSC sequence: behind BEL or ESC \. */
  function OscEnd(s: string, i: nat): (end: nat)
    requires i <= |s|
    ensures i <= end <= |s|
    decreases |s| - i
  {
    if i == |s| then i
    else if s[i] == BEL then i + 1
    else if s[i] == ESC && i + 1 < |s| && s[i + 1] == '\\' then i + 2
    else OscEnd(s, i + 1)
  }

  function ReadParam(param: string): Code {
    if param == "0" || param == "" then Reset
    else if param == "1" then BoldOn
    else if param == "22" then WeightOff
    else if param == "2" then DimOn
    else if param == "3" then ItalicOn
    else if param == "23" then ItalicOff
    else if param == "36" then CyanOn
    else if param == "39" then CyanOff
    else Unknown
  }

  function ApplyCode(code: Code, st: Style): Style {
    match code
    case Reset => PLAIN
    case BoldOn => st.(bold := true)
    case DimOn => st.(dim := true)
    case ItalicOn => st.(italic := true)
    case WeightOff => st.(bold := false, dim := false)
    case ItalicOff => st.(italic := false)
    case CyanOn => st.(cyan := true)
    case CyanOff => st.(cyan := false)
    case Unknown => st
  }

  function ApplyCodes(codes: seq<Code>, st: Style): Style {
    if codes == [] then st else ApplyCodes(codes[1..], ApplyCode(codes[0], st))
  }

  function ApplyParams(params: seq<string>, st: Style): Style {
    if params == [] then st else ApplyParams(params[1..], ApplyCode(ReadParam(params[0]), st))
  }

  /** One escape sequence `ESC [ ... final`; None where the slice would fail. */
  function ApplySgr(seq_: string, st: Style): Option<Style> {
    if |seq_| < 3 || CharLen(seq_[|seq_| - 1]) > 1 then None
    else
      var params := seq_[2..|seq_| - 1];
      Some(if params == "" then PLAIN else ApplyParams(Split(params, ';'), st))
  }

  /** The link an OSC body selects; only `8;;` bodies do. */
  function LinkOf(body: string, link: Option<string>): Option<string> {
    if |body| >= 3 && body[..3] == "8;;" then (if |body| == 3 then None else Some(body[3..])) else link
  }

  /** The body of an OSC sequence, without introducer and terminator. */
  function OscBody(osc: string): string
    requires |osc| >= 2
  {
    if osc[|osc| - 1] == BEL then osc[2..Max(2, |osc| - 1)]
    else if |osc| >= 4 && osc[|osc| - 2] == ESC && osc[|osc| - 1] == '\\' then osc[2..|osc| - 2]
    else osc[2..]
  }

  datatype Scanned = Scanned(atoms: Line, style: Style, link: Option<string>)

  /** What a line of text and escape sequences shows: each character with its
      style and link, and what is left switched on at its end. None: the reader
      stops on a malformed sequence. */
  function Scan(s: string, st: Style, link: Option<string>): Option<Scanned>
    decreases |s|
  {
    if s == "" then Some(Scanned([], st, link))
    else if s[0] == ESC && |s| > 1 && s[1] == '[' then
      var end := CsiEnd(s, 2);
      match ApplySgr(s[..end], st)
      case None => None
      case Some(next) => Scan(s[end..], next, link)
    else if s[0] == ESC && |s| > 1 && s[1] == ']' then
      var end := OscEnd(s, 2);
      Scan(s[end..], st, LinkOf(OscBody(s[..end]), link))
    else
      match Scan(s[1..], st, link)
      case None => None
      case Some(r) => Some(r.(atoms := [Atom(st, link, s[0])] + r.atoms))
  }

  // ------------------------------------------------------ printing, then reading

  predicate EscapeFree(s: string) { ESC !in s }

  predicate Clean(seg: Seg) {
    EscapeFree(seg.text) && (seg.link.Some? ==> EscapeFree(seg.link.value))
  }

  /** A link as it arrives: a BEL inside ends it early. */
  function Arrived(link: Option<string>): Option<string> {
    if link.None? then None
    else match Find(link.value, BEL)
         case None => if link.value == "" then None else link
         case Some(k) => if k == 0 then None else Some(link.value[..k])
  }

  /** What then spills into the text: the rest of the link and its terminator. */
  function Spill(url: string): string {
    match Find(url, BEL) case None => "" case Some(k) => url[k + 1..] + [ESC, '\\']
  }

  function TextAtoms(text: string, st: Style, link: Option<string>): Line { SegAtoms(Seg(st, text, link)) }

  /** Exactly what printing `segs` shows. */
  function Expected(segs: seq<Seg>, link: Option<string>): Line {
    if segs == [] then []
    else
      var seg := segs[0];
      var opens := link != seg.link && seg.link.Some?;
      TextAtoms((if opens then Spill(seg.link.value) else "") + seg.text, seg.style, Arrived(seg.link))
      + Expected(segs[1..], seg.link)
  }

  function Before(atoms: Line, r: Option<Scanned>): Option<Scanned> {
    match r case None => None case Some(v) => Some(v.(atoms := atoms + v.atoms))
  }

  lemma {:induction false} BeforeTwice(a: Line, b: Line, r: Option<Scanned>)
    ensures Before(a, Before(b, r)) == Before(a + b, r)
  {
    if r.Some? { assert a + (b + r.value.atoms) == a + b + r.value.atoms; }
  }

  lemma {:induction false} BeforeNothing(r: Option<Scanned>)
    ensures Before([], r) == r
  {
    if r.Some? { assert [] + r.value.atoms == r.value.atoms; }
  }

  /** Text that does not start an escape sequence shows as itself. */
  lemma {:induction false} TextShows(text: string, rest: string, st: Style, link: Option<string>)
    requires forall k :: 0 <= k < |text| && text[k] == ESC ==> k + 1 < |text| && text[k + 1] != '[' && text[k + 1] != ']'
    ensures Scan(text + rest, st, link) == Before(TextAtoms(text, st, link), Scan(rest, st, link))
  {
    var s := text + rest;
    if text == "" {
      assert s == rest;
      BeforeNothing(Scan(rest, st, link));
    } else {
      assert forall k :: 0 <= k < |text| - 1 ==> text[1..][k] == text[k + 1];
      TextShows(text[1..], rest, st, link);
      assert s[1..] == text[1..] + rest && s[0] == text[0];
      BeforeTwice([Atom(st, link, text[0])], TextAtoms(text[1..], st, link), Scan(rest, st, link));
      assert TextAtoms(text, st, link) == [Atom(st, link, text[0])] + TextAtoms(text[1..], st, link);
    }
  }

  lemma {:induction false} CsiEndAt(s: string, i: nat, end: nat)
    requires i < end <= |s| && Final(s[end - 1]) && forall k :: i <= k < end - 1 ==> !Final(s[k])
    ensures CsiEnd(s, i) == end
    decreases end - i
  {
    if i + 1 < end { CsiEndAt(s, i + 1, end); }
  }

  lemma {:induction false} ParamReads(code: Code)
    requires code != Unknown
    ensures ReadParam(Param(code)) == code
    ensures Param(code) != "" && forall k :: 0 <= k < |Param(code)| ==> Digit(Param(code)[k])
  {
    var p := Param(code);
    assert |p| == 1 || |p| == 2;
  }

  lemma {:induction false} CsiShows(code: Code, rest: string, st: Style, link: Option<string>)
    requires code != Unknown
    ensures Scan(Csi(code) + rest, st, link) == Scan(rest, ApplyCode(code, st), link)
  {
    var s, p := Csi(code) + rest, Param(code);
    ParamReads(code);
    var end := |p| + 3;
    assert s[0] == ESC && s[1] == '[' && s[2..end - 1] == p && s[end - 1] == 'm';
    forall k | 2 <= k < end - 1 ensures !Final(s[k]) { assert s[k] == p[k - 2]; }
    CsiEndAt(s, 2, end);
    assert s[..end][2..end - 1] == p && s[end..] == rest;
    assert Split(p, ';') == [p];
    assert ApplyParams([p], st) == ApplyCode(code, st);
  }

  lemma {:induction false} EmitShows(codes: seq<Code>, rest: string, st: Style, link: Option<string>)
    requires Unknown !in codes
    ensures Scan(Emit(codes) + rest, st, link) == Scan(rest, ApplyCodes(codes, st), link)
  {
    if codes == [] {
      assert "" + rest == rest;
    } else {
      CsiShows(codes[0], Emit(codes[1..]) + rest, st, link);
      Joined(Csi(codes[0]), Emit(codes[1..]), rest);
      EmitShows(codes[1..], rest, ApplyCode(codes[0], st), link);
    }
  }

  lemma {:induction false} ApplyConcat(a: seq<Code>, b: seq<Code>, st: Style)
    ensures ApplyCodes(a + b, st) == ApplyCodes(b, ApplyCodes(a, st))
  {
    if a == [] {
      assert a + b == b;
    } else {
      ApplyConcat(a[1..], b, ApplyCode(a[0], st));
      assert (a + b)[1..] == a[1..] + b;
    }
  }

  lemma {:induction false} ApplyWhen(c: bool, code: Code, st: Style)
    ensures ApplyCodes(When(c, code), st) == if c then ApplyCode(code, st) else st
  {
    if c { assert [code][1..] == []; }
  }

  lemma {:induction false} WeightLeads(active: Style, next: Style, st: Style)
    requires st.bold == active.bold && st.dim == active.dim
    ensures ApplyCodes(WeightCodes(active, next), st) == st.(bold := next.bold, dim := next.dim)
  {
    if (active.bold && !next.bold) || (active.dim && !next.dim) {
      var off := st.(bold := false, dim := false);
      ApplyConcat([WeightOff] + When(next.bold, BoldOn), When(next.dim, DimOn), st);
      ApplyConcat([WeightOff], When(next.bold, BoldOn), st);
      ApplyWhen(true, WeightOff, st);
      ApplyWhen(next.bold, BoldOn, off);
      ApplyWhen(next.dim, DimOn, off.(bold := next.bold));
    } else {
      ApplyConcat(When(next.bold && !active.bold, BoldOn), When(next.dim && !active.dim, DimOn), st);
      ApplyWhen(next.bold && !active.bold, BoldOn, st);
      ApplyWhen(next.dim && !active.dim, DimOn, st.(bold := next.bold));
    }
  }

  lemma {:induction false} ItalicLeads(active: Style, next: Style, st: Style)
    ensures ApplyCodes(When(active.italic && !next.italic, ItalicOff), active) == active.(italic := active.italic && next.italic)
    ensures st.italic == (active.italic && next.italic) ==>
              ApplyCodes(When(next.italic && !active.italic, ItalicOn), st) == st.(italic := next.italic)
  {
    ApplyWhen(active.italic && !next.italic, ItalicOff, active);
    ApplyWhen(next.italic && !active.italic, ItalicOn, st);
  }

  lemma {:induction false} CyanLeads(active: Style, next: Style, st: Style, st': Style)
    ensures st.cyan == active.cyan ==>
              ApplyCodes(When(active.cyan && !next.cyan, CyanOff), st) == st.(cyan := active.cyan && next.cyan)
    ensures st'.cyan == (active.cyan && next.cyan) ==>
              ApplyCodes(When(next.cyan && !active.cyan, CyanOn), st') == st'.(cyan := next.cyan)
  {
    ApplyWhen(active.cyan && !next.cyan, CyanOff, st);
    ApplyWhen(next.cyan && !active.cyan, CyanOn, st');
  }

  lemma {:induction false} FiveSteps(a: seq<Code>, b: seq<Code>, c: seq<Code>, d: seq<Code>, e: seq<Code>,
                                     s0: Style, s1: Style, s2: Style, s3: Style, s4: Style, s5: Style)
    requires ApplyCodes(a, s0) == s1 && ApplyCodes(b, s1) == s2 && ApplyCodes(c, s2) == s3
    requires ApplyCodes(d, s3) == s4 && ApplyCodes(e, s4) == s5
    ensures ApplyCodes(a + b + c + d + e, s0) == s5
  {
    ApplyConcat(a + b + c + d, e, s0);
    ApplyConcat(a + b + c, d, s0);
    ApplyConcat(a + b, c, s0);
    ApplyConcat(a, b, s0);
  }

  /** The printed codes lead from the active style to the next one. */
  lemma {:induction false} CodesLead(active: Style, next: Style)
    ensures ApplyCodes(Codes(active, next), active) == next
  {
    var s1 := active.(italic := active.italic && next.italic);
    var s2 := s1.(cyan := active.cyan && next.cyan);
    var s3 := s2.(bold := next.bold, dim := next.dim);
    var s4 := s3.(italic := next.italic);
    ItalicLeads(active, next, s3);
    CyanLeads(active, next, s1, s4);
    WeightLeads(active, next, s2);
    FiveSteps(When(active.italic && !next.italic, ItalicOff), When(active.cyan && !next.cyan, CyanOff),
              WeightCodes(active, next), When(next.italic && !active.italic, ItalicOn),
              When(next.cyan && !active.cyan, CyanOn), active, s1, s2, s3, s4, next);
  }

  lemma {:induction false} CodesKnown(active: Style, next: Style)
    ensures Unknown !in Codes(active, next)
  {
  }

  lemma {:induction false} OscEndAt(s: string, i: nat, end: nat)
    requires i <= end < |s| && forall k :: i <= k < end ==> s[k] != BEL && s[k] != ESC
    ensures s[end] == BEL ==> OscEnd(s, i) == end + 1
    ensures s[end] == ESC && end + 1 < |s| && s[end + 1] == '\\' ==> OscEnd(s, i) == end + 2
    decreases end - i
  {
    if i < end { OscEndAt(s, i + 1, end); }
  }

  /** An OSC 8 sequence without BEL switches the link and shows nothing. */
  lemma {:induction false} OscShowsClean(url: string, rest: string, st: Style, link: Option<string>)
    requires EscapeFree(url) && BEL !in url
    ensures Scan(OscOpen(url) + rest, st, link) == Scan(rest, st, if url == "" then None else Some(url))
  {
    var s, n := OscOpen(url) + rest, 5 + |url|;
    assert s[5..n] == url;
    forall k | 2 <= k < n ensures s[k] != BEL && s[k] != ESC {
      if k >= 5 { assert s[k] == url[k - 5]; }
    }
    OscEndAt(s, 2, n);
    var osc := s[..n + 2];
    assert osc[2..n] == "8;;" + url && s[n + 2..] == rest;
    assert OscBody(osc) == "8;;" + url;
    assert ("8;;" + url)[..3] == "8;;" && ("8;;" + url)[3..] == url;
  }

  /** A BEL ends the sequence early and the rest of the link becomes text. */
  lemma {:induction false} OscShowsCut(url: string, k: nat, rest: string, st: Style, link: Option<string>)
    requires EscapeFree(url) && k < |url| && url[k] == BEL && BEL !in url[..k]
    ensures var cut := if k == 0 then None else Some(url[..k]);
            Scan(OscOpen(url) + rest, st, link)
            == Before(TextAtoms(url[k + 1..] + [ESC, '\\'], st, cut), Scan(rest, st, cut))
  {
    var s, n := OscOpen(url) + rest, 5 + k;
    OscCutEnd(url, k, rest);
    assert s[5..5 + |url|] == url;
    var osc := s[..n + 1];
    assert osc[2..n] == "8;;" + url[..k];
    assert OscBody(osc) == "8;;" + url[..k];
    assert ("8;;" + url[..k])[..3] == "8;;" && ("8;;" + url[..k])[3..] == url[..k];
    var text := url[k + 1..] + [ESC, '\\'];
    assert s[n + 1..] == text + rest;
    OscSpills(url, k);
    TextShows(text, rest, st, if k == 0 then None else Some(url[..k]));
  }

  lemma {:induction false} OscCutEnd(url: string, k: nat, rest: string)
    requires EscapeFree(url) && k < |url| && url[k] == BEL && BEL !in url[..k]
    ensures OscEnd(OscOpen(url) + rest, 2) == 5 + k + 1
  {
    var s, n := OscOpen(url) + rest, 5 + k;
    assert s[5..5 + |url|] == url;
    assert s[n] == url[k];
    forall j | 2 <= j < n ensures s[j] != BEL && s[j] != ESC {
      if j >= 5 { assert s[j] == url[j - 5] == url[..k][j - 5]; }
    }
    OscEndAt(s, 2, n);
  }

  lemma {:induction false} OscSpills(url: string, k: nat)
    requires EscapeFree(url) && k < |url|
    ensures var text := url[k + 1..] + [ESC, '\\'];
            forall j :: 0 <= j < |text| ==> text[j] == ESC ==> j + 1 < |text| && text[j + 1] == '\\'
  {
    var text := url[k + 1..] + [ESC, '\\'];
    forall j | 0 <= j < |text| ensures text[j] == ESC ==> j + 1 < |text| && text[j + 1] == '\\' {
      assert text[j] == if j < |url| - k - 1 then url[k + 1 + j] else [ESC, '\\'][j - (|url| - k - 1)];
    }
  }

  lemma {:induction false} OscShows(url: string, rest: string, st: Style, link: Option<string>)
    requires EscapeFree(url)
    ensures var next := Arrived(Some(url));
            Scan(OscOpen(url) + rest, st, link) == Before(TextAtoms(Spill(url), st, next), Scan(rest, st, next))
  {
    match Find(url, BEL)
    case None => OscShowsWhole(url, rest, st, link);
    case Some(k) =>
      OscShowsCut(url, k, rest, st, link);
      assert Arrived(Some(url)) == if k == 0 then None else Some(url[..k]);
      assert Spill(url) == url[k + 1..] + [ESC, '\\'];
  }

  lemma {:induction false} OscShowsWhole(url: string, rest: string, st: Style, link: Option<string>)
    requires EscapeFree(url) && Find(url, BEL).None?
    ensures var next := Arrived(Some(url));
            Scan(OscOpen(url) + rest, st, link) == Before(TextAtoms(Spill(url), st, next), Scan(rest, st, next))
  {
    OscShowsClean(url, rest, st, link);
    assert TextAtoms("", st, Arrived(Some(url))) == [];
    BeforeNothing(Scan(rest, st, Arrived(Some(url))));
  }

  lemma {:induction false} CloseShows(rest: string, st: Style, link: Option<string>)
    ensures Scan(OscClose() + rest, st, link) == Scan(rest, st, None)
  {
    OscShowsClean("", rest, st, link);
  }

  lemma {:induction false} TextAtomsJoin(a: string, b: string, st: Style, link: Option<string>)
    ensures TextAtoms(a + b, st, link) == TextAtoms(a, st, link) + TextAtoms(b, st, link)
  {
  }

  /** Style changed and old link closed: what is printed before a segment's own link. */
  lemma {:induction false} PreambleShows(seg: Seg, rest: string, active: Style, link: Option<string>)
    ensures var close := if link != seg.link && link.Some? then OscClose() else "";
            Scan(close + Emit(Codes(active, seg.style)) + rest, active, Arrived(link))
            == Scan(rest, seg.style, if link != seg.link then None else Arrived(link))
  {
    var close := if link != seg.link && link.Some? then OscClose() else "";
    var codes := Emit(Codes(active, seg.style));
    Joined(close, codes, rest);
    if close == "" {
      assert close + (codes + rest) == codes + rest;
    } else {
      CloseShows(codes + rest, active, Arrived(link));
    }
    var now := if link != seg.link then None else Arrived(link);
    CodesKnown(active, seg.style);
    EmitShows(Codes(active, seg.style), rest, active, now);
    CodesLead(active, seg.style);
  }

  /** A link that opens, then its segment's text. */
  lemma {:induction false} OpenedTextShows(url: string, text: string, rest: string, st: Style, l: Option<string>)
    requires Clean(Seg(st, text, Some(url))) && l == Arrived(Some(url))
    ensures Scan(OscOpen(url) + (text + rest), st, None) == Before(TextAtoms(Spill(url) + text, st, l), Scan(rest, st, l))
  {
    TextShows(text, rest, st, l);
    OscShows(url, text + rest, st, None);
    BeforeTwice(TextAtoms(Spill(url), st, l), TextAtoms(text, st, l), Scan(rest, st, l));
    TextAtomsJoin(Spill(url), text, st, l);
  }

  /** One printed segment shows its text, after what its link spills. */
  lemma {:induction false} PieceShows(seg: Seg, rest: string, active: Style, link: Option<string>)
    requires Clean(seg)
    ensures var opens := link != seg.link && seg.link.Some?;
            var atoms := TextAtoms((if opens then Spill(seg.link.value) else "") + seg.text, seg.style, Arrived(seg.link));
            Scan(Piece(seg, active, link) + rest, active, Arrived(link))
            == Before(atoms, Scan(rest, seg.style, Arrived(seg.link)))
  {
    var opens := link != seg.link && seg.link.Some?;
    var head := (if link != seg.link && link.Some? then OscClose() else "") + Emit(Codes(active, seg.style));
    var open := if opens then OscOpen(seg.link.value) else "";
    PieceParts(head, open, seg.text, rest);
    PreambleShows(seg, open + (seg.text + rest), active, link);
    if opens {
      OpenedTextShows(seg.link.value, seg.text, rest, seg.style, Arrived(seg.link));
    } else {
      TextShows(seg.text, rest, seg.style, Arrived(seg.link));
      assert "" + (seg.text + rest) == seg.text + rest && "" + seg.text == seg.text;
    }
  }

  lemma {:induction false} PieceParts(a: string, b: string, c: string, d: string)
    ensures a + b + c + d == a + (b + (c + d))
  {
  }

  /** What any escape-free line shows when it is read back, and that it leaves
      neither a style nor a link switched on. */
  lemma {:induction false} PrintedShows(segs: seq<Seg>, active: Style, link: Option<string>)
    requires forall k :: 0 <= k < |segs| ==> Clean(segs[k])
    ensures Scan(RenderFrom(segs, active, link), active, Arrived(link)) == Some(Scanned(Expected(segs, link), PLAIN, None))
  {
    if segs == [] {
      EndingShows(active, link);
    } else {
      PieceShows(segs[0], RenderFrom(segs[1..], segs[0].style, segs[0].link), active, link);
      PrintedShows(segs[1..], segs[0].style, segs[0].link);
    }
  }

  lemma {:induction false} EndingShows(active: Style, link: Option<string>)
    ensures Scan(Ending(active, link), active, Arrived(link)) == Some(Scanned([], PLAIN, None))
  {
    var reset := if active != PLAIN then Csi(Reset) else "";
    if link.Some? {
      CloseShows(reset, active, Arrived(link));
    } else {
      assert Ending(active, link) == reset;
    }
    if active != PLAIN {
      CsiShows(Reset, "", active, None);
      assert Csi(Reset) + "" == Csi(Reset);
    }
  }
}
