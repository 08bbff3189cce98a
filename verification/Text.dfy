/** The string operations the components use: byte length, control stripping,
    trimming, splitting. */
module Text {
  import opened Common

  /** Bytes of `c` in UTF-8. */
  function CharLen(c: char): nat {
    if c as int < 0x80 then 1 else if c as int < 0x800 then 2 else if c as int < 0x10000 then 3 else 4
  }

  function ByteLen(s: string): nat {
    if s == "" then 0 else CharLen(s[0]) + ByteLen(s[1..])
  }

  predicate Control(c: char) {
    c as int <= 0x1f || 0x7f <= c as int <= 0x9f
  }

  /** The Unicode White_Space characters. */
  predicate Space(c: char) {
    var n := c as int;
    0x09 <= n <= 0x0d || n == 0x20 || n == 0x85 || n == 0xa0 || n == 0x1680 || 0x2000 <= n <= 0x200a
    || n == 0x2028 || n == 0x2029 || n == 0x202f || n == 0x205f || n == 0x3000
  }

  predicate LineFree(s: string) { forall k :: 0 <= k < |s| ==> !Control(s[k]) }

  predicate TextFree(s: string) { forall k :: 0 <= k < |s| ==> s[k] == '\n' || !Control(s[k]) }

  /** Drop every control character. */
  function StripControls(s: string): (r: string)
    ensures LineFree(r)
    ensures r == s <==> LineFree(s)
    ensures |r| <= |s|
  {
    if s == "" then ""
    else if Control(s[0]) then StripControls(s[1..])
    else
      var rest := StripControls(s[1..]);
      assert s == [s[0]] + s[1..];
      [s[0]] + rest
  }

  /** Drop every control character except line breaks. */
  function StripCommentControls(s: string): (r: string)
    ensures TextFree(r)
    ensures r == s <==> TextFree(s)
    ensures |r| <= |s|
  {
    if s == "" then ""
    else if s[0] != '\n' && Control(s[0]) then StripCommentControls(s[1..])
    else
      var rest := StripCommentControls(s[1..]);
      assert s == [s[0]] + s[1..];
      [s[0]] + rest
  }

  function TrimStart(s: string): (r: string)
    ensures |r| <= |s| && r == s[|s| - |r|..]
    ensures r != "" ==> !Space(r[0])
  {
    if s != "" && Space(s[0]) then TrimStart(s[1..]) else s
  }

  function TrimEnd(s: string): (r: string)
    ensures |r| <= |s| && r == s[..|r|]
    ensures r != "" ==> !Space(r[|r| - 1])
  {
    if s != "" && Space(s[|s| - 1]) then TrimEnd(s[..|s| - 1]) else s
  }

  function Trim(s: string): (r: string)
    ensures forall c :: c in r ==> c in s
  {
    TrimEnd(TrimStart(s))
  }

  function Find(s: string, c: char): (r: Option<nat>)
    ensures r.Some? ==> r.value < |s| && s[r.value] == c && c !in s[..r.value]
    ensures r.None? ==> c !in s
  {
    if s == "" then None
    else if s[0] == c then Some(0)
    else match Find(s[1..], c) case None => None case Some(k) => Some(k + 1)
  }

  lemma {:induction false} FindIs(s: string, c: char, n: nat)
    requires n < |s| && s[n] == c && c !in s[..n]
    ensures Find(s, c) == Some(n)
  {
    if n > 0 {
      assert s[0] == s[..n][0] && s[1..][..n - 1] == s[..n][1..];
      FindIs(s[1..], c, n - 1);
    }
  }

  predicate Digit(c: char) { '0' <= c <= '9' }

  predicate HexDigit(c: char) { Digit(c) || 'a' <= c <= 'f' || 'A' <= c <= 'F' }

  function DigitRun(s: string): (n: nat)
    ensures n <= |s| && forall k :: 0 <= k < n ==> Digit(s[k])
  {
    if s == "" || !Digit(s[0]) then 0 else 1 + DigitRun(s[1..])
  }

  function Number(s: string): nat
    requires forall k :: 0 <= k < |s| ==> Digit(s[k])
  {
    if s == "" then 0
    else
      assert Digit(s[|s| - 1]);
      10 * Number(s[..|s| - 1]) + (s[|s| - 1] as int - '0' as int)
  }

  function Decimal(n: nat): (s: string)
    ensures s != "" && forall k :: 0 <= k < |s| ==> Digit(s[k])
    ensures Number(s) == n
  {
    if n < 10 then [('0' as int + n) as char]
    else
      var s := Decimal(n / 10) + [('0' as int + n % 10) as char];
      assert s[..|s| - 1] == Decimal(n / 10);
      s
  }

  /** The pieces of `s` between occurrences of `sep`; at least one. */
  function Split(s: string, sep: char): (r: seq<string>)
    ensures r != []
  {
    match Find(s, sep)
    case None => [s]
    case Some(k) => [s[..k]] + Split(s[k + 1..], sep)
  }

  // ------------------------------------------------------------ lines of a text

  /** A carriage return before the line break belongs to it. */
  function Chomp(s: string): string {
    if EndsInReturn(s) then s[..|s| - 1] else s
  }

  predicate EndsInReturn(s: string) { s != "" && s[|s| - 1] == '\r' }

  /** The lines of a text: nothing follows the last line break. */
  function TextLines(t: string): seq<string>
    decreases |t|
  {
    if t == "" then []
    else match Find(t, '\n') case None => [t] case Some(n) => [Chomp(t[..n])] + TextLines(t[n + 1..])
  }

  lemma {:induction false} LinesAtBreak(t: string, n: nat)
    requires n < |t| && t[n] == '\n' && '\n' !in t[..n]
    ensures TextLines(t) == [Chomp(t[..n])] + TextLines(t[n + 1..])
  {
    FindIs(t, '\n', n);
  }

  lemma {:induction false} SplitAtBreak(s: string, rest: string)
    ensures TextLines(s + "\n" + rest) == TextLines(s + "\n") + TextLines(rest)
    decreases |s|
  {
    match Find(s, '\n')
    case None => LastBreak(s, rest);
    case Some(n) =>
      SplitAtBreak(s[n + 1..], rest);
      assert s == s[..n] + "\n" + s[n + 1..];
      InnerBreak(s[..n], s[n + 1..], rest);
  }

  lemma {:induction false} InnerBreak(head: string, tail: string, rest: string)
    requires '\n' !in head && TextLines(tail + "\n" + rest) == TextLines(tail + "\n") + TextLines(rest)
    ensures var s := head + "\n" + tail; TextLines(s + "\n" + rest) == TextLines(s + "\n") + TextLines(rest)
  {
    var s := head + "\n" + tail;
    Reassociate(head + "\n", tail, "\n", rest);
    var short, long := tail + "\n", tail + "\n" + rest;
    LastBreak(head, long);
    LastBreak(head, short);
    Regroup(TextLines(head + "\n"), TextLines(short), TextLines(rest));
  }

  lemma {:induction false} Reassociate(a: string, b: string, c: string, d: string)
    ensures a + b + c == a + (b + c) && a + b + c + d == a + (b + c + d)
  {
  }

  lemma {:induction false} LastBreak(s: string, rest: string)
    requires '\n' !in s
    ensures TextLines(s + "\n" + rest) == TextLines(s + "\n") + TextLines(rest)
  {
    FirstOfTwo(s, rest);
    FirstOfTwo(s, "");
    assert s + "\n" + "" == s + "\n";
  }

  lemma {:induction false} FirstOfTwo(s: string, rest: string)
    requires '\n' !in s
    ensures TextLines(s + "\n" + rest) == [Chomp(s)] + TextLines(rest)
  {
    var t := s + "\n" + rest;
    assert t[..|s|] == s && t[|s|] == '\n' && t[|s| + 1..] == rest;
    LinesAtBreak(t, |s|);
  }
}
