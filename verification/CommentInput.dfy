/** Reading one submitted line: `#N: text`, `author: text`, `author: #N: text`
    or plain text. */
module CommentInput {
  import opened Common
  import opened Comments
  import opened Text

  datatype ParsedLine = ParsedLine(author: string, text: string, replyNumber: Option<U64>)

  datatype InputError = NumberTooLarge | NumberZero | ReplyEmpty

  /** A leading `#N:` with a non-empty body after it. */
  function ReplyPrefix(text: string): (r: Result<Option<(U64, string)>, InputError>)
    ensures r.Ok? && r.value.Some? ==>
              && 0 < r.value.value.0
              && r.value.value.1 != "" && (forall c :: c in r.value.value.1 ==> c in text)
  {
    if text == "" || text[0] != '#' then Ok(None)
    else
      var rest := text[1..];
      var n := DigitRun(rest);
      if n == 0 || n >= |rest| || rest[n] != ':' then Ok(None)
      else
        var number := Number(rest[..n]);
        if number > U64_MAX then Err(NumberTooLarge)
        else if number == 0 then Err(NumberZero)
        else
          var body := Trim(rest[n + 1..]);
          if body == "" then Err(ReplyEmpty) else Ok(Some((number, body)))
  }

  function FirstLine(s: string): string {
    match Find(s, '\n') case None => s case Some(k) => s[..k]
  }

  /** The author prefix of the first line, if both sides of its colon say something. */
  function AuthorSplit(clean: string): (r: Option<(string, string)>)
    ensures r.Some? ==>
              && r.value.0 != "" && r.value.1 != ""
              && '\n' !in r.value.0
              && (forall c :: c in r.value.0 ==> c in clean) && (forall c :: c in r.value.1 ==> c in clean)
  {
    match Find(FirstLine(clean), ':')
    case None => None
    case Some(colon) =>
      assert clean[..colon] == FirstLine(clean)[..colon];
      var author, text := Trim(clean[..colon]), Trim(clean[colon + 1..]);
      if author != "" && text != "" then Some((author, text)) else None
  }

  /** Every part of a parsed line is taken from the cleaned line. */
  ghost predicate TakenFrom(p: ParsedLine, clean: string) {
    && (p.author == "guest" || (p.author != "" && '\n' !in p.author && forall c :: c in p.author ==> c in clean))
    && p.text != "" && (forall c :: c in p.text ==> c in clean)
    && (p.replyNumber.Some? ==> 0 < p.replyNumber.value)
  }

  function NormalizeLine(line: string): (r: Result<Option<ParsedLine>, InputError>)
    ensures r.Ok? && r.value.Some? ==> TakenFrom(r.value.value, Trim(StripCommentControls(line)))
  {
    var clean := Trim(StripCommentControls(line));
    if clean == "" then Ok(None)
    else
      match ReplyPrefix(clean)
      case Err(e) => Err(e)
      case Ok(Some((number, text))) => Ok(Some(ParsedLine("guest", text, Some(number))))
      case Ok(None) =>
        match AuthorSplit(clean)
        case None => Ok(Some(ParsedLine("guest", clean, None)))
        case Some((author, text)) =>
          match ReplyPrefix(text)
          case Err(e) => Err(e)
          case Ok(None) => Ok(Some(ParsedLine(author, text, None)))
          case Ok(Some((number, body))) => Ok(Some(ParsedLine(author, body, Some(number))))
  }

  lemma {:induction false} InText(s: string, t: string)
    requires TextFree(t) && forall c :: c in s ==> c in t
    ensures TextFree(s)
  {
    forall k | 0 <= k < |s| ensures s[k] == '\n' || !Control(s[k]) {
      assert s[k] in t;
    }
  }

  /** Each part says something, holds no control character it must not, and a reply
      number is positive. */
  ghost predicate PartsStorable(p: ParsedLine) {
    && p.author != "" && p.text != ""
    && StripControls(p.author) == p.author && StripCommentControls(p.text) == p.text
    && (p.replyNumber.Some? ==> 0 < p.replyNumber.value)
  }

  lemma {:induction false} TakenStorable(p: ParsedLine, clean: string, free: string)
    requires TakenFrom(p, clean) && TextFree(free) && forall c :: c in clean ==> c in free
    ensures PartsStorable(p)
  {
    InText(p.text, free);
    if p.author == "guest" {
      assert LineFree("guest");
    } else {
      InText(p.author, free);
      assert LineFree(p.author);
    }
  }

  /** Whatever was typed, what is stored passes the checks a file is read with:
      both parts say something, hold no control character they must not, and a
      reply number is positive. */
  lemma {:induction false} NormalizedIsStorable(line: string)
    requires NormalizeLine(line).Ok? && NormalizeLine(line).value.Some?
    ensures PartsStorable(NormalizeLine(line).value.value)
  {
    var free := StripCommentControls(line);
    TakenStorable(NormalizeLine(line).value.value, Trim(free), free);
  }

  lemma {:induction false} RunOf(digits: string, rest: string)
    requires forall k :: 0 <= k < |digits| ==> Digit(digits[k])
    requires rest != "" && !Digit(rest[0])
    ensures DigitRun(digits + rest) == |digits|
  {
    if digits == "" {
      assert digits + rest == rest;
    } else {
      RunOf(digits[1..], rest);
      assert (digits + rest)[1..] == digits[1..] + rest;
    }
  }

  /** Answering a shown number: `#n:` before any text is read back as n and that text. */
  lemma {:induction false} ReplyNumberReadBack(n: U64, body: string)
    requires 0 < n && body != "" && Trim(body) == body
    ensures ReplyPrefix("#" + Decimal(n) + ":" + body) == Ok(Some((n, body)))
  {
    var d := Decimal(n);
    var line := "#" + d + ":" + body;
    var rest := d + (":" + body);
    assert line[1..] == rest;
    RunOf(d, ":" + body);
    assert rest[..|d|] == d && rest[|d|] == ':' && rest[|d| + 1..] == body;
  }

  // ------------------------------------------------------------ typed by hand

  /** A name as the author prefix can carry it. */
  predicate NameLike(s: string) { s != "" && Trim(s) == s && LineFree(s) && ':' !in s }

  /** A body as it is left by trimming and dropping controls. */
  predicate BodyLike(s: string) { s != "" && Trim(s) == s && TextFree(s) }

  /** `#` and digits: in front of a colon, a reply. */
  predicate NumberMark(s: string) { s != "" && s[0] == '#' && 0 < DigitRun(s[1..]) == |s| - 1 }

  lemma {:induction false} TrimmedEnds(s: string)
    ensures Trim(s) == s <==> s == "" || (!Space(s[0]) && !Space(s[|s| - 1]))
  {
  }

  lemma {:induction false} RunBefore(s: string, rest: string)
    requires rest != "" && !Digit(rest[0])
    ensures DigitRun(s + rest) == DigitRun(s)
  {
    if s == "" {
      assert s + rest == rest;
    } else {
      assert (s + rest)[1..] == s[1..] + rest;
      if Digit(s[0]) { RunBefore(s[1..], rest); }
    }
  }

  lemma {:induction false} TypedIsClean(name: string, body: string)
    requires NameLike(name) && BodyLike(body)
    ensures Trim(StripCommentControls(name + ": " + body)) == name + ": " + body
  {
    FreeSum(name, ": ");
    BodyBehind(name + ": ", body);
  }

  lemma {:induction false} FreeSum(a: string, b: string)
    requires TextFree(a) && TextFree(b)
    ensures TextFree(a + b)
  {
  }

  lemma {:induction false} BodyBehind(start: string, body: string)
    requires start != "" && !Space(start[0]) && TextFree(start) && BodyLike(body)
    ensures BodyLike(start + body)
  {
    var line := start + body;
    TrimmedEnds(body);
    TrimmedEnds(line);
    FreeSum(start, body);
    assert line[0] == start[0] && line[|line| - 1] == body[|body| - 1];
  }

  lemma {:induction false} FirstLineIs(s: string, n: nat)
    requires n < |s| && s[n] == '\n' && '\n' !in s[..n]
    ensures FirstLine(s) == s[..n]
  {
    FindIs(s, '\n', n);
  }

  lemma {:induction false} NameIsPrefix(name: string, body: string)
    requires NameLike(name) && BodyLike(body)
    ensures AuthorSplit(name + ": " + body) == Some((name, body))
  {
    var line := name + ": " + body;
    var first := FirstLine(line);
    ColonAt(name, body);
    NameInFirstLine(name, line);
    FindIs(first, ':', |name|);
    SpaceTrimmed(body);
    SplitsAt(line, |name|, name, body);
  }

  lemma {:induction false} ColonAt(name: string, body: string)
    ensures var line := name + ": " + body;
            line[..|name|] == name && line[|name|] == ':' && line[|name| + 1..] == " " + body
  {
  }

  lemma {:induction false} SplitsAt(clean: string, colon: nat, name: string, body: string)
    requires Find(FirstLine(clean), ':') == Some(colon) && colon < |clean| && name != "" && body != ""
    requires Trim(clean[..colon]) == name && Trim(clean[colon + 1..]) == body
    ensures AuthorSplit(clean) == Some((name, body))
  {
  }

  lemma {:induction false} SpaceTrimmed(body: string)
    requires Trim(body) == body
    ensures Trim(" " + body) == body
  {
    var s := " " + body;
    assert s[0] == ' ' && s[1..] == body;
    StartTrimmed(s);
  }

  lemma {:induction false} StartTrimmed(s: string)
    requires s != "" && Space(s[0])
    ensures Trim(s) == Trim(s[1..])
  {
  }

  lemma {:induction false} NameInFirstLine(name: string, line: string)
    requires NameLike(name) && |line| > |name| && line[..|name|] == name && line[|name|] == ':'
    ensures |FirstLine(line)| > |name| && FirstLine(line)[..|name|] == name && FirstLine(line)[|name|] == ':'
  {
    match Find(line, '\n')
    case None =>
    case Some(k) =>
      forall j | 0 <= j < |name| ensures line[j] != '\n' { assert line[..|name|][j] == name[j] && !Control(name[j]); }
  }

  /** A name that is no number mark does not start a reply. */
  lemma {:induction false} NameStartsNoReply(name: string, body: string)
    requires NameLike(name) && BodyLike(body)
    ensures ReplyPrefix(name + ": " + body) == Ok(None) <==> !NumberMark(name)
  {
    var line := name + ": " + body;
    if name[0] == '#' {
      var rest := line[1..];
      assert rest == name[1..] + (": " + body);
      RunBefore(name[1..], ": " + body);
      var n := DigitRun(name[1..]);
      if n < |name| - 1 { assert rest[n] == name[1..][n]; } else { assert rest[n] == ':'; }
    }
  }

  /** Name, colon, text is read back as that name and text if and only if the name is
      not a number sign and digits, which is taken for a reply. */
  lemma {:induction false} NameReadBack(name: string, body: string)
    requires NameLike(name) && BodyLike(body) && ReplyPrefix(body) == Ok(None)
    ensures NormalizeLine(name + ": " + body) == Ok(Some(ParsedLine(name, body, None))) <==> !NumberMark(name)
  {
    TypedIsClean(name, body);
    NameIsPrefix(name, body);
    NameStartsNoReply(name, body);
  }

  /** So is a reply with a name in front of it. */
  lemma {:induction false} NamedReplyReadBack(name: string, n: U64, body: string)
    requires NameLike(name) && !NumberMark(name) && BodyLike(body) && 0 < n
    ensures NormalizeLine(name + ": " + ("#" + Decimal(n) + ":" + body)) == Ok(Some(ParsedLine(name, body, Some(n))))
  {
    var reply := "#" + Decimal(n) + ":" + body;
    ReplyIsBody(n, body);
    ReplyNumberReadBack(n, body);
    TypedIsClean(name, reply);
    NameIsPrefix(name, reply);
    NameStartsNoReply(name, reply);
  }

  lemma {:induction false} ReplyIsBody(n: U64, body: string)
    requires BodyLike(body)
    ensures BodyLike("#" + Decimal(n) + ":" + body)
  {
    DigitsFree(Decimal(n));
    FreeSum("#", Decimal(n));
    FreeSum("#" + Decimal(n), ":");
    BodyBehind("#" + Decimal(n) + ":", body);
  }

  lemma {:induction false} DigitsFree(d: string)
    requires forall k :: 0 <= k < |d| ==> Digit(d[k])
    ensures TextFree(d)
  {
  }

  /** A guest's reply: number sign, number, colon and text, with nothing in front. */
  lemma {:induction false} GuestReplyReadBack(n: U64, body: string)
    requires BodyLike(body) && 0 < n
    ensures NormalizeLine("#" + Decimal(n) + ":" + body) == Ok(Some(ParsedLine("guest", body, Some(n))))
  {
    var reply := "#" + Decimal(n) + ":" + body;
    ReplyIsBody(n, body);
    ReplyNumberReadBack(n, body);
    assert StripCommentControls(reply) == reply && reply != "";
  }

  /** One line without a colon is a guest's text, and nothing but controls and blanks is
      no comment at all. */
  lemma {:induction false} PlainReadBack(line: string)
    requires BodyLike(line) && ':' !in line
    ensures NormalizeLine(line) == Ok(Some(ParsedLine("guest", line, None)))
  {
    assert AuthorSplit(line) == None by { assert forall k :: 0 <= k < |FirstLine(line)| ==> FirstLine(line)[k] in line; }
    if line[0] == '#' {
      var rest := line[1..];
      assert forall k :: 0 <= k < |rest| ==> rest[k] in line;
    }
    PlainIsText(line);
  }

  lemma {:induction false} NothingToSay(line: string)
    ensures NormalizeLine(line) == Ok(None) <==> Trim(StripCommentControls(line)) == ""
  {
  }

  /** A colon behind the first line never makes a name of the text before it. */
  lemma {:induction false} LaterColonIsText(first: string, rest: string)
    requires BodyLike(first + "\n" + rest) && ':' !in first && '\n' !in first
    ensures NormalizeLine(first + "\n" + rest) == Ok(Some(ParsedLine("guest", first + "\n" + rest, None)))
  {
    LaterNoName(first, rest);
    LaterNoReply(first, rest);
    PlainIsText(first + "\n" + rest);
  }

  lemma {:induction false} PlainIsText(line: string)
    requires BodyLike(line) && ReplyPrefix(line) == Ok(None) && AuthorSplit(line) == None
    ensures NormalizeLine(line) == Ok(Some(ParsedLine("guest", line, None)))
  {
  }

  lemma {:induction false} LaterNoName(first: string, rest: string)
    requires ':' !in first && '\n' !in first
    ensures AuthorSplit(first + "\n" + rest) == None
  {
    var line := first + "\n" + rest;
    assert line[..|first|] == first;
    FirstLineIs(line, |first|);
  }

  lemma {:induction false} LaterNoReply(first: string, rest: string)
    requires ':' !in first
    ensures ReplyPrefix(first + "\n" + rest) == Ok(None)
  {
    var line := first + "\n" + rest;
    if line[0] == '#' {
      var tail := line[1..];
      assert first != "" && tail == first[1..] + ("\n" + rest);
      RunBefore(first[1..], "\n" + rest);
      var n := DigitRun(first[1..]);
      if n < |first| - 1 { assert tail[n] == first[n + 1]; } else { assert tail[n] == '\n'; }
    }
  }
}
