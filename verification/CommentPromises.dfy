/** What is admitted to the store and what each page of it holds, told in terms of the
    stored records. */
module CommentPromises {
  import opened Common
  import opened Comments
  import opened CommentInput
  import opened CommentLog
  import opened CommentQueries
  import opened CommentStore
  import opened CommentViews
  import opened ContentModel
  import opened Text

  // ---------------------------------------------------------------- admission

  /** The records of `source` recorded within the last hour. */
  ghost function LastHour(log: Log, n: nat, source: string, now: int): set<int>
    requires n <= |log|
  {
    set k | 0 <= k < n && log[k].ipHash == source && log[k].createdAt.seconds.Some?
            && now - log[k].createdAt.seconds.value <= 3600
  }

  lemma {:induction false} RecentIsSize(log: Log, n: nat, source: string, now: int)
    requires n <= |log|
    ensures RecentCount(log[..n], source, now) == |LastHour(log, n, source, now)|
  {
    if n > 0 {
      RecentIsSize(log, n - 1, source, now);
      LastHourNext(log, n - 1, source, now);
      assert log[..n][..n - 1] == log[..n - 1];
    }
  }

  lemma {:induction false} LastHourNext(log: Log, n: nat, source: string, now: int)
    requires n < |log|
    ensures |LastHour(log, n + 1, source, now)| == |LastHour(log, n, source, now)|
                                                 + if log[n].ipHash == source && Recent(log[n], now, RATE_SECONDS) then 1 else 0
  {
    var c := log[n];
    var more := if c.ipHash == source && Recent(c, now, RATE_SECONDS) then {n} else {};
    assert LastHour(log, n + 1, source, now) == LastHour(log, n, source, now) + more;
  }

  /** The same words of the same source to the same comment, within five minutes. */
  ghost predicate SaidBefore(log: Log, source: string, target: string, text: string, replyTo: Option<U64>, now: int) {
    exists k :: 0 <= k < |log| && log[k].ipHash == source && log[k].target == target && log[k].text == text
                && log[k].replyToId == replyTo && log[k].createdAt.seconds.Some?
                && now - log[k].createdAt.seconds.value <= 300
  }

  /** The record a submitted reply number stands for. */
  ghost predicate StandsFor(log: Log, target: string, number: nat, i: nat) {
    i < |log| && log[i].status == Approved && log[i].target == target && Rank(log, i) == number
  }

  lemma {:induction false} NumberFound(log: Log, target: string, number: nat, i: nat)
    requires WellFormed(log) && StandsFor(log, target, number, i)
    ensures 0 < number <= |Shown(log, target)| && Shown(log, target)[number - 1].id == log[i].id
  {
    ApprovedIsShown(log, i);
  }

  /** Without a reply: admitted exactly if the source sent fewer than ten within the last
      hour, did not say the same within five minutes, and an ID is left; and stored as
      it was sent, to wait for its moderation under the next ID. */
  lemma {:induction false} AdmittedIff(log: Log, target: string, p: ParsedLine, source: string, now: Stamp)
    requires p.replyNumber.None? && now.seconds.Some?
    ensures var v, sec := DecideParsed(log, target, p, source, now), now.seconds.value;
            && (v.Admit? <==> |LastHour(log, |log|, source, sec)| < 10 && !SaidBefore(log, source, target, p.text, None, sec)
                              && (log != [] ==> log[|log| - 1].id < U64_MAX))
            && (v.Admit? ==> v.c == Stored(if log == [] then 1 else log[|log| - 1].id + 1, target, p.author, p.text, None,
                                           source, now, Pending))
            && (v == Refuse(RateLimited) <==> |LastHour(log, |log|, source, sec)| >= 10)
            && (v == Refuse(Duplicate) <==> |LastHour(log, |log|, source, sec)| < 10
                                            && SaidBefore(log, source, target, p.text, None, sec))
  {
    WeighedIff(log, Stored(0, target, p.author, p.text, None, source, now, Pending));
  }

  /** A reply is admitted exactly if its number is shown and, as an answer to that very
      record, the same holds; it is stored with that record's ID. */
  lemma {:induction false} ReplyAdmittedIff(log: Log, target: string, p: ParsedLine, source: string, now: Stamp, i: nat)
    requires WellFormed(log) && p.replyNumber.Some? && now.seconds.Some? && StandsFor(log, target, p.replyNumber.value, i)
    ensures var v, sec, to := DecideParsed(log, target, p, source, now), now.seconds.value, Some(log[i].id);
            && (v.Admit? <==> |LastHour(log, |log|, source, sec)| < 10 && !SaidBefore(log, source, target, p.text, to, sec)
                              && log[|log| - 1].id < U64_MAX)
            && (v.Admit? ==> v.c == Stored(log[|log| - 1].id + 1, target, p.author, p.text, to, source, now, Pending))
  {
    NumberFound(log, target, p.replyNumber.value, i);
    WeighedIff(log, Stored(0, target, p.author, p.text, Some(log[i].id), source, now, Pending));
  }

  /** A reply to a number that nobody sees is refused. */
  lemma {:induction false} UnknownRefused(log: Log, target: string, p: ParsedLine, source: string, now: Stamp)
    requires WellFormed(log) && p.replyNumber.Some? && now.seconds.Some?
    ensures DecideParsed(log, target, p, source, now) == Refuse(UnknownNumber) <==>
            forall i: nat :: !StandsFor(log, target, p.replyNumber.value, i)
  {
    var number := p.replyNumber.value;
    forall i: nat | StandsFor(log, target, number, i) ensures 0 < number <= |Shown(log, target)| { NumberFound(log, target, number, i); }
    if 0 < number <= |Shown(log, target)| {
      var i := ShownIsApproved(log, target, number - 1);
      assert StandsFor(log, target, number, i);
      WeighedIff(log, Stored(0, target, p.author, p.text, Some(Shown(log, target)[number - 1].id), source, now, Pending));
    }
  }

  lemma {:induction false} WeighedIff(log: Log, c: Stored)
    requires c.createdAt.seconds.Some?
    ensures var v, sec := Weigh(log, c), c.createdAt.seconds.value;
            var many, said := |LastHour(log, |log|, c.ipHash, sec)| >= 10, SaidBefore(log, c.ipHash, c.target, c.text, c.replyToId, sec);
            && (v.Admit? <==> !many && !said && (log != [] ==> log[|log| - 1].id < U64_MAX))
            && (v.Admit? ==> v.c == c.(id := if log == [] then 1 else log[|log| - 1].id + 1))
            && (v == Refuse(RateLimited) <==> many) && (v == Refuse(Duplicate) <==> !many && said)
            && v != Refuse(UnknownNumber)
  {
    var sec := c.createdAt.seconds.value;
    RecentIsSize(log, |log|, c.ipHash, sec);
    assert log[..|log|] == log;
    SaidIsDuplicated(log, c);
  }

  lemma {:induction false} SaidIsDuplicated(log: Log, c: Stored)
    requires c.createdAt.seconds.Some?
    ensures Duplicated(log, c, Seconds(c)) <==>
            SaidBefore(log, c.ipHash, c.target, c.text, c.replyToId, c.createdAt.seconds.value)
  {
    forall k | 0 <= k < |log|
      ensures SameContent(log[k], c) && Recent(log[k], Seconds(c), DUPLICATE_SECONDS) <==>
              log[k].ipHash == c.ipHash && log[k].target == c.target && log[k].text == c.text && log[k].replyToId == c.replyToId
              && log[k].createdAt.seconds.Some? && c.createdAt.seconds.value - log[k].createdAt.seconds.value <= 300
    {
    }
  }

  /** A request is read at all exactly if its target is one, it names an address, the line
      and its parts are short enough, and it says something. */
  lemma {:induction false} RequestParsed(req: SubmitRequest, p: ParsedLine)
    ensures Parsed(req) == Ok(p) <==>
            && ValidTarget(req.target) && req.source.Some? && ByteLen(req.line) <= 512
            && NormalizeLine(req.line) == Ok(Some(p)) && ByteLen(p.author) <= 32 && ByteLen(p.text) <= 512
  {
    match NormalizeLine(req.line)
    case Err(e) => UnsaidNotParsed(req);
    case Ok(None) => UnsaidNotParsed(req);
    case Ok(Some(q)) => SaidIsParsed(req, q);
  }

  lemma {:induction false} UnsaidNotParsed(req: SubmitRequest)
    requires NormalizeLine(req.line).Err? || NormalizeLine(req.line).value.None?
    ensures Parsed(req).Err?
  {
  }

  lemma {:induction false} SaidIsParsed(req: SubmitRequest, p: ParsedLine)
    requires NormalizeLine(req.line) == Ok(Some(p))
    ensures Parsed(req).Ok? ==> Parsed(req).value == p
    ensures Parsed(req).Ok? <==>
            && ValidTarget(req.target) && req.source.Some? && ByteLen(req.line) <= 512
            && ByteLen(p.author) <= 32 && ByteLen(p.text) <= 512
  {
  }

  // ------------------------------------------------------------- pages by ID

  /** The positions before `n` of the records of a status with IDs above `after`. */
  ghost function Above(log: Log, n: nat, status: Status, after: U64): set<int>
    requires n <= |log|
  {
    set k | 0 <= k < n && log[k].status == status && log[k].id > after
  }

  lemma {:induction false} AboveNext(log: Log, n: nat, status: Status, after: U64)
    requires n < |log|
    ensures |Above(log, n + 1, status, after)|
         == |Above(log, n, status, after)| + if log[n].status == status && log[n].id > after then 1 else 0
  {
    assert Above(log, n + 1, status, after)
        == Above(log, n, status, after) + if log[n].status == status && log[n].id > after then {n} else {};
  }

  lemma {:induction false} MatchingSize(log: Log, n: nat, status: Status, after: U64)
    requires n <= |log|
    ensures |Matching(log[..n], status, after)| == |Above(log, n, status, after)|
  {
    if n > 0 {
      MatchingSize(log, n - 1, status, after);
      AboveNext(log, n - 1, status, after);
      MatchingNext(log, n - 1, status, after);
    }
  }

  /** The records of a status above an ID come in their order, each with its own fields. */
  lemma {:induction false} RecordMatches(log: Log, status: Status, after: U64, i: nat)
    requires i < |log| && log[i].status == status && log[i].id > after
    ensures |Matching(log, status, after)| == |Above(log, |log|, status, after)|
    ensures var all, k, c := Matching(log, status, after), |Above(log, i, status, after)|, log[i];
            && k < |all| && all[k].id == c.id && all[k].target == c.target && all[k].author == c.author
            && all[k].text == c.text && all[k].createdAt == c.createdAt && all[k].replyToId == c.replyToId
  {
    MatchingSize(log, |log|, status, after);
    MatchingSize(log, i, status, after);
    MatchingNext(log, i, status, after);
    MatchingPrefix(log, i + 1, status, after);
    assert log[..|log|] == log;
  }

  /** A page is given exactly if its limit is in range and, where it continues, it names the
      present revision; it is then the first of the matching records up to the limit, and
      names the last of them to go on from exactly if there are more. */
  lemma {:induction false} PageAnswered(log: Log, req: PageRequest, status: Status)
    ensures var r, all := PageOf(log, req, status), Matching(log, status, req.afterId);
            var limit := if req.limit.Some? then req.limit.value else DEFAULT_LIMIT;
            && (r.error.None? <==>
                  && 1 <= limit <= MAX_LIMIT && (req.afterId > 0 ==> req.revision.Some?)
                  && (req.revision.Some? ==> req.revision.value == Revision(log)))
            && (r.error.None? ==>
                  && r.comments <= all && |r.comments| == (if |all| < limit then |all| else limit)
                  && (r.hasMore <==> |r.comments| < |all|) && r.revision == Revision(log)
                  && r.nextAfterId == if r.hasMore then Some(r.comments[|r.comments| - 1].id) else None)
  {
  }

  // --------------------------------------------------------- pages by number

  /** A query is answered exactly if it is well formed and, where it continues, still of
      the same revision. */
  lemma {:induction false} QueryAnswered(log: Log, q: PublicQuery)
    requires WellFormed(log) && Projectable(Shown(log, q.target))
    ensures PublicAnswer(log, q).error.None? <==>
            && ValidTarget(q.target) && (q.limit.Some? ==> 1 <= q.limit.value <= MAX_LIMIT)
            && (q.afterNumber.Some? && q.afterNumber.value > 0 ==> q.revision.Some?)
            && (q.revision.Some? ==> q.revision.value == Revision(log))
  {
  }

  /** Every answer tells how many there are in all. */
  lemma {:induction false} TotalShown(log: Log, q: PublicQuery)
    requires WellFormed(log) && Projectable(Shown(log, q.target)) && PublicAnswer(log, q).error.None?
    ensures PublicAnswer(log, q).total == |ApprovedAmong(log, |log|, q.target)| == |Visible(Shown(log, q.target))|
  {
    AnswerIsPage(log, q, if q.limit.Some? then q.limit.value else DEFAULT_LIMIT);
    SizeAndNumbers(log, q.target);
  }

  /** Without a cursor: the newest comments, up to the limit, and how many came before. */
  lemma {:induction false} NewestShown(log: Log, q: PublicQuery)
    requires WellFormed(log) && Projectable(Shown(log, q.target)) && PublicAnswer(log, q).error.None? && q.afterNumber.None?
    ensures var r, total := PublicAnswer(log, q), |ApprovedAmong(log, |log|, q.target)|;
            var limit := if q.limit.Some? then q.limit.value else DEFAULT_LIMIT;
            && r.total == total && r.omitted == total - |r.comments| && |r.comments| == (if total < limit then total else limit)
            && !r.hasMore && r.nextAfter.None? && r.revision == Revision(log)
            && r.omitted + |r.comments| <= |Visible(Shown(log, q.target))|
            && Stretches(Visible(Shown(log, q.target)), r.omitted, r.comments)
  {
    var limit := if q.limit.Some? then q.limit.value else DEFAULT_LIMIT;
    AnswerIsPage(log, q, limit);
    SizeAndNumbers(log, q.target);
    var all := Visible(Shown(log, q.target));
    StretchNumbered(all, Max(0, |all| - limit), |all|);
  }

  /** The shown comments numbered from `from + 1` on. */
  ghost predicate Stretches(all: seq<VisibleComment>, from: nat, some: seq<VisibleComment>)
    requires from + |some| <= |all|
  {
    forall k :: 0 <= k < |some| ==> some[k] == all[from + k] && some[k].number == from + k + 1
  }

  lemma {:induction false} StretchNumbered(all: seq<VisibleComment>, from: nat, to: nat)
    requires from <= to <= |all| && forall k :: 0 <= k < |all| ==> all[k].number == k + 1
    ensures Stretches(all, from, all[from..to]) && (to == |all| ==> all[from..to] == all[from..])
  {
  }

  /** With a cursor: the comments numbered right above it, up to the limit, and the cursor
      to go on with exactly if there are more. */
  lemma {:induction false} NextShown(log: Log, q: PublicQuery)
    requires WellFormed(log) && Projectable(Shown(log, q.target)) && PublicAnswer(log, q).error.None? && q.afterNumber.Some?
    ensures var r := PublicAnswer(log, q);
            var limit := if q.limit.Some? then q.limit.value else DEFAULT_LIMIT;
            var from := if q.afterNumber.value < r.total then q.afterNumber.value else r.total;
            && r.omitted == 0 && r.revision == Revision(log)
            && |r.comments| == (if r.total - from < limit then r.total - from else limit)
            && (r.hasMore <==> from + |r.comments| < r.total)
            && r.nextAfter == (if r.hasMore then Some(from + |r.comments|) else None)
            && from + |r.comments| <= |Visible(Shown(log, q.target))|
            && Stretches(Visible(Shown(log, q.target)), from, r.comments)
  {
    var limit := if q.limit.Some? then q.limit.value else DEFAULT_LIMIT;
    AnswerIsPage(log, q, limit);
    ShownIsNumberedAll(log, q.target);
    NextPage(log, q, limit);
  }

  lemma {:induction false} AnswerIsPage(log: Log, q: PublicQuery, limit: nat)
    requires Projectable(Shown(log, q.target)) && PublicAnswer(log, q).error.None?
    requires limit == if q.limit.Some? then q.limit.value else DEFAULT_LIMIT
    ensures 0 < limit && PublicAnswer(log, q) == PublicPage(log, q, limit)
  {
  }

  lemma {:induction false} SizeAndNumbers(log: Log, target: string)
    requires WellFormed(log) && Projectable(Shown(log, target))
    ensures |Visible(Shown(log, target))| == |Shown(log, target)| == |ApprovedAmong(log, |log|, target)|
    ensures forall k :: 0 <= k < |Shown(log, target)| ==> Visible(Shown(log, target))[k].number == k + 1
  {
    ShownSize(log, target);
    ShownIsNumberedAll(log, target);
  }

  lemma {:induction false} NextPage(log: Log, q: PublicQuery, limit: nat)
    requires Projectable(Shown(log, q.target)) && 0 < limit && q.afterNumber.Some?
    requires forall k :: 0 <= k < |Shown(log, q.target)| ==> Visible(Shown(log, q.target))[k].number == k + 1
    ensures var r, all := PublicPage(log, q, limit), Visible(Shown(log, q.target));
            var from := if q.afterNumber.value < |all| then q.afterNumber.value else |all|;
            && r.total == |all| && r.omitted == 0 && r.revision == Revision(log)
            && |r.comments| == (if |all| - from < limit then |all| - from else limit)
            && (r.hasMore <==> from + |r.comments| < |all|)
            && r.nextAfter == (if r.hasMore then Some(from + |r.comments|) else None)
            && Stretches(all, from, r.comments)
  {
    var all := Visible(Shown(log, q.target));
    var from := Min(q.afterNumber.value, |all|);
    StretchNumbered(all, from, Min(from + limit, |all|));
  }
}
