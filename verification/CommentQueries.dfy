/** Reading the store in revision-bound pages, and the client that assembles a
    whole list from pages while the store keeps changing. */
module CommentQueries {
  import opened Common
  import opened Comments
  import opened CommentLog
  import opened CommentReader
  import opened CommentStore
  import opened ContentModel

  datatype QueryError = BadTarget | BadLimit | RevisionRequired | StaleRevision | DataUnavailable

  function PageLimit(limit: Option<nat>): Result<nat, QueryError> {
    var n := if limit.Some? then limit.value else DEFAULT_LIMIT;
    if 1 <= n <= MAX_LIMIT then Ok(n) else Err(BadLimit)
  }

  // ----------------------------------------------------------- pages by ID

  datatype PageRequest = PageRequest(afterId: U64, limit: Option<nat>, revision: Option<Revision>)

  datatype PageResponse = PageResponse(revision: Revision, comments: seq<Comment>, nextAfterId: Option<U64>,
                                       hasMore: bool, error: Option<QueryError>)

  /** The comments of one status with IDs above `after`, in order. */
  function Matching(log: Log, status: Status, after: U64): seq<Comment> {
    if log == [] then []
    else
      var rest := Matching(log[..|log| - 1], status, after);
      var c := log[|log| - 1];
      if c.status == status && c.id > after then rest + [View(c)] else rest
  }

  function FailedPage(log: Log, e: QueryError): PageResponse {
    PageResponse(Revision(log), [], None, false, Some(e))
  }

  /** The page a request is answered with: up to `limit` matches, and whether more follow. */
  function PageOf(log: Log, req: PageRequest, status: Status): PageResponse {
    var limit := PageLimit(req.limit);
    if limit.Err? then FailedPage(log, limit.error)
    else if req.afterId > 0 && req.revision.None? then FailedPage(log, RevisionRequired)
    else if req.revision.Some? && req.revision.value != Revision(log) then FailedPage(log, StaleRevision)
    else
      var all := Matching(log, status, req.afterId);
      if |all| <= limit.value then PageResponse(Revision(log), all, None, false, None)
      else PageResponse(Revision(log), all[..limit.value], Some(all[limit.value - 1].id), true, None)
  }

  method Page(log: Log, req: PageRequest, status: Status) returns (r: PageResponse)
    ensures r == PageOf(log, req, status)
  {
    var limit := PageLimit(req.limit);
    if limit.Err? { return FailedPage(log, limit.error); }
    if req.afterId > 0 && req.revision.None? { return FailedPage(log, RevisionRequired); }
    if req.revision.Some? && req.revision.value != Revision(log) { return FailedPage(log, StaleRevision); }
    var out: seq<Comment> := [];
    for i := 0 to |log|
      invariant |out| <= limit.value && out == Matching(log[..i], status, req.afterId)
    {
      MatchingNext(log, i, status, req.afterId);
      var c := log[i];
      if c.status == status && c.id > req.afterId {
        if |out| == limit.value {
          MatchingBeyond(log, i, status, req.afterId);
          return PageResponse(Revision(log), out, Some(out[|out| - 1].id), true, None);
        }
        out := out + [View(c)];
      }
    }
    assert log[..|log|] == log;
    r := PageResponse(Revision(log), out, None, false, None);
  }

  lemma {:induction false} MatchingNext(log: Log, i: nat, status: Status, after: U64)
    requires i < |log|
    ensures Matching(log[..i + 1], status, after)
         == Matching(log[..i], status, after) + if log[i].status == status && log[i].id > after then [View(log[i])] else []
  {
    assert log[..i + 1][..i] == log[..i];
  }

  /** One match more than a page holds: the page is what was found so far. */
  lemma {:induction false} MatchingBeyond(log: Log, i: nat, status: Status, after: U64)
    requires i < |log| && log[i].status == status && log[i].id > after
    ensures var found, all := Matching(log[..i], status, after), Matching(log, status, after);
            |found| < |all| && all[..|found|] == found
  {
    MatchingPrefix(log, i + 1, status, after);
    assert log[..i + 1][..i] == log[..i];
  }

  lemma {:induction false} MatchingPrefix(log: Log, n: nat, status: Status, after: U64)
    requires n <= |log|
    ensures Matching(log[..n], status, after) <= Matching(log, status, after)
  {
    if n == |log| {
      assert log[..n] == log;
    } else {
      MatchingPrefix(log[..|log| - 1], n, status, after);
      assert log[..|log| - 1][..n] == log[..n];
    }
  }

  /** A match lies above `after` and is no later than the last comment. */
  lemma {:induction false} MatchingBounds(log: Log, status: Status, after: U64, k: nat)
    requires Rising(log) && k < |Matching(log, status, after)|
    ensures log != [] && after < Matching(log, status, after)[k].id <= log[|log| - 1].id
  {
    var n := |log| - 1;
    var p := log[..n];
    if k < |Matching(p, status, after)| {
      MatchingBounds(p, status, after, k);
      assert p[|p| - 1].id < log[n].id;
    }
  }

  /** Asking again after the k-th match continues right behind it. */
  lemma {:induction false} MatchingContinues(log: Log, status: Status, after: U64, k: nat)
    requires Rising(log) && k < |Matching(log, status, after)|
    ensures Matching(log, status, Matching(log, status, after)[k].id) == Matching(log, status, after)[k + 1..]
  {
    var n := |log| - 1;
    var p := log[..n];
    var m := Matching(p, status, after);
    if k < |m| {
      MatchingContinues(p, status, after, k);
      MatchingBounds(p, status, after, k);
      assert m[k].id <= p[|p| - 1].id < log[n].id;
    } else {
      RisingBelow(log);
      NothingAbove(log, status, log[n].id);
    }
  }

  lemma {:induction false} RisingBelow(log: Log)
    requires Rising(log) && log != []
    ensures forall k :: 0 <= k < |log| ==> log[k].id <= log[|log| - 1].id
  {
    forall k | 0 <= k < |log| ensures log[k].id <= log[|log| - 1].id {
      assert k < |log| - 1 ==> log[k].id < log[|log| - 1].id;
    }
  }

  lemma {:induction false} NothingAbove(log: Log, status: Status, after: U64)
    requires forall k :: 0 <= k < |log| ==> log[k].id <= after
    ensures Matching(log, status, after) == []
  {
    if log != [] { NothingAbove(log[..|log| - 1], status, after); }
  }

  /** From ID 0 the approved pages run through exactly the approved comments. */
  lemma {:induction false} MatchingAll(log: Log)
    requires forall k :: 0 <= k < |log| ==> log[k].id > 0
    ensures Matching(log, Approved, 0) == ApprovedOf(log)
  {
    if log != [] { MatchingAll(log[..|log| - 1]); }
  }

  // ------------------------------------------------------------- the client

  /** `res` is the stretch of `base` behind `after`; the rest starts behind its cursor. */
  ghost predicate Stretch(res: PageResponse, base: Log, status: Status, after: U64) {
    var all := Matching(base, status, after);
    && res.error.None? && res.revision == Revision(base)
    && (res.hasMore <==> res.nextAfterId.Some?)
    && if res.hasMore then
         var rest := Matching(base, status, res.nextAfterId.value);
         res.comments + rest == all && |rest| < |all|
       else res.comments == all
  }

  /** One request of a round that began on list `base`: the next stretch of it, or
      the news that the store has moved on. */
  method Fetch(log: Log, ghost base: Log, status: Status, after: U64, revision: Option<Revision>)
    returns (res: PageResponse)
    requires Rising(base)
    requires if revision.None? then log == base && after == 0 else revision.value == Revision(base)
    ensures log != base ==> res.error == Some(StaleRevision)
    ensures log == base ==> Stretch(res, base, status, after)
  {
    res := Page(log, PageRequest(after, Some(MAX_LIMIT), revision), status);
    if log == base {
      var all := Matching(log, status, after);
      if |all| > MAX_LIMIT {
        MatchingContinues(log, status, after, MAX_LIMIT - 1);
        assert all == all[..MAX_LIMIT] + all[MAX_LIMIT..];
      }
    }
  }

  /** One round of `All`: pages bound to the revision of the first, until the last
      page or until the store has moved on. The other two errors do not occur. */
  method Round(at: nat -> Log, start: nat, status: Status) returns (r: Option<seq<Comment>>, now: nat)
    requires forall n: nat :: Rising(at(n))
    ensures start < now
    ensures r.Some? ==> r.value == Matching(at(start), status, 0)
    ensures r.None? ==> start < now - 1 && at(now - 1) != at(start)
  {
    now := start + 1;
    ghost var base := at(start);
    var res := Fetch(at(start), base, status, 0, None);
    var revision := res.revision;
    var out := res.comments;
    while res.hasMore
      invariant start < now && revision == Revision(base) && res.error.None?
      invariant res.hasMore <==> res.nextAfterId.Some?
      invariant Matching(base, status, 0) ==
                out + if res.hasMore then Matching(base, status, res.nextAfterId.value) else []
      decreases if res.hasMore then 1 + |Matching(base, status, res.nextAfterId.value)| else 0
    {
      res := Fetch(at(now), base, status, res.nextAfterId.value, Some(revision));
      now := now + 1;
      if res.error.Some? {
        assert res.error.value == StaleRevision;
        return None, now;
      }
      out := out + res.comments;
    }
    r := Some(out);
  }

  /** `at(n)` is the store's list when the client's n-th request reaches it: between
      requests any submissions and moderations may have happened. A list that is
      returned is the complete list of a single one of those states. The client
      gives up only after the list changed under it in five separate rounds, and
      never for another reason. */
  method All(at: nat -> Log, status: Status)
    returns (r: Option<seq<Comment>>, ghost changes: seq<(nat, nat)>)
    requires forall n: nat :: Rising(at(n))
    ensures r.Some? ==> exists n: nat :: r.value == Matching(at(n), status, 0)
    ensures r.None? ==> |changes| == 5
    ensures forall k :: 0 <= k < |changes| ==> changes[k].0 < changes[k].1 && at(changes[k].0) != at(changes[k].1)
    ensures forall k :: 0 < k < |changes| ==> changes[k - 1].1 < changes[k].0
  {
    var now: nat := 0;
    changes := [];
    for i := 0 to 5
      invariant |changes| == i
      invariant forall k :: 0 <= k < i ==>
                  changes[k].0 < changes[k].1 < now && at(changes[k].0) != at(changes[k].1)
      invariant forall k :: 0 < k < i ==> changes[k - 1].1 < changes[k].0
    {
      var start := now;
      var round: Option<seq<Comment>>;
      round, now := Round(at, start, status);
      if round.Some? { return round, changes; }
      changes := changes + [(start, now - 1)];
    }
    r := None;
  }

  // -------------------------------------------------------- pages by number

  datatype PublicQuery = PublicQuery(target: string, afterNumber: Option<nat>, limit: Option<nat>,
                                     revision: Option<Revision>)

  datatype PublicResponse = PublicResponse(revision: Revision, total: nat, omitted: nat,
                                           comments: seq<VisibleComment>, nextAfter: Option<nat>,
                                           hasMore: bool, error: Option<QueryError>)

  function FailedQuery(log: Log, e: QueryError): PublicResponse {
    PublicResponse(Revision(log), 0, 0, [], None, false, Some(e))
  }

  /** Without a cursor the newest comments; with one, those numbered above it. */
  function PublicPage(log: Log, q: PublicQuery, limit: nat): PublicResponse
    requires Projectable(Shown(log, q.target)) && 0 < limit
  {
    var all := Visible(Shown(log, q.target));
    if q.afterNumber.None? then
      var start := Max(0, |all| - limit);
      PublicResponse(Revision(log), |all|, start, all[start..], None, false, None)
    else
      var from := Min(q.afterNumber.value, |all|);
      var to := Min(from + limit, |all|);
      PublicResponse(Revision(log), |all|, 0, all[from..to], if to < |all| then Some(to) else None, to < |all|, None)
  }

  /** The answer to a public query, in the order it is checked. "Data unavailable"
      is not among the answers. */
  function PublicAnswer(log: Log, q: PublicQuery): PublicResponse
    requires Projectable(Shown(log, q.target))
  {
    if !ValidTarget(q.target) then FailedQuery(log, BadTarget)
    else if PageLimit(q.limit).Err? then FailedQuery(log, BadLimit)
    else if q.afterNumber.Some? && q.afterNumber.value > 0 && q.revision.None? then FailedQuery(log, RevisionRequired)
    else if q.revision.Some? && q.revision.value != Revision(log) then FailedQuery(log, StaleRevision)
    else PublicPage(log, q, PageLimit(q.limit).value)
  }

  /** Over a well-formed list every public query gets its stretch of the numbered comments. */
  method PublicQueryOf(log: Log, q: PublicQuery) returns (r: PublicResponse)
    requires WellFormed(log)
    ensures Projectable(Shown(log, q.target)) && r == PublicAnswer(log, q)
  {
    ShownIsNumberedAll(log, q.target);
    if !ValidTarget(q.target) { return FailedQuery(log, BadTarget); }
    var limit := PageLimit(q.limit);
    if limit.Err? { return FailedQuery(log, limit.error); }
    var after := if q.afterNumber.Some? then q.afterNumber.value else 0;
    if after > 0 && q.revision.None? { return FailedQuery(log, RevisionRequired); }
    if q.revision.Some? && q.revision.value != Revision(log) { return FailedQuery(log, StaleRevision); }
    var private := ShownComments(log, q.target);
    var projected := VisibleComments(private);
    if projected.Err? { return FailedQuery(log, DataUnavailable); }
    r := PublicStretch(log, q, limit.value, projected.value);
  }

  method PublicStretch(log: Log, q: PublicQuery, limit: nat, all: seq<VisibleComment>) returns (r: PublicResponse)
    requires Projectable(Shown(log, q.target)) && all == Visible(Shown(log, q.target)) && Numbered(all) && 0 < limit
    ensures r == PublicPage(log, q, limit)
  {
    if q.afterNumber.None? {
      var start := Max(0, |all| - limit);
      return PublicResponse(Revision(log), |all|, start, all[start..], None, false, None);
    }
    var comments, hasMore := TakeAbove(all, q.afterNumber.value, limit);
    var next: Option<nat> := if hasMore then Some(comments[|comments| - 1].number) else None;
    r := PublicResponse(Revision(log), |all|, 0, comments, next, hasMore, None);
  }

  lemma {:induction false} ShownIsNumberedAll(log: Log, target: string)
    requires WellFormed(log)
    ensures Projectable(Shown(log, target)) && Numbered(Visible(Shown(log, target)))
  {
    ApprovedProjectable(log);
    FilterThenNumber(ApprovedOf(log), target);
    forall k | 0 <= k < |Shown(log, target)| ensures Visible(Shown(log, target))[k].number == k + 1 {
      ShownNumbers(ApprovedOf(log), target, k);
    }
  }

  predicate Numbered(all: seq<VisibleComment>) {
    forall k :: 0 <= k < |all| ==> all[k].number == k + 1
  }

  method ShownComments(log: Log, target: string) returns (r: seq<Comment>)
    ensures r == Shown(log, target)
  {
    r := [];
    for i := 0 to |log|
      invariant r == Shown(log[..i], target)
    {
      ShownSnoc(log[..i + 1], target);
      assert log[..i + 1][..i] == log[..i];
      if log[i].status == Approved && log[i].target == target { r := r + [View(log[i])]; }
    }
    assert log[..|log|] == log;
  }

  /** Up to `limit` comments numbered above `after`, found by looking at every number. */
  method TakeAbove(all: seq<VisibleComment>, after: nat, limit: nat) returns (out: seq<VisibleComment>, hasMore: bool)
    requires Numbered(all) && 0 < limit
    ensures var from := Min(after, |all|);
            var to := Min(from + limit, |all|);
            && out == all[from..to] && (hasMore <==> to < |all|)
            && (hasMore ==> out != [] && out[|out| - 1].number == to)
  {
    out, hasMore := [], false;
    for i := 0 to |all|
      invariant |out| <= limit && out == TakenTo(all, after, i) && !hasMore
    {
      TakenNext(all, after, i);
      if all[i].number > after {
        if |out| == limit { return out, true; }
        out := out + [all[i]];
      }
    }
  }

  /** Those numbered above `after` among the first `i`. */
  function TakenTo(all: seq<VisibleComment>, after: nat, i: nat): (r: seq<VisibleComment>)
    requires i <= |all|
    ensures |r| == i - Min(after, i)
  {
    all[Min(after, i)..i]
  }

  lemma {:induction false} TakenNext(all: seq<VisibleComment>, after: nat, i: nat)
    requires Numbered(all) && i < |all|
    ensures all[i].number > after <==> after <= i
    ensures TakenTo(all, after, i + 1) == TakenTo(all, after, i) + if after <= i then [all[i]] else []
    ensures TakenTo(all, after, i) != [] ==> TakenTo(all, after, i)[|TakenTo(all, after, i)| - 1].number == i
  {
  }

  /** Every comment shown under `target`, page after page from number `after`. */
  function FollowPages(log: Log, target: string, after: nat, limit: nat): seq<VisibleComment>
    requires Projectable(Shown(log, target)) && 0 < limit
    decreases |Shown(log, target)| - after
  {
    var page := PublicPage(log, PublicQuery(target, Some(after), Some(limit), Some(Revision(log))), limit);
    if page.nextAfter.None? then page.comments
    else page.comments + FollowPages(log, target, page.nextAfter.value, limit)
  }

  /** Following the cursor from 0 at one revision lists each comment once, in order. */
  lemma {:induction false} PagesCoverAll(log: Log, target: string, after: nat, limit: nat)
    requires Projectable(Shown(log, target)) && 0 < limit && after <= |Shown(log, target)|
    ensures FollowPages(log, target, after, limit) == Visible(Shown(log, target))[after..]
    decreases |Shown(log, target)| - after
  {
    var all := Visible(Shown(log, target));
    var to := Min(after + limit, |all|);
    if to < |all| { PagesCoverAll(log, target, to, limit); }
    SplitRest(all, after, to);
  }

  lemma {:induction false} SplitRest(all: seq<VisibleComment>, from: nat, to: nat)
    requires from <= to <= |all|
    ensures all[from..] == all[from..to] + all[to..]
    ensures to == |all| ==> all[from..to] == all[from..]
  {
  }
}
