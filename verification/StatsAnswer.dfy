/** statd's check of a request and its answer, and jaild's check and print of the
    answer. */
module StatsAnswer {
  import opened Common
  import opened ContentModel
  import opened Stats
  import opened StatsHandshake
  import opened Text
  import opened Sorting
  import Comments

  // -------------------------------------------------------- statd's two loops

  /** One target's articles, counted on top of those before it. */
  method ValidateArticles(articles: seq<string>, directory: string, before: nat) returns (ok: bool, count: nat)
    requires before <= MAX_SNAPSHOT_ARTICLES
    ensures ok <==> ArticlesOk(articles, directory) && before + |articles| <= MAX_SNAPSHOT_ARTICLES
    ensures ok ==> count == before + |articles|
  {
    var seen: set<string> := {};
    ok, count := true, before;
    for i := 0 to |articles|
      invariant ok && count == before + i && count <= MAX_SNAPSHOT_ARTICLES
      invariant seen == Elements(articles[..i]) && Distinct(articles[..i])
      invariant forall k :: 0 <= k < i ==> KeyFits(articles[k]) && InDirectory(articles[k], directory)
    {
      var key := articles[i];
      count := count + 1;
      if count > MAX_SNAPSHOT_ARTICLES { return false, count; }
      if key == "" || !KeyFits(key) { return false, count; }
      if !InDirectory(key, directory) { return false, count; }
      DistinctNext(articles, i);
      if key in seen { return false, count; }
      seen := seen + {key};
    }
    assert articles[..|articles|] == articles;
  }

  function AskedTo(request: seq<TargetRequest>, n: nat): set<string>
    requires n <= |request|
  {
    if n == 0 then {} else AskedTo(request, n - 1) + {request[n - 1].target}
  }

  predicate FineTo(request: seq<TargetRequest>, n: nat, ok: TargetRequest -> bool)
    requires n <= |request|
  {
    n == 0 || (FineTo(request, n - 1, ok) && ok(request[n - 1]) && request[n - 1].target !in AskedTo(request, n - 1))
  }

  lemma {:induction false} AskedBefore(request: seq<TargetRequest>, n: nat, target: string)
    requires n <= |request|
    ensures target in AskedTo(request, n) <==> exists k :: 0 <= k < n && request[k].target == target
  {
    if n > 0 {
      AskedBefore(request, n - 1, target);
      if target in AskedTo(request, n - 1) { var k :| 0 <= k < n - 1 && request[k].target == target; }
    }
  }

  lemma {:induction false} FineAll(request: seq<TargetRequest>, n: nat, ok: TargetRequest -> bool)
    requires n <= |request| && FineTo(request, n, ok)
    ensures forall k :: 0 <= k < n ==> ok(request[k])
    ensures forall j, k :: 0 <= j < k < n ==> request[j].target != request[k].target
  {
    if n > 0 {
      FineAll(request, n - 1, ok);
      AskedBefore(request, n - 1, request[n - 1].target);
    }
  }

  lemma {:induction false} FinePrefix(request: seq<TargetRequest>, n: nat, m: nat, ok: TargetRequest -> bool)
    requires n <= m <= |request| && FineTo(request, m, ok)
    ensures FineTo(request, n, ok)
    decreases m
  {
    if n < m { FinePrefix(request, n, m - 1, ok); }
  }

  lemma {:induction false} AllFine(request: seq<TargetRequest>, n: nat, ok: TargetRequest -> bool)
    requires n <= |request|
    requires forall k :: 0 <= k < n ==> ok(request[k])
    requires forall j, k :: 0 <= j < k < n ==> request[j].target != request[k].target
    ensures FineTo(request, n, ok)
  {
    if n > 0 {
      AllFine(request, n - 1, ok);
      AskedBefore(request, n - 1, request[n - 1].target);
    }
  }

  /** What the loop over the targets establishes. */
  predicate Passes(request: seq<TargetRequest>, ok: TargetRequest -> bool) {
    ArticleCount(request, |request|) <= MAX_SNAPSHOT_ARTICLES && FineTo(request, |request|, ok)
  }

  lemma {:induction false} PassesIff(request: seq<TargetRequest>)
    ensures RequestOk(request) <==> |request| <= MAX_SNAPSHOT_TARGETS && Passes(request, TargetOk)
  {
    if FineTo(request, |request|, TargetOk) { FineAll(request, |request|, TargetOk); }
    if RequestOk(request) {
      forall j, k | 0 <= j < k < |request| ensures request[j].target != request[k].target {
        assert Asked(request)[j] != Asked(request)[k];
      }
      AllFine(request, |request|, TargetOk);
    }
  }

  lemma {:induction false} StopsAt(request: seq<TargetRequest>, i: nat, ok: TargetRequest -> bool)
    requires i < |request|
    requires !ok(request[i]) || ArticleCount(request, i + 1) > MAX_SNAPSHOT_ARTICLES || request[i].target in AskedTo(request, i)
    ensures !Passes(request, ok)
  {
    CountGrows(request, i + 1, |request|);
    if Passes(request, ok) { FinePrefix(request, i + 1, |request|, ok); }
  }

  method ValidateTarget(t: TargetRequest, before: nat) returns (ok: bool, count: nat)
    requires before <= MAX_SNAPSHOT_ARTICLES
    ensures ok <==> TargetOk(t) && before + |t.articles| <= MAX_SNAPSHOT_ARTICLES
    ensures ok ==> count == before + |t.articles|
  {
    var scope := FromTarget(t.target);
    if scope.None? { return false, before; }
    ok, count := ValidateArticles(t.articles, scope.value.directory, before);
  }

  /** `fine` names the check of each target of the request. */
  ghost predicate NamesCheck(request: seq<TargetRequest>, fine: TargetRequest -> bool, n: nat)
    requires n <= |request|
  {
    n == 0 || (NamesCheck(request, fine, n - 1) && (fine(request[n - 1]) <==> TargetOk(request[n - 1])))
  }

  lemma {:induction false} NamedCheck(request: seq<TargetRequest>, fine: TargetRequest -> bool, n: nat, i: nat)
    requires i < n <= |request| && NamesCheck(request, fine, n)
    ensures fine(request[i]) <==> TargetOk(request[i])
  {
    if i < n - 1 { NamedCheck(request, fine, n - 1, i); }
  }

  lemma {:induction false} NamesTargetOk(request: seq<TargetRequest>, n: nat)
    requires n <= |request|
    ensures NamesCheck(request, TargetOk, n)
  {
    if n > 0 { NamesTargetOk(request, n - 1); }
  }

  method ValidateTargets(request: seq<TargetRequest>, ghost fine: TargetRequest -> bool) returns (ok: bool)
    requires NamesCheck(request, fine, |request|)
    ensures ok <==> Passes(request, fine)
  {
    var seen: set<string> := {};
    var count: nat := 0;
    for i := 0 to |request|
      invariant seen == AskedTo(request, i) && FineTo(request, i, fine)
      invariant count == ArticleCount(request, i) <= MAX_SNAPSHOT_ARTICLES
    {
      ok, count := ValidateNext(request, i, seen, count, fine);
      if !ok { return false; }
      seen := seen + {request[i].target};
    }
    ok := true;
  }

  method ValidateNext(request: seq<TargetRequest>, i: nat, seen: set<string>, before: nat, ghost fine: TargetRequest -> bool)
    returns (ok: bool, count: nat)
    requires i < |request| && NamesCheck(request, fine, |request|)
    requires seen == AskedTo(request, i) && FineTo(request, i, fine) && before == ArticleCount(request, i) <= MAX_SNAPSHOT_ARTICLES
    ensures ok ==> FineTo(request, i + 1, fine) && AskedTo(request, i + 1) == seen + {request[i].target}
    ensures ok ==> count == ArticleCount(request, i + 1) <= MAX_SNAPSHOT_ARTICLES
    ensures !ok ==> !Passes(request, fine)
  {
    NamedCheck(request, fine, |request|, i);
    ok, count := ValidateTarget(request[i], before);
    if !ok || request[i].target in seen {
      StopsAt(request, i, fine);
      return false, count;
    }
    FineNext(request, i, fine);
  }

  lemma {:induction false} FineNext(request: seq<TargetRequest>, i: nat, ok: TargetRequest -> bool)
    requires i < |request| && FineTo(request, i, ok) && ok(request[i]) && request[i].target !in AskedTo(request, i)
    ensures FineTo(request, i + 1, ok) && AskedTo(request, i + 1) == AskedTo(request, i) + {request[i].target}
    ensures ArticleCount(request, i + 1) == ArticleCount(request, i) + |request[i].articles|
  {
  }

  /** statd accepts exactly the well-formed requests. */
  method ValidateRequest(request: seq<TargetRequest>) returns (ok: bool)
    ensures ok <==> RequestOk(request)
  {
    PassesIff(request);
    if |request| > MAX_SNAPSHOT_TARGETS { return false; }
    NamesTargetOk(request, |request|);
    ok := ValidateTargets(request, TargetOk);
  }

  /** What jaild builds passes statd's check exactly when the keys it asks for are
      not too long: everything else statd checks, jaild's own inputs guarantee. */
  lemma {:induction false} BuiltRequestAccepted(index: seq<IndexEntry>, scopes: seq<ContentScope>,
                                                groups: map<string, seq<string>>)
    requires IndexOk(index) && ScopesOk(scopes) && SortedGroups(groups, index, scopes)
    requires HasGroups(scopes, groups) && BuildRequest(scopes, groups).Some?
    ensures RequestOk(BuildRequest(scopes, groups).value)
            <==> forall k, j :: 0 <= k < |scopes| && 0 <= j < |groups[scopes[k].target]| ==> KeyFits(groups[scopes[k].target][j])
  {
    var request := BuildRequest(scopes, groups).value;
    assert Distinct(Asked(request));
    forall k | 0 <= k < |scopes|
      ensures request[k].target == scopes[k].target && request[k].articles == groups[scopes[k].target]
      ensures TargetOk(request[k]) <==> forall j :: 0 <= j < |request[k].articles| ==> KeyFits(request[k].articles[j])
    {
      BuiltTarget(index, scopes[k], request[k]);
    }
  }

  lemma {:induction false} BuiltTarget(index: seq<IndexEntry>, scope: ContentScope, t: TargetRequest)
    requires IndexOk(index) && FromTarget(t.target) == Some(scope)
    requires t.articles == SortBy(KeysTo(index, |index|, scope.directory), Itself)
    ensures TargetOk(t) <==> forall j :: 0 <= j < |t.articles| ==> KeyFits(t.articles[j])
  {
    var keys := KeysTo(index, |index|, scope.directory);
    KeysApart(index, |index|, scope.directory);
    SortPermutes(keys, Itself);
    DistinctReordered(keys, t.articles);
    forall j | 0 <= j < |t.articles| ensures InDirectory(t.articles[j], scope.directory) { assert t.articles[j] in keys; }
  }

  /** The keys of a directory are distinct and lie in it. */
  lemma {:induction false} KeysApart(index: seq<IndexEntry>, n: nat, directory: string)
    requires n <= |index| && IndexOk(index)
    ensures Distinct(KeysTo(index, n, directory))
    ensures forall j :: 0 <= j < |KeysTo(index, n, directory)| ==>
              InDirectory(KeysTo(index, n, directory)[j], directory)
              && exists k :: 0 <= k < n && index[k].key == KeysTo(index, n, directory)[j]
  {
    if n > 0 {
      KeysApart(index, n - 1, directory);
      EntryKey(index[n - 1]);
      forall k | 0 <= k < n - 1 ensures index[k].key != index[n - 1].key {
        EntryKey(index[k]);
        assert index[k].sourceRel != index[n - 1].sourceRel;
      }
    }
  }

  lemma {:induction false} EntryKey(e: IndexEntry)
    requires EntryOk(e)
    ensures e.sourceRel == e.key + ".md" && InDirectory(e.key, DirectoryOf(e.key))
  {
  }

  // -------------------------------------------------------------- the answer

  function Visitors(db: Db, target: string): nat {
    |set v | v in db.visitors && v.0 == target|
  }

  function ArticleAnswer(db: Db, target: string, key: string): ArticleSnapshot {
    ArticleSnapshot(key, ArticleTotal(db, (target, key, Terminal)), ArticleTotal(db, (target, key, Static)))
  }

  predicate TargetAnswer(db: Db, t: TargetRequest, a: TargetSnapshot) {
    && a.target == t.target
    && a.terminal == Total(db, t.target, Terminal) && a.static_ == Total(db, t.target, Static)
    && a.visitors == Visitors(db, t.target)
    && |a.articles| == |t.articles|
    && forall k :: 0 <= k < |t.articles| ==> a.articles[k] == ArticleAnswer(db, t.target, t.articles[k])
  }

  predicate IsAnswer(db: Db, request: seq<TargetRequest>, response: seq<TargetSnapshot>) {
    |response| == |request| && forall k :: 0 <= k < |request| ==> TargetAnswer(db, request[k], response[k])
  }

  function AskedTarget(t: TargetRequest): string { t.target }

  /** The request as statd answers it: targets sorted, and each target's articles. */
  function SortedRequest(request: seq<TargetRequest>): seq<TargetRequest> {
    SortBy(seq(|request|, k requires 0 <= k < |request| => request[k].(articles := SortBy(request[k].articles, Itself))), AskedTarget)
  }

  lemma {:induction false} RequestReordered(request: seq<TargetRequest>)
    requires Distinct(Asked(request))
    ensures Reordered(request, SortedRequest(request))
  {
    var inner := seq(|request|, k requires 0 <= k < |request| => request[k].(articles := SortBy(request[k].articles, Itself)));
    var sorted := SortedRequest(request);
    SortPermutes(inner, AskedTarget);
    forall j, k | 0 <= j < k < |inner| ensures AskedTarget(inner[j]) != AskedTarget(inner[k]) {
      assert Asked(request)[j] != Asked(request)[k];
    }
    SortKeeps(inner, AskedTarget, AskedTarget);
    forall j, k | 0 <= j < k < |sorted| ensures Asked(sorted)[j] != Asked(sorted)[k] {
      assert AskedTarget(sorted[j]) != AskedTarget(sorted[k]);
    }
    forall k | 0 <= k < |sorted| ensures Among(request, sorted[k]) {
      assert sorted[k] in inner;
      var j :| 0 <= j < |inner| && inner[j] == sorted[k];
      SortPermutes(request[j].articles, Itself);
    }
  }

  /** One request is another in some order; it does not matter to jaild. */
  predicate Reordered(request: seq<TargetRequest>, sorted: seq<TargetRequest>) {
    && |sorted| == |request| && Distinct(Asked(sorted))
    && forall k :: 0 <= k < |sorted| ==> Among(request, sorted[k])
  }

  predicate Among(request: seq<TargetRequest>, t: TargetRequest) {
    exists j :: 0 <= j < |request| && request[j].target == t.target && multiset(request[j].articles) == multiset(t.articles)
  }

  method AnswerTarget(db: Db, t: TargetRequest) returns (a: TargetSnapshot)
    ensures TargetAnswer(db, t, a)
  {
    var articles: seq<ArticleSnapshot> := [];
    for i := 0 to |t.articles|
      invariant |articles| == i
      invariant forall k :: 0 <= k < i ==> articles[k] == ArticleAnswer(db, t.target, t.articles[k])
    {
      articles := articles + [ArticleAnswer(db, t.target, t.articles[i])];
    }
    a := TargetSnapshot(t.target, Total(db, t.target, Terminal), Total(db, t.target, Static), Visitors(db, t.target), articles);
  }

  /** What statd sends back: the counters as of `at`, or an error. */
  datatype Response = Response(ok: bool, error: Option<string>, at: Comments.Stamp, targets: seq<TargetSnapshot>)

  predicate Successful(response: Response) { response.ok && response.error.None? && response.at.seconds.Some? }

  /** A snapshot: refused exactly when the request is malformed. */
  method Snapshot(db: Db, request: seq<TargetRequest>, now: Comments.Stamp) returns (r: Option<Response>)
    requires now.seconds.Some?
    ensures r.Some? <==> RequestOk(request)
    ensures r.Some? ==> Successful(r.value) && r.value.at == now
    ensures r.Some? ==> IsAnswer(db, SortedRequest(request), r.value.targets) && ResponseOk(request, r.value.targets)
  {
    var ok := ValidateRequest(request);
    if !ok { return None; }
    var targets := AnswerAll(db, SortedRequest(request));
    RequestReordered(request);
    AnswerAccepted(db, request, SortedRequest(request), targets);
    r := Some(Response(true, None, now, targets));
  }

  method AnswerAll(db: Db, sorted: seq<TargetRequest>) returns (response: seq<TargetSnapshot>)
    ensures IsAnswer(db, sorted, response)
  {
    response := [];
    for i := 0 to |sorted|
      invariant |response| == i
      invariant forall k :: 0 <= k < i ==> TargetAnswer(db, sorted[k], response[k])
    {
      var a := AnswerTarget(db, sorted[i]);
      response := response + [a];
    }
  }

  // ------------------------------------------------------------ jaild's check

  function Answered(response: seq<TargetSnapshot>): (r: seq<string>)
    ensures |r| == |response| && forall k :: 0 <= k < |r| ==> r[k] == response[k].target
  {
    seq(|response|, k requires 0 <= k < |response| => response[k].target)
  }

  function Names(articles: seq<ArticleSnapshot>): (r: seq<string>)
    ensures |r| == |articles| && forall k :: 0 <= k < |r| ==> r[k] == articles[k].article
  {
    seq(|articles|, k requires 0 <= k < |articles| => articles[k].article)
  }

  /** An answer about a target that was asked for, with exactly its articles. */
  predicate Fits(request: seq<TargetRequest>, a: TargetSnapshot) {
    && Distinct(Names(a.articles))
    && exists j :: 0 <= j < |request| && request[j].target == a.target && Elements(Names(a.articles)) == Elements(request[j].articles)
  }

  predicate ResponseOk(request: seq<TargetRequest>, response: seq<TargetSnapshot>) {
    && Distinct(Asked(request)) && |response| == |request| && Distinct(Answered(response))
    && forall k :: 0 <= k < |response| ==> Fits(request, response[k])
  }

  /** The article set expected of each target. */
  method Expected(request: seq<TargetRequest>) returns (expected: map<string, set<string>>)
    ensures expected.Keys == Elements(Asked(request))
    ensures Distinct(Asked(request)) ==>
              forall j :: 0 <= j < |request| ==> expected[request[j].target] == Elements(request[j].articles)
  {
    expected := map[];
    for i := 0 to |request|
      invariant expected.Keys == Elements(Asked(request)[..i])
      invariant Distinct(Asked(request)) ==>
                  forall j :: 0 <= j < i ==> request[j].target in expected && expected[request[j].target] == Elements(request[j].articles)
    {
      DistinctNext(Asked(request), i);
      assert Distinct(Asked(request)) ==> forall j :: 0 <= j < i ==> Asked(request)[j] != Asked(request)[i];
      expected := expected[request[i].target := Elements(request[i].articles)];
    }
    assert Asked(request)[..|request|] == Asked(request);
  }

  /** What one turn of jaild's loop checks, in its own terms. */
  lemma {:induction false} FitsExpected(request: seq<TargetRequest>, expected: map<string, set<string>>, a: TargetSnapshot)
    requires Distinct(Asked(request)) && expected.Keys == Elements(Asked(request))
    requires forall j :: 0 <= j < |request| ==> request[j].target in expected && expected[request[j].target] == Elements(request[j].articles)
    ensures Fits(request, a) <==>
            a.target in expected && |Elements(Names(a.articles))| == |a.articles| && Elements(Names(a.articles)) == expected[a.target]
  {
    DistinctSize(Names(a.articles));
    if a.target in expected {
      assert a.target in Asked(request);
      var j :| 0 <= j < |request| && Asked(request)[j] == a.target;
      assert expected[request[j].target] == Elements(request[j].articles);
    }
  }

  /** jaild accepts exactly the successful answers to its request. */
  method ValidateResponse(request: seq<TargetRequest>, response: Response) returns (ok: bool)
    ensures ok <==> Successful(response) && ResponseOk(request, response.targets)
  {
    if !response.ok || response.error.Some? { return false; }
    if response.at.seconds.None? { return false; }
    ok := ValidateTargetSet(request, response.targets);
  }

  method ValidateTargetSet(request: seq<TargetRequest>, response: seq<TargetSnapshot>) returns (ok: bool)
    ensures ok <==> ResponseOk(request, response)
  {
    var expected := Expected(request);
    DistinctSize(Asked(request));
    assert |expected| == |expected.Keys|;
    if |expected| != |request| || |response| != |expected| { return false; }
    var seen: set<string> := {};
    for i := 0 to |response|
      invariant seen == Elements(Answered(response)[..i]) && Distinct(Answered(response)[..i])
      invariant forall k :: 0 <= k < i ==> Fits(request, response[k])
    {
      var a := response[i];
      FitsExpected(request, expected, a);
      if a.target !in expected { return false; }
      DistinctNext(Answered(response), i);
      if a.target in seen { return false; }
      seen := seen + {a.target};
      var actual := Elements(Names(a.articles));
      if |actual| != |a.articles| || actual != expected[a.target] { return false; }
    }
    assert Answered(response)[..|response|] == Answered(response);
    ok := true;
  }

  /** Every answer statd gives to an accepted request passes jaild's check. */
  lemma {:induction false} AnswerAccepted(db: Db, request: seq<TargetRequest>, sorted: seq<TargetRequest>,
                                          response: seq<TargetSnapshot>)
    requires RequestOk(request) && Reordered(request, sorted) && IsAnswer(db, sorted, response)
    ensures ResponseOk(request, response)
  {
    forall k | 0 <= k < |response| ensures response[k].target == Asked(sorted)[k] && Fits(request, response[k]) {
      AnswerFits(db, request, sorted[k], response[k]);
    }
  }

  lemma {:induction false} AnswerFits(db: Db, request: seq<TargetRequest>, t: TargetRequest, a: TargetSnapshot)
    requires forall j :: 0 <= j < |request| ==> Distinct(request[j].articles)
    requires Among(request, t) && TargetAnswer(db, t, a)
    ensures a.target == t.target && Fits(request, a)
  {
    var j :| 0 <= j < |request| && request[j].target == t.target && multiset(request[j].articles) == multiset(t.articles);
    DistinctReordered(request[j].articles, t.articles);
    assert Names(a.articles) == t.articles;
  }

  // ------------------------------------------------------------ jaild's print

  /** The article rows of a scope; None where the lookup would fail. */
  method ArticleRows(keys: seq<string>, articles: seq<ArticleSnapshot>) returns (rows: Option<seq<ArticleSnapshot>>)
    ensures rows.Some? <==> forall k :: 0 <= k < |keys| ==> keys[k] in Elements(Names(articles))
    ensures rows.Some? ==> |rows.value| == |keys|
    ensures rows.Some? ==> forall k :: 0 <= k < |keys| ==> rows.value[k] in articles && rows.value[k].article == keys[k]
  {
    var byArticle := Table(articles);
    TableKeys(articles);
    var out: seq<ArticleSnapshot> := [];
    for i := 0 to |keys|
      invariant |out| == i
      invariant forall k :: 0 <= k < i ==> keys[k] in byArticle && out[k] in articles && out[k].article == keys[k]
    {
      if keys[i] !in byArticle { return None; }
      out := out + [byArticle[keys[i]]];
    }
    rows := Some(out);
  }

  /** Rows by article name. */
  function Table(articles: seq<ArticleSnapshot>): (table: map<string, ArticleSnapshot>)
    ensures forall key :: key in table ==> table[key] in articles && table[key].article == key
  {
    if articles == [] then map[]
    else
      var n := |articles| - 1;
      Table(articles[..n])[articles[n].article := articles[n]]
  }

  lemma {:induction false} TableKeys(articles: seq<ArticleSnapshot>)
    ensures Table(articles).Keys == Elements(Names(articles))
  {
    if articles != [] {
      var n := |articles| - 1;
      TableKeys(articles[..n]);
      assert Names(articles) == Names(articles[..n]) + [articles[n].article];
      assert Elements(Names(articles)) == Elements(Names(articles[..n])) + {articles[n].article};
    }
  }

  /** The answer about `target`, found by walking the response. */
  function Lookup(response: seq<TargetSnapshot>, target: string): (r: Option<TargetSnapshot>)
    ensures r.Some? ==> r.value in response && r.value.target == target
    ensures r.None? ==> forall a :: a in response ==> a.target != target
  {
    if response == [] then None
    else if response[0].target == target then Some(response[0])
    else Lookup(response[1..], target)
  }

  /** For any answer jaild accepted, every scope finds its answer and every one of
      its articles finds its row: the lookup while printing cannot fail. */
  lemma {:induction false} RowsNeverMissing(scopes: seq<ContentScope>, groups: map<string, seq<string>>,
                                            response: seq<TargetSnapshot>, k: nat)
    requires HasGroups(scopes, groups) && ResponseOk(Ask(scopes, groups), response) && k < |scopes|
    ensures Lookup(response, scopes[k].target).Some?
    ensures Elements(Names(Lookup(response, scopes[k].target).value.articles)) == Elements(groups[scopes[k].target])
  {
    var request := Ask(scopes, groups);
    AllAnswered(request, response);
    assert Asked(request)[k] in Elements(Answered(response));
    var at :| 0 <= at < |response| && Answered(response)[at] == Asked(request)[k];
    var a := Lookup(response, scopes[k].target).value;
    assert Fits(request, a);
    var j :| 0 <= j < |request| && request[j].target == a.target && Elements(Names(a.articles)) == Elements(request[j].articles);
  }

  /** As many distinct answers as distinct questions: every question is answered. */
  lemma {:induction false} AllAnswered(request: seq<TargetRequest>, response: seq<TargetSnapshot>)
    requires ResponseOk(request, response)
    ensures Elements(Answered(response)) == Elements(Asked(request))
  {
    var asked, answered := Elements(Asked(request)), Elements(Answered(response));
    DistinctSize(Asked(request));
    DistinctSize(Answered(response));
    forall x | x in answered ensures x in asked {
      var k :| 0 <= k < |response| && Answered(response)[k] == x;
      assert Fits(request, response[k]);
      var j :| 0 <= j < |request| && request[j].target == response[k].target
               && Elements(Names(response[k].articles)) == Elements(request[j].articles);
      assert Asked(request)[j] == x;
    }
    SameSize(answered, asked);
  }

  lemma {:induction false} SameSize(a: set<string>, b: set<string>)
    requires a <= b && |a| == |b|
    ensures a == b
  {
    assert b == a + (b - a);
    assert b - a == {};
  }

  // ------------------------------------------------- from the events to the print

  /** The addresses that came to a target. */
  ghost function Addresses(events: seq<Event>, target: string): set<string> {
    set e | e in events && e.target == target && e.ip.Some? :: e.ip.value
  }

  lemma {:induction false} VisitorsCame(events: seq<Event>, target: string)
    requires AllValid(events) && ApplyAll(EMPTY, events).Ok?
    ensures Visitors(ApplyAll(EMPTY, events).value, target) == |Addresses(events, target)|
  {
    var db := ApplyAll(EMPTY, events).value;
    var here := set v | v in db.visitors && v.0 == target;
    forall v: (string, string) ensures v in here <==> v.0 == target && v.1 in Addresses(events, target) {
      TablesCount(events, target, Terminal, (target, "", Terminal), v);
      if v.0 == target && v.1 in Addresses(events, target) {
        var e :| e in events && e.target == target && e.ip.Some? && e.ip.value == v.1;
        var k :| 0 <= k < |events| && events[k] == e;
        assert Came(events, v);
      }
    }
    PairsSize(here, target, Addresses(events, target));
  }

  lemma {:induction false} PairsSize(pairs: set<(string, string)>, first: string, seconds: set<string>)
    requires forall v: (string, string) :: v in pairs <==> v.0 == first && v.1 in seconds
    ensures |pairs| == |seconds|
    decreases |seconds|
  {
    if seconds == {} {
      if v :| v in pairs { assert v.1 in seconds; }
      assert pairs == {};
    } else {
      var x :| x in seconds;
      assert (first, x) in pairs;
      PairsSize(pairs - {(first, x)}, first, seconds - {x});
    }
  }

  /** An answer over any tables holds the target's two totals, and for each of its articles
      the counter of its terminal reads and that of its static requests. */
  lemma {:induction false} PrintedFromTables(db: Db, sorted: seq<TargetRequest>, response: seq<TargetSnapshot>,
                                             target: string, row: ArticleSnapshot)
    requires IsAnswer(db, sorted, response) && Lookup(response, target).Some?
    ensures Lookup(response, target).value.terminal == Total(db, target, Terminal)
    ensures Lookup(response, target).value.static_ == Total(db, target, Static)
    ensures Lookup(response, target).value.visitors == Visitors(db, target)
    ensures row in Lookup(response, target).value.articles ==>
              && row.terminal == ArticleTotal(db, (target, row.article, Terminal))
              && row.static_ == ArticleTotal(db, (target, row.article, Static))
  {
    var a := Lookup(response, target).value;
    var k :| 0 <= k < |response| && response[k] == a;
    assert TargetAnswer(db, sorted[k], a);
    if row in a.articles {
      var j :| 0 <= j < |a.articles| && a.articles[j] == row;
      assert a.articles[j] == ArticleAnswer(db, sorted[k].target, sorted[k].articles[j]);
    }
  }

  /** End to end: what the answer says of a target and of its articles, after any recorded
      events, are the numbers of those events, terminal reads and static requests apart,
      and the number of distinct addresses they came from. */
  lemma {:induction false} PrintedAreCounters(events: seq<Event>, sorted: seq<TargetRequest>, response: seq<TargetSnapshot>,
                                              target: string, row: ArticleSnapshot)
    requires AllValid(events) && ApplyAll(EMPTY, events).Ok?
    requires IsAnswer(ApplyAll(EMPTY, events).value, sorted, response) && Lookup(response, target).Some?
    ensures Lookup(response, target).value.terminal == CountTarget(events, target, Terminal)
    ensures Lookup(response, target).value.static_ == CountTarget(events, target, Static)
    ensures Lookup(response, target).value.visitors == |Addresses(events, target)|
    ensures row in Lookup(response, target).value.articles ==>
              && row.terminal == CountArticle(events, (target, row.article, Terminal))
              && row.static_ == CountArticle(events, (target, row.article, Static))
  {
    PrintedFromTables(ApplyAll(EMPTY, events).value, sorted, response, target, row);
    TablesCount(events, target, Terminal, (target, row.article, Terminal), (target, ""));
    TablesCount(events, target, Static, (target, row.article, Static), (target, ""));
    VisitorsCame(events, target);
  }
}
