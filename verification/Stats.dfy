/** The statistics store: counters per target and per article, and the visitors of
    each target, changed by all-or-nothing batches. */
module Stats {
  import opened Common
  import opened ContentModel
  import opened Text

  const MAX_BATCH_EVENTS := 256
  const MAX_ARTICLE_KEY_LEN := 512

  datatype Source = Terminal | Static

  /** `ip` is the canonical address, or None if the text is not an address. */
  datatype Event = Event(source: Source, target: string, article: string, ip: Option<string>)

  type ArticleKey = (string, string, Source)

  /** The three tables. The visitor hash is taken as injective per target. */
  datatype Db = Db(totals: map<string, (nat, nat)>, articles: map<ArticleKey, nat>, visitors: set<(string, string)>)

  const EMPTY := Db(map[], map[], {})

  datatype RecordError = BadBatch | BadEvent | TargetOverflow | ArticleOverflow

  predicate ValidEvent(e: Event) {
    && e.article != "" && ByteLen(e.article) <= MAX_ARTICLE_KEY_LEN
    && ParseArticle(e.article + ".md").Some? && ParseArticle(e.article + ".md").value.key == e.article
    && FromTarget(e.target).Some?
    && FromTarget(e.target).value.directory == ParseArticle(e.article + ".md").value.directory
    && e.ip.Some?
  }

  // ---------------------------------------------------------------- one event

  function Total(db: Db, target: string, source: Source): nat {
    if target !in db.totals then 0 else if source.Terminal? then db.totals[target].0 else db.totals[target].1
  }

  function ArticleTotal(db: Db, key: ArticleKey): nat {
    if key in db.articles then db.articles[key] else 0
  }

  function IncrementTarget(db: Db, target: string, source: Source): Result<Db, RecordError> {
    var (terminal, static_) := (Total(db, target, Terminal), Total(db, target, Static));
    if source.Terminal? then
      if terminal + 1 > I64_MAX then Err(TargetOverflow)
      else Ok(db.(totals := db.totals[target := (terminal + 1, static_)]))
    else
      if static_ + 1 > I64_MAX then Err(TargetOverflow)
      else Ok(db.(totals := db.totals[target := (terminal, static_ + 1)]))
  }

  function IncrementArticle(db: Db, key: ArticleKey): Result<Db, RecordError> {
    var next := ArticleTotal(db, key) + 1;
    if next > I64_MAX then Err(ArticleOverflow) else Ok(db.(articles := db.articles[key := next]))
  }

  function Apply(db: Db, e: Event): Result<Db, RecordError>
    requires e.ip.Some?
  {
    match IncrementTarget(db, e.target, e.source)
    case Err(x) => Err(x)
    case Ok(d1) =>
      match IncrementArticle(d1, (e.target, e.article, e.source))
      case Err(x) => Err(x)
      case Ok(d2) => Ok(d2.(visitors := d2.visitors + {(e.target, e.ip.value)}))
  }

  predicate AllValid(events: seq<Event>) {
    forall k :: 0 <= k < |events| ==> ValidEvent(events[k])
  }

  /** A batch of events, one after the other; the first failure fails it. */
  function ApplyAll(db: Db, events: seq<Event>): Result<Db, RecordError>
    requires AllValid(events)
  {
    if events == [] then Ok(db)
    else
      var n := |events| - 1;
      match ApplyAll(db, events[..n])
      case Err(x) => Err(x)
      case Ok(d) => Apply(d, events[n])
  }

  class Store {
    var db: Db

    constructor ()
      ensures db == EMPTY
    {
      db := EMPTY;
    }

    /** A batch is recorded whole or not at all. */
    method RecordBatch(events: seq<Event>) returns (r: Result<nat, RecordError>)
      modifies this
      ensures events == [] || |events| > MAX_BATCH_EVENTS ==> r == Err(BadBatch)
      ensures 0 < |events| <= MAX_BATCH_EVENTS && !AllValid(events) ==> r == Err(BadEvent)
      ensures r.Err? ==> db == old(db)
      ensures 0 < |events| <= MAX_BATCH_EVENTS && AllValid(events) ==>
                match ApplyAll(old(db), events)
                case Ok(d) => r == Ok(|events|) && db == d
                case Err(x) => r == Err(x)
    {
      if events == [] || |events| > MAX_BATCH_EVENTS { return Err(BadBatch); }
      var valid := Validate(events);
      if !valid { return Err(BadEvent); }
      var transaction := RunBatch(db, events);
      if transaction.Err? { return Err(transaction.error); }
      db := transaction.value;
      r := Ok(|events|);
    }
  }

  /** The events of a batch, one after the other, in one transaction. */
  method RunBatch(db: Db, events: seq<Event>) returns (r: Result<Db, RecordError>)
    requires AllValid(events)
    ensures r == ApplyAll(db, events)
  {
    var transaction := db;
    for i := 0 to |events|
      invariant ApplyAll(db, events[..i]) == Ok(transaction)
    {
      assert events[..i + 1][..i] == events[..i];
      var next := Record(transaction, events[i]);
      if next.Err? {
        FailsForGood(db, events, events[..i + 1]);
        return Err(next.error);
      }
      transaction := next.value;
    }
    assert events[..|events|] == events;
    r := Ok(transaction);
  }

  /** One event inside the transaction. */
  method Record(transaction: Db, event: Event) returns (r: Result<Db, RecordError>)
    requires event.ip.Some?
    ensures r == Apply(transaction, event)
  {
    var d1 := IncrementTarget(transaction, event.target, event.source);
    if d1.Err? { return Err(d1.error); }
    var d2 := IncrementArticle(d1.value, (event.target, event.article, event.source));
    if d2.Err? { return Err(d2.error); }
    r := Ok(d2.value.(visitors := d2.value.visitors + {(event.target, event.ip.value)}));
  }

  method Validate(events: seq<Event>) returns (ok: bool)
    ensures ok <==> AllValid(events)
  {
    for i := 0 to |events|
      invariant AllValid(events[..i])
    {
      if !ValidEvent(events[i]) { return false; }
    }
    ok := true;
  }

  lemma {:induction false} FailsForGood(db: Db, events: seq<Event>, front: seq<Event>)
    requires AllValid(events) && AllValid(front) && front <= events && ApplyAll(db, front).Err?
    ensures ApplyAll(db, events) == ApplyAll(db, front)
    decreases |events|
  {
    if |front| == |events| {
      assert front == events;
    } else {
      FailsForGood(db, events[..|events| - 1], front);
    }
  }

  // ---------------------------------------------------------------- splitting

  /** Recording two batches one after the other is recording their concatenation. */
  lemma {:induction false} SplitBatch(db: Db, a: seq<Event>, b: seq<Event>)
    requires AllValid(a) && AllValid(b)
    ensures ApplyAll(db, a + b) ==
            match ApplyAll(db, a)
            case Err(x) => Err(x)
            case Ok(d) => ApplyAll(d, b)
  {
    if b == [] {
      assert a + b == a;
    } else {
      var n := |b| - 1;
      SplitBatch(db, a, b[..n]);
      assert (a + b)[..|a + b| - 1] == a + b[..n];
    }
  }

  // -------------------------------------------------------------- conservation

  ghost function Sum(m: map<ArticleKey, nat>): nat
    decreases |m|
  {
    if m == map[] then 0
    else
      var k :| k in m;
      Smaller(m, k);
      m[k] + Sum(m - {k})
  }

  lemma {:induction false} Smaller(m: map<ArticleKey, nat>, k: ArticleKey)
    requires k in m
    ensures |m - {k}| < |m|
  {
    assert (m - {k}).Keys == m.Keys - {k};
    assert |(m - {k}).Keys| < |m.Keys|;
  }

  /** The sum does not depend on the order of summation. */
  lemma {:induction false} SumWithout(m: map<ArticleKey, nat>, k: ArticleKey)
    requires k in m
    ensures Sum(m) == m[k] + Sum(m - {k})
    decreases |m|
  {
    var j :| j in m && Sum(m) == m[j] + Sum(m - {j});
    if j != k {
      Smaller(m, j);
      Smaller(m, k);
      SumWithout(m - {j}, k);
      SumWithout(m - {k}, j);
      assert m - {j} - {k} == m - {k} - {j};
    }
  }

  lemma {:induction false} SumUpdated(m: map<ArticleKey, nat>, k: ArticleKey, v: nat)
    ensures Sum(m[k := v]) + (if k in m then m[k] else 0) == Sum(m) + v
  {
    SumWithout(m[k := v], k);
    if k in m {
      SumWithout(m, k);
      assert m[k := v] - {k} == m - {k};
    } else {
      assert m[k := v] - {k} == m;
    }
  }

  lemma {:induction false} PartOfSum(m: map<ArticleKey, nat>, k: ArticleKey)
    requires k in m
    ensures m[k] <= Sum(m)
  {
    SumWithout(m, k);
  }

  /** One target's article counters of one source. */
  ghost function ArticlesOf(db: Db, target: string, source: Source): map<ArticleKey, nat> {
    map k | k in db.articles && k.0 == target && k.2 == source :: db.articles[k]
  }

  ghost function VisitorsOf(db: Db, target: string): set<(string, string)> {
    set v | v in db.visitors && v.0 == target
  }

  /** Every counter of a target is the sum of its article counters; visitors are
      never more than requests, and none only when there was no request. */
  ghost predicate SoundFor(db: Db, target: string) {
    var terminal, static_ := Total(db, target, Terminal), Total(db, target, Static);
    && terminal == Sum(ArticlesOf(db, target, Terminal)) && static_ == Sum(ArticlesOf(db, target, Static))
    && terminal <= I64_MAX && static_ <= I64_MAX
    && |VisitorsOf(db, target)| <= terminal + static_
    && (|VisitorsOf(db, target)| == 0 <==> terminal == 0 && static_ == 0)
  }

  lemma {:induction false} ArticleWithinTotal(db: Db, e: Event)
    requires SoundFor(db, e.target)
    ensures ArticleTotal(db, (e.target, e.article, e.source)) <= Total(db, e.target, e.source)
  {
    var key := (e.target, e.article, e.source);
    if key in db.articles { PartOfSum(ArticlesOf(db, e.target, e.source), key); }
  }

  /** The target's counter overflows first: an article's never does. */
  lemma {:induction false} NoArticleOverflow(db: Db, e: Event)
    requires e.ip.Some? && SoundFor(db, e.target)
    ensures Apply(db, e) != Err(ArticleOverflow)
    ensures Apply(db, e).Ok? <==> Total(db, e.target, e.source) < I64_MAX
  {
    ArticleWithinTotal(db, e);
  }

  lemma {:induction false} ApplyTotals(db: Db, e: Event, target: string, source: Source)
    requires e.ip.Some? && Apply(db, e).Ok?
    ensures var d := Apply(db, e).value;
            && Total(d, target, source) == Total(db, target, source) + (if target == e.target && source == e.source then 1 else 0)
            && Total(d, target, source) <= Max(I64_MAX, Total(db, target, source))
  {
  }

  lemma {:induction false} ApplyArticles(db: Db, e: Event, target: string, source: Source)
    requires e.ip.Some? && Apply(db, e).Ok?
    ensures var d := Apply(db, e).value;
            Sum(ArticlesOf(d, target, source)) ==
            Sum(ArticlesOf(db, target, source)) + if target == e.target && source == e.source then 1 else 0
  {
    var d, key := Apply(db, e).value, (e.target, e.article, e.source);
    var before, after := ArticlesOf(db, target, source), ArticlesOf(d, target, source);
    if target == e.target && source == e.source {
      assert after == before[key := ArticleTotal(db, key) + 1];
      SumUpdated(before, key, ArticleTotal(db, key) + 1);
    } else {
      assert after == before;
    }
  }

  lemma {:induction false} ApplyVisitors(db: Db, e: Event, target: string)
    requires e.ip.Some? && Apply(db, e).Ok?
    ensures var before, after := VisitorsOf(db, target), VisitorsOf(Apply(db, e).value, target);
            if target == e.target then after != {} && |before| <= |after| <= |before| + 1 else after == before
  {
    var before, after := VisitorsOf(db, target), VisitorsOf(Apply(db, e).value, target);
    var v := (e.target, e.ip.value);
    if target == e.target {
      assert after == before + {v};
      assert v in before ==> after == before;
    } else {
      assert after == before;
    }
  }

  lemma {:induction false} ApplySound(db: Db, e: Event, target: string)
    requires e.ip.Some? && Apply(db, e).Ok? && SoundFor(db, target)
    ensures SoundFor(Apply(db, e).value, target)
  {
    ApplyTotals(db, e, target, Terminal);
    ApplyTotals(db, e, target, Static);
    ApplyArticles(db, e, target, Terminal);
    ApplyArticles(db, e, target, Static);
    ApplyVisitors(db, e, target);
  }

  /** From an empty database: every target stays sound over any events, batched in
      any way, and "article counter overflow" never happens. */
  lemma {:induction false} RecordedIsSound(events: seq<Event>, target: string)
    requires AllValid(events)
    ensures ApplyAll(EMPTY, events) != Err(ArticleOverflow)
    ensures ApplyAll(EMPTY, events).Ok? ==> SoundFor(ApplyAll(EMPTY, events).value, target)
  {
    if events == [] {
      assert ArticlesOf(EMPTY, target, Terminal) == map[] && ArticlesOf(EMPTY, target, Static) == map[];
    } else {
      var n := |events| - 1;
      RecordedIsSound(events[..n], target);
      var r := ApplyAll(EMPTY, events[..n]);
      if r.Ok? {
        RecordedIsSound(events[..n], events[n].target);
        NoArticleOverflow(r.value, events[n]);
        if Apply(r.value, events[n]).Ok? { ApplySound(r.value, events[n], target); }
      }
    }
  }

  // --------------------------------------------------------- what is counted

  function CountTarget(events: seq<Event>, target: string, source: Source): nat {
    if events == [] then 0
    else
      var e := events[|events| - 1];
      CountTarget(events[..|events| - 1], target, source) + if e.target == target && e.source == source then 1 else 0
  }

  function CountArticle(events: seq<Event>, key: ArticleKey): nat {
    if events == [] then 0
    else
      var e := events[|events| - 1];
      CountArticle(events[..|events| - 1], key) + if (e.target, e.article, e.source) == key then 1 else 0
  }

  ghost predicate Came(events: seq<Event>, visitor: (string, string)) {
    exists k :: 0 <= k < |events| && events[k].ip.Some? && (events[k].target, events[k].ip.value) == visitor
  }

  /** The tables hold exactly what the recorded events say. */
  lemma {:induction false} TablesCount(events: seq<Event>, target: string, source: Source, key: ArticleKey, visitor: (string, string))
    requires AllValid(events) && ApplyAll(EMPTY, events).Ok?
    ensures var db := ApplyAll(EMPTY, events).value;
            && Total(db, target, source) == CountTarget(events, target, source)
            && ArticleTotal(db, key) == CountArticle(events, key)
            && (visitor in db.visitors <==> Came(events, visitor))
  {
    if events != [] {
      var n := |events| - 1;
      var before, e := events[..n], events[n];
      TablesCount(before, target, source, key, visitor);
      var db := ApplyAll(EMPTY, before).value;
      ApplyTotals(db, e, target, source);
      CameGrows(events, visitor);
    }
  }

  lemma {:induction false} CameGrows(events: seq<Event>, visitor: (string, string))
    requires events != []
    ensures var n := |events| - 1;
            Came(events, visitor) <==>
              Came(events[..n], visitor) || (events[n].ip.Some? && (events[n].target, events[n].ip.value) == visitor)
  {
    var n := |events| - 1;
    if Came(events[..n], visitor) {
      var k :| 0 <= k < n && events[..n][k].ip.Some? && (events[..n][k].target, events[..n][k].ip.value) == visitor;
      assert events[k] == events[..n][k];
    }
    if Came(events, visitor) {
      var k :| 0 <= k < |events| && events[k].ip.Some? && (events[k].target, events[k].ip.value) == visitor;
      if k < n { assert events[..n][k] == events[k]; }
    }
  }
}
