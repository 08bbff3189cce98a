/** The exchange between jaild and statd: jaild asks for the counters of its
    scopes and articles, statd checks the request, jaild checks the answer and
    prints it. What one side builds, the other accepts. */
module StatsHandshake {
  import opened Common
  import opened ContentModel
  import opened Stats
  import opened Text
  import opened Sorting
  import Comments

  const MAX_SNAPSHOT_TARGETS := 256
  const MAX_SNAPSHOT_ARTICLES := 1024

  datatype IndexEntry = IndexEntry(date10: string, sourceRel: string, key: string, route: string, title: string)

  datatype TargetRequest = TargetRequest(target: string, articles: seq<string>)

  datatype ArticleSnapshot = ArticleSnapshot(article: string, terminal: nat, static_: nat)

  datatype TargetSnapshot = TargetSnapshot(target: string, terminal: nat, static_: nat, visitors: nat,
                                           articles: seq<ArticleSnapshot>)

  predicate Distinct(s: seq<string>) {
    forall j, k :: 0 <= j < k < |s| ==> s[j] != s[k]
  }

  /** A set built from a list is as large as the list exactly when nothing repeats. */
  lemma {:induction false} DistinctSize(s: seq<string>)
    ensures |Elements(s)| <= |s|
    ensures |Elements(s)| == |s| <==> Distinct(s)
  {
    if s != [] {
      var n := |s| - 1;
      var rest := s[..n];
      DistinctSize(rest);
      assert s == rest + [s[n]];
      assert Elements(s) == Elements(rest) + {s[n]};
      if s[n] in rest {
        assert Elements(s) == Elements(rest);
        var j :| 0 <= j < n && rest[j] == s[n];
        assert s[j] == s[n];
      } else {
        assert forall j :: 0 <= j < n ==> s[j] == rest[j];
        assert Distinct(s) <==> Distinct(rest);
      }
    }
  }

  /** Reordering a list keeps it free of repetitions. */
  lemma {:induction false} DistinctReordered(s: seq<string>, t: seq<string>)
    requires Distinct(s) && multiset(s) == multiset(t)
    ensures Distinct(t) && Elements(s) == Elements(t)
  {
    assert forall x :: x in s <==> x in multiset(s);
    assert forall x :: x in t <==> x in multiset(t);
    assert Elements(s) == Elements(t);
    DistinctSize(s);
    DistinctSize(t);
    assert |s| == |multiset(s)| && |t| == |multiset(t)|;
  }

  // ------------------------------------------------------------ jaild's inputs

  predicate EntryOk(e: IndexEntry) {
    var path := ParseArticle(e.sourceRel);
    && path.Some? && path.value.key == e.key && path.value.route == e.route
    && Comments.DateShaped(e.date10) && LineFree(e.title)
  }

  /** Every entry is the mapping of its source, dated and with a printable title, and no
      source comes twice. */
  predicate IndexOk(index: seq<IndexEntry>) {
    && (forall k :: 0 <= k < |index| ==> EntryOk(index[k]))
    && (forall j, k :: 0 <= j < k < |index| ==> index[j].sourceRel != index[k].sourceRel)
  }

  function SourcesTo(index: seq<IndexEntry>, n: nat): set<string>
    requires n <= |index|
  {
    if n == 0 then {} else SourcesTo(index, n - 1) + {index[n - 1].sourceRel}
  }

  function KeysAllTo(index: seq<IndexEntry>, n: nat): set<string>
    requires n <= |index|
  {
    if n == 0 then {} else KeysAllTo(index, n - 1) + {index[n - 1].key}
  }

  function RoutesTo(index: seq<IndexEntry>, n: nat): set<string>
    requires n <= |index|
  {
    if n == 0 then {} else RoutesTo(index, n - 1) + {index[n - 1].route}
  }

  predicate IndexOkTo(index: seq<IndexEntry>, n: nat)
    requires n <= |index|
  {
    n == 0 || (IndexOkTo(index, n - 1) && EntryOk(index[n - 1]) && index[n - 1].sourceRel !in SourcesTo(index, n - 1))
  }

  lemma {:induction false} SourceSeen(index: seq<IndexEntry>, n: nat, k: nat)
    requires k < n <= |index|
    ensures index[k].sourceRel in SourcesTo(index, n)
  {
    if k < n - 1 { SourceSeen(index, n - 1, k); }
  }

  lemma {:induction false} SeenSource(index: seq<IndexEntry>, n: nat, source: string) returns (k: nat)
    requires n <= |index| && source in SourcesTo(index, n)
    ensures k < n && index[k].sourceRel == source
  {
    if index[n - 1].sourceRel == source { k := n - 1; } else { k := SeenSource(index, n - 1, source); }
  }

  lemma {:induction false} OkFromTo(index: seq<IndexEntry>, n: nat)
    requires n <= |index| && IndexOkTo(index, n)
    ensures forall k :: 0 <= k < n ==> EntryOk(index[k])
    ensures forall j, k :: 0 <= j < k < n ==> index[j].sourceRel != index[k].sourceRel
  {
    if n > 0 {
      OkFromTo(index, n - 1);
      forall j | 0 <= j < n - 1 ensures index[j].sourceRel != index[n - 1].sourceRel { SourceSeen(index, n - 1, j); }
    }
  }

  lemma {:induction false} OkToFrom(index: seq<IndexEntry>, n: nat)
    requires n <= |index| && IndexOk(index)
    ensures IndexOkTo(index, n)
  {
    if n > 0 {
      OkToFrom(index, n - 1);
      if index[n - 1].sourceRel in SourcesTo(index, n - 1) {
        var k := SeenSource(index, n - 1, index[n - 1].sourceRel);
        assert false;
      }
    }
  }

  /** A repeated key or route is a repeated source, so the three sets decide alike. */
  lemma {:induction false} OneSourceEach(index: seq<IndexEntry>, n: nat, e: IndexEntry)
    requires n <= |index| && IndexOkTo(index, n) && EntryOk(e)
    ensures e.key in KeysAllTo(index, n) ==> e.sourceRel in SourcesTo(index, n)
    ensures e.route in RoutesTo(index, n) ==> e.sourceRel in SourcesTo(index, n)
  {
    if n > 0 {
      OneSourceEach(index, n - 1, e);
      if index[n - 1].route == e.route { SameRoute(index[n - 1], e); }
    }
  }

  lemma {:induction false} SameRoute(a: IndexEntry, b: IndexEntry)
    requires EntryOk(a) && EntryOk(b) && a.route == b.route
    ensures a.sourceRel == b.sourceRel
  {
    assert a.route[1..|a.route| - 1] == a.key && b.route[1..|b.route| - 1] == b.key;
  }

  /** The article index is accepted when it is of version 1, every entry is in order and
      no source comes twice. */
  method ValidateIndex(version: nat, index: seq<IndexEntry>) returns (ok: bool)
    ensures ok <==> version == 1 && IndexOk(index)
  {
    if version != 1 { return false; }
    var sources: set<string>, keys: set<string>, routes: set<string> := {}, {}, {};
    for i := 0 to |index|
      invariant IndexOkTo(index, i)
      invariant sources == SourcesTo(index, i) && keys == KeysAllTo(index, i) && routes == RoutesTo(index, i)
    {
      var e := index[i];
      if !EntryOk(e) { return false; }
      OneSourceEach(index, i, e);
      if e.sourceRel in sources || e.key in keys || e.route in routes {
        if IndexOk(index) { OkToFrom(index, i + 1); }
        return false;
      }
      sources, keys, routes := sources + {e.sourceRel}, keys + {e.key}, routes + {e.route};
    }
    OkFromTo(index, |index|);
    ok := true;
  }

  /** Every scope is that of its target, and no target comes twice. */
  predicate ScopesOk(scopes: seq<ContentScope>) {
    && (forall k :: 0 <= k < |scopes| ==> FromTarget(scopes[k].target) == Some(scopes[k]))
    && (forall j, k :: 0 <= j < k < |scopes| ==> scopes[j].target != scopes[k].target)
  }

  /** One line of the scope manifest: comment path and target. */
  datatype ManifestLine = ManifestLine(commentRel: string, target: string)

  predicate LineOk(line: ManifestLine) {
    var scope := FromTarget(line.target);
    scope.Some? && scope.value.commentRel == line.commentRel
  }

  /** Each line is the mapping of its target, and no target comes twice. */
  predicate ManifestOk(lines: seq<ManifestLine>) {
    && (forall k :: 0 <= k < |lines| ==> LineOk(lines[k]))
    && (forall j, k :: 0 <= j < k < |lines| ==> lines[j].target != lines[k].target)
  }

  function PathsTo(lines: seq<ManifestLine>, n: nat): set<string>
    requires n <= |lines|
  {
    if n == 0 then {} else PathsTo(lines, n - 1) + {lines[n - 1].commentRel}
  }

  function TargetsTo(lines: seq<ManifestLine>, n: nat): set<string>
    requires n <= |lines|
  {
    if n == 0 then {} else TargetsTo(lines, n - 1) + {lines[n - 1].target}
  }

  predicate AcceptsTo(lines: seq<ManifestLine>, n: nat, ok: ManifestLine -> bool)
    requires n <= |lines|
  {
    n == 0 || (AcceptsTo(lines, n - 1, ok) && ok(lines[n - 1]) && lines[n - 1].target !in TargetsTo(lines, n - 1))
  }

  /** The scopes of the first lines. */
  function ScopesTo(lines: seq<ManifestLine>, n: nat): (r: seq<ContentScope>)
    requires n <= |lines| && AcceptsTo(lines, n, LineOk)
    ensures |r| == n
  {
    if n == 0 then [] else ScopesTo(lines, n - 1) + [FromTarget(lines[n - 1].target).value]
  }

  lemma {:induction false} TargetSeen(lines: seq<ManifestLine>, n: nat, k: nat)
    requires k < n <= |lines|
    ensures lines[k].target in TargetsTo(lines, n)
  {
    if k < n - 1 { TargetSeen(lines, n - 1, k); }
  }

  lemma {:induction false} SeenTarget(lines: seq<ManifestLine>, n: nat, target: string) returns (k: nat)
    requires n <= |lines| && target in TargetsTo(lines, n)
    ensures k < n && lines[k].target == target
  {
    if lines[n - 1].target == target { k := n - 1; } else { k := SeenTarget(lines, n - 1, target); }
  }

  lemma {:induction false} AcceptsEach(lines: seq<ManifestLine>, n: nat, ok: ManifestLine -> bool)
    requires n <= |lines| && AcceptsTo(lines, n, ok)
    ensures forall k :: 0 <= k < n ==> ok(lines[k])
    ensures forall j, k :: 0 <= j < k < n ==> lines[j].target != lines[k].target
  {
    if n > 0 {
      AcceptsEach(lines, n - 1, ok);
      forall j | 0 <= j < n - 1 ensures lines[j].target != lines[n - 1].target { TargetSeen(lines, n - 1, j); }
    }
  }

  lemma {:induction false} EachAccepts(lines: seq<ManifestLine>, n: nat, ok: ManifestLine -> bool)
    requires n <= |lines|
    requires forall k :: 0 <= k < n ==> ok(lines[k])
    requires forall j, k :: 0 <= j < k < n ==> lines[j].target != lines[k].target
    ensures AcceptsTo(lines, n, ok)
  {
    if n > 0 {
      EachAccepts(lines, n - 1, ok);
      FreshTarget(lines, n - 1);
    }
  }

  lemma {:induction false} FreshTarget(lines: seq<ManifestLine>, n: nat)
    requires n < |lines|
    requires forall j :: 0 <= j < n ==> lines[j].target != lines[n].target
    ensures lines[n].target !in TargetsTo(lines, n)
  {
    if lines[n].target in TargetsTo(lines, n) {
      var k := SeenTarget(lines, n, lines[n].target);
      assert false;
    }
  }

  lemma {:induction false} PrefixAccepts(lines: seq<ManifestLine>, n: nat, m: nat, ok: ManifestLine -> bool)
    requires n <= m <= |lines| && AcceptsTo(lines, m, ok)
    ensures AcceptsTo(lines, n, ok)
    decreases m
  {
    if n < m { PrefixAccepts(lines, n, m - 1, ok); }
  }

  lemma {:induction false} Refused(lines: seq<ManifestLine>, n: nat, ok: ManifestLine -> bool)
    requires n < |lines| && !(ok(lines[n]) && lines[n].target !in TargetsTo(lines, n))
    ensures !AcceptsTo(lines, |lines|, ok)
  {
    if AcceptsTo(lines, |lines|, ok) { PrefixAccepts(lines, n + 1, |lines|, ok); }
  }

  /** The comment path of a scope gives its target back. */
  lemma {:induction false} OneTargetEach(a: ManifestLine, b: ManifestLine)
    requires LineOk(a) && LineOk(b) && a.commentRel == b.commentRel
    ensures a.target == b.target
  {
    TargetReadBack(a.target);
    TargetReadBack(b.target);
    CommentPathReadBack(FromTarget(a.target).value);
    CommentPathReadBack(FromTarget(b.target).value);
  }

  lemma {:induction false} CommentPathReadBack(scope: ContentScope)
    requires FromDirectory(scope.directory) == Some(scope)
    ensures |scope.commentRel| == 7 || |scope.commentRel| >= 8
    ensures scope.directory == if |scope.commentRel| == 7 then "" else scope.commentRel[..|scope.commentRel| - 8]
  {
  }

  /** A repeated comment path is a repeated target. */
  lemma {:induction false} PathTaken(lines: seq<ManifestLine>, n: nat, line: ManifestLine)
    requires n <= |lines| && AcceptsTo(lines, n, LineOk) && LineOk(line)
    ensures line.commentRel in PathsTo(lines, n) ==> line.target in TargetsTo(lines, n)
  {
    if n > 0 {
      PathTaken(lines, n - 1, line);
      if lines[n - 1].commentRel == line.commentRel { OneTargetEach(lines[n - 1], line); }
    }
  }

  /** Each scope read is the scope of its line. */
  lemma {:induction false} ScopeAt(lines: seq<ManifestLine>, n: nat, k: nat)
    requires k < n <= |lines| && AcceptsTo(lines, n, LineOk)
    ensures FromTarget(lines[k].target) == Some(ScopesTo(lines, n)[k])
    ensures ScopesTo(lines, n)[k].target == lines[k].target && ScopesTo(lines, n)[k].commentRel == lines[k].commentRel
  {
    if k < n - 1 { ScopeAt(lines, n - 1, k); } else { TargetReadBack(lines[k].target); }
  }

  /** A manifest is accepted when each line is the mapping of its target and no
      target comes twice; its scopes are then sound. */
  lemma {:induction false} ManifestMeaning(lines: seq<ManifestLine>)
    ensures AcceptsTo(lines, |lines|, LineOk) <==> ManifestOk(lines)
    ensures AcceptsTo(lines, |lines|, LineOk) ==> ScopesOk(ScopesTo(lines, |lines|))
  {
    if AcceptsTo(lines, |lines|, LineOk) {
      AcceptsEach(lines, |lines|, LineOk);
      ManifestScopes(lines, ScopesTo(lines, |lines|));
    } else if ManifestOk(lines) {
      EachAccepts(lines, |lines|, LineOk);
    }
  }

  lemma {:induction false} ManifestScopes(lines: seq<ManifestLine>, scopes: seq<ContentScope>)
    requires AcceptsTo(lines, |lines|, LineOk) && scopes == ScopesTo(lines, |lines|)
    requires forall j, k :: 0 <= j < k < |lines| ==> lines[j].target != lines[k].target
    ensures ScopesOk(scopes)
  {
    forall k | 0 <= k < |lines|
      ensures FromTarget(scopes[k].target) == Some(scopes[k]) && scopes[k].target == lines[k].target
    {
      ScopeAt(lines, |lines|, k);
    }
  }

  /** The loop over the manifest accepts exactly the manifests described above. */
  method ParseManifest(lines: seq<ManifestLine>) returns (r: Option<seq<ContentScope>>)
    ensures r.Some? <==> AcceptsTo(lines, |lines|, LineOk)
    ensures r.Some? ==> r.value == SortBy(ScopesTo(lines, |lines|), CommentPath)
  {
    var scopes: seq<ContentScope> := [];
    var paths: set<string>, targets: set<string> := {}, {};
    for i := 0 to |lines|
      invariant AcceptsTo(lines, i, LineOk) && scopes == ScopesTo(lines, i)
      invariant paths == PathsTo(lines, i) && targets == TargetsTo(lines, i)
    {
      var line := lines[i];
      if !LineOk(line) {
        Refused(lines, i, LineOk);
        return None;
      }
      PathTaken(lines, i, line);
      if line.commentRel in paths || line.target in targets {
        Refused(lines, i, LineOk);
        return None;
      }
      paths, targets := paths + {line.commentRel}, targets + {line.target};
      scopes := scopes + [FromTarget(line.target).value];
    }
    r := Some(SortBy(scopes, CommentPath));
  }

  function CommentPath(scope: ContentScope): string { scope.commentRel }

  function TargetOf(scope: ContentScope): string { scope.target }

  /** Sound scopes stay sound when they are sorted. */
  lemma {:induction false} SortedScopes(scopes: seq<ContentScope>)
    requires ScopesOk(scopes)
    ensures ScopesOk(SortBy(scopes, CommentPath)) && Ascending(SortBy(scopes, CommentPath), CommentPath)
  {
    var sorted := SortBy(scopes, CommentPath);
    SortPermutes(scopes, CommentPath);
    SortAscends(scopes, CommentPath);
    assert Keyed(scopes, TargetOf);
    SortKeeps(scopes, CommentPath, TargetOf);
    forall k | 0 <= k < |sorted| ensures FromTarget(sorted[k].target) == Some(sorted[k]) { assert sorted[k] in scopes; }
    forall j, k | 0 <= j < k < |sorted| ensures sorted[j].target != sorted[k].target {
      assert TargetOf(sorted[j]) != TargetOf(sorted[k]);
    }
  }

  /** The two fields of a manifest line: exactly one tab. */
  function Fields(line: string): (r: Option<ManifestLine>)
    ensures r.Some? ==> line == r.value.commentRel + "\t" + r.value.target
    ensures r.Some? ==> '\t' !in r.value.commentRel && '\t' !in r.value.target
  {
    match Find(line, '\t')
    case None => None
    case Some(k) => if '\t' in line[k + 1..] then None else Some(ManifestLine(line[..k], line[k + 1..]))
  }

  /** A line has fields exactly if it is written as two of them. */
  lemma {:induction false} FieldsReadBack(line: string, f: ManifestLine)
    ensures Fields(line) == Some(f) <==> LineText(line, f)
  {
    if line == f.commentRel + "\t" + f.target && '\t' !in f.commentRel && '\t' !in f.target {
      var k := |f.commentRel|;
      assert line[..k] == f.commentRel && line[k + 1..] == f.target;
      FindIs(line, '\t', k);
    }
  }

  ghost predicate AllFields(texts: seq<string>, lines: seq<ManifestLine>) {
    |texts| == |lines| && forall k :: 0 <= k < |texts| ==> Fields(texts[k]) == Some(lines[k])
  }

  /** The text of a line: its two fields around a tab, and no other tab. */
  predicate LineText(text: string, f: ManifestLine) {
    text == f.commentRel + "\t" + f.target && '\t' !in f.commentRel && '\t' !in f.target
  }

  ghost predicate ManifestText(texts: seq<string>, lines: seq<ManifestLine>) {
    |texts| == |lines| && forall k :: 0 <= k < |texts| ==> LineText(texts[k], lines[k])
  }

  lemma {:induction false} FieldsAreText(texts: seq<string>, lines: seq<ManifestLine>)
    ensures AllFields(texts, lines) <==> ManifestText(texts, lines)
  {
    if |texts| == |lines| {
      forall k | 0 <= k < |texts| ensures Fields(texts[k]) == Some(lines[k]) <==> LineText(texts[k], lines[k]) {
        FieldsReadBack(texts[k], lines[k]);
      }
    }
  }

  /** The manifest from its text: accepted exactly if its lines are the two fields, around
      one tab, of a sound manifest, whose scopes are then returned in ascending order of
      their comment paths. */
  method ReadManifest(text: string) returns (r: Option<seq<ContentScope>>, ghost lines: seq<ManifestLine>)
    ensures r.Some? <==> exists ls :: ManifestText(TextLines(text), ls) && ManifestOk(ls)
    ensures r.Some? ==> ManifestText(TextLines(text), lines) && AcceptsTo(lines, |lines|, LineOk)
    ensures r.Some? ==> multiset(r.value) == multiset(ScopesTo(lines, |lines|)) && Ascending(r.value, CommentPath) && ScopesOk(r.value)
  {
    var texts := TextLines(text);
    var split: seq<ManifestLine> := [];
    lines := [];
    for i := 0 to |texts|
      invariant AllFields(texts[..i], split)
    {
      var f := Fields(texts[i]);
      if f.None? {
        NoText(texts, i);
        return None, [];
      }
      split := split + [f.value];
    }
    assert texts[..|texts|] == texts;
    FieldsAreText(texts, split);
    forall ls | ManifestText(texts, ls) ensures ls == split {
      FieldsAreText(texts, ls);
      OneSplit(texts, ls, split);
    }
    ManifestMeaning(split);
    lines := split;
    r := ParseManifest(split);
    if r.Some? {
      SortPermutes(ScopesTo(lines, |lines|), CommentPath);
      SortedScopes(ScopesTo(lines, |lines|));
    }
  }

  lemma {:induction false} NoText(texts: seq<string>, i: nat)
    requires i < |texts| && Fields(texts[i]).None?
    ensures forall ls :: !ManifestText(texts, ls)
  {
    forall ls: seq<ManifestLine> | |ls| == |texts| ensures !LineText(texts[i], ls[i]) { FieldsReadBack(texts[i], ls[i]); }
  }

  lemma {:induction false} OneSplit(texts: seq<string>, a: seq<ManifestLine>, b: seq<ManifestLine>)
    requires AllFields(texts, a) && AllFields(texts, b)
    ensures a == b
  {
    forall k | 0 <= k < |a| ensures a[k] == b[k] { assert Fields(texts[k]) == Some(a[k]); }
  }

  // --------------------------------------------------------- grouping articles

  /** The keys among the first `n` entries whose article lies in `directory`. */
  function KeysTo(index: seq<IndexEntry>, n: nat, directory: string): seq<string>
    requires n <= |index|
  {
    if n == 0 then []
    else
      var rest := KeysTo(index, n - 1, directory);
      var key := index[n - 1].key;
      if DirectoryOf(key) == directory then rest + [key] else rest
  }

  /** These are the keys of the entries in the directory and no others. */
  lemma {:induction false} KeysAre(index: seq<IndexEntry>, n: nat, directory: string, key: string)
    requires n <= |index|
    ensures key in KeysTo(index, n, directory) <==>
            DirectoryOf(key) == directory && exists k :: 0 <= k < n && index[k].key == key
  {
    if n > 0 { KeysAre(index, n - 1, directory, key); }
  }

  predicate Grouped(groups: map<string, seq<string>>, index: seq<IndexEntry>, n: nat, scopes: seq<ContentScope>)
    requires n <= |index|
  {
    forall k :: 0 <= k < |scopes| ==>
      scopes[k].target in groups && groups[scopes[k].target] == KeysTo(index, n, scopes[k].directory)
  }

  predicate OwnDirectories(scopes: seq<ContentScope>) {
    forall j, k :: 0 <= j < k < |scopes| ==> scopes[j].directory != scopes[k].directory
  }

  /** The scope of every directory. */
  method ByDirectory(scopes: seq<ContentScope>) returns (table: map<string, ContentScope>)
    requires OwnDirectories(scopes)
    ensures forall k :: 0 <= k < |scopes| ==> scopes[k].directory in table && table[scopes[k].directory] == scopes[k]
    ensures forall d :: d in table ==> table[d] in scopes && table[d].directory == d
  {
    table := map[];
    for k := 0 to |scopes|
      invariant forall j :: 0 <= j < k ==> scopes[j].directory in table && table[scopes[j].directory] == scopes[j]
      invariant forall d :: d in table ==> table[d] in scopes && table[d].directory == d
    {
      table := table[scopes[k].directory := scopes[k]];
    }
  }

  lemma {:induction false} ScopesApart(scopes: seq<ContentScope>)
    requires ScopesOk(scopes)
    ensures OwnDirectories(scopes)
  {
    forall j, k | 0 <= j < k < |scopes| ensures scopes[j].directory != scopes[k].directory { OwnDirectory(scopes, j, k); }
  }

  lemma {:induction false} OwnDirectory(scopes: seq<ContentScope>, j: nat, k: nat)
    requires ScopesOk(scopes) && j < |scopes| && k < |scopes|
    ensures scopes[j].directory == scopes[k].directory <==> scopes[j] == scopes[k]
    ensures scopes[j].target == scopes[k].target <==> scopes[j] == scopes[k]
  {
    assert FromTarget(scopes[j].target) == Some(scopes[j]) && FromTarget(scopes[k].target) == Some(scopes[k]);
  }

  /** Adding one article to the group of its scope. */
  lemma {:induction false} GroupedNext(groups: map<string, seq<string>>, index: seq<IndexEntry>, n: nat,
                                       scopes: seq<ContentScope>, at: nat)
    requires n < |index| && Grouped(groups, index, n, scopes) && ScopesOk(scopes)
    requires at < |scopes| && scopes[at].directory == DirectoryOf(index[n].key)
    ensures Grouped(groups[scopes[at].target := groups[scopes[at].target] + [index[n].key]], index, n + 1, scopes)
  {
    forall k | 0 <= k < |scopes| ensures scopes[k].target == scopes[at].target <==> scopes[k].directory == scopes[at].directory {
      OwnDirectory(scopes, k, at);
    }
  }

  /** An article of no scope changes no group. */
  lemma {:induction false} GroupedSame(groups: map<string, seq<string>>, index: seq<IndexEntry>, n: nat, scopes: seq<ContentScope>)
    requires n < |index| && Grouped(groups, index, n, scopes)
    requires forall k :: 0 <= k < |scopes| ==> scopes[k].directory != DirectoryOf(index[n].key)
    ensures Grouped(groups, index, n + 1, scopes)
  {
  }

  lemma {:induction false} EntryArticle(index: seq<IndexEntry>, i: nat)
    requires IndexOk(index) && i < |index|
    ensures ParseArticle(index[i].sourceRel).Some?
    ensures ParseArticle(index[i].sourceRel).value.key == index[i].key
    ensures ParseArticle(index[i].sourceRel).value.directory == DirectoryOf(index[i].key)
  {
    assert EntryOk(index[i]);
  }

  method EmptyGroups(scopes: seq<ContentScope>) returns (groups: map<string, seq<string>>)
    ensures forall k :: 0 <= k < |scopes| ==> scopes[k].target in groups && groups[scopes[k].target] == []
  {
    groups := map[];
    for k := 0 to |scopes|
      invariant forall j :: 0 <= j < k ==> scopes[j].target in groups && groups[scopes[j].target] == []
    {
      groups := groups[scopes[k].target := []];
    }
  }

  /** Every scope's articles: the keys of the index in its directory, sorted. */
  predicate SortedGroups(groups: map<string, seq<string>>, index: seq<IndexEntry>, scopes: seq<ContentScope>) {
    forall k :: 0 <= k < |scopes| ==>
      scopes[k].target in groups && groups[scopes[k].target] == SortBy(KeysTo(index, |index|, scopes[k].directory), Itself)
  }

  method ArticlesByTarget(index: seq<IndexEntry>, scopes: seq<ContentScope>) returns (groups: map<string, seq<string>>)
    requires IndexOk(index) && ScopesOk(scopes)
    ensures SortedGroups(groups, index, scopes)
  {
    var unsorted := GroupArticles(index, scopes);
    groups := SortGroups(unsorted, index, scopes);
  }

  method SortGroups(unsorted: map<string, seq<string>>, ghost index: seq<IndexEntry>, scopes: seq<ContentScope>)
    returns (groups: map<string, seq<string>>)
    requires ScopesOk(scopes) && Grouped(unsorted, index, |index|, scopes)
    ensures SortedGroups(groups, index, scopes)
  {
    groups := unsorted;
    for i := 0 to |scopes|
      invariant forall k :: 0 <= k < |scopes| ==>
                  scopes[k].target in groups
                  && groups[scopes[k].target] == if k < i then SortBy(unsorted[scopes[k].target], Itself) else unsorted[scopes[k].target]
    {
      forall k | 0 <= k < |scopes| ensures scopes[k].target == scopes[i].target <==> k == i {
        if k < i { assert scopes[k].target != scopes[i].target; } else if i < k { assert scopes[i].target != scopes[k].target; }
      }
      groups := groups[scopes[i].target := SortBy(groups[scopes[i].target], Itself)];
    }
  }

  /** Every scope's article keys, in the order of the index. */
  method GroupArticles(index: seq<IndexEntry>, scopes: seq<ContentScope>) returns (groups: map<string, seq<string>>)
    requires IndexOk(index) && ScopesOk(scopes)
    ensures Grouped(groups, index, |index|, scopes)
  {
    ScopesApart(scopes);
    var byDirectory := ByDirectory(scopes);
    groups := EmptyGroups(scopes);
    for i := 0 to |index|
      invariant Grouped(groups, index, i, scopes)
    {
      EntryArticle(index, i);
      var article := ParseArticle(index[i].sourceRel).value;
      if article.directory in byDirectory {
        var scope := byDirectory[article.directory];
        ghost var at :| 0 <= at < |scopes| && scopes[at] == scope;
        GroupedNext(groups, index, i, scopes, at);
        groups := groups[scope.target := groups[scope.target] + [article.key]];
      } else {
        GroupedSame(groups, index, i, scopes);
      }
    }
  }

  // -------------------------------------------------------------- the request

  function Asked(request: seq<TargetRequest>): (r: seq<string>)
    ensures |r| == |request| && forall k :: 0 <= k < |r| ==> r[k] == request[k].target
  {
    seq(|request|, k requires 0 <= k < |request| => request[k].target)
  }

  /** Articles asked for by the first `n` targets. */
  function ArticleCount(request: seq<TargetRequest>, n: nat): nat
    requires n <= |request|
  {
    if n == 0 then 0 else ArticleCount(request, n - 1) + |request[n - 1].articles|
  }

  lemma {:induction false} CountGrows(request: seq<TargetRequest>, n: nat, m: nat)
    requires n <= m <= |request|
    ensures ArticleCount(request, n) <= ArticleCount(request, m)
    decreases m
  {
    if n < m { CountGrows(request, n, m - 1); }
  }

  predicate HasGroups(scopes: seq<ContentScope>, groups: map<string, seq<string>>) {
    forall k :: 0 <= k < |scopes| ==> scopes[k].target in groups
  }

  function Ask(scopes: seq<ContentScope>, groups: map<string, seq<string>>): (r: seq<TargetRequest>)
    requires HasGroups(scopes, groups)
    ensures |r| == |scopes|
    ensures forall k :: 0 <= k < |r| ==> r[k] == TargetRequest(scopes[k].target, groups[scopes[k].target])
  {
    seq(|scopes|, k requires 0 <= k < |scopes| => TargetRequest(scopes[k].target, groups[scopes[k].target]))
  }

  /** jaild asks for everything, or for nothing when it is too much. */
  function BuildRequest(scopes: seq<ContentScope>, groups: map<string, seq<string>>): Option<seq<TargetRequest>>
    requires HasGroups(scopes, groups)
  {
    var request := Ask(scopes, groups);
    if |scopes| > MAX_SNAPSHOT_TARGETS || ArticleCount(request, |request|) > MAX_SNAPSHOT_ARTICLES then None
    else Some(request)
  }

  // ------------------------------------------------------------- statd's check

  predicate KeyFits(key: string) {
    ByteLen(key) <= MAX_ARTICLE_KEY_LEN
  }

  predicate InDirectory(key: string, directory: string) {
    var article := ParseArticle(key + ".md");
    key != "" && article.Some? && article.value.key == key && article.value.directory == directory
  }

  predicate ArticlesOk(articles: seq<string>, directory: string) {
    && Distinct(articles)
    && forall k :: 0 <= k < |articles| ==> KeyFits(articles[k]) && InDirectory(articles[k], directory)
  }

  predicate TargetOk(t: TargetRequest) {
    var scope := FromTarget(t.target);
    scope.Some? && ArticlesOk(t.articles, scope.value.directory)
  }

  predicate RequestOk(request: seq<TargetRequest>) {
    && |request| <= MAX_SNAPSHOT_TARGETS && ArticleCount(request, |request|) <= MAX_SNAPSHOT_ARTICLES
    && Distinct(Asked(request))
    && forall k :: 0 <= k < |request| ==> TargetOk(request[k])
  }

  lemma {:induction false} DistinctNext(s: seq<string>, i: nat)
    requires i < |s|
    ensures Elements(s[..i + 1]) == Elements(s[..i]) + {s[i]}
    ensures Distinct(s[..i + 1]) <==> Distinct(s[..i]) && s[i] !in Elements(s[..i])
  {
    var rest, all := s[..i], s[..i + 1];
    assert all == rest + [s[i]];
    assert forall j :: 0 <= j < i ==> all[j] == rest[j];
    if s[i] in rest {
      var j :| 0 <= j < i && rest[j] == s[i];
      assert all[j] == all[i];
    }
  }
}
