/** The web outputs of the content builder: which paths a build may claim in the
    static tree it shares with the frontend, and the commit that replaces its old
    outputs by the new ones. */
module Outputs {
  import opened Common

  const GLOBAL_LIST_OUTPUT := "blog/index.html"
  const LEGACY := "blog"

  // ------------------------------------------------------------ the static tree

  /** A normalized relative path: no empty component. */
  predicate Normal(rel: string) {
    && rel != "" && rel[0] != '/' && rel[|rel| - 1] != '/'
    && forall k :: 0 <= k < |rel| - 1 && rel[k] == '/' ==> rel[k + 1] != '/'
  }

  predicate Below(rel: string, directory: string) {
    directory + "/" <= rel
  }

  function Ancestors(rel: string): (r: set<string>)
  {
    set k | 0 <= k < |rel| && rel[k] == '/' :: rel[..k]
  }

  lemma {:induction false} AncestorIff(a: string, rel: string)
    ensures a in Ancestors(rel) <==> Below(rel, a)
  {
    if a in Ancestors(rel) {
      var k :| 0 <= k < |rel| && rel[k] == '/' && a == rel[..k];
      assert a + "/" == rel[..k + 1];
    }
    if Below(rel, a) {
      assert rel[..|a| + 1] == a + "/";
      assert rel[..|a|] == a && rel[|a|] == '/';
    }
  }

  lemma {:induction false} BelowBelow(a: string, b: string, c: string)
    requires Below(b, a) && (Below(c, b) || c == b)
    ensures Below(c, a)
  {
  }

  lemma {:induction false} AncestorNormal(a: string, rel: string)
    requires Normal(rel) && Below(rel, a)
    ensures Normal(a)
  {
    assert forall k :: 0 <= k < |a| ==> a[k] == rel[k];
    assert rel[|a|] == '/';
  }

  /** The tree of a file system: files and directories apart, every parent there. */
  ghost predicate TreeOk(files: set<string>, dirs: set<string>) {
    && files !! dirs
    && (forall p :: p in files + dirs ==> Normal(p))
    && (forall p, a :: p in files + dirs && Below(p, a) ==> a in dirs)
  }

  // ------------------------------------------------------------------- claims

  predicate Conflicts(claimed: string, rel: string) {
    claimed == rel || Below(claimed, rel) || Below(rel, claimed)
  }

  /** What a claim means for a file: equal, or one lies below the other. */
  lemma {:induction false} DirectoryClaim(directory: string, rel: string)
    requires Normal(rel)
    ensures Conflicts(directory + "/", rel) <==> directory == rel || Below(directory, rel)
  {
    var d := directory + "/";
    assert d != rel by { assert d[|d| - 1] == '/'; }
    var dd := d + "/";
    assert dd[|d| - 1] == '/' && dd[|d|] == '/';
    if Below(rel, d) { assert false; }
    if Below(d, rel) {
      assert d[..|rel| + 1] == rel + "/";
      if |directory| == |rel| { assert d[..|rel|] == rel && directory == d[..|rel|]; } else { assert directory[..|rel| + 1] == rel + "/"; }
    }
  }

  predicate Apart(claims: seq<string>) {
    forall j, k :: 0 <= j < k < |claims| ==> !Conflicts(claims[j], claims[k])
  }

  function Clashes(claims: set<string>, rel: string): set<string> {
    set c | c in claims && Conflicts(c, rel)
  }

  lemma {:induction false} ApartNext(done: seq<string>, rel: string)
    ensures Apart(done + [rel]) <==> Apart(done) && Clashes(Elements(done), rel) == {}
  {
    var all := done + [rel];
    if Apart(all) {
      forall j, k | 0 <= j < k < |done| ensures !Conflicts(done[j], done[k]) { assert !Conflicts(all[j], all[k]); }
      forall c | c in done ensures !Conflicts(c, rel) {
        var j :| 0 <= j < |done| && done[j] == c;
        assert !Conflicts(all[j], all[|done|]);
      }
    } else {
      var j, k :| 0 <= j < k < |all| && Conflicts(all[j], all[k]);
      if k == |done| { assert done[j] in Clashes(Elements(done), rel); } else { assert Conflicts(done[j], done[k]); }
    }
  }

  lemma {:induction false} ClashNext(some: set<string>, c: string, rel: string)
    ensures Clashes(some + {c}, rel) == if Conflicts(c, rel) then Clashes(some, rel) + {c} else Clashes(some, rel)
  {
  }

  /** Claim one path: one error for every claim it conflicts with. */
  method ClaimOutput(claims: map<string, string>, rel: string, owner: string, errors: nat)
    returns (claims': map<string, string>, errors': nat)
    ensures errors' == errors + |Clashes(claims.Keys, rel)|
    ensures claims' == if rel in claims then claims else claims[rel := owner]
  {
    var todo := claims.Keys;
    errors' := errors;
    while todo != {}
      invariant todo <= claims.Keys
      invariant errors' == errors + |Clashes(claims.Keys - todo, rel)|
      decreases |todo|
    {
      var claimed :| claimed in todo;
      ghost var seen := claims.Keys - todo;
      ClashNext(seen, claimed, rel);
      assert claimed !in Clashes(seen, rel);
      if Conflicts(claimed, rel) { errors' := errors' + 1; }
      todo := todo - {claimed};
      assert claims.Keys - todo == seen + {claimed};
    }
    assert claims.Keys - todo == claims.Keys;
    claims' := if rel in claims then claims else claims[rel := owner];
  }

  /** The claims of a build, what it wants of them, and the errors so far. */
  datatype Ledger = Ledger(claims: map<string, string>, desired: map<string, string>, errors: nat)

  method ClaimDesired(ledger: Ledger, rel: string, owner: string) returns (next: Ledger)
    ensures next.errors == ledger.errors + |Clashes(ledger.claims.Keys, rel)| + if rel in ledger.desired then 1 else 0
    ensures next.claims.Keys == ledger.claims.Keys + {rel} && next.desired.Keys == ledger.desired.Keys + {rel}
  {
    var claims, errors := ClaimOutput(ledger.claims, rel, owner, ledger.errors);
    if rel in ledger.desired { errors := errors + 1; }
    next := Ledger(claims, ledger.desired[rel := owner], errors);
  }

  /** The ledger after claiming `done`: an error as soon as two claims conflict or
      a reserved path was asked for. */
  predicate Tracks(ledger: Ledger, done: seq<string>, wanted: seq<string>, reserved: bool) {
    && ledger.claims.Keys == Elements(done) && ledger.desired.Keys == Elements(wanted)
    && Elements(wanted) <= Elements(done)
    && (ledger.errors == 0 <==> Apart(done) && !reserved)
  }

  lemma {:induction false} TracksNext(ledger: Ledger, done: seq<string>, wanted: seq<string>, reserved: bool, now: bool,
                                      rel: string, next: Ledger)
    requires Tracks(ledger, done, wanted, reserved)
    requires next.errors == ledger.errors + |Clashes(ledger.claims.Keys, rel)| + (if rel in ledger.desired then 1 else 0) + (if now then 1 else 0)
    requires next.claims.Keys == ledger.claims.Keys + {rel} && next.desired.Keys == ledger.desired.Keys + {rel}
    ensures Tracks(next, done + [rel], wanted + [rel], reserved || now)
  {
    ApartNext(done, rel);
    assert Elements(done + [rel]) == Elements(done) + {rel};
    assert Elements(wanted + [rel]) == Elements(wanted) + {rel};
    if rel in ledger.desired { assert rel in Clashes(Elements(done), rel); }
    assert |Clashes(Elements(done), rel)| == 0 <==> Clashes(Elements(done), rel) == {};
  }

  lemma {:induction false} TracksKept(ledger: Ledger, done: seq<string>, rel: string, next: Ledger)
    requires Tracks(ledger, done, [], false)
    requires next.errors == ledger.errors + |Clashes(ledger.claims.Keys, rel)|
    requires next.claims.Keys == ledger.claims.Keys + {rel} && next.desired == ledger.desired
    ensures Tracks(next, done + [rel], [], false)
  {
    ApartNext(done, rel);
    assert Elements(done + [rel]) == Elements(done) + {rel};
    assert |Clashes(Elements(done), rel)| == 0 <==> Clashes(Elements(done), rel) == {};
  }

  // ------------------------------------------------------- the claims of a build

  /** An existing node counts unless the previous build put it there; without a
      manifest everything under blog/ is the builder's. */
  predicate KeptNode(rel: string, old_: set<string>, hasManifest: bool) {
    rel !in old_ && (hasManifest || !("blog/" <= rel))
  }

  function KeptTo(existing: seq<string>, n: nat, old_: set<string>, hasManifest: bool): seq<string>
    requires n <= |existing|
  {
    if n == 0 then []
    else
      var rest := KeptTo(existing, n - 1, old_, hasManifest);
      if KeptNode(existing[n - 1], old_, hasManifest) then rest + [existing[n - 1]] else rest
  }

  datatype Article = Article(key: string, source: string)

  datatype Asset = Asset(rel: string, source: string)

  predicate ReservedRoute(key: string) {
    key == "blog" || key == "ws" || key == "api" || Below(key, "api") || key == "assets" || Below(key, "assets")
    || key == "fonts" || Below(key, "fonts")
  }

  predicate ReservedAsset(rel: string) {
    rel == "assets" || Below(rel, "assets") || rel == "fonts" || Below(rel, "fonts") || rel == "api" || Below(rel, "api")
  }

  function System(site: bool): seq<string> {
    [GLOBAL_LIST_OUTPUT, "robots.txt"] + if site then ["sitemap.xml", "atom.xml"] else []
  }

  function Pages(articles: seq<Article>, n: nat): (r: seq<string>)
    requires n <= |articles|
    ensures |r| == n
  {
    if n == 0 then [] else Pages(articles, n - 1) + [articles[n - 1].key + "/index.html"]
  }

  function Images(assets: seq<Asset>, n: nat): (r: seq<string>)
    requires n <= |assets|
    ensures |r| == n
  {
    if n == 0 then [] else Images(assets, n - 1) + [assets[n - 1].rel]
  }

  /** Every output of a build. */
  function Wanted(site: bool, articles: seq<Article>, assets: seq<Asset>): seq<string> {
    System(site) + Pages(articles, |articles|) + Images(assets, |assets|)
  }

  /** The outputs of a build: the article list, robots.txt, the two feeds of a site with an
      address, a page for each article and every asset. */
  lemma {:induction false} WantedIs(site: bool, articles: seq<Article>, assets: seq<Asset>, rel: string)
    ensures rel in Wanted(site, articles, assets) <==>
            || rel == "blog/index.html" || rel == "robots.txt" || (site && (rel == "sitemap.xml" || rel == "atom.xml"))
            || (exists a :: a in articles && rel == a.key + "/index.html") || (exists a :: a in assets && rel == a.rel)
  {
    PagesAre(articles, |articles|, rel);
    ImagesAre(assets, |assets|, rel);
    assert articles[..|articles|] == articles && assets[..|assets|] == assets;
  }

  lemma {:induction false} PagesAre(articles: seq<Article>, n: nat, rel: string)
    requires n <= |articles|
    ensures rel in Pages(articles, n) <==> exists a :: a in articles[..n] && rel == a.key + "/index.html"
  {
    if n > 0 {
      PagesAre(articles, n - 1, rel);
      assert articles[..n] == articles[..n - 1] + [articles[n - 1]];
    }
  }

  lemma {:induction false} ImagesAre(assets: seq<Asset>, n: nat, rel: string)
    requires n <= |assets|
    ensures rel in Images(assets, n) <==> exists a :: a in assets[..n] && rel == a.rel
  {
    if n > 0 {
      ImagesAre(assets, n - 1, rel);
      assert assets[..n] == assets[..n - 1] + [assets[n - 1]];
    }
  }

  predicate RouteReserved(articles: seq<Article>, n: nat)
    requires n <= |articles|
  {
    n > 0 && (RouteReserved(articles, n - 1) || ReservedRoute(articles[n - 1].key))
  }

  predicate AssetReserved(assets: seq<Asset>, n: nat)
    requires n <= |assets|
  {
    n > 0 && (AssetReserved(assets, n - 1) || ReservedAsset(assets[n - 1].rel))
  }

  method ClaimExisting(existing: seq<string>, old_: set<string>, hasManifest: bool) returns (ledger: Ledger)
    ensures Tracks(ledger, KeptTo(existing, |existing|, old_, hasManifest), [], false)
  {
    ledger := Ledger(map[], map[], 0);
    for i := 0 to |existing|
      invariant Tracks(ledger, KeptTo(existing, i, old_, hasManifest), [], false)
    {
      var rel := existing[i];
      if KeptNode(rel, old_, hasManifest) {
        var claims, errors := ClaimOutput(ledger.claims, rel, "Vite/public static file " + rel, ledger.errors);
        var next := ledger.(claims := claims, errors := errors);
        TracksKept(ledger, KeptTo(existing, i, old_, hasManifest), rel, next);
        ledger := next;
      }
    }
  }

  /** One wanted output, with an error more when its path is reserved. */
  method Want(before: Ledger, rel: string, owner: string, reserved: bool, ghost done: seq<string>, ghost wanted: seq<string>,
              ghost bad: bool, ghost allDone: seq<string>, ghost allWanted: seq<string>) returns (ledger: Ledger)
    requires Tracks(before, done, wanted, bad)
    requires allDone == done + [rel] && allWanted == wanted + [rel]
    ensures Tracks(ledger, allDone, allWanted, bad || reserved)
  {
    var errors := if reserved then before.errors + 1 else before.errors;
    ledger := ClaimDesired(before.(errors := errors), rel, owner);
    TracksNext(before, done, wanted, bad, reserved, rel, ledger);
  }

  method ClaimSystem(before: Ledger, ghost kept: seq<string>, site: bool) returns (ledger: Ledger)
    requires Tracks(before, kept, [], false)
    ensures Tracks(ledger, kept + System(site), System(site), false)
  {
    ledger := Want(before, GLOBAL_LIST_OUTPUT, "system article list /blog/", false, kept, [], false,
                   kept + System(site)[..1], System(site)[..1]);
    ledger := Want(ledger, "robots.txt", "system feed artifact robots.txt", false, kept + System(site)[..1], System(site)[..1], false,
                   kept + System(site)[..2], System(site)[..2]);
    if site {
      ledger := Want(ledger, "sitemap.xml", "system feed artifact sitemap.xml", false, kept + System(site)[..2], System(site)[..2],
                     false, kept + System(site)[..3], System(site)[..3]);
      ledger := Want(ledger, "atom.xml", "system feed artifact atom.xml", false, kept + System(site)[..3], System(site)[..3], false,
                     kept + System(site), System(site));
    } else {
      assert System(site)[..2] == System(site);
    }
  }

  method ClaimArticles(before: Ledger, ghost done: seq<string>, ghost wanted: seq<string>, articles: seq<Article>)
    returns (ledger: Ledger)
    requires Tracks(before, done, wanted, false)
    ensures Tracks(ledger, done + Pages(articles, |articles|), wanted + Pages(articles, |articles|),
                   RouteReserved(articles, |articles|))
  {
    ledger := before;
    assert done + Pages(articles, 0) == done && wanted + Pages(articles, 0) == wanted;
    for i := 0 to |articles|
      invariant Tracks(ledger, done + Pages(articles, i), wanted + Pages(articles, i), RouteReserved(articles, i))
    {
      ghost var done', wanted' := done + Pages(articles, i), wanted + Pages(articles, i);
      ghost var allDone, allWanted := done + Pages(articles, i + 1), wanted + Pages(articles, i + 1);
      Longer(done, Pages(articles, i), articles[i].key + "/index.html");
      Longer(wanted, Pages(articles, i), articles[i].key + "/index.html");
      ledger := Want(ledger, articles[i].key + "/index.html", "article " + articles[i].source, ReservedRoute(articles[i].key),
                     done', wanted', RouteReserved(articles, i), allDone, allWanted);
    }
  }

  method ClaimAssets(before: Ledger, ghost done: seq<string>, ghost wanted: seq<string>, ghost bad: bool, assets: seq<Asset>)
    returns (ledger: Ledger)
    requires Tracks(before, done, wanted, bad)
    ensures Tracks(ledger, done + Images(assets, |assets|), wanted + Images(assets, |assets|), bad || AssetReserved(assets, |assets|))
  {
    ledger := before;
    assert done + Images(assets, 0) == done && wanted + Images(assets, 0) == wanted;
    for i := 0 to |assets|
      invariant Tracks(ledger, done + Images(assets, i), wanted + Images(assets, i), bad || AssetReserved(assets, i))
    {
      ghost var done', wanted' := done + Images(assets, i), wanted + Images(assets, i);
      ghost var allDone, allWanted := done + Images(assets, i + 1), wanted + Images(assets, i + 1);
      Longer(done, Images(assets, i), assets[i].rel);
      Longer(wanted, Images(assets, i), assets[i].rel);
      ledger := Want(ledger, assets[i].rel, "article image " + assets[i].source, ReservedAsset(assets[i].rel),
                     done', wanted', bad || AssetReserved(assets, i), allDone, allWanted);
    }
  }

  lemma {:induction false} Longer(front: seq<string>, part: seq<string>, rel: string)
    ensures front + (part + [rel]) == front + part + [rel]
  {
  }

  /** The outputs and what is kept are pairwise apart, and no path is reserved. */
  predicate Claimable(kept: seq<string>, site: bool, articles: seq<Article>, assets: seq<Asset>) {
    Apart(kept + Wanted(site, articles, assets)) && !RouteReserved(articles, |articles|) && !AssetReserved(assets, |assets|)
  }

  /** A build is allowed exactly when its outputs and the nodes it must keep are
      pairwise apart and none of its paths is reserved. */
  method BuildWebClaims(existing: seq<string>, old_: set<string>, hasManifest: bool, site: bool, articles: seq<Article>,
                        assets: seq<Asset>)
    returns (desired: Option<map<string, string>>)
    ensures desired.Some? ==> desired.value.Keys == Elements(Wanted(site, articles, assets))
    ensures desired.Some? == Claimable(KeptTo(existing, |existing|, old_, hasManifest), site, articles, assets)
  {
    ghost var kept := KeptTo(existing, |existing|, old_, hasManifest);
    var ledger := ClaimExisting(existing, old_, hasManifest);
    ledger := ClaimSystem(ledger, kept, site);
    ledger := ClaimArticles(ledger, kept + System(site), System(site), articles);
    ledger := ClaimAssets(ledger, kept + System(site) + Pages(articles, |articles|), System(site) + Pages(articles, |articles|),
                          RouteReserved(articles, |articles|), assets);
    assert kept + System(site) + Pages(articles, |articles|) + Images(assets, |assets|) == kept + Wanted(site, articles, assets);
    desired := if ledger.errors > 0 then None else Some(ledger.desired);
  }
}
