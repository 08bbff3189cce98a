/** Sequences of builds in the static tree: complete ones, refused ones, and ones
    whose commit was cut short at any step. */
module OutputRuns {
  import opened Common
  import opened Outputs
  import opened OutputCommit
  import opened StageWalk

  /** The builder owns what its manifest names or, without one, what lies below blog/. */
  lemma {:induction false} UnownedIs(t: Tree, p: string)
    ensures p in Unowned(t) <==>
            p in t.files && if t.manifest.Some? then p !in t.manifest.value else !(|p| >= 5 && p[..5] == "blog/")
    ensures p in Unowned(t) ==> Unowned(t)[p] == t.files[p]
  {
  }

  /** A build leaves what the builder does not own as it was, and owns just its
      own outputs afterwards. */
  lemma {:induction false} BuildKeepsUnowned(s: Tree, stage: map<string, Bytes>, t: Tree)
    requires Built(s, stage, t)
    ensures Unowned(t) == Unowned(s)
  {
    forall p | p in Unowned(s) ensures p !in stage { NotStaged(s, stage, p); }
  }

  lemma {:induction false} NotStaged(s: Tree, stage: map<string, Bytes>, p: string)
    requires StageOk(stage, Unowned(s).Keys, KeptDirs(s.dirs, Old(s), s.manifest.Some?)) && p in Unowned(s)
    ensures p !in stage
  {
    assert p in stage ==> Free(p, Unowned(s).Keys, KeptDirs(s.dirs, Old(s), s.manifest.Some?));
    assert Conflicts(p, p);
  }

  /** The files of `mine` are there unchanged and still not the builder's. */
  ghost predicate Survive(mine: map<string, Bytes>, t: Tree) {
    forall p :: p in mine ==> p in Unowned(t) && Unowned(t)[p] == mine[p]
  }

  /** A commit cut short keeps every unowned file. What else counts as unowned in the
      next build are the outputs it put where the builder owned nothing, and a
      temporary file. */
  lemma {:induction false} CutKeepsUnowned(s: Tree, stage: map<string, Bytes>, t: Tree, gone: set<string>, written: set<string>,
                                           extra: set<string>)
    requires Cut(s, stage, t, gone, written, extra)
    ensures Survive(Unowned(s), t)
    ensures Unowned(t).Keys == Unowned(s).Keys + (set p | p in written + extra && !Owned(s, p))
  {
    forall p | p in Unowned(s) ensures p in t.files && p !in gone {
      NotStaged(s, stage, p);
    }
  }

  /** The same build again is allowed exactly when every output already put in place
      was the builder's before: in its manifest or, without one, below blog/. */
  lemma {:induction false} RepeatAllowedIff(s: Tree, wanted: seq<string>, stage: map<string, Bytes>, t: Tree, gone: set<string>,
                                            written: set<string>, extra: set<string>)
    requires Allowed(s, wanted) && stage.Keys == Elements(wanted) && Cut(s, stage, t, gone, written, extra)
    ensures Allowed(t, wanted) <==> forall r :: r in written ==> Owned(s, r)
  {
    CutKeepsUnowned(s, stage, t, gone, written, extra);
    if forall r :: r in written ==> Owned(s, r) {
      forall r | r in wanted ensures Free(r, Unowned(t).Keys, KeptDirs(t.dirs, Old(t), t.manifest.Some?)) {
        FreeAgain(s, wanted, stage, t, gone, written, extra, r);
      }
    } else {
      var r :| r in written && !Owned(s, r);
      assert r in stage && r in wanted && r in Unowned(t);
      StrayOutputRefused(t, wanted, r);
    }
  }

  lemma {:induction false} FreeAgain(s: Tree, wanted: seq<string>, stage: map<string, Bytes>, t: Tree, gone: set<string>,
                                     written: set<string>, extra: set<string>, r: string)
    requires Allowed(s, wanted) && stage.Keys == Elements(wanted) && Cut(s, stage, t, gone, written, extra) && r in wanted
    requires Unowned(t).Keys == Unowned(s).Keys + (set p | p in written + extra && !Owned(s, p))
    requires forall p :: p in written ==> Owned(s, p)
    ensures Free(r, Unowned(t).Keys, KeptDirs(t.dirs, Old(t), t.manifest.Some?))
  {
    assert r in stage && Free(r, Unowned(s).Keys, KeptDirs(s.dirs, Old(s), s.manifest.Some?));
    forall d | d in KeptDirs(t.dirs, Old(t), t.manifest.Some?) ensures d != r && !Below(d, r) {
      if d !in s.dirs {
        var q :| q in stage && Below(q, d);
        assert r != q ==> !Conflicts(r, q);
        OpenedApart(stage, q, r, d);
      } else {
        assert d in KeptDirs(s.dirs, Old(s), s.manifest.Some?);
      }
    }
  }

  /** A directory opened for one output is neither another output nor below one. */
  lemma {:induction false} OpenedApart(stage: map<string, Bytes>, q: string, r: string, d: string)
    requires q in stage && r in stage && Below(q, d) && (r != q ==> !Conflicts(r, q))
    ensures d != r && !Below(d, r)
  {
    if Below(d, r) { BelowBelow(r, d, q); }
  }

  /** A path of the build that is there without being owned refuses the build. */
  lemma {:induction false} StrayOutputRefused(t: Tree, wanted: seq<string>, r: string)
    requires r in wanted && r in t.files && !Owned(t, r)
    ensures !Allowed(t, wanted)
  {
    assert r in Unowned(t);
    assert Conflicts(r, r);
  }

  /** Directories above some files. */
  function Above(files: set<string>): set<string> {
    set r, a | r in files && a in Ancestors(r) :: a
  }

  lemma {:induction false} OnlyFiles(stage: map<string, Bytes>, files: set<string>)
    requires StageOk(stage, {}, {}) && files <= stage.Keys
    ensures TreeOk(files, Above(files)) && Opened(Above(files), {}, files)
  {
    forall a | a in Above(files) ensures Normal(a) && a !in files && exists r :: r in files && Below(r, a) {
      var r :| r in files && a in Ancestors(r);
      AncestorIff(a, r);
      assert Free(r, {}, {});
      AncestorNormal(a, r);
      assert a in files ==> Conflicts(a, r);
    }
    forall p, a | p in files + Above(files) && Below(p, a) ensures a in Above(files) {
      var r :| r in files && (r == p || Below(r, p));
      if r != p { BelowBelow(a, p, r); }
      AncestorIff(a, r);
    }
    forall p | p in files ensures Normal(p) { assert Free(p, {}, {}); }
  }

  /** The commonest case: a first build, in an empty tree without a manifest, cut short
      right after robots.txt, with all that the walk meets before it in place. Its
      repetition is refused. */
  lemma {:induction false} FirstBuildCutShort(site: bool, articles: seq<Article>, assets: seq<Asset>, stage: map<string, Bytes>)
    returns (written: set<string>, t: Tree)
    requires var wanted := Wanted(site, articles, assets);
             Apart(wanted) && stage.Keys == Elements(wanted) && forall r :: r in wanted ==> Normal(r)
    ensures written == set r | r in stage && (r == "robots.txt" || Precedes(r, "robots.txt"))
    ensures "robots.txt" in written && GLOBAL_LIST_OUTPUT in written
    ensures t == Tree(map r | r in written :: stage[r], Above(written), None)
    ensures Cut(Tree(map[], {}, None), stage, t, {}, written, {})
    ensures Allowed(Tree(map[], {}, None), Wanted(site, articles, assets)) && !Allowed(t, Wanted(site, articles, assets))
  {
    var wanted, empty := Wanted(site, articles, assets), Tree(map[], {}, None);
    written := set r | r in stage && (r == "robots.txt" || Precedes(r, "robots.txt"));
    t := Tree(map r | r in written :: stage[r], Above(written), None);
    assert wanted[0] == GLOBAL_LIST_OUTPUT && wanted[1] == "robots.txt";
    AllowedStage(empty, wanted, stage);
    UpToRobots(stage.Keys, written);
    FirstOutputs(stage, written, t);
    assert !("blog/" <= "robots.txt") by { assert "robots.txt"[0] != "blog/"[0]; }
    StrayOutputRefused(t, wanted, "robots.txt");
  }

  /** In an empty tree without a manifest, outputs up to any place of the walk. */
  lemma {:induction false} FirstOutputs(stage: map<string, Bytes>, written: set<string>, t: Tree)
    requires StageOk(stage, Unowned(Tree(map[], {}, None)).Keys, KeptDirs({}, {}, false))
    requires written <= stage.Keys && WalkClosed(written, stage.Keys)
    requires t == Tree(map r | r in written :: stage[r], Above(written), None)
    ensures Cut(Tree(map[], {}, None), stage, t, {}, written, {})
  {
    assert Unowned(Tree(map[], {}, None)).Keys == {} && KeptDirs({}, {}, false) == {};
    OnlyFiles(stage, written);
  }

  lemma {:induction false} UpToRobots(all: set<string>, written: set<string>)
    requires written == set r | r in all && (r == "robots.txt" || Precedes(r, "robots.txt"))
    ensures WalkClosed(written, all) && Precedes(GLOBAL_LIST_OUTPUT, "robots.txt")
  {
    assert GLOBAL_LIST_OUTPUT[0] == 'b' && "robots.txt"[0] == 'r';
    forall q, r | r in written && q in all && Precedes(q, r) ensures q in written {
      if r != "robots.txt" { Onward(q, r, "robots.txt"); }
    }
  }

  // -------------------------------------------------------------------- runs

  ghost predicate CutShort(s: Tree, stage: map<string, Bytes>, t: Tree) {
    exists gone, written, extra :: Cut(s, stage, t, gone, written, extra)
  }

  /** A build changed nothing, was committed, or was cut short. */
  ghost predicate Step(s: Tree, stage: map<string, Bytes>, t: Tree) {
    t == s || Built(s, stage, t) || CutShort(s, stage, t)
  }

  ghost predicate Steps(trees: seq<Tree>, stages: seq<map<string, Bytes>>) {
    |trees| == |stages| + 1 && forall k :: 0 <= k < |stages| ==> Step(trees[k], stages[k], trees[k + 1])
  }

  lemma {:induction false} StepKeeps(mine: map<string, Bytes>, s: Tree, stage: map<string, Bytes>, t: Tree)
    requires Survive(mine, s) && Step(s, stage, t)
    ensures Survive(mine, t)
  {
    if Built(s, stage, t) {
      BuildKeepsUnowned(s, stage, t);
    } else if CutShort(s, stage, t) {
      var gone, written, extra :| Cut(s, stage, t, gone, written, extra);
      CutKeepsUnowned(s, stage, t, gone, written, extra);
    }
  }

  /** Over any sequence of builds, refused and interrupted ones among them, no file the
      builder did not own at the start is deleted or changed. */
  lemma {:induction false} UnownedSafe(trees: seq<Tree>, stages: seq<map<string, Bytes>>)
    requires Steps(trees, stages)
    ensures Survive(Unowned(trees[0]), trees[|stages|])
  {
    var n := |stages|;
    if n > 0 {
      assert Steps(trees[..n], stages[..n - 1]);
      UnownedSafe(trees[..n], stages[..n - 1]);
      StepKeeps(Unowned(trees[0]), trees[n - 1], stages[n - 1], trees[n]);
    }
  }

  /** Only refused and complete builds. */
  ghost predicate Whole(trees: seq<Tree>, stages: seq<map<string, Bytes>>) {
    |trees| == |stages| + 1
    && forall k :: 0 <= k < |stages| ==> trees[k + 1] == trees[k] || Built(trees[k], stages[k], trees[k + 1])
  }

  /** Without interruptions nothing is added to it either. */
  lemma {:induction false} UnownedSame(trees: seq<Tree>, stages: seq<map<string, Bytes>>)
    requires Whole(trees, stages)
    ensures Unowned(trees[|stages|]) == Unowned(trees[0])
  {
    var n := |stages|;
    if n > 0 {
      assert Whole(trees[..n], stages[..n - 1]);
      UnownedSame(trees[..n], stages[..n - 1]);
      if Built(trees[n - 1], stages[n - 1], trees[n]) { BuildKeepsUnowned(trees[n - 1], stages[n - 1], trees[n]); }
    }
  }

  /** No run leaves an empty directory that was not there before. */
  lemma {:induction false} NoNewEmptyDirectory(trees: seq<Tree>, stages: seq<map<string, Bytes>>, d: string)
    requires Whole(trees, stages) && d in trees[|stages|].dirs
    ensures d in trees[0].dirs || NonEmpty(d, trees[|stages|].files.Keys, trees[|stages|].dirs)
  {
    var n := |stages|;
    if n > 0 {
      assert Whole(trees[..n], stages[..n - 1]);
      var s, t := trees[n - 1], trees[n];
      if !NonEmpty(d, t.files.Keys, t.dirs) {
        assert d in s.dirs && !NonEmpty(d, s.files.Keys, s.dirs);
        NoNewEmptyDirectory(trees[..n], stages[..n - 1], d);
      }
    }
  }

  /** After a committed build the tree holds what was never the builder's and that
      build's outputs: of earlier builds no file and no empty directory remains. */
  lemma {:induction false} TreeIsLastBuild(trees: seq<Tree>, stages: seq<map<string, Bytes>>)
    requires Whole(trees, stages) && stages != []
    requires Built(trees[|stages| - 1], stages[|stages| - 1], trees[|stages|])
    ensures trees[|stages|].files == Unowned(trees[0]) + stages[|stages| - 1]
    ensures forall d :: d in trees[|stages|].dirs ==>
              d in trees[0].dirs || NonEmpty(d, trees[|stages|].files.Keys, trees[|stages|].dirs)
  {
    var n := |stages|;
    assert Whole(trees[..n], stages[..n - 1]);
    UnownedSame(trees[..n], stages[..n - 1]);
    forall d | d in trees[n].dirs ensures d in trees[0].dirs || NonEmpty(d, trees[n].files.Keys, trees[n].dirs) {
      NoNewEmptyDirectory(trees, stages, d);
    }
  }

  /** A committed build is in no way of its own repetition. */
  lemma {:induction false} RebuildAllowed(s: Tree, wanted: seq<string>, stage: map<string, Bytes>, t: Tree)
    requires Allowed(s, wanted) && stage.Keys == Elements(wanted) && Built(s, stage, t)
    ensures Allowed(t, wanted)
  {
    BuildKeepsUnowned(s, stage, t);
    forall r | r in wanted ensures Free(r, Unowned(t).Keys, KeptDirs(t.dirs, Old(t), t.manifest.Some?)) {
      assert r in stage && r in t.files;
    }
  }
}
