/** The commit of a build into the static tree, and what any sequence of builds
    leaves there. */
module OutputCommit {
  import opened Common
  import opened Outputs
  import opened StageWalk

  type Bytes = seq<Byte>

  // ------------------------------------------------------- what a claim protects

  /** What the tree walk lists: every file, and every directory with a final '/'. */
  ghost predicate Listing(existing: seq<string>, files: set<string>, dirs: set<string>) {
    && (forall j, k :: 0 <= j < k < |existing| ==> existing[j] != existing[k])
    && (forall x :: x in existing <==> Node(x, files, dirs))
  }

  ghost predicate Node(x: string, files: set<string>, dirs: set<string>) {
    x in files || (x != "" && x[|x| - 1] == '/' && x[..|x| - 1] in dirs)
  }

  /** Nothing of a tree is in another node's way. */
  lemma {:induction false} NodesApart(files: set<string>, dirs: set<string>, x: string, y: string)
    requires TreeOk(files, dirs) && Node(x, files, dirs) && Node(y, files, dirs) && x != y
    ensures !Conflicts(x, y)
  {
    if x in files && y in files {
    } else if x in files {
      assert y == y[..|y| - 1] + "/";
      DirectoryClaim(y[..|y| - 1], x);
    } else if y in files {
      assert x == x[..|x| - 1] + "/";
      DirectoryClaim(x[..|x| - 1], y);
    } else {
      DirectoriesApart(x[..|x| - 1], y[..|y| - 1]);
      DirectoriesApart(y[..|y| - 1], x[..|x| - 1]);
      assert x == x[..|x| - 1] + "/" && y == y[..|y| - 1] + "/";
    }
  }

  lemma {:induction false} DirectoriesApart(a: string, b: string)
    requires Normal(a) && Normal(b)
    ensures !Below(a + "/", b + "/")
  {
    var bb := b + "/" + "/";
    assert bb[|b|] == '/' && bb[|b| + 1] == '/';
    assert forall k :: 0 <= k < |a| ==> (a + "/")[k] == a[k];
    if bb <= a + "/" { assert false; }
  }

  lemma {:induction false} KeptIn(existing: seq<string>, n: nat, old_: set<string>, hasManifest: bool, x: string)
    requires n <= |existing|
    ensures x in KeptTo(existing, n, old_, hasManifest) <==> x in existing[..n] && KeptNode(x, old_, hasManifest)
  {
    if n > 0 {
      KeptIn(existing, n - 1, old_, hasManifest, x);
      assert existing[..n] == existing[..n - 1] + [existing[n - 1]];
    }
  }

  lemma {:induction false} KeptApart(existing: seq<string>, n: nat, old_: set<string>, hasManifest: bool, files: set<string>,
                                     dirs: set<string>)
    requires TreeOk(files, dirs) && Listing(existing, files, dirs) && n <= |existing|
    ensures Apart(KeptTo(existing, n, old_, hasManifest))
  {
    if n > 0 {
      KeptApart(existing, n - 1, old_, hasManifest, files, dirs);
      var rest, x := KeptTo(existing, n - 1, old_, hasManifest), existing[n - 1];
      ApartNext(rest, x);
      forall c | c in rest ensures !Conflicts(c, x) {
        KeptIn(existing, n - 1, old_, hasManifest, c);
        assert c in existing[..n - 1] && x in existing;
        NodesApart(files, dirs, c, x);
      }
    }
  }

  lemma {:induction false} ApartJoin(a: seq<string>, b: seq<string>)
    ensures Apart(a + b) <==> Apart(a) && Apart(b) && forall x, y :: x in a && y in b ==> !Conflicts(x, y)
  {
    var all := a + b;
    if Apart(all) {
      forall j, k | 0 <= j < k < |a| ensures !Conflicts(a[j], a[k]) { assert !Conflicts(all[j], all[k]); }
      forall j, k | 0 <= j < k < |b| ensures !Conflicts(b[j], b[k]) { assert !Conflicts(all[|a| + j], all[|a| + k]); }
      forall x, y | x in a && y in b ensures !Conflicts(x, y) {
        var j :| 0 <= j < |a| && a[j] == x;
        var k :| 0 <= k < |b| && b[k] == y;
        assert !Conflicts(all[j], all[|a| + k]);
      }
    }
  }

  /** `rel` can be written without touching the kept files and directories. */
  ghost predicate Free(rel: string, files: set<string>, dirs: set<string>) {
    && (forall f :: f in files ==> !Conflicts(f, rel))
    && (forall d :: d in dirs ==> d != rel && !Below(d, rel))
  }

  function KeptFiles(files: map<string, Bytes>, old_: set<string>, hasManifest: bool): map<string, Bytes> {
    map p | p in files && KeptNode(p, old_, hasManifest) :: files[p]
  }

  function KeptDirs(dirs: set<string>, old_: set<string>, hasManifest: bool): set<string> {
    set d | d in dirs && KeptNode(d + "/", old_, hasManifest)
  }

  /** The claims that must be apart, told in terms of the tree: the outputs are apart
      from each other and free of everything kept. */
  lemma {:induction false} AllowedIff(existing: seq<string>, old_: set<string>, hasManifest: bool, files: map<string, Bytes>,
                                      dirs: set<string>, wanted: seq<string>)
    requires TreeOk(files.Keys, dirs) && Listing(existing, files.Keys, dirs)
    requires forall r :: r in wanted ==> Normal(r)
    ensures Apart(KeptTo(existing, |existing|, old_, hasManifest) + wanted) <==>
            Apart(wanted)
            && forall r :: r in wanted ==> Free(r, KeptFiles(files, old_, hasManifest).Keys, KeptDirs(dirs, old_, hasManifest))
  {
    var kept := KeptTo(existing, |existing|, old_, hasManifest);
    KeptApart(existing, |existing|, old_, hasManifest, files.Keys, dirs);
    ApartJoin(kept, wanted);
    forall r | r in wanted
      ensures (forall x :: x in kept ==> !Conflicts(x, r))
              <==> Free(r, KeptFiles(files, old_, hasManifest).Keys, KeptDirs(dirs, old_, hasManifest))
    {
      FreeIff(existing, old_, hasManifest, files, dirs, r);
    }
  }

  lemma {:induction false} FreeIff(existing: seq<string>, old_: set<string>, hasManifest: bool, files: map<string, Bytes>,
                                   dirs: set<string>, rel: string)
    requires TreeOk(files.Keys, dirs) && Listing(existing, files.Keys, dirs) && Normal(rel)
    ensures (forall x :: x in KeptTo(existing, |existing|, old_, hasManifest) ==> !Conflicts(x, rel))
            <==> Free(rel, KeptFiles(files, old_, hasManifest).Keys, KeptDirs(dirs, old_, hasManifest))
  {
    var kept := KeptTo(existing, |existing|, old_, hasManifest);
    var fs, ds := KeptFiles(files, old_, hasManifest).Keys, KeptDirs(dirs, old_, hasManifest);
    if forall x :: x in kept ==> !Conflicts(x, rel) {
      forall f | f in fs ensures !Conflicts(f, rel) { KeptNodeIff(existing, old_, hasManifest, files.Keys, dirs, f); }
      forall d | d in ds ensures d != rel && !Below(d, rel) {
        assert (d + "/")[..|d|] == d;
        KeptNodeIff(existing, old_, hasManifest, files.Keys, dirs, d + "/");
        DirectoryClaim(d, rel);
      }
    } else {
      var x :| x in kept && Conflicts(x, rel);
      KeptNodeIff(existing, old_, hasManifest, files.Keys, dirs, x);
      if x !in files {
        var d := x[..|x| - 1];
        assert x == d + "/" && d in ds;
        DirectoryClaim(d, rel);
      }
    }
  }

  lemma {:induction false} KeptNodeIff(existing: seq<string>, old_: set<string>, hasManifest: bool, files: set<string>,
                                       dirs: set<string>, x: string)
    requires Listing(existing, files, dirs)
    ensures x in KeptTo(existing, |existing|, old_, hasManifest) <==> Node(x, files, dirs) && KeptNode(x, old_, hasManifest)
  {
    assert existing[..|existing|] == existing;
    KeptIn(existing, |existing|, old_, hasManifest, x);
  }

  // ----------------------------------------------------------- changing the tree

  function Parent(rel: string): (r: string)
    ensures |r| <= |rel| && (rel != "" ==> |r| < |rel|)
    ensures r != "" ==> Below(rel, r)
  {
    if rel == "" then ""
    else if rel[|rel| - 1] == '/' then
      assert rel[..|rel| - 1] + "/" == rel;
      rel[..|rel| - 1]
    else
      assert rel[..|rel| - 1] <= rel;
      Parent(rel[..|rel| - 1])
  }

  /** An empty directory can go. */
  lemma {:induction false} WithoutDirectory(files: set<string>, dirs: set<string>, d: string)
    requires TreeOk(files, dirs) && forall q :: q in files + dirs ==> !Below(q, d)
    ensures TreeOk(files, dirs - {d})
  {
  }

  lemma {:induction false} WithoutFiles(files: set<string>, dirs: set<string>, gone: set<string>)
    requires TreeOk(files, dirs)
    ensures TreeOk(files - gone, dirs)
  {
  }

  // ------------------------------------------------------- directories that empty

  ghost predicate Affected(d: string, gone: set<string>) {
    exists f :: f in gone && Below(f, d)
  }

  ghost predicate NonEmpty(d: string, files: set<string>, dirs: set<string>) {
    exists q :: q in files + dirs && Below(q, d)
  }

  /** A directory that holds nothing now held nothing before. */
  ghost predicate NoneEmptied(files0: set<string>, dirs0: set<string>, files: set<string>, dirs: set<string>) {
    forall d {:trigger NonEmpty(d, files, dirs)} {:trigger NonEmpty(d, files0, dirs0)} ::
      d in dirs && !NonEmpty(d, files, dirs) ==> d in dirs0 && !NonEmpty(d, files0, dirs0)
  }

  lemma {:induction false} OldLeavesFull(files0: set<string>, dirs0: set<string>, files: set<string>, dirs: set<string>,
                                         gone: set<string>)
    requires files == files0 - gone && Emptied(dirs0, files, dirs, gone)
    ensures NoneEmptied(files0, dirs0, files, dirs)
  {
    forall d | d in dirs && NonEmpty(d, files0, dirs0) ensures NonEmpty(d, files, dirs) {
      var q :| q in files0 + dirs0 && Below(q, d);
      if q !in files + dirs {
        if q !in gone {
          assert Affected(q, gone);
          var f :| f in gone && Below(f, q);
          BelowBelow(d, q, f);
        }
        assert Affected(d, gone);
      }
    }
  }

  lemma {:induction false} LegacyLeavesFull(files0: set<string>, dirs0: set<string>, files: set<string>, dirs: set<string>,
                                            gone: set<string>)
    requires files == files0 - gone && gone <= LegacyFiles(files0) && dirs <= dirs0 && LegacyNodes(files, dirs) == {}
    requires forall d :: d in dirs0 && d != LEGACY && !Below(d, LEGACY) ==> d in dirs
    ensures NoneEmptied(files0, dirs0, files, dirs)
  {
    NoNodes(files, dirs);
    forall d | d in dirs && NonEmpty(d, files0, dirs0) ensures NonEmpty(d, files, dirs) {
      var q :| q in files0 + dirs0 && Below(q, d);
      AboveLegacy(q, d);
      assert q in files + dirs;
    }
  }

  /** Nothing is above blog/, which is at the top. */
  lemma {:induction false} AboveLegacy(q: string, d: string)
    requires Below(q, d) && d != LEGACY && !Below(d, LEGACY)
    ensures q != LEGACY && !Below(q, LEGACY)
  {
    assert '/' !in LEGACY;
    TopLevel(LEGACY, d);
    if Below(q, LEGACY) { Nested(q, d, LEGACY); }
  }

  lemma {:induction false} TopLevel(r: string, a: string)
    requires '/' !in r
    ensures !Below(r, a)
  {
    assert (a + "/")[|a|] == '/';
  }

  lemma {:induction false} Nested(q: string, a: string, b: string)
    requires Below(q, a) && Below(q, b)
    ensures a == b || Below(a, b) || Below(b, a)
  {
    assert a == q[..|a|] && b == q[..|b|];
    if |a| < |b| { assert b[..|a| + 1] == q[..|a| + 1]; }
    if |b| < |a| { assert a[..|b| + 1] == q[..|b| + 1]; }
  }

  lemma {:induction false} WritingFills(files0: set<string>, dirs0: set<string>, files: set<string>, dirs: set<string>, stage: set<string>)
    requires files == files0 + stage && dirs0 <= dirs && Opened(dirs, dirs0, stage)
    ensures NoneEmptied(files0, dirs0, files, dirs)
  {
    forall d | d in dirs
      ensures d !in dirs0 ==> NonEmpty(d, files, dirs)
      ensures NonEmpty(d, files0, dirs0) ==> NonEmpty(d, files, dirs)
    {
      if d !in dirs0 {
        var r :| r in stage && Below(r, d);
        assert r in files + dirs;
      }
      if NonEmpty(d, files0, dirs0) {
        var q :| q in files0 + dirs0 && Below(q, d);
        assert q in files + dirs;
      }
    }
  }

  lemma {:induction false} NoneEmptiedTwice(files0: set<string>, dirs0: set<string>, files1: set<string>, dirs1: set<string>,
                                            files2: set<string>, dirs2: set<string>)
    requires NoneEmptied(files0, dirs0, files1, dirs1) && NoneEmptied(files1, dirs1, files2, dirs2)
    ensures NoneEmptied(files0, dirs0, files2, dirs2)
  {
    forall d | d in dirs2 && !NonEmpty(d, files2, dirs2) ensures d in dirs0 && !NonEmpty(d, files0, dirs0) {
      assert !NonEmpty(d, files1, dirs1);
    }
  }

  /** Of the directories above removed files, exactly the emptied ones have gone. */
  ghost predicate Emptied(before: set<string>, files: set<string>, dirs: set<string>, gone: set<string>) {
    && dirs <= before
    && (forall d {:trigger Affected(d, gone)} :: d in before && d !in dirs ==> Affected(d, gone))
    && (forall d {:trigger Affected(d, gone)} :: d in dirs && Affected(d, gone) ==> NonEmpty(d, files, dirs))
  }

  /** As above, but for `path` and what lies above it, still to be looked at. */
  ghost predicate Settled(files: set<string>, dirs: set<string>, gone: set<string>, path: string) {
    forall d {:trigger Affected(d, gone)} :: d in dirs && Affected(d, gone) && d != path && !(path != "" && Below(path, d)) ==> NonEmpty(d, files, dirs)
  }

  /** In the middle of removing old outputs. */
  ghost predicate Going(before: set<string>, files: set<string>, dirs: set<string>, gone: set<string>) {
    && dirs <= before && Settled(files, dirs, gone, "")
    && (forall d {:trigger Affected(d, gone)} :: d in before && d !in dirs ==> Affected(d, gone))
  }

  lemma {:induction false} EmptiedGoing(before: set<string>, files: set<string>, dirs: set<string>, gone: set<string>)
    requires Going(before, files, dirs, gone) && TreeOk(files, dirs)
    ensures Emptied(before, files, dirs, gone)
  {
  }

  lemma {:induction false} GoingOn(before: set<string>, mid: set<string>, files: set<string>, dirs: set<string>, gone: set<string>,
                                   rel: string)
    requires dirs <= mid <= before && Settled(files, dirs, gone + {rel}, "")
    requires forall d {:trigger Affected(d, gone)} :: d in before && d !in mid ==> Affected(d, gone)
    requires forall d {:trigger Affected(d, gone + {rel})} :: d in mid && d !in dirs ==> Affected(d, gone + {rel})
    ensures Going(before, files, dirs, gone + {rel})
  {
    forall d | d in before && d !in dirs ensures Affected(d, gone + {rel}) {
      if d !in mid {
        assert Affected(d, gone);
        var f :| f in gone && Below(f, d);
        assert f in gone + {rel};
      }
    }
  }

  lemma {:induction false} ParentIsNext(p: string, d: string)
    requires Below(p, d) && d != ""
    ensures d == Parent(p) || Below(Parent(p), d)
    decreases |p|
  {
    if p[|p| - 1] == '/' {
      var q := p[..|p| - 1];
      if |q| > |d| { assert q[..|d| + 1] == p[..|d| + 1]; } else { assert q == p[..|d|] == d; }
    } else {
      var q := p[..|p| - 1];
      assert p[|d|] == '/';
      assert q[..|d| + 1] == p[..|d| + 1];
      ParentIsNext(q, d);
    }
  }

  lemma {:induction false} SettledRemove(files: set<string>, dirs: set<string>, gone: set<string>, rel: string)
    requires TreeOk(files, dirs) && rel in files && Settled(files, dirs, gone, "")
    ensures Settled(files - {rel}, dirs, gone + {rel}, Parent(rel))
    ensures Parent(rel) != "" ==> Parent(rel) in dirs && Affected(Parent(rel), gone + {rel})
  {
    forall d | d in dirs && Affected(d, gone + {rel}) && d != Parent(rel) && !(Parent(rel) != "" && Below(Parent(rel), d))
      ensures NonEmpty(d, files - {rel}, dirs)
    {
      if Below(rel, d) { ParentIsNext(rel, d); }
      assert Affected(d, gone);
      var q :| q in files + dirs && Below(q, d);
      assert q != rel;
    }
  }

  lemma {:induction false} SettledUp(files: set<string>, dirs: set<string>, gone: set<string>, path: string)
    requires TreeOk(files, dirs) && path in dirs && !NonEmpty(path, files, dirs) && Affected(path, gone)
    requires Settled(files, dirs, gone, path)
    ensures Settled(files, dirs - {path}, gone, Parent(path))
    ensures Parent(path) != "" ==> Parent(path) in dirs - {path} && Affected(Parent(path), gone)
  {
    forall d | d in dirs - {path} && Affected(d, gone) && d != Parent(path) && !(Parent(path) != "" && Below(Parent(path), d))
      ensures NonEmpty(d, files, dirs - {path})
    {
      if Below(path, d) { ParentIsNext(path, d); }
      var q :| q in files + dirs && Below(q, d);
      assert q != path;
    }
    if Parent(path) != "" {
      var f :| f in gone && Below(f, path);
      BelowBelow(Parent(path), path, f);
    }
  }

  lemma {:induction false} SettledDone(files: set<string>, dirs: set<string>, gone: set<string>, path: string)
    requires TreeOk(files, dirs) && Settled(files, dirs, gone, path) && (path != "" ==> path in dirs && NonEmpty(path, files, dirs))
    ensures Settled(files, dirs, gone, "")
  {
    forall d | d in dirs && Affected(d, gone) ensures NonEmpty(d, files, dirs) {
      if path != "" && Below(path, d) { assert path in files + dirs; }
    }
  }

  lemma {:induction false} Longest(s: set<string>) returns (x: string)
    requires s != {}
    ensures x in s && forall y :: y in s ==> |y| <= |x|
  {
    x :| x in s;
    if s != {x} {
      var y := Longest(s - {x});
      if |y| > |x| { x := y; }
    }
  }

  /** A new file and the directories above it. */
  lemma {:induction false} WithFile(files: set<string>, dirs: set<string>, rel: string)
    requires TreeOk(files, dirs) && Normal(rel) && rel !in dirs && Ancestors(rel) !! files
    ensures TreeOk(files + {rel}, dirs + Ancestors(rel))
  {
    AncestorIff(rel, rel);
    forall a | a in Ancestors(rel) ensures Normal(a) {
      AncestorIff(a, rel);
      AncestorNormal(a, rel);
    }
    forall p, a | p in files + {rel} + dirs + Ancestors(rel) && Below(p, a) ensures a in dirs + Ancestors(rel) {
      AncestorIff(a, rel);
      AncestorIff(p, rel);
    }
  }

  // ------------------------------------------------------------ temporary names

  /** The directory part of a path, with its final slash. */
  function DirPart(rel: string): (r: string)
    ensures r <= rel && (r == "" || r[|r| - 1] == '/')
    ensures forall k :: |r| <= k < |rel| ==> rel[k] != '/'
  {
    if rel == "" || rel[|rel| - 1] == '/' then rel else DirPart(rel[..|rel| - 1])
  }

  /** Where an output is written before it is renamed into place. */
  function TempName(rel: string, pid: string): string {
    DirPart(rel) + "." + rel[|DirPart(rel)|..] + ".content-build-" + pid
  }

  /** No component starts with a dot. */
  predicate Visible(rel: string) {
    forall k :: 0 <= k < |rel| && rel[k] == '.' ==> 0 < k && rel[k - 1] != '/'
  }

  /** Up to the directory a temporary name reads like its output, then it is hidden,
      and no slash follows. */
  lemma {:induction false} TempShape(rel: string, pid: string)
    requires '/' !in pid
    ensures var p, t := |DirPart(rel)|, TempName(rel, pid);
            && p < |t| && t[..p] == rel[..p] && t[p] == '.' && (p > 0 ==> t[p - 1] == '/')
            && forall k :: p <= k < |t| ==> t[k] != '/'
  {
    var p, d := |DirPart(rel)|, DirPart(rel);
    var back := "." + rel[p..] + ".content-build-" + pid;
    var t := TempName(rel, pid);
    assert t == d + back;
    forall c | c in rel[p..] ensures c != '/' {
      var k :| 0 <= k < |rel[p..]| && rel[p..][k] == c;
      assert rel[p + k] == c;
    }
    assert '/' !in back;
    forall k | p <= k < |t| ensures t[k] != '/' { assert t[k] == back[k - p] && back[k - p] in back; }
  }

  lemma {:induction false} TempAncestors(rel: string, pid: string)
    requires '/' !in pid
    ensures Ancestors(TempName(rel, pid)) == Ancestors(rel)
  {
    TempShape(rel, pid);
    var p, t := |DirPart(rel)|, TempName(rel, pid);
    forall k | 0 <= k < p ensures t[k] == rel[k] && t[..k] == rel[..k] {
      assert t[..p][k] == rel[..p][k] && t[..p][..k] == rel[..p][..k];
    }
  }

  lemma {:induction false} TempNormal(rel: string, pid: string)
    requires '/' !in pid && Normal(rel)
    ensures Normal(TempName(rel, pid))
  {
    TempShape(rel, pid);
    var p, t := |DirPart(rel)|, TempName(rel, pid);
    forall k | 0 <= k < p ensures t[k] == rel[k] { assert t[..p][k] == rel[..p][k]; }
  }

  lemma {:induction false} TempBelow(rel: string, r: string, pid: string)
    requires '/' !in pid
    ensures Below(TempName(rel, pid), r) ==> Below(rel, r)
  {
    TempShape(rel, pid);
    var p, t := |DirPart(rel)|, TempName(rel, pid);
    if Below(t, r) {
      assert t[|r|] == '/';
      assert t[..p][..|r| + 1] == r + "/";
    }
  }

  /** A temporary name is in no output's way. */
  lemma {:induction false} TempApart(rel: string, r: string, pid: string)
    requires '/' !in pid && Visible(r) && (rel == r || !Conflicts(rel, r))
    ensures !Conflicts(TempName(rel, pid), r)
  {
    TempShape(rel, pid);
    var p, t := |DirPart(rel)|, TempName(rel, pid);
    TempBelow(rel, r, pid);
    HiddenAt(r, t, p);
  }

  lemma {:induction false} HiddenAt(r: string, t: string, p: nat)
    requires Visible(r) && p < |t| && t[p] == '.' && (p > 0 ==> t[p - 1] == '/')
    ensures !(t <= r)
  {
  }

  /** The temporary names of a build are unused, and its outputs are visible. */
  ghost predicate TempsFree(stage: map<string, Bytes>, pid: string, files: set<string>, dirs: set<string>) {
    '/' !in pid && forall r :: r in stage ==> Visible(r) && TempName(r, pid) !in files + dirs
  }

  /** The static tree with the builder's manifest. */
  datatype Tree = Tree(files: map<string, Bytes>, dirs: set<string>, manifest: Option<set<string>>)

  function Old(t: Tree): set<string> {
    if t.manifest.Some? then t.manifest.value else {}
  }

  /** What the builder does not own. */
  function Unowned(t: Tree): map<string, Bytes> {
    KeptFiles(t.files, Old(t), t.manifest.Some?)
  }

  /** The directories there: kept ones, and those above an output already written. */
  predicate Opened(dirs: set<string>, keptDirs: set<string>, done: set<string>) {
    forall d :: d in dirs ==> d in keptDirs || exists r :: r in done && Below(r, d)
  }

  /** The outputs are apart and free of what is kept. */
  ghost predicate StageOk(stage: map<string, Bytes>, kept: set<string>, keptDirs: set<string>) {
    && (forall r {:trigger Free(r, kept, keptDirs)} :: r in stage ==> Normal(r) && Free(r, kept, keptDirs))
    && (forall r, q {:trigger Conflicts(r, q)} :: r in stage && q in stage && r != q ==> !Conflicts(r, q))
  }

  /** The outputs are apart and nothing unowned is in their way. */
  ghost predicate Allowed(t: Tree, wanted: seq<string>) {
    Apart(wanted) && forall r :: r in wanted ==> Free(r, Unowned(t).Keys, KeptDirs(t.dirs, Old(t), t.manifest.Some?))
  }

  /** A committed build. */
  ghost predicate Built(s: Tree, stage: map<string, Bytes>, t: Tree) {
    && StageOk(stage, Unowned(s).Keys, KeptDirs(s.dirs, Old(s), s.manifest.Some?))
    && t.files == Unowned(s) + stage && t.manifest == Some(stage.Keys) && TreeOk(t.files.Keys, t.dirs)
    && NoneEmptied(s.files.Keys, s.dirs, t.files.Keys, t.dirs)
  }

  /** What a build may remove. */
  function OwnedFiles(t: Tree): set<string> {
    t.files.Keys - Unowned(t).Keys
  }

  predicate Owned(t: Tree, rel: string) {
    !KeptNode(rel, Old(t), t.manifest.Some?)
  }

  /** A commit that stopped after any of its steps: `gone` of the owned files have been
      removed, then `written` of the outputs put in place, each after all that the walk
      meets before it; at most one temporary file is there besides. The manifest is still
      the old one. */
  ghost predicate Cut(s: Tree, stage: map<string, Bytes>, t: Tree, gone: set<string>, written: set<string>, extra: set<string>) {
    && StageOk(stage, Unowned(s).Keys, KeptDirs(s.dirs, Old(s), s.manifest.Some?))
    && t.manifest == s.manifest && TreeOk(t.files.Keys, t.dirs)
    && gone <= OwnedFiles(s) && written <= stage.Keys
    && (written + extra != {} ==> gone == OwnedFiles(s))
    && WalkClosed(written, stage.Keys) && AtMostOne(extra)
    && t.files.Keys == (s.files.Keys - gone) + written + extra
    && (forall p :: p in s.files && p !in gone ==> t.files[p] == s.files[p])
    && (forall r :: r in written ==> t.files[r] == stage[r])
    && extra !! s.files.Keys && (forall x, r :: x in extra && r in stage ==> !Conflicts(x, r))
    && Opened(t.dirs, s.dirs, stage.Keys)
  }

  predicate AtMostOne(some: set<string>) {
    forall x, y :: x in some && y in some ==> x == y
  }

  class Site {
    var files: map<string, Bytes>
    var dirs: set<string>
    var manifest: Option<set<string>>

    ghost predicate Valid()
      reads this
    {
      && TreeOk(files.Keys, dirs)
      && (manifest.Some? ==> forall r :: r in manifest.value ==> Normal(r))
    }

    ghost function State(): Tree
      reads this
    {
      Tree(files, dirs, manifest)
    }

    /** Upwards from `from`, directories go as long as they are empty. */
    method RemoveEmptyParents(from: string, ghost gone: set<string>)
      requires Valid() && Settled(files.Keys, dirs, gone, from)
      requires from != "" ==> from in dirs && Affected(from, gone)
      modifies this`dirs
      ensures Valid() && dirs <= old(dirs) && Settled(files.Keys, dirs, gone, "")
      ensures forall d {:trigger Affected(d, gone)} :: d in old(dirs) && d !in dirs ==> Affected(d, gone)
    {
      var path := from;
      while path != ""
        invariant Valid() && dirs <= old(dirs) && Settled(files.Keys, dirs, gone, path)
        invariant path != "" ==> path in dirs && Affected(path, gone)
        invariant forall d {:trigger Affected(d, gone)} :: d in old(dirs) && d !in dirs ==> Affected(d, gone)
        decreases |path|
      {
        if exists q :: q in files.Keys + dirs && Below(q, path) { break; }
        SettledUp(files.Keys, dirs, gone, path);
        WithoutDirectory(files.Keys, dirs, path);
        dirs := dirs - {path};
        path := Parent(path);
      }
      SettledDone(files.Keys, dirs, gone, path);
    }

    /** The old outputs that are still files go, with exactly the directories this
        empties. `fault` counts the removals that succeed before one fails. */
    method RemoveOld(old_: set<string>, fault: Option<nat>) returns (ok: bool, left: Option<nat>, ghost gone: set<string>)
      requires Valid()
      modifies this`files, this`dirs
      ensures Valid() && gone <= old_ && Removed(old(files), files, gone)
      ensures Emptied(old(dirs), files.Keys, dirs, gone)
      ensures ok ==> old_ !! files.Keys
      ensures fault.None? ==> ok && left.None?
    {
      var todo := old_;
      ok, left, gone := true, fault, {};
      ghost var done: set<string> := {};
      while todo != {}
        invariant ok && Valid() && todo + done == old_ && done !! files.Keys && (fault.None? ==> left.None?)
        invariant gone <= old_ && Removed(old(files), files, gone)
        invariant Going(old(dirs), files.Keys, dirs, gone)
        decreases |todo|
      {
        var rel :| rel in todo;
        if rel in files {
          if left == Some(0) {
            EmptiedGoing(old(dirs), files.Keys, dirs, gone);
            return false, left, gone;
          }
          left := Spend(left);
          RemoveOne(rel, old(files), old(dirs), gone);
          gone := gone + {rel};
        }
        todo, done := todo - {rel}, done + {rel};
      }
      EmptiedGoing(old(dirs), files.Keys, dirs, gone);
    }

    method RemoveOne(rel: string, ghost files0: map<string, Bytes>, ghost dirs0: set<string>, ghost gone: set<string>)
      requires Valid() && rel in files && Removed(files0, files, gone) && Going(dirs0, files.Keys, dirs, gone)
      modifies this`files, this`dirs
      ensures Valid() && Removed(files0, files, gone + {rel}) && Going(dirs0, files.Keys, dirs, gone + {rel})
      ensures files.Keys == old(files).Keys - {rel}
    {
      SettledRemove(files.Keys, dirs, gone, rel);
      WithoutFiles(files.Keys, dirs, {rel});
      files := files - {rel};
      assert files.Keys == old(files).Keys - {rel};
      RemoveEmptyParents(Parent(rel), gone + {rel});
      GoingOn(dirs0, old(dirs), files.Keys, dirs, gone, rel);
    }

    /** Without a manifest the whole directory of an earlier layout goes, node by node,
        none before what lies below it. */
    method RemoveLegacy(fault: Option<nat>) returns (ok: bool, left: Option<nat>, ghost gone: set<string>)
      requires Valid() && LEGACY !in files
      modifies this`files, this`dirs
      ensures Valid() && gone <= LegacyFiles(old(files).Keys) && Removed(old(files), files, gone) && dirs <= old(dirs)
      ensures ok ==> LegacyNodes(files.Keys, dirs) == {}
      ensures forall d :: d in old(dirs) && d != LEGACY && !Below(d, LEGACY) ==> d in dirs
      ensures fault.None? ==> ok && left.None?
    {
      var nodes := LegacyNodes(files.Keys, dirs);
      ok, left, gone := true, fault, {};
      while nodes != {}
        invariant ok && Valid() && LEGACY !in files && (fault.None? ==> left.None?)
        invariant nodes == LegacyNodes(files.Keys, dirs) && dirs <= old(dirs)
        invariant forall d :: d in old(dirs) && d != LEGACY && !Below(d, LEGACY) ==> d in dirs
        invariant gone <= LegacyFiles(old(files).Keys) && Removed(old(files), files, gone)
        decreases |nodes|
      {
        ghost var longest := Longest(nodes);
        var node :| node in nodes && forall q :: q in nodes ==> |q| <= |node|;
        if left == Some(0) { return false, left, gone; }
        left := Spend(left);
        gone := RemoveLeaf(node, nodes, old(files), gone);
        nodes := nodes - {node};
      }
    }

    /** A node no other is longer than has nothing below it. */
    method RemoveLeaf(node: string, ghost nodes: set<string>, ghost files0: map<string, Bytes>, ghost gone: set<string>)
      returns (ghost gone': set<string>)
      requires Valid() && LEGACY !in files && Removed(files0, files, gone) && gone <= LegacyFiles(files0.Keys)
      requires nodes == LegacyNodes(files.Keys, dirs)
      requires node in nodes && forall q :: q in nodes ==> |q| <= |node|
      modifies this`files, this`dirs
      ensures Valid() && LEGACY !in files && old(dirs) - {node} <= dirs <= old(dirs)
      ensures nodes - {node} == LegacyNodes(files.Keys, dirs)
      ensures Removed(files0, files, gone') && gone' <= LegacyFiles(files0.Keys)
    {
      LeafAlone(files.Keys, dirs, node, nodes);
      gone' := gone + ({node} * files.Keys);
      if node in files {
        WithoutFiles(files.Keys, dirs, {node});
      } else {
        WithoutDirectory(files.Keys, dirs, node);
      }
      files, dirs := files - {node}, dirs - {node};
      assert files.Keys == old(files).Keys - {node};
    }

    /** One output: its directories, a temporary file beside it, then the rename. It
        fails when a file stands where a directory is needed or a directory where the
        file goes, or at the step the fault strikes. */
    method Write(rel: string, bytes: Bytes, temp: string, fault: Option<nat>) returns (ok: bool, left: Option<nat>)
      requires Valid() && Normal(rel) && Normal(temp) && Ancestors(temp) == Ancestors(rel)
      requires temp !in files && temp !in dirs + Ancestors(rel) && temp != rel && !Below(rel, temp)
      modifies this`files, this`dirs
      ensures ok ==> Valid() && files == old(files)[rel := bytes] && dirs == old(dirs) + Ancestors(rel)
      ensures Ancestors(rel) !! old(files).Keys && rel !in old(dirs) ==>
                Valid() && dirs <= old(dirs) + Ancestors(rel)
      ensures !ok ==> files == old(files) || files == old(files)[temp := bytes]
      ensures fault.None? ==> left.None? && (ok <==> Ancestors(rel) !! old(files).Keys && rel !in old(dirs))
      ensures ok ==> Ancestors(rel) !! old(files).Keys && rel !in old(dirs)
    {
      left := fault;
      if (exists a :: a in Ancestors(rel) && a in files) || left == Some(0) { return false, left; }
      left := Spend(left);
      AncestorIff(rel, rel);
      ghost var before := files.Keys;
      if rel in dirs { return false, left; }
      WithFile(files.Keys, dirs, rel);
      WithFile(files.Keys, dirs, temp);
      DirsOnly(files.Keys, dirs, rel);
      dirs := dirs + Ancestors(rel);
      if left == Some(0) { return false, left; }
      left := Spend(left);
      files := files[temp := bytes];
      assert files.Keys == before + {temp};
      if left == Some(0) { return false, left; }
      left := Spend(left);
      files := (files - {temp})[rel := bytes];
      assert files == old(files)[rel := bytes];
      assert files.Keys == before + {rel};
      ok := true;
    }

    /** Everything the builder owns goes. */
    method RemoveOwned(old_: set<string>, hasManifest: bool, fault: Option<nat>)
      returns (ok: bool, left: Option<nat>, ghost gone: set<string>)
      requires Valid() && (if hasManifest then forall r :: r in old_ ==> Normal(r) else old_ == {} && LEGACY !in files)
      modifies this`files, this`dirs
      ensures Valid() && Removed(old(files), files, gone) && dirs <= old(dirs)
      ensures gone !! KeptFiles(old(files), old_, hasManifest).Keys
      ensures ok ==> files == KeptFiles(old(files), old_, hasManifest) && dirs <= KeptDirs(old(dirs), old_, hasManifest)
      ensures ok ==> NoneEmptied(old(files).Keys, old(dirs), files.Keys, dirs)
      ensures fault.None? ==> ok && left.None?
    {
      if hasManifest {
        ok, left, gone := RemoveOld(old_, fault);
        DirsAfter(old(dirs), old_, hasManifest);
        OldLeavesFull(old(files).Keys, old(dirs), files.Keys, dirs, gone);
      } else {
        ok, left, gone := RemoveLegacy(fault);
        LegacyKept(old(files), gone);
        if ok {
          LegacyGone(old(files), files, dirs, old(dirs), gone);
          LegacyLeavesFull(old(files).Keys, old(dirs), files.Keys, dirs, gone);
        }
      }
    }

    /** The next output of the walk. */
    method WriteNext(stage: map<string, Bytes>, staged: seq<string>, i: nat, pid: string, fault: Option<nat>,
                     ghost kept: map<string, Bytes>, ghost keptDirs: set<string>)
      returns (ok: bool, left: Option<nat>, ghost extra: set<string>)
      requires Valid() && StageOk(stage, kept.Keys, keptDirs) && Lists(staged, stage.Keys) && i < |staged|
      requires TempsFree(stage, pid, kept.Keys, keptDirs)
      requires files == WrittenTo(kept, stage, staged, i) && Opened(dirs, keptDirs, ListedTo(staged, i))
      modifies this`files, this`dirs
      ensures Valid() && Opened(dirs, keptDirs, ListedTo(staged, i + 1))
      ensures ok ==> files == WrittenTo(kept, stage, staged, i + 1) && old(dirs) <= dirs
      ensures !ok ==> PutTo(files, kept, stage, staged, i, extra) && Aside(extra, stage, pid)
      ensures fault.None? ==> ok && left.None?
    {
      var rel := staged[i];
      var temp := TempName(rel, pid);
      ListedNext(staged, i, stage.Keys);
      WrittenKeys(kept, stage, staged, i);
      StageFree(stage, kept, keptDirs, dirs, staged, i);
      TempFree(stage, kept.Keys, keptDirs, dirs, staged, i, pid);
      OpenedNext(dirs, keptDirs, ListedTo(staged, i), rel);
      ok, left := Write(rel, stage[rel], temp, fault);
      extra := files.Keys - WrittenTo(kept, stage, staged, i).Keys;
      if !ok {
        PutFrom(files, kept, stage, staged, i, temp);
        OpenedMore(dirs, old(dirs) + Ancestors(rel), keptDirs, ListedTo(staged, i + 1));
      }
    }

    /** All outputs, in the order of the walk of the staging tree. */
    method WriteAll(stage: map<string, Bytes>, staged: seq<string>, pid: string, fault: Option<nat>, ghost keptDirs: set<string>)
      returns (ok: bool, left: Option<nat>, ghost n: nat, ghost extra: set<string>)
      requires Valid() && dirs <= keptDirs && StageOk(stage, files.Keys, keptDirs) && Lists(staged, stage.Keys)
      requires TempsFree(stage, pid, files.Keys, keptDirs)
      modifies this`files, this`dirs
      ensures n <= |staged| && Valid() && Opened(dirs, keptDirs, stage.Keys)
      ensures PutTo(files, old(files), stage, staged, n, extra) && Aside(extra, stage, pid)
      ensures ok ==> files == old(files) + stage && n == |staged| && extra == {} && old(dirs) <= dirs
      ensures fault.None? ==> ok && left.None?
    {
      ok, left, n, extra := true, fault, |staged|, {};
      for i := 0 to |staged|
        invariant ok && n == |staged| && Valid() && files == WrittenTo(old(files), stage, staged, i)
        invariant Opened(dirs, keptDirs, ListedTo(staged, i)) && old(dirs) <= dirs && (fault.None? ==> left.None?)
      {
        ok, left, extra := WriteNext(stage, staged, i, pid, left, old(files), keptDirs);
        if !ok {
          n := i;
          OpenedAll(dirs, keptDirs, staged, i + 1, stage.Keys);
          return;
        }
      }
      extra := {};
      AllPut(files, old(files), stage, staged, pid, dirs, keptDirs);
    }

    /** The commit. Cut short by a fault at any step, it leaves a state the runs below
        account for; without one it cannot fail. */
    method Commit(stage: map<string, Bytes>, staged: seq<string>, pid: string, fault: Option<nat>)
      returns (ok: bool, left: Option<nat>, ghost gone: set<string>, ghost written: set<string>, ghost extra: set<string>)
      requires Valid() && Lists(staged, stage.Keys) && InWalkOrder(staged) && GLOBAL_LIST_OUTPUT in stage
      requires StageOk(stage, Unowned(State()).Keys, KeptDirs(dirs, Old(State()), manifest.Some?))
      requires TempsFree(stage, pid, files.Keys, dirs)
      modifies this`files, this`dirs
      ensures Valid() && Cut(old(State()), stage, State(), gone, written, extra)
      ensures ok ==> files == Unowned(old(State())) + stage && written == stage.Keys && extra == {}
      ensures ok ==> NoneEmptied(old(files).Keys, old(dirs), files.Keys, dirs)
      ensures fault.None? ==> ok && left.None?
    {
      ghost var s := State();
      var old_ := if manifest.Some? then manifest.value else {};
      LegacyIsFree(s, stage);
      ok, left, gone := RemoveOwned(old_, manifest.Some?, fault);
      written, extra := {}, {};
      if !ok {
        CutRemoving(s, stage, State(), gone);
        return;
      }
      ghost var midFiles, midDirs := files.Keys, dirs;
      ok, left, written, extra := Replace(stage, staged, pid, left, s, gone);
      if ok { NoneEmptiedTwice(s.files.Keys, s.dirs, midFiles, midDirs, files.Keys, dirs); }
    }

    /** The second half of a commit, once everything owned has gone. */
    method Replace(stage: map<string, Bytes>, staged: seq<string>, pid: string, fault: Option<nat>, ghost s: Tree,
                   ghost gone: set<string>)
      returns (ok: bool, left: Option<nat>, ghost written: set<string>, ghost extra: set<string>)
      requires Valid() && Lists(staged, stage.Keys) && InWalkOrder(staged) && manifest == s.manifest
      requires StageOk(stage, Unowned(s).Keys, KeptDirs(s.dirs, Old(s), s.manifest.Some?))
      requires TempsFree(stage, pid, s.files.Keys, s.dirs)
      requires files == Unowned(s) && Removed(s.files, files, gone) && dirs <= KeptDirs(s.dirs, Old(s), s.manifest.Some?)
      modifies this`files, this`dirs
      ensures Valid() && Cut(s, stage, State(), gone, written, extra)
      ensures ok ==> files == Unowned(s) + stage && written == stage.Keys && extra == {}
      ensures ok ==> NoneEmptied(old(files).Keys, old(dirs), files.Keys, dirs)
      ensures fault.None? ==> ok && left.None?
    {
      ghost var n;
      StageOkLess(stage, Unowned(s).Keys, KeptDirs(s.dirs, Old(s), s.manifest.Some?), dirs);
      ok, left, n, extra := WriteAll(stage, staged, pid, fault, dirs);
      written := ListedTo(staged, n);
      if n == |staged| { ListedAll(staged, stage.Keys); }
      AsideFresh(s, stage, pid, extra);
      OpenedFrom(dirs, old(dirs), s.dirs, stage.Keys);
      PrefixClosed(staged, n, stage.Keys);
      CutWriting(s, stage, State(), Unowned(s), staged, n, gone, extra);
      if ok { WritingFills(old(files).Keys, old(dirs), files.Keys, dirs, stage.Keys); }
    }

    /** A whole build: refused without touching anything, committed, or cut short. */
    method Build(existing: seq<string>, site: bool, articles: seq<Article>, assets: seq<Asset>, stage: map<string, Bytes>,
                 staged: seq<string>, pid: string, fault: Option<nat>)
      returns (ok: bool, ghost gone: set<string>, ghost written: set<string>, ghost extra: set<string>)
      requires Valid() && Listing(existing, files.Keys, dirs) && Lists(staged, stage.Keys) && InWalkOrder(staged)
      requires forall r :: r in Wanted(site, articles, assets) ==> Normal(r)
      requires TempsFree(stage, pid, files.Keys, dirs)
      modifies this
      ensures Valid() && (ok ==> Built(old(State()), stage, State()))
      ensures !ok ==> State() == old(State()) || Cut(old(State()), stage, State(), gone, written, extra)
      ensures Accepts(old(State()), site, articles, assets, stage) && fault.None? ==> ok
      ensures !Accepts(old(State()), site, articles, assets, stage) ==> !ok && State() == old(State())
    {
      ghost var before, wanted := State(), Wanted(site, articles, assets);
      gone, written, extra := {}, {}, {};
      var old_ := if manifest.Some? then manifest.value else {};
      var desired := BuildWebClaims(existing, old_, manifest.Some?, site, articles, assets);
      AllowedIff(existing, old_, manifest.Some?, files, dirs, wanted);
      if desired.None? { return false, gone, written, extra; }
      if stage.Keys != desired.value.Keys { return false, gone, written, extra; }
      AllowedStage(before, wanted, stage);
      assert GLOBAL_LIST_OUTPUT == wanted[0];
      ok, gone, written, extra := Install(stage, staged, desired.value.Keys, pid, fault);
    }

    /** The commit, then the new manifest. */
    method Install(stage: map<string, Bytes>, staged: seq<string>, claimed: set<string>, pid: string, fault: Option<nat>)
      returns (ok: bool, ghost gone: set<string>, ghost written: set<string>, ghost extra: set<string>)
      requires Valid() && Lists(staged, stage.Keys) && InWalkOrder(staged) && GLOBAL_LIST_OUTPUT in stage && claimed == stage.Keys
      requires StageOk(stage, Unowned(State()).Keys, KeptDirs(dirs, Old(State()), manifest.Some?))
      requires TempsFree(stage, pid, files.Keys, dirs)
      modifies this
      ensures Valid() && (ok ==> Built(old(State()), stage, State()))
      ensures !ok ==> Cut(old(State()), stage, State(), gone, written, extra)
      ensures fault.None? ==> ok
    {
      var left;
      ok, left, gone, written, extra := Commit(stage, staged, pid, fault);
      if !ok || left == Some(0) { return false, gone, written, extra; }
      manifest := Some(claimed);
    }
  }

  /** The claims of a build succeed and its staging tree holds exactly its outputs. */
  ghost predicate Accepts(t: Tree, site: bool, articles: seq<Article>, assets: seq<Asset>, stage: map<string, Bytes>) {
    && Allowed(t, Wanted(site, articles, assets)) && !RouteReserved(articles, |articles|) && !AssetReserved(assets, |assets|)
    && stage.Keys == Elements(Wanted(site, articles, assets))
  }

  /** `files` is what was there without `gone`. */
  ghost predicate Removed(before: map<string, Bytes>, files: map<string, Bytes>, gone: set<string>) {
    && gone <= before.Keys && files.Keys == before.Keys - gone
    && forall p :: p in files ==> files[p] == before[p]
  }

  function Spend(fault: Option<nat>): (r: Option<nat>)
    ensures fault.None? ==> r.None?
  {
    if fault.Some? && fault.value > 0 then Some(fault.value - 1) else fault
  }

  function LegacyFiles(files: set<string>): set<string> {
    set p | p in files && Below(p, LEGACY)
  }

  function LegacyNodes(files: set<string>, dirs: set<string>): set<string> {
    LegacyFiles(files) + set d | d in dirs && (d == LEGACY || Below(d, LEGACY))
  }

  lemma {:induction false} NoNodes(files: set<string>, dirs: set<string>)
    requires LegacyNodes(files, dirs) == {}
    ensures LegacyFiles(files) == {} && forall d :: d in dirs ==> d != LEGACY && !Below(d, LEGACY)
  {
    forall d | d in dirs ensures d != LEGACY && !Below(d, LEGACY) {
      assert d == LEGACY || Below(d, LEGACY) ==> d in LegacyNodes(files, dirs);
    }
  }

  lemma {:induction false} LeafAlone(files: set<string>, dirs: set<string>, node: string, nodes: set<string>)
    requires TreeOk(files, dirs) && LEGACY !in files
    requires nodes == LegacyNodes(files, dirs)
    requires node in nodes && forall q :: q in nodes ==> |q| <= |node|
    ensures forall q :: q in files + dirs ==> !Below(q, node)
  {
    forall q | q in files + dirs ensures Below(q, node) ==> q in nodes {
      if Below(q, node) && node != LEGACY { BelowBelow(LEGACY, node, q); }
    }
  }

  lemma {:induction false} DirsOnly(files: set<string>, dirs: set<string>, rel: string)
    requires TreeOk(files + {rel}, dirs + Ancestors(rel))
    ensures TreeOk(files, dirs + Ancestors(rel))
  {
    WithoutFiles(files + {rel}, dirs + Ancestors(rel), {rel} - files);
    assert files + {rel} - ({rel} - files) == files;
  }

  lemma {:induction false} ApartStage(wanted: seq<string>, r: string, q: string)
    requires Apart(wanted) && r in wanted && q in wanted && r != q
    ensures !Conflicts(r, q)
  {
    var j :| 0 <= j < |wanted| && wanted[j] == r;
    var k :| 0 <= k < |wanted| && wanted[k] == q;
    if j < k { assert !Conflicts(wanted[j], wanted[k]); } else { assert !Conflicts(wanted[k], wanted[j]); }
  }

  lemma {:induction false} AllowedStage(s: Tree, wanted: seq<string>, stage: map<string, Bytes>)
    requires Allowed(s, wanted) && stage.Keys == Elements(wanted) && forall r :: r in wanted ==> Normal(r)
    ensures StageOk(stage, Unowned(s).Keys, KeptDirs(s.dirs, Old(s), s.manifest.Some?))
  {
    forall r | r in stage ensures r in wanted { assert r in Elements(wanted); }
    forall r, q | r in stage && q in stage && r != q ensures !Conflicts(r, q) { ApartStage(wanted, r, q); }
  }

  ghost predicate Lists(staged: seq<string>, all: set<string>) {
    && (forall j, k :: 0 <= j < k < |staged| ==> staged[j] != staged[k])
    && (forall x :: x in staged <==> x in all)
  }

  function ListedTo(staged: seq<string>, n: nat): set<string>
    requires n <= |staged|
  {
    if n == 0 then {} else ListedTo(staged, n - 1) + {staged[n - 1]}
  }

  lemma {:induction false} InListed(staged: seq<string>, n: nat, x: string)
    requires n <= |staged|
    ensures x in ListedTo(staged, n) <==> x in staged[..n]
  {
    if n > 0 {
      InListed(staged, n - 1, x);
      assert staged[..n] == staged[..n - 1] + [staged[n - 1]];
    }
  }

  lemma {:induction false} ListedNext(staged: seq<string>, n: nat, all: set<string>)
    requires n < |staged| && Lists(staged, all)
    ensures staged[n] in all && staged[n] !in ListedTo(staged, n)
  {
    InListed(staged, n, staged[n]);
  }

  lemma {:induction false} ListedAll(staged: seq<string>, all: set<string>)
    requires Lists(staged, all)
    ensures ListedTo(staged, |staged|) == all
  {
    assert staged[..|staged|] == staged;
    forall x ensures x in ListedTo(staged, |staged|) <==> x in all { InListed(staged, |staged|, x); }
  }

  function WrittenTo(files: map<string, Bytes>, stage: map<string, Bytes>, staged: seq<string>, n: nat): map<string, Bytes>
    requires n <= |staged|
  {
    if n == 0 then files
    else
      var before := WrittenTo(files, stage, staged, n - 1);
      if staged[n - 1] in stage then before[staged[n - 1] := stage[staged[n - 1]]] else before
  }

  lemma {:induction false} WrittenKeys(files: map<string, Bytes>, stage: map<string, Bytes>, staged: seq<string>, n: nat)
    requires n <= |staged| && Lists(staged, stage.Keys)
    ensures WrittenTo(files, stage, staged, n).Keys == files.Keys + ListedTo(staged, n)
  {
    if n > 0 { WrittenKeys(files, stage, staged, n - 1); }
  }

  lemma {:induction false} WrittenAt(files: map<string, Bytes>, stage: map<string, Bytes>, staged: seq<string>, n: nat, p: string)
    requires n <= |staged| && Lists(staged, stage.Keys) && p in WrittenTo(files, stage, staged, n)
    ensures p in ListedTo(staged, n) ==> p in stage && WrittenTo(files, stage, staged, n)[p] == stage[p]
    ensures p !in ListedTo(staged, n) ==> p in files && WrittenTo(files, stage, staged, n)[p] == files[p]
  {
    if n > 0 && p != staged[n - 1] { WrittenAt(files, stage, staged, n - 1, p); }
  }

  lemma {:induction false} WrittenAll(files: map<string, Bytes>, stage: map<string, Bytes>, staged: seq<string>)
    requires Lists(staged, stage.Keys)
    ensures WrittenTo(files, stage, staged, |staged|) == files + stage
  {
    var all := WrittenTo(files, stage, staged, |staged|);
    WrittenKeys(files, stage, staged, |staged|);
    ListedAll(staged, stage.Keys);
    forall p | p in all ensures all[p] == (files + stage)[p] { WrittenAt(files, stage, staged, |staged|, p); }
  }

  lemma {:induction false} OpenedNext(dirs: set<string>, keptDirs: set<string>, done: set<string>, rel: string)
    requires Opened(dirs, keptDirs, done)
    ensures Opened(dirs + Ancestors(rel), keptDirs, done + {rel})
  {
    forall d | d in Ancestors(rel) ensures Below(rel, d) { AncestorIff(d, rel); }
  }

  lemma {:induction false} DirsAfter(dirs: set<string>, old_: set<string>, hasManifest: bool)
    requires (hasManifest || old_ == {}) && forall r :: r in old_ ==> Normal(r)
    ensures hasManifest ==> dirs == KeptDirs(dirs, old_, hasManifest)
    ensures !hasManifest ==> (set d | d in dirs && d != LEGACY && !Below(d, LEGACY)) == KeptDirs(dirs, old_, hasManifest)
  {
    assert "blog/" == LEGACY + "/";
    forall d | d in dirs ensures d + "/" !in old_ { assert (d + "/")[|d|] == '/'; }
    forall d | d in dirs ensures "blog/" <= d + "/" <==> d == LEGACY || Below(d, LEGACY) {
      if "blog/" <= d + "/" {
        if |d| == 4 { assert d == (d + "/")[..4] == LEGACY; } else { assert d[..5] == (d + "/")[..5]; }
      }
    }
  }

  /** While the outputs are written one by one, the next one never meets a file
      above it or a directory in its place. */
  lemma {:induction false} StageFree(stage: map<string, Bytes>, kept: map<string, Bytes>, keptDirs: set<string>, dirs: set<string>,
                                     staged: seq<string>, i: nat)
    requires StageOk(stage, kept.Keys, keptDirs) && Lists(staged, stage.Keys) && i < |staged|
    requires Opened(dirs, keptDirs, ListedTo(staged, i))
    ensures Normal(staged[i]) && staged[i] !in dirs
    ensures Ancestors(staged[i]) !! kept.Keys + ListedTo(staged, i)
  {
    var rel, done := staged[i], ListedTo(staged, i);
    ListedNext(staged, i, stage.Keys);
    assert Free(rel, kept.Keys, keptDirs);
    forall x | x in done ensures x in stage && x != rel && !Conflicts(x, rel) {
      InListed(staged, i, x);
      assert x in staged;
    }
    forall a | a in Ancestors(rel) ensures a !in kept && a !in done { AncestorIff(a, rel); }
  }

  /** Nor does its temporary file meet anything. */
  lemma {:induction false} TempFree(stage: map<string, Bytes>, kept: set<string>, keptDirs: set<string>, dirs: set<string>,
                                    staged: seq<string>, i: nat, pid: string)
    requires StageOk(stage, kept, keptDirs) && Lists(staged, stage.Keys) && i < |staged|
    requires TempsFree(stage, pid, kept, keptDirs) && Opened(dirs, keptDirs, ListedTo(staged, i))
    ensures var rel, temp := staged[i], TempName(staged[i], pid);
            && Normal(temp) && Ancestors(temp) == Ancestors(rel) && temp != rel && !Below(rel, temp)
            && temp !in kept + ListedTo(staged, i) && temp !in dirs + Ancestors(rel)
    ensures forall r :: r in stage ==> !Conflicts(TempName(staged[i], pid), r)
  {
    var rel, temp := staged[i], TempName(staged[i], pid);
    assert rel in staged && rel in stage && Free(rel, kept, keptDirs);
    TempNormal(rel, pid);
    TempAncestors(rel, pid);
    forall r | r in stage ensures !Conflicts(temp, r) {
      if r != rel { assert !Conflicts(rel, r); }
      TempApart(rel, r, pid);
    }
    AncestorIff(temp, rel);
    ListedIn(staged, i, stage.Keys);
    assert temp !in dirs;
  }

  lemma {:induction false} ListedIn(staged: seq<string>, n: nat, all: set<string>)
    requires n <= |staged| && Lists(staged, all)
    ensures ListedTo(staged, n) <= all
  {
    forall x | x in ListedTo(staged, n) ensures x in all {
      InListed(staged, n, x);
      assert x in staged;
    }
  }

  /** The first `n` outputs are in place on top of what was kept, with `extra` besides. */
  ghost predicate PutTo(files: map<string, Bytes>, kept: map<string, Bytes>, stage: map<string, Bytes>, staged: seq<string>, n: nat,
                        extra: set<string>)
  {
    && n <= |staged| && ListedTo(staged, n) <= stage.Keys
    && files.Keys == kept.Keys + ListedTo(staged, n) + extra
    && (forall p :: p in kept && p !in ListedTo(staged, n) ==> files[p] == kept[p])
    && (forall r :: r in ListedTo(staged, n) ==> files[r] == stage[r])
  }

  /** At most one leftover temporary file, in no output's way. */
  ghost predicate Aside(extra: set<string>, stage: map<string, Bytes>, pid: string) {
    && AtMostOne(extra)
    && (forall x :: x in extra ==> exists r :: r in stage && x == TempName(r, pid))
    && (forall x, r :: x in extra && r in stage ==> !Conflicts(x, r))
  }

  lemma {:induction false} PutWritten(files: map<string, Bytes>, kept: map<string, Bytes>, stage: map<string, Bytes>,
                                      staged: seq<string>, n: nat)
    requires n <= |staged| && Lists(staged, stage.Keys) && files == WrittenTo(kept, stage, staged, n)
    ensures PutTo(files, kept, stage, staged, n, {})
  {
    WrittenKeys(kept, stage, staged, n);
    ListedIn(staged, n, stage.Keys);
    forall p | p in files
      ensures p in ListedTo(staged, n) ==> files[p] == stage[p]
      ensures p !in ListedTo(staged, n) ==> p in kept && files[p] == kept[p]
    {
      WrittenAt(kept, stage, staged, n, p);
    }
  }

  lemma {:induction false} PutFrom(files: map<string, Bytes>, kept: map<string, Bytes>, stage: map<string, Bytes>,
                                   staged: seq<string>, n: nat, temp: string)
    requires n <= |staged| && Lists(staged, stage.Keys) && temp !in WrittenTo(kept, stage, staged, n)
    requires files == WrittenTo(kept, stage, staged, n)
             || (temp in files && files == WrittenTo(kept, stage, staged, n)[temp := files[temp]])
    ensures PutTo(files, kept, stage, staged, n, files.Keys - WrittenTo(kept, stage, staged, n).Keys)
    ensures files.Keys - WrittenTo(kept, stage, staged, n).Keys <= {temp}
  {
    var w := WrittenTo(kept, stage, staged, n);
    PutWritten(w, kept, stage, staged, n);
    assert forall p :: p in w ==> p in files && files[p] == w[p];
  }

  lemma {:induction false} OpenedMore(dirs: set<string>, more: set<string>, keptDirs: set<string>, done: set<string>)
    requires dirs <= more && Opened(more, keptDirs, done)
    ensures Opened(dirs, keptDirs, done)
  {
  }

  lemma {:induction false} OpenedFrom(dirs: set<string>, keptDirs: set<string>, more: set<string>, done: set<string>)
    requires keptDirs <= more && Opened(dirs, keptDirs, done)
    ensures Opened(dirs, more, done)
  {
  }

  lemma {:induction false} StageOkLess(stage: map<string, Bytes>, kept: set<string>, keptDirs: set<string>, dirs: set<string>)
    requires StageOk(stage, kept, keptDirs) && dirs <= keptDirs
    ensures StageOk(stage, kept, dirs)
  {
    forall r | r in stage ensures Normal(r) && Free(r, kept, dirs) { assert Free(r, kept, keptDirs); }
  }

  lemma {:induction false} OpenedAll(dirs: set<string>, keptDirs: set<string>, staged: seq<string>, n: nat, all: set<string>)
    requires n <= |staged| && Lists(staged, all) && Opened(dirs, keptDirs, ListedTo(staged, n))
    ensures Opened(dirs, keptDirs, all)
  {
    ListedIn(staged, n, all);
  }

  lemma {:induction false} AllPut(files: map<string, Bytes>, kept: map<string, Bytes>, stage: map<string, Bytes>,
                                  staged: seq<string>, pid: string, dirs: set<string>, keptDirs: set<string>)
    requires Lists(staged, stage.Keys) && files == WrittenTo(kept, stage, staged, |staged|)
    requires Opened(dirs, keptDirs, ListedTo(staged, |staged|))
    ensures files == kept + stage && Opened(dirs, keptDirs, stage.Keys)
    ensures PutTo(files, kept, stage, staged, |staged|, {}) && Aside({}, stage, pid)
  {
    OpenedAll(dirs, keptDirs, staged, |staged|, stage.Keys);
    WrittenAll(kept, stage, staged);
    PutWritten(files, kept, stage, staged, |staged|);
  }

  // ------------------------------------------------------------ a commit cut short

  lemma {:induction false} BlogPrefix(p: string)
    ensures "blog/" <= p <==> Below(p, LEGACY)
    ensures "blog/" <= p + "/" <==> p == LEGACY || Below(p, LEGACY)
  {
    assert "blog/" == LEGACY + "/";
    if "blog/" <= p + "/" {
      if |p| == 4 { assert p == (p + "/")[..4] == LEGACY; } else { assert p[..5] == (p + "/")[..5]; }
    }
  }

  lemma {:induction false} LegacyKept(files: map<string, Bytes>, gone: set<string>)
    requires gone <= LegacyFiles(files.Keys)
    ensures gone !! KeptFiles(files, {}, false).Keys
  {
    forall p | p in gone ensures "blog/" <= p { BlogPrefix(p); }
  }

  lemma {:induction false} LegacyGone(before: map<string, Bytes>, files: map<string, Bytes>, dirs: set<string>, dirs0: set<string>,
                                      gone: set<string>)
    requires Removed(before, files, gone) && gone <= LegacyFiles(before.Keys) && LegacyNodes(files.Keys, dirs) == {} && dirs <= dirs0
    ensures files == KeptFiles(before, {}, false) && dirs <= KeptDirs(dirs0, {}, false)
  {
    NoNodes(files.Keys, dirs);
    forall p | p in before ensures p in files <==> KeptNode(p, {}, false) {
      BlogPrefix(p);
      assert p in files && Below(p, LEGACY) ==> p in LegacyFiles(files.Keys);
    }
    forall d | d in dirs ensures KeptNode(d + "/", {}, false) { BlogPrefix(d); }
  }

  /** The article list goes below blog/, so no kept file is in that directory's place. */
  lemma {:induction false} LegacyIsFree(s: Tree, stage: map<string, Bytes>)
    requires GLOBAL_LIST_OUTPUT in stage && StageOk(stage, Unowned(s).Keys, KeptDirs(s.dirs, Old(s), s.manifest.Some?))
    ensures s.manifest.None? ==> LEGACY !in s.files
  {
    assert Free(GLOBAL_LIST_OUTPUT, Unowned(s).Keys, KeptDirs(s.dirs, Old(s), s.manifest.Some?));
    assert GLOBAL_LIST_OUTPUT[..5] == LEGACY + "/";
    assert s.manifest.None? && LEGACY in s.files ==> LEGACY in Unowned(s);
  }

  lemma {:induction false} CutRemoving(s: Tree, stage: map<string, Bytes>, t: Tree, gone: set<string>)
    requires StageOk(stage, Unowned(s).Keys, KeptDirs(s.dirs, Old(s), s.manifest.Some?))
    requires t.manifest == s.manifest && TreeOk(t.files.Keys, t.dirs) && t.dirs <= s.dirs
    requires Removed(s.files, t.files, gone) && gone !! Unowned(s).Keys
    ensures Cut(s, stage, t, gone, {}, {})
  {
  }

  lemma {:induction false} AsideFresh(s: Tree, stage: map<string, Bytes>, pid: string, extra: set<string>)
    requires TempsFree(stage, pid, s.files.Keys, s.dirs) && Aside(extra, stage, pid)
    ensures extra !! s.files.Keys && forall x, r :: x in extra && r in stage ==> !Conflicts(x, r)
  {
  }

  /** What is in place after `n` outputs is closed under the walk. */
  lemma {:induction false} PrefixClosed(staged: seq<string>, n: nat, all: set<string>)
    requires n <= |staged| && Lists(staged, all) && InWalkOrder(staged)
    ensures WalkClosed(ListedTo(staged, n), all)
  {
    forall q, r | r in ListedTo(staged, n) && q in all && Precedes(q, r) ensures q in ListedTo(staged, n) {
      InListed(staged, n, r);
      InListed(staged, n, q);
      var j :| 0 <= j < n && staged[..n][j] == r;
      var i :| 0 <= i < |staged| && staged[i] == q;
      EarlierIndex(staged, i, j);
      assert staged[..n][i] == q;
    }
  }

  lemma {:induction false} CutWriting(s: Tree, stage: map<string, Bytes>, t: Tree, kept: map<string, Bytes>, staged: seq<string>,
                                      n: nat, gone: set<string>, extra: set<string>)
    requires StageOk(stage, Unowned(s).Keys, KeptDirs(s.dirs, Old(s), s.manifest.Some?))
    requires t.manifest == s.manifest && TreeOk(t.files.Keys, t.dirs)
    requires kept == Unowned(s) && Removed(s.files, kept, gone)
    requires PutTo(t.files, kept, stage, staged, n, extra)
    requires extra !! s.files.Keys && forall x, r :: x in extra && r in stage ==> !Conflicts(x, r)
    requires Opened(t.dirs, s.dirs, stage.Keys) && WalkClosed(ListedTo(staged, n), stage.Keys) && AtMostOne(extra)
    ensures Cut(s, stage, t, gone, ListedTo(staged, n), extra)
  {
    forall p | p in s.files && p !in gone ensures p !in ListedTo(staged, n) {
      if p in ListedTo(staged, n) {
        assert Free(p, Unowned(s).Keys, KeptDirs(s.dirs, Old(s), s.manifest.Some?));
        assert Conflicts(p, p);
      }
    }
  }

}
