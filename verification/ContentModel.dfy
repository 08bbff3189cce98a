/** The shared path model: article keys, directory scopes and comment targets. */
module ContentModel {
  import opened Common
  import opened Text

  const MAX_TARGET_LEN := 200

  predicate ArticleSegment(s: string) {
    s != "" && forall k :: 0 <= k < |s| ==> 'a' <= s[k] <= 'z' || Digit(s[k]) || s[k] == '-'
  }

  /** `validate_relative` over article segments, which admit neither '.' nor '\'. */
  predicate ArticleRelative(path: string) {
    path != "" && forall seg :: seg in Split(path, '/') ==> ArticleSegment(seg)
  }

  predicate ValidTarget(target: string) {
    target == "/"
    || (ByteLen(target) <= MAX_TARGET_LEN && 2 <= |target| && target[0] == '/' && target[|target| - 1] == '/'
        && ArticleRelative(target[1..|target| - 1]))
  }

  /** An article source path without ".md": the key, and the directory it lies in. */
  datatype ArticlePath = ArticlePath(key: string, route: string, directory: string)

  function DirectoryOf(key: string): (d: string)
    ensures |d| <= |key|
  {
    if key == "" then ""
    else if key[|key| - 1] == '/' then key[..|key| - 1]
    else DirectoryOf(key[..|key| - 1])
  }

  /** A source path is an article when it is `key.md` with article segments only. */
  function ParseArticle(source: string): (r: Option<ArticlePath>)
    ensures r.Some? ==> source == r.value.key + ".md" && ArticleRelative(r.value.key)
  {
    if |source| < 3 || source[|source| - 3..] != ".md" then None
    else
      var key := source[..|source| - 3];
      if ArticleRelative(key) then Some(ArticlePath(key, "/" + key + "/", DirectoryOf(key))) else None
  }

  /** A directory shared by comments and statistics, and its target. */
  datatype ContentScope = ContentScope(directory: string, target: string, commentRel: string)

  /** The scope of a directory; every scope that exists comes from here. */
  function FromDirectory(directory: string): (r: Option<ContentScope>)
    ensures r.Some? ==> r.value.directory == directory && ValidTarget(r.value.target)
  {
    var target := if directory == "" then "/" else "/" + directory + "/";
    if (directory != "" && !ArticleRelative(directory)) || !ValidTarget(target) then None
    else Some(ContentScope(directory, target, if directory == "" then "comment" else directory + "/comment"))
  }

  function FromTarget(target: string): Option<ContentScope> {
    if !ValidTarget(target) then None
    else FromDirectory(if target == "/" then "" else target[1..|target| - 1])
  }

  /** The target is the directory between slashes, and its comments are in a file there. */
  lemma {:induction false} ScopeFields(directory: string)
    requires FromDirectory(directory).Some?
    ensures var scope := FromDirectory(directory).value;
            && scope.directory == directory
            && (directory == "" ==> scope.target == "/" && scope.commentRel == "comment")
            && (directory != "" ==> scope.target == "/" + directory + "/" && scope.commentRel == directory + "/comment")
  {
  }

  /** Directories and targets name each other. */
  lemma {:induction false} ScopeReadBack(directory: string)
    requires FromDirectory(directory).Some?
    ensures FromTarget(FromDirectory(directory).value.target) == FromDirectory(directory)
  {
    var target := FromDirectory(directory).value.target;
    if directory != "" { assert target[1..|target| - 1] == directory; }
  }

  lemma {:induction false} TargetReadBack(target: string)
    requires FromTarget(target).Some?
    ensures FromTarget(target).value.target == target
  {
    if target != "/" {
      assert target == "/" + target[1..|target| - 1] + "/";
      assert target[1..|target| - 1] != "";
    }
  }

  // ------------------------------------------------------------ article paths

  lemma {:induction false} SplitLast(a: string, b: string, sep: char)
    requires sep !in b
    ensures Split(a + [sep] + b, sep) == Split(a, sep) + [b]
    decreases |a|
  {
    var s := a + [sep] + b;
    match Find(a, sep)
    case None =>
      assert s[..|a|] == a && s[|a| + 1..] == b;
      FindIs(s, sep, |a|);
    case Some(k) =>
      assert s[..k] == a[..k] && s[k + 1..] == a[k + 1..] + [sep] + b;
      FindIs(s, sep, k);
      SplitLast(a[k + 1..], b, sep);
  }

  lemma {:induction false} DirectoryBefore(directory: string, name: string)
    requires '/' !in name
    ensures DirectoryOf(directory + "/" + name) == directory && DirectoryOf(name) == ""
  {
    if name != "" {
      var n := |name| - 1;
      assert (directory + "/" + name)[..|directory| + 1 + n] == directory + "/" + name[..n];
      DirectoryBefore(directory, name[..n]);
    } else {
      assert directory + "/" + name == directory + "/" && (directory + "/")[..|directory|] == directory;
    }
  }

  function Under(directory: string, name: string): string {
    if directory == "" then name else directory + "/" + name
  }

  /** A file `name.md` in a directory is an article exactly if its name is a segment
      and the directory is made of segments; it then lies in that directory, which
      is a scope exactly if its target is not too long. */
  lemma {:induction false} ArticleParts(directory: string, name: string)
    requires '/' !in name
    ensures var a := ParseArticle(Under(directory, name) + ".md");
            && (a.Some? <==> ArticleSegment(name) && (directory == "" || ArticleRelative(directory)))
            && (a.Some? ==> a.value.key == Under(directory, name) && a.value.directory == directory)
            && (a.Some? ==> (FromDirectory(directory).Some? <==> directory == "" || ByteLen("/" + directory + "/") <= MAX_TARGET_LEN))
  {
    var key := Under(directory, name);
    var source := key + ".md";
    assert source[|source| - 3..] == ".md" && source[..|source| - 3] == key;
    DirectoryBefore(directory, name);
    KeySegments(directory, name);
    var target := "/" + directory + "/";
    assert target[1..|target| - 1] == directory;
  }

  lemma {:induction false} KeySegments(directory: string, name: string)
    requires '/' !in name
    ensures ArticleRelative(Under(directory, name)) <==> ArticleSegment(name) && (directory == "" || ArticleRelative(directory))
  {
    var key := Under(directory, name);
    if directory == "" {
      assert Split(name, '/') == [name] && name in [name];
    } else {
      var before := Split(directory, '/');
      SplitLast(directory, name, '/');
      assert "/" == ['/'];
      assert forall seg :: seg in Split(key, '/') <==> seg in before || seg == name;
    }
  }

  /** Every article is a named file in the directory it is said to lie in. */
  lemma {:induction false} ArticleReadBack(source: string) returns (name: string)
    requires ParseArticle(source).Some?
    ensures var a := ParseArticle(source).value;
            '/' !in name && ArticleSegment(name) && source == Under(a.directory, name) + ".md"
            && (a.directory == "" || ArticleRelative(a.directory))
  {
    var a := ParseArticle(source).value;
    name := NameOf(a.key);
    if a.key[0] == '/' { LeadingSlash(a.key); }
    ArticleParts(a.directory, name);
  }

  /** What stands behind the last slash. */
  lemma {:induction false} NameOf(key: string) returns (name: string)
    ensures '/' !in name && (key == name || key == DirectoryOf(key) + "/" + name) && (key == name ==> DirectoryOf(key) == "")
  {
    if key == "" {
      name := "";
    } else if key[|key| - 1] == '/' {
      name := "";
      assert key == DirectoryOf(key) + "/" + name;
    } else {
      var n := |key| - 1;
      var rest := NameOf(key[..n]);
      name := rest + [key[n]];
      assert key == key[..n] + [key[n]];
    }
  }

  lemma {:induction false} LeadingSlash(key: string)
    requires key != "" && key[0] == '/'
    ensures "" in Split(key, '/')
  {
    FindIs(key, '/', 0);
  }
}
