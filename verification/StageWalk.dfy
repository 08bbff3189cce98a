/** The walk of the staging tree: depth first, every directory sorted by file name,
    and the order of paths that comes out of it. */
module StageWalk {
  import opened Common
  import opened Sorting

  /** A directory's entry; symbolic links end the build before anything is committed. */
  datatype Entry = Regular(name: string) | Directory(name: string, inner: seq<Entry>)

  // ------------------------------------------------------------------ orders

  /** A component ends before it goes on: the slash is the least of all characters. */
  function Rank(c: char): nat { if c == '/' then 0 else 1 + c as int }

  /** Paths as the walk meets them. */
  predicate Precedes(a: string, b: string) {
    b != "" && (a == "" || Rank(a[0]) < Rank(b[0]) || (a[0] == b[0] && Precedes(a[1..], b[1..])))
  }

  ghost predicate InWalkOrder(paths: seq<string>) {
    forall j, k :: 0 <= j < k < |paths| ==> Precedes(paths[j], paths[k])
  }

  lemma {:induction false} OneWay(a: string, b: string)
    requires Precedes(a, b)
    ensures !Precedes(b, a) && a != b
  {
    if a != "" && a[0] == b[0] { OneWay(a[1..], b[1..]); }
  }

  lemma {:induction false} Onward(a: string, b: string, c: string)
    requires Precedes(a, b) && Precedes(b, c)
    ensures Precedes(a, c)
  {
    if a != "" && b != "" && a[0] == b[0] == c[0] { Onward(a[1..], b[1..], c[1..]); }
  }

  lemma {:induction false} EarlierIndex(paths: seq<string>, i: nat, j: nat)
    requires InWalkOrder(paths) && i < |paths| && j < |paths| && Precedes(paths[i], paths[j])
    ensures i < j
  {
    OneWay(paths[i], paths[j]);
  }

  // -------------------------------------------------------------------- walk

  predicate PlainName(name: string) { name != "" && '/' !in name }

  /** As read and sorted: plain names in ascending order, in every directory. */
  ghost predicate SortedTree(entries: seq<Entry>)
    decreases entries, 1
  {
    && (forall j, k :: 0 <= j < k < |entries| ==> Before(entries[j].name, entries[k].name))
    && AllSorted(entries)
  }

  ghost predicate AllSorted(entries: seq<Entry>)
    decreases entries, 0
  {
    entries == [] || (AllSorted(entries[..|entries| - 1]) && SortedBelow(entries[|entries| - 1]))
  }

  ghost predicate SortedBelow(e: Entry)
    decreases e, 0
  {
    PlainName(e.name) && (e.Directory? ==> SortedTree(e.inner))
  }

  function Walk(entries: seq<Entry>, prefix: string): seq<string>
    decreases entries, 1
  {
    if entries == [] then [] else Walk(entries[..|entries| - 1], prefix) + WalkEntry(entries[|entries| - 1], prefix)
  }

  function WalkEntry(e: Entry, prefix: string): seq<string>
    decreases e, 0
  {
    if e.Regular? then [prefix + e.name] else Walk(e.inner, prefix + e.name + "/")
  }

  method WalkRegularFiles(entries: seq<Entry>, prefix: string, before: seq<string>) returns (out: seq<string>)
    ensures out == before + Walk(entries, prefix)
    decreases entries
  {
    out := before;
    for i := 0 to |entries|
      invariant out == before + Walk(entries[..i], prefix)
    {
      WalkNext(entries, i, prefix);
      Regroup(before, Walk(entries[..i], prefix), WalkEntry(entries[i], prefix));
      match entries[i]
      case Regular(name) => out := out + [prefix + name];
      case Directory(name, inner) => out := WalkRegularFiles(inner, prefix + name + "/", out);
    }
    assert entries[..|entries|] == entries;
  }

  lemma {:induction false} WalkNext(entries: seq<Entry>, i: nat, prefix: string)
    requires i < |entries|
    ensures Walk(entries[..i + 1], prefix) == Walk(entries[..i], prefix) + WalkEntry(entries[i], prefix)
  {
    assert entries[..i + 1][..i] == entries[..i];
  }

  // ------------------------------------------------------------ order of a walk

  /** `x` is the entry `head` or lies in it. */
  predicate At(x: string, head: string) {
    head <= x && (|x| > |head| ==> x[|head|] == '/')
  }

  lemma {:induction false} WalkInside(entries: seq<Entry>, prefix: string, x: string)
    requires x in Walk(entries, prefix)
    ensures prefix <= x
    ensures exists k :: 0 <= k < |entries| && At(x, prefix + entries[k].name)
    decreases entries, 1
  {
    var n := |entries| - 1;
    if x in Walk(entries[..n], prefix) {
      WalkInside(entries[..n], prefix, x);
      var k :| 0 <= k < n && At(x, prefix + entries[..n][k].name);
      assert At(x, prefix + entries[k].name);
    } else {
      EntryAt(entries[n], prefix, x);
    }
  }

  lemma {:induction false} EntryAt(e: Entry, prefix: string, x: string)
    requires x in WalkEntry(e, prefix)
    ensures At(x, prefix + e.name) && prefix <= x
    decreases e, 0
  {
    if e.Directory? {
      var head := prefix + e.name;
      WalkInside(e.inner, head + "/", x);
      assert (head + "/")[|head|] == '/' && x[|head|] == (head + "/")[|head|];
    }
  }

  lemma {:induction false} SamePrefix(prefix: string, a: string, b: string)
    ensures Precedes(prefix + a, prefix + b) <==> Precedes(a, b)
  {
    if prefix == "" {
      assert prefix + a == a && prefix + b == b;
    } else {
      assert (prefix + a)[1..] == prefix[1..] + a && (prefix + b)[1..] == prefix[1..] + b;
      SamePrefix(prefix[1..], a, b);
    }
  }

  /** Whatever lies in the earlier entry comes before whatever lies in the later. */
  lemma {:induction false} EntriesOrdered(a: string, s: string, b: string, t: string)
    requires PlainName(b) && '/' !in a && Before(a, b) && (s != "" ==> s[0] == '/')
    ensures Precedes(a + s, b + t)
  {
    var x, y := a + s, b + t;
    assert y[0] == b[0] && b[0] in b;
    if a == "" {
      assert x == s;
    } else {
      assert x[0] == a[0] && a[0] in a;
      if a[0] == b[0] {
        assert x[1..] == a[1..] + s && y[1..] == b[1..] + t;
        EntriesOrdered(a[1..], s, b[1..], t);
      }
    }
  }

  lemma {:induction false} AtOrdered(prefix: string, a: string, b: string, x: string, y: string)
    requires PlainName(a) && PlainName(b) && Before(a, b) && At(x, prefix + a) && At(y, prefix + b)
    ensures Precedes(x, y)
  {
    var s, t := x[|prefix + a|..], y[|prefix + b|..];
    assert x == prefix + (a + s) && y == prefix + (b + t);
    EntriesOrdered(a, s, b, t);
    SamePrefix(prefix, a + s, b + t);
  }

  lemma {:induction false} NamePlain(entries: seq<Entry>, k: nat)
    requires AllSorted(entries) && k < |entries|
    ensures PlainName(entries[k].name)
  {
    if k < |entries| - 1 { NamePlain(entries[..|entries| - 1], k); }
  }

  lemma {:induction false} OrderJoin(a: seq<string>, b: seq<string>)
    requires InWalkOrder(a) && InWalkOrder(b) && forall x, y :: x in a && y in b ==> Precedes(x, y)
    ensures InWalkOrder(a + b)
  {
  }

  /** The walk of a sorted tree meets its files in walk order. */
  lemma {:induction false} WalkOrdered(entries: seq<Entry>, prefix: string)
    requires SortedTree(entries)
    ensures InWalkOrder(Walk(entries, prefix))
    decreases entries, 1
  {
    if entries != [] {
      var n := |entries| - 1;
      var first, last := Walk(entries[..n], prefix), WalkEntry(entries[n], prefix);
      assert AllSorted(entries[..n]) && SortedBelow(entries[n]);
      WalkOrdered(entries[..n], prefix);
      if entries[n].Directory? { WalkOrdered(entries[n].inner, prefix + entries[n].name + "/"); }
      forall x, y | x in first && y in last ensures Precedes(x, y) {
        WalkInside(entries[..n], prefix, x);
        var k :| 0 <= k < n && At(x, prefix + entries[..n][k].name);
        EntryAt(entries[n], prefix, y);
        NamePlain(entries, k);
        NamePlain(entries, n);
        AtOrdered(prefix, entries[k].name, entries[n].name, x, y);
      }
      OrderJoin(first, last);
    }
  }

  /** With a path everything of `all` that the walk meets before it is there. */
  ghost predicate WalkClosed(some: set<string>, all: set<string>) {
    forall q, r :: r in some && q in all && Precedes(q, r) ==> q in some
  }
}
