/** Strings in the order of their characters, and lists sorted by a string key. */
module Sorting {
  import opened Common

  predicate Before(a: string, b: string) {
    b != "" && (a == "" || a[0] < b[0] || (a[0] == b[0] && Before(a[1..], b[1..])))
  }

  lemma {:induction false} NotBoth(a: string, b: string)
    requires Before(a, b)
    ensures !Before(b, a)
  {
    if a != "" && a[0] == b[0] { NotBoth(a[1..], b[1..]); }
  }

  lemma {:induction false} Between(a: string, b: string, c: string)
    requires Before(a, c)
    ensures Before(a, b) || Before(b, c)
  {
    if a != "" && b != "" && a[0] == b[0] == c[0] { Between(a[1..], b[1..], c[1..]); }
  }

  // ----------------------------------------------------------------- sorting

  /** `x` behind all that may stay before it. */
  function Insert<T>(s: seq<T>, x: T, key: T -> string): (r: seq<T>)
    ensures |r| == |s| + 1
  {
    if s == [] || !Before(key(x), key(s[|s| - 1])) then s + [x]
    else Insert(s[..|s| - 1], x, key) + [s[|s| - 1]]
  }

  /** The stable sort of `s` by its keys. */
  function SortBy<T>(s: seq<T>, key: T -> string): (r: seq<T>)
    ensures |r| == |s|
  {
    if s == [] then [] else Insert(SortBy(s[..|s| - 1], key), s[|s| - 1], key)
  }

  function Itself(s: string): string { s }

  ghost predicate Ascending<T(!new)>(s: seq<T>, key: T -> string) {
    forall j, k :: 0 <= j < k < |s| ==> !Before(key(s[k]), key(s[j]))
  }

  /** No key comes twice. */
  ghost predicate Keyed<T(!new)>(s: seq<T>, key: T -> string) {
    forall j, k :: 0 <= j < k < |s| ==> key(s[j]) != key(s[k])
  }

  lemma {:induction false} InsertAt<T>(s: seq<T>, x: T, key: T -> string) returns (i: nat)
    ensures i <= |s| && Insert(s, x, key) == s[..i] + [x] + s[i..]
  {
    i := |s|;
    if s != [] && Before(key(x), key(s[|s| - 1])) {
      i := InsertAt(s[..|s| - 1], x, key);
      assert s[i..] == s[..|s| - 1][i..] + [s[|s| - 1]];
    }
  }

  lemma {:induction false} InsertPermutes<T>(s: seq<T>, x: T, key: T -> string)
    ensures multiset(Insert(s, x, key)) == multiset(s) + multiset{x}
  {
    var i := InsertAt(s, x, key);
    assert s == s[..i] + s[i..];
  }

  /** A sorted list has the same elements as often. */
  lemma {:induction false} SortPermutes<T(!new)>(s: seq<T>, key: T -> string)
    ensures multiset(SortBy(s, key)) == multiset(s)
    ensures forall x :: x in SortBy(s, key) <==> x in s
  {
    if s != [] {
      var n := |s| - 1;
      SortPermutes(s[..n], key);
      InsertPermutes(SortBy(s[..n], key), s[n], key);
      assert s == s[..n] + [s[n]];
    }
    assert forall x :: x in SortBy(s, key) <==> x in multiset(SortBy(s, key));
    assert forall x :: x in s <==> x in multiset(s);
  }

  lemma {:induction false} AscendsSnoc<T(!new)>(s: seq<T>, last: T, key: T -> string)
    requires Ascending(s, key) && forall k :: 0 <= k < |s| ==> !Before(key(last), key(s[k]))
    ensures Ascending(s + [last], key)
  {
  }

  lemma {:induction false} InsertAscends<T(!new)>(s: seq<T>, x: T, key: T -> string)
    requires Ascending(s, key)
    ensures Ascending(Insert(s, x, key), key)
  {
    var n := |s| - 1;
    if s == [] {
    } else if !Before(key(x), key(s[n])) {
      forall j | 0 <= j < |s| ensures !Before(key(x), key(s[j])) {
        if Before(key(x), key(s[j])) { Between(key(x), key(s[n]), key(s[j])); }
      }
      AscendsSnoc(s, x, key);
    } else {
      InsertAscends(s[..n], x, key);
      NotBoth(key(x), key(s[n]));
      var i := InsertAt(s[..n], x, key);
      var r := Insert(s[..n], x, key);
      forall k | 0 <= k < |r| ensures !Before(key(s[n]), key(r[k])) {
        assert r[k] == if k < i then s[k] else if k == i then x else s[k - 1];
      }
      AscendsSnoc(r, s[n], key);
    }
  }

  lemma {:induction false} SortAscends<T(!new)>(s: seq<T>, key: T -> string)
    ensures Ascending(SortBy(s, key), key)
  {
    if s != [] {
      SortAscends(s[..|s| - 1], key);
      InsertAscends(SortBy(s[..|s| - 1], key), s[|s| - 1], key);
    }
  }

  /** Sorting keeps any other key free of repetitions. */
  lemma {:induction false} SortKeeps<T(!new)>(s: seq<T>, key: T -> string, other: T -> string)
    requires Keyed(s, other)
    ensures Keyed(SortBy(s, key), other)
  {
    if s != [] {
      var n := |s| - 1;
      SortKeeps(s[..n], key, other);
      SortPermutes(s[..n], key);
      var r := SortBy(s[..n], key);
      forall k | 0 <= k < |r| ensures other(r[k]) != other(s[n]) { assert r[k] in s[..n]; }
      InsertKeeps(r, s[n], key, other);
    }
  }

  lemma {:induction false} InsertKeeps<T(!new)>(s: seq<T>, x: T, key: T -> string, other: T -> string)
    requires Keyed(s, other) && forall k :: 0 <= k < |s| ==> other(s[k]) != other(x)
    ensures Keyed(Insert(s, x, key), other)
  {
    var i := InsertAt(s, x, key);
  }
}
