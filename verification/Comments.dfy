/** Comments as they leave the store, and their projection from global IDs to
    the numbers #1, #2, ... of each target. */
module Comments {
  import opened Common
  import opened ContentModel
  import opened Text

  const MAX_COMMENT_BYTES := 512
  const MAX_AUTHOR_BYTES := 32

  type U64 = x: nat | x <= U64_MAX

  /** "YYYY-MM-DD", the full-date of RFC 3339 section 5.6. */
  predicate DateShaped(s: string) {
    |s| == 10 && forall k :: 0 <= k < 10 ==> if k == 4 || k == 7 then s[k] == '-' else Digit(s[k])
  }

  /** A `created_at` text with its reading as RFC 3339, if it has one. */
  datatype StampRaw = Stamp(text: string, seconds: Option<int>)

  type Stamp = s: StampRaw | s.seconds.Some? ==> 10 <= |s.text| && DateShaped(s.text[..10])
    witness Stamp("", None)

  datatype Comment = Comment(id: U64, target: string, author: string, text: string,
                             createdAt: Stamp, replyToId: Option<U64>)

  datatype VisibleReply = VisibleReply(number: nat, author: string)

  datatype VisibleComment = VisibleComment(number: nat, target: string, author: string, text: string,
                                           createdAt: Stamp, replyTo: Option<VisibleReply>)

  datatype ProjectionError = UnorderedIds | NumbersExhausted | UnknownParent | CrossTarget

  // ------------------------------------------------- what the numbers mean

  /** How many of `cs` belong to `target`. */
  function Count(cs: seq<Comment>, target: string): (n: nat)
    ensures n <= |cs|
  {
    if cs == [] then 0
    else Count(cs[..|cs| - 1], target) + if cs[|cs| - 1].target == target then 1 else 0
  }

  function ForTarget(cs: seq<Comment>, target: string): seq<Comment> {
    if cs == [] then []
    else
      var rest := ForTarget(cs[..|cs| - 1], target);
      if cs[|cs| - 1].target == target then rest + [cs[|cs| - 1]] else rest
  }

  predicate Increasing(cs: seq<Comment>) {
    && (forall k :: 0 <= k < |cs| ==> 0 < cs[k].id)
    && (forall j, k :: 0 <= j < k < |cs| ==> cs[j].id < cs[k].id)
  }

  predicate Has(cs: seq<Comment>, id: U64) {
    exists k :: 0 <= k < |cs| && cs[k].id == id
  }

  /** The comment with this ID, and how it is referred to in its own target. */
  function Parent(cs: seq<Comment>, id: U64): Comment
    requires Has(cs, id)
  {
    var c := cs[|cs| - 1];
    if c.id == id then c else Parent(cs[..|cs| - 1], id)
  }

  function ParentRef(cs: seq<Comment>, id: U64): VisibleReply
    requires Has(cs, id)
  {
    var c := cs[|cs| - 1];
    if c.id == id then VisibleReply(Count(cs, c.target), c.author) else ParentRef(cs[..|cs| - 1], id)
  }

  /** `c` may follow `earlier`: a reply names an earlier comment of its own target. */
  predicate ReplyOk(earlier: seq<Comment>, c: Comment) {
    c.replyToId.Some? ==>
      Has(earlier, c.replyToId.value) && Parent(earlier, c.replyToId.value).target == c.target
  }

  predicate Projectable(cs: seq<Comment>) {
    Increasing(cs) && forall k :: 0 <= k < |cs| ==> ReplyOk(cs[..k], cs[k])
  }

  function ViewOf(earlier: seq<Comment>, c: Comment): VisibleComment
    requires ReplyOk(earlier, c)
  {
    VisibleComment(Count(earlier, c.target) + 1, c.target, c.author, c.text, c.createdAt,
                   if c.replyToId.Some? then Some(ParentRef(earlier, c.replyToId.value)) else None)
  }

  function Visible(cs: seq<Comment>): (r: seq<VisibleComment>)
    requires Projectable(cs)
    ensures |r| == |cs|
  {
    if cs == [] then []
    else
      var k := |cs| - 1;
      assert cs[..k] + [cs[k]] == cs;
      ProjectablePrefix(cs, k);
      Visible(cs[..k]) + [ViewOf(cs[..k], cs[k])]
  }

  lemma {:induction false} ProjectablePrefix(cs: seq<Comment>, n: nat)
    requires n <= |cs| && Projectable(cs)
    ensures Projectable(cs[..n])
  {
    forall k | 0 <= k < n ensures ReplyOk(cs[..n][..k], cs[..n][k]) {
      assert cs[..n][..k] == cs[..k] && ReplyOk(cs[..k], cs[k]);
    }
  }

  lemma {:induction false} VisibleAt(cs: seq<Comment>, k: nat)
    requires Projectable(cs) && k < |cs|
    ensures ReplyOk(cs[..k], cs[k]) && Visible(cs)[k] == ViewOf(cs[..k], cs[k])
  {
    var n := |cs| - 1;
    ProjectablePrefix(cs, n);
    assert ReplyOk(cs[..k], cs[k]);
    if k < n {
      VisibleAt(cs[..n], k);
      assert cs[..n][..k] == cs[..k];
    }
  }

  /** Increasing positive IDs leave room: a 64-bit counter never overflows. */
  lemma {:induction false} CountFits(cs: seq<Comment>)
    requires Increasing(cs)
    ensures cs != [] ==> |cs| <= cs[|cs| - 1].id
    ensures |cs| <= U64_MAX
  {
    if cs != [] {
      var p := cs[..|cs| - 1];
      CountFits(p);
      assert p != [] ==> p[|p| - 1].id < cs[|cs| - 1].id;
    }
  }

  /** So long as the IDs rise, the next comment's number fits 64 bits. */
  lemma {:induction false} CountLeavesRoom(cs: seq<Comment>, i: nat)
    requires i < |cs| && Increasing(cs[..i]) && 0 < cs[i].id && (i > 0 ==> cs[i - 1].id < cs[i].id)
    ensures Increasing(cs[..i + 1])
    ensures Count(cs[..i], cs[i].target) + 1 <= U64_MAX
  {
    forall j | 0 <= j < i ensures cs[j].id < cs[i].id {
      assert cs[..i][j].id <= cs[..i][i - 1].id;
    }
    CountFits(cs[..i + 1]);
  }

  // ------------------------------------------------------- the projection

  /** What the loop's `seen` map holds after `done`. */
  ghost predicate SeenIs(seen: map<U64, (string, VisibleReply)>, done: seq<Comment>) {
    && (forall id: U64 :: id in seen <==> Has(done, id))
    && (forall id: U64 :: id in seen ==> seen[id] == (Parent(done, id).target, ParentRef(done, id)))
  }

  ghost predicate NumbersAre(next: map<string, U64>, done: seq<Comment>) {
    forall t: string :: (if t in next then next[t] else 0) == Count(done, t)
  }

  lemma {:induction false} SeenGrows(seen: map<U64, (string, VisibleReply)>, done: seq<Comment>, c: Comment)
    requires SeenIs(seen, done)
    ensures SeenIs(seen[c.id := (c.target, VisibleReply(Count(done, c.target) + 1, c.author))], done + [c])
  {
    var all := done + [c];
    assert all[..|all| - 1] == done;
    forall id: U64 ensures Has(all, id) <==> id == c.id || Has(done, id) {
      if k :| 0 <= k < |done| && done[k].id == id { assert all[k].id == id; }
      assert all[|done|].id == c.id;
    }
  }

  lemma {:induction false} NumbersGrow(next: map<string, U64>, done: seq<Comment>, c: Comment, number: U64)
    requires NumbersAre(next, done) && number == Count(done, c.target) + 1
    ensures NumbersAre(next[c.target := number], done + [c])
  {
    assert (done + [c])[..|done|] == done;
  }

  function LastId(cs: seq<Comment>): nat {
    if cs == [] then 0 else cs[|cs| - 1].id
  }

  lemma {:induction false} IncreasingSnoc(cs: seq<Comment>, c: Comment)
    requires Increasing(cs)
    ensures Increasing(cs + [c]) <==> LastId(cs) < c.id
  {
    var all := cs + [c];
    assert all[|cs|] == c;
    if cs != [] && LastId(cs) < c.id {
      forall j | 0 <= j < |cs| ensures cs[j].id < c.id { assert j < |cs| - 1 ==> cs[j].id < cs[|cs| - 1].id; }
    }
    if cs != [] { assert all[|cs| - 1] == cs[|cs| - 1]; }
  }

  /** One comment more: its ID must rise and its reply must have a parent. */
  lemma {:induction false} ProjectableSnoc(done: seq<Comment>, c: Comment)
    requires Projectable(done)
    ensures Projectable(done + [c]) <==> LastId(done) < c.id && ReplyOk(done, c)
    ensures Projectable(done + [c]) ==> Visible(done + [c]) == Visible(done) + [ViewOf(done, c)]
  {
    var all := done + [c];
    assert all[..|done|] == done && all[|done|] == c;
    if LastId(done) < c.id && ReplyOk(done, c) {
      forall k | 0 <= k < |all| ensures ReplyOk(all[..k], all[k]) {
        if k < |done| { assert all[..k] == done[..k] && ReplyOk(done[..k], done[k]); }
      }
    }
  }

  /** The step of the loop: the view of the next comment, or why there is none. */
  method NextView(c: Comment, lastId: nat, next: map<string, U64>, seen: map<U64, (string, VisibleReply)>, ghost done: seq<Comment>)
    returns (r: Result<VisibleComment, ProjectionError>)
    requires Projectable(done) && lastId == LastId(done) && NumbersAre(next, done) && SeenIs(seen, done)
    ensures r.Ok? <==> LastId(done) < c.id && ReplyOk(done, c)
    ensures r.Ok? ==> r.value == ViewOf(done, c) && r.value.number <= U64_MAX
    ensures r.Err? ==> r.error != NumbersExhausted && (r.error == UnorderedIds <==> c.id <= lastId)
  {
    if c.id == 0 || c.id <= lastId { return Err(UnorderedIds); }
    RoomAfter(done, c);
    var current: nat := if c.target in next then next[c.target] else 0;
    assert current == Count(done, c.target);
    if current + 1 > U64_MAX {
      assert false;
      return Err(NumbersExhausted);
    }
    var replyTo: Option<VisibleReply> := None;
    if c.replyToId.Some? {
      var parent := c.replyToId.value;
      if parent !in seen { return Err(UnknownParent); }
      if seen[parent].0 != c.target { return Err(CrossTarget); }
      replyTo := Some(seen[parent].1);
    }
    r := Ok(VisibleComment(current + 1, c.target, c.author, c.text, c.createdAt, replyTo));
  }

  lemma {:induction false} RoomAfter(done: seq<Comment>, c: Comment)
    requires Increasing(done) && LastId(done) < c.id
    ensures Count(done, c.target) + 1 <= U64_MAX
  {
    var all := done + [c];
    assert all[..|done|] == done;
    CountLeavesRoom(all, |done|);
  }

  /** One pass over the approved comments; it fails exactly when the list is not
      projectable, and never for want of numbers. */
  method VisibleComments(cs: seq<Comment>) returns (r: Result<seq<VisibleComment>, ProjectionError>)
    ensures r.Ok? <==> Projectable(cs)
    ensures r.Ok? ==> r.value == Visible(cs)
    ensures r.Err? ==> r.error != NumbersExhausted
    ensures r == Err(UnorderedIds) ==> !Increasing(cs)
  {
    var lastId: nat := 0;
    var next: map<string, U64> := map[];
    var seen: map<U64, (string, VisibleReply)> := map[];
    var out: seq<VisibleComment> := [];
    for i := 0 to |cs|
      invariant Walked(cs[..i], out, lastId, next, seen)
    {
      var c := cs[i];
      var view := NextView(c, lastId, next, seen, cs[..i]);
      if view.Err? {
        StopsHere(cs, i);
        return Err(view.error);
      }
      WalkedNext(cs, i, out, lastId, next, seen, view.value);
      next := next[c.target := view.value.number];
      seen := seen[c.id := (c.target, VisibleReply(view.value.number, c.author))];
      out := out + [view.value];
      lastId := c.id;
    }
    assert cs[..|cs|] == cs;
    r := Ok(out);
  }

  /** What the loop has found out about the comments `done`. */
  ghost predicate Walked(done: seq<Comment>, out: seq<VisibleComment>, lastId: nat, next: map<string, U64>,
                         seen: map<U64, (string, VisibleReply)>)
  {
    && Projectable(done) && out == Visible(done) && lastId == LastId(done)
    && NumbersAre(next, done) && SeenIs(seen, done)
  }

  lemma {:induction false} WalkedNext(cs: seq<Comment>, i: nat, out: seq<VisibleComment>, lastId: nat, next: map<string, U64>,
                                      seen: map<U64, (string, VisibleReply)>, v: VisibleComment)
    requires i < |cs| && Walked(cs[..i], out, lastId, next, seen)
    requires lastId < cs[i].id && ReplyOk(cs[..i], cs[i]) && v == ViewOf(cs[..i], cs[i]) && v.number <= U64_MAX
    ensures Walked(cs[..i + 1], out + [v], cs[i].id, next[cs[i].target := v.number],
                   seen[cs[i].id := (cs[i].target, VisibleReply(v.number, cs[i].author))])
  {
    var c, done := cs[i], cs[..i];
    assert cs[..i + 1] == done + [c];
    ProjectableSnoc(done, c);
    NumbersGrow(next, done, c, v.number);
    SeenGrows(seen, done, c);
  }

  lemma {:induction false} StopsHere(cs: seq<Comment>, i: nat)
    requires i < |cs|
    ensures !(LastId(cs[..i]) < cs[i].id && ReplyOk(cs[..i], cs[i])) ==> !Projectable(cs)
    ensures cs[i].id <= LastId(cs[..i]) ==> !Increasing(cs)
  {
  }

  // ------------------------------------------------- the projection, field by field

  /** The positions before `n` of `target`'s comments. */
  ghost function Of(cs: seq<Comment>, n: nat, target: string): set<int>
    requires n <= |cs|
  {
    set j | 0 <= j < n && cs[j].target == target
  }

  /** How many of the comments up to position `k` belong to the target of the `k`-th. */
  ghost function Place(cs: seq<Comment>, k: nat): nat
    requires k < |cs|
  {
    |Of(cs, k + 1, cs[k].target)|
  }

  lemma {:induction false} OfNext(cs: seq<Comment>, n: nat, t: string)
    requires n < |cs|
    ensures |Of(cs, n + 1, t)| == |Of(cs, n, t)| + if cs[n].target == t then 1 else 0
  {
    assert Of(cs, n + 1, t) == Of(cs, n, t) + if cs[n].target == t then {n} else {};
  }

  lemma {:induction false} OfPrefix(cs: seq<Comment>, n: nat, m: nat, t: string)
    requires m <= n <= |cs|
    ensures Of(cs[..n], m, t) == Of(cs, m, t)
  {
  }

  lemma {:induction false} CountIsSize(cs: seq<Comment>, n: nat, t: string)
    requires n <= |cs|
    ensures Count(cs[..n], t) == |Of(cs, n, t)|
  {
    if n > 0 {
      CountIsSize(cs, n - 1, t);
      OfNext(cs, n - 1, t);
      assert cs[..n][..n - 1] == cs[..n - 1];
    }
  }

  lemma {:induction false} PlaceIsCount(cs: seq<Comment>, k: nat)
    requires k < |cs|
    ensures Place(cs, k) == Count(cs[..k], cs[k].target) + 1
  {
    CountIsSize(cs, k, cs[k].target);
    OfNext(cs, k, cs[k].target);
  }

  lemma {:induction false} RefOf(cs: seq<Comment>, id: U64) returns (j: nat)
    requires Has(cs, id)
    ensures j < |cs| && cs[j].id == id && Parent(cs, id) == cs[j]
    ensures ParentRef(cs, id) == VisibleReply(Place(cs, j), cs[j].author)
    decreases |cs|
  {
    var n := |cs| - 1;
    if cs[n].id == id {
      j := n;
      CountIsSize(cs, n + 1, cs[n].target);
      assert cs[..n + 1] == cs;
    } else {
      var k :| 0 <= k < |cs| && cs[k].id == id;
      assert cs[..n][k].id == id;
      j := RefOf(cs[..n], id);
      OfPrefix(cs, n, j + 1, cs[j].target);
    }
  }

  /** Each comment is shown in its place with its own target, author, text and time, and
      a reply with the place and the author of the comment it answers. */
  lemma {:induction false} VisibleFields(cs: seq<Comment>, k: nat) returns (parent: nat)
    requires Projectable(cs) && k < |cs|
    ensures var v, c := Visible(cs)[k], cs[k];
            && v.target == c.target && v.author == c.author && v.text == c.text && v.createdAt == c.createdAt
            && v.number == Place(cs, k)
            && (c.replyToId.None? ==> v.replyTo.None?)
            && (c.replyToId.Some? ==>
                  parent < k && cs[parent].id == c.replyToId.value && cs[parent].target == c.target
                  && v.replyTo == Some(VisibleReply(Place(cs, parent), cs[parent].author)))
  {
    var c := cs[k];
    VisibleAt(cs, k);
    PlaceIsCount(cs, k);
    parent := 0;
    if c.replyToId.Some? {
      parent := RefOf(cs[..k], c.replyToId.value);
      OfPrefix(cs, k, parent + 1, c.target);
    }
  }
}
