/** The snapshot that jaild writes for the guests, and the guest's reader, which
    recomputes every number and reply summary before showing anything. */
module CommentReader {
  import opened Common
  import opened Comments
  import opened ContentModel
  import opened Text

  datatype SnapshotComment = SnapshotComment(number: U64, target: string, author: string, date10: string,
                                             text: string, replyTo: Option<VisibleReply>)

  /** One line of a file of JSON records. */
  datatype JsonLine<+T> = Blank | Malformed | Record(value: T)

  type Snapshot = seq<SnapshotComment>

  datatype SnapshotError = NotProjectable | StampTooShort

  datatype LoadError = BlankLine | BadJson | BadFields | NumberOverflow | NotContiguous
                     | BadReply | UnknownReply | AuthorMismatch

  // ---------------------------------------------------------------- writing

  predicate Storable(c: Comment) {
    && ValidTarget(c.target)
    && c.author != "" && ByteLen(c.author) <= MAX_AUTHOR_BYTES
    && c.text != "" && ByteLen(c.text) <= MAX_COMMENT_BYTES
    && c.createdAt.seconds.Some?
  }

  function LineOf(v: VisibleComment): SnapshotComment
    requires v.number <= U64_MAX && 10 <= |v.createdAt.text|
  {
    SnapshotComment(v.number, v.target, v.author, v.createdAt.text[..10], v.text, v.replyTo)
  }

  predicate Writable(vs: seq<VisibleComment>) {
    forall k :: 0 <= k < |vs| ==> vs[k].number <= U64_MAX && 10 <= |vs[k].createdAt.text|
  }

  function Lines(vs: seq<VisibleComment>): (r: Snapshot)
    requires Writable(vs)
    ensures |r| == |vs| && forall k :: 0 <= k < |vs| ==> r[k] == LineOf(vs[k])
  {
    if vs == [] then [] else Lines(vs[..|vs| - 1]) + [LineOf(vs[|vs| - 1])]
  }

  /** jaild's snapshot of the approved comments. */
  method SnapshotLines(cs: seq<Comment>) returns (r: Result<Snapshot, SnapshotError>)
    ensures r.Ok? ==> Projectable(cs) && Writable(Visible(cs)) && r.value == Lines(Visible(cs))
    ensures r == Err(NotProjectable) <==> !Projectable(cs)
    ensures r.Ok? <==> Projectable(cs) && forall k :: 0 <= k < |cs| ==> 10 <= |cs[k].createdAt.text|
    ensures r == Err(StampTooShort) <==> Projectable(cs) && exists k :: 0 <= k < |cs| && |cs[k].createdAt.text| < 10
  {
    var projected := VisibleComments(cs);
    if projected.Err? { return Err(NotProjectable); }
    SameStamps(cs);
    r := WriteLines(projected.value);
  }

  method WriteLines(vs: seq<VisibleComment>) returns (r: Result<Snapshot, SnapshotError>)
    requires forall k :: 0 <= k < |vs| ==> vs[k].number <= U64_MAX
    ensures r == if Writable(vs) then Ok(Lines(vs)) else Err(StampTooShort)
  {
    var out: Snapshot := [];
    for i := 0 to |vs|
      invariant Writable(vs[..i]) && out == Lines(vs[..i])
    {
      if |vs[i].createdAt.text| < 10 { return Err(StampTooShort); }
      assert vs[..i + 1][..i] == vs[..i];
      out := out + [LineOf(vs[i])];
    }
    assert vs[..|vs|] == vs;
    r := Ok(out);
  }

  lemma {:induction false} SameStamps(cs: seq<Comment>)
    requires Projectable(cs)
    ensures forall k :: 0 <= k < |cs| ==> Visible(cs)[k].createdAt == cs[k].createdAt && Visible(cs)[k].number <= U64_MAX
  {
    forall k | 0 <= k < |cs| ensures Visible(cs)[k].createdAt == cs[k].createdAt && Visible(cs)[k].number <= U64_MAX {
      VisibleAt(cs, k);
      NumberFits(cs, k);
    }
  }

  datatype CountsError = NoProjection | CountOverflow

  /** jaild's approved comments for each target; no counter can overflow. */
  method ApprovedCounts(cs: seq<Comment>) returns (r: Result<map<string, U64>, CountsError>)
    ensures r == Err(NoProjection) <==> !Projectable(cs)
    ensures r.Ok? <==> Projectable(cs)
    ensures r.Ok? ==> forall t :: if t in r.value then r.value[t] == Count(cs, t) > 0 else Count(cs, t) == 0
  {
    var projected := VisibleComments(cs);
    if projected.Err? { return Err(NoProjection); }
    var counts: map<string, U64> := map[];
    for i := 0 to |cs|
      invariant Counted(counts, cs[..i])
    {
      var t := cs[i].target;
      var before := if t in counts then counts[t] else 0;
      CountBelow(cs, i);
      CountedNext(counts, cs, i);
      if before == U64_MAX { return Err(CountOverflow); }
      counts := counts[t := before + 1];
    }
    assert cs[..|cs|] == cs;
    r := Ok(counts);
  }

  lemma {:induction false} CountBelow(cs: seq<Comment>, i: nat)
    requires Projectable(cs) && i < |cs|
    ensures Count(cs[..i], cs[i].target) < U64_MAX
  {
    CountLeavesRoom(cs, i);
  }

  ghost predicate Counted(counts: map<string, U64>, cs: seq<Comment>) {
    forall t :: if t in counts then counts[t] == Count(cs, t) > 0 else Count(cs, t) == 0
  }

  lemma {:induction false} CountedNext(counts: map<string, U64>, cs: seq<Comment>, i: nat)
    requires i < |cs| && Counted(counts, cs[..i])
    ensures var t := cs[i].target;
            var before := if t in counts then counts[t] else 0;
            before == Count(cs[..i], t) && (before < U64_MAX ==> Counted(counts[t := before + 1], cs[..i + 1]))
  {
    assert cs[..i + 1][..i] == cs[..i];
  }

  lemma {:induction false} NumberFits(cs: seq<Comment>, i: nat)
    requires Projectable(cs) && i < |cs|
    ensures Visible(cs)[i].number <= U64_MAX
  {
    VisibleAt(cs, i);
    CountFits(cs[..i + 1]);
  }

  // ---------------------------------------------------------------- reading

  function LineCount(ls: Snapshot, target: string): (n: nat)
    ensures n <= |ls|
  {
    if ls == [] then 0
    else LineCount(ls[..|ls| - 1], target) + if ls[|ls| - 1].target == target then 1 else 0
  }

  /** The author shown as `target`'s comment `number`. */
  function AuthorAt(ls: Snapshot, target: string, number: nat): Option<string> {
    if ls == [] then None
    else
      var c := ls[|ls| - 1];
      if c.target == target && c.number == number then Some(c.author)
      else AuthorAt(ls[..|ls| - 1], target, number)
  }

  function LinesFor(ls: Snapshot, target: string): Snapshot {
    if ls == [] then []
    else
      var rest := LinesFor(ls[..|ls| - 1], target);
      if ls[|ls| - 1].target == target then rest + [ls[|ls| - 1]] else rest
  }

  predicate FieldsOk(c: SnapshotComment) {
    && ValidTarget(c.target)
    && c.author != "" && ByteLen(c.author) <= MAX_AUTHOR_BYTES
    && c.text != "" && ByteLen(c.text) <= MAX_COMMENT_BYTES
    && DateShaped(c.date10)
  }

  predicate SummaryOk(earlier: Snapshot, target: string, r: VisibleReply) {
    && 0 < r.number && r.author != "" && ByteLen(r.author) <= MAX_AUTHOR_BYTES
    && AuthorAt(earlier, target, r.number) == Some(r.author)
  }

  predicate LineOk(earlier: Snapshot, c: SnapshotComment) {
    && FieldsOk(c)
    && c.number == LineCount(earlier, c.target) + 1
    && (c.replyTo.Some? ==> SummaryOk(earlier, c.target, c.replyTo.value))
  }

  predicate Consistent(ls: Snapshot) {
    forall k :: 0 <= k < |ls| ==> LineOk(ls[..k], ls[k])
  }

  /** The positions before `n` of a target's lines. */
  ghost function LinesBefore(ls: Snapshot, n: nat, target: string): set<int>
    requires n <= |ls|
  {
    set k | 0 <= k < n && ls[k].target == target
  }

  lemma {:induction false} LineCountIs(ls: Snapshot, n: nat, target: string)
    requires n <= |ls|
    ensures LineCount(ls[..n], target) == |LinesBefore(ls, n, target)|
  {
    if n > 0 {
      LineCountIs(ls, n - 1, target);
      assert ls[..n][..n - 1] == ls[..n - 1];
      LinesBeforeNext(ls, n - 1, target);
    }
  }

  lemma {:induction false} LinesBeforeNext(ls: Snapshot, n: nat, target: string)
    requires n < |ls|
    ensures |LinesBefore(ls, n + 1, target)| == |LinesBefore(ls, n, target)| + if ls[n].target == target then 1 else 0
  {
    assert LinesBefore(ls, n + 1, target) == LinesBefore(ls, n, target) + if ls[n].target == target then {n} else {};
  }

  lemma {:induction false} AuthorLine(ls: Snapshot, target: string, number: nat) returns (j: nat)
    requires AuthorAt(ls, target, number).Some?
    ensures j < |ls| && ls[j].target == target && ls[j].number == number && ls[j].author == AuthorAt(ls, target, number).value
  {
    var n := |ls| - 1;
    if ls[n].target == target && ls[n].number == number { j := n; } else { j := AuthorLine(ls[..n], target, number); }
  }

  /** What the guest insists on: every line has the number of its place among its target's
      lines, and a reply names a line before it of the same target, with its author. */
  lemma {:induction false} ConsistentMeans(ls: Snapshot, k: nat) returns (j: nat)
    requires Consistent(ls) && k < |ls|
    ensures ls[k].number == |LinesBefore(ls, k, ls[k].target)| + 1
    ensures ls[k].replyTo.Some? ==>
              j < k && ls[j].target == ls[k].target && ls[k].replyTo.value == VisibleReply(ls[j].number, ls[j].author)
  {
    assert LineOk(ls[..k], ls[k]);
    LineCountIs(ls, k, ls[k].target);
    j := 0;
    if ls[k].replyTo.Some? { j := AuthorLine(ls[..k], ls[k].target, ls[k].replyTo.value.number); }
  }

  predicate AllRecords<T>(file: seq<JsonLine<T>>) {
    forall k :: 0 <= k < |file| ==> file[k].Record?
  }

  function Records<T>(file: seq<JsonLine<T>>): (r: seq<T>)
    requires AllRecords(file)
    ensures |r| == |file| && forall k :: 0 <= k < |file| ==> r[k] == file[k].value
  {
    seq(|file|, k requires 0 <= k < |file| => file[k].value)
  }

  ghost predicate LineCountsAre(numbers: map<string, U64>, done: Snapshot) {
    forall t: string :: (if t in numbers then numbers[t] else 0) == LineCount(done, t)
  }

  ghost predicate AuthorsAre(seen: map<(string, U64), string>, done: Snapshot) {
    forall t: string, n: U64 :: (if (t, n) in seen then Some(seen[(t, n)]) else None) == AuthorAt(done, t, n)
  }

  lemma {:induction false} LineCountsGrow(numbers: map<string, U64>, done: Snapshot, c: SnapshotComment)
    requires LineCountsAre(numbers, done) && c.number == LineCount(done, c.target) + 1
    ensures LineCountsAre(numbers[c.target := c.number], done + [c])
  {
    assert (done + [c])[..|done|] == done;
  }

  lemma {:induction false} AuthorsGrow(seen: map<(string, U64), string>, done: Snapshot, c: SnapshotComment)
    requires AuthorsAre(seen, done)
    ensures AuthorsAre(seen[(c.target, c.number) := c.author], done + [c])
  {
    assert (done + [c])[..|done|] == done;
  }

  lemma {:induction false} ConsistentGrows(done: Snapshot, c: SnapshotComment)
    requires Consistent(done) && LineOk(done, c)
    ensures Consistent(done + [c])
  {
    var all := done + [c];
    forall k | 0 <= k < |all| ensures LineOk(all[..k], all[k]) {
      assert all[..k] == if k < |done| then done[..k] else done;
    }
  }

  /** The check of one reply summary against what was read. */
  method CheckSummary(seen: map<(string, U64), string>, ghost done: Snapshot, target: string, parent: VisibleReply)
    returns (e: Option<LoadError>)
    requires AuthorsAre(seen, done)
    ensures e.None? <==> SummaryOk(done, target, parent)
  {
    if parent.number == 0 || parent.author == "" || ByteLen(parent.author) > MAX_AUTHOR_BYTES {
      return Some(BadReply);
    }
    NumberBound(done, target, parent.number);
    if parent.number > U64_MAX { return Some(UnknownReply); }
    var key: (string, U64) := (target, parent.number);
    if key !in seen {
      assert AuthorAt(done, target, key.1).None?;
      return Some(UnknownReply);
    }
    assert AuthorAt(done, target, key.1) == Some(seen[key]);
    if seen[key] != parent.author { return Some(AuthorMismatch); }
    e := None;
  }

  /** The guest accepts a file exactly when every line is a record and the
      records are consistent, and then shows the target's lines in order. */
  method Load(file: seq<JsonLine<SnapshotComment>>, target: string) returns (r: Result<Snapshot, LoadError>)
    ensures r.Ok? <==> AllRecords(file) && Consistent(Records(file))
    ensures r.Ok? ==> r.value == LinesFor(Records(file), target)
  {
    var out: Snapshot := [];
    var numbers: map<string, U64> := map[];
    var seen: map<(string, U64), string> := map[];
    ghost var done: Snapshot := [];
    for i := 0 to |file|
      invariant AllRecords(file[..i]) && done == Records(file[..i])
      invariant Consistent(done) && out == LinesFor(done, target)
      invariant LineCountsAre(numbers, done) && AuthorsAre(seen, done)
    {
      if file[i].Blank? { return Err(BlankLine); }
      if file[i].Malformed? { return Err(BadJson); }
      var c := file[i].value;
      Rejects(file, i, done, c);
      if !FieldsOk(c) { return Err(BadFields); }
      var current: nat := if c.target in numbers then numbers[c.target] else 0;
      var next := current + 1;
      if next > U64_MAX { return Err(NumberOverflow); }
      if c.number != next { return Err(NotContiguous); }
      if c.replyTo.Some? {
        var e := CheckSummary(seen, done, c.target, c.replyTo.value);
        if e.Some? { return Err(e.value); }
      }
      LineCountsGrow(numbers, done, c);
      AuthorsGrow(seen, done, c);
      ConsistentGrows(done, c);
      LinesForGrow(done, c, target);
      RecordsGrow(file, i);
      numbers := numbers[c.target := next];
      seen := seen[(c.target, c.number) := c.author];
      if c.target == target { out := out + [c]; }
      done := done + [c];
    }
    assert file[..|file|] == file;
    r := Ok(out);
  }

  lemma {:induction false} LinesForGrow(done: Snapshot, c: SnapshotComment, t: string)
    ensures LinesFor(done + [c], t) == if c.target == t then LinesFor(done, t) + [c] else LinesFor(done, t)
  {
    assert (done + [c])[..|done|] == done;
  }

  lemma {:induction false} RecordsGrow<T>(file: seq<JsonLine<T>>, i: nat)
    requires i < |file| && AllRecords(file[..i]) && file[i].Record?
    ensures AllRecords(file[..i + 1]) && Records(file[..i + 1]) == Records(file[..i]) + [file[i].value]
  {
    assert file[..i + 1] == file[..i] + [file[i]];
  }

  lemma {:induction false} NumberBound(ls: Snapshot, target: string, number: nat)
    ensures number > U64_MAX ==> AuthorAt(ls, target, number).None?
  {
    if ls != [] { NumberBound(ls[..|ls| - 1], target, number); }
  }

  /** A line that does not fit what came before makes the file inconsistent. */
  lemma {:induction false} Rejects(file: seq<JsonLine<SnapshotComment>>, i: nat, done: Snapshot, c: SnapshotComment)
    requires i < |file| && AllRecords(file[..i]) && done == Records(file[..i]) && file[i] == Record(c)
    ensures !LineOk(done, c) ==> !(AllRecords(file) && Consistent(Records(file)))
  {
    if AllRecords(file) {
      assert Records(file)[..i] == done && Records(file)[i] == c;
    }
  }

  // -------------------------------------------------------------- agreement

  lemma {:induction false} CountForTarget(cs: seq<Comment>, t: string)
    ensures Count(ForTarget(cs, t), t) == Count(cs, t) == |ForTarget(cs, t)|
  {
    if cs != [] {
      var p, c := cs[..|cs| - 1], cs[|cs| - 1];
      CountForTarget(p, t);
      if c.target == t {
        assert ForTarget(cs, t)[..|ForTarget(p, t)|] == ForTarget(p, t);
      }
    }
  }

  lemma {:induction false} ParentSnoc(p: seq<Comment>, c: Comment, id: U64)
    requires Has(p, id) && c.id != id
    ensures Has(p + [c], id) && Parent(p + [c], id) == Parent(p, id) && ParentRef(p + [c], id) == ParentRef(p, id)
  {
    var k :| 0 <= k < |p| && p[k].id == id;
    assert (p + [c])[k].id == id;
    assert (p + [c])[..|p|] == p;
  }

  lemma {:induction false} ParentForTarget(cs: seq<Comment>, t: string, id: U64)
    requires Has(cs, id) && Parent(cs, id).target == t
    ensures var f := ForTarget(cs, t);
            Has(f, id) && Parent(f, id) == Parent(cs, id) && ParentRef(f, id) == ParentRef(cs, id)
  {
    var p, c := cs[..|cs| - 1], cs[|cs| - 1];
    if c.id == id {
      CountForTarget(cs, t);
      var f := ForTarget(cs, t);
      assert f[|f| - 1] == c;
    } else {
      var k :| 0 <= k < |cs| && cs[k].id == id;
      assert p[k].id == id;
      ParentForTarget(p, t, id);
      if c.target == t { ParentSnoc(ForTarget(p, t), c, id); }
    }
  }

  lemma {:induction false} IncreasingForTarget(cs: seq<Comment>, t: string)
    requires Increasing(cs)
    ensures Increasing(ForTarget(cs, t))
    ensures forall k :: 0 <= k < |ForTarget(cs, t)| ==> ForTarget(cs, t)[k].target == t
    ensures LastId(ForTarget(cs, t)) <= LastId(cs)
  {
    if cs != [] {
      var p, c := cs[..|cs| - 1], cs[|cs| - 1];
      assert Increasing(p) && LastId(p) < c.id;
      IncreasingForTarget(p, t);
      IncreasingSnoc(ForTarget(p, t), c);
    }
  }

  function VisibleFor(vs: seq<VisibleComment>, t: string): seq<VisibleComment> {
    if vs == [] then []
    else
      var rest := VisibleFor(vs[..|vs| - 1], t);
      if vs[|vs| - 1].target == t then rest + [vs[|vs| - 1]] else rest
  }

  lemma {:induction false} ProjectableGrows(cs: seq<Comment>, c: Comment)
    requires Projectable(cs) && Increasing(cs + [c]) && ReplyOk(cs, c)
    ensures Projectable(cs + [c]) && Visible(cs + [c]) == Visible(cs) + [ViewOf(cs, c)]
  {
    var all := cs + [c];
    assert 0 < all[|cs|].id && (cs != [] ==> all[|cs| - 1].id < all[|cs|].id);
    ProjectableSnoc(cs, c);
  }

  /** A comment looks the same among its target's comments as among all. */
  lemma {:induction false} ViewForTarget(cs: seq<Comment>, c: Comment)
    requires ReplyOk(cs, c)
    ensures ReplyOk(ForTarget(cs, c.target), c) && ViewOf(ForTarget(cs, c.target), c) == ViewOf(cs, c)
  {
    CountForTarget(cs, c.target);
    if c.replyToId.Some? { ParentForTarget(cs, c.target, c.replyToId.value); }
  }

  /** Numbering all comments and keeping one target's is numbering that target's. */
  lemma {:induction false} FilterThenNumber(cs: seq<Comment>, t: string)
    requires Projectable(cs)
    ensures Projectable(ForTarget(cs, t))
    ensures Visible(ForTarget(cs, t)) == VisibleFor(Visible(cs), t)
  {
    if cs != [] {
      var n := |cs| - 1;
      var p, c := cs[..n], cs[n];
      ProjectablePrefix(cs, n);
      FilterThenNumber(p, t);
      IncreasingForTarget(cs, t);
      assert ReplyOk(p, c);
      assert Visible(cs)[..n] == Visible(p);
      if c.target == t {
        ViewForTarget(p, c);
        ProjectableGrows(ForTarget(p, t), c);
      }
    }
  }

  /** The snapshot of one comment more is one line more. */
  lemma {:induction false} LastLine(cs: seq<Comment>)
    requires cs != [] && Projectable(cs) && Writable(Visible(cs))
    ensures var n := |cs| - 1;
            && Projectable(cs[..n]) && Writable(Visible(cs[..n])) && ReplyOk(cs[..n], cs[n])
            && ViewOf(cs[..n], cs[n]).number <= U64_MAX && 10 <= |cs[n].createdAt.text|
            && Lines(Visible(cs)) == Lines(Visible(cs[..n])) + [LineOf(ViewOf(cs[..n], cs[n]))]
  {
    var n := |cs| - 1;
    ProjectablePrefix(cs, n);
    VisibleAt(cs, n);
    assert Visible(cs)[..n] == Visible(cs[..n]);
    assert Visible(cs)[n].number <= U64_MAX && 10 <= |Visible(cs)[n].createdAt.text|;
  }

  /** Line by line, the snapshot of `cs`. */
  predicate Listed(ls: Snapshot, cs: seq<Comment>) {
    && |ls| == |cs|
    && (cs == [] ||
        var n := |cs| - 1;
        && Listed(ls[..n], cs[..n])
        && ls[n].target == cs[n].target && ls[n].author == cs[n].author && ls[n].number == Count(cs[..n], cs[n].target) + 1)
  }

  lemma {:induction false} SnapshotListed(cs: seq<Comment>)
    requires Projectable(cs) && Writable(Visible(cs))
    ensures Listed(Lines(Visible(cs)), cs)
  {
    if cs != [] {
      var n := |cs| - 1;
      LastLine(cs);
      SnapshotListed(cs[..n]);
      ListedNext(Lines(Visible(cs[..n])), LineOf(ViewOf(cs[..n], cs[n])), cs);
    }
  }

  lemma {:induction false} ListedNext(rest: Snapshot, l: SnapshotComment, cs: seq<Comment>)
    requires cs != [] && Listed(rest, cs[..|cs| - 1])
    requires var c := cs[|cs| - 1];
             l.target == c.target && l.author == c.author && l.number == Count(cs[..|cs| - 1], c.target) + 1
    ensures Listed(rest + [l], cs)
  {
    assert (rest + [l])[..|rest|] == rest;
  }

  lemma {:induction false} ListedCounts(ls: Snapshot, cs: seq<Comment>, t: string)
    requires Listed(ls, cs)
    ensures LineCount(ls, t) == Count(cs, t)
  {
    if cs != [] { ListedCounts(ls[..|cs| - 1], cs[..|cs| - 1], t); }
  }

  lemma {:induction false} SnapshotCounts(cs: seq<Comment>, t: string)
    requires Projectable(cs) && Writable(Visible(cs))
    ensures LineCount(Lines(Visible(cs)), t) == Count(cs, t)
  {
    SnapshotListed(cs);
    ListedCounts(Lines(Visible(cs)), cs, t);
  }

  /** A reply summary names a line the reader has already seen, with its author. */
  lemma {:induction false} SummaryFound(cs: seq<Comment>, id: U64)
    requires Projectable(cs) && Writable(Visible(cs)) && Has(cs, id)
    ensures var t, ref := Parent(cs, id).target, ParentRef(cs, id);
            && 0 < ref.number <= Count(cs, t)
            && AuthorAt(Lines(Visible(cs)), t, ref.number) == Some(ref.author)
            && ref.author == Parent(cs, id).author
  {
    SnapshotListed(cs);
    SummaryListed(Lines(Visible(cs)), cs, id);
  }

  lemma {:induction false} SummaryListed(ls: Snapshot, cs: seq<Comment>, id: U64)
    requires Listed(ls, cs) && Has(cs, id)
    ensures var t, ref := Parent(cs, id).target, ParentRef(cs, id);
            && 0 < ref.number <= Count(cs, t)
            && AuthorAt(ls, t, ref.number) == Some(ref.author)
            && ref.author == Parent(cs, id).author
  {
    var n := |cs| - 1;
    if cs[n].id != id {
      HadBefore(cs, id);
      SummaryListed(ls[..n], cs[..n], id);
    }
  }

  lemma {:induction false} HadBefore(cs: seq<Comment>, id: U64)
    requires Has(cs, id) && cs[|cs| - 1].id != id
    ensures Has(cs[..|cs| - 1], id)
  {
    var k :| 0 <= k < |cs| && cs[k].id == id;
    assert cs[..|cs| - 1][k].id == id;
  }

  lemma {:induction false} ParentIsMember(cs: seq<Comment>, id: U64)
    requires Has(cs, id)
    ensures Parent(cs, id) in cs && Parent(cs, id).id == id
  {
    if cs[|cs| - 1].id != id {
      var k :| 0 <= k < |cs| && cs[k].id == id;
      assert cs[..|cs| - 1][k].id == id;
      ParentIsMember(cs[..|cs| - 1], id);
    }
  }

  lemma {:induction false} LinesGrow(vs: seq<VisibleComment>, v: VisibleComment)
    requires Writable(vs) && v.number <= U64_MAX && 10 <= |v.createdAt.text|
    ensures Writable(vs + [v]) && Lines(vs + [v]) == Lines(vs) + [LineOf(v)]
  {
    assert (vs + [v])[..|vs|] == vs;
  }

  /** The line of a newly projected comment fits the lines before it. */
  lemma {:induction false} NextLineOk(p: seq<Comment>, c: Comment)
    requires Projectable(p) && Writable(Visible(p)) && ReplyOk(p, c) && Storable(c)
    requires Count(p, c.target) + 1 <= U64_MAX && forall k :: 0 <= k < |p| ==> Storable(p[k])
    ensures LineOk(Lines(Visible(p)), LineOf(ViewOf(p, c)))
  {
    SnapshotCounts(p, c.target);
    if c.replyToId.Some? {
      SummaryFound(p, c.replyToId.value);
      ParentIsMember(p, c.replyToId.value);
    }
  }

  /** The reader accepts every snapshot of valid approved comments. */
  lemma {:induction false} SnapshotConsistent(cs: seq<Comment>)
    requires Projectable(cs) && forall k :: 0 <= k < |cs| ==> Storable(cs[k])
    ensures Writable(Visible(cs)) && Consistent(Lines(Visible(cs)))
  {
    if cs != [] {
      var n := |cs| - 1;
      var p, c := cs[..n], cs[n];
      ProjectablePrefix(cs, n);
      SnapshotConsistent(p);
      assert ReplyOk(p, c);
      NumberFits(cs, n);
      VisibleAt(cs, n);
      NextLineOk(p, c);
      LinesGrow(Visible(p), ViewOf(p, c));
      ConsistentGrows(Lines(Visible(p)), LineOf(ViewOf(p, c)));
    }
  }

  lemma {:induction false} LinesCommute(vs: seq<VisibleComment>, t: string)
    requires Writable(vs)
    ensures Writable(VisibleFor(vs, t)) && LinesFor(Lines(vs), t) == Lines(VisibleFor(vs, t))
  {
    if vs != [] {
      var n := |vs| - 1;
      LinesCommute(vs[..n], t);
      assert Lines(vs)[..n] == Lines(vs[..n]);
      var f, g := VisibleFor(vs, t), VisibleFor(vs[..n], t);
      if vs[n].target == t {
        assert f[..|g|] == g && f[|g|] == vs[n];
      }
    }
  }

  /** What the guest shows for a target from the snapshot of all approved
      comments is the public projection of that target's comments. */
  lemma {:induction false} ReaderShowsPublicView(cs: seq<Comment>, t: string)
    requires Projectable(cs) && forall k :: 0 <= k < |cs| ==> Storable(cs[k])
    ensures Writable(Visible(cs)) && Consistent(Lines(Visible(cs)))
    ensures Projectable(ForTarget(cs, t)) && Writable(Visible(ForTarget(cs, t)))
    ensures LinesFor(Lines(Visible(cs)), t) == Lines(Visible(ForTarget(cs, t)))
  {
    SnapshotConsistent(cs);
    FilterThenNumber(cs, t);
    LinesCommute(Visible(cs), t);
  }
}
