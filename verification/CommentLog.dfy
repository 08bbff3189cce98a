/** The private comment list: what a well-formed list is, which lists the store
    can reach, and what every reader is promised about them. */
module CommentLog {
  import opened Common
  import opened Comments
  import opened CommentReader
  import opened ContentModel
  import opened Text

  const RATE_SECONDS := 3600
  const RATE_LIMIT := 10
  const DUPLICATE_SECONDS := 300

  datatype Status = Pending | Approved | Deleted

  datatype Stored = Stored(id: U64, target: string, author: string, text: string, replyToId: Option<U64>,
                           ipHash: string, createdAt: Stamp, status: Status)

  type Log = seq<Stored>

  function View(c: Stored): Comment {
    Comment(c.id, c.target, c.author, c.text, c.createdAt, c.replyToId)
  }

  /** The approved comments, in order, as the private protocol sends them. */
  function ApprovedOf(log: Log): seq<Comment> {
    if log == [] then []
    else
      var rest := ApprovedOf(log[..|log| - 1]);
      if log[|log| - 1].status == Approved then rest + [View(log[|log| - 1])] else rest
  }

  /** The comments shown under `target`: #n is element n - 1. */
  function Shown(log: Log, target: string): seq<Comment> {
    ForTarget(ApprovedOf(log), target)
  }

  // ------------------------------------------------------------ well-formed

  predicate StoredOk(c: Stored) {
    && c.id != 0
    && ValidTarget(c.target)
    && c.author != "" && ByteLen(c.author) <= MAX_AUTHOR_BYTES
    && c.text != "" && ByteLen(c.text) <= MAX_COMMENT_BYTES
    && StripControls(c.author) == c.author && StripCommentControls(c.text) == c.text
    && |c.ipHash| == 64 && (forall k :: 0 <= k < 64 ==> HexDigit(c.ipHash[k]))
    && c.createdAt.seconds.Some?
  }

  predicate Rising(log: Log) {
    forall j, k :: 0 <= j < k < |log| ==> log[j].id < log[k].id
  }

  /** `c` replies to nothing, or to an earlier approved comment of its target. */
  predicate ReplyStands(earlier: Log, c: Stored) {
    c.replyToId.Some? ==>
      exists j :: 0 <= j < |earlier| && earlier[j].id == c.replyToId.value
                  && earlier[j].target == c.target && earlier[j].status == Approved
  }

  predicate WellFormed(log: Log) {
    && (forall k :: 0 <= k < |log| ==> StoredOk(log[k]))
    && Rising(log)
    && (forall k :: 0 <= k < |log| ==> ReplyStands(log[..k], log[k]))
  }

  lemma {:induction false} WellFormedPrefix(log: Log, n: nat)
    requires n <= |log| && WellFormed(log)
    ensures WellFormed(log[..n])
  {
    forall k | 0 <= k < n ensures ReplyStands(log[..n][..k], log[..n][k]) {
      assert log[..n][..k] == log[..k] && ReplyStands(log[..k], log[k]);
    }
  }

  lemma {:induction false} ApprovedMember(log: Log, j: nat)
    requires Rising(log) && j < |log| && log[j].status == Approved
    ensures Has(ApprovedOf(log), log[j].id) && Parent(ApprovedOf(log), log[j].id) == View(log[j])
  {
    var n := |log| - 1;
    var a := ApprovedOf(log);
    if j == n {
      assert a[|a| - 1] == View(log[n]);
    } else {
      ApprovedMember(log[..n], j);
      if log[n].status == Approved { ParentSnoc(ApprovedOf(log[..n]), View(log[n]), log[j].id); }
    }
  }

  lemma {:induction false} ApprovedStorable(log: Log)
    requires forall k :: 0 <= k < |log| ==> StoredOk(log[k])
    ensures forall k :: 0 <= k < |ApprovedOf(log)| ==> Storable(ApprovedOf(log)[k])
  {
    if log != [] { ApprovedStorable(log[..|log| - 1]); }
  }

  lemma {:induction false} ApprovedIncreasing(log: Log)
    requires Rising(log) && forall k :: 0 <= k < |log| ==> StoredOk(log[k])
    ensures Increasing(ApprovedOf(log))
    ensures LastId(ApprovedOf(log)) <= if log == [] then 0 else log[|log| - 1].id
  {
    if log != [] {
      var p, c := log[..|log| - 1], log[|log| - 1];
      assert 0 < c.id && (p != [] ==> p[|p| - 1].id < c.id);
      ApprovedIncreasing(p);
      IncreasingSnoc(ApprovedOf(p), View(c));
    }
  }

  /** The approved part of a well-formed list can always be numbered. */
  lemma {:induction false} ApprovedProjectable(log: Log)
    requires WellFormed(log)
    ensures Projectable(ApprovedOf(log))
    ensures forall k :: 0 <= k < |ApprovedOf(log)| ==> Storable(ApprovedOf(log)[k])
  {
    ApprovedIncreasing(log);
    ApprovedStorable(log);
    if log != [] {
      var n := |log| - 1;
      var p, c := log[..n], log[n];
      WellFormedPrefix(log, n);
      ApprovedProjectable(p);
      assert ReplyStands(p, c);
      if c.status == Approved {
        if c.replyToId.Some? {
          var j :| 0 <= j < n && p[j].id == c.replyToId.value && p[j].target == c.target && p[j].status == Approved;
          ApprovedMember(p, j);
        }
        ProjectableGrows(ApprovedOf(p), View(c));
      }
    }
  }

  /** In every well-formed list and for every target: the guest accepts jaild's
      snapshot, and shows from it exactly the public projection. */
  lemma {:induction false} GuestAgreesWithPublic(log: Log, target: string)
    requires WellFormed(log)
    ensures Projectable(ApprovedOf(log)) && Projectable(Shown(log, target))
    ensures Writable(Visible(ApprovedOf(log))) && Writable(Visible(Shown(log, target)))
    ensures Consistent(Lines(Visible(ApprovedOf(log))))
    ensures LinesFor(Lines(Visible(ApprovedOf(log))), target) == Lines(Visible(Shown(log, target)))
  {
    ApprovedProjectable(log);
    ReaderShowsPublicView(ApprovedOf(log), target);
  }

  /** Shown comments are numbered 1, 2, 3, ... without gaps. */
  lemma {:induction false} ShownNumbers(cs: seq<Comment>, t: string, k: nat)
    requires Projectable(cs) && k < |ForTarget(cs, t)|
    ensures Projectable(ForTarget(cs, t)) && Visible(ForTarget(cs, t))[k].number == k + 1
  {
    FilterThenNumber(cs, t);
    IncreasingForTarget(cs, t);
    var f := ForTarget(cs, t);
    VisibleAt(f, k);
    AllOf(f[..k], t);
  }

  lemma {:induction false} AllOf(cs: seq<Comment>, t: string)
    requires forall k :: 0 <= k < |cs| ==> cs[k].target == t
    ensures Count(cs, t) == |cs|
  {
    if cs != [] { AllOf(cs[..|cs| - 1], t); }
  }

  // --------------------------------------------------------------- evolution

  function Seconds(c: Stored): int {
    if c.createdAt.seconds.Some? then c.createdAt.seconds.value else 0
  }

  /** `c` counts as sent within the last `span` seconds. */
  predicate Recent(c: Stored, now: int, span: int) {
    c.createdAt.seconds.Some? && now - c.createdAt.seconds.value <= span
  }

  function RecentCount(log: Log, ipHash: string, now: int): (n: nat)
    ensures n <= |log|
  {
    if log == [] then 0
    else
      var c := log[|log| - 1];
      RecentCount(log[..|log| - 1], ipHash, now) + if c.ipHash == ipHash && Recent(c, now, RATE_SECONDS) then 1 else 0
  }

  predicate SameContent(a: Stored, b: Stored) {
    a.ipHash == b.ipHash && a.target == b.target && a.text == b.text && a.replyToId == b.replyToId
  }

  /** A new comment the store may append. */
  predicate Admissible(log: Log, c: Stored) {
    && StoredOk(c) && c.status == Pending
    && (forall k :: 0 <= k < |log| ==> log[k].id < c.id)
    && (c.replyToId.Some? ==> exists j :: 0 <= j < |Shown(log, c.target)| && Shown(log, c.target)[j].id == c.replyToId.value)
    && RecentCount(log, c.ipHash, Seconds(c)) < RATE_LIMIT
    && forall k :: 0 <= k < |log| ==> !(SameContent(log[k], c) && Recent(log[k], Seconds(c), DUPLICATE_SECONDS))
  }

  /** `b` is `a` with some pending comments approved or deleted. */
  predicate Moderated(a: Log, b: Log) {
    |a| == |b| && forall k :: 0 <= k < |a| ==> Moves(a[k], b[k])
  }

  /** Only the status may change, and only away from pending. */
  predicate Moves(a: Stored, b: Stored) {
    b == a.(status := b.status) && (a.status != Pending ==> b.status == a.status)
  }

  predicate LogStep(a: Log, b: Log) {
    Moderated(a, b) || (|b| == |a| + 1 && a == b[..|a|] && Admissible(a, b[|a|]))
  }

  /** `run` is a history of one store: consecutive lists are store steps. */
  predicate Run(run: seq<Log>) {
    run != [] && forall k :: 0 <= k < |run| - 1 ==> LogStep(run[k], run[k + 1])
  }

  predicate Evolves(a: Log, b: Log) {
    |a| <= |b| && forall k :: 0 <= k < |a| ==> Moves(a[k], b[k])
  }

  lemma {:induction false} ShownMember(log: Log, target: string, j: nat)
    requires WellFormed(log) && j < |Shown(log, target)|
    ensures exists i :: 0 <= i < |log| && View(log[i]) == Shown(log, target)[j]
                        && log[i].status == Approved && log[i].target == target
  {
    ApprovedIncreasing(log);
    IncreasingForTarget(ApprovedOf(log), target);
    ForTargetMember(ApprovedOf(log), target, Shown(log, target)[j]);
    ApprovedFrom(log, Shown(log, target)[j]);
  }

  lemma {:induction false} ForTargetMember(cs: seq<Comment>, t: string, c: Comment)
    requires c in ForTarget(cs, t)
    ensures c in cs
  {
    var p := cs[..|cs| - 1];
    if c in ForTarget(p, t) { ForTargetMember(p, t, c); }
  }

  lemma {:induction false} ApprovedFrom(log: Log, c: Comment)
    requires c in ApprovedOf(log)
    ensures exists i :: 0 <= i < |log| && View(log[i]) == c && log[i].status == Approved
  {
    var n := |log| - 1;
    if c in ApprovedOf(log[..n]) {
      ApprovedFrom(log[..n], c);
      var i :| 0 <= i < n && View(log[..n][i]) == c && log[..n][i].status == Approved;
      assert View(log[i]) == c;
    } else {
      assert View(log[n]) == c;
    }
  }

  lemma {:induction false} MovedReplyStands(a: Log, b: Log, k: nat)
    requires k < |a| && k < |b| && ReplyStands(a[..k], a[k])
    requires forall l :: 0 <= l <= k ==> Moves(a[l], b[l])
    ensures ReplyStands(b[..k], b[k])
  {
    assert Moves(a[k], b[k]);
    if a[k].replyToId.Some? {
      var j :| 0 <= j < k && a[..k][j].id == a[k].replyToId.value && a[..k][j].target == a[k].target
               && a[..k][j].status == Approved;
      assert Moves(a[j], b[j]);
      assert b[..k][j].status == Approved;
    }
  }

  lemma {:induction false} NewReplyStands(a: Log, c: Stored)
    requires WellFormed(a) && Admissible(a, c)
    ensures ReplyStands(a, c)
  {
    if c.replyToId.Some? {
      var j :| 0 <= j < |Shown(a, c.target)| && Shown(a, c.target)[j].id == c.replyToId.value;
      ShownMember(a, c.target, j);
    }
  }

  /** A reply stands on an approved comment, and approval is never withdrawn. */
  lemma {:induction false} StepWellFormed(a: Log, b: Log)
    requires WellFormed(a) && LogStep(a, b)
    ensures WellFormed(b)
  {
    forall k | 0 <= k < |b| ensures StoredOk(b[k]) && ReplyStands(b[..k], b[k]) { StepKeepsAt(a, b, k); }
    StepRising(a, b);
  }

  lemma {:induction false} StepRising(a: Log, b: Log)
    requires Rising(a) && LogStep(a, b)
    ensures Rising(b)
  {
  }

  lemma {:induction false} StepKeepsAt(a: Log, b: Log, k: nat)
    requires WellFormed(a) && LogStep(a, b) && k < |b|
    ensures StoredOk(b[k]) && ReplyStands(b[..k], b[k])
  {
    if k < |a| {
      assert StoredOk(a[k]) && ReplyStands(a[..k], a[k]);
      assert forall l :: 0 <= l <= k ==> Moves(a[l], b[l]);
      MovedReplyStands(a, b, k);
    } else {
      NewReplyStands(a, b[k]);
    }
  }

  lemma {:induction false} RunWellFormed(run: seq<Log>, i: nat)
    requires Run(run) && run[0] == [] && i < |run|
    ensures WellFormed(run[i])
  {
    if i > 0 {
      RunWellFormed(run, i - 1);
      StepWellFormed(run[i - 1], run[i]);
    }
  }

  lemma {:induction false} RunEvolves(run: seq<Log>, i: nat, j: nat)
    requires Run(run) && i <= j < |run|
    ensures Evolves(run[i], run[j])
    decreases j
  {
    if i < j {
      RunEvolves(run, i, j - 1);
      var a, m, b := run[i], run[j - 1], run[j];
      assert LogStep(m, b);
      forall k | 0 <= k < |a| ensures Moves(a[k], b[k]) {
        assert Moves(a[k], m[k]) && Moves(m[k], b[k]);
      }
    }
  }

  // ------------------------------------------------------ rate and duplicates

  /** How many comments of one source were recorded in `from .. from + 3600`. */
  function InWindow(log: Log, ipHash: string, from: int): nat {
    if log == [] then 0
    else
      var c := log[|log| - 1];
      InWindow(log[..|log| - 1], ipHash, from)
      + if c.ipHash == ipHash && from <= Seconds(c) <= from + RATE_SECONDS then 1 else 0
  }

  lemma {:induction false} WindowIsRecent(log: Log, ipHash: string, from: int, now: int)
    requires now <= from + RATE_SECONDS && forall k :: 0 <= k < |log| ==> log[k].createdAt.seconds.Some?
    ensures InWindow(log, ipHash, from) <= RecentCount(log, ipHash, now)
  {
    if log != [] { WindowIsRecent(log[..|log| - 1], ipHash, from, now); }
  }

  lemma {:induction false} WindowModerated(a: Log, b: Log, ipHash: string, from: int)
    requires Moderated(a, b)
    ensures InWindow(a, ipHash, from) == InWindow(b, ipHash, from)
  {
    if a != [] {
      var n := |a| - 1;
      assert Moves(a[n], b[n]);
      forall k | 0 <= k < n ensures Moves(a[..n][k], b[..n][k]) { assert Moves(a[k], b[k]); }
      WindowModerated(a[..n], b[..n], ipHash, from);
    }
  }

  /** From an empty store and whatever the clock does: no 3600-second window of
      recorded times holds more than ten comments of one source. */
  lemma {:induction false} RateHolds(run: seq<Log>, i: nat, ipHash: string, from: int)
    requires Run(run) && run[0] == [] && i < |run|
    ensures InWindow(run[i], ipHash, from) <= RATE_LIMIT
  {
    if i > 0 {
      RateHolds(run, i - 1, ipHash, from);
      var a, b := run[i - 1], run[i];
      RunWellFormed(run, i - 1);
      if Moderated(a, b) {
        WindowModerated(a, b, ipHash, from);
      } else {
        AdmittedInWindow(a, b, ipHash, from);
      }
    }
  }

  lemma {:induction false} AdmittedInWindow(a: Log, b: Log, ipHash: string, from: int)
    requires |b| == |a| + 1 && a == b[..|a|] && Admissible(a, b[|a|]) && InWindow(a, ipHash, from) <= RATE_LIMIT
    requires forall k :: 0 <= k < |a| ==> StoredOk(a[k])
    ensures InWindow(b, ipHash, from) <= RATE_LIMIT
  {
    var c := b[|a|];
    if c.ipHash == ipHash && from <= Seconds(c) <= from + RATE_SECONDS { WindowIsRecent(a, ipHash, from, Seconds(c)); }
  }

  /** From an empty store: of two comments of one source with the same target,
      text and parent, the later is recorded over 300 seconds after the earlier. */
  lemma {:induction false} DuplicatesApart(run: seq<Log>, i: nat, j: nat, k: nat)
    requires Run(run) && run[0] == [] && i < |run| && j < k < |run[i]|
    requires SameContent(run[i][j], run[i][k])
    ensures Seconds(run[i][k]) - Seconds(run[i][j]) > DUPLICATE_SECONDS
  {
    var a, b := run[i - 1], run[i];
    assert LogStep(run[i - 1], run[i - 1 + 1]);
    RunWellFormed(run, i - 1);
    if k < |a| {
      RunEvolves(run, i - 1, i);
      assert Moves(a[j], b[j]) && Moves(a[k], b[k]);
      DuplicatesApart(run, i - 1, j, k);
    } else {
      assert StoredOk(a[j]);
      assert b[j] == a[j] && b[k] == b[|a|];
    }
  }

  // --------------------------------------------------------- stable numbers

  lemma {:induction false} ApprovedGrows(a: Log, b: Log, t: string)
    requires Evolves(a, b)
    ensures Count(ApprovedOf(a), t) <= Count(ApprovedOf(b), t)
    decreases |b|
  {
    if |a| < |b| {
      EvolvesEarlier(a, b, |a|, |b| - 1);
      assert a[..|a|] == a;
      ApprovedGrows(a, b[..|b| - 1], t);
      CountStep(b, t);
    } else if a != [] {
      var n := |a| - 1;
      EvolvesEarlier(a, b, n, n);
      ApprovedGrows(a[..n], b[..n], t);
      CountStep(a, t);
      CountStep(b, t);
      assert Moves(a[n], b[n]);
    }
  }

  lemma {:induction false} EvolvesEarlier(a: Log, b: Log, m: nat, n: nat)
    requires Evolves(a, b) && m <= |a| && m <= n <= |b|
    ensures Evolves(a[..m], b[..n])
  {
    forall k | 0 <= k < m ensures Moves(a[..m][k], b[..n][k]) { assert Moves(a[k], b[k]); }
  }

  lemma {:induction false} CountStep(log: Log, t: string)
    requires log != []
    ensures var n := |log| - 1;
            Count(ApprovedOf(log), t) ==
            Count(ApprovedOf(log[..n]), t) + if log[n].status == Approved && log[n].target == t then 1 else 0
  {
    var n := |log| - 1;
    var rest := ApprovedOf(log[..n]);
    assert (rest + [View(log[n])])[..|rest|] == rest;
  }

  /** The number under which the approved comment at position `i` is shown. */
  function NumberOf(log: Log, i: nat): nat
    requires i < |log|
  {
    Count(ApprovedOf(log[..i + 1]), log[i].target)
  }

  lemma {:induction false} ShownSnoc(log: Log, t: string)
    requires log != []
    ensures var n := |log| - 1;
            Shown(log, t) == if log[n].status == Approved && log[n].target == t
                             then Shown(log[..n], t) + [View(log[n])] else Shown(log[..n], t)
  {
    var n := |log| - 1;
    var rest := ApprovedOf(log[..n]);
    assert (rest + [View(log[n])])[..|rest|] == rest;
  }

  lemma {:induction false} ShownAt(log: Log, i: nat)
    requires i < |log| && log[i].status == Approved
    ensures var shown, n := Shown(log, log[i].target), NumberOf(log, i);
            0 < n <= |shown| && shown[n - 1] == View(log[i])
  {
    var t, n := log[i].target, |log| - 1;
    ShownSnoc(log, t);
    if i == n {
      assert log[..i + 1] == log;
      CountForTarget(ApprovedOf(log), t);
    } else {
      ShownAt(log[..n], i);
      assert log[..n][..i + 1] == log[..i + 1];
    }
  }

  /** It is indeed the number the projection prints. */
  lemma {:induction false} NumberShown(log: Log, i: nat)
    requires WellFormed(log) && i < |log| && log[i].status == Approved
    ensures var shown, n := Shown(log, log[i].target), NumberOf(log, i);
            && 0 < n <= |shown| && shown[n - 1] == View(log[i])
            && Projectable(shown) && Visible(shown)[n - 1].number == n
  {
    ApprovedProjectable(log);
    ShownAt(log, i);
    ShownNumbers(ApprovedOf(log), log[i].target, NumberOf(log, i) - 1);
  }

  /** A visible comment's number never decreases while the store runs. */
  lemma {:induction false} NumbersNeverDecrease(run: seq<Log>, i: nat, j: nat, k: nat)
    requires Run(run) && run[0] == [] && i <= j < |run| && k < |run[i]| && run[i][k].status == Approved
    ensures k < |run[j]| && run[j][k] == run[i][k] && NumberOf(run[i], k) <= NumberOf(run[j], k)
  {
    RunEvolves(run, i, j);
    var a, b := run[i], run[j];
    assert Moves(a[k], b[k]);
    assert forall l :: 0 <= l <= k ==> Moves(a[l], b[l]);
    ApprovedGrows(a[..k + 1], b[..k + 1], a[k].target);
  }

  lemma {:induction false} PrefixCount(log: Log, m: nat, n: nat, t: string)
    requires m <= n <= |log|
    ensures Count(ApprovedOf(log[..m]), t) <= Count(ApprovedOf(log[..n]), t)
  {
    ApprovedGrows(log[..m], log[..n], t);
  }

  /** Of two approved comments of a target the earlier has the smaller number. */
  lemma {:induction false} NumbersOrdered(log: Log, i: nat, k: nat)
    requires i < k < |log| && log[k].status == Approved && log[i].target == log[k].target
    ensures NumberOf(log, i) < NumberOf(log, k)
  {
    PrefixCount(log, i + 1, k, log[i].target);
    CountStep(log[..k + 1], log[k].target);
    assert log[..k + 1][..k] == log[..k];
  }

  /** In a list of one target, a reply shows the position of its parent. */
  lemma {:induction false} SummaryAt(cs: seq<Comment>, j: nat, n: nat, t: string)
    requires Projectable(cs) && j < n < |cs| && forall k :: 0 <= k < |cs| ==> cs[k].target == t
    requires cs[n].replyToId == Some(cs[j].id)
    ensures Visible(cs)[n].replyTo == Some(VisibleReply(j + 1, cs[j].author))
  {
    VisibleAt(cs, n);
    RefAt(cs, j, n, t);
  }

  /** What the projection prints for the reply at position `k` to the one at `i`. */
  lemma {:induction false} ReplyPrinted(log: Log, i: nat, k: nat)
    requires WellFormed(log) && i < k < |log| && log[i].status == log[k].status == Approved
    requires log[i].target == log[k].target && log[k].replyToId == Some(log[i].id)
    ensures var shown, n, m := Shown(log, log[k].target), NumberOf(log, k), NumberOf(log, i);
            && 0 < m < n <= |shown| && Projectable(shown) && shown[m - 1] == View(log[i])
            && Visible(shown)[n - 1].replyTo == Some(VisibleReply(m, log[i].author))
  {
    var t, n, m := log[k].target, NumberOf(log, k), NumberOf(log, i);
    NumberShown(log, k);
    ShownAt(log, i);
    NumbersOrdered(log, i, k);
    ShownAllOf(log, t);
    PrintedBetween(Shown(log, t), m, n, log[i], log[k], t);
  }

  lemma {:induction false} PrintedBetween(shown: seq<Comment>, m: nat, n: nat, a: Stored, b: Stored, t: string)
    requires Projectable(shown) && 0 < m < n <= |shown| && forall k :: 0 <= k < |shown| ==> shown[k].target == t
    requires shown[m - 1] == View(a) && shown[n - 1] == View(b) && b.replyToId == Some(a.id)
    ensures Visible(shown)[n - 1].replyTo == Some(VisibleReply(m, a.author))
  {
    SummaryAt(shown, m - 1, n - 1, t);
  }

  lemma {:induction false} ShownAllOf(log: Log, t: string)
    requires WellFormed(log)
    ensures forall k :: 0 <= k < |Shown(log, t)| ==> Shown(log, t)[k].target == t
    ensures Increasing(Shown(log, t))
  {
    ApprovedIncreasing(log);
    IncreasingForTarget(ApprovedOf(log), t);
  }

  /** In every state a shown reply points, by its current number, at the comment
      it was bound to by ID, which is shown above it. */
  lemma {:induction false} ReplyPointsAtParent(log: Log, k: nat)
    requires WellFormed(log) && k < |log| && log[k].status == Approved && log[k].replyToId.Some?
    ensures exists i :: 0 <= i < k && log[i].id == log[k].replyToId.value
              && var shown, n, m := Shown(log, log[k].target), NumberOf(log, k), NumberOf(log, i);
                 && 0 < m < n <= |shown| && Projectable(shown) && shown[m - 1] == View(log[i])
                 && Visible(shown)[n - 1].replyTo == Some(VisibleReply(m, log[i].author))
  {
    assert ReplyStands(log[..k], log[k]);
    var i :| 0 <= i < k && log[..k][i].id == log[k].replyToId.value && log[..k][i].target == log[k].target
             && log[..k][i].status == Approved;
    ReplyPrinted(log, i, k);
    assert log[i].id == log[k].replyToId.value;
  }

  lemma {:induction false} RefAt(cs: seq<Comment>, j: nat, n: nat, t: string)
    requires Increasing(cs) && j < n <= |cs| && forall k :: 0 <= k < |cs| ==> cs[k].target == t
    ensures Has(cs[..n], cs[j].id) && ParentRef(cs[..n], cs[j].id) == VisibleReply(j + 1, cs[j].author)
    decreases n
  {
    var p := cs[..n];
    assert p[j].id == cs[j].id;
    if j == n - 1 {
      AllOf(p, t);
    } else {
      RefAt(cs, j, n - 1, t);
      assert p[..n - 1] == cs[..n - 1];
    }
  }
}
