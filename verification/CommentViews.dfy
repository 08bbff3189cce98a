/** What everybody is shown, told in terms of the stored records and field by field:
    which records, under which number, with whose name, text and time, and as an
    answer to what. */
module CommentViews {
  import opened Common
  import opened Comments
  import opened CommentLog
  import opened CommentReader
  import opened ContentModel

  /** The positions before `n` of `target`'s approved records. */
  ghost function ApprovedAmong(log: Log, n: nat, target: string): set<int>
    requires n <= |log|
  {
    set k | 0 <= k < n && log[k].status == Approved && log[k].target == target
  }

  /** The number of the approved record at position `i`: how many of its target there are
      up to it. */
  ghost function Rank(log: Log, i: nat): nat
    requires i < |log|
  {
    |ApprovedAmong(log, i + 1, log[i].target)|
  }

  lemma {:induction false} AmongNext(log: Log, n: nat, t: string)
    requires n < |log|
    ensures |ApprovedAmong(log, n + 1, t)|
         == |ApprovedAmong(log, n, t)| + if log[n].status == Approved && log[n].target == t then 1 else 0
  {
    assert ApprovedAmong(log, n + 1, t)
        == ApprovedAmong(log, n, t) + if log[n].status == Approved && log[n].target == t then {n} else {};
  }

  lemma {:induction false} ApprovedCount(log: Log, n: nat, t: string)
    requires n <= |log|
    ensures Count(ApprovedOf(log[..n]), t) == |ApprovedAmong(log, n, t)|
  {
    if n > 0 {
      ApprovedCount(log, n - 1, t);
      AmongNext(log, n - 1, t);
      CountNext(log, n - 1, t);
    }
  }

  lemma {:induction false} CountNext(log: Log, n: nat, t: string)
    requires n < |log|
    ensures Count(ApprovedOf(log[..n + 1]), t)
         == Count(ApprovedOf(log[..n]), t) + if log[n].status == Approved && log[n].target == t then 1 else 0
  {
    CountStep(log[..n + 1], t);
    assert log[..n + 1][..n] == log[..n];
  }

  /** The place `NumberOf` computes is the rank. */
  lemma {:induction false} RankIsNumber(log: Log, i: nat)
    requires i < |log|
    ensures Rank(log, i) == NumberOf(log, i)
  {
    ApprovedCount(log, i + 1, log[i].target);
  }

  lemma {:induction false} ShownSize(log: Log, target: string)
    ensures |Shown(log, target)| == |ApprovedAmong(log, |log|, target)|
  {
    ApprovedCount(log, |log|, target);
    assert log[..|log|] == log;
    CountForTarget(ApprovedOf(log), target);
  }

  /** An approved record is the shown comment with its rank, field by field. */
  lemma {:induction false} ApprovedIsShown(log: Log, i: nat)
    requires WellFormed(log) && i < |log| && log[i].status == Approved
    ensures var shown, n, c := Shown(log, log[i].target), Rank(log, i), log[i];
            && 0 < n <= |shown|
            && shown[n - 1].id == c.id && shown[n - 1].target == c.target && shown[n - 1].author == c.author
            && shown[n - 1].text == c.text && shown[n - 1].createdAt == c.createdAt && shown[n - 1].replyToId == c.replyToId
  {
    RankIsNumber(log, i);
    ShownAt(log, i);
  }

  /** And nothing else is shown. */
  lemma {:induction false} ShownIsApproved(log: Log, target: string, k: nat) returns (i: nat)
    requires WellFormed(log) && k < |Shown(log, target)|
    ensures i < |log| && log[i].status == Approved && log[i].target == target && Rank(log, i) == k + 1
    ensures Shown(log, target)[k].id == log[i].id
  {
    ShownMember(log, target, k);
    i :| 0 <= i < |log| && View(log[i]) == Shown(log, target)[k] && log[i].status == Approved && log[i].target == target;
    ApprovedIsShown(log, i);
    ShownAllOf(log, target);
    var shown, n := Shown(log, target), Rank(log, i) - 1;
    assert log[i].id == View(log[i]).id;
    OneId(shown, n, k);
  }

  lemma {:induction false} OneId(cs: seq<Comment>, j: nat, k: nat)
    requires Increasing(cs) && j < |cs| && k < |cs|
    ensures cs[j].id == cs[k].id ==> j == k
  {
    assert j < k ==> cs[j].id < cs[k].id;
    assert k < j ==> cs[k].id < cs[j].id;
  }

  /** The record a reply answers. */
  ghost predicate Answers(log: Log, i: nat, j: nat)
    requires i < |log|
  {
    && j < i && log[j].status == Approved && log[j].target == log[i].target
    && log[i].replyToId == Some(log[j].id)
  }

  lemma {:induction false} ParentOf(log: Log, i: nat) returns (j: nat)
    requires WellFormed(log) && i < |log| && log[i].replyToId.Some?
    ensures Answers(log, i, j)
  {
    assert ReplyStands(log[..i], log[i]);
    j :| 0 <= j < i && log[..i][j].id == log[i].replyToId.value && log[..i][j].target == log[i].target
         && log[..i][j].status == Approved;
  }

  lemma {:induction false} AnswerPrinted(log: Log, i: nat, j: nat)
    requires WellFormed(log) && i < |log| && log[i].status == Approved && Answers(log, i, j)
    ensures var shown := Shown(log, log[i].target);
            && 0 < Rank(log, i) <= |shown| && Projectable(shown)
            && Visible(shown)[Rank(log, i) - 1].replyTo == Some(VisibleReply(Rank(log, j), log[j].author))
  {
    RankIsNumber(log, i);
    RankIsNumber(log, j);
    ReplyPrinted(log, j, i);
  }

  /** The public projection: for every approved record, under its rank, its own author,
      text and time, and for a reply the rank and the author of what it answers. */
  lemma {:induction false} PublicShows(log: Log, i: nat) returns (j: nat)
    requires WellFormed(log) && i < |log| && log[i].status == Approved
    ensures Projectable(Shown(log, log[i].target)) && 0 < Rank(log, i) <= |Shown(log, log[i].target)|
    ensures var v, c := Visible(Shown(log, log[i].target))[Rank(log, i) - 1], log[i];
            && v.number == Rank(log, i) && v.target == c.target && v.author == c.author && v.text == c.text
            && v.createdAt == c.createdAt
            && (c.replyToId.None? ==> v.replyTo.None?)
            && (c.replyToId.Some? ==> Answers(log, i, j) && v.replyTo == Some(VisibleReply(Rank(log, j), log[j].author)))
  {
    j := 0;
    RecordShown(log, i);
    if log[i].replyToId.Some? {
      j := ParentOf(log, i);
      AnswerPrinted(log, i, j);
    }
  }

  lemma {:induction false} RecordShown(log: Log, i: nat)
    requires WellFormed(log) && i < |log| && log[i].status == Approved
    ensures Projectable(Shown(log, log[i].target)) && 0 < Rank(log, i) <= |Shown(log, log[i].target)|
    ensures var v, c := Visible(Shown(log, log[i].target))[Rank(log, i) - 1], log[i];
            && v.number == Rank(log, i) && v.target == c.target && v.author == c.author && v.text == c.text
            && v.createdAt == c.createdAt && (c.replyToId.None? ==> v.replyTo.None?)
  {
    RankNumbered(log, i);
    ApprovedIsShown(log, i);
    FieldsKept(Shown(log, log[i].target), Rank(log, i) - 1, log[i]);
  }

  lemma {:induction false} RankNumbered(log: Log, i: nat)
    requires WellFormed(log) && i < |log| && log[i].status == Approved
    ensures var shown, n := Shown(log, log[i].target), Rank(log, i);
            Projectable(shown) && 0 < n <= |shown| && Visible(shown)[n - 1].number == n
  {
    RankIsNumber(log, i);
    NumberShown(log, i);
  }

  lemma {:induction false} FieldsKept(shown: seq<Comment>, k: nat, c: Stored)
    requires Projectable(shown) && k < |shown|
    requires shown[k].target == c.target && shown[k].author == c.author && shown[k].text == c.text
    requires shown[k].createdAt == c.createdAt && shown[k].replyToId == c.replyToId
    ensures var v := Visible(shown)[k];
            && v.target == c.target && v.author == c.author && v.text == c.text && v.createdAt == c.createdAt
            && (c.replyToId.None? ==> v.replyTo.None?)
  {
    var _ := VisibleFields(shown, k);
  }

  /** From the store to the guest's screen: jaild writes the snapshot of the approved
      records, and the guest reads it for one target. */
  method GuestView(log: Log, target: string) returns (lines: Snapshot)
    requires WellFormed(log)
    ensures |lines| == |ApprovedAmong(log, |log|, target)|
    ensures forall i :: 0 <= i < |log| && log[i].status == Approved && log[i].target == target ==>
              GuestLine(log, i, lines)
  {
    GuestAgreesWithPublic(log, target);
    WritableStamps(ApprovedOf(log));
    var written := SnapshotLines(ApprovedOf(log));
    var read := Load(AsFile(written.value), target);
    lines := read.value;
    ShownSize(log, target);
    forall i | 0 <= i < |log| && log[i].status == Approved && log[i].target == target ensures GuestLine(log, i, lines) {
      var j := GuestShows(log, i);
    }
  }

  function AsFile(ls: Snapshot): (r: seq<JsonLine<SnapshotComment>>)
    ensures AllRecords(r) && Records(r) == ls
  {
    seq(|ls|, k requires 0 <= k < |ls| => Record(ls[k]))
  }

  lemma {:induction false} WritableStamps(cs: seq<Comment>)
    requires Projectable(cs) && Writable(Visible(cs))
    ensures forall k :: 0 <= k < |cs| ==> 10 <= |cs[k].createdAt.text|
  {
    forall k | 0 <= k < |cs| ensures 10 <= |cs[k].createdAt.text| {
      var _ := VisibleFields(cs, k);
      assert 10 <= |Visible(cs)[k].createdAt.text|;
    }
  }

  /** The guest's line for the record at position `i`. */
  ghost predicate GuestLine(log: Log, i: nat, lines: Snapshot)
    requires i < |log|
  {
    var n, c := Rank(log, i), log[i];
    && 0 < n <= |lines|
    && lines[n - 1].number == n && lines[n - 1].target == c.target && lines[n - 1].author == c.author
    && lines[n - 1].text == c.text && 10 <= |c.createdAt.text| && lines[n - 1].date10 == c.createdAt.text[..10]
    && (c.replyToId.None? ==> lines[n - 1].replyTo.None?)
    && (c.replyToId.Some? ==>
          exists j: nat :: Answers(log, i, j) && lines[n - 1].replyTo == Some(VisibleReply(Rank(log, j), log[j].author)))
  }

  lemma {:induction false} GuestShows(log: Log, i: nat) returns (j: nat)
    requires WellFormed(log) && i < |log| && log[i].status == Approved
    ensures Projectable(ApprovedOf(log)) && Writable(Visible(ApprovedOf(log)))
    ensures GuestLine(log, i, LinesFor(Lines(Visible(ApprovedOf(log))), log[i].target))
  {
    GuestAgreesWithPublic(log, log[i].target);
    j := PublicShows(log, i);
    var v := Visible(Shown(log, log[i].target))[Rank(log, i) - 1];
    assert 10 <= |v.createdAt.text|;
    assert Lines(Visible(Shown(log, log[i].target)))[Rank(log, i) - 1] == LineOf(v);
  }

  // ----------------------------------------------------------------- over runs

  /** Once approved, a record is shown from then on, unchanged. */
  lemma {:induction false} ApprovedStays(run: seq<Log>, i: nat, j: nat, k: nat)
    requires Run(run) && run[0] == [] && i <= j < |run| && k < |run[i]| && run[i][k].status == Approved
    ensures WellFormed(run[j]) && k < |run[j]| && run[j][k] == run[i][k]
    ensures var shown, n, c := Shown(run[j], run[i][k].target), Rank(run[j], k), run[i][k];
            && 0 < n <= |shown|
            && shown[n - 1].id == c.id && shown[n - 1].target == c.target && shown[n - 1].author == c.author
            && shown[n - 1].text == c.text && shown[n - 1].createdAt == c.createdAt && shown[n - 1].replyToId == c.replyToId
  {
    RunWellFormed(run, j);
    RunEvolves(run, i, j);
    assert Moves(run[i][k], run[j][k]);
    ApprovedIsShown(run[j], k);
  }

  /** Once rejected, a record is never shown, to any target. */
  lemma {:induction false} RejectedStays(run: seq<Log>, i: nat, j: nat, k: nat, target: string)
    requires Run(run) && run[0] == [] && i <= j < |run| && k < |run[i]| && run[i][k].status == Deleted
    ensures WellFormed(run[j]) && k < |run[j]| && run[j][k] == run[i][k]
    ensures forall m :: 0 <= m < |Shown(run[j], target)| ==> Shown(run[j], target)[m].id != run[i][k].id
  {
    RunWellFormed(run, j);
    RunEvolves(run, i, j);
    assert Moves(run[i][k], run[j][k]);
    NotApprovedHidden(run[j], k, target);
  }

  /** Nor is one that waits for its moderation. */
  lemma {:induction false} NotApprovedHidden(log: Log, k: nat, target: string)
    requires WellFormed(log) && k < |log| && log[k].status != Approved
    ensures forall m :: 0 <= m < |Shown(log, target)| ==> Shown(log, target)[m].id != log[k].id
  {
    forall m | 0 <= m < |Shown(log, target)| ensures Shown(log, target)[m].id != log[k].id {
      var i := ShownIsApproved(log, target, m);
      assert i < k ==> log[i].id < log[k].id;
      assert k < i ==> log[k].id < log[i].id;
    }
  }
}
