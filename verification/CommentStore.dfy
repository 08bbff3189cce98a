/** The comment daemon's store: one in-memory list, one data file, and a commit
    that replaces the file by write, sync, rename and directory sync. */
module CommentStore {
  import opened Common
  import opened Comments
  import opened CommentInput
  import opened CommentLog
  import opened CommentReader
  import opened ContentModel
  import opened Text

  const DEFAULT_LIMIT := 100
  const MAX_LIMIT := 100

  type File = seq<JsonLine<Stored>>

  /** The canonical encoding: one JSON record per comment. */
  function Encode(log: Log): (f: File)
    ensures |f| == |log| && AllRecords(f) && Records(f) == log
  {
    seq(|log|, k requires 0 <= k < |log| => Record(log[k]))
  }

  /** SHA-256 of the canonical bytes, taken as collision-free: it names the list. */
  datatype Revision = Revision(of: Log)

  // ------------------------------------------------------------------- disk

  datatype Temp = Temp(content: File, synced: bool)

  /** The data directory. `survivors` is every content the data file can have
      after a power failure at this moment. */
  class Disk {
    var data: File
    var temp: Option<Temp>
    ghost var survivors: iset<File>

    constructor (content: File)
      ensures data == content && temp == None && survivors == iset{content}
    {
      data, temp := content, None;
      survivors := iset{content};
    }

    method CreateTemp()
      modifies this`temp
      ensures temp == Some(Temp([], false))
    {
      temp := Some(Temp([], false));
    }

    method WriteTemp(content: File)
      modifies this`temp
      ensures temp == Some(Temp(content, false))
    {
      temp := Some(Temp(content, false));
    }

    method SyncTemp()
      requires temp.Some?
      modifies this`temp
      ensures temp == Some(old(temp.value).(synced := true))
    {
      temp := Some(temp.value.(synced := true));
    }

    method RemoveTemp()
      modifies this`temp
      ensures temp == None
    {
      temp := None;
    }

    /** The name changes at once for every process, but a power failure may undo
        it, and content that was not synced may survive in part. */
    method Rename()
      requires temp.Some?
      modifies this
      ensures data == old(temp.value.content) && temp == None
      ensures survivors == old(survivors) + (if old(temp.value.synced) then iset{data} else Torn(data))
    {
      data := temp.value.content;
      survivors := survivors + if temp.value.synced then iset{data} else Torn(data);
      temp := None;
    }

    method SyncDirectory()
      modifies this`survivors
      ensures survivors == iset{data}
    {
      survivors := iset{data};
    }
  }

  ghost function Torn(f: File): iset<File> {
    iset k | 0 <= k <= |f| :: f[..k]
  }

  /** Where a commit may fail. */
  datatype Fault = NoFault | CreateFails | WriteFails | SyncFails | RenameFails | DirectorySyncFails

  // ---------------------------------------------------------------- opening

  datatype OpenError = EmptyLine | InvalidJson | InvalidComment | UnorderedId | InvalidRelations

  /** `seen` holds target and status of every comment of `done`, by ID. */
  ghost predicate SeenAre(seen: map<U64, (string, Status)>, done: Log) {
    && (forall j :: 0 <= j < |done| ==> done[j].id in seen && seen[done[j].id] == (done[j].target, done[j].status))
    && (forall id: U64 :: id in seen ==> exists j :: 0 <= j < |done| && done[j].id == id)
  }

  lemma {:induction false} SeenAreGrows(seen: map<U64, (string, Status)>, log: Log, i: nat)
    requires i < |log| && SeenAre(seen, log[..i]) && Rising(log)
    ensures SeenAre(seen[log[i].id := (log[i].target, log[i].status)], log[..i + 1])
  {
    var all, next := log[..i + 1], seen[log[i].id := (log[i].target, log[i].status)];
    assert all[i] == log[i];
    forall j | 0 <= j < i ensures all[j] == log[..i][j] && log[j].id != log[i].id {}
    forall id: U64 ensures id in next ==> exists j :: 0 <= j < |all| && all[j].id == id {
      if id in next && id != log[i].id {
        var j :| 0 <= j < i && log[..i][j].id == id;
        assert all[j].id == id;
      }
    }
  }

  /** Looking the parent up in `seen` decides whether the reply stands. */
  lemma {:induction false} SeenDecides(seen: map<U64, (string, Status)>, done: Log, c: Stored)
    requires SeenAre(seen, done) && c.replyToId.Some?
    ensures ReplyStands(done, c) <==>
              c.replyToId.value in seen && seen[c.replyToId.value] == (c.target, Approved)
  {
  }

  method CheckReply(seen: map<U64, (string, Status)>, ghost done: Log, c: Stored) returns (stands: bool)
    requires SeenAre(seen, done)
    ensures stands <==> ReplyStands(done, c)
  {
    if c.replyToId.Some? {
      SeenDecides(seen, done, c);
      var parent := c.replyToId.value;
      if parent !in seen { return false; }
      if seen[parent].0 != c.target { return false; }
      if seen[parent].1 != Approved { return false; }
    }
    stands := true;
  }

  ghost predicate RelationsTo(log: Log, n: nat)
    requires n <= |log|
  {
    forall k :: 0 <= k < n ==> ReplyStands(log[..k], log[k])
  }

  /** Parent by parent over the list: each must be earlier, of the same target, approved. */
  method ValidateRelations(log: Log) returns (ok: bool)
    requires Rising(log)
    ensures ok <==> RelationsTo(log, |log|)
  {
    var seen: map<U64, (string, Status)> := map[];
    for i := 0 to |log|
      invariant SeenAre(seen, log[..i])
      invariant RelationsTo(log, i)
    {
      var c := log[i];
      var stands := CheckReply(seen, log[..i], c);
      if !stands { return false; }
      SeenAreGrows(seen, log, i);
      seen := seen[c.id := (c.target, c.status)];
    }
    ok := true;
  }

  /** Reading the data file accepts exactly the encodings of well-formed lists. */
  method OpenFile(file: File) returns (r: Result<Log, OpenError>)
    ensures r.Ok? <==> AllRecords(file) && WellFormed(Records(file))
    ensures r.Ok? ==> r.value == Records(file)
  {
    var log: Log := [];
    var lastId: nat := 0;
    for i := 0 to |file|
      invariant AllRecords(file[..i]) && log == Records(file[..i])
      invariant Rising(log) && forall k :: 0 <= k < |log| ==> StoredOk(log[k])
      invariant lastId == if i == 0 then 0 else log[i - 1].id
    {
      if file[i].Blank? { return Err(EmptyLine); }
      if file[i].Malformed? { return Err(InvalidJson); }
      var c := file[i].value;
      assert AllRecords(file) ==> Records(file)[i] == c && (i > 0 ==> Records(file)[i - 1] == log[i - 1]);
      if !StoredOk(c) { return Err(InvalidComment); }
      if c.id <= lastId { return Err(UnorderedId); }
      RecordsGrow(file, i);
      RisingGrows(log, c);
      log := log + [c];
      lastId := c.id;
    }
    assert file[..|file|] == file;
    var related := ValidateRelations(log);
    r := if related then Ok(log) else Err(InvalidRelations);
  }

  lemma {:induction false} RisingGrows(log: Log, c: Stored)
    requires Rising(log) && (log != [] ==> log[|log| - 1].id < c.id)
    ensures Rising(log + [c])
  {
    forall j | 0 <= j < |log| ensures log[j].id < c.id {
      assert log[j].id <= log[|log| - 1].id;
    }
  }

  // --------------------------------------------------------------- requests

  /** `source` is the salted hash of the sender's address, or None if the
      address does not parse. */
  datatype SubmitRequest = SubmitRequest(target: string, line: string, source: Option<string>)

  datatype Reason = InvalidTarget | LineTooLong | InvalidIp | EmptyBody | BadLine(why: InputError)
                  | AuthorTooLong | TextTooLong | UnknownNumber | RateLimited | Duplicate

  datatype Outcome = Accepted(id: U64) | Rejected(why: Reason) | Failed

  predicate Digest(s: string) {
    |s| == 64 && forall k :: 0 <= k < 64 ==> HexDigit(s[k])
  }

  /** What a file is checked for when it is read back. */
  predicate LineStorable(p: ParsedLine) {
    && p.author != "" && ByteLen(p.author) <= MAX_AUTHOR_BYTES
    && p.text != "" && ByteLen(p.text) <= MAX_COMMENT_BYTES
    && StripControls(p.author) == p.author && StripCommentControls(p.text) == p.text
    && (p.replyNumber.Some? ==> 0 < p.replyNumber.value)
  }

  /** The checks that look at the request alone. */
  function Parsed(req: SubmitRequest): (r: Result<ParsedLine, Reason>)
    ensures r.Ok? ==> ValidTarget(req.target) && req.source.Some? && LineStorable(r.value)
  {
    if !ValidTarget(req.target) then Err(InvalidTarget)
    else if ByteLen(req.line) > MAX_COMMENT_BYTES then Err(LineTooLong)
    else if req.source.None? then Err(InvalidIp)
    else
      match NormalizeLine(req.line)
      case Err(e) => Err(BadLine(e))
      case Ok(None) => Err(EmptyBody)
      case Ok(Some(p)) =>
        if ByteLen(p.author) > MAX_AUTHOR_BYTES then Err(AuthorTooLong)
        else if ByteLen(p.text) > MAX_COMMENT_BYTES then Err(TextTooLong)
        else
          NormalizedIsStorable(req.line);
          Ok(p)
  }

  /** `#wanted` of the target, counted over the private list. */
  method ResolveReplyId(log: Log, target: string, wanted: U64) returns (r: Option<U64>)
    requires WellFormed(log)
    ensures r == if 0 < wanted <= |Shown(log, target)| then Some(Shown(log, target)[wanted - 1].id) else None
  {
    var number: nat := 0;
    for i := 0 to |log|
      invariant number == |Shown(log[..i], target)|
      invariant wanted > 0 ==> number < wanted
    {
      ShownNext(log, i, target);
      if log[i].status == Approved && log[i].target == target {
        if number + 1 > U64_MAX { return None; }
        number := number + 1;
        if number == wanted { return Some(log[i].id); }
      }
    }
    assert log[..|log|] == log;
    r := None;
  }

  /** An approved comment of the target is the next one shown. */
  lemma {:induction false} ShownNext(log: Log, i: nat, target: string)
    requires WellFormed(log) && i < |log|
    ensures var n, all := |Shown(log[..i], target)|, Shown(log, target);
            if log[i].status == Approved && log[i].target == target
            then |Shown(log[..i + 1], target)| == n + 1 <= |all| <= U64_MAX && all[n].id == log[i].id
            else |Shown(log[..i + 1], target)| == n
  {
    ShownSnoc(log[..i + 1], target);
    assert log[..i + 1][..i] == log[..i];
    ShownPrefix(log, i + 1, target);
    ShownFits(log, target);
  }

  lemma {:induction false} ShownPrefix(log: Log, n: nat, target: string)
    requires n <= |log|
    ensures Shown(log[..n], target) <= Shown(log, target)
  {
    if n == |log| {
      assert log[..n] == log;
    } else {
      ShownPrefix(log[..|log| - 1], n, target);
      assert log[..|log| - 1][..n] == log[..n];
      ShownSnoc(log, target);
    }
  }

  lemma {:induction false} ShownFits(log: Log, target: string)
    requires WellFormed(log)
    ensures |Shown(log, target)| <= U64_MAX
  {
    ShownAllOf(log, target);
    CountFits(Shown(log, target));
  }

  method CountRecent(log: Log, ipHash: string, now: int) returns (n: nat)
    ensures n == RecentCount(log, ipHash, now)
  {
    n := 0;
    for i := 0 to |log|
      invariant n == RecentCount(log[..i], ipHash, now)
    {
      assert log[..i + 1][..i] == log[..i];
      if log[i].ipHash == ipHash && Recent(log[i], now, RATE_SECONDS) { n := n + 1; }
    }
    assert log[..|log|] == log;
  }

  // --------------------------------------------------------------- decisions

  datatype Verdict = Admit(c: Stored) | Refuse(why: Reason) | OutOfIds

  predicate Duplicated(log: Log, c: Stored, now: int) {
    exists k :: 0 <= k < |log| && SameContent(log[k], c) && Recent(log[k], now, DUPLICATE_SECONDS)
  }

  /** The quotas, then the next ID. */
  function Weigh(log: Log, c: Stored): Verdict {
    if RecentCount(log, c.ipHash, Seconds(c)) >= RATE_LIMIT then Refuse(RateLimited)
    else if Duplicated(log, c, Seconds(c)) then Refuse(Duplicate)
    else if log != [] && log[|log| - 1].id == U64_MAX then OutOfIds
    else Admit(c.(id := if log == [] then 1 else log[|log| - 1].id + 1))
  }

  /** What the store decides about a parsed request: its reply, then the quotas. */
  function DecideParsed(log: Log, target: string, p: ParsedLine, source: string, now: Stamp): Verdict {
    var shown := Shown(log, target);
    if p.replyNumber.Some? && !(0 < p.replyNumber.value <= |shown|) then Refuse(UnknownNumber)
    else
      var replyTo := if p.replyNumber.Some? then Some(shown[p.replyNumber.value - 1].id) else None;
      Weigh(log, Stored(0, target, p.author, p.text, replyTo, source, now, Pending))
  }

  function Decide(log: Log, req: SubmitRequest, now: Stamp): Verdict {
    match Parsed(req)
    case Err(why) => Refuse(why)
    case Ok(p) => DecideParsed(log, req.target, p, req.source.value, now)
  }

  /** The checks of `submit`, over the list as it stands. */
  method Examine(log: Log, req: SubmitRequest, now: Stamp) returns (v: Verdict)
    requires WellFormed(log)
    ensures v == Decide(log, req, now)
  {
    var parsed := Parsed(req);
    if parsed.Err? { return Refuse(parsed.error); }
    v := ExamineParsed(log, req.target, parsed.value, req.source.value, now);
  }

  method ExamineParsed(log: Log, target: string, p: ParsedLine, source: string, now: Stamp) returns (v: Verdict)
    requires WellFormed(log)
    ensures v == DecideParsed(log, target, p, source, now)
  {
    var replyTo: Option<U64> := None;
    if p.replyNumber.Some? {
      replyTo := ResolveReplyId(log, target, p.replyNumber.value);
      if replyTo.None? { return Refuse(UnknownNumber); }
    }
    v := CheckQuotas(log, Stored(0, target, p.author, p.text, replyTo, source, now, Pending));
  }

  method CheckQuotas(log: Log, c: Stored) returns (v: Verdict)
    ensures v == Weigh(log, c)
  {
    var recent := CountRecent(log, c.ipHash, Seconds(c));
    if recent >= RATE_LIMIT { return Refuse(RateLimited); }
    for k := 0 to |log|
      invariant forall l :: 0 <= l < k ==> !(SameContent(log[l], c) && Recent(log[l], Seconds(c), DUPLICATE_SECONDS))
    {
      if SameContent(log[k], c) && Recent(log[k], Seconds(c), DUPLICATE_SECONDS) { return Refuse(Duplicate); }
    }
    if log != [] && log[|log| - 1].id == U64_MAX { return OutOfIds; }
    v := Admit(c.(id := if log == [] then 1 else log[|log| - 1].id + 1));
  }

  lemma {:induction false} AdmittedIsFresh(log: Log, c: Stored)
    requires !Duplicated(log, c.(id := 0), Seconds(c))
    ensures forall k :: 0 <= k < |log| ==> !(SameContent(log[k], c) && Recent(log[k], Seconds(c), DUPLICATE_SECONDS))
  {
    forall k | 0 <= k < |log| ensures SameContent(log[k], c) <==> SameContent(log[k], c.(id := 0)) {}
  }

  lemma {:induction false} AdmittedParsed(log: Log, target: string, p: ParsedLine, source: string, now: Stamp)
    requires WellFormed(log) && now.seconds.Some? && Digest(source) && ValidTarget(target) && LineStorable(p)
    requires DecideParsed(log, target, p, source, now).Admit?
    ensures Admissible(log, DecideParsed(log, target, p, source, now).c)
  {
    var c := DecideParsed(log, target, p, source, now).c;
    forall k | 0 <= k < |log| ensures log[k].id < c.id {
      assert log[k].id <= log[|log| - 1].id;
    }
    AdmittedIsFresh(log, c);
    if p.replyNumber.Some? {
      assert Shown(log, target)[p.replyNumber.value - 1].id == c.replyToId.value;
    }
  }

  /** Everything the store admits keeps the list well-formed and its quotas kept. */
  lemma {:induction false} AdmittedIsStep(log: Log, req: SubmitRequest, now: Stamp)
    requires WellFormed(log) && now.seconds.Some? && (req.source.Some? ==> Digest(req.source.value))
    requires Decide(log, req, now).Admit?
    ensures var c := Decide(log, req, now).c;
            LogStep(log, log + [c]) && WellFormed(log + [c])
  {
    var c := Decide(log, req, now).c;
    AdmittedParsed(log, req.target, Parsed(req).value, req.source.value, now);
    assert (log + [c])[..|log|] == log;
    StepWellFormed(log, log + [c]);
  }

  /** The comment shown as #n is an approved one whose number is n, and no other is. */
  lemma {:induction false} ShownIsNumbered(log: Log, target: string, n: nat) returns (i: nat)
    requires WellFormed(log) && 0 < n <= |Shown(log, target)|
    ensures i < |log| && log[i].status == Approved && log[i].target == target
    ensures View(log[i]) == Shown(log, target)[n - 1] && NumberOf(log, i) == n
    ensures Projectable(Shown(log, target)) && Visible(Shown(log, target))[n - 1].number == n
  {
    ShownMember(log, target, n - 1);
    i :| 0 <= i < |log| && View(log[i]) == Shown(log, target)[n - 1] && log[i].status == Approved && log[i].target == target;
    NumberShown(log, i);
    ShownAllOf(log, target);
    SameElement(Shown(log, target), NumberOf(log, i) - 1, n - 1);
    assert NumberOf(log, i) == n;
  }

  lemma {:induction false} SameElement(cs: seq<Comment>, j: nat, k: nat)
    requires Increasing(cs) && j < |cs| && k < |cs|
    ensures cs[j] == cs[k] ==> j == k
  {
    assert j < k ==> cs[j].id < cs[k].id;
    assert k < j ==> cs[k].id < cs[j].id;
  }

  /** A reply sent to #n binds to the comment shown as #n at that moment. */
  lemma {:induction false} ReplyBindsToShown(log: Log, target: string, p: ParsedLine, source: string, now: Stamp)
    requires WellFormed(log) && p.replyNumber.Some?
    requires DecideParsed(log, target, p, source, now).Admit?
    ensures exists i :: 0 <= i < |log| && log[i].status == Approved && log[i].target == target
              && NumberOf(log, i) == p.replyNumber.value
              && DecideParsed(log, target, p, source, now).c.replyToId == Some(log[i].id)
  {
    AdmittedReply(log, target, p, source, now);
    var i := ShownIsNumbered(log, target, p.replyNumber.value);
    assert log[i].id == View(log[i]).id;
  }

  lemma {:induction false} AdmittedReply(log: Log, target: string, p: ParsedLine, source: string, now: Stamp)
    requires p.replyNumber.Some? && DecideParsed(log, target, p, source, now).Admit?
    ensures var n := p.replyNumber.value;
            && 0 < n <= |Shown(log, target)|
            && DecideParsed(log, target, p, source, now).c.replyToId == Some(Shown(log, target)[n - 1].id)
  {
  }

  /** The pending comments that a moderation of `ids` decides. */
  ghost function Hits(log: Log, ids: seq<U64>): set<int> {
    set k | 0 <= k < |log| && log[k].status == Pending && log[k].id in ids
  }

  method JudgePending(log: Log, ids: seq<U64>, approve: bool) returns (candidate: Log, changed: nat)
    ensures |candidate| == |log| && LogStep(log, candidate)
    ensures forall k :: 0 <= k < |log| ==>
              candidate[k] == if log[k].status == Pending && log[k].id in ids
                              then log[k].(status := if approve then Approved else Deleted) else log[k]
    ensures changed == |Hits(log, ids)| && (changed == 0 <==> candidate == log)
  {
    var wanted := set id | id in ids;
    candidate := log;
    changed := 0;
    for i := 0 to |log|
      invariant |candidate| == |log| && candidate[i..] == log[i..]
      invariant forall k :: 0 <= k < i ==>
                  candidate[k] == if log[k].status == Pending && log[k].id in ids
                                  then log[k].(status := if approve then Approved else Deleted) else log[k]
      invariant changed == |Hits(log[..i], ids)| && (changed == 0 <==> candidate == log)
    {
      var c := candidate[i];
      assert c == candidate[i..][0] == log[i];
      HitsGrow(log, i, ids);
      if c.status == Pending && c.id in wanted {
        candidate := candidate[i := c.(status := if approve then Approved else Deleted)];
        changed := changed + 1;
        assert candidate[i] != log[i];
      }
    }
    assert log[..|log|] == log;
    assert Moderated(log, candidate);
  }

  lemma {:induction false} HitsGrow(log: Log, i: nat, ids: seq<U64>)
    requires i < |log|
    ensures |Hits(log[..i + 1], ids)| ==
            |Hits(log[..i], ids)| + if log[i].status == Pending && log[i].id in ids then 1 else 0
  {
    var more := if log[i].status == Pending && log[i].id in ids then {i} else {};
    assert Hits(log[..i + 1], ids) == Hits(log[..i], ids) + more;
  }

  datatype Moderation = EmptyIds | Changed(count: nat) | NotSaved

  // --------------------------------------------------------------- the store

  class Store {
    const disk: Disk
    var comments: Log
    var revision: Revision
    var poisoned: bool

    /** Memory is well-formed and, until the store stops itself, equals the disk
        now and after any power failure. */
    ghost predicate Valid()
      reads this, disk
    {
      && WellFormed(comments) && revision == Revision(comments)
      && (!poisoned ==> disk.data == Encode(comments) && disk.survivors == iset{Encode(comments)})
    }

    /** An initialised, empty data directory. */
    constructor Init()
      ensures Valid() && fresh(disk) && comments == [] && !poisoned
    {
      disk := new Disk([]);
      comments, revision, poisoned := [], Revision([]), false;
      new;
      assert Encode([]) == [];
    }

    /** A store over a file that `OpenFile` accepted. */
    constructor Open(disk: Disk, log: Log)
      requires AllRecords(disk.data) && Records(disk.data) == log && WellFormed(log)
      requires disk.survivors == iset{disk.data}
      ensures Valid() && this.disk == disk && comments == log && !poisoned
    {
      this.disk := disk;
      comments, revision, poisoned := log, Revision(log), false;
      new;
      assert Encode(log) == disk.data;
    }

    /** Replace file and memory by `candidate`. `left` is every content a power
        failure at any moment of the commit could leave behind; each of them
        opens, to the list before or to the list after. */
    method Commit(candidate: Log, fault: Fault) returns (ok: bool, ghost left: iset<File>)
      requires Valid() && !poisoned && WellFormed(candidate)
      modifies this, disk
      ensures Valid() && ok == (fault == NoFault) && poisoned == (fault == DirectorySyncFails)
      ensures comments == if ok then candidate else old(comments)
      ensures disk.data == if fault in {NoFault, DirectorySyncFails} then Encode(candidate) else Encode(old(comments))
      ensures forall f :: f in left ==>
                AllRecords(f) && WellFormed(Records(f)) && (Records(f) == old(comments) || Records(f) == candidate)
      ensures disk.survivors <= left
    {
      left := disk.survivors;
      if fault == CreateFails { return false, left; }
      disk.CreateTemp();
      left := left + disk.survivors;
      disk.WriteTemp(Encode(candidate));
      left := left + disk.survivors;
      if fault == WriteFails {
        disk.RemoveTemp();
        return false, left;
      }
      if fault == SyncFails {
        disk.RemoveTemp();
        return false, left;
      }
      disk.SyncTemp();
      left := left + disk.survivors;
      if fault == RenameFails {
        disk.RemoveTemp();
        return false, left;
      }
      disk.Rename();
      left := left + disk.survivors;
      if fault == DirectorySyncFails {
        poisoned := true;
        return false, left;
      }
      disk.SyncDirectory();
      left := left + disk.survivors;
      comments := candidate;
      revision := Revision(candidate);
      ok := true;
    }

    method Submit(req: SubmitRequest, now: Stamp, fault: Fault) returns (r: Outcome)
      requires Valid() && now.seconds.Some? && (req.source.Some? ==> Digest(req.source.value))
      modifies this, disk
      ensures Valid()
      ensures old(poisoned) ==> r == Failed && comments == old(comments) && poisoned
      ensures !old(poisoned) ==>
        match Decide(old(comments), req, now)
        case Refuse(why) => r == Rejected(why) && comments == old(comments) && !poisoned
        case OutOfIds => r == Failed && comments == old(comments) && !poisoned
        case Admit(c) =>
          if fault == NoFault
          then r == Accepted(c.id) && comments == old(comments) + [c] && LogStep(old(comments), comments) && !poisoned
          else r == Failed && comments == old(comments) && poisoned == (fault == DirectorySyncFails)
    {
      if poisoned { return Failed; }
      var verdict := Examine(comments, req, now);
      if verdict.Refuse? { return Rejected(verdict.why); }
      if verdict.OutOfIds? { return Failed; }
      AdmittedIsStep(comments, req, now);
      var ok, _ := Commit(comments + [verdict.c], fault);
      r := if ok then Accepted(verdict.c.id) else Failed;
    }

    method Moderate(ids: seq<U64>, approve: bool, fault: Fault) returns (r: Moderation)
      requires Valid()
      modifies this, disk
      ensures Valid()
      ensures old(poisoned) ==> r == NotSaved && comments == old(comments) && poisoned
      ensures !old(poisoned) && ids == [] ==> r == EmptyIds && comments == old(comments) && !poisoned
      ensures !old(poisoned) && ids != [] && (fault == NoFault || Hits(old(comments), ids) == {}) ==>
        r == Changed(|Hits(old(comments), ids)|) && !poisoned
      ensures !old(poisoned) && ids != [] && fault != NoFault && Hits(old(comments), ids) != {} ==>
        r == NotSaved && comments == old(comments) && poisoned == (fault == DirectorySyncFails)
      ensures r.Changed? ==>
        && |comments| == |old(comments)| && LogStep(old(comments), comments)
        && forall k :: 0 <= k < |comments| ==>
             && (old(comments)[k].status == Pending && old(comments)[k].id in ids ==>
                   comments[k].status == (if approve then Approved else Deleted)
                   && comments[k] == old(comments)[k].(status := comments[k].status))
             && (!(old(comments)[k].status == Pending && old(comments)[k].id in ids) ==> comments[k] == old(comments)[k])
    {
      if poisoned { return NotSaved; }
      if ids == [] { return EmptyIds; }
      var candidate, changed := JudgePending(comments, ids, approve);
      StepWellFormed(comments, candidate);
      if changed > 0 {
        var ok, _ := Commit(candidate, fault);
        if !ok { return NotSaved; }
      }
      r := Changed(changed);
    }
  }

  /** Starting over an existing file: it opens exactly when it is the encoding of a
      well-formed list, and then holds that list. */
  method OpenStore(disk: Disk) returns (r: Result<Store, OpenError>)
    requires disk.survivors == iset{disk.data}
    ensures r.Ok? <==> AllRecords(disk.data) && WellFormed(Records(disk.data))
    ensures r.Ok? ==> fresh(r.value) && r.value.Valid() && r.value.disk == disk && !r.value.poisoned
    ensures r.Ok? ==> r.value.comments == Records(disk.data)
  {
    var loaded := OpenFile(disk.data);
    if loaded.Err? { return Err(loaded.error); }
    var store := new Store.Open(disk, loaded.value);
    r := Ok(store);
  }
}
