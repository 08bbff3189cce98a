/** The web gateway's session holding protocol for one attach token: the table
    entry with its owner and grace timer, the forwarding task with its
    scrollback, and every connection's bounded output queue.

    Each step is one lock region or one turn of the forwarding task; steps of
    different tasks interleave freely. `State.past` is history only and steers
    no step. */
module SessionProtocol {
  import opened Common

  const OUTPUT_CHUNKS := 128
  const SCROLLBACK_BYTES := 131072
  const REPLAY_CHUNK := 4096
  const COMMAND_SLOTS := 8

  type ConnId = nat
  type TimerId = nat

  datatype Item = Data(bytes: seq<Byte>) | ReplayEnd

  datatype CloseReason = Replaced | SlowConsumer

  /** One connection's output channel: `sent` is everything ever queued, of
      which the receiver has taken the first `taken` items. */
  datatype Conn = Conn(sent: seq<Item>, taken: nat, open: bool, closing: Option<CloseReason>) {
    function Queued(): int { |sent| - taken }
  }

  const FRESH_CONN := Conn([], 0, true, None)

  datatype Entry = Entry(owner: Option<ConnId>, timer: Option<TimerId>)

  datatype Task = Opening(first: ConnId) | Idle | Installing(id: ConnId) | Ended

  /** What a connection was given: bytes `from..joined` of the PTY stream as
      replay, the end marker as item `mark`, then bytes `joined..upto` live. */
  datatype Window = Window(from: nat, joined: nat, upto: nat, mark: nat)

  /** The shared table's slot for the token, and the timers still running. */
  datatype Table = Table(entry: Option<Entry>, timers: set<TimerId>, nextTimer: TimerId)

  /** The forwarding task: its phase, command queue, live subscriber, scrollback. */
  datatype Forwarder = Forwarder(task: Task, commands: seq<ConnId>, active: Option<ConnId>, scrollback: seq<Byte>)

  /** Every connection made so far, and the attaches that hold no queue slot yet. */
  datatype Net = Net(conns: map<ConnId, Conn>, nextConn: ConnId, starting: set<ConnId>)

  datatype History = History(produced: seq<Byte>, windows: map<ConnId, Window>, lost: set<ConnId>)

  datatype State = State(table: Table, fwd: Forwarder, net: Net, past: History)

  datatype Step =
    | AttachStart
    | AttachSend(id: ConnId)
    | AttachFail(id: ConnId)
    | TaskOpen
    | TaskReplay
    | TaskInstall
    | TaskOutput(chunk: seq<Byte>)
    | TaskEnd
    | Detach(id: ConnId)
    | Reset
    | TimerFires(timer: TimerId)
    | Receive(id: ConnId)
    | DropReceiver(id: ConnId)

  // ---------------------------------------------------------------- queues

  /** The replay pieces of `s`: full chunks, then the remainder. */
  function Chunks(s: seq<Byte>): (r: seq<Item>)
    decreases |s|
  {
    if s == [] then []
    else if |s| <= REPLAY_CHUNK then [Data(s)]
    else [Data(s[..REPLAY_CHUNK])] + Chunks(s[REPLAY_CHUNK..])
  }

  /** The bytes carried by a run of queue items. */
  function Bytes(items: seq<Item>): seq<Byte> {
    if items == [] then []
    else (if items[0].Data? then items[0].bytes else []) + Bytes(items[1..])
  }

  function Append(c: Conn, items: seq<Item>): Conn {
    c.(sent := c.sent + items)
  }

  function Shut(conns: map<ConnId, Conn>, id: Option<ConnId>, reason: CloseReason): map<ConnId, Conn> {
    if id.Some? && id.value in conns
    then conns[id.value := conns[id.value].(closing := Some(reason))]
    else conns
  }

  predicate InFlight(f: Forwarder, n: Net, id: ConnId) {
    id in n.starting || id in f.commands || f.task == Installing(id)
  }

  // ----------------------------------------------------------------- steps

  function Init(): State {
    State(Table(Some(Entry(Some(0), None)), {}, 0),
          Forwarder(Opening(0), [], None, []),
          Net(map[0 := FRESH_CONN], 1, {}),
          History([], map[], {}))
  }

  /** When each step may be taken. */
  predicate Enabled(s: State, step: Step) {
    match step
    case AttachStart => s.table.entry.Some?
    case AttachSend(id) => id in s.net.starting && |s.fwd.commands| < COMMAND_SLOTS && !s.fwd.task.Ended?
    case AttachFail(id) => id in s.net.starting && s.fwd.task.Ended?
    case TaskOpen => s.fwd.task.Opening?
    case TaskReplay => s.fwd.task.Idle? && s.fwd.commands != []
    case TaskInstall => s.fwd.task.Installing?
    case TaskOutput(_) => s.fwd.task.Idle?
    case TaskEnd => s.fwd.task.Idle?
    case Detach(_) => true
    case Reset => true
    case TimerFires(t) => t in s.table.timers
    case Receive(id) => id in s.net.conns && s.net.conns[id].open && 0 < s.net.conns[id].Queued()
    case DropReceiver(id) => id in s.net.conns && s.net.conns[id].open
  }

  /** Take the entry's timer handle and abort that timer. */
  function TakeTimer(t: Table): Table {
    match t.entry
    case Some(Entry(owner, Some(timer))) => t.(entry := Some(Entry(owner, None)), timers := t.timers - {timer})
    case _ => t
  }

  function AttachStartStep(s: State): State {
    var id := s.net.nextConn;
    s.(table := TakeTimer(s.table),
       net := Net(s.net.conns[id := FRESH_CONN], id + 1, s.net.starting + {id}))
  }

  /** The forwarder has gone: its table entry and every queued command with it. */
  function EndStep(s: State): State {
    s.(table := s.table.(entry := None),
       fwd := s.fwd.(task := Ended, commands := [], active := None))
  }

  function OpenStep(s: State): State
    requires s.fwd.task.Opening?
  {
    var id := s.fwd.task.first;
    if id in s.net.conns && s.net.conns[id].open then
      var c := s.net.conns[id];
      var n := |s.past.produced|;
      s.(fwd := s.fwd.(task := Idle, active := Some(id)),
         net := s.net.(conns := s.net.conns[id := Append(c, [ReplayEnd])]),
         past := s.past.(windows := s.past.windows[id := Window(0, n, n, |c.sent|)]))
    else EndStep(s)
  }

  /** Scrollback is queued in pieces; a dead receiver is noticed only if there
      is a piece to send. */
  function ReplayStep(s: State): State
    requires s.fwd.commands != []
  {
    var id := s.fwd.commands[0];
    var rest := s.fwd.(commands := s.fwd.commands[1..]);
    if id in s.net.conns && s.net.conns[id].open then
      var c := s.net.conns[id];
      var items := Chunks(s.fwd.scrollback);
      var n := |s.past.produced|;
      s.(fwd := rest.(task := Installing(id)),
         net := s.net.(conns := s.net.conns[id := Append(c, items + [ReplayEnd])]),
         past := s.past.(windows := s.past.windows[id :=
                   Window(n - Min(n, |s.fwd.scrollback|), n, n, |c.sent| + |items|)]))
    else if s.fwd.scrollback == [] then s.(fwd := rest.(task := Installing(id)))
    else s.(fwd := rest)
  }

  /** The new connection becomes owner and live subscriber; without an entry its
      attach fails and its receiver goes. */
  function InstallStep(s: State): State
    requires s.fwd.task.Installing?
  {
    var id := s.fwd.task.id;
    if s.table.entry.Some? then
      s.(table := TakeTimer(s.table).(entry := Some(Entry(Some(id), None))),
         fwd := s.fwd.(task := Idle, active := Some(id)),
         net := s.net.(conns := Shut(s.net.conns, s.fwd.active, Replaced)))
    else s.(fwd := s.fwd.(task := Idle),
            net := if id in s.net.conns
                   then s.net.(conns := s.net.conns[id := s.net.conns[id].(open := false)])
                   else s.net)
  }

  function OutputStep(s: State, chunk: seq<Byte>): State {
    var n := |s.past.produced| + |chunk|;
    var past := s.past.(produced := s.past.produced + chunk);
    var fwd := s.fwd.(scrollback := Last(s.fwd.scrollback + chunk, SCROLLBACK_BYTES));
    if s.fwd.active.None? || s.fwd.active.value !in s.net.conns then s.(fwd := fwd, past := past)
    else
      var id := s.fwd.active.value;
      var c := s.net.conns[id];
      if !c.open then s.(fwd := fwd.(active := None), past := past)
      else if c.Queued() < OUTPUT_CHUNKS then
        s.(fwd := fwd,
           net := s.net.(conns := s.net.conns[id := Append(c, [Data(chunk)])]),
           past := past.(windows := if id in past.windows
                                    then past.windows[id := past.windows[id].(upto := n)]
                                    else past.windows))
      else s.(fwd := fwd.(active := None),
              net := s.net.(conns := Shut(s.net.conns, s.fwd.active, SlowConsumer)),
              past := past)
  }

  function DetachStep(t: Table, id: ConnId): Table {
    if t.entry.Some? && t.entry.value.owner == Some(id)
    then Table(Some(Entry(None, Some(t.nextTimer))), t.timers + {t.nextTimer}, t.nextTimer + 1)
    else t
  }

  function ResetStep(t: Table): Table {
    if t.entry.Some? && t.entry.value.owner.None? then t.(entry := None) else t
  }

  function DropStep(s: State, id: ConnId): State
    requires id in s.net.conns
  {
    s.(net := s.net.(conns := s.net.conns[id := s.net.conns[id].(open := false)],
                     starting := s.net.starting - {id}),
       past := if InFlight(s.fwd, s.net, id) then s.past.(lost := s.past.lost + {id}) else s.past)
  }

  function Next(s: State, step: Step): State
    requires Enabled(s, step)
  {
    match step
    case AttachStart => AttachStartStep(s)
    case AttachSend(id) =>
      s.(net := s.net.(starting := s.net.starting - {id}), fwd := s.fwd.(commands := s.fwd.commands + [id]))
    case AttachFail(id) => s.(net := s.net.(starting := s.net.starting - {id}))
    case TaskOpen => OpenStep(s)
    case TaskReplay => ReplayStep(s)
    case TaskInstall => InstallStep(s)
    case TaskOutput(chunk) => OutputStep(s, chunk)
    case TaskEnd => EndStep(s)
    case Detach(id) => s.(table := DetachStep(s.table, id))
    case Reset => s.(table := ResetStep(s.table))
    case TimerFires(t) => s.(table := s.table.(timers := s.table.timers - {t}, entry := None))
    case Receive(id) =>
      var c := s.net.conns[id];
      s.(net := s.net.(conns := s.net.conns[id := c.(taken := c.taken + 1)]))
    case DropReceiver(id) => DropStep(s, id)
  }

  /** `s` can be reached from session creation by `steps`. */
  ghost predicate Reaches(steps: seq<Step>, s: State)
    decreases |steps|
  {
    if steps == [] then s == Init()
    else
      var k := |steps| - 1;
      exists p :: Reaches(steps[..k], p) && Enabled(p, steps[k]) && s == Next(p, steps[k])
  }

  // ------------------------------------------------------------- invariant

  /** Connection `id` was given exactly the window `w` of the stream. */
  ghost predicate Delivered(c: Conn, w: Window, produced: seq<Byte>) {
    && w.from <= w.joined <= w.upto <= |produced|
    && w.mark < |c.sent|
    && (forall k :: 0 <= k < |c.sent| ==> (c.sent[k] == ReplayEnd <==> k == w.mark))
    && Bytes(c.sent[..w.mark]) == produced[w.from..w.joined]
    && Bytes(c.sent[w.mark + 1..]) == produced[w.joined..w.upto]
  }

  /** No live byte of the stream lies in both windows. */
  ghost predicate DisjointLive(a: Window, b: Window) {
    a.upto <= b.joined || b.upto <= a.joined || a.joined == a.upto || b.joined == b.upto
  }

  ghost predicate QueuesOk(n: Net, h: History) {
    && h.windows.Keys <= n.conns.Keys
    && (forall id :: id in n.conns ==>
          && id < n.nextConn
          && 0 <= n.conns[id].Queued() <= OUTPUT_CHUNKS
          && (id !in h.windows ==> n.conns[id].sent == []))
  }

  ghost predicate WindowOk(id: ConnId, c: Conn, w: Window, produced: seq<Byte>) {
    && Delivered(c, w, produced)
    && w.from == (if id == 0 then 0 else Max(0, w.joined - SCROLLBACK_BYTES))
    && (id == 0 ==> w.joined == 0)
  }

  ghost predicate WindowsOk(scrollback: seq<Byte>, n: Net, h: History) {
    && scrollback == Last(h.produced, SCROLLBACK_BYTES)
    && (forall id :: id in h.windows && id in n.conns ==> WindowOk(id, n.conns[id], h.windows[id], h.produced))
  }

  /** A connection the forwarder may send to: its window is open-ended, or it is dead. */
  ghost predicate Seated(id: ConnId, n: Net, h: History) {
    && id in n.conns
    && (id in h.windows ==> h.windows[id].upto == |h.produced|)
    && (id !in h.windows ==> !n.conns[id].open)
  }

  ghost predicate LiveOk(f: Forwarder, n: Net, h: History) {
    && (f.active.Some? ==> Seated(f.active.value, n, h))
    && (f.task.Installing? ==> Seated(f.task.id, n, h))
    && (f.task.Installing? && f.task.id in h.windows ==> h.windows[f.task.id].joined == |h.produced|)
    && (forall a, b :: a in h.windows && b in h.windows && a != b ==> DisjointLive(h.windows[a], h.windows[b]))
  }

  /** Connection `id` waits for its replay. */
  ghost predicate Waiting(id: ConnId, n: Net, h: History) {
    id in n.conns && id !in h.windows && id != 0
  }

  ghost predicate AttachesOk(f: Forwarder, n: Net, h: History) {
    && (forall id :: id in n.starting ==> Waiting(id, n, h) && n.conns[id].open)
    && (forall id :: id in f.commands ==> Waiting(id, n, h) && id !in n.starting && (n.conns[id].open || id in h.lost))
    && (forall j, k :: 0 <= j < k < |f.commands| ==> f.commands[j] != f.commands[k])
    && (f.task.Installing? ==>
          && f.task.id in n.conns && f.task.id !in n.starting && f.task.id !in f.commands && f.task.id != 0
          && (n.conns[f.task.id].open || f.task.id in h.lost))
    && (f.active.Some? ==> f.active.value in n.conns && f.active.value !in n.starting
                           && f.active.value !in f.commands && f.task != Installing(f.active.value))
    && |f.commands| <= COMMAND_SLOTS
    && (f.task.Opening? ==> f.task.first == 0 && 0 in n.conns && h.windows == map[] && h.produced == [] && f.active == None)
    && 0 < n.nextConn
  }

  ghost predicate TimersOk(t: Table) {
    && (t.entry.Some? ==> t.timers == (if t.entry.value.timer.Some? then {t.entry.value.timer.value} else {}))
    && (t.entry.Some? && t.entry.value.timer.Some? ==> t.entry.value.owner.None?)
    && (forall timer :: timer in t.timers ==> timer < t.nextTimer)
  }

  ghost predicate OwnerOk(t: Table, f: Forwarder) {
    && (f.task.Ended? ==> t.entry.None? && f.commands == [] && f.active.None?)
    && (t.entry.Some? && t.entry.value.owner.Some? && f.active.Some? ==> t.entry.value.owner == f.active)
    && (f.task.Opening? && t.entry.Some? ==> t.entry.value.owner in {None, Some(0)})
  }

  /** An entry nobody owns is on its way to an owner or to removal. */
  ghost predicate Tended(s: State) {
    s.table.entry.Some? && s.table.entry.value == Entry(None, None) && s.past.lost == {} ==>
      exists id :: InFlight(s.fwd, s.net, id)
  }

  /** An open connection not told to close has missed nothing. */
  ghost predicate Current(id: ConnId, f: Forwarder, n: Net, h: History) {
    id in h.windows && id in n.conns && n.conns[id].open && n.conns[id].closing.None? ==>
      h.windows[id].upto == |h.produced| && (f.active == Some(id) || f.task == Installing(id) || f.task.Ended?)
  }

  ghost predicate CurrentOk(f: Forwarder, n: Net, h: History) {
    forall id :: id in h.windows ==> Current(id, f, n, h)
  }

  ghost predicate Inv(s: State) {
    && QueuesOk(s.net, s.past)
    && WindowsOk(s.fwd.scrollback, s.net, s.past)
    && LiveOk(s.fwd, s.net, s.past)
    && AttachesOk(s.fwd, s.net, s.past)
    && TimersOk(s.table)
    && OwnerOk(s.table, s.fwd)
    && CurrentOk(s.fwd, s.net, s.past)
    && Tended(s)
  }

  // ---------------------------------------------------------------- proofs

  lemma {:induction false} BytesConcat(a: seq<Item>, b: seq<Item>)
    ensures Bytes(a + b) == Bytes(a) + Bytes(b)
  {
    if a == [] {
      assert a + b == b;
    } else {
      BytesConcat(a[1..], b);
      TailOfSum(a, b);
    }
  }

  /** Cutting the scrollback into replay pieces loses and adds nothing. */
  lemma {:induction false} ChunksExact(s: seq<Byte>)
    ensures Bytes(Chunks(s)) == s
    ensures forall k :: 0 <= k < |Chunks(s)| ==> Chunks(s)[k].Data?
    ensures |Chunks(s)| * REPLAY_CHUNK < |s| + REPLAY_CHUNK
    decreases |s|
  {
    if |s| > REPLAY_CHUNK {
      ChunksExact(s[REPLAY_CHUNK..]);
      assert s == s[..REPLAY_CHUNK] + s[REPLAY_CHUNK..];
    }
  }

  lemma {:induction false} ReplayPieces(produced: seq<Byte>)
    ensures var back := Last(produced, SCROLLBACK_BYTES);
            && |Chunks(back)| <= 32
            && |produced| - Min(|produced|, |back|) == Max(0, |produced| - SCROLLBACK_BYTES)
            && back == produced[Max(0, |produced| - SCROLLBACK_BYTES)..]
  {
    ChunksExact(Last(produced, SCROLLBACK_BYTES));
  }

  /** A delivery stays exact when the stream grows. */
  lemma {:induction false} DeliveredGrows(c: Conn, w: Window, produced: seq<Byte>, chunk: seq<Byte>)
    requires Delivered(c, w, produced)
    ensures Delivered(c, w, produced + chunk)
  {
    assert (produced + chunk)[w.from..w.joined] == produced[w.from..w.joined];
    assert (produced + chunk)[w.joined..w.upto] == produced[w.joined..w.upto];
  }

  /** Queuing the next live chunk extends the window by exactly that chunk. */
  lemma {:induction false} DeliveredAppends(c: Conn, w: Window, produced: seq<Byte>, chunk: seq<Byte>)
    requires Delivered(c, w, produced) && w.upto == |produced|
    ensures Delivered(Append(c, [Data(chunk)]), w.(upto := |produced| + |chunk|), produced + chunk)
  {
    DeliveredGrows(c, w, produced, chunk);
    QueueGrows(c.sent, w.mark, Data(chunk));
    BytesConcat(c.sent[w.mark + 1..], [Data(chunk)]);
    OneData(chunk);
    StreamGrows(produced, chunk, w.joined);
  }

  lemma {:induction false} QueueGrows(sent: seq<Item>, mark: nat, item: Item)
    requires mark < |sent|
    ensures (sent + [item])[..mark] == sent[..mark] && (sent + [item])[mark + 1..] == sent[mark + 1..] + [item]
  {
  }

  lemma {:induction false} StreamGrows(produced: seq<Byte>, chunk: seq<Byte>, from: nat)
    requires from <= |produced|
    ensures (produced + chunk)[from..|produced| + |chunk|] == produced[from..|produced|] + chunk
  {
  }

  lemma {:induction false} OneData(chunk: seq<Byte>)
    ensures Bytes([Data(chunk)]) == chunk
  {
    assert Bytes([Data(chunk)][1..]) == [];
  }

  /** Pieces, then the marker, into an empty queue. */
  lemma {:induction false} DeliveredJoin(c: Conn, items: seq<Item>, from: nat, produced: seq<Byte>)
    requires c.sent == [] && from <= |produced| && Bytes(items) == produced[from..]
    requires forall k :: 0 <= k < |items| ==> items[k].Data?
    ensures Delivered(Append(c, items + [ReplayEnd]), Window(from, |produced|, |produced|, |items|), produced)
  {
    var sent := items + [ReplayEnd];
    assert Append(c, sent).sent == sent;
    assert sent[..|items|] == items && sent[|items| + 1..] == [];
    assert produced[from..|produced|] == produced[from..] && produced[|produced|..|produced|] == [];
  }

  /** The steps that put something into a connection's queue. */
  predicate Streams(step: Step) {
    step.TaskOpen? || step.TaskReplay? || step.TaskOutput?
  }

  lemma {:induction false} QueuesKeep(s: State, step: Step)
    requires QueuesOk(s.net, s.past) && Enabled(s, step) && !Streams(step)
    ensures QueuesOk(Next(s, step).net, Next(s, step).past)
  {
  }

  lemma {:induction false} QueuesKeepJoin(s: State, step: Step)
    requires QueuesOk(s.net, s.past) && AttachesOk(s.fwd, s.net, s.past) && Enabled(s, step)
    requires |Chunks(s.fwd.scrollback)| <= 32 && (step.TaskOpen? || step.TaskReplay?)
    ensures QueuesOk(Next(s, step).net, Next(s, step).past)
  {
    assert step.TaskReplay? ==> Waiting(s.fwd.commands[0], s.net, s.past);
  }

  lemma {:induction false} QueuesKeepOutput(s: State, chunk: seq<Byte>)
    requires QueuesOk(s.net, s.past) && LiveOk(s.fwd, s.net, s.past)
    ensures QueuesOk(OutputStep(s, chunk).net, OutputStep(s, chunk).past)
  {
  }

  /** `t` delivers nothing that `s` had not. */
  ghost predicate SameDelivery(s: State, t: State) {
    && t.past.produced == s.past.produced && t.past.windows == s.past.windows
    && t.fwd.scrollback == s.fwd.scrollback
    && s.net.conns.Keys <= t.net.conns.Keys
    && forall id :: id in s.net.conns ==> t.net.conns[id].sent == s.net.conns[id].sent
  }

  lemma {:induction false} QuietDelivery(s: State, step: Step)
    requires QueuesOk(s.net, s.past) && Enabled(s, step) && !Streams(step)
    ensures SameDelivery(s, Next(s, step))
  {
  }

  lemma {:induction false} SameDeliveryKeeps(s: State, t: State)
    requires QueuesOk(s.net, s.past) && WindowsOk(s.fwd.scrollback, s.net, s.past) && SameDelivery(s, t)
    ensures WindowsOk(t.fwd.scrollback, t.net, t.past)
  {
    forall id | id in t.past.windows ensures WindowOk(id, t.net.conns[id], t.past.windows[id], t.past.produced) {
      assert WindowOk(id, s.net.conns[id], s.past.windows[id], s.past.produced);
    }
  }

  lemma {:induction false} WindowsKeepOpen(s: State)
    requires QueuesOk(s.net, s.past) && WindowsOk(s.fwd.scrollback, s.net, s.past)
    requires AttachesOk(s.fwd, s.net, s.past) && s.fwd.task.Opening?
    ensures var t := OpenStep(s); WindowsOk(t.fwd.scrollback, t.net, t.past)
  {
    DeliveredJoin(s.net.conns[0], [], 0, []);
    assert [] + [ReplayEnd] == [ReplayEnd];
  }

  lemma {:induction false} ReplayWindow(c: Conn, id: ConnId, produced: seq<Byte>)
    requires c.sent == [] && id != 0
    ensures var back := Last(produced, SCROLLBACK_BYTES);
            var n := |produced|;
            WindowOk(id, Append(c, Chunks(back) + [ReplayEnd]),
                     Window(n - Min(n, |back|), n, n, |Chunks(back)|), produced)
  {
    var back := Last(produced, SCROLLBACK_BYTES);
    ChunksExact(back);
    ReplayPieces(produced);
    DeliveredJoin(c, Chunks(back), |produced| - |back|, produced);
  }

  lemma {:induction false} WindowsKeepReplay(s: State)
    requires QueuesOk(s.net, s.past) && WindowsOk(s.fwd.scrollback, s.net, s.past)
    requires AttachesOk(s.fwd, s.net, s.past) && s.fwd.commands != []
    ensures var t := ReplayStep(s); WindowsOk(t.fwd.scrollback, t.net, t.past)
  {
    var id, t := s.fwd.commands[0], ReplayStep(s);
    assert Waiting(id, s.net, s.past);
    ReplayTouches(s, id);
    ReplayWindow(s.net.conns[id], id, s.past.produced);
    forall k | k in t.past.windows && k in t.net.conns ensures WindowOk(k, t.net.conns[k], t.past.windows[k], t.past.produced) {
      if k != id { assert WindowOk(k, s.net.conns[k], s.past.windows[k], s.past.produced); }
    }
  }

  /** A replay touches its own connection and window only. */
  lemma {:induction false} ReplayTouches(s: State, id: ConnId)
    requires s.fwd.commands != [] && id == s.fwd.commands[0] && id in s.net.conns && id !in s.past.windows
    requires s.net.conns[id].sent == []
    ensures var t, n := ReplayStep(s), |s.past.produced|;
            && t.past.produced == s.past.produced && t.fwd.scrollback == s.fwd.scrollback
            && (forall k :: k in t.net.conns && k in t.past.windows && k != id ==>
                  k in s.net.conns && k in s.past.windows
                  && t.net.conns[k] == s.net.conns[k] && t.past.windows[k] == s.past.windows[k])
            && (id in t.past.windows ==>
                  && t.net.conns[id] == Append(s.net.conns[id], Chunks(s.fwd.scrollback) + [ReplayEnd])
                  && t.past.windows[id] == Window(n - Min(n, |s.fwd.scrollback|), n, n, |Chunks(s.fwd.scrollback)|))
  {
  }

  lemma {:induction false} WindowsKeepOutput(s: State, chunk: seq<Byte>)
    requires QueuesOk(s.net, s.past) && WindowsOk(s.fwd.scrollback, s.net, s.past)
    requires LiveOk(s.fwd, s.net, s.past)
    ensures var t := OutputStep(s, chunk); WindowsOk(t.fwd.scrollback, t.net, t.past)
  {
    LastOfLast(s.past.produced, chunk, SCROLLBACK_BYTES);
    var t := OutputStep(s, chunk);
    forall id | id in t.past.windows && id in t.net.conns
      ensures WindowOk(id, t.net.conns[id], t.past.windows[id], t.past.produced)
    {
      assert WindowOk(id, s.net.conns[id], s.past.windows[id], s.past.produced);
      OutputDelivers(s, chunk, id);
    }
  }

  /** Trimming after every chunk keeps the same tail as trimming the whole stream. */
  lemma {:induction false} LastOfLast(a: seq<Byte>, b: seq<Byte>, n: nat)
    ensures Last(Last(a, n) + b, n) == Last(a + b, n)
  {
  }

  lemma {:induction false} OutputDelivers(s: State, chunk: seq<Byte>, id: ConnId)
    requires id in s.past.windows && id in s.net.conns && WindowOk(id, s.net.conns[id], s.past.windows[id], s.past.produced)
    requires s.fwd.active == Some(id) ==> s.past.windows[id].upto == |s.past.produced|
    ensures var t := OutputStep(s, chunk);
            id in t.past.windows && id in t.net.conns && WindowOk(id, t.net.conns[id], t.past.windows[id], t.past.produced)
  {
    var c, w, t := s.net.conns[id], s.past.windows[id], OutputStep(s, chunk);
    OutputTouches(s, chunk, id);
    if t.past.windows[id] == w && t.net.conns[id].sent == c.sent {
      WindowGrows(id, c, t.net.conns[id], w, s.past.produced, chunk);
    } else {
      WindowAppends(id, c, w, s.past.produced, chunk);
    }
  }

  /** What a chunk does to a connection: nothing to its queue, or the chunk comes next. */
  lemma {:induction false} OutputTouches(s: State, chunk: seq<Byte>, id: ConnId)
    requires id in s.past.windows && id in s.net.conns
    ensures var c, w, t := s.net.conns[id], s.past.windows[id], OutputStep(s, chunk);
            && id in t.past.windows && id in t.net.conns && t.past.produced == s.past.produced + chunk
            && (|| (t.net.conns[id].sent == c.sent && t.past.windows[id] == w)
                || (s.fwd.active == Some(id) && t.net.conns[id] == Append(c, [Data(chunk)])
                    && t.past.windows[id] == w.(upto := |s.past.produced| + |chunk|)))
  {
  }

  lemma {:induction false} WindowGrows(id: ConnId, c: Conn, d: Conn, w: Window, produced: seq<Byte>, chunk: seq<Byte>)
    requires WindowOk(id, c, w, produced) && d.sent == c.sent
    ensures WindowOk(id, d, w, produced + chunk)
  {
    DeliveredGrows(c, w, produced, chunk);
  }

  lemma {:induction false} WindowAppends(id: ConnId, c: Conn, w: Window, produced: seq<Byte>, chunk: seq<Byte>)
    requires WindowOk(id, c, w, produced) && w.upto == |produced|
    ensures WindowOk(id, Append(c, [Data(chunk)]), w.(upto := |produced| + |chunk|), produced + chunk)
  {
    DeliveredAppends(c, w, produced, chunk);
  }

  lemma {:induction false} LiveKeep(s: State, step: Step)
    requires QueuesOk(s.net, s.past) && LiveOk(s.fwd, s.net, s.past) && Enabled(s, step) && !Streams(step)
    ensures LiveOk(Next(s, step).fwd, Next(s, step).net, Next(s, step).past)
  {
  }

  lemma {:induction false} WindowOrder(n: Net, h: History, scrollback: seq<Byte>)
    requires QueuesOk(n, h) && WindowsOk(scrollback, n, h)
    ensures forall id :: id in h.windows ==> h.windows[id].joined <= h.windows[id].upto <= |h.produced|
  {
    forall id | id in h.windows ensures h.windows[id].joined <= h.windows[id].upto <= |h.produced| {
      assert WindowOk(id, n.conns[id], h.windows[id], h.produced);
    }
  }

  lemma {:induction false} LiveKeepJoin(s: State, step: Step)
    requires QueuesOk(s.net, s.past) && LiveOk(s.fwd, s.net, s.past) && AttachesOk(s.fwd, s.net, s.past)
    requires Enabled(s, step) && (step.TaskOpen? || step.TaskReplay?)
    requires forall id :: id in s.past.windows ==> s.past.windows[id].upto <= |s.past.produced|
    ensures LiveOk(Next(s, step).fwd, Next(s, step).net, Next(s, step).past)
  {
    assert step.TaskReplay? ==> Waiting(s.fwd.commands[0], s.net, s.past);
  }

  lemma {:induction false} LiveKeepOutput(s: State, chunk: seq<Byte>)
    requires QueuesOk(s.net, s.past) && LiveOk(s.fwd, s.net, s.past) && s.fwd.task.Idle?
    requires forall id :: id in s.past.windows ==>
               s.past.windows[id].joined <= s.past.windows[id].upto <= |s.past.produced|
    ensures LiveOk(OutputStep(s, chunk).fwd, OutputStep(s, chunk).net, OutputStep(s, chunk).past)
  {
    var t := OutputStep(s, chunk);
    forall a, b | a in t.past.windows && b in t.past.windows && a != b
      ensures DisjointLive(t.past.windows[a], t.past.windows[b])
    {
      assert DisjointLive(s.past.windows[a], s.past.windows[b]);
    }
  }

  lemma {:induction false} AttachesKeepAttach(s: State, step: Step)
    requires QueuesOk(s.net, s.past) && AttachesOk(s.fwd, s.net, s.past) && Enabled(s, step)
    requires step.AttachStart? || step.AttachSend? || step.AttachFail? || step.DropReceiver?
    ensures AttachesOk(Next(s, step).fwd, Next(s, step).net, Next(s, step).past)
  {
    assert forall id :: id in Next(s, step).fwd.commands ==> id in s.fwd.commands || id in s.net.starting;
  }

  lemma {:induction false} AttachesKeepTask(s: State, step: Step)
    requires QueuesOk(s.net, s.past) && AttachesOk(s.fwd, s.net, s.past) && Enabled(s, step)
    requires step.TaskOpen? || step.TaskInstall?
    ensures AttachesOk(Next(s, step).fwd, Next(s, step).net, Next(s, step).past)
  {
    assert forall id :: id in s.fwd.commands ==> Waiting(id, s.net, s.past);
  }

  lemma {:induction false} AttachesKeepReplay(s: State)
    requires QueuesOk(s.net, s.past) && AttachesOk(s.fwd, s.net, s.past) && s.fwd.commands != []
    requires s.fwd.task.Idle?
    ensures AttachesOk(ReplayStep(s).fwd, ReplayStep(s).net, ReplayStep(s).past)
  {
    var rest := s.fwd.commands[1..];
    assert Waiting(s.fwd.commands[0], s.net, s.past);
    assert forall id :: id in rest ==> id in s.fwd.commands && id != s.fwd.commands[0];
  }

  lemma {:induction false} AttachesKeep(s: State, step: Step)
    requires QueuesOk(s.net, s.past) && LiveOk(s.fwd, s.net, s.past) && AttachesOk(s.fwd, s.net, s.past)
    requires Enabled(s, step) && !step.AttachStart? && !step.AttachSend? && !step.AttachFail? && !step.DropReceiver?
    requires !step.TaskOpen? && !step.TaskReplay? && !step.TaskInstall?
    ensures AttachesOk(Next(s, step).fwd, Next(s, step).net, Next(s, step).past)
  {
  }

  /** The exact grace-timer discipline: the running timers are the entry's own. */
  lemma {:induction false} TimersKeep(s: State, step: Step)
    requires TimersOk(s.table) && Enabled(s, step)
    ensures TimersOk(Next(s, step).table)
  {
  }

  lemma {:induction false} OwnerKeep(s: State, step: Step)
    requires AttachesOk(s.fwd, s.net, s.past) && OwnerOk(s.table, s.fwd) && Enabled(s, step)
    ensures OwnerOk(Next(s, step).table, Next(s, step).fwd)
  {
  }

  /** An attach leaves flight by being installed, cancelled, or ending with its entry. */
  lemma {:induction false} StillInFlight(s: State, step: Step, id: ConnId)
    requires AttachesOk(s.fwd, s.net, s.past) && OwnerOk(s.table, s.fwd) && Enabled(s, step)
    requires InFlight(s.fwd, s.net, id)
    ensures var t := Next(s, step);
            InFlight(t.fwd, t.net, id) || t.past.lost != {} || t.table.entry.None?
            || t.table.entry.value.owner == Some(id)
  {
  }

  lemma {:induction false} CurrentKeep(s: State, step: Step)
    requires QueuesOk(s.net, s.past) && LiveOk(s.fwd, s.net, s.past) && AttachesOk(s.fwd, s.net, s.past)
    requires CurrentOk(s.fwd, s.net, s.past) && Enabled(s, step)
    ensures CurrentOk(Next(s, step).fwd, Next(s, step).net, Next(s, step).past)
  {
    var t := Next(s, step);
    forall id | id in t.past.windows ensures Current(id, t.fwd, t.net, t.past) {
      if Streams(step) { CurrentKeepStream(s, step, id); } else { CurrentKeepQuiet(s, step, id); }
    }
  }

  lemma {:induction false} CurrentKeepStream(s: State, step: Step, id: ConnId)
    requires QueuesOk(s.net, s.past) && LiveOk(s.fwd, s.net, s.past) && AttachesOk(s.fwd, s.net, s.past)
    requires id in s.past.windows ==> Current(id, s.fwd, s.net, s.past)
    requires Enabled(s, step) && Streams(step) && id in Next(s, step).past.windows
    ensures Current(id, Next(s, step).fwd, Next(s, step).net, Next(s, step).past)
  {
  }

  lemma {:induction false} CurrentKeepQuiet(s: State, step: Step, id: ConnId)
    requires QueuesOk(s.net, s.past) && LiveOk(s.fwd, s.net, s.past) && AttachesOk(s.fwd, s.net, s.past)
    requires id in s.past.windows ==> Current(id, s.fwd, s.net, s.past)
    requires Enabled(s, step) && !Streams(step) && id in Next(s, step).past.windows
    ensures Current(id, Next(s, step).fwd, Next(s, step).net, Next(s, step).past)
  {
  }

  lemma {:induction false} TendedKeep(s: State, step: Step)
    requires AttachesOk(s.fwd, s.net, s.past) && OwnerOk(s.table, s.fwd) && Tended(s) && Enabled(s, step)
    ensures Tended(Next(s, step))
  {
    var t := Next(s, step);
    if step.AttachStart? {
      assert InFlight(t.fwd, t.net, s.net.nextConn);
    } else if exists id :: InFlight(s.fwd, s.net, id) {
      var id :| InFlight(s.fwd, s.net, id);
      StillInFlight(s, step, id);
    }
  }

  lemma {:induction false} StepKeeps(s: State, step: Step)
    requires Inv(s) && Enabled(s, step)
    ensures Inv(Next(s, step))
  {
    CurrentKeep(s, step); TimersKeep(s, step); OwnerKeep(s, step); TendedKeep(s, step);
    if Streams(step) {
      ReplayPieces(s.past.produced);
      WindowOrder(s.net, s.past, s.fwd.scrollback);
    } else {
      QueuesKeep(s, step); LiveKeep(s, step);
      QuietDelivery(s, step); SameDeliveryKeeps(s, Next(s, step));
    }
    match step
    case AttachStart => AttachesKeepAttach(s, step);
    case AttachSend(_) => AttachesKeepAttach(s, step);
    case AttachFail(_) => AttachesKeepAttach(s, step);
    case DropReceiver(_) => AttachesKeepAttach(s, step);
    case TaskInstall => AttachesKeepTask(s, step);
    case TaskOpen => QueuesKeepJoin(s, step); AttachesKeepTask(s, step); WindowsKeepOpen(s); LiveKeepJoin(s, step);
    case TaskReplay => QueuesKeepJoin(s, step); AttachesKeepReplay(s); WindowsKeepReplay(s); LiveKeepJoin(s, step);
    case TaskOutput(chunk) => QueuesKeepOutput(s, chunk); AttachesKeep(s, step); WindowsKeepOutput(s, chunk); LiveKeepOutput(s, chunk);
    case _ => AttachesKeep(s, step);
  }

  /** Every state of every interleaving satisfies the invariant. */
  lemma {:induction false} ReachableInv(steps: seq<Step>, s: State)
    requires Reaches(steps, s)
    ensures Inv(s)
    decreases |steps|
  {
    if steps != [] {
      var k := |steps| - 1;
      var p :| Reaches(steps[..k], p) && Enabled(p, steps[k]) && s == Next(p, steps[k]);
      ReachableInv(steps[..k], p);
      StepKeeps(p, steps[k]);
    }
  }

  // -------------------------------------------------------------- theorems

  /** In every interleaving, what was ever queued to a connection is one
      contiguous window of the PTY stream with the end marker at the point it
      joined: from the start for the creating connection, from at most 131072
      bytes back for an attach; and an open connection that was not told to
      close is up to date. */
  lemma {:induction false} StreamWindow(steps: seq<Step>, s: State, id: ConnId)
    requires Reaches(steps, s) && id in s.net.conns
    ensures id !in s.past.windows ==> s.net.conns[id].sent == []
    ensures id in s.past.windows ==>
              var c, w, stream := s.net.conns[id], s.past.windows[id], s.past.produced;
              && w.from == (if id == 0 then 0 else Max(0, w.joined - SCROLLBACK_BYTES))
              && w.from <= w.joined <= w.upto <= |stream| && w.mark < |c.sent|
              && Bytes(c.sent) == stream[w.from..w.upto]
              && Bytes(c.sent[..w.mark]) == stream[w.from..w.joined]
              && (forall k :: 0 <= k < |c.sent| ==> (c.sent[k] == ReplayEnd <==> k == w.mark))
              && (c.open && c.closing.None? ==> w.upto == |stream|)
  {
    ReachableInv(steps, s);
    if id in s.past.windows {
      assert WindowOk(id, s.net.conns[id], s.past.windows[id], s.past.produced);
      assert Current(id, s.fwd, s.net, s.past);
      WholeWindow(s.net.conns[id], s.past.windows[id], s.past.produced);
    }
  }

  /** Replay, marker and live part together carry one stretch of the stream. */
  lemma {:induction false} WholeWindow(c: Conn, w: Window, stream: seq<Byte>)
    requires Delivered(c, w, stream)
    ensures Bytes(c.sent) == stream[w.from..w.upto]
  {
    assert c.sent == c.sent[..w.mark] + [ReplayEnd] + c.sent[w.mark + 1..];
    BytesAround(c.sent[..w.mark], c.sent[w.mark + 1..]);
    StretchSplit(stream, w.from, w.joined, w.upto);
  }

  lemma {:induction false} BytesAround(a: seq<Item>, b: seq<Item>)
    ensures Bytes(a + [ReplayEnd] + b) == Bytes(a) + Bytes(b)
  {
    BytesConcat(a + [ReplayEnd], b);
    BytesConcat(a, [ReplayEnd]);
    assert Bytes([ReplayEnd]) == [];
  }

  lemma {:induction false} StretchSplit(stream: seq<Byte>, a: nat, b: nat, c: nat)
    requires a <= b <= c <= |stream|
    ensures stream[a..c] == stream[a..b] + stream[b..c]
  {
  }

  /** Each byte of the stream reaches at most one connection live. */
  lemma {:induction false} LiveOnce(steps: seq<Step>, s: State, a: ConnId, b: ConnId, k: nat)
    requires Reaches(steps, s) && a in s.past.windows && b in s.past.windows
    requires s.past.windows[a].joined <= k < s.past.windows[a].upto
    requires s.past.windows[b].joined <= k < s.past.windows[b].upto
    ensures a == b
  {
    ReachableInv(steps, s);
    var u, v := s.past.windows[a], s.past.windows[b];
    assert a == b || DisjointLive(u, v);
  }

  /** The sends of a replay never wait: the queue is empty and takes it whole. */
  lemma {:induction false} ReplayNeverBlocks(steps: seq<Step>, s: State)
    requires Reaches(steps, s) && Enabled(s, TaskReplay)
    ensures s.fwd.commands[0] in s.net.conns
    ensures s.net.conns[s.fwd.commands[0]].Queued() + |Chunks(s.fwd.scrollback)| + 1 <= 33 < OUTPUT_CHUNKS
  {
    ReachableInv(steps, s);
    ReplayPieces(s.past.produced);
    var id := s.fwd.commands[0];
    assert Waiting(id, s.net, s.past);
  }

  /** While the entry stands, the only timer still running is the one it holds,
      and it holds one only while nobody owns it. */
  lemma {:induction false} TimerDiscipline(steps: seq<Step>, s: State)
    requires Reaches(steps, s) && s.table.entry.Some?
    ensures forall t :: t in s.table.timers <==> s.table.entry.value.timer == Some(t)
    ensures s.table.entry.value.timer.Some? ==> s.table.entry.value.owner.None?
    ensures s.table.entry.value.owner.Some? ==> s.table.timers == {}
  {
    ReachableInv(steps, s);
  }

  /** A detach acts exactly when it names the owner; a replaced connection's late
      detach changes nothing. */
  lemma {:induction false} LateDetach(s: State, id: ConnId)
    ensures Next(s, Detach(id)) == s <==> !(s.table.entry.Some? && s.table.entry.value.owner == Some(id))
  {
  }

  /** An owned session leaves the table only when its own task ends. */
  lemma {:induction false} OwnedEntryStays(steps: seq<Step>, s: State, step: Step)
    requires Reaches(steps, s) && Enabled(s, step)
    requires s.table.entry.Some? && s.table.entry.value.owner.Some?
    requires Next(s, step).table.entry.None?
    ensures step == TaskEnd || (step == TaskOpen && 0 in s.net.conns && !s.net.conns[0].open)
  {
    ReachableInv(steps, s);
  }

  /** Bytes go to the owner and to nobody else. */
  lemma {:induction false} OnlyOwnerReceives(steps: seq<Step>, s: State, chunk: seq<Byte>, id: ConnId)
    requires Reaches(steps, s) && Enabled(s, TaskOutput(chunk)) && id in s.net.conns
    requires OutputStep(s, chunk).net.conns[id].sent != s.net.conns[id].sent
    ensures s.table.entry.Some? && s.table.entry.value.owner.Some? ==> s.table.entry.value.owner == Some(id)
    ensures s.fwd.active == Some(id)
  {
    ReachableInv(steps, s);
  }

  /** An entry without owner or timer has an attach in flight, unless an attach
      was cancelled half-way. */
  lemma {:induction false} UnownedEntryTended(steps: seq<Step>, s: State)
    requires Reaches(steps, s) && s.table.entry == Some(Entry(None, None)) && s.past.lost == {}
    ensures exists id :: InFlight(s.fwd, s.net, id)
  {
    ReachableInv(steps, s);
  }

  /** An entry that nothing will ever act on by itself: no owner who could detach,
      no timer, and no attach on its way. */
  ghost predicate Orphaned(s: State) {
    s.table.entry == Some(Entry(None, None)) && forall id :: !InFlight(s.fwd, s.net, id)
  }

  ghost predicate OnlyInFlight(s: State, id: ConnId) {
    InFlight(s.fwd, s.net, id) && forall other :: InFlight(s.fwd, s.net, other) ==> other == id
  }

  predicate Dead(s: State, id: ConnId) {
    id in s.net.conns && !s.net.conns[id].open
  }

  /** The last attach in flight towards an entry without owner or timer is dropped
      before its command is sent, or found dead by its replay. */
  ghost predicate Orphans(s: State, step: Step) {
    && s.table.entry == Some(Entry(None, None))
    && (|| (step.DropReceiver? && step.id in s.net.starting && OnlyInFlight(s, step.id))
        || (step.TaskReplay? && s.fwd.commands != [] && Dead(s, s.fwd.commands[0]) && s.fwd.scrollback != []
            && OnlyInFlight(s, s.fwd.commands[0])))
  }

  /** Exactly these steps leave an orphan. */
  lemma {:induction false} OrphanedIff(steps: seq<Step>, s: State, step: Step)
    requires Reaches(steps, s) && Enabled(s, step) && !Orphaned(s)
    ensures Orphaned(Next(s, step)) <==> Orphans(s, step)
  {
    ReachableInv(steps, s);
    if Orphans(s, step) { OrphansLeave(s, step); }
    if Orphaned(Next(s, step)) { OrphanCame(s, step); }
  }

  lemma {:induction false} OrphansLeave(s: State, step: Step)
    requires AttachesOk(s.fwd, s.net, s.past) && Enabled(s, step) && Orphans(s, step)
    ensures Orphaned(Next(s, step))
  {
    var t := Next(s, step);
    forall id ensures !InFlight(t.fwd, t.net, id) {
      if InFlight(t.fwd, t.net, id) { assert InFlight(s.fwd, s.net, id); }
    }
  }

  lemma {:induction false} StartedInFlight(s: State)
    requires Enabled(s, AttachStart)
    ensures !Orphaned(Next(s, AttachStart))
  {
    assert InFlight(Next(s, AttachStart).fwd, Next(s, AttachStart).net, s.net.nextConn);
  }

  lemma {:induction false} OrphanCame(s: State, step: Step)
    requires AttachesOk(s.fwd, s.net, s.past) && OwnerOk(s.table, s.fwd) && TimersOk(s.table)
    requires Enabled(s, step) && !Orphaned(s) && Orphaned(Next(s, step))
    ensures Orphans(s, step)
  {
    var t := Next(s, step);
    if step.AttachStart? {
      StartedInFlight(s);
    } else {
      assert s.table.entry == Some(Entry(None, None));
      var id :| InFlight(s.fwd, s.net, id);
      forall other | InFlight(s.fwd, s.net, other) ensures LeavesFlight(s, step, other) {
        assert !InFlight(t.fwd, t.net, other);
        LeftFlight(s, step, other);
      }
      assert LeavesFlight(s, step, id);
    }
  }

  /** The two ways an attach leaves flight while the entry stands unowned. */
  predicate LeavesFlight(s: State, step: Step, id: ConnId) {
    || (step == DropReceiver(id) && id in s.net.starting)
    || (step.TaskReplay? && s.fwd.commands != [] && s.fwd.commands[0] == id && Dead(s, id) && s.fwd.scrollback != [])
  }

  lemma {:induction false} LeftFlight(s: State, step: Step, id: ConnId)
    requires AttachesOk(s.fwd, s.net, s.past) && OwnerOk(s.table, s.fwd) && Enabled(s, step)
    requires InFlight(s.fwd, s.net, id) && !InFlight(Next(s, step).fwd, Next(s, step).net, id)
    requires Next(s, step).table.entry == Some(Entry(None, None))
    ensures LeavesFlight(s, step, id)
  {
  }

  /** An orphan goes by a new attach, a reset, or the end of its forwarder, and by
      nothing else. */
  lemma {:induction false} OrphanStays(steps: seq<Step>, s: State, step: Step)
    requires Reaches(steps, s) && Enabled(s, step) && Orphaned(s)
    ensures Orphaned(Next(s, step)) <==>
            !(step in {AttachStart, Reset, TaskEnd} || (step == TaskOpen && Dead(s, s.fwd.task.first)))
  {
    InvParts(steps, s);
    NothingInFlight(s);
    if step.AttachStart? { StartedInFlight(s); } else { OrphanKept(s, step); }
  }

  lemma {:induction false} OrphanKept(s: State, step: Step)
    requires s.table == Table(Some(Entry(None, None)), {}, s.table.nextTimer)
    requires s.net.starting == {} && s.fwd.commands == [] && !s.fwd.task.Installing? && !s.fwd.task.Ended?
    requires s.fwd.task.Opening? ==> s.fwd.task.first in s.net.conns
    requires Enabled(s, step) && !step.AttachStart?
    ensures Orphaned(Next(s, step)) <==> !(step in {Reset, TaskEnd} || (step == TaskOpen && Dead(s, s.fwd.task.first)))
  {
  }

  /** What the lemmas about owners need of the invariant. */
  lemma {:induction false} InvParts(steps: seq<Step>, s: State)
    requires Reaches(steps, s)
    ensures s.fwd.task.Installing? ==> s.fwd.task.id in s.net.conns && (!Dead(s, s.fwd.task.id) || s.fwd.task.id in s.past.lost)
    ensures s.fwd.task.Opening? ==> s.fwd.task.first in s.net.conns
    ensures s.fwd.task.Ended? ==> s.table.entry.None?
    ensures forall id :: id in s.net.conns ==> id < s.net.nextConn
    ensures s.fwd.active.Some? ==> s.fwd.active.value in s.net.conns
    ensures s.table.entry.Some? && s.table.entry.value.timer.None? ==> s.table.timers == {}
    ensures s.table.entry.Some? && s.table.entry.value.owner.Some? ==> s.table.entry.value.timer.None?
  {
    ReachableInv(steps, s);
  }

  lemma {:induction false} NothingInFlight(s: State)
    requires forall id :: !InFlight(s.fwd, s.net, id)
    ensures s.net.starting == {} && s.fwd.commands == [] && !s.fwd.task.Installing?
  {
    assert forall id :: id in s.net.starting ==> InFlight(s.fwd, s.net, id);
    if s.fwd.commands != [] { assert InFlight(s.fwd, s.net, s.fwd.commands[0]); }
    if s.fwd.task.Installing? { assert InFlight(s.fwd, s.net, s.fwd.task.id); }
  }

  /** A run that leaves an orphan: the creator leaves, a second browser's attach takes
      the timer and is dropped. */
  lemma {:induction false} CancelledAttachLeavesOrphan() returns (steps: seq<Step>, s: State)
    ensures Reaches(steps, s) && Orphaned(s) && s.table.timers == {}
  {
    s, steps := Init(), [];
    steps, s := Extend(steps, s, TaskOpen);
    steps, s := Extend(steps, s, Detach(0));
    steps, s := Extend(steps, s, AttachStart);
    steps, s := Extend(steps, s, DropReceiver(1));
  }

  /** The entry's owner is a connection whose receiver has gone. */
  predicate OwnedByDead(s: State) {
    s.table.entry.Some? && s.table.entry.value.owner.Some? && Dead(s, s.table.entry.value.owner.value)
  }

  /** An owner dies by losing its receiver, or is installed dead. */
  lemma {:induction false} DeadOwnerIff(steps: seq<Step>, s: State, step: Step)
    requires Reaches(steps, s) && Enabled(s, step) && !OwnedByDead(s)
    ensures OwnedByDead(Next(s, step)) <==>
            s.table.entry.Some?
            && (|| (step == TaskInstall && Dead(s, s.fwd.task.id))
                || (step.DropReceiver? && s.table.entry.value.owner == Some(step.id)))
  {
    InvParts(steps, s);
  }

  /** A connection lost while in flight is there, and closed for good. */
  ghost predicate LostClosed(n: Net, h: History) {
    forall id :: id in h.lost ==> id < n.nextConn && id in n.conns && !n.conns[id].open
  }

  lemma {:induction false} LostStaysClosed(s: State, step: Step)
    requires LostClosed(s.net, s.past) && Enabled(s, step)
    requires forall id :: id in s.net.conns ==> id < s.net.nextConn
    ensures LostClosed(Next(s, step).net, Next(s, step).past)
  {
    var t := Next(s, step);
    forall id | id in t.past.lost ensures id < t.net.nextConn && id in t.net.conns && !t.net.conns[id].open {
      assert step != DropReceiver(id) ==> id in s.past.lost;
    }
  }

  lemma {:induction false} LostAreClosed(steps: seq<Step>, s: State)
    requires Reaches(steps, s)
    ensures LostClosed(s.net, s.past)
    decreases |steps|
  {
    if steps != [] {
      var k := |steps| - 1;
      var p :| Reaches(steps[..k], p) && Enabled(p, steps[k]) && s == Next(p, steps[k]);
      LostAreClosed(steps[..k], p);
      InvParts(steps[..k], p);
      LostStaysClosed(p, steps[k]);
    }
  }

  /** Installed dead is installed lost: an attach dropped while in flight, whose
      connection was handed to nobody who could detach it. */
  lemma {:induction false} InstalledDead(steps: seq<Step>, s: State)
    requires Reaches(steps, s) && Enabled(s, TaskInstall)
    ensures Dead(s, s.fwd.task.id) <==> s.fwd.task.id in s.past.lost
  {
    InvParts(steps, s);
    LostAreClosed(steps, s);
  }

  /** A dead owner goes by its own detach, a takeover by a live connection, or the end
      of the forwarder; no timer runs meanwhile, and a reset leaves it. */
  lemma {:induction false} DeadOwnerStays(steps: seq<Step>, s: State, step: Step)
    requires Reaches(steps, s) && Enabled(s, step) && OwnedByDead(s)
    ensures s.table.timers == {} && Next(s, Reset) == s
    ensures OwnedByDead(Next(s, step)) <==>
            !(|| step == Detach(s.table.entry.value.owner.value) || step == TaskEnd
              || (step == TaskOpen && Dead(s, s.fwd.task.first))
              || (step == TaskInstall && !Dead(s, s.fwd.task.id)))
  {
    InvParts(steps, s);
    DeadOwnerKept(s, step);
  }

  lemma {:induction false} DeadOwnerKept(s: State, step: Step)
    requires s.fwd.task.Installing? ==> s.fwd.task.id in s.net.conns
    requires s.fwd.task.Opening? ==> s.fwd.task.first in s.net.conns
    requires forall id :: id in s.net.conns ==> id < s.net.nextConn
    requires s.fwd.active.Some? ==> s.fwd.active.value in s.net.conns
    requires s.table.timers == {} && Enabled(s, step) && OwnedByDead(s)
    ensures OwnedByDead(Next(s, step)) <==>
            !(|| step == Detach(s.table.entry.value.owner.value) || step == TaskEnd
              || (step == TaskOpen && Dead(s, s.fwd.task.first))
              || (step == TaskInstall && !Dead(s, s.fwd.task.id)))
  {
  }

  lemma {:induction false} SecondAttach() returns (steps: seq<Step>, s: State)
    ensures Reaches(steps, s) && s.table.entry == Some(Entry(None, None)) && s.table.timers == {}
    ensures s.fwd.task.Idle? && s.fwd.commands == [] && s.fwd.scrollback == []
    ensures s.net.starting == {1} && 1 in s.net.conns && s.net.conns[1].open
  {
    s, steps := Init(), [];
    steps, s := Extend(steps, s, TaskOpen);
    steps, s := Extend(steps, s, Detach(0));
    steps, s := Extend(steps, s, DropReceiver(0));
    steps, s := Extend(steps, s, AttachStart);
  }

  lemma {:induction false} LostAttachQueued() returns (steps: seq<Step>, s: State)
    ensures Reaches(steps, s) && s.table.entry == Some(Entry(None, None)) && s.table.timers == {}
    ensures s.fwd.task.Idle? && s.fwd.commands == [1] && s.fwd.scrollback == []
    ensures s.net.starting == {} && Dead(s, 1) && 1 in s.past.lost
  {
    steps, s := SecondAttach();
    steps, s := Extend(steps, s, AttachSend(1));
    steps, s := Extend(steps, s, DropReceiver(1));
  }

  // ----------------------------------------------------- attaches that are awaited

  /** The caller waits for its attach: no receiver goes while its attach is in flight. */
  predicate Awaits(s: State, step: Step) {
    step.DropReceiver? ==> !InFlight(s.fwd, s.net, step.id)
  }

  /** `s` can be reached by `steps`, every attach among them awaited. */
  ghost predicate ReachesAwaited(steps: seq<Step>, s: State)
    decreases |steps|
  {
    if steps == [] then s == Init()
    else
      var k := |steps| - 1;
      exists p :: ReachesAwaited(steps[..k], p) && Enabled(p, steps[k]) && Awaits(p, steps[k]) && s == Next(p, steps[k])
  }

  lemma {:induction false} AwaitedLosesNone(steps: seq<Step>, s: State)
    requires ReachesAwaited(steps, s)
    ensures Reaches(steps, s) && s.past.lost == {}
    decreases |steps|
  {
    if steps != [] {
      var k := |steps| - 1;
      var p :| ReachesAwaited(steps[..k], p) && Enabled(p, steps[k]) && Awaits(p, steps[k]) && s == Next(p, steps[k]);
      AwaitedLosesNone(steps[..k], p);
      AwaitedStep(p, steps[k]);
    }
  }

  lemma {:induction false} AwaitedStep(s: State, step: Step)
    requires Enabled(s, step) && Awaits(s, step)
    ensures Next(s, step).past.lost == s.past.lost
  {
  }

  /** While every attach is awaited, an entry without owner and timer has an attach in
      flight, and no closed connection is ever taken for the owner. */
  lemma {:induction false} AwaitedTended(steps: seq<Step>, s: State)
    requires ReachesAwaited(steps, s)
    ensures !Orphaned(s)
    ensures s.table.entry == Some(Entry(None, None)) ==> exists id :: InFlight(s.fwd, s.net, id)
    ensures s.fwd.task.Installing? ==> !Dead(s, s.fwd.task.id)
  {
    AwaitedLosesNone(steps, s);
    if s.table.entry == Some(Entry(None, None)) { UnownedEntryTended(steps, s); }
    if s.fwd.task.Installing? { InstalledDead(steps, s); }
  }

  /** An owner is then a closed connection only after losing its own receiver. */
  lemma {:induction false} AwaitedOwner(steps: seq<Step>, s: State, step: Step)
    requires ReachesAwaited(steps, s) && Enabled(s, step) && !OwnedByDead(s)
    ensures OwnedByDead(Next(s, step)) <==>
            s.table.entry.Some? && step.DropReceiver? && s.table.entry.value.owner == Some(step.id)
  {
    AwaitedLosesNone(steps, s);
    DeadOwnerIff(steps, s, step);
    AwaitedTended(steps, s);
  }

  // ------------------------------------------------------------ an attach dropped

  /** A run that leaks a session: the attach is dropped after its command was sent,
      the replay of an empty scrollback does not notice, and the dead connection
      becomes the owner. */
  lemma {:induction false} LostAttachOwns() returns (steps: seq<Step>, s: State)
    ensures Reaches(steps, s) && OwnedByDead(s) && s.table.entry.value.owner.value in s.past.lost
    ensures s.table.timers == {} && forall id :: !InFlight(s.fwd, s.net, id)
  {
    steps, s := LostAttachQueued();
    steps, s := Extend(steps, s, TaskReplay);
    steps, s := Extend(steps, s, TaskInstall);
  }

  lemma {:induction false} Extend(steps: seq<Step>, s: State, step: Step) returns (steps': seq<Step>, t: State)
    requires Reaches(steps, s) && Enabled(s, step)
    ensures steps' == steps + [step] && t == Next(s, step) && Reaches(steps', t)
  {
    steps', t := steps + [step], Next(s, step);
    assert steps'[..|steps|] == steps;
  }
}
