/** What the steps do to the table, to the subscriber and to the connections, field by
    field and for every reachable state: what is delivered, who is told to close and
    why, who takes over, and what ends an entry. */
module SessionSteps {
  import opened Common
  import opened SessionProtocol

  /** No connection but `id` is touched. */
  ghost predicate OthersSame(a: Net, b: Net, id: ConnId) {
    a.conns.Keys == b.conns.Keys && forall other :: other in a.conns && other != id ==> b.conns[other] == a.conns[other]
  }

  // ------------------------------------------------------------- live output

  /** A chunk is queued for the live subscriber whenever its queue has room; at a full
      queue it is told to close instead and loses its place; a dead one just loses it.
      Either way the scrollback keeps the last bytes of the stream. */
  lemma {:induction false} OutputDelivered(steps: seq<Step>, s: State, chunk: seq<Byte>)
    requires Reaches(steps, s) && Enabled(s, TaskOutput(chunk))
    ensures var t := Next(s, TaskOutput(chunk));
            && t.table == s.table && t.fwd.task == s.fwd.task && t.fwd.commands == s.fwd.commands
            && t.past.produced == s.past.produced + chunk
            && t.fwd.scrollback == t.past.produced[Max(0, |t.past.produced| - SCROLLBACK_BYTES)..]
    ensures s.fwd.active.None? ==> Next(s, TaskOutput(chunk)).net == s.net && Next(s, TaskOutput(chunk)).fwd.active.None?
    ensures s.fwd.active.Some? ==> s.fwd.active.value in s.net.conns
    ensures s.fwd.active.Some? ==>
              var id := s.fwd.active.value;
              var t, c := Next(s, TaskOutput(chunk)), s.net.conns[id];
              && OthersSame(s.net, t.net, id) && 0 <= c.Queued() <= OUTPUT_CHUNKS && c.closing.None?
              && (c.open && c.Queued() < OUTPUT_CHUNKS ==>
                    t.fwd.active == Some(id) && t.net.conns[id] == Conn(c.sent + [Data(chunk)], c.taken, true, None))
              && (c.open && c.Queued() == OUTPUT_CHUNKS ==>
                    t.fwd.active.None? && t.net.conns[id] == Conn(c.sent, c.taken, true, Some(SlowConsumer)))
              && (!c.open ==> t.fwd.active.None? && t.net.conns[id] == c)
  {
    Facts(steps, s);
    ScrollbackGrows(s.past.produced, chunk);
    ToldIsDone(steps, s);
  }

  lemma {:induction false} ScrollbackGrows(produced: seq<Byte>, chunk: seq<Byte>)
    ensures Last(Last(produced, SCROLLBACK_BYTES) + chunk, SCROLLBACK_BYTES)
         == (produced + chunk)[Max(0, |produced + chunk| - SCROLLBACK_BYTES)..]
  {
    LastOfLast(produced, chunk, SCROLLBACK_BYTES);
  }

  /** What the invariant says of queues, the subscriber and the scrollback. */
  lemma {:induction false} Facts(steps: seq<Step>, s: State)
    requires Reaches(steps, s)
    ensures s.fwd.scrollback == Last(s.past.produced, SCROLLBACK_BYTES)
    ensures forall id :: id in s.net.conns ==> id < s.net.nextConn && 0 <= s.net.conns[id].Queued() <= OUTPUT_CHUNKS
    ensures s.fwd.active.Some? ==> s.fwd.active.value in s.net.conns
    ensures s.fwd.task.Opening? ==> s.fwd.task.first in s.net.conns
    ensures s.fwd.task.Installing? ==> s.fwd.task.id in s.net.conns && s.fwd.active != Some(s.fwd.task.id)
    ensures forall id :: id in s.fwd.commands ==> id in s.net.conns && s.net.conns[id].sent == [] && s.fwd.active != Some(id)
    ensures s.table.entry.Some? ==>
              s.table.timers == if s.table.entry.value.timer.Some? then {s.table.entry.value.timer.value} else {}
    ensures s.table.entry.Some? && s.table.entry.value.owner.Some? ==> s.table.entry.value.timer.None?
    ensures forall t :: t in s.table.timers ==> t < s.table.nextTimer
  {
    ReachableInv(steps, s);
  }

  // ------------------------------------------------------------ told to close

  /** A connection told to close is out of the forwarder's hands. */
  ghost predicate Told(s: State) {
    forall id :: id in s.net.conns && s.net.conns[id].closing.Some? ==>
      id < s.net.nextConn && s.fwd.active != Some(id) && !InFlight(s.fwd, s.net, id) && s.fwd.task != Opening(id)
  }

  lemma {:induction false} ToldKept(s: State, step: Step)
    requires Told(s) && AttachesOk(s.fwd, s.net, s.past) && QueuesOk(s.net, s.past) && Enabled(s, step)
    ensures Told(Next(s, step))
  {
    var t := Next(s, step);
    forall id | id in t.net.conns && t.net.conns[id].closing.Some?
      ensures id < t.net.nextConn && t.fwd.active != Some(id) && !InFlight(t.fwd, t.net, id) && t.fwd.task != Opening(id)
    {
      ToldStays(s, step, id);
    }
  }

  lemma {:induction false} ToldStays(s: State, step: Step, id: ConnId)
    requires AttachesOk(s.fwd, s.net, s.past) && QueuesOk(s.net, s.past) && Enabled(s, step)
    requires id in Next(s, step).net.conns && Next(s, step).net.conns[id].closing.Some?
    requires id in s.net.conns && s.net.conns[id].closing.Some? ==>
               s.fwd.active != Some(id) && !InFlight(s.fwd, s.net, id) && s.fwd.task != Opening(id)
    ensures var t := Next(s, step);
            id < t.net.nextConn && t.fwd.active != Some(id) && !InFlight(t.fwd, t.net, id) && t.fwd.task != Opening(id)
  {
  }

  lemma {:induction false} ToldIsDone(steps: seq<Step>, s: State)
    requires Reaches(steps, s)
    ensures Told(s)
    decreases |steps|
  {
    if steps != [] {
      var k := |steps| - 1;
      var p :| Reaches(steps[..k], p) && Enabled(p, steps[k]) && s == Next(p, steps[k]);
      ToldIsDone(steps[..k], p);
      ReachableInv(steps[..k], p);
      ToldKept(p, steps[k]);
    }
  }

  /** Why a connection is told to close, step by step: its queue was full when output
      came, or another connection took its place. */
  lemma {:induction false} ClosingStep(steps: seq<Step>, s: State, step: Step, id: ConnId)
    requires Reaches(steps, s) && Enabled(s, step) && id in s.net.conns
    ensures id in Next(s, step).net.conns
    ensures Next(s, step).net.conns[id].closing ==
            if step.TaskOutput? && s.fwd.active == Some(id) && s.net.conns[id].open && s.net.conns[id].Queued() == OUTPUT_CHUNKS
            then Some(SlowConsumer)
            else if step.TaskInstall? && s.table.entry.Some? && s.fwd.active == Some(id) then Some(Replaced)
            else s.net.conns[id].closing
  {
    Facts(steps, s);
  }

  /** Over runs: whoever is told that it is slow had 128 items waiting when output came. */
  lemma {:induction false} SlowOnlyWhenFull(steps: seq<Step>, s: State, id: ConnId) returns (k: nat, p: State)
    requires Reaches(steps, s) && id in s.net.conns && s.net.conns[id].closing == Some(SlowConsumer)
    ensures k < |steps| && Reaches(steps[..k], p) && Enabled(p, steps[k]) && steps[k].TaskOutput?
    ensures p.fwd.active == Some(id) && id in p.net.conns && p.net.conns[id].open && p.net.conns[id].Queued() == OUTPUT_CHUNKS
    decreases |steps|
  {
    k, p := ToldAt(steps, s, id, SlowConsumer);
    ClosingStep(steps[..k], p, steps[k], id);
  }

  /** And whoever is told that it was replaced was the subscriber when another
      connection's attach was installed. */
  lemma {:induction false} ReplacedOnlyByAnother(steps: seq<Step>, s: State, id: ConnId) returns (k: nat, p: State)
    requires Reaches(steps, s) && id in s.net.conns && s.net.conns[id].closing == Some(Replaced)
    ensures k < |steps| && Reaches(steps[..k], p) && Enabled(p, steps[k]) && steps[k].TaskInstall?
    ensures p.fwd.active == Some(id) && p.fwd.task.Installing? && p.fwd.task.id != id && p.table.entry.Some?
    decreases |steps|
  {
    k, p := ToldAt(steps, s, id, Replaced);
    ClosingStep(steps[..k], p, steps[k], id);
    Facts(steps[..k], p);
  }

  /** The step at which a connection was told. */
  lemma {:induction false} ToldAt(steps: seq<Step>, s: State, id: ConnId, why: CloseReason) returns (k: nat, p: State)
    requires Reaches(steps, s) && id in s.net.conns && s.net.conns[id].closing == Some(why)
    ensures k < |steps| && Reaches(steps[..k], p) && Enabled(p, steps[k]) && id in p.net.conns
    ensures p.net.conns[id].closing != Some(why) && Next(p, steps[k]).net.conns.Keys >= {id}
    ensures Next(p, steps[k]).net.conns[id].closing == Some(why)
    decreases |steps|
  {
    k := |steps| - 1;
    p :| Reaches(steps[..k], p) && Enabled(p, steps[k]) && s == Next(p, steps[k]);
    NewConnection(p, steps[k], id);
    if p.net.conns[id].closing == Some(why) {
      var l, q := ToldAt(steps[..k], p, id, why);
      assert steps[..k][..l] == steps[..l] && steps[..k][l] == steps[l];
      k, p := l, q;
    }
  }

  /** New connections come by attaches, with nothing queued and nothing told. */
  lemma {:induction false} NewConnection(s: State, step: Step, id: ConnId)
    requires Enabled(s, step) && id in Next(s, step).net.conns
    ensures id in s.net.conns || (step.AttachStart? && id == s.net.nextConn && Next(s, step).net.conns[id] == Conn([], 0, true, None))
  {
  }

  // ----------------------------------------------------------------- attaches

  /** An attach begins: the grace timer stops, the owner stays, and a fresh connection
      is on its way. */
  lemma {:induction false} AttachBegins(steps: seq<Step>, s: State)
    requires Reaches(steps, s) && Enabled(s, AttachStart)
    ensures var t, id := Next(s, AttachStart), s.net.nextConn;
            && t.table.entry == Some(Entry(s.table.entry.value.owner, None)) && t.table.timers == {}
            && t.fwd == s.fwd && t.past == s.past
            && id !in s.net.conns && t.net.conns == s.net.conns[id := Conn([], 0, true, None)]
            && t.net.starting == s.net.starting + {id} && t.net.nextConn == id + 1
  {
    Facts(steps, s);
  }

  /** The replay: an open connection is queued the last bytes of the stream and the
      marker, and comes up for installation. */
  lemma {:induction false} ReplayQueued(steps: seq<Step>, s: State)
    requires Reaches(steps, s) && Enabled(s, TaskReplay)
    ensures s.fwd.commands[0] in s.net.conns
    ensures var t, id := Next(s, TaskReplay), s.fwd.commands[0];
            && t.table == s.table && OthersSame(s.net, t.net, id) && t.fwd.commands == s.fwd.commands[1..]
            && t.fwd.active == s.fwd.active && t.fwd.scrollback == s.fwd.scrollback && t.past.produced == s.past.produced
            && (s.net.conns[id].open ==> t.fwd.task == Installing(id) && Replayed(t.net.conns[id], s.past.produced))
            && (!s.net.conns[id].open ==> t.net.conns[id] == s.net.conns[id]
                                          && t.fwd.task == if s.fwd.scrollback == [] then Installing(id) else Idle)
  {
    Facts(steps, s);
    assert s.fwd.commands[0] in s.fwd.commands;
    PiecesReplayed(Next(s, TaskReplay).net.conns[s.fwd.commands[0]], s.fwd.scrollback, s.past.produced);
  }

  lemma {:induction false} PiecesReplayed(c: Conn, back: seq<Byte>, produced: seq<Byte>)
    requires back == Last(produced, SCROLLBACK_BYTES)
    ensures c.open && c.sent == [] + (Chunks(back) + [ReplayEnd]) ==> Replayed(c, produced)
  {
    ChunksExact(back);
    MarkedItems(Chunks(back));
    LastIs(produced, SCROLLBACK_BYTES);
  }

  lemma {:induction false} LastIs(s: seq<Byte>, n: nat)
    ensures Last(s, n) == s[Max(0, |s| - n)..]
  {
  }

  lemma {:induction false} MarkedItems(items: seq<Item>)
    ensures var sent := [] + (items + [ReplayEnd]);
            sent != [] && sent[|sent| - 1] == ReplayEnd && |sent| - 1 == |items| && sent[..|sent| - 1] == items
            && forall k :: 0 <= k < |items| ==> sent[k] == items[k]
  {
  }

  /** Queued is the tail of the stream in pieces, then the marker, and nothing else. */
  ghost predicate Replayed(c: Conn, produced: seq<Byte>) {
    && c.open && c.sent != [] && c.sent[|c.sent| - 1] == ReplayEnd
    && (forall k :: 0 <= k < |c.sent| - 1 ==> c.sent[k].Data?)
    && Bytes(c.sent[..|c.sent| - 1]) == produced[Max(0, |produced| - SCROLLBACK_BYTES)..]
  }

  /** The takeover: the new connection owns the entry and gets the output, no timer runs,
      and the subscriber before it is told. Without an entry the attach fails. */
  lemma {:induction false} TakenOver(steps: seq<Step>, s: State)
    requires Reaches(steps, s) && Enabled(s, TaskInstall)
    ensures s.fwd.task.id in s.net.conns
    ensures var t, id := Next(s, TaskInstall), s.fwd.task.id;
            && t.fwd.task == Idle && t.fwd.commands == s.fwd.commands && t.past == s.past
            && (s.table.entry.Some? ==>
                  && t.table.entry == Some(Entry(Some(id), None)) && t.table.timers == {} && t.fwd.active == Some(id)
                  && t.net.conns.Keys == s.net.conns.Keys
                  && forall other :: other in s.net.conns ==>
                       t.net.conns[other] == if s.fwd.active == Some(other) then s.net.conns[other].(closing := Some(Replaced))
                                             else s.net.conns[other])
            && (s.table.entry.None? ==>
                  && t.table.entry.None? && t.fwd.active == s.fwd.active && OthersSame(s.net, t.net, id)
                  && t.net.conns[id] == s.net.conns[id].(open := false))
  {
    Facts(steps, s);
  }

  /** The creating connection is served first: the marker is queued for it and it gets
      the output; if it has gone, the session ends. */
  lemma {:induction false} CreatorServed(steps: seq<Step>, s: State)
    requires Reaches(steps, s) && Enabled(s, TaskOpen)
    ensures s.fwd.task.first in s.net.conns
    ensures var t, id := Next(s, TaskOpen), s.fwd.task.first;
            && OthersSame(s.net, t.net, id)
            && (s.net.conns[id].open ==>
                  t.fwd.task == Idle && t.fwd.active == Some(id) && t.table == s.table
                  && t.net.conns[id] == s.net.conns[id].(sent := s.net.conns[id].sent + [ReplayEnd]))
            && (!s.net.conns[id].open ==> t.fwd.task.Ended? && t.table.entry.None? && t.net.conns[id] == s.net.conns[id])
  {
    Facts(steps, s);
  }

  /** A whole attach to a waiting forwarder: afterwards the new connection owns the
      session, was queued the last 131072 bytes of the stream and the marker, gets the
      output, and the subscriber before it was told that it is replaced. */
  lemma {:induction false} AttachEndToEnd(steps: seq<Step>, s: State) returns (steps': seq<Step>, t: State)
    requires Reaches(steps, s) && s.table.entry.Some? && s.fwd.task.Idle? && s.fwd.commands == []
    ensures steps' == steps + [AttachStart, AttachSend(s.net.nextConn), TaskReplay, TaskInstall] && Reaches(steps', t)
    ensures var id := s.net.nextConn;
            && id !in s.net.conns && id in t.net.conns && Replayed(t.net.conns[id], s.past.produced)
            && t.table.entry == Some(Entry(Some(id), None)) && t.table.timers == {} && t.fwd.active == Some(id)
            && (s.fwd.active.Some? ==> s.fwd.active.value in t.net.conns
                                       && t.net.conns[s.fwd.active.value].closing == Some(Replaced))
  {
    var steps2, s2 := AttachArrives(steps, s);
    steps', t := AttachTakesOver(steps2, s2, s.net.nextConn);
    assert steps' == steps + [AttachStart, AttachSend(s.net.nextConn), TaskReplay, TaskInstall];
  }

  lemma {:induction false} AttachArrives(steps: seq<Step>, s: State) returns (steps': seq<Step>, t: State)
    requires Reaches(steps, s) && s.table.entry.Some? && s.fwd.task.Idle? && s.fwd.commands == []
    ensures steps' == steps + [AttachStart] + [AttachSend(s.net.nextConn)] && Reaches(steps', t)
    ensures s.net.nextConn !in s.net.conns && s.net.nextConn in t.net.conns && t.net.conns[s.net.nextConn].open
    ensures t.table.entry.Some? && t.fwd == s.fwd.(commands := [s.net.nextConn]) && t.past.produced == s.past.produced
  {
    Facts(steps, s);
    var steps1, s1 := Extend(steps, s, AttachStart);
    steps', t := Extend(steps1, s1, AttachSend(s.net.nextConn));
  }

  lemma {:induction false} AttachTakesOver(steps: seq<Step>, s: State, id: ConnId) returns (steps': seq<Step>, t: State)
    requires Reaches(steps, s) && s.table.entry.Some? && s.fwd.task.Idle? && s.fwd.commands == [id]
    requires id in s.net.conns && s.net.conns[id].open
    ensures steps' == steps + [TaskReplay] + [TaskInstall] && Reaches(steps', t)
    ensures id in t.net.conns && Replayed(t.net.conns[id], s.past.produced)
    ensures t.table.entry == Some(Entry(Some(id), None)) && t.table.timers == {} && t.fwd.active == Some(id)
    ensures s.fwd.active.Some? ==> s.fwd.active.value in t.net.conns && t.net.conns[s.fwd.active.value].closing == Some(Replaced)
  {
    Facts(steps, s);
    ReplayQueued(steps, s);
    var steps1, s1 := Extend(steps, s, TaskReplay);
    TakenOver(steps1, s1);
    Facts(steps1, s1);
    steps', t := Extend(steps1, s1, TaskInstall);
  }

  // ------------------------------------------------------------------ entries

  /** The owner leaves: a grace timer starts, and nothing else changes. */
  lemma {:induction false} GraceStarts(steps: seq<Step>, s: State, id: ConnId)
    requires Reaches(steps, s) && s.table.entry.Some? && s.table.entry.value.owner == Some(id)
    ensures var t, timer := Next(s, Detach(id)), s.table.nextTimer;
            && t.table.entry == Some(Entry(None, Some(timer))) && t.table.timers == {timer}
            && t.fwd == s.fwd && t.net == s.net && t.past == s.past
  {
    Facts(steps, s);
  }

  /** The timer of an entry runs, and when it ends the entry goes. */
  lemma {:induction false} GraceEnds(steps: seq<Step>, s: State)
    requires Reaches(steps, s) && s.table.entry.Some? && s.table.entry.value.timer.Some?
    ensures var timer := s.table.entry.value.timer.value;
            && Enabled(s, TimerFires(timer))
            && Next(s, TimerFires(timer)).table.entry.None? && timer !in Next(s, TimerFires(timer)).table.timers
  {
    Facts(steps, s);
  }

  /** A reset removes an entry exactly if it has no owner, also during the grace time. */
  lemma {:induction false} ResetRemoves(s: State)
    requires s.table.entry.Some?
    ensures Next(s, Reset).table.entry.None? <==> s.table.entry.value.owner.None?
    ensures s.table.entry.value.owner.Some? ==> Next(s, Reset) == s
  {
  }

  /** An entry appears by no step, and goes by a timer, a reset or its forwarder's end. */
  lemma {:induction false} EntryGoes(steps: seq<Step>, s: State, step: Step)
    requires Reaches(steps, s) && Enabled(s, step)
    ensures s.table.entry.None? ==> Next(s, step).table.entry.None?
    ensures s.table.entry.Some? ==>
              (Next(s, step).table.entry.None? <==>
                || step.TimerFires? || (step.Reset? && s.table.entry.value.owner.None?) || step.TaskEnd?
                || (step.TaskOpen? && s.fwd.task.first in s.net.conns && !s.net.conns[s.fwd.task.first].open))
  {
    Facts(steps, s);
  }
}
