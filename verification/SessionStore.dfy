/** The session store and its forwarding task as they run: one object whose
    methods are the lock regions of `attach`, `reset`, `detach` and the grace
    timer, and the turns of the forwarding task. Every method is one step of
    `SessionProtocol`, so its theorems hold of every run of this object. */
module SessionStore {
  import opened Common
  import opened SessionProtocol

  class Store {
    // the shared table's slot for the token, and the timer tasks still running
    var entry: Option<Entry>
    var timers: set<TimerId>
    var nextTimer: TimerId
    // the forwarding task
    var task: Task
    var commands: seq<ConnId>
    var active: Option<ConnId>
    var scrollback: seq<Byte>
    // connections: queue, receiver and close channel of each
    var conns: map<ConnId, Conn>
    var nextConn: ConnId
    var starting: set<ConnId>
    ghost var past: History

    ghost function Now(): State
      reads this
    {
      State(Table(entry, timers, nextTimer), Forwarder(task, commands, active, scrollback),
            Net(conns, nextConn, starting), past)
    }

    /** A session just created: registered with its owner before forwarding starts. */
    constructor Create()
      ensures Now() == Init()
    {
      entry, timers, nextTimer := Some(Entry(Some(0), None)), {}, 0;
      task, commands, active, scrollback := Opening(0), [], None, [];
      conns, nextConn, starting := map[0 := FRESH_CONN], 1, {};
      past := History([], map[], {});
    }

    /** Take and abort the entry's timer, if it holds one. */
    method AbortTimer()
      modifies this`entry, this`timers
      ensures Now().table == TakeTimer(old(Now().table))
    {
      if entry.Some? && entry.value.timer.Some? {
        timers := timers - {entry.value.timer.value};
        entry := Some(Entry(entry.value.owner, None));
      }
    }

    /** The table lookup of `attach`; false when the token holds nothing. */
    method BeginAttach() returns (found: bool)
      modifies this
      ensures found == old(entry.Some?)
      ensures Now() == if found then Next(old(Now()), AttachStart) else old(Now())
    {
      found := entry.Some?;
      if found {
        AbortTimer();
        conns := conns[nextConn := FRESH_CONN];
        starting := starting + {nextConn};
        nextConn := nextConn + 1;
      }
    }

    method Detach(id: ConnId)
      modifies this
      ensures Now() == Next(old(Now()), SessionProtocol.Detach(id))
    {
      if entry.None? || entry.value.owner != Some(id) { return; }
      entry := Some(Entry(None, Some(nextTimer)));
      timers := timers + {nextTimer};
      nextTimer := nextTimer + 1;
    }

    method Reset()
      modifies this
      ensures Now() == Next(old(Now()), SessionProtocol.Reset)
    {
      var idle := if entry.Some? then entry.value.owner.None? else false;
      if idle { entry := None; }
    }

    method GraceElapsed(timer: TimerId)
      requires timer in timers
      modifies this
      ensures Now() == Next(old(Now()), TimerFires(timer))
    {
      timers := timers - {timer};
      entry := None;
    }

    /** Queue one item; the receiver may already be gone. */
    method Send(id: ConnId, item: Item) returns (sent: bool)
      requires id in conns
      modifies this`conns
      ensures sent == old(conns)[id].open
      ensures conns == if sent then old(conns)[id := Append(old(conns)[id], [item])] else old(conns)
    {
      sent := conns[id].open;
      if sent {
        conns := conns[id := Append(conns[id], [item])];
      }
    }

    /** First turn of the forwarder: the marker must precede all live output. */
    method Open()
      requires task.Opening? && task.first in conns
      modifies this
      ensures Now() == Next(old(Now()), TaskOpen)
    {
      var id := task.first;
      ghost var mark := |conns[id].sent|;
      var sent := Send(id, ReplayEnd);
      if !sent {
        End();
        return;
      }
      task, active := Idle, Some(id);
      past := past.(windows := past.windows[id := Window(0, |past.produced|, |past.produced|, mark)]);
    }

    /** The forwarder leaves its loop: its entry goes, and with it every queued command. */
    method End()
      modifies this
      ensures Now() == EndStep(old(Now()))
    {
      entry := None;
      task, commands, active := Ended, [], None;
    }

    /** An attach command: the scrollback piece by piece, then the marker. */
    method Replay() returns (replayed: bool)
      requires task.Idle? && commands != [] && commands[0] in conns
      modifies this
      ensures Now() == Next(old(Now()), TaskReplay)
      ensures replayed <==> task == Installing(old(commands[0]))
    {
      ghost var before := Now();
      var id := commands[0];
      commands := commands[1..];
      ghost var start := conns[id];
      var at := 0;
      replayed := true;
      while at < |scrollback| && replayed
        invariant 0 <= at <= |scrollback|
        invariant Now() == before.(fwd := before.fwd.(commands := before.fwd.commands[1..]),
                                   net := before.net.(conns := conns))
        invariant id in conns
        invariant !start.open ==> conns == before.net.conns && (replayed <==> at == 0)
        invariant start.open ==> replayed && conns == before.net.conns[id := conns[id]]
        invariant start.open ==>
          conns[id] == start.(sent := conns[id].sent)
          && conns[id].sent + Chunks(scrollback[at..]) == start.sent + Chunks(scrollback)
        decreases |scrollback| - at
      {
        var end := Min(at + REPLAY_CHUNK, |scrollback|);
        SendNextPiece(conns[id].sent, scrollback, at, end);
        replayed := Send(id, Data(scrollback[at..end]));
        at := end;
      }
      ghost var items := Chunks(scrollback);
      assert scrollback[|scrollback|..] == [];
      assert start.open ==> conns[id].sent == start.sent + items;
      SendMarker(start.sent, items);
      var marked := Send(id, ReplayEnd);
      if !replayed { return; }
      task := Installing(id);
      if marked {
        past := past.(windows := past.windows[id :=
          Window(|past.produced| - Min(|past.produced|, |scrollback|), |past.produced|, |past.produced|,
                 |start.sent| + |items|)]);
      }
    }

    /** Take over: the table first, so that a late detach of the old connection is stale. */
    method Install() returns (installed: bool)
      requires task.Installing? && task.id in conns
      modifies this
      ensures installed == old(entry.Some?)
      ensures Now() == Next(old(Now()), TaskInstall)
    {
      var id := task.id;
      installed := entry.Some?;
      if installed {
        AbortTimer();
        entry := Some(Entry(Some(id), None));
        if active.Some? && active.value in conns {
          conns := conns[active.value := conns[active.value].(closing := Some(Replaced))];
        }
        active := Some(id);
      } else {
        conns := conns[id := conns[id].(open := false)];
      }
      task := Idle;
    }

    /** The scrollback keeps the last bytes of the stream. */
    method Remember(chunk: seq<Byte>)
      modifies this`scrollback, this`past
      ensures scrollback == Last(old(scrollback) + chunk, SCROLLBACK_BYTES)
      ensures past == old(past).(produced := old(past).produced + chunk)
    {
      past := past.(produced := past.produced + chunk);
      scrollback := scrollback + chunk;
      if |scrollback| > SCROLLBACK_BYTES {
        var excess := |scrollback| - SCROLLBACK_BYTES;
        scrollback := scrollback[excess..];
      }
    }

    /** One chunk from the PTY: remember it, trim, hand it to the live subscriber. */
    method Output(chunk: seq<Byte>)
      requires task.Idle? && (active.Some? ==> active.value in conns)
      modifies this
      ensures Now() == Next(old(Now()), TaskOutput(chunk))
    {
      Remember(chunk);
      if active.Some? {
        var id := active.value;
        var c := conns[id];
        active := None;
        if c.open && c.Queued() < OUTPUT_CHUNKS {
          conns := conns[id := Append(c, [Data(chunk)])];
          active := Some(id);
          if id in past.windows {
            past := past.(windows := past.windows[id := past.windows[id].(upto := |past.produced|)]);
          }
        } else if c.open {
          conns := conns[id := c.(closing := Some(SlowConsumer))];
        }
      }
    }
  }

  lemma {:induction false} SendNextPiece(sent: seq<Item>, s: seq<Byte>, at: nat, end: nat)
    requires at < |s| && end == Min(at + REPLAY_CHUNK, |s|)
    ensures sent + [Data(s[at..end])] + Chunks(s[end..]) == sent + Chunks(s[at..])
  {
    assert s[at..][..end - at] == s[at..end] && s[at..][end - at..] == s[end..];
    assert s[at..end] == s[at..] || end < |s|;
    assert Chunks(s[at..]) == [Data(s[at..end])] + Chunks(s[end..]);
  }

  lemma {:induction false} SendMarker(sent: seq<Item>, items: seq<Item>)
    ensures sent + items + [ReplayEnd] == sent + (items + [ReplayEnd])
  {
  }
}
