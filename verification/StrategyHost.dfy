/** The strategy host: a pause gate before each snapshot, and a loop publishing what the engine planned. */
module StrategyHosts {
  import opened Common
  import opened Trading
  import opened Node

  class StrategyHost {
    var paused: bool
    var hosts: seq<Host>

    constructor (subscriptions: nat)
      ensures !paused && hosts == seq(subscriptions, i => Waiting)
    {
      paused, hosts := false, seq(subscriptions, i => Waiting);
    }

    /** The control task takes a pause message; `s` is the node around this host. */
    method OnPauseMessage(ghost s: Sys)
      requires s.paused == paused && s.pauses > 0
      modifies this`paused
      ensures paused
      ensures HostStep(s, TakePause) == s.(pauses := s.pauses - 1, paused := paused)
    {
      paused := true;
    }

    /** The control task takes a resume message. */
    method OnResumeMessage(ghost s: Sys)
      requires s.paused == paused && s.resumes > 0
      modifies this`paused
      ensures !paused
      ensures HostStep(s, TakeResume) == s.(resumes := s.resumes - 1, paused := paused)
    {
      paused := false;
    }

    /** The gate: a paused host drops the snapshot. */
    method OnSnapshot(h: nat, planned: seq<Command>, ghost s: Sys)
      requires h < |hosts| && hosts[h].Waiting?
      requires s.hosts == hosts && s.paused == paused
      modifies this`hosts
      ensures HostStep(s, Snapshot(h, planned)) == s.(hosts := hosts)
      ensures hosts == if paused then old(hosts) else old(hosts)[h := Emitting(planned)]
    {
      if paused {
        return;
      }
      hosts := hosts[h := Emitting(planned)];
    }

    /** One turn of the publishing loop; nothing is taken while the command queue is full. */
    method PublishNext(h: nat, room: bool, ghost s: Sys) returns (sent: seq<Command>)
      requires h < |hosts| && hosts[h].Emitting? && hosts[h].orders != []
      requires s.hosts == hosts && s.paused == paused && (room <==> |s.commands| < CAPACITY)
      modifies this`hosts
      ensures HostStep(s, Emit(h)) == s.(hosts := hosts, commands := s.commands + sent)
      ensures sent == EmittedBy(s, Emit(h)) && |hosts| == |old(hosts)|
      ensures hosts[h] == Emitting(old(hosts)[h].orders[|sent|..])
    {
      sent := [];
      if room {
        sent := [hosts[h].orders[0]];
        hosts := hosts[h := Emitting(hosts[h].orders[1..])];
      }
    }

    /** The turn after the last order: one log event, unless the log queue is full. */
    method LogDecision(h: nat, room: bool, ghost s: Sys) returns (logged: bool)
      requires h < |hosts| && hosts[h] == Emitting([])
      requires s.hosts == hosts && s.paused == paused && (room <==> |s.logs| < CAPACITY)
      modifies this`hosts
      ensures HostStep(s, Emit(h)) == s.(hosts := hosts, logs := s.logs + if logged then [Other] else [])
      ensures logged == room && hosts == old(hosts)[h := if logged then Waiting else Emitting([])]
    {
      logged := room;
      if room {
        hosts := hosts[h := Waiting];
      }
    }

    /** The publishing loop without interruption: it goes on to the last order or to a full queue. */
    method PublishWhileRoom(h: nat, room: nat, ghost s: Sys) returns (sent: seq<Command>)
      requires h < |hosts| && hosts[h].Emitting?
      requires s.hosts == hosts && s.paused == paused && |s.commands| + room == CAPACITY
      modifies this`hosts
      ensures var orders := old(hosts)[h].orders;
              && sent == (if |orders| <= room then orders else orders[..room])
              && hosts == old(hosts)[h := Emitting(orders[|sent|..])]
      ensures Turns(s, h, |sent|) == s.(hosts := hosts, commands := s.commands + sent)
    {
      sent := [];
      ghost var orders := hosts[h].orders;
      while hosts[h].orders != [] && |sent| < room
        invariant |sent| <= |orders| && |sent| <= room && sent == orders[..|sent|]
        invariant hosts == old(hosts)[h := Emitting(orders[|sent|..])]
        decreases |orders| - |sent|
      {
        TurnsSend(s, h, orders, |sent|);
        var more := PublishNext(h, true, Turns(s, h, |sent|));
        sent := sent + more;
      }
      TurnsSend(s, h, orders, |sent|);
    }

    /** A snapshot handled without interruption: nothing if paused; otherwise the planned orders in order, as far as
        the command queue has room for them, and the closing log event if they all went out and it has room too. */
    method HandleSnapshot(h: nat, planned: seq<Command>, room: nat, logRoom: bool, ghost s: Sys)
      returns (sent: seq<Command>, logged: bool)
      requires h < |hosts| && hosts[h].Waiting?
      requires s.hosts == hosts && s.paused == paused
      requires |s.commands| + room == CAPACITY && (logRoom <==> |s.logs| < CAPACITY)
      modifies this`hosts
      ensures sent == if paused then [] else if |planned| <= room then planned else planned[..room]
      ensures logged <==> !paused && |planned| <= room && logRoom
      ensures hosts == old(hosts)[h := if paused || logged then Waiting else Emitting(planned[|sent|..])]
      ensures Node.Run(s, Handling(h, planned))
              == s.(hosts := hosts, commands := s.commands + sent, logs := s.logs + if logged then [Other] else [])
    {
      sent, logged := [], false;
      OnSnapshot(h, planned, s);
      ghost var taken := s.(hosts := hosts);
      if paused {
        HandlingIdles(s, h, planned, 0, s);
        return;
      }
      sent := PublishWhileRoom(h, room, taken);
      ghost var now := s.(hosts := hosts, commands := s.commands + sent);
      if hosts[h].orders == [] {
        logged := LogDecision(h, logRoom, now);
        HandlingEnds(s, h, planned, now);
      } else {
        HandlingIdles(s, h, planned, |sent|, now);
      }
    }
  }

  /** The first `n` turns of one subscription, with nothing in between. */
  function Turns(s: Sys, h: nat, n: nat): Sys {
    if n == 0 then s else HostStep(Turns(s, h, n - 1), Emit(h))
  }

  lemma {:induction false} TurnsSend(s: Sys, h: nat, orders: seq<Command>, n: nat)
    requires h < |s.hosts| && s.hosts[h] == Emitting(orders)
    requires n <= |orders| && |s.commands| + n <= CAPACITY
    ensures Turns(s, h, n)
            == s.(hosts := s.hosts[h := Emitting(orders[n..])], commands := s.commands + orders[..n])
  {
    if n > 0 {
      TurnsSend(s, h, orders, n - 1);
      assert orders[n - 1..][1..] == orders[n..];
      assert s.commands + orders[..n - 1] + [orders[n - 1]] == s.commands + orders[..n];
    } else {
      assert s.hosts[h := Emitting(orders[0..])] == s.hosts;
    }
  }

  lemma {:induction false} TurnsAreRun(s: Sys, h: nat, n: nat)
    ensures Node.Run(s, Repeat(Emit(h), n)) == Turns(s, h, n)
  {
    if n > 0 {
      TurnsAreRun(s, h, n - 1);
      RepeatOnce(s, Emit(h), n - 1);
    }
  }

  /** The steps a snapshot takes when nothing comes in between. */
  function Handling(h: nat, planned: seq<Command>): seq<Event> {
    [Snapshot(h, planned)] + Repeat(Emit(h), |planned| + 1)
  }

  /** A host that can take no further turn after the first `n` stays as it is. */
  lemma HandlingIdles(s: Sys, h: nat, planned: seq<Command>, n: nat, now: Sys)
    requires n <= |planned| + 1
    requires now == Turns(HostStep(s, Snapshot(h, planned)), h, n) && HostStep(now, Emit(h)) == now
    ensures Node.Run(s, Handling(h, planned)) == now
  {
    var t := Apply(s, Snapshot(h, planned));
    TurnsAreRun(t, h, n);
    assert Handling(h, planned)[1..] == Repeat(Emit(h), |planned| + 1);
    assert Repeat(Emit(h), |planned| + 1) == Repeat(Emit(h), n) + Repeat(Emit(h), |planned| + 1 - n);
    Node.RunAppend(t, Repeat(Emit(h), n), Repeat(Emit(h), |planned| + 1 - n));
    IdleRun(now, Emit(h), |planned| + 1 - n);
  }

  /** After the last order one more turn ends the handling. */
  lemma HandlingEnds(s: Sys, h: nat, planned: seq<Command>, now: Sys)
    requires now == Turns(HostStep(s, Snapshot(h, planned)), h, |planned|)
    ensures Node.Run(s, Handling(h, planned)) == HostStep(now, Emit(h))
  {
    assert Handling(h, planned)[1..] == Repeat(Emit(h), |planned| + 1);
    TurnsAreRun(Apply(s, Snapshot(h, planned)), h, |planned| + 1);
  }
}
