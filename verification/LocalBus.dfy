/** The bus as an object: the subscriber lists and channels updated in place, one atomic section a method. */
module LocalBuses {
  import opened Common
  import opened Bus

  function Sends(publisher: nat, count: nat): seq<Event> {
    seq(count, i => Send(publisher))
  }

  /** A send to this channel returns at once: the receiver is gone or its queue is not full. */
  predicate HasRoom(b: State, c: nat) {
    c < |b.channels| && b.channels[c].live ==> |b.channels[c].log| < b.channels[c].read + 1024
  }

  predicate NoneFull(b: State, subject: string) {
    forall c :: c in b.Registered(subject) ==> HasRoom(b, c)
  }

  /** After `i` turns of the send loop: every channel served had room, and the one it waits at had none. */
  ghost predicate InLoop(before: State, b: State, p: nat, list: seq<nat>, i: nat) {
    && ListOk(list, |before.channels|) && |b.channels| == |before.channels|
    && |b.publishers| == |before.publishers| && p < |b.publishers|
    && var w := b.publishers[p];
       && w.Sending? && w.registered == list && w.sent <= i && w.sent <= |list|
       && (forall j :: 0 <= j < w.sent ==> HasRoom(before, list[j]))
       && (forall j :: w.sent <= j < |list| ==> b.channels[list[j]] == before.channels[list[j]])
       && (w.sent < i ==> w.sent < |list| && !HasRoom(before, list[w.sent]))
  }

  lemma SendInLoop(before: State, b: State, p: nat, list: seq<nat>, i: nat)
    requires SizesAgree(b) && i < |list| && InLoop(before, b, p, list, i)
    ensures var t := Apply(b, Send(p));
            InLoop(before, t, p, list, i + 1) && t.publishers[p].msg == b.publishers[p].msg && t.done == b.done
  {
    var w := b.publishers[p];
    var c := list[w.sent];
    assert HasRoom(b, c) <==> HasRoom(before, c);
  }

  /** The three stages of one publication make one run. */
  lemma PublishRuns(before: State, begun: State, sent: State, p: nat, subject: string, payload: string)
    requires SizesAgree(before)
    requires begun == Apply(before, Begin(p, subject, payload))
    requires sent == Run(begun, Sends(p, |before.Registered(subject)|))
    ensures Apply(sent, Finish(p))
            == Run(before, [Begin(p, subject, payload)] + Sends(p, |before.Registered(subject)|) + [Finish(p)])
  {
    var sends := Sends(p, |before.Registered(subject)|);
    assert Run(before, [Begin(p, subject, payload)]) == begun;
    RunAppend(before, [Begin(p, subject, payload)], sends);
    RunAppend(before, [Begin(p, subject, payload)] + sends, [Finish(p)]);
    assert Run(sent, [Finish(p)]) == Apply(sent, Finish(p));
  }

  class LocalBus {
    var subscribers: map<string, seq<nat>>
    var channels: seq<Channel>
    // The publish calls under way, and how many each publisher has made: what those calls keep on their stacks.
    var publishers: seq<Publisher>
    var serials: seq<nat>
    ghost var done: seq<Delivery>

    ghost function View(): State
      reads this
    {
      State(subscribers, channels, publishers, serials, done)
    }

    ghost predicate Valid()
      reads this
    {
      Inv(View())
    }

    constructor (publishers: nat)
      ensures Valid() && View() == Empty(publishers)
    {
      subscribers, channels := map[], [];
      this.publishers := seq(publishers, i => Resting);
      serials := seq(publishers, i => 0);
      done := [];
    }

    /** Under the write lock: returns the new channel's id, or -1 while a publisher holds the read lock. */
    method Subscribe(subject: string) returns (id: int)
      requires Valid()
      modifies this
      ensures Valid() && View() == Apply(old(View()), Event.Subscribe(subject))
      ensures id == if old(View()).Unlocked() then old(|channels|) else -1
    {
      SubscribeKeepsInv(View(), subject);
      for p := 0 to |publishers|
        invariant forall q :: 0 <= q < p ==> publishers[q].Resting?
        invariant View() == old(View())
      {
        if !publishers[p].Resting? {
          return -1;
        }
      }
      id := |channels|;
      var entry := if subject in subscribers then subscribers[subject] else [];
      subscribers := subscribers[subject := entry + [id]];
      channels := channels + [Channel([], 0, true)];
    }

    /** Takes the read lock and finds the subscriber list. */
    method BeginPublish(p: nat, subject: string, payload: string)
      requires Valid() && p < |publishers| && publishers[p].Resting?
      modifies this
      ensures Valid() && View() == Apply(old(View()), Begin(p, subject, payload))
    {
      BeginKeepsInv(View(), p, subject, payload);
      var found := if subject in subscribers then subscribers[subject] else [];
      publishers := publishers[p := Sending(Message(p, serials[p], payload), subject, found, 0)];
      serials := serials[p := serials[p] + 1];
    }

    /** One send of the loop; a full channel leaves the sender where it is, a dropped receiver is skipped. */
    method SendNext(p: nat)
      requires Valid() && p < |publishers|
      modifies this
      ensures Valid() && View() == Apply(old(View()), Send(p))
    {
      SendKeepsInv(View(), p);
      var w := publishers[p];
      if !w.Sending? || w.sent >= |w.registered| {
        return;
      }
      var c := w.registered[w.sent];
      if c < |channels| && channels[c].live {
        if |channels[c].log| >= channels[c].read + CAPACITY {
          return;
        }
        channels := channels[c := channels[c].(log := channels[c].log + [w.msg])];
      }
      publishers := publishers[p := w.(sent := w.sent + 1)];
    }

    /** Releases the read lock once every subscriber has been served. */
    method EndPublish(p: nat)
      requires Valid() && p < |publishers|
      modifies this
      ensures Valid() && View() == Apply(old(View()), Finish(p))
    {
      FinishKeepsInv(View(), p);
      var w := publishers[p];
      if w.Sending? && w.sent >= |w.registered| {
        publishers := publishers[p := Resting];
        done := done + [Delivery(w.msg, w.registered)];
      }
    }

    /** The send loop, uninterrupted. */
    method SendAll(p: nat)
      requires Valid() && p < |publishers| && publishers[p].Sending? && publishers[p].sent == 0
      modifies this
      ensures Valid()
      ensures View() == Run(old(View()), Sends(p, |old(publishers)[p].registered|))
      ensures InLoop(old(View()), View(), p, old(publishers)[p].registered, |old(publishers)[p].registered|)
      ensures done == old(done) && publishers[p].msg == old(publishers)[p].msg
    {
      ghost var before := View();
      var list := publishers[p].registered;
      assert PublisherOk(before, p);
      for i := 0 to |list|
        invariant Valid() && View() == Run(before, Sends(p, i))
        invariant InLoop(before, View(), p, list, i)
        invariant done == before.done && publishers[p].msg == before.publishers[p].msg
      {
        RunAppend(before, Sends(p, i), [Send(p)]);
        assert Sends(p, i) + [Send(p)] == Sends(p, i + 1);
        SendInLoop(before, View(), p, list, i);
        SendNext(p);
      }
    }

    /** A publication nobody interrupts. It completes unless a live channel on the list is full. */
    method Publish(p: nat, subject: string, payload: string) returns (completed: bool)
      requires Valid() && p < |publishers| && publishers[p].Resting?
      modifies this
      ensures Valid() && |publishers| == |old(publishers)|
      ensures View() == Run(old(View()), [Begin(p, subject, payload)]
                                         + Sends(p, |old(View()).Registered(subject)|) + [Finish(p)])
      ensures completed <==> NoneFull(old(View()), subject)
      ensures completed ==> done == old(done) + [Delivery(Message(p, old(serials)[p], payload),
                                                          old(View()).Registered(subject))]
    {
      ghost var before := View();
      ghost var list := before.Registered(subject);
      BeginPublish(p, subject, payload);
      ghost var begun := View();
      SendAll(p);
      ghost var sent := View();
      EndPublish(p);
      completed := publishers[p].Resting?;
      PublishRuns(before, begun, sent, p, subject, payload);
      assert begun.channels == before.channels;
      ghost var served := sent.publishers[p].sent;
      if served < |list| {
        assert list[served] in before.Registered(subject) && !HasRoom(before, list[served]);
      } else {
        assert forall j :: 0 <= j < |list| ==> HasRoom(begun, list[j]) && HasRoom(before, list[j]);
      }
    }

    method Receive(c: nat) returns (msg: seq<Message>)
      requires Valid() && c < |channels|
      modifies this
      ensures Valid() && View() == Apply(old(View()), Event.Receive(c))
      ensures var was := old(channels)[c];
              && msg == (if was.live && was.Queue() != [] then was.Queue()[..1] else [])
              && c < |channels| && channels[c].read <= |channels[c].log|
              && channels[c].Queue() == was.Queue()[|msg|..] && channels[c].log == was.log
    {
      ReaderKeepsInv(View(), Event.Receive(c));
      var was := channels[c];
      msg := [];
      if was.live && was.read < |was.log| {
        msg := [was.log[was.read]];
        channels := channels[c := was.(read := was.read + 1)];
      }
    }

    method DropReceiver(c: nat)
      requires Valid() && c < |channels|
      modifies this
      ensures Valid() && View() == Apply(old(View()), Drop(c))
      ensures channels == old(channels)[c := old(channels)[c].(live := false)] && subscribers == old(subscribers)
    {
      ReaderKeepsInv(View(), Drop(c));
      channels := channels[c := channels[c].(live := false)];
    }
  }
}
