/** The in-process bus: publishers that hold the read lock while they send, one bounded channel per subscriber. */
module Bus {
  import opened Common

  /** A payload, marked with who published it and as which of their publications. */
  datatype Message = Message(publisher: nat, serial: nat, payload: string)

  /** Everything ever sent to a subscriber; the first `read` entries were received, the rest is its queue. */
  datatype Channel = Channel(log: seq<Message>, read: nat, live: bool) {
    function Queue(): seq<Message>
      requires read <= |log|
    {
      log[read..]
    }
  }

  /** A publisher at rest, or in its send loop: `registered` is the list found under the read lock. */
  datatype Publisher = Resting | Sending(msg: Message, subject: string, registered: seq<nat>, sent: nat)

  /** A completed publication. */
  datatype Delivery = Delivery(msg: Message, registered: seq<nat>)

  datatype State = State(subscribers: map<string, seq<nat>>, channels: seq<Channel>,
                         publishers: seq<Publisher>, serials: seq<nat>, done: seq<Delivery>)
  {
    function Registered(subject: string): seq<nat> {
      if subject in subscribers then subscribers[subject] else []
    }

    /** The write lock is free to take: no publisher holds the read lock. */
    predicate Unlocked() { forall p :: 0 <= p < |publishers| ==> publishers[p].Resting? }
  }

  function Empty(publishers: nat): State {
    State(map[], [], seq(publishers, i => Resting), seq(publishers, i => 0), [])
  }

  datatype Event =
    | Begin(publisher: nat, subject: string, payload: string)
    | Send(publisher: nat)
    | Finish(publisher: nat)
    | Subscribe(subject: string)
    | Receive(channel: nat)
    | Drop(channel: nat)

  predicate SizesAgree(b: State) { |b.serials| == |b.publishers| }

  /** One atomic step; a step that is not possible, or must wait, changes nothing. */
  function Apply(b: State, e: Event): State
    requires SizesAgree(b)
    ensures SizesAgree(Apply(b, e))
  {
    match e
    case Begin(p, subject, payload) =>
      if p >= |b.publishers| || !b.publishers[p].Resting? then b
      else
        var msg := Message(p, b.serials[p], payload);
        b.(publishers := b.publishers[p := Sending(msg, subject, b.Registered(subject), 0)],
           serials := b.serials[p := b.serials[p] + 1])
    case Send(p) =>
      if p >= |b.publishers| || !b.publishers[p].Sending? || b.publishers[p].sent >= |b.publishers[p].registered| then b
      else
        var w := b.publishers[p];
        var c := w.registered[w.sent];
        var next := b.publishers[p := w.(sent := w.sent + 1)];
        if c >= |b.channels| || !b.channels[c].live then b.(publishers := next)
        else if |b.channels[c].log| >= b.channels[c].read + CAPACITY then b
        else b.(publishers := next,
                channels := b.channels[c := b.channels[c].(log := b.channels[c].log + [w.msg])])
    case Finish(p) =>
      if p >= |b.publishers| || !b.publishers[p].Sending? || b.publishers[p].sent < |b.publishers[p].registered| then b
      else
        var w := b.publishers[p];
        b.(publishers := b.publishers[p := Resting], done := b.done + [Delivery(w.msg, w.registered)])
    case Subscribe(subject) =>
      if !b.Unlocked() then b
      else b.(channels := b.channels + [Channel([], 0, true)],
              subscribers := b.subscribers[subject := b.Registered(subject) + [|b.channels|]])
    case Receive(c) =>
      if c >= |b.channels| || !b.channels[c].live || b.channels[c].read >= |b.channels[c].log| then b
      else b.(channels := b.channels[c := b.channels[c].(read := b.channels[c].read + 1)])
    case Drop(c) =>
      if c >= |b.channels| then b
      else b.(channels := b.channels[c := b.channels[c].(live := false)])
  }

  function Run(b: State, es: seq<Event>): State
    requires SizesAgree(b)
    ensures SizesAgree(Run(b, es))
    decreases |es|
  {
    if es == [] then b else Run(Apply(b, es[0]), es[1..])
  }

  // ---- The invariant --------------------------------------------------------

  ghost predicate Bounded(c: Channel) { c.read <= |c.log| <= c.read + CAPACITY }

  /** Each publisher's messages stand in publication order, so none stands twice. */
  ghost predicate InOrder(log: seq<Message>) {
    forall i, j :: 0 <= i < j < |log| && log[i].publisher == log[j].publisher ==> log[i].serial < log[j].serial
  }

  ghost predicate ListOk(ids: seq<nat>, channels: nat) {
    && (forall i :: 0 <= i < |ids| ==> ids[i] < channels)
    && (forall i, j :: 0 <= i < j < |ids| ==> ids[i] != ids[j])
  }

  /** Where a publication stands in one channel: already there only if its turn has come, and there for sure
      if it has and the receiver is still alive. */
  ghost predicate ChannelMatches(b: State, w: Publisher, c: nat)
    requires w.Sending? && w.sent <= |w.registered| && c < |b.channels|
  {
    var log := b.channels[c].log;
    && (c in w.registered[..w.sent] && b.channels[c].live ==> w.msg in log)
    && (w.msg in log ==> c in w.registered[..w.sent])
    && (forall m :: m in log && m.publisher == w.msg.publisher ==> m == w.msg || m.serial < w.msg.serial)
  }

  ghost predicate PublisherOk(b: State, p: nat)
    requires SizesAgree(b) && p < |b.publishers|
  {
    var w := b.publishers[p];
    w.Sending? ==>
      && w.msg.publisher == p && w.msg.serial + 1 == b.serials[p]
      && w.registered == b.Registered(w.subject) && w.sent <= |w.registered|
      && forall c :: 0 <= c < |b.channels| ==> ChannelMatches(b, w, c)
  }

  /** What a completed publication has put where. */
  ghost predicate DeliveryOk(b: State, d: Delivery)
    requires SizesAgree(b)
  {
    && d.msg.publisher < |b.serials| && d.msg.serial < b.serials[d.msg.publisher]
    && (b.publishers[d.msg.publisher].Sending? ==> d.msg.serial < b.publishers[d.msg.publisher].msg.serial)
    && (forall c :: c in d.registered ==> c < |b.channels|)
    && forall c :: 0 <= c < |b.channels| ==> DeliveredRight(b.channels[c], d, c)
  }

  ghost predicate DeliveredRight(channel: Channel, d: Delivery, c: nat) {
    && (c in d.registered && channel.live ==> d.msg in channel.log)
    && (d.msg in channel.log ==> c in d.registered)
  }

  ghost predicate Inv(b: State) {
    && SizesAgree(b)
    && (forall c :: 0 <= c < |b.channels| ==> Bounded(b.channels[c]) && InOrder(b.channels[c].log))
    && (forall c, m :: 0 <= c < |b.channels| && m in b.channels[c].log ==>
          m.publisher < |b.serials| && m.serial < b.serials[m.publisher])
    && (forall s :: s in b.subscribers ==> ListOk(b.subscribers[s], |b.channels|))
    && (forall p :: 0 <= p < |b.publishers| ==> PublisherOk(b, p))
    && (forall d :: d in b.done ==> DeliveryOk(b, d))
  }

  /** What one send finds: the next channel of the list, which does not hold the message yet. */
  lemma SendReaches(b: State, p: nat)
    requires Inv(b) && p < |b.publishers|
    requires b.publishers[p].Sending? && b.publishers[p].sent < |b.publishers[p].registered|
    ensures var w := b.publishers[p];
            var c := w.registered[w.sent];
            && c < |b.channels| && c !in w.registered[..w.sent]
            && w.registered[..w.sent + 1] == w.registered[..w.sent] + [c]
            && ChannelMatches(b, w, c) && w.msg !in b.channels[c].log
            && w.msg.publisher == p && w.msg.serial + 1 == b.serials[p]
  {
    var w := b.publishers[p];
    assert PublisherOk(b, p);
    assert ListOk(b.Registered(w.subject), |b.channels|);
  }

  lemma SendKeepsPublishers(b: State, p: nat, q: nat)
    requires Inv(b) && Apply(b, Send(p)) != b && q < |b.publishers|
    ensures PublisherOk(Apply(b, Send(p)), q)
  {
    var t := Apply(b, Send(p));
    SendReaches(b, p);
    assert PublisherOk(b, q) && PublisherOk(b, p);
    if t.publishers[q].Sending? {
      forall k | 0 <= k < |t.channels| ensures ChannelMatches(t, t.publishers[q], k) {
        assert ChannelMatches(b, b.publishers[q], k);
      }
    }
  }

  lemma SendKeepsInv(b: State, p: nat)
    requires Inv(b)
    ensures Inv(Apply(b, Send(p)))
  {
    var t := Apply(b, Send(p));
    if t != b {
      SendReaches(b, p);
      var w := b.publishers[p];
      forall q | 0 <= q < |t.publishers| ensures PublisherOk(t, q) {
        SendKeepsPublishers(b, p, q);
      }
      forall d | d in t.done ensures DeliveryOk(t, d) {
        assert DeliveryOk(b, d);
        assert d.msg != w.msg;
        forall k | 0 <= k < |t.channels| ensures DeliveredRight(t.channels[k], d, k) {
          assert DeliveredRight(b.channels[k], d, k);
        }
      }
    }
  }

  lemma BeginKeepsInv(b: State, p: nat, subject: string, payload: string)
    requires Inv(b)
    ensures Inv(Apply(b, Begin(p, subject, payload)))
  {
    var t := Apply(b, Begin(p, subject, payload));
    if t != b {
      forall q | 0 <= q < |t.publishers| ensures PublisherOk(t, q) {
        assert PublisherOk(b, q);
        if t.publishers[q].Sending? {
          forall k | 0 <= k < |t.channels| ensures ChannelMatches(t, t.publishers[q], k) {
            if q != p { assert ChannelMatches(b, b.publishers[q], k); }
          }
        }
      }
      forall d | d in t.done ensures DeliveryOk(t, d) {
        assert DeliveryOk(b, d);
      }
    }
  }

  lemma FinishKeepsInv(b: State, p: nat)
    requires Inv(b)
    ensures Inv(Apply(b, Finish(p)))
  {
    var t := Apply(b, Finish(p));
    if t != b {
      var w := b.publishers[p];
      assert PublisherOk(b, p);
      assert w.registered[..w.sent] == w.registered;
      assert ListOk(b.Registered(w.subject), |b.channels|);
      forall q | 0 <= q < |t.publishers| ensures PublisherOk(t, q) {
        assert PublisherOk(b, q);
        if t.publishers[q].Sending? {
          forall k | 0 <= k < |t.channels| ensures ChannelMatches(t, t.publishers[q], k) {
            assert ChannelMatches(b, b.publishers[q], k);
          }
        }
      }
      forall d | d in t.done ensures DeliveryOk(t, d) {
        if d in b.done {
          assert DeliveryOk(b, d);
        } else {
          forall k | 0 <= k < |t.channels| ensures DeliveredRight(t.channels[k], d, k) {
            assert ChannelMatches(b, w, k);
          }
        }
      }
    }
  }

  lemma SubscribeKeepsInv(b: State, subject: string)
    requires Inv(b)
    ensures Inv(Apply(b, Subscribe(subject)))
  {
    var t := Apply(b, Subscribe(subject));
    if t != b {
      assert ListOk(b.Registered(subject), |b.channels|);
      forall d | d in t.done ensures DeliveryOk(t, d) {
        assert DeliveryOk(b, d);
        forall k | 0 <= k < |t.channels| ensures DeliveredRight(t.channels[k], d, k) {
          if k < |b.channels| { assert DeliveredRight(b.channels[k], d, k); }
        }
      }
    }
  }

  lemma ReaderKeepsInv(b: State, e: Event)
    requires Inv(b) && (e.Receive? || e.Drop?)
    ensures Inv(Apply(b, e))
  {
    var t := Apply(b, e);
    if t != b {
      forall q | 0 <= q < |t.publishers| ensures PublisherOk(t, q) {
        assert PublisherOk(b, q);
        if t.publishers[q].Sending? {
          forall k | 0 <= k < |t.channels| ensures ChannelMatches(t, t.publishers[q], k) {
            assert ChannelMatches(b, b.publishers[q], k);
          }
        }
      }
      forall d | d in t.done ensures DeliveryOk(t, d) {
        assert DeliveryOk(b, d);
        forall k | 0 <= k < |t.channels| ensures DeliveredRight(t.channels[k], d, k) {
          assert DeliveredRight(b.channels[k], d, k);
        }
      }
    }
  }

  lemma {:induction false} RunKeepsInv(b: State, es: seq<Event>)
    requires Inv(b)
    ensures Inv(Run(b, es))
    decreases |es|
  {
    if es != [] {
      match es[0] {
        case Begin(p, subject, payload) => BeginKeepsInv(b, p, subject, payload);
        case Send(p) => SendKeepsInv(b, p);
        case Finish(p) => FinishKeepsInv(b, p);
        case Subscribe(subject) => SubscribeKeepsInv(b, subject);
        case Receive(_) => ReaderKeepsInv(b, es[0]);
        case Drop(_) => ReaderKeepsInv(b, es[0]);
      }
      RunKeepsInv(Apply(b, es[0]), es[1..]);
    }
  }

  // ---- What every run guarantees --------------------------------------------

  function Copies(log: seq<Message>, m: Message): nat {
    if log == [] then 0 else (if log[0] == m then 1 else 0) + Copies(log[1..], m)
  }

  lemma {:induction false} CopiesOfOrdered(log: seq<Message>, m: Message)
    requires InOrder(log)
    ensures Copies(log, m) == if m in log then 1 else 0
  {
    if log != [] {
      CopiesOfOrdered(log[1..], m);
    }
  }

  /** A completed publication has put exactly one copy into every channel registered when it took the read lock
      and still alive, at most one into those that died, and none anywhere else. */
  lemma ExactlyOnce(publishers: nat, es: seq<Event>, d: Delivery, c: nat)
    requires var b := Run(Empty(publishers), es); d in b.done && c < |b.channels|
    ensures var channel := Run(Empty(publishers), es).channels[c];
            && (c in d.registered && channel.live ==> Copies(channel.log, d.msg) == 1)
            && (c in d.registered ==> Copies(channel.log, d.msg) <= 1)
            && (c !in d.registered ==> Copies(channel.log, d.msg) == 0)
  {
    RunKeepsInv(Empty(publishers), es);
    var b := Run(Empty(publishers), es);
    CopiesOfOrdered(b.channels[c].log, d.msg);
    assert DeliveryOk(b, d);
    assert DeliveredRight(b.channels[c], d, c);
  }

  /** No queue ever holds more than its capacity, and each publisher's messages arrive in publication order. */
  lemma BoundedAndInOrder(publishers: nat, es: seq<Event>, c: nat)
    requires c < |Run(Empty(publishers), es).channels|
    ensures var channel := Run(Empty(publishers), es).channels[c];
            channel.read <= |channel.log| && |channel.Queue()| <= 1024 && InOrder(channel.log)
  {
    RunKeepsInv(Empty(publishers), es);
  }

  /** While a publication is under way nobody can join or leave its list. */
  lemma ListFixedWhileSending(publishers: nat, es: seq<Event>, p: nat)
    requires p < publishers
    ensures var b := Run(Empty(publishers), es);
            && |b.publishers| == publishers
            && (b.publishers[p].Sending? ==> b.publishers[p].registered == b.Registered(b.publishers[p].subject))
  {
    RunKeepsInv(Empty(publishers), es);
    RunKeepsPublishers(Empty(publishers), es);
    assert PublisherOk(Run(Empty(publishers), es), p);
  }

  lemma {:induction false} RunKeepsPublishers(b: State, es: seq<Event>)
    requires SizesAgree(b)
    ensures |Run(b, es).publishers| == |b.publishers|
    decreases |es|
  {
    if es != [] { RunKeepsPublishers(Apply(b, es[0]), es[1..]); }
  }

  // ---- Order between publishers ---------------------------------------------

  lemma {:induction false} RunAppend(b: State, es: seq<Event>, fs: seq<Event>)
    requires SizesAgree(b)
    ensures Run(b, es + fs) == Run(Run(b, es), fs)
    decreases |es|
  {
    if es == [] {
      assert es + fs == fs;
    } else {
      assert (es + fs)[1..] == es[1..] + fs;
      RunAppend(Apply(b, es[0]), es[1..], fs);
    }
  }

  /** What any run leaves of the logs: they only grow, those of dropped receivers not at all. */
  ghost predicate Extends(b: State, t: State) {
    && |b.channels| <= |t.channels|
    && (forall d :: d in b.done ==> d in t.done)
    && forall c :: 0 <= c < |b.channels| ==>
         && b.channels[c].log <= t.channels[c].log
         && (!b.channels[c].live ==> !t.channels[c].live && t.channels[c].log == b.channels[c].log)
  }

  lemma StepExtends(b: State, e: Event)
    requires SizesAgree(b)
    ensures Extends(b, Apply(b, e))
  {
  }

  lemma {:induction false} RunExtends(b: State, es: seq<Event>)
    requires SizesAgree(b)
    ensures Extends(b, Run(b, es))
    decreases |es|
  {
    if es != [] {
      StepExtends(b, es[0]);
      RunExtends(Apply(b, es[0]), es[1..]);
    }
  }

  /** One publication is complete and the other has not begun. */
  ghost predicate Precedes(b: State, x: Message, y: Message)
    requires SizesAgree(b)
  {
    && (exists d :: d in b.done && d.msg == x)
    && y.publisher < |b.serials| && y.serial >= b.serials[y.publisher]
  }

  /** A completed publication stands in the part of a channel's log written by then, or never will. */
  lemma AlreadyThere(b: State, t: State, d: Delivery, c: nat)
    requires Inv(b) && Inv(t) && Extends(b, t) && d in b.done && c < |t.channels| && d.msg in t.channels[c].log
    ensures c < |b.channels| && d.msg in b.channels[c].log
  {
    assert DeliveryOk(b, d) && DeliveryOk(t, d);
    assert DeliveredRight(t.channels[c], d, c);
    assert c in d.registered;
    assert DeliveredRight(b.channels[c], d, c);
  }

  /** If one publication finishes before another begins, every channel holding both holds them in that order. */
  lemma FinishedFirst(b: State, es: seq<Event>, x: Message, y: Message, c: nat, i: nat, j: nat)
    requires Inv(b) && Precedes(b, x, y)
    requires var t := Run(b, es);
             && c < |t.channels| && i < |t.channels[c].log| && j < |t.channels[c].log|
             && t.channels[c].log[i] == x && t.channels[c].log[j] == y
    ensures i < j
  {
    var t := Run(b, es);
    RunKeepsInv(b, es);
    RunExtends(b, es);
    var d :| d in b.done && d.msg == x;
    AlreadyThere(b, t, d, c);
    var early, log := b.channels[c].log, t.channels[c].log;
    var k :| 0 <= k < |early| && early[k] == x;
    assert log[k] == x && InOrder(log);
    assert i == k;
    forall q | 0 <= q < |early| ensures early[q] != y {
      assert early[q] in early;
    }
    assert early <= log;
  }

  /** Two subscribers disagree about two publications only if these overlap: at no point of the run was one of them
      complete and the other not yet begun. */
  lemma DisagreementNeedsOverlap(publishers: nat, es: seq<Event>, fs: seq<Event>, x: Message, y: Message,
                                 c: nat, d: nat, i: nat, j: nat, k: nat, l: nat)
    requires var t := Run(Empty(publishers), es + fs);
             && c < |t.channels| && i < j < |t.channels[c].log|
             && d < |t.channels| && k < l < |t.channels[d].log|
             && t.channels[c].log[i] == x && t.channels[c].log[j] == y
             && t.channels[d].log[k] == y && t.channels[d].log[l] == x
    ensures var b := Run(Empty(publishers), es); !Precedes(b, x, y) && !Precedes(b, y, x)
  {
    var b := Run(Empty(publishers), es);
    RunKeepsInv(Empty(publishers), es);
    RunAppend(Empty(publishers), es, fs);
    if Precedes(b, x, y) { FinishedFirst(b, fs, x, y, d, l, k); }
    if Precedes(b, y, x) { FinishedFirst(b, fs, y, x, c, j, i); }
  }

  const FROM_0: Message := Message(0, 0, "x")
  const FROM_1: Message := Message(1, 0, "y")

  /** Two subscribers of "s", with `logs` delivered. */
  function TwoChannels(logs: (seq<Message>, seq<Message>)): seq<Channel> {
    [Channel(logs.0, 0, true), Channel(logs.1, 0, true)]
  }

  /** `n` publishers at rest, none of which has published. */
  function Ready(n: nat): State {
    Empty(n).(subscribers := map["s" := [0, 1]], channels := TwoChannels(([], [])))
  }

  /** The first two of them are publishing, and have made `sent` sends each. */
  function Race(n: nat, logs: (seq<Message>, seq<Message>), sent: (nat, nat)): State
    requires n >= 2
  {
    State(map["s" := [0, 1]], TwoChannels(logs),
          Empty(n).publishers[0 := Sending(FROM_0, "s", [0, 1], sent.0)][1 := Sending(FROM_1, "s", [0, 1], sent.1)],
          Empty(n).serials[0 := 1][1 := 1], [])
  }

  lemma RunTwo(b: State, e: Event, f: Event)
    requires SizesAgree(b)
    ensures Run(b, [e, f]) == Apply(Apply(b, e), f)
  {
    assert [e, f][1..] == [f];
    assert Run(Apply(b, e), [f]) == Apply(Apply(b, e), f);
  }

  lemma RaceReady(n: nat)
    ensures Run(Empty(n), [Subscribe("s"), Subscribe("s")]) == Ready(n)
  {
    RunTwo(Empty(n), Subscribe("s"), Subscribe("s"));
    var one := Apply(Empty(n), Subscribe("s"));
    assert one.Registered("s") == [0];
    assert one.channels == [Channel([], 0, true)];
    var two := Apply(one, Subscribe("s"));
    assert two.Registered("s") == [0, 1];
    assert two.subscribers == Ready(n).subscribers && two.channels == Ready(n).channels;
  }

  lemma RaceStarts(n: nat)
    requires n >= 2
    ensures Run(Ready(n), [Begin(0, "s", "x"), Begin(1, "s", "y")]) == Race(n, ([], []), (0, 0))
  {
    RunTwo(Ready(n), Begin(0, "s", "x"), Begin(1, "s", "y"));
    var one := Apply(Ready(n), Begin(0, "s", "x"));
    assert one.publishers[1].Resting? && one.serials[1] == 0 && one.Registered("s") == [0, 1];
  }

  /** One send of a racing publisher to the channel it is at. */
  lemma FirstSends(n: nat, logs: (seq<Message>, seq<Message>), sent: (nat, nat))
    requires n >= 2 && sent.0 < 2 && |logs.0| < CAPACITY && |logs.1| < CAPACITY
    ensures Apply(Race(n, logs, sent), Send(0))
            == Race(n, if sent.0 == 0 then (logs.0 + [FROM_0], logs.1) else (logs.0, logs.1 + [FROM_0]),
                    (sent.0 + 1, sent.1))
  {
    var b := Race(n, logs, sent);
    assert b.publishers[0 := b.publishers[0].(sent := sent.0 + 1)] == Race(n, logs, (sent.0 + 1, sent.1)).publishers;
  }

  lemma SecondSends(n: nat, logs: (seq<Message>, seq<Message>), sent: (nat, nat))
    requires n >= 2 && sent.1 < 2 && |logs.0| < CAPACITY && |logs.1| < CAPACITY
    ensures Apply(Race(n, logs, sent), Send(1))
            == Race(n, if sent.1 == 0 then (logs.0 + [FROM_1], logs.1) else (logs.0, logs.1 + [FROM_1]),
                    (sent.0, sent.1 + 1))
  {
    var b := Race(n, logs, sent);
    assert b.publishers[1 := b.publishers[1].(sent := sent.1 + 1)] == Race(n, logs, (sent.0, sent.1 + 1)).publishers;
  }

  lemma RaceHalfway(n: nat)
    requires n >= 2
    ensures Run(Race(n, ([], []), (0, 0)), [Send(0), Send(1)]) == Race(n, ([FROM_0, FROM_1], []), (1, 1))
  {
    var none: seq<Message> := [];
    assert none + [FROM_0] == [FROM_0] && [FROM_0] + [FROM_1] == [FROM_0, FROM_1];
    FirstSends(n, ([], []), (0, 0));
    assert Apply(Race(n, ([], []), (0, 0)), Send(0)) == Race(n, ([FROM_0], []), (1, 0));
    SecondSends(n, ([FROM_0], []), (1, 0));
    RunTwo(Race(n, ([], []), (0, 0)), Send(0), Send(1));
  }

  lemma RaceCrosses(n: nat)
    requires n >= 2
    ensures Run(Race(n, ([FROM_0, FROM_1], []), (1, 1)), [Send(1), Send(0)])
            == Race(n, ([FROM_0, FROM_1], [FROM_1, FROM_0]), (2, 2))
  {
    var half := Race(n, ([FROM_0, FROM_1], []), (1, 1));
    var none: seq<Message> := [];
    assert none + [FROM_1] == [FROM_1] && [FROM_1] + [FROM_0] == [FROM_1, FROM_0];
    SecondSends(n, ([FROM_0, FROM_1], []), (1, 1));
    assert Apply(half, Send(1)) == Race(n, ([FROM_0, FROM_1], [FROM_1]), (1, 2));
    FirstSends(n, ([FROM_0, FROM_1], [FROM_1]), (1, 2));
    RunTwo(half, Send(1), Send(0));
  }

  ghost predicate Stands(log: seq<Message>, x: Message, y: Message) {
    exists i, j :: 0 <= i < j < |log| && log[i] == x && log[j] == y
  }

  /** Two subscribers see two messages in opposite orders. */
  ghost predicate Disagree(b: State) {
    exists c, d, x, y :: 0 <= c < |b.channels| && 0 <= d < |b.channels|
                         && Stands(b.channels[c].log, x, y) && Stands(b.channels[d].log, y, x)
  }

  /** As many publishers as it takes two subscribers of one subject to see two of them in opposite orders. */
  lemma SubscribersMayDisagree(n: nat)
    requires n >= 2
    ensures exists es :: var b := Run(Empty(n), es);
              && b.Registered("s") == [0, 1]
              && b.channels == TwoChannels(([FROM_0, FROM_1], [FROM_1, FROM_0]))
  {
    var subscribe, begin := [Subscribe("s"), Subscribe("s")], [Begin(0, "s", "x"), Begin(1, "s", "y")];
    RaceReady(n);
    RaceStarts(n);
    RaceHalfway(n);
    RaceCrosses(n);
    RunAppend(Empty(n), subscribe, begin);
    RunAppend(Empty(n), subscribe + begin, [Send(0), Send(1)]);
    RunAppend(Empty(n), subscribe + begin + [Send(0), Send(1)], [Send(1), Send(0)]);
    assert Run(Empty(n), subscribe + begin + [Send(0), Send(1)] + [Send(1), Send(0)]).Registered("s") == [0, 1];
  }

  lemma CrossedDisagree(b: State)
    requires b.channels == TwoChannels(([FROM_0, FROM_1], [FROM_1, FROM_0]))
    ensures Disagree(b)
  {
    var one, two := [FROM_0, FROM_1], [FROM_1, FROM_0];
    assert one[0] == FROM_0 && one[1] == FROM_1 && two[0] == FROM_1 && two[1] == FROM_0;
    assert Stands(b.channels[0].log, FROM_0, FROM_1) && Stands(b.channels[1].log, FROM_1, FROM_0);
  }

  lemma OnePublisherAgrees(b: State)
    requires Inv(b) && |b.publishers| < 2
    ensures !Disagree(b)
  {
    forall c, d, x, y | 0 <= c < |b.channels| && 0 <= d < |b.channels|
                        && Stands(b.channels[c].log, x, y) && Stands(b.channels[d].log, y, x)
      ensures false
    {
      OneAfterAnother(b, c, x, y);
      OneAfterAnother(b, d, y, x);
    }
  }

  lemma OneAfterAnother(b: State, c: nat, x: Message, y: Message)
    requires Inv(b) && |b.publishers| < 2 && c < |b.channels| && Stands(b.channels[c].log, x, y)
    ensures x.serial < y.serial
  {
    assert x in b.channels[c].log && y in b.channels[c].log;
    assert x.publisher == y.publisher;
  }

  /** Subscribers can come to disagree exactly when there are two publishers to disagree about. */
  lemma DisagreementExactly(n: nat)
    ensures (exists es :: Disagree(Run(Empty(n), es))) <==> n >= 2
  {
    if n >= 2 {
      SubscribersMayDisagree(n);
      var es :| Run(Empty(n), es).channels == TwoChannels(([FROM_0, FROM_1], [FROM_1, FROM_0]));
      CrossedDisagree(Run(Empty(n), es));
    } else {
      forall es ensures !Disagree(Run(Empty(n), es)) {
        RunKeepsInv(Empty(n), es);
        RunKeepsPublishers(Empty(n), es);
        OnePublisherAgrees(Run(Empty(n), es));
      }
    }
  }
}
