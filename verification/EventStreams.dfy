/**
 What one client of the event hub sees: whatever the other clients do, its stream is that of a queue of
 its own, fed with the dispatched events it wants (internal/events/events.go:127-220, 247-282).
 */
module EventStreams {
  import opened EventHub
  import Text

  /** A bounded queue and what its consumer took from it. */
  datatype Queue = Queue(buffer: seq<Event>, received: seq<Event>, live: bool, dropped: nat)

  /** The queue knows its client and nothing of the hub. */
  function Feed(q: Queue, cl: Client, a: Action): Queue {
    match a
    case Register(_) => q
    case Unregister(id) => if id == cl.id then q.(live := false) else q
    case Dispatch(e) =>
      if !q.live || !Wants(cl, e) then q
      else if |q.buffer| < BUFFER then q.(buffer := q.buffer + [e])
      else q.(dropped := q.dropped + 1)
    case Receive(c) =>
      if c == cl.chan && q.buffer != [] then q.(buffer := q.buffer[1..], received := q.received + [q.buffer[0]])
      else q
  }

  function Play(cl: Client, actions: seq<Action>): Queue {
    if actions == [] then Queue([], [], true, 0)
    else Feed(Play(cl, actions[..|actions| - 1]), cl, actions[|actions| - 1])
  }

  /** What consumers took from channel `c` of the hub. */
  ghost function Taken(s: State, actions: seq<Action>, c: Chan): seq<Event> {
    if actions == [] then []
    else
      var init, last := actions[..|actions| - 1], actions[|actions| - 1];
      Taken(s, init, c) + TakenBy(Run(s, init), last, c)
  }

  ghost function TakenBy(s: State, a: Action, c: Chan): seq<Event> {
    if a == Receive(c) && c in s.channels && s.channels[c].buffer != [] then [s.channels[c].buffer[0]] else []
  }

  /** The hub's part that belongs to `cl` is the queue. */
  ghost predicate Mirrors(s: State, cl: Client, q: Queue) {
    && cl.chan in s.channels && s.channels[cl.chan] == Channel(q.buffer, !q.live)
    && (if q.live then cl.id in s.clients && s.clients[cl.id] == cl else cl.id !in s.clients)
  }

  ghost predicate OthersIds(cl: Client, actions: seq<Action>) {
    forall a :: a in actions && a.Register? ==> a.client.id != cl.id
  }

  /** The channel gets an event exactly when its own client is registered and wants it. */
  lemma OwnEventsOnly(s: State, cl: Client, q: Queue, e: Event)
    requires Inv(s) && Mirrors(s, cl, q)
    ensures cl.chan in Listeners(s.clients, s.clients.Keys, e) <==> q.live && Wants(cl, e)
  {
    if q.live && Wants(cl, e) {
      assert s.clients[cl.id].chan == cl.chan;
    }
    if cl.chan in Listeners(s.clients, s.clients.Keys, e) {
      assert Open(s.channels, cl.chan);
    }
  }

  lemma StepMirrors(s: State, cl: Client, q: Queue, a: Action)
    requires Inv(s) && Possible(s, a) && Mirrors(s, cl, q)
    requires a.Register? ==> a.client.id != cl.id
    ensures Mirrors(Process(s, a), cl, Feed(q, cl, a))
    ensures Feed(q, cl, a).received == q.received + TakenBy(s, a, cl.chan)
  {
    match a {
      case Register(c) =>
      case Unregister(id) =>
        if id in s.clients && id != cl.id {
          assert s.clients[id].chan != cl.chan by {
            assert Open(s.channels, s.clients[id].chan);
          }
        }
      case Dispatch(e) =>
        OwnEventsOnly(s, cl, q, e);
      case Receive(c) =>
    }
  }

  lemma {:induction false} RunKeepsInv(s: State, actions: seq<Action>)
    requires Inv(s) && PossibleRun(s, actions)
    ensures Inv(Run(s, actions))
  {
    if actions != [] {
      RunKeepsInv(s, actions[..|actions| - 1]);
      StepKeepsInv(Run(s, actions[..|actions| - 1]), actions[|actions| - 1]);
    }
  }

  /** From its acceptance on, a client's channel is its own queue, under every interleaving with the others. */
  lemma {:induction false} HubRefinesQueues(s: State, cl: Client, actions: seq<Action>)
    requires Inv(s) && cl.chan !in s.channels && !Refused(s.clients, cl)
    requires PossibleRun(Process(s, Register(cl)), actions) && OthersIds(cl, actions)
    ensures var t := Process(s, Register(cl));
            && Mirrors(Run(t, actions), cl, Play(cl, actions))
            && Taken(t, actions, cl.chan) == Play(cl, actions).received
  {
    var t := Process(s, Register(cl));
    StepKeepsInv(s, Register(cl));
    if actions != [] {
      var init, last := actions[..|actions| - 1], actions[|actions| - 1];
      Text.SplitLast(actions);
      HubRefinesQueues(s, cl, init);
      RunKeepsInv(t, init);
      StepMirrors(Run(t, init), cl, Play(cl, init), last);
    }
  }

  // ---------------------------------------------------------------- ordered, lossy delivery

  /** The events dispatched before the client is unregistered that it wants. */
  function Wanted(cl: Client, actions: seq<Action>): seq<Event> {
    if actions == [] then []
    else
      var init, last := actions[..|actions| - 1], actions[|actions| - 1];
      if last.Dispatch? && Unregister(cl.id) !in init && Wants(cl, last.event) then Wanted(cl, init) + [last.event]
      else Wanted(cl, init)
  }

  /** `a` is `b` with some elements left out. */
  ghost predicate Subsequence(a: seq<Event>, b: seq<Event>) {
    || a == []
    || (b != [] && Subsequence(a, b[..|b| - 1]))
    || (b != [] && a[|a| - 1] == b[|b| - 1] && Subsequence(a[..|a| - 1], b[..|b| - 1]))
  }

  lemma {:induction false} SubsequenceSnoc(a: seq<Event>, b: seq<Event>, e: Event)
    requires Subsequence(a, b)
    ensures Subsequence(a, b + [e]) && Subsequence(a + [e], b + [e])
  {
    assert (b + [e])[..|b|] == b && (a + [e])[..|a|] == a;
  }

  lemma {:induction false} LiveUntilUnregistered(cl: Client, actions: seq<Action>)
    ensures Play(cl, actions).live <==> Unregister(cl.id) !in actions
  {
    if actions != [] {
      LiveUntilUnregistered(cl, actions[..|actions| - 1]);
      Text.SplitLast(actions);
    }
  }

  /** Taking the first element moves it from the buffer to what was received. */
  lemma ReceiveKeepsStream(q: Queue, cl: Client, c: Chan)
    ensures var p := Feed(q, cl, Receive(c)); p.received + p.buffer == q.received + q.buffer
  {
  }

  /**
   Received and buffered events together are the wanted ones in order with some left out, as many as were
   dropped, and an event is dropped only while fifty are buffered.
   */
  lemma {:induction false} StreamInOrder(cl: Client, actions: seq<Action>)
    ensures var q, wanted := Play(cl, actions), Wanted(cl, actions);
            && Subsequence(q.received + q.buffer, wanted)
            && |q.received + q.buffer| + q.dropped == |wanted|
            && (q.dropped == 0 <==> q.received + q.buffer == wanted)
            && |q.buffer| <= BUFFER
  {
    if actions != [] {
      var init, last := actions[..|actions| - 1], actions[|actions| - 1];
      StreamInOrder(cl, init);
      LiveUntilUnregistered(cl, init);
      var q := Play(cl, init);
      match last {
        case Dispatch(e) =>
          StreamDispatch(q, cl, e, Wanted(cl, init));
        case Receive(c) =>
          ReceiveKeepsStream(q, cl, c);
        case Register(_) =>
        case Unregister(_) =>
      }
    }
  }

  lemma StreamDispatch(q: Queue, cl: Client, e: Event, wanted: seq<Event>)
    requires Subsequence(q.received + q.buffer, wanted) && |q.received + q.buffer| + q.dropped == |wanted|
    requires (q.dropped == 0 <==> q.received + q.buffer == wanted) && |q.buffer| <= BUFFER
    ensures var p, more := Feed(q, cl, Dispatch(e)), if q.live && Wants(cl, e) then wanted + [e] else wanted;
            && Subsequence(p.received + p.buffer, more)
            && |p.received + p.buffer| + p.dropped == |more|
            && (p.dropped == 0 <==> p.received + p.buffer == more)
            && |p.buffer| <= BUFFER
            && (p.dropped > q.dropped <==> q.live && Wants(cl, e) && |q.buffer| == BUFFER)
  {
    if q.live && Wants(cl, e) {
      SubsequenceSnoc(q.received + q.buffer, wanted, e);
      Text.ConcatAssociative(q.received, q.buffer, [e]);
    }
  }

  // ---------------------------------------------------------------- who sees what

  /** The event is of nobody, or the client is, or they are of the same user. */
  ghost predicate SameUser(cl: Client, e: Event) {
    e.user == "" || cl.user == "" || e.user == cl.user
  }

  ghost predicate SameProject(cl: Client, e: Event) {
    e.project == "" || cl.project == "" || e.project == cl.project
  }

  ghost predicate Subscribed(cl: Client, e: Event) {
    cl.filters == {} || e.kind in cl.filters
  }

  ghost predicate Entitled(cl: Client, e: Event) {
    SameUser(cl, e) && SameProject(cl, e) && Subscribed(cl, e)
  }

  lemma {:induction false} QueueHoldsEntitled(cl: Client, actions: seq<Action>, e: Event)
    requires e in Play(cl, actions).received + Play(cl, actions).buffer
    ensures Entitled(cl, e) && Dispatch(e) in actions
  {
    assert actions != [];
    var init, last := actions[..|actions| - 1], actions[|actions| - 1];
    var q := Play(cl, init);
    if e in q.received + q.buffer {
      QueueHoldsEntitled(cl, init, e);
    } else {
      assert last == Dispatch(e);
    }
  }

  /**
   Under every interleaving a client's channel, and what was taken from it, hold only events that were
   dispatched, of its user or of nobody, of its project or of none, and of a kind it subscribed to.
   */
  lemma {:induction false} OnlyEntitledEvents(s: State, cl: Client, actions: seq<Action>, e: Event)
    requires Inv(s) && cl.chan !in s.channels && !Refused(s.clients, cl)
    requires PossibleRun(Process(s, Register(cl)), actions) && OthersIds(cl, actions)
    requires var t := Process(s, Register(cl));
             && cl.chan in Run(t, actions).channels
             && (e in Run(t, actions).channels[cl.chan].buffer || e in Taken(t, actions, cl.chan))
    ensures SameUser(cl, e) && SameProject(cl, e) && Subscribed(cl, e) && Dispatch(e) in actions
  {
    HubRefinesQueues(s, cl, actions);
    QueueHoldsEntitled(cl, actions, e);
  }

  /**
   And all of them: a dispatched event is put at the end of the client's channel exactly when the client has not
   been unregistered, may see it, and has fewer than fifty events waiting; else the channel stays as it is.
   */
  lemma {:induction false} EveryEntitledEvent(s: State, cl: Client, actions: seq<Action>, e: Event)
    requires Inv(s) && cl.chan !in s.channels && !Refused(s.clients, cl)
    requires PossibleRun(Process(s, Register(cl)), actions) && OthersIds(cl, actions)
    ensures var before := Run(Process(s, Register(cl)), actions);
            var after := Process(before, Dispatch(e));
            && cl.chan in before.channels && cl.chan in after.channels
            && var waiting := before.channels[cl.chan].buffer;
               after.channels[cl.chan].buffer
               == if Unregister(cl.id) !in actions && Entitled(cl, e) && |waiting| < 50 then waiting + [e] else waiting
  {
    var t := Process(s, Register(cl));
    HubRefinesQueues(s, cl, actions);
    LiveUntilUnregistered(cl, actions);
    StepKeepsInv(s, Register(cl));
    RunKeepsInv(t, actions);
    StepMirrors(Run(t, actions), cl, Play(cl, actions), Dispatch(e));
  }

  // ---------------------------------------------------------------- who is registered

  /** The client was registered and has not been unregistered since. */
  ghost predicate SignedUp(actions: seq<Action>, cl: Client) {
    exists k :: 0 <= k < |actions| && actions[k] == Register(cl) && Unregister(cl.id) !in actions[k..]
  }

  lemma {:induction false} SignedUpSnoc(init: seq<Action>, last: Action, cl: Client)
    requires last == Register(cl) || (SignedUp(init, cl) && last != Unregister(cl.id))
    ensures SignedUp(init + [last], cl)
  {
    var actions := init + [last];
    if SignedUp(init, cl) && last != Unregister(cl.id) {
      var k :| 0 <= k < |init| && init[k] == Register(cl) && Unregister(cl.id) !in init[k..];
      assert actions[k] == Register(cl) && actions[k..] == init[k..] + [last];
    } else {
      assert actions[|init|] == Register(cl) && actions[|init|..] == [last];
    }
  }

  lemma {:induction false} RegisteredSignedUp(actions: seq<Action>, id: string)
    requires PossibleRun(Initial(), actions) && id in Run(Initial(), actions).clients
    ensures Run(Initial(), actions).clients[id].id == id && SignedUp(actions, Run(Initial(), actions).clients[id])
  {
    HubIsSafe(actions);
    var init, last := actions[..|actions| - 1], actions[|actions| - 1];
    Text.SplitLast(actions);
    var s, cl := Run(Initial(), init), Run(Initial(), actions).clients[id];
    if id in s.clients && s.clients[id] == cl {
      RegisteredSignedUp(init, id);
    }
    SignedUpSnoc(init, last, cl);
  }

  /**
   Over every run a registration is refused exactly when its user has five registered clients, each of which
   signed up and has not been unregistered since.
   */
  lemma {:induction false} RefusedExactly(actions: seq<Action>, cl: Client)
    requires PossibleRun(Initial(), actions) && cl.chan !in Run(Initial(), actions).channels
    requires cl.id !in Run(Initial(), actions).clients
    ensures var s := Run(Initial(), actions);
            && var own := set id | id in s.clients && s.clients[id].user == cl.user;
            && (cl.id in Process(s, Register(cl)).clients <==> cl.user == "" || |own| < 5)
            && (cl.user != "" ==> |own| <= 5)
            && forall id :: id in own ==> SignedUp(actions, s.clients[id])
  {
    var s := Run(Initial(), actions);
    HubIsSafe(actions);
    var own := set id | id in s.clients && s.clients[id].user == cl.user;
    assert own == OfUser(s.clients, cl.user);
    assert WithinCap(s.clients, cl.user);
    forall id | id in own ensures SignedUp(actions, s.clients[id]) {
      RegisteredSignedUp(actions, id);
    }
  }

  // ---------------------------------------------------------------- closing

  /** Every registration of a registered id was refused. */
  ghost predicate NoReuses(s: State, actions: seq<Action>) {
    actions != [] ==>
      var init := actions[..|actions| - 1];
      NoReuses(s, init) && NoReuse(Run(s, init), actions[|actions| - 1])
  }

  /** Over every possible run a channel has leaked exactly when some registration replaced a registered client. */
  lemma {:induction false} LeaksExactlyOnReuse(actions: seq<Action>)
    requires PossibleRun(Initial(), actions)
    ensures NoLeak(Run(Initial(), actions)) <==> NoReuses(Initial(), actions)
  {
    if actions != [] {
      var init, last := actions[..|actions| - 1], actions[|actions| - 1];
      var s := Run(Initial(), init);
      LeaksExactlyOnReuse(init);
      HubIsSafe(init);
      if NoLeak(s) {
        StepKeepsNoLeak(s, last);
      } else {
        var c :| Open(s.channels, c) && !Used(s.clients, c);
        LeakStays(s, last, c);
      }
    }
  }

  /** A leaked channel stays open and unreferenced through every possible continuation. */
  lemma {:induction false} LeaksForGood(s: State, actions: seq<Action>, c: Chan)
    requires Inv(s) && PossibleRun(s, actions) && Leaked(s, c)
    ensures Leaked(Run(s, actions), c)
  {
    if actions != [] {
      var init := actions[..|actions| - 1];
      LeaksForGood(s, init, c);
      RunKeepsInv(s, init);
      LeakStays(Run(s, init), actions[|actions| - 1], c);
    }
  }

  /** Without such a registration the open channels are exactly those of the registered clients. */
  lemma {:induction false} OpenWhileRegistered(actions: seq<Action>, c: Chan)
    requires PossibleRun(Initial(), actions) && NoReuses(Initial(), actions)
    ensures var s := Run(Initial(), actions); Open(s.channels, c) <==> Used(s.clients, c)
  {
    LeaksExactlyOnReuse(actions);
    HubIsSafe(actions);
  }

  /** A cancelled client whose unregistration overtakes its registration stays registered. */
  lemma OvertakenUnregisterStays(s: State, cl: Client)
    requires Inv(s) && cl.chan !in s.channels && cl.id !in s.clients && !Refused(s.clients, cl)
    ensures cl.id in Process(Process(s, Unregister(cl.id)), Register(cl)).clients
    ensures cl.id !in Process(Process(s, Register(cl)), Unregister(cl.id)).clients
  {
  }
}
