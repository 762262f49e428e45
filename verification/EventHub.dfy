/**
 The hub behind server-sent events (internal/events/events.go). One goroutine takes registrations,
 unregistrations and events in whatever order `select` picks them; consumers drain their channels.
 */
module EventHub {
  import opened Wrappers

  type Chan = nat

  datatype Event = Event(kind: string, user: string, project: string, data: int)

  datatype Client = Client(id: string, chan: Chan, filters: set<string>, user: string, project: string)

  /** A buffered Go channel. */
  datatype Channel = Channel(buffer: seq<Event>, closed: bool)

  /** `crashed` is the panic of closing a closed channel or sending on one. */
  datatype State = State(clients: map<string, Client>, channels: map<Chan, Channel>, crashed: bool)

  datatype Action =
    | Register(client: Client)
    | Unregister(id: string)
    | Dispatch(event: Event)
    | Receive(chan: Chan)

  const MAX_CONNECTIONS_PER_USER: nat := 5
  const BUFFER: nat := 50

  // ---------------------------------------------------------------- one step

  predicate MatchesFilters(c: Client, e: Event) {
    c.filters == {} || e.kind in c.filters
  }

  predicate MatchesScope(c: Client, e: Event) {
    && (c.user != "" && e.user != "" ==> c.user == e.user)
    && (c.project != "" && e.project != "" ==> c.project == e.project)
  }

  predicate Wants(c: Client, e: Event) {
    MatchesFilters(c, e) && MatchesScope(c, e)
  }

  function OfUser(clients: map<string, Client>, user: string): set<string> {
    set id | id in clients && clients[id].user == user
  }

  predicate Refused(clients: map<string, Client>, c: Client) {
    c.user != "" && |OfUser(clients, c.user)| >= MAX_CONNECTIONS_PER_USER
  }

  predicate Open(channels: map<Chan, Channel>, c: Chan) {
    c in channels && !channels[c].closed
  }

  function Close(s: State, c: Chan): State {
    if Open(s.channels, c) then s.(channels := s.channels[c := s.channels[c].(closed := true)])
    else s.(crashed := true)
  }

  /** Sending drops the event when the buffer is full. */
  function Offered(ch: Channel, e: Event): Channel {
    if |ch.buffer| < BUFFER then ch.(buffer := ch.buffer + [e]) else ch
  }

  /** The channels of those of the given clients that want the event. */
  function Listeners(clients: map<string, Client>, ids: set<string>, e: Event): set<Chan> {
    set id | id in ids && id in clients && Wants(clients[id], e) :: clients[id].chan
  }

  function SendTo(channels: map<Chan, Channel>, targets: set<Chan>, e: Event): map<Chan, Channel> {
    map c | c in channels :: if c in targets then Offered(channels[c], e) else channels[c]
  }

  function Process(s: State, a: Action): State {
    match a
    case Register(c) =>
      var t := s.(channels := s.channels[c.chan := Channel([], false)]);
      if Refused(s.clients, c) then Close(t, c.chan) else t.(clients := s.clients[c.id := c])
    case Unregister(id) =>
      if id in s.clients then Close(s.(clients := s.clients - {id}), s.clients[id].chan) else s
    case Dispatch(e) =>
      var targets := Listeners(s.clients, s.clients.Keys, e);
      State(s.clients, SendTo(s.channels, targets, e),
            s.crashed || exists c :: c in targets && !Open(s.channels, c))
    case Receive(c) =>
      if c in s.channels && s.channels[c].buffer != []
      then s.(channels := s.channels[c := s.channels[c].(buffer := s.channels[c].buffer[1..])])
      else s
  }

  // ---------------------------------------------------------------- the invariant

  /** Registered clients have open channels, and no two share one. */
  ghost predicate Wired(clients: map<string, Client>, channels: map<Chan, Channel>) {
    && (forall id :: id in clients ==> clients[id].id == id && Open(channels, clients[id].chan))
    && (forall i, j :: i in clients && j in clients && i != j ==> clients[i].chan != clients[j].chan)
  }

  ghost predicate Capped(clients: map<string, Client>) {
    forall user :: WithinCap(clients, user)
  }

  ghost predicate WithinCap(clients: map<string, Client>, user: string) {
    user != "" ==> |OfUser(clients, user)| <= MAX_CONNECTIONS_PER_USER
  }

  ghost predicate Bounded(channels: map<Chan, Channel>) {
    forall c :: c in channels ==> |channels[c].buffer| <= BUFFER
  }

  ghost predicate Inv(s: State) {
    !s.crashed && Wired(s.clients, s.channels) && Capped(s.clients) && Bounded(s.channels)
  }

  /** Each registration brings a channel of its own; ids need not be distinct. */
  ghost predicate Possible(s: State, a: Action) {
    a.Register? ==> a.client.chan !in s.channels
  }

  lemma RegisterKeepsCap(clients: map<string, Client>, c: Client)
    requires Capped(clients) && !Refused(clients, c)
    ensures Capped(clients[c.id := c])
  {
    var after := clients[c.id := c];
    forall user ensures WithinCap(after, user) {
      assert WithinCap(clients, user);
      if user == c.user {
        assert OfUser(after, user) == OfUser(clients, user) + {c.id};
      } else {
        Shrinks(OfUser(after, user), OfUser(clients, user));
      }
    }
  }

  lemma UnregisterKeepsCap(clients: map<string, Client>, id: string)
    requires Capped(clients)
    ensures Capped(clients - {id})
  {
    forall user ensures WithinCap(clients - {id}, user) {
      assert WithinCap(clients, user);
      Shrinks(OfUser(clients - {id}, user), OfUser(clients, user));
    }
  }

  lemma {:induction false} Shrinks<T>(a: set<T>, b: set<T>)
    requires a <= b
    ensures |a| <= |b|
  {
    assert b == a + (b - a);
  }

  lemma SendKeepsWired(clients: map<string, Client>, channels: map<Chan, Channel>, targets: set<Chan>, e: Event)
    requires Wired(clients, channels)
    ensures Wired(clients, SendTo(channels, targets, e))
  {
  }

  /** Every step keeps the invariant; in particular no channel is closed twice or sent to after it was closed. */
  lemma StepKeepsInv(s: State, a: Action)
    requires Inv(s) && Possible(s, a)
    ensures Inv(Process(s, a))
  {
    match a {
      case Register(c) =>
        if !Refused(s.clients, c) {
          RegisterKeepsCap(s.clients, c);
        }
      case Unregister(id) =>
        UnregisterKeepsCap(s.clients, id);
      case Dispatch(e) =>
        SendKeepsWired(s.clients, s.channels, Listeners(s.clients, s.clients.Keys, e), e);
      case Receive(c) =>
    }
  }

  ghost function Run(s: State, actions: seq<Action>): State {
    if actions == [] then s else Process(Run(s, actions[..|actions| - 1]), actions[|actions| - 1])
  }

  ghost predicate PossibleRun(s: State, actions: seq<Action>) {
    actions != [] ==>
      var init := actions[..|actions| - 1];
      PossibleRun(s, init) && Possible(Run(s, init), actions[|actions| - 1])
  }

  ghost function Initial(): State {
    State(map[], map[], false)
  }

  /** Over every interleaving: no panic, and no user ever has more than five clients. */
  lemma {:induction false} HubIsSafe(actions: seq<Action>)
    requires PossibleRun(Initial(), actions)
    ensures Inv(Run(Initial(), actions))
  {
    if actions == [] {
      assert forall user :: OfUser(map[], user) == {};
    } else {
      HubIsSafe(actions[..|actions| - 1]);
      StepKeepsInv(Run(Initial(), actions[..|actions| - 1]), actions[|actions| - 1]);
    }
  }

  /** A step panics exactly when it closes, or sends on, a channel that is not open. */
  lemma PanicsExactly(s: State, a: Action)
    requires !s.crashed
    ensures Process(s, a).crashed
       <==> match a
            case Register(_) => false
            case Unregister(id) =>
              id in s.clients && (s.clients[id].chan in s.channels ==> s.channels[s.clients[id].chan].closed)
            case Dispatch(e) =>
              exists id :: id in s.clients && Wants(s.clients[id], e)
                           && (s.clients[id].chan in s.channels ==> s.channels[s.clients[id].chan].closed)
            case Receive(_) => false
  {
    if a.Dispatch? {
      var targets := Listeners(s.clients, s.clients.Keys, a.event);
      if c :| c in targets && !Open(s.channels, c) {
        var id :| id in s.clients && Wants(s.clients[id], a.event) && s.clients[id].chan == c;
      }
      forall id | id in s.clients && Wants(s.clients[id], a.event) ensures s.clients[id].chan in targets {
      }
    }
  }

  /** Events sent through Broadcast are filtered and scoped like all others: who wants one, and has room, gets it. */
  lemma BroadcastIsFiltered(s: State, e: Event, id: string)
    requires Inv(s) && id in s.clients
    ensures var c := s.clients[id].chan; var before, after := s.channels[c], Process(s, Dispatch(e)).channels[c];
            && (after != before <==> Wants(s.clients[id], e) && |before.buffer| < BUFFER)
            && (after != before ==> after == before.(buffer := before.buffer + [e]))
  {
    var c := s.clients[id].chan;
    assert c in Listeners(s.clients, s.clients.Keys, e) <==> Wants(s.clients[id], e);
    var before := s.channels[c];
    assert |before.buffer + [e]| != |before.buffer|;
  }

  // ---------------------------------------------------------------- closing

  /** The step does not replace a registered client by another of its id. */
  ghost predicate NoReuse(s: State, a: Action) {
    a.Register? && a.client.id in s.clients ==> Refused(s.clients, a.client)
  }

  /** Every channel in use is a registered client's. */
  ghost predicate NoLeak(s: State) {
    forall c :: Open(s.channels, c) ==> Used(s.clients, c)
  }

  ghost predicate Used(clients: map<string, Client>, c: Chan) {
    exists id :: Owns(clients, id, c)
  }

  ghost predicate Owns(clients: map<string, Client>, id: string, c: Chan) {
    id in clients && clients[id].chan == c
  }

  /** An open channel that no registered client refers to. */
  ghost predicate Leaked(s: State, c: Chan) {
    Open(s.channels, c) && !Used(s.clients, c)
  }

  /** Nothing ever closes a leaked channel, or refers to it again. */
  lemma LeakStays(s: State, a: Action, c: Chan)
    requires Inv(s) && Possible(s, a) && Leaked(s, c)
    ensures Leaked(Process(s, a), c)
  {
    var t := Process(s, a);
    if a.Unregister? && a.id in s.clients {
      assert Owns(s.clients, a.id, s.clients[a.id].chan);
    }
    forall id | Owns(t.clients, id, c) ensures Owns(s.clients, id, c) {
    }
  }

  /** Replacing a registered client by another of its id leaks the older channel. */
  lemma ReusedIdLeaks(s: State, c: Client)
    requires Inv(s) && c.chan !in s.channels && c.id in s.clients && !Refused(s.clients, c)
    ensures Leaked(Process(s, Register(c)), s.clients[c.id].chan)
  {
    var leaked, t := s.clients[c.id].chan, Process(s, Register(c));
    forall id | id in t.clients ensures !Owns(t.clients, id, leaked) {
    }
  }

  lemma NoReuseKeepsNoLeak(s: State, a: Action)
    requires Inv(s) && Possible(s, a) && NoLeak(s) && NoReuse(s, a)
    ensures NoLeak(Process(s, a))
  {
    var t := Process(s, a);
    forall c | Open(t.channels, c) ensures Used(t.clients, c) {
      if a.Register? && c == a.client.chan {
        assert Owns(t.clients, a.client.id, c);
      } else {
        assert Open(s.channels, c);
        var id :| Owns(s.clients, id, c);
        assert Owns(t.clients, id, c);
      }
    }
  }

  /** From a state without leaks a step leaks exactly when it replaces a registered client. */
  lemma StepKeepsNoLeak(s: State, a: Action)
    requires Inv(s) && Possible(s, a) && NoLeak(s)
    ensures NoLeak(Process(s, a)) <==> NoReuse(s, a)
  {
    if NoReuse(s, a) {
      NoReuseKeepsNoLeak(s, a);
    } else {
      ReusedIdLeaks(s, a.client);
    }
  }

  // ---------------------------------------------------------------- the goroutine

  class Hub {
    var clients: map<string, Client>
    var channels: map<Chan, Channel>

    ghost function Now(): State
      reads this
    {
      State(clients, channels, false)
    }

    ghost predicate Valid()
      reads this
    {
      Inv(Now())
    }

    constructor ()
      ensures Valid() && Now() == Initial()
    {
      clients := map[];
      channels := map[];
      new;
      assert Run(Initial(), []) == Now();
      HubIsSafe([]);
    }

    /** Panics on a channel that is not open, so it may only be called on one that is. */
    method CloseChannel(c: Chan)
      requires Open(channels, c)
      modifies this`channels
      ensures channels == old(channels)[c := old(channels)[c].(closed := true)]
    {
      channels := channels[c := channels[c].(closed := true)];
    }

    /** The same holds for sending; a full buffer drops the event. */
    method TrySend(c: Chan, e: Event)
      requires Open(channels, c)
      modifies this`channels
      ensures channels == old(channels)[c := Offered(old(channels)[c], e)]
    {
      if |channels[c].buffer| < BUFFER {
        channels := channels[c := channels[c].(buffer := channels[c].buffer + [e])];
      }
    }

    method CountUser(user: string) returns (count: nat)
      ensures count == |OfUser(clients, user)|
    {
      count := 0;
      ghost var all := OfUser(clients, user);
      var pending := clients.Keys;
      while pending != {}
        invariant pending <= clients.Keys && count == |all - pending|
        decreases pending
      {
        var id :| id in pending;
        CountOne(all, pending, id);
        pending := pending - {id};
        if clients[id].user == user {
          count := count + 1;
        }
      }
      assert all - {} == all;
    }

    method OnRegister(client: Client)
      requires Valid() && client.chan !in channels
      modifies this
      ensures Valid() && Now() == Process(old(Now()), Register(client))
    {
      StepKeepsInv(Now(), Register(client));
      channels := channels[client.chan := Channel([], false)];
      if client.user != "" {
        var count := CountUser(client.user);
        if count >= MAX_CONNECTIONS_PER_USER {
          CloseChannel(client.chan);
          return;
        }
      }
      clients := clients[client.id := client];
    }

    method OnUnregister(id: string)
      requires Valid()
      modifies this
      ensures Valid() && Now() == Process(old(Now()), Unregister(id))
    {
      StepKeepsInv(Now(), Unregister(id));
      if id in clients {
        CloseChannel(clients[id].chan);
        clients := clients - {id};
      }
    }

    method DispatchToClient(id: string, event: Event)
      requires id in clients && Open(channels, clients[id].chan)
      modifies this`channels
      ensures var c := clients[id].chan;
              channels == if Wants(clients[id], event) then old(channels)[c := Offered(old(channels)[c], event)]
                          else old(channels)
    {
      if !MatchesFilters(clients[id], event) {
        return;
      }
      if !MatchesScope(clients[id], event) {
        return;
      }
      TrySend(clients[id].chan, event);
    }

    /** The clients are visited in any order. */
    method SendToAll(event: Event)
      requires Wired(clients, channels)
      modifies this`channels
      ensures channels == SendTo(old(channels), Listeners(clients, clients.Keys, event), event)
    {
      ghost var before := channels;
      var pending := clients.Keys;
      while pending != {}
        invariant pending <= clients.Keys
        invariant channels == SendTo(before, Listeners(clients, clients.Keys - pending, event), event)
        decreases pending
      {
        var id :| id in pending;
        ReachOne(clients, before, clients.Keys - pending, id, event);
        assert clients.Keys - pending + {id} == clients.Keys - (pending - {id});
        pending := pending - {id};
        DispatchToClient(id, event);
      }
      assert clients.Keys - {} == clients.Keys;
    }

    method DispatchToClients(event: Event)
      requires Valid()
      modifies this`channels
      ensures Valid() && Now() == Process(old(Now()), Dispatch(event))
    {
      StepKeepsInv(Now(), Dispatch(event));
      SendToAll(event);
    }
  }

  lemma CountOne<T>(all: set<T>, pending: set<T>, x: T)
    requires x in pending
    ensures |all - (pending - {x})| == |all - pending| + if x in all then 1 else 0
  {
    assert all - (pending - {x}) == if x in all then (all - pending) + {x} else all - pending;
  }

  /** A client visited later has a channel none of the earlier ones sent to. */
  lemma ReachOne(clients: map<string, Client>, channels: map<Chan, Channel>, reached: set<string>, id: string, e: Event)
    requires Wired(clients, channels) && id in clients && id !in reached
    ensures var c, after := clients[id].chan, SendTo(channels, Listeners(clients, reached, e), e);
            && Open(after, c)
            && SendTo(channels, Listeners(clients, reached + {id}, e), e)
               == if Wants(clients[id], e) then after[c := Offered(after[c], e)] else after
  {
    var c := clients[id].chan;
    assert Listeners(clients, reached + {id}, e)
        == Listeners(clients, reached, e) + if Wants(clients[id], e) then {c} else {};
    assert c !in Listeners(clients, reached, e);
  }
}
