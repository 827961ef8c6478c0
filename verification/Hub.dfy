/** The WebSocket hub: rooms of clients, one buffered channel per client, and a loop that registers,
    unregisters and broadcasts, while clients put replies of their own into their channels. */
module Hub {

  type Message = string

  const CAPACITY := 256

  datatype Client = Client(id: nat, instanceId: string)

  /** What a channel carries: broadcasts of the hub, and the client's own replies to its peer. */
  datatype Item = FromHub(m: Message) | FromClient(m: Message)

  /** A client's channel: what waits in it, what its pump has taken out, and whether the hub closed it. */
  datatype Channel = Channel(buffer: seq<Item>, taken: seq<Item>, closed: bool)

  datatype State = State(clients: map<string, set<Client>>, channels: map<Client, Channel>)

  datatype Event =
    | Register(c: Client) | Unregister(c: Client) | Broadcast(instanceId: string, m: Message)
    | Take(c: Client) | Reply(c: Client, m: Message)

  /** Closing a closed channel, or sending on one, panics: in the hub, or in the client that replies. */
  datatype Outcome = Running(st: State) | HubPanic | ReplyPanic

  function Room(st: State, instanceId: string): set<Client> {
    if instanceId in st.clients then st.clients[instanceId] else {}
  }

  function ChannelOf(st: State, c: Client): Channel {
    if c in st.channels then st.channels[c] else Channel([], [], false)
  }

  /** Everything ever put into the client's channel. */
  function Sent(st: State, c: Client): seq<Item> { ChannelOf(st, c).taken + ChannelOf(st, c).buffer }

  function FromHubOnly(items: seq<Item>): seq<Message> {
    if items == [] then []
    else
      var last := items[|items| - 1];
      FromHubOnly(items[..|items| - 1]) + (if last.FromHub? then [last.m] else [])
  }

  /** The messages the hub put into the client's channel. */
  function Delivered(st: State, c: Client): seq<Message> { FromHubOnly(Sent(st, c)) }

  predicate Joined(st: State, c: Client) { c in Room(st, c.instanceId) }

  // ---------- one event ----------

  function RegisterStep(st: State, c: Client): State {
    st.(clients := st.clients[c.instanceId := Room(st, c.instanceId) + {c}])
  }

  function Close(st: State, c: Client): State {
    st.(channels := st.channels[c := ChannelOf(st, c).(closed := true)])
  }

  function UnregisterStep(st: State, c: Client): Outcome {
    if !Joined(st, c) then Running(st)
    else if ChannelOf(st, c).closed then HubPanic
    else
      var room := st.clients[c.instanceId] - {c};
      Running(Close(st, c).(clients := if room == {} then st.clients - {c.instanceId}
                                       else st.clients[c.instanceId := room]))
  }

  predicate Full(st: State, c: Client) { |ChannelOf(st, c).buffer| >= CAPACITY }

  /** The channel of a room's member after a broadcast: one message more, or closed when it was full. */
  function Offered(ch: Channel, m: Message): Channel {
    if |ch.buffer| < CAPACITY then ch.(buffer := ch.buffer + [FromHub(m)]) else ch.(closed := true)
  }

  function BroadcastStep(st: State, instanceId: string, m: Message): Outcome {
    var room := Room(st, instanceId);
    if exists c | c in room :: ChannelOf(st, c).closed then HubPanic
    else if instanceId !in st.clients then Running(st)
    else
      Running(State(
        st.clients[instanceId := set c | c in room && !Full(st, c)],
        map c | c in st.channels.Keys + room :: if c in room then Offered(ChannelOf(st, c), m) else st.channels[c]))
  }

  function TakeStep(st: State, c: Client): State {
    var ch := ChannelOf(st, c);
    if ch.buffer == [] then st
    else st.(channels := st.channels[c := ch.(buffer := ch.buffer[1..], taken := ch.taken + [ch.buffer[0]])])
  }

  /** A client's reply never waits: it is dropped when the channel is full. */
  function ReplyStep(st: State, c: Client, m: Message): Outcome {
    var ch := ChannelOf(st, c);
    if ch.closed then ReplyPanic
    else if Full(st, c) then Running(st)
    else Running(st.(channels := st.channels[c := ch.(buffer := ch.buffer + [FromClient(m)])]))
  }

  function Step(st: State, e: Event): Outcome {
    match e
    case Register(c) => Running(RegisterStep(st, c))
    case Unregister(c) => UnregisterStep(st, c)
    case Broadcast(instanceId, m) => BroadcastStep(st, instanceId, m)
    case Take(c) => Running(TakeStep(st, c))
    case Reply(c, m) => ReplyStep(st, c, m)
  }

  function Run(events: seq<Event>): Outcome {
    if events == [] then Running(State(map[], map[]))
    else
      match Run(events[..|events| - 1])
      case Running(st) => Step(st, events[|events| - 1])
      case panic => panic
  }

  // ---------- channel safety ----------

  /** Members sit in their own room with an open channel, and no channel holds more than it can. */
  ghost predicate Inv(st: State) {
    && (forall i, c | i in st.clients && c in st.clients[i] :: c.instanceId == i && !ChannelOf(st, c).closed)
    && (forall c :: |ChannelOf(st, c).buffer| <= CAPACITY)
  }

  /** A client whose channel the hub closed comes to register again. */
  predicate Reuses(st: State, e: Event) { e.Register? && ChannelOf(st, e.c).closed }

  /** A reply into a channel the hub has closed. */
  predicate RepliesLate(st: State, e: Event) { e.Reply? && ChannelOf(st, e.c).closed }

  lemma StepIsSafe(st: State, e: Event)
    requires Inv(st) && !Reuses(st, e)
    ensures Step(st, e) != HubPanic
    ensures Step(st, e).Running? <==> !RepliesLate(st, e)
    ensures Step(st, e).Running? ==> Inv(Step(st, e).st)
  {
    if e.Broadcast? {
      assert forall c | c in Room(st, e.instanceId) :: !ChannelOf(st, c).closed;
    }
    if Step(st, e).Running? {
      var st' := Step(st, e).st;
      forall c ensures |ChannelOf(st', c).buffer| <= CAPACITY {
        assert |ChannelOf(st, c).buffer| <= CAPACITY;
      }
    }
  }

  /** No event of the history registers a client that registered before. */
  ghost predicate RegistersOnce(events: seq<Event>) {
    forall i, j :: 0 <= i < j < |events| && events[i].Register? && events[j].Register? ==> events[i].c != events[j].c
  }

  predicate HasRegistered(events: seq<Event>, c: Client) { Register(c) in events }

  lemma {:induction false} OnlyRegisteredAreTouched(events: seq<Event>, c: Client)
    requires Run(events).Running?
    ensures !HasRegistered(events, c) ==> !ChannelOf(Run(events).st, c).closed
    ensures !HasRegistered(events, c) ==> forall i :: c !in Room(Run(events).st, i)
  {
    if events != [] {
      var init, e := events[..|events| - 1], events[|events| - 1];
      OnlyRegisteredAreTouched(init, c);
      assert events == init + [e];
      if !HasRegistered(events, c) {
        forall i ensures c !in Room(Run(events).st, i) {
          assert c !in Room(Run(init).st, i);
        }
      }
    }
  }

  lemma RegistrationIsNew(events: seq<Event>)
    requires RegistersOnce(events) && events != []
    ensures var last := events[|events| - 1]; last.Register? ==> last !in events[..|events| - 1]
  {
    assert forall i | 0 <= i < |events| - 1 :: events[..|events| - 1][i] == events[i];
  }

  /** Safety over every run of clients that register once: the hub never closes a channel twice, never
      sends on a closed one, and its members' channels are open. */
  lemma {:induction false} RunIsSafe(events: seq<Event>)
    requires RegistersOnce(events)
    ensures Run(events) != HubPanic && (Run(events).Running? ==> Inv(Run(events).st))
    ensures Run(events).Running? ==> forall c :: |ChannelOf(Run(events).st, c).buffer| <= 256
  {
    if events != [] && Run(events[..|events| - 1]).Running? {
      var init, e := events[..|events| - 1], events[|events| - 1];
      RunIsSafe(init);
      RegistrationIsFirst(events);
      StepIsSafe(Run(init).st, e);
    } else if events != [] {
      RunIsSafe(events[..|events| - 1]);
    }
  }

  /** A registration at the end of such a history is the client's first, so it reuses nothing. */
  lemma RegistrationIsFirst(events: seq<Event>)
    requires RegistersOnce(events) && events != [] && Run(events[..|events| - 1]).Running?
    ensures var init, e := events[..|events| - 1], events[|events| - 1];
            (e.Register? ==> !HasRegistered(init, e.c)) && !Reuses(Run(init).st, e)
  {
    var init, e := events[..|events| - 1], events[|events| - 1];
    RegistrationIsNew(events);
    if e.Register? {
      OnlyRegisteredAreTouched(init, e.c);
    }
  }

  // ---------- late replies ----------

  /** The client registered and has left its room since. */
  predicate Gone(events: seq<Event>, c: Client) {
    HasRegistered(events, c) && Run(events).Running? && !Joined(Run(events).st, c)
  }

  /** The hub has closed exactly the channels of the clients that are gone. */
  lemma {:induction false} ClosedIffGone(events: seq<Event>, c: Client)
    requires RegistersOnce(events) && Run(events).Running?
    ensures ChannelOf(Run(events).st, c).closed <==> Gone(events, c)
    ensures Joined(Run(events).st, c) ==> HasRegistered(events, c)
  {
    if events != [] {
      var init, e := events[..|events| - 1], events[|events| - 1];
      assert events == init + [e];
      ClosedIffGone(init, c);
      RunIsSafe(init);
      RegistrationIsFirst(events);
      OneMore(events);
      hide Run; hide RegistersOnce; hide Inv; hide Reuses;
      MembershipSteps(Run(init).st, e, c);
      ClosingSteps(Run(init).st, e, c);
    }
  }

  /** No client replies after it is gone. */
  ghost predicate RepliesInTime(events: seq<Event>) {
    events != [] ==>
      RepliesInTime(events[..|events| - 1]) &&
      (events[|events| - 1].Reply? ==> !Gone(events[..|events| - 1], events[|events| - 1].c))
  }

  /** Exactly when such a run never panics at all: when no client replies after it is gone. */
  lemma {:induction false} RunsOnIff(events: seq<Event>)
    requires RegistersOnce(events)
    ensures Run(events).Running? <==> RepliesInTime(events)
  {
    if events != [] {
      var init, e := events[..|events| - 1], events[|events| - 1];
      RunsOnIff(init);
      RunIsSafe(init);
      if Run(init).Running? {
        RegistrationIsFirst(events);
        StepIsSafe(Run(init).st, e);
        if e.Reply? {
          ClosedIffGone(init, e.c);
        }
      }
    }
  }

  /** Three events reach the panic: a client comes, goes, and answers a ping. */
  lemma LateReplyBreaks(c: Client, m: Message)
    ensures Run([Register(c), Unregister(c), Reply(c, m)]) == ReplyPanic
  {
    hide RegisterStep; hide UnregisterStep; hide BroadcastStep; hide TakeStep;
    var one, two := [Register(c)], [Register(c), Unregister(c)];
    var three := two + [Reply(c, m)];
    assert one[..0] == [] && two[..1] == one && three[..2] == two;
    assert Run(one) == Running(RegisterStep(State(map[], map[]), c));
    FirstVisit(c);
    assert Run(three) == ReplyStep(Run(two).st, c, m);
    assert three == [Register(c), Unregister(c), Reply(c, m)];
  }

  /** Registering again after removal breaks it. A registration is harmless, in that neither the client's
      removal nor a broadcast to it panics next, exactly when the client's channel is still open. */
  lemma RegistrationIsSafeIff(st: State, c: Client, m: Message)
    requires Inv(st)
    ensures var st' := RegisterStep(st, c);
            && (Step(st', Unregister(c)).Running? <==> !ChannelOf(st, c).closed)
            && (Step(st', Broadcast(c.instanceId, m)).Running? <==> !ChannelOf(st, c).closed)
            && (Step(st', Unregister(c)) == HubPanic <==> ChannelOf(st, c).closed)
  {
    var st' := RegisterStep(st, c);
    if ChannelOf(st, c).closed {
      assert c in Room(st', c.instanceId) && ChannelOf(st', c).closed;
    } else {
      StepIsSafe(st, Register(c));
      StepIsSafe(st', Unregister(c));
      StepIsSafe(st', Broadcast(c.instanceId, m));
    }
  }

  /** Four events reach the panic: a client comes, goes, comes again and goes again. */
  lemma ReuseBreaks(c: Client)
    ensures Run([Register(c), Unregister(c), Register(c), Unregister(c)]) == HubPanic
  {
    hide RegisterStep; hide UnregisterStep; hide BroadcastStep; hide TakeStep;
    var one, two, three := [Register(c)], [Register(c), Unregister(c)], [Register(c), Unregister(c), Register(c)];
    var four := three + [Unregister(c)];
    assert one[..0] == [] && two[..1] == one && three[..2] == two && four[..3] == three;
    var st := RegisterStep(State(map[], map[]), c);
    assert Run(one) == Running(st);
    assert Run(two) == UnregisterStep(st, c);
    FirstVisit(c);
    var left := UnregisterStep(st, c).st;
    assert Run(three) == Running(RegisterStep(left, c));
    RegistrationIsSafeIff(left, c, "");
    assert Run(four) == Step(RegisterStep(left, c), Unregister(c)) == HubPanic;
    assert four == [Register(c), Unregister(c), Register(c), Unregister(c)];
  }

  /** A client that came and went leaves a closed channel behind. */
  lemma FirstVisit(c: Client)
    ensures var o := UnregisterStep(RegisterStep(State(map[], map[]), c), c);
            o.Running? && Inv(o.st) && ChannelOf(o.st, c).closed
  {}

  // ---------- membership ----------

  /** Exactly what moves a client in or out of its room. */
  lemma MembershipSteps(st: State, e: Event, c: Client)
    requires Inv(st) && !Reuses(st, e) && Step(st, e).Running?
    ensures Joined(Step(st, e).st, c) <==>
              e == Register(c) ||
              (Joined(st, c) && e != Unregister(c) &&
               !(e.Broadcast? && e.instanceId == c.instanceId && |ChannelOf(st, c).buffer| == 256))
  {
    StepIsSafe(st, e);
  }

  /** A channel is closed in the very step in which its client leaves the room. */
  lemma ClosingSteps(st: State, e: Event, c: Client)
    requires Inv(st) && !Reuses(st, e) && Step(st, e).Running?
    ensures ChannelOf(Step(st, e).st, c).closed <==>
              ChannelOf(st, c).closed || (Joined(st, c) && !Joined(Step(st, e).st, c))
  {
    StepIsSafe(st, e);
  }

  // ---------- gap-free delivery ----------

  /** The messages broadcast to c's instance after c registered. */
  function Feed(events: seq<Event>, c: Client): seq<Message> {
    if events == [] then []
    else
      var init, e := events[..|events| - 1], events[|events| - 1];
      Feed(init, c) +
      (if e.Broadcast? && e.instanceId == c.instanceId && HasRegistered(init, c) then [e.m] else [])
  }

  lemma FromHubSnoc(items: seq<Item>, item: Item)
    ensures FromHubOnly(items + [item]) == FromHubOnly(items) + (if item.FromHub? then [item.m] else [])
  {
    assert (items + [item])[..|items|] == items;
  }

  lemma TakeSendsNothing(st: State, taker: Client, c: Client)
    ensures Sent(TakeStep(st, taker), c) == Sent(st, c)
  {
    var ch := ChannelOf(st, taker);
    if ch.buffer != [] {
      assert ch.taken + ch.buffer == (ch.taken + [ch.buffer[0]]) + ch.buffer[1..];
    }
  }

  lemma ReplySends(st: State, sender: Client, m: Message, c: Client)
    requires ReplyStep(st, sender, m).Running?
    ensures Sent(ReplyStep(st, sender, m).st, c) ==
            Sent(st, c) + (if sender == c && !Full(st, c) then [FromClient(m)] else [])
  {
    assert Sent(st, c) + [] == Sent(st, c);
  }

  lemma BroadcastSends(st: State, instanceId: string, m: Message, c: Client)
    requires Inv(st) && BroadcastStep(st, instanceId, m).Running?
    ensures Sent(BroadcastStep(st, instanceId, m).st, c) ==
            Sent(st, c) + (if instanceId == c.instanceId && Joined(st, c) && !Full(st, c) then [FromHub(m)] else [])
  {
    assert Sent(st, c) + [] == Sent(st, c);
    assert c in Room(st, instanceId) ==> c.instanceId == instanceId;
  }

  /** What one event adds to everything sent to c. */
  lemma SentSteps(st: State, e: Event, c: Client)
    requires Inv(st) && Step(st, e).Running?
    ensures Sent(Step(st, e).st, c) == Sent(st, c) +
              (if e.Broadcast? && e.instanceId == c.instanceId && Joined(st, c) && |ChannelOf(st, c).buffer| < 256
               then [FromHub(e.m)]
               else if e.Reply? && e.c == c && |ChannelOf(st, c).buffer| < 256 then [FromClient(e.m)] else [])
  {
    hide TakeStep; hide ReplyStep; hide BroadcastStep; hide Inv;
    assert Sent(st, c) + [] == Sent(st, c);
    match e
    case Register(_) =>
    case Unregister(_) =>
    case Take(taker) => TakeSendsNothing(st, taker, c);
    case Reply(sender, m) => ReplySends(st, sender, m, c);
    case Broadcast(instanceId, m) => BroadcastSends(st, instanceId, m, c);
  }

  /** What one event delivers to c: the message of a broadcast to a member with room in its channel. */
  lemma DeliverySteps(st: State, e: Event, c: Client)
    requires Inv(st) && !Reuses(st, e) && Step(st, e).Running?
    ensures Delivered(Step(st, e).st, c) == Delivered(st, c) +
              (if e.Broadcast? && e.instanceId == c.instanceId && Joined(st, c) && |ChannelOf(st, c).buffer| < 256
               then [e.m] else [])
  {
    SentSteps(st, e, c);
    hide Step; hide Inv; hide Reuses; hide Sent;
    if e.Broadcast? {
      FromHubSnoc(Sent(st, c), FromHub(e.m));
    } else if e.Reply? {
      FromHubSnoc(Sent(st, c), FromClient(e.m));
    }
    assert Sent(st, c) + [] == Sent(st, c);
  }

  /** Delivery has no gaps: the broadcasts that went into a client's channel, whatever replies lie between
      them, are an initial part of its feed, and all of the feed while the client is a member. A slow
      client is dropped, never skipped. */
  lemma {:induction false} DeliveryIsGapFree(events: seq<Event>, c: Client)
    requires RegistersOnce(events) && Run(events).Running?
    ensures Delivered(Run(events).st, c) <= Feed(events, c)
    ensures Joined(Run(events).st, c) ==> Delivered(Run(events).st, c) == Feed(events, c)
  {
    if events != [] {
      var init, e := events[..|events| - 1], events[|events| - 1];
      assert events == init + [e];
      DeliveryIsGapFree(init, c);
      RunIsSafe(init);
      ClosedIffGone(init, c);
      RegistrationIsFirst(events);
      OneMore(events);
      if !HasRegistered(init, c) {
        FeedBeforeRegistration(init, c);
      }
      hide Run; hide RegistersOnce; hide Inv; hide Reuses; hide Joined; hide Delivered; hide Step; hide Full;
      MembershipSteps(Run(init).st, e, c);
      DeliverySteps(Run(init).st, e, c);
    }
  }

  lemma {:induction false} FeedBeforeRegistration(events: seq<Event>, c: Client)
    requires !HasRegistered(events, c)
    ensures Feed(events, c) == []
  {
    if events != [] {
      var init, e := events[..|events| - 1], events[|events| - 1];
      assert events == init + [e];
      FeedBeforeRegistration(init, c);
    }
  }

  lemma OncePrefix(events: seq<Event>)
    requires RegistersOnce(events) && events != []
    ensures RegistersOnce(events[..|events| - 1])
  {
    var init := events[..|events| - 1];
    assert forall i | 0 <= i < |init| :: init[i] == events[i];
  }

  lemma OneMore(events: seq<Event>)
    requires events != [] && Run(events[..|events| - 1]).Running?
    ensures Run(events) == Step(Run(events[..|events| - 1]).st, events[|events| - 1])
  {}

  /** What has run on ran on before. */
  lemma RanBefore(events: seq<Event>)
    requires events != [] && Run(events).Running?
    ensures Run(events[..|events| - 1]).Running?
  {}

  /** Nothing reaches a client that has left. */
  lemma {:induction false} NothingAfterLeaving(events: seq<Event>, more: seq<Event>, c: Client)
    requires RegistersOnce(events + more) && HasRegistered(events, c)
    requires Run(events).Running? && !Joined(Run(events).st, c) && Run(events + more).Running?
    ensures !Joined(Run(events + more).st, c) && Delivered(Run(events + more).st, c) == Delivered(Run(events).st, c)
    decreases |more|
  {
    hide Run; hide Step; hide RegistersOnce; hide Reuses; hide Inv; hide Joined; hide Delivered; hide Full;
    if more == [] {
      assert events + more == events;
    } else {
      var init, e := more[..|more| - 1], more[|more| - 1];
      var all := events + more;
      assert all[..|all| - 1] == events + init && all[|all| - 1] == e;
      OncePrefix(all);
      RanBefore(all);
      NothingAfterLeaving(events, init, c);
      RunIsSafe(events + init);
      RegistrationIsFirst(all);
      OneMore(all);
      assert Register(c) in events + init;
      MembershipSteps(Run(events + init).st, e, c);
      DeliverySteps(Run(events + init).st, e, c);
    }
  }

  /** The channel after its pump has taken n messages out. */
  function AfterTakes(st: State, c: Client, n: nat): State {
    if n == 0 then st else TakeStep(AfterTakes(st, c, n - 1), c)
  }

  /** The pump takes messages out in the order they were put in, and n takes are n messages, so that as many
      takes as there are messages waiting bring everything sent to the client's peer. */
  lemma {:induction false} TakesInOrder(st: State, c: Client, n: nat)
    requires n <= |ChannelOf(st, c).buffer|
    ensures var ch := ChannelOf(st, c);
            ChannelOf(AfterTakes(st, c, n), c) == Channel(ch.buffer[n..], ch.taken + ch.buffer[..n], ch.closed)
  {
    var ch := ChannelOf(st, c);
    if n == 0 {
      assert ch.taken + ch.buffer[..0] == ch.taken;
    } else {
      TakesInOrder(st, c, n - 1);
      assert ch.buffer[n - 1..][1..] == ch.buffer[n..] && ch.buffer[n - 1..][0] == ch.buffer[n - 1];
      assert ch.buffer[..n] == ch.buffer[..n - 1] + [ch.buffer[n - 1]];
      assert ch.taken + ch.buffer[..n] == (ch.taken + ch.buffer[..n - 1]) + [ch.buffer[n - 1]];
    }
  }

  // ---------- the broadcast loop, member by member ----------

  /** The state once the members in done have been offered the message. */
  ghost function Served(st: State, instanceId: string, m: Message, done: set<Client>): State {
    State(
      if instanceId in st.clients
      then st.clients[instanceId := set c | c in st.clients[instanceId] && !(c in done && Full(st, c))] else st.clients,
      map c | c in st.channels.Keys + done :: if c in done then Offered(ChannelOf(st, c), m) else st.channels[c])
  }

  lemma ServedNone(st: State, instanceId: string, m: Message)
    ensures Served(st, instanceId, m, {}) == st
  {
    var none := Served(st, instanceId, m, {});
    assert none.channels == st.channels;
    if instanceId in st.clients {
      assert none.clients[instanceId] == st.clients[instanceId];
    }
    assert none.clients == st.clients;
  }

  /** One member more: its channel gets the message, or is closed and the member leaves. */
  lemma ServeOne(st: State, instanceId: string, m: Message, done: set<Client>, c: Client)
    requires instanceId in st.clients && c in st.clients[instanceId] && c !in done
    ensures var before, after := Served(st, instanceId, m, done), Served(st, instanceId, m, done + {c});
            && ChannelOf(before, c) == ChannelOf(st, c) && instanceId in before.clients
            && after.channels == before.channels[c := Offered(ChannelOf(st, c), m)]
            && after.clients == if Full(st, c) then before.clients[instanceId := before.clients[instanceId] - {c}]
                                else before.clients
  {
    var before, after := Served(st, instanceId, m, done), Served(st, instanceId, m, done + {c});
    hide Offered; hide Full;
    assert after.channels.Keys == before.channels.Keys + {c};
    assert after.clients[instanceId] == if Full(st, c) then before.clients[instanceId] - {c} else before.clients[instanceId];
  }

  /** When all members are served, that is the broadcast step. */
  lemma ServedAll(st: State, instanceId: string, m: Message)
    requires forall c | c in Room(st, instanceId) :: !ChannelOf(st, c).closed
    ensures BroadcastStep(st, instanceId, m) == Running(Served(st, instanceId, m, Room(st, instanceId)))
  {
    var room := Room(st, instanceId);
    hide Offered; hide Full;
    if instanceId in st.clients {
      assert (set c | c in room && !Full(st, c)) == set c | c in room && !(c in room && Full(st, c));
    } else {
      ServedNone(st, instanceId, m);
    }
  }

  lemma BroadcastPanics(st: State, instanceId: string, m: Message, c: Client)
    requires c in Room(st, instanceId) && ChannelOf(st, c).closed
    ensures BroadcastStep(st, instanceId, m) == HubPanic
  {}

  // ---------- the hub object ----------

  class Hub {
    var clients: map<string, set<Client>>
    var channels: map<Client, Channel>

    /** The hub as the steps above see it. */
    function View(): State
      reads this
    {
      State(clients, channels)
    }

    constructor ()
      ensures View() == State(map[], map[])
    {
      clients, channels := map[], map[];
    }

    method RegisterClient(c: Client)
      modifies this
      ensures View() == RegisterStep(old(View()), c)
    {
      if c.instanceId !in clients {
        clients := clients[c.instanceId := {}];
      }
      clients := clients[c.instanceId := clients[c.instanceId] + {c}];
    }

    method UnregisterClient(c: Client) returns (ok: bool)
      modifies this
      ensures ok <==> UnregisterStep(old(View()), c).Running?
      ensures ok ==> View() == UnregisterStep(old(View()), c).st
      ensures ok && old(Joined(View(), c)) ==>
                (c.instanceId !in clients <==> old(Room(View(), c.instanceId)) == {c})
    {
      if c.instanceId in clients {
        if c in clients[c.instanceId] {
          if ChannelOf(View(), c).closed {
            return false;
          }
          clients := clients[c.instanceId := clients[c.instanceId] - {c}];
          channels := channels[c := ChannelOf(View(), c).(closed := true)];
          if |clients[c.instanceId]| == 0 {
            clients := clients - {c.instanceId};
          }
        }
      }
      return true;
    }

    /** Members are visited in whatever order the room yields them. */
    method BroadcastMessage(instanceId: string, m: Message) returns (ok: bool)
      modifies this
      ensures ok <==> BroadcastStep(old(View()), instanceId, m).Running?
      ensures ok ==> View() == BroadcastStep(old(View()), instanceId, m).st
    {
      hide Served; hide BroadcastStep;
      var room := if instanceId in clients then clients[instanceId] else {};
      ghost var st := View();
      ServedNone(st, instanceId, m);
      var todo := room;
      assert room - todo == {};
      while todo != {}
        invariant todo <= room && room == Room(st, instanceId)
        invariant forall c | c in room - todo :: !ChannelOf(st, c).closed
        invariant View() == Served(st, instanceId, m, room - todo)
        decreases todo
      {
        var c :| c in todo;
        ServeOne(st, instanceId, m, room - todo, c);
        var ch := ChannelOf(View(), c);
        if ch.closed {
          BroadcastPanics(st, instanceId, m, c);
          return false;
        }
        assert room - (todo - {c}) == (room - todo) + {c};
        todo := todo - {c};
        if |ch.buffer| < CAPACITY {
          channels := channels[c := ch.(buffer := ch.buffer + [FromHub(m)])];
        } else {
          channels := channels[c := ch.(closed := true)];
          clients := clients[instanceId := clients[instanceId] - {c}];
        }
      }
      assert room - todo == room;
      ServedAll(st, instanceId, m);
      return true;
    }

    /** A client answers its peer through its own channel. */
    method SendReply(c: Client, m: Message) returns (ok: bool)
      modifies this
      ensures ok <==> ReplyStep(old(View()), c, m).Running?
      ensures ok ==> View() == ReplyStep(old(View()), c, m).st
    {
      var ch := ChannelOf(View(), c);
      if ch.closed {
        return false;
      }
      if |ch.buffer| < CAPACITY {
        channels := channels[c := ch.(buffer := ch.buffer + [FromClient(m)])];
      }
      return true;
    }

    method GetClientCount(instanceId: string) returns (n: nat)
      ensures n == |Room(View(), instanceId)|
    {
      if instanceId in clients {
        return |clients[instanceId]|;
      }
      return 0;
    }
  }
}
