/**
 The way of a broker PUBLISH through the transparent gateway to one client that may sleep: packet event queue,
 sleep queue, list of packets that wait for a REGACK, client send queue. A handler runs to its end, then the
 client's status is updated.
 */
module SleepPath {
  import opened Sequences
  import opened TopicRegistry

  const MAX_SAVED_PUBLISH := 20

  datatype Status = Free | Disconnected | TryConnecting | Connecting | Active | Asleep | Awake | Lost

  /** What a PUBLISH keeps on its whole way. */
  datatype Message = Message(dup: bool, qos: nat, retain: bool, msgId: nat, payload: seq<nat>)

  datatype Publish = Publish(msg: Message, topic: string)

  datatype TopicRef = Short(name: string) | Normal(id: nat) | Known(id: nat)

  datatype SnPublish = SnPublish(msg: Message, topic: TopicRef)

  datatype Waiting = Waiting(packet: SnPublish, msgId: nat)

  datatype ToClient =
    | SnPub(packet: SnPublish)
    | Register(id: nat, msgId: nat, name: string)
    | Connack
    | WillTopicReq
    | Pingresp
    | SnDisconnect

  datatype ToBroker = Puback(msgId: nat) | Pubrec(msgId: nat) | Pingreq | Connect | Disconnect

  datatype FromClient = SnConnect(clean: bool, will: bool) | SnPingreq | SnRegack(msgId: nat) | SnBye(duration: nat)

  /**
   An event of the packet event queue. NewTopic is what a SUBSCRIBE, a REGISTER or a PUBLISH on a predefined topic of
   this client does to its registry; Foreign is an event of another client, or one that touches nothing of this state.
   */
  datatype Event =
    | BrokerPublish(p: Publish)
    | BrokerPingresp
    | BrokerBye
    | ClientPacket(packet: FromClient)
    | NewTopic(name: string, id: nat)
    | Foreign

  datatype State = State(
    status: Status, clean: bool, topics: seq<Entry>, counter: nat, snMsgId: nat, hold: bool,
    events: seq<Event>, maxEvents: nat, sleeping: seq<Publish>, waiting: seq<Waiting>,
    toClient: seq<ToClient>, toBroker: seq<ToBroker>, offered: seq<Message>, discarded: seq<Message>)

  // ----- handlers

  /** The eight-bit counter for REGISTER skips 0. */
  function NextSnMsgId(id: nat): (next: nat)
    ensures 1 <= next <= 0xff
  {
    var n := (id + 1) % 0x100;
    if n == 0 then 1 else n
  }

  /** A full event queue deletes what is posted. */
  ghost function Post(s: State, ev: Event): State {
    if s.maxEvents != 0 && |s.events| >= s.maxEvents then
      if ev.BrokerPublish? then Discard(s, ev.p) else s
    else s.(events := s.events + [ev])
  }

  ghost function Discard(s: State, p: Publish): State {
    s.(discarded := s.discarded + [p.msg])
  }

  ghost function Send(s: State, out: ToClient): State {
    s.(toClient := s.toClient + [out])
  }

  ghost function SendBroker(s: State, out: ToBroker): State {
    s.(toBroker := s.toBroker + [out])
  }

  ghost function AckOf(p: Publish): seq<ToBroker> {
    if p.msg.qos == 1 then [Puback(p.msg.msgId)] else if p.msg.qos == 2 then [Pubrec(p.msg.msgId)] else []
  }

  ghost function Acknowledged(s: State, p: Publish): State {
    s.(toBroker := s.toBroker + AckOf(p))
  }

  ghost predicate Wanted(es: seq<Entry>, topic: string) {
    exists e :: e in es && IsFilterOf(e.name, topic)
  }

  ghost function RefTo(e: Entry): TopicRef {
    if e.kind == PREDEFINED then Known(e.id) else Normal(e.id)
  }

  /** The topic of a PUBLISH has an id, or needs none. */
  ghost predicate Resolved(es: seq<Entry>, p: Publish) {
    |p.topic| <= 2 || ByName(es, p.topic) < |es|
  }

  ghost function Resolve(es: seq<Entry>, p: Publish): SnPublish
    requires Resolved(es, p)
  {
    SnPublish(p.msg, if |p.topic| <= 2 then Short(p.topic) else RefTo(es[ByName(es, p.topic)]))
  }

  ghost function HandlePublish(s: State, p: Publish): (t: State)
    requires s.counter <= 0xffff
    ensures t.counter <= 0xffff
  {
    if s.status.Asleep? then Saved(Acknowledged(s, p), p)
    else if s.status.Active? || s.status.Awake? then Forwarded(s, p)
    else Discard(s, p)
  }

  /** The sleep queue takes a bounded number of packets. */
  ghost function Saved(s: State, p: Publish): State {
    if |s.sleeping| >= MAX_SAVED_PUBLISH then Discard(s, p) else s.(sleeping := s.sleeping + [p])
  }

  ghost function Forwarded(s: State, p: Publish): State
    requires s.counter <= 0xffff
  {
    if Resolved(s.topics, p) then Send(s, SnPub(Resolve(s.topics, p)))
    else if !Wanted(s.topics, p.topic) && s.clean then Acknowledged(Discard(s, p), p)
    else if |s.topics| >= MAX_TOPIC_PAR_CLIENT then Discard(s, p)
    else Registered(s, p)
  }

  /** A new topic id goes out in a REGISTER; the PUBLISH waits for its REGACK. */
  ghost function Registered(s: State, p: Publish): State
    requires s.counter <= 0xffff
  {
    var (es, id) := Added(s.topics, s.counter, p.topic, 0);
    var m := NextSnMsgId(s.snMsgId);
    s.(topics := es, counter := id, snMsgId := m, toClient := s.toClient + [Register(id, m, p.topic)],
       waiting := s.waiting + [Waiting(SnPublish(p.msg, Normal(id)), m)])
  }

  ghost function FindWaiting(ws: seq<Waiting>, msgId: nat): (i: nat)
    ensures i <= |ws| && (i < |ws| ==> ws[i].msgId == msgId) && forall j :: 0 <= j < i ==> ws[j].msgId != msgId
  {
    FirstIndex(ws, (w: Waiting) => w.msgId == msgId)
  }

  lemma FirstOf(ws: seq<Waiting>, msgId: nat, i: nat)
    requires i <= |ws| && (i < |ws| ==> ws[i].msgId == msgId) && forall j :: 0 <= j < i ==> ws[j].msgId != msgId
    ensures FindWaiting(ws, msgId) == i
  {
  }

  ghost function Released(s: State, msgId: nat): State {
    var i := FindWaiting(s.waiting, msgId);
    if i < |s.waiting| then Send(s, SnPub(s.waiting[i].packet)).(waiting := Without(s.waiting, i)) else s
  }

  /** The count of waiting packets has eight bits. */
  ghost function HandleRegack(s: State, msgId: nat): State {
    if s.status.Active? || s.status.Awake? then
      var t := Released(s, msgId);
      if t.hold && |t.waiting| % 0x100 == 0 then SendBroker(t, Pingreq).(hold := false) else t
    else s
  }

  /** Every stored packet goes back to the packet event queue. */
  ghost function SendStored(s: State): (t: State)
    ensures (t.topics, t.counter) == (s.topics, s.counter)
    decreases |s.sleeping|
  {
    if s.sleeping == [] then s
    else SendStored(Post(s, BrokerPublish(s.sleeping[0])).(sleeping := s.sleeping[1..]))
  }

  ghost function HandlePingreq(s: State): State {
    if (s.status.Asleep? || s.status.Awake?) && s.sleeping != [] then SendStored(s).(hold := true)
    else SendBroker(s, Pingreq).(hold := false)
  }

  ghost function HandleConnect(s: State, clean: bool, will: bool): State {
    if s.status.Asleep? || s.status.Awake? then SendStored(Send(s, Connack))
    else
      var t := s.(status := Disconnected, clean := clean, topics := if clean then Predefined(s.topics) else s.topics);
      if will then Send(t, WillTopicReq) else SendBroker(t, Connect)
  }

  ghost function HandleBye(s: State, duration: nat): State {
    Send(if duration == 0 then SendBroker(s, Disconnect) else s, SnDisconnect)
  }

  ghost function UpdatedStatus(st: Status, packet: FromClient): Status {
    if st.Active? then
      match packet
      case SnBye(d) => if d != 0 then Asleep else Disconnected
      case _ => st
    else if st.Awake? || st.Asleep? then
      match packet
      case SnConnect(_, _) => Active
      case SnBye(_) => Disconnected
      case SnPingreq => Awake
      case _ => st
    else st
  }

  ghost function HandlePacket(s: State, packet: FromClient): State {
    match packet
    case SnConnect(clean, will) => HandleConnect(s, clean, will)
    case SnPingreq => HandlePingreq(s)
    case SnRegack(m) => HandleRegack(s, m)
    case SnBye(d) => HandleBye(s, d)
  }

  ghost function TopicAdded(s: State, name: string, id: nat): (t: State)
    requires s.counter <= 0xffff
    ensures t.counter <= 0xffff
  {
    var (es, counter) := Added(s.topics, s.counter, name, id);
    s.(topics := es, counter := counter)
  }

  ghost function HandleEvent(s: State, ev: Event): (t: State)
    requires s.counter <= 0xffff
    ensures t.counter <= 0xffff
  {
    match ev
    case BrokerPublish(p) => HandlePublish(s, p)
    case BrokerPingresp =>
      Send(s, Pingresp).(status := if s.status.Awake? || s.status.Asleep? then Asleep else s.status)
    case BrokerBye => s.(status := Disconnected)
    case ClientPacket(packet) => var t := HandlePacket(s, packet); t.(status := UpdatedStatus(t.status, packet))
    case NewTopic(name, id) => TopicAdded(s, name, id)
    case Foreign => s
  }

  // ----- runs

  /** A task posts an event, the packet task handles the front one, another task sets the status. */
  datatype Action = Offer(ev: Event) | Handle | SetStatus(st: Status)

  ghost function Step(s: State, a: Action): (t: State)
    requires s.counter <= 0xffff
    ensures t.counter <= 0xffff
  {
    match a
    case Offer(ev) => Post(if ev.BrokerPublish? then s.(offered := s.offered + [ev.p.msg]) else s, ev)
    case Handle => if s.events == [] then s else HandleEvent(s.(events := s.events[1..]), s.events[0])
    case SetStatus(st) => s.(status := st)
  }

  // ----- conservation

  /** The messages in a list of items. */
  ghost function Bag<T>(items: seq<T>, f: T -> multiset<Message>): multiset<Message> {
    if items == [] then multiset{} else f(items[0]) + Bag(items[1..], f)
  }

  ghost function InEvent(ev: Event): multiset<Message> {
    if ev.BrokerPublish? then multiset{ev.p.msg} else multiset{}
  }

  ghost function InOutput(out: ToClient): multiset<Message> {
    if out.SnPub? then multiset{out.packet.msg} else multiset{}
  }

  ghost function InPublish(p: Publish): multiset<Message> {
    multiset{p.msg}
  }

  ghost function InWaiting(w: Waiting): multiset<Message> {
    multiset{w.packet.msg}
  }

  lemma {:induction false} BagAppend<T>(xs: seq<T>, ys: seq<T>, f: T -> multiset<Message>)
    ensures Bag(xs + ys, f) == Bag(xs, f) + Bag(ys, f)
  {
    if xs == [] {
      assert xs + ys == ys;
    } else {
      BagAppend(xs[1..], ys, f);
      assert (xs + ys)[1..] == xs[1..] + ys;
    }
  }

  lemma BagSnoc<T>(xs: seq<T>, x: T, f: T -> multiset<Message>)
    ensures Bag(xs + [x], f) == Bag(xs, f) + f(x)
  {
    BagAppend(xs, [x], f);
  }

  lemma BagWithout<T>(xs: seq<T>, k: nat, f: T -> multiset<Message>)
    requires k < |xs|
    ensures Bag(xs, f) == Bag(Without(xs, k), f) + f(xs[k])
  {
    var front, back := xs[..k], xs[k + 1..];
    assert xs == front + ([xs[k]] + back);
    BagAppend(front, [xs[k]] + back, f);
    BagAppend(front, back, f);
    assert ([xs[k]] + back)[1..] == back;
  }

  /** How often a message stands in one of its places. */
  ghost function Held(s: State, m: Message): nat {
    Bag(s.events, InEvent)[m] + Bag(s.sleeping, InPublish)[m] + Bag(s.waiting, InWaiting)[m]
    + Bag(s.toClient, InOutput)[m]
    + multiset(s.discarded)[m]
  }

  ghost predicate Conserved(s: State) {
    forall m :: multiset(s.offered)[m] == Held(s, m)
  }

  lemma SendHeld(s: State, out: ToClient, m: Message)
    ensures Held(Send(s, out), m) == Held(s, m) + InOutput(out)[m]
  {
    BagSnoc(s.toClient, out, InOutput);
  }

  lemma DiscardHeld(s: State, p: Publish, m: Message)
    ensures Held(Discard(s, p), m) == Held(s, m) + InPublish(p)[m]
  {
  }

  lemma PostHeld(s: State, ev: Event, m: Message)
    ensures Held(Post(s, ev), m) == Held(s, m) + InEvent(ev)[m]
  {
    BagSnoc(s.events, ev, InEvent);
    if ev.BrokerPublish? {
      DiscardHeld(s, ev.p, m);
    }
  }

  lemma StoreHeld(s: State, p: Publish, m: Message)
    ensures Held(s.(sleeping := s.sleeping + [p]), m) == Held(s, m) + InPublish(p)[m]
  {
    BagSnoc(s.sleeping, p, InPublish);
  }

  lemma RegisteredHeld(s: State, p: Publish, m: Message)
    requires s.counter <= 0xffff
    ensures Held(Registered(s, p), m) == Held(s, m) + InPublish(p)[m]
  {
    var t := Registered(s, p);
    BagSnoc(s.toClient, t.toClient[|s.toClient|], InOutput);
    BagSnoc(s.waiting, t.waiting[|s.waiting|], InWaiting);
  }

  lemma SavedHeld(s: State, p: Publish, m: Message)
    ensures Held(Saved(Acknowledged(s, p), p), m) == Held(s, m) + InPublish(p)[m]
  {
    var t := Acknowledged(s, p);
    assert Held(t, m) == Held(s, m);
    StoreHeld(t, p, m);
    DiscardHeld(t, p, m);
  }

  lemma ForwardedHeld(s: State, p: Publish, m: Message)
    requires s.counter <= 0xffff
    ensures Held(Forwarded(s, p), m) == Held(s, m) + InPublish(p)[m]
  {
    if Resolved(s.topics, p) {
      SendHeld(s, SnPub(Resolve(s.topics, p)), m);
    } else {
      DiscardHeld(s, p, m);
      RegisteredHeld(s, p, m);
      assert Held(Acknowledged(Discard(s, p), p), m) == Held(Discard(s, p), m);
    }
  }

  /** Every branch of the handler puts the PUBLISH in exactly one place. */
  lemma PublishHeld(s: State, p: Publish, m: Message)
    requires s.counter <= 0xffff
    ensures Held(HandlePublish(s, p), m) == Held(s, m) + InPublish(p)[m]
  {
    SavedHeld(s, p, m);
    ForwardedHeld(s, p, m);
    DiscardHeld(s, p, m);
  }

  lemma ReleasedHeld(s: State, msgId: nat, m: Message)
    ensures Held(Released(s, msgId), m) == Held(s, m)
  {
    var i := FindWaiting(s.waiting, msgId);
    if i < |s.waiting| {
      SendHeld(s, SnPub(s.waiting[i].packet), m);
      BagWithout(s.waiting, i, InWaiting);
    }
  }

  lemma {:induction false} StoredHeld(s: State, m: Message)
    ensures Held(SendStored(s), m) == Held(s, m)
    decreases |s.sleeping|
  {
    if s.sleeping != [] {
      var t := Post(s, BrokerPublish(s.sleeping[0]));
      PostHeld(s, BrokerPublish(s.sleeping[0]), m);
      StoredHeld(t.(sleeping := s.sleeping[1..]), m);
    }
  }

  lemma ConnectHeld(s: State, clean: bool, will: bool, m: Message)
    ensures Held(HandleConnect(s, clean, will), m) == Held(s, m)
  {
    if s.status.Asleep? || s.status.Awake? {
      SendHeld(s, Connack, m);
      StoredHeld(Send(s, Connack), m);
    } else {
      var t := s.(status := Disconnected, clean := clean, topics := if clean then Predefined(s.topics) else s.topics);
      SendHeld(t, WillTopicReq, m);
      assert Held(t, m) == Held(s, m) == Held(SendBroker(t, Connect), m);
    }
  }

  lemma PingreqHeld(s: State, m: Message)
    ensures Held(HandlePingreq(s), m) == Held(s, m)
  {
    StoredHeld(s, m);
  }

  lemma RegackHeld(s: State, msgId: nat, m: Message)
    ensures Held(HandleRegack(s, msgId), m) == Held(s, m)
  {
    ReleasedHeld(s, msgId, m);
  }

  lemma PacketHeld(s: State, packet: FromClient, m: Message)
    ensures Held(HandlePacket(s, packet), m) == Held(s, m)
  {
    match packet
    case SnConnect(clean, will) => ConnectHeld(s, clean, will, m);
    case SnPingreq => PingreqHeld(s, m);
    case SnRegack(id) => RegackHeld(s, id, m);
    case SnBye(d) => SendHeld(if d == 0 then SendBroker(s, Disconnect) else s, SnDisconnect, m);
  }

  lemma EventHeld(s: State, ev: Event, m: Message)
    requires s.counter <= 0xffff
    ensures Held(HandleEvent(s, ev), m) == Held(s, m) + InEvent(ev)[m]
  {
    match ev
    case BrokerPublish(p) => PublishHeld(s, p, m);
    case BrokerPingresp => SendHeld(s, Pingresp, m);
    case ClientPacket(packet) =>
      PacketHeld(s, packet, m);
    case _ =>
  }

  lemma StepHeld(s: State, a: Action, m: Message)
    requires s.counter <= 0xffff
    ensures Held(Step(s, a), m) == Held(s, m) + if a.Offer? then InEvent(a.ev)[m] else 0
  {
    match a
    case Offer(ev) => PostHeld(if ev.BrokerPublish? then s.(offered := s.offered + [ev.p.msg]) else s, ev, m);
    case SetStatus(_) =>
    case Handle =>
      if s.events != [] {
        var t, ev := s.(events := s.events[1..]), s.events[0];
        EventHeld(t, ev, m);
      }
  }

  // ----- what every run keeps

  lemma {:induction false} StoredBounds(s: State)
    ensures var t := SendStored(s);
            && t.sleeping == [] && t.offered == s.offered && t.maxEvents == s.maxEvents
            && (s.maxEvents != 0 && |s.events| <= s.maxEvents ==> |t.events| <= t.maxEvents)
    decreases |s.sleeping|
  {
    if s.sleeping != [] {
      StoredBounds(Post(s, BrokerPublish(s.sleeping[0])).(sleeping := s.sleeping[1..]));
    }
  }

  ghost predicate Bounds(s: State) {
    |s.sleeping| <= MAX_SAVED_PUBLISH && (s.maxEvents != 0 ==> |s.events| <= s.maxEvents)
  }

  lemma PacketBounds(s: State, packet: FromClient)
    requires Bounds(s)
    ensures Bounds(HandlePacket(s, packet)) && HandlePacket(s, packet).offered == s.offered
  {
    match packet
    case SnConnect(_, _) => StoredBounds(Send(s, Connack));
    case SnPingreq => StoredBounds(s);
    case _ =>
  }

  lemma PublishBounds(s: State, p: Publish)
    requires Bounds(s) && s.counter <= 0xffff
    ensures Bounds(HandlePublish(s, p)) && HandlePublish(s, p).offered == s.offered
  {
  }

  lemma EventBounds(s: State, ev: Event)
    requires Bounds(s) && s.counter <= 0xffff
    ensures Bounds(HandleEvent(s, ev)) && HandleEvent(s, ev).offered == s.offered
  {
    match ev
    case BrokerPublish(p) => PublishBounds(s, p);
    case ClientPacket(packet) => PacketBounds(s, packet);
    case _ =>
  }

  lemma StepBounds(s: State, a: Action)
    requires Bounds(s) && s.counter <= 0xffff
    ensures Bounds(Step(s, a))
    ensures Step(s, a).offered == s.offered + if a.Offer? && a.ev.BrokerPublish? then [a.ev.p.msg] else []
  {
    if a.Handle? && s.events != [] {
      EventBounds(s.(events := s.events[1..]), s.events[0]);
    }
  }

  lemma PublishTopics(s: State, p: Publish)
    requires s.counter <= 0xffff
    ensures var t := HandlePublish(s, p);
            || (t.topics, t.counter) == (s.topics, s.counter)
            || (t.topics, t.counter) == Added(s.topics, s.counter, p.topic, 0)
  {
    if s.status.Asleep? {
      assert HandlePublish(s, p).topics == s.topics;
    }
  }

  lemma PacketTopics(s: State, packet: FromClient)
    ensures var t := HandlePacket(s, packet);
            t.counter == s.counter && (t.topics == s.topics || t.topics == Predefined(s.topics))
  {
  }

  lemma StepRegular(s: State, a: Action)
    requires Regular(s.topics, s.counter)
    ensures Regular(Step(s, a).topics, Step(s, a).counter)
  {
    if a.Handle? && s.events != [] {
      var u := s.(events := s.events[1..]);
      match s.events[0] {
        case BrokerPublish(p) =>
          PublishTopics(u, p);
          AddedRegular(u.topics, u.counter, p.topic, 0);
        case ClientPacket(packet) =>
          PacketTopics(u, packet);
          ErasedRegular(u.topics, u.counter);
        case NewTopic(name, id) => AddedRegular(u.topics, u.counter, name, id);
        case _ =>
      }
    }
  }

  ghost predicate Invariant(s: State) {
    Regular(s.topics, s.counter) && Bounds(s) && Conserved(s)
  }

  lemma StepConserved(s: State, a: Action)
    requires Bounds(s) && Conserved(s) && s.counter <= 0xffff
    ensures Conserved(Step(s, a))
  {
    StepBounds(s, a);
    forall m ensures multiset(Step(s, a).offered)[m] == Held(Step(s, a), m) {
      StepHeld(s, a, m);
    }
  }

  ghost function Run(s: State, acts: seq<Action>): (t: State)
    requires s.counter <= 0xffff
    ensures t.counter <= 0xffff
    decreases |acts|
  {
    if acts == [] then s else Run(Step(s, acts[0]), acts[1..])
  }

  /**
   Over every run each broker PUBLISH is in exactly one place: the event queue, the sleep queue, the REGACK list, the
   client send queue or the ledger of discarded packets.
   */
  lemma {:induction false} EveryRun(s: State, acts: seq<Action>)
    requires Invariant(s)
    ensures var t := Run(s, acts);
            && multiset(t.offered) == Bag(t.events, InEvent) + Bag(t.sleeping, InPublish) + Bag(t.waiting, InWaiting)
                                      + Bag(t.toClient, InOutput) + multiset(t.discarded)
            && |t.sleeping| <= MAX_SAVED_PUBLISH && Regular(t.topics, t.counter)
    decreases |acts|
  {
    if acts == [] {
      PlacesOfAll(s);
    } else {
      StepBounds(s, acts[0]);
      StepRegular(s, acts[0]);
      StepConserved(s, acts[0]);
      EveryRun(Step(s, acts[0]), acts[1..]);
    }
  }

  lemma PlacesOfAll(s: State)
    requires Conserved(s)
    ensures multiset(s.offered) == Bag(s.events, InEvent) + Bag(s.sleeping, InPublish) + Bag(s.waiting, InWaiting)
                                   + Bag(s.toClient, InOutput) + multiset(s.discarded)
  {
    forall m ensures multiset(s.offered)[m] == Held(s, m) {
    }
  }
}
