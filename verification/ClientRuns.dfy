/**
 What the client's path keeps over whole runs: a sleeping client is left alone, a held PINGREQ goes out at one kind of
 moment only, and a PUBLISH that waits for a REGACK goes out with it and not before.
 */
module ClientRuns {
  import opened Sequences
  import opened SleepPath
  import opened TopicRegistry

  /** The event that a step handles. */
  ghost predicate Handles(s: State, a: Action, ev: Event) {
    a.Handle? && s.events != [] && s.events[0] == ev
  }

  ghost function Pubs(out: seq<ToClient>): seq<SnPublish> {
    if out == [] then []
    else
      var last := out[|out| - 1];
      Pubs(out[..|out| - 1]) + if last.SnPub? then [last.packet] else []
  }

  lemma PubsSnoc(out: seq<ToClient>, x: ToClient)
    ensures Pubs(out + [x]) == Pubs(out) + if x.SnPub? then [x.packet] else []
  {
    assert (out + [x])[..|out|] == out;
  }

  // ----- asleep

  /** CONNECT, PINGREQ or DISCONNECT of the client, a DISCONNECT of the broker, or another task that sets the status. */
  ghost predicate EndsSleep(s: State, a: Action) {
    || (a.SetStatus? && !a.st.Asleep?)
    || (a.Handle? && s.events != []
        && match s.events[0]
           case ClientPacket(packet) => !packet.SnRegack?
           case BrokerBye => true
           case _ => false)
  }

  /** A client stops being asleep exactly then. */
  lemma AsleepUntil(s: State, a: Action)
    requires s.counter <= 0xffff && s.status.Asleep?
    ensures Step(s, a).status.Asleep? <==> !EndsSleep(s, a)
  {
  }

  /** It falls asleep exactly by a DISCONNECT with a duration, by the PINGRESP after a wake-up, or by another task. */
  lemma AsleepFrom(s: State, a: Action)
    requires s.counter <= 0xffff && !s.status.Asleep?
    ensures Step(s, a).status.Asleep? <==>
            || (a.SetStatus? && a.st.Asleep?)
            || (a.Handle? && s.events != [] && FallsAsleep(s.status, s.events[0]))
  {
    if a.Handle? && s.events != [] {
      AsleepFromEvent(s.(events := s.events[1..]), s.events[0]);
    }
  }

  ghost predicate FallsAsleep(st: Status, ev: Event) {
    || (st.Awake? && ev.BrokerPingresp?)
    || (st.Active? && ev.ClientPacket? && ev.packet.SnBye? && ev.packet.duration != 0)
  }

  lemma AsleepFromEvent(s: State, ev: Event)
    requires s.counter <= 0xffff && !s.status.Asleep?
    ensures HandleEvent(s, ev).status.Asleep? <==> FallsAsleep(s.status, ev)
  {
    match ev
    case BrokerPublish(p) => PublishPings(s, p);
    case ClientPacket(packet) => PacketStatus(s, packet);
    case _ =>
  }

  /** The handlers leave the status to the update behind them, but for a CONNECT that starts a session. */
  lemma PacketStatus(s: State, packet: FromClient)
    ensures HandlePacket(s, packet).status ==
            if packet.SnConnect? && !s.status.Asleep? && !s.status.Awake? then Disconnected else s.status
  {
    match packet
    case SnConnect(_, _) => StoredStatus(Send(s, Connack));
    case SnPingreq => StoredStatus(s);
    case _ =>
  }

  lemma {:induction false} StoredStatus(s: State)
    ensures SendStored(s).status == s.status
    decreases |s.sleeping|
  {
    if s.sleeping != [] {
      StoredStatus(Post(s, BrokerPublish(s.sleeping[0])).(sleeping := s.sleeping[1..]));
    }
  }

  /**
   Nothing is sent to it meanwhile: what the sleep queue holds stays at its front, and the REGACK list stands still.
   */
  lemma AsleepStep(s: State, a: Action)
    requires s.counter <= 0xffff && s.status.Asleep? && !EndsSleep(s, a)
    ensures var t := Step(s, a);
            Pubs(t.toClient) == Pubs(s.toClient) && t.waiting == s.waiting && s.sleeping <= t.sleeping
  {
    if a.Handle? && s.events != [] {
      AsleepEvent(s.(events := s.events[1..]), s.events[0]);
    }
  }

  lemma AsleepEvent(s: State, ev: Event)
    requires s.counter <= 0xffff && s.status.Asleep? && (ev.ClientPacket? ==> ev.packet.SnRegack?)
    ensures var t := HandleEvent(s, ev);
            Pubs(t.toClient) == Pubs(s.toClient) && t.waiting == s.waiting && s.sleeping <= t.sleeping
  {
    match ev
    case BrokerPublish(p) => assert HandlePublish(s, p) == Saved(Acknowledged(s, p), p);
    case BrokerPingresp => PubsSnoc(s.toClient, Pingresp);
    case _ =>
  }

  ghost predicate SleepEnds(s: State, acts: seq<Action>)
    requires s.counter <= 0xffff
    decreases |acts|
  {
    acts != [] && (EndsSleep(s, acts[0]) || SleepEnds(Step(s, acts[0]), acts[1..]))
  }

  /** Over every run in which the sleep does not end. */
  lemma {:induction false} AsleepOverRun(s: State, acts: seq<Action>)
    requires s.counter <= 0xffff && s.status.Asleep? && !SleepEnds(s, acts)
    ensures var t := Run(s, acts);
            && t.status.Asleep? && Pubs(t.toClient) == Pubs(s.toClient)
            && t.waiting == s.waiting && s.sleeping <= t.sleeping
    decreases |acts|
  {
    if acts != [] {
      AsleepUntil(s, acts[0]);
      AsleepStep(s, acts[0]);
      AsleepOverRun(Step(s, acts[0]), acts[1..]);
    }
  }

  // ----- the held PINGREQ

  ghost function Pings(s: State): nat {
    multiset(s.toBroker)[Pingreq]
  }

  /** A PINGREQ of the client drains the sleep queue and is held. */
  ghost predicate Drains(s: State, a: Action) {
    Handles(s, a, ClientPacket(SnPingreq)) && (s.status.Asleep? || s.status.Awake?) && s.sleeping != []
  }

  /** A REGACK after which the eight-bit count of waiting packets is 0. */
  ghost predicate LastRegack(s: State, a: Action) {
    && a.Handle? && s.events != [] && s.events[0].ClientPacket? && s.events[0].packet.SnRegack?
    && (s.status.Active? || s.status.Awake?)
    && |Released(s, s.events[0].packet.msgId).waiting| % 0x100 == 0
  }

  lemma {:induction false} StoredPings(s: State)
    ensures SendStored(s).toBroker == s.toBroker && SendStored(s).hold == s.hold
    decreases |s.sleeping|
  {
    if s.sleeping != [] {
      StoredPings(Post(s, BrokerPublish(s.sleeping[0])).(sleeping := s.sleeping[1..]));
    }
  }

  lemma PublishPings(s: State, p: Publish)
    requires s.counter <= 0xffff
    ensures Pings(HandlePublish(s, p)) == Pings(s)
            && (HandlePublish(s, p).hold, HandlePublish(s, p).status) == (s.hold, s.status)
  {
    assert multiset(s.toBroker + AckOf(p)) == multiset(s.toBroker) + multiset(AckOf(p));
  }

  lemma PacketPings(s: State, packet: FromClient)
    requires !packet.SnPingreq?
    ensures var fires := packet.SnRegack? && s.hold && (s.status.Active? || s.status.Awake?)
                         && |Released(s, packet.msgId).waiting| % 0x100 == 0;
            && Pings(HandlePacket(s, packet)) == Pings(s) + (if fires then 1 else 0)
            && HandlePacket(s, packet).hold == (s.hold && !fires)
  {
    StoredPings(Send(s, Connack));
  }

  /** Exactly when a step sends a PINGREQ to the broker, and when one is held. */
  lemma PingStep(s: State, a: Action)
    requires s.counter <= 0xffff
    ensures var t, asked := Step(s, a), Handles(s, a, ClientPacket(SnPingreq));
            && Pings(t) == Pings(s) + (if (asked && !Drains(s, a)) || (s.hold && LastRegack(s, a)) then 1 else 0)
            && t.hold == (Drains(s, a) || (s.hold && !asked && !LastRegack(s, a)))
  {
    if a.Handle? && s.events != [] {
      PingEvent(s.(events := s.events[1..]), s.events[0]);
    }
  }

  lemma PingEvent(s: State, ev: Event)
    requires s.counter <= 0xffff
    ensures var t, asked := HandleEvent(s, ev), ev == ClientPacket(SnPingreq);
            var drains := asked && (s.status.Asleep? || s.status.Awake?) && s.sleeping != [];
            var last := ev.ClientPacket? && ev.packet.SnRegack? && (s.status.Active? || s.status.Awake?)
                        && |Released(s, ev.packet.msgId).waiting| % 0x100 == 0;
            && Pings(t) == Pings(s) + (if (asked && !drains) || (s.hold && last) then 1 else 0)
            && t.hold == (drains || (s.hold && !asked && !last))
  {
    match ev
    case BrokerPublish(p) => PublishPings(s, p);
    case ClientPacket(packet) =>
      if packet.SnPingreq? {
        StoredPings(s);
      } else {
        PacketPings(s, packet);
      }
    case _ =>
  }

  ghost predicate AskedIn(s: State, acts: seq<Action>)
    requires s.counter <= 0xffff
    decreases |acts|
  {
    acts != [] && (Handles(s, acts[0], ClientPacket(SnPingreq)) || AskedIn(Step(s, acts[0]), acts[1..]))
  }

  ghost predicate LastRegackIn(s: State, acts: seq<Action>)
    requires s.counter <= 0xffff
    decreases |acts|
  {
    acts != [] && (LastRegack(s, acts[0]) || LastRegackIn(Step(s, acts[0]), acts[1..]))
  }

  /**
   Over every run in which the client does not ask again, a held PINGREQ is sent, once, if and only if some REGACK
   leaves the count of waiting packets at 0; otherwise it is still held. Where none is held none is sent.
   */
  lemma {:induction false} HeldPingreq(s: State, acts: seq<Action>)
    requires s.counter <= 0xffff && !AskedIn(s, acts)
    ensures var t := Run(s, acts);
            && Pings(t) == Pings(s) + (if s.hold && LastRegackIn(s, acts) then 1 else 0)
            && t.hold == (s.hold && !LastRegackIn(s, acts))
    decreases |acts|
  {
    if acts != [] {
      PingStep(s, acts[0]);
      HeldPingreq(Step(s, acts[0]), acts[1..]);
    }
  }

  // ----- packets that wait under one message id

  /** The packets that wait under a message id, oldest first. */
  ghost function Under(ws: seq<Waiting>, msgId: nat): seq<Waiting> {
    if ws == [] then [] else (if ws[0].msgId == msgId then [ws[0]] else []) + Under(ws[1..], msgId)
  }

  lemma {:induction false} UnderAppend(xs: seq<Waiting>, ys: seq<Waiting>, msgId: nat)
    ensures Under(xs + ys, msgId) == Under(xs, msgId) + Under(ys, msgId)
  {
    if xs == [] {
      assert xs + ys == ys;
    } else {
      UnderAppend(xs[1..], ys, msgId);
      var zs := xs + ys;
      assert zs[0] == xs[0] && zs[1..] == xs[1..] + ys;
      var head := if xs[0].msgId == msgId then [xs[0]] else [];
      Joined(head, Under(xs[1..], msgId), Under(ys, msgId), Under(zs[1..], msgId));
    }
  }

  lemma {:induction false} UnderNone(ws: seq<Waiting>, msgId: nat)
    ensures Under(ws, msgId) == [] <==> forall i :: 0 <= i < |ws| ==> ws[i].msgId != msgId
  {
    if ws != [] {
      UnderNone(ws[1..], msgId);
      assert forall i :: 1 <= i < |ws| ==> ws[i] == ws[1..][i - 1];
    }
  }

  lemma UnderSplit(ws: seq<Waiting>, k: nat, msgId: nat)
    requires k < |ws|
    ensures Under(ws, msgId) == Under(ws[..k], msgId) + Under([ws[k]], msgId) + Under(ws[k + 1..], msgId)
    ensures Under(Without(ws, k), msgId) == Under(ws[..k], msgId) + Under(ws[k + 1..], msgId)
  {
    assert ws == ws[..k] + [ws[k]] + ws[k + 1..];
    UnderAppend(ws[..k] + [ws[k]], ws[k + 1..], msgId);
    UnderAppend(ws[..k], [ws[k]], msgId);
    UnderAppend(ws[..k], ws[k + 1..], msgId);
  }

  /** Taking the first packet under its id off the list leaves those under other ids alone. */
  lemma UnderWithout(ws: seq<Waiting>, k: nat, msgId: nat)
    requires k < |ws| && k == FindWaiting(ws, ws[k].msgId)
    ensures Under(ws, msgId) == (if msgId == ws[k].msgId then [ws[k]] else []) + Under(Without(ws, k), msgId)
  {
    UnderSplit(ws, k, msgId);
    if msgId == ws[k].msgId {
      UnderNone(ws[..k], msgId);
    }
  }

  /** The first packet under a message id, found by scanning. */
  lemma UnderFirst(ws: seq<Waiting>, msgId: nat)
    ensures var k, q := FindWaiting(ws, msgId), Under(ws, msgId);
            if k < |ws| then q != [] && q[0] == ws[k] && Under(Without(ws, k), msgId) == q[1..] else q == []
  {
    var k := FindWaiting(ws, msgId);
    if k < |ws| {
      UnderWithout(ws, k, msgId);
    } else {
      UnderNone(ws, msgId);
    }
  }

  /** The REGACK with a message id is handled while the client is active or awake. */
  ghost predicate Releases(s: State, a: Action, msgId: nat) {
    Handles(s, a, ClientPacket(SnRegack(msgId))) && (s.status.Active? || s.status.Awake?)
  }

  /** How many such REGACKs are handled in a run. */
  ghost function ReleaseCount(s: State, acts: seq<Action>, msgId: nat): nat
    requires s.counter <= 0xffff
    decreases |acts|
  {
    if acts == [] then 0
    else (if Releases(s, acts[0], msgId) then 1 else 0) + ReleaseCount(Step(s, acts[0]), acts[1..], msgId)
  }

  lemma OthersReleased(s: State, msgId: nat, other: nat)
    requires msgId != other
    ensures Under(Released(s, other).waiting, msgId) == Under(s.waiting, msgId)
  {
    var k := FindWaiting(s.waiting, other);
    if k < |s.waiting| {
      UnderWithout(s.waiting, k, msgId);
    }
  }

  lemma {:induction false} StoredWaiting(s: State)
    ensures SendStored(s).waiting == s.waiting
    decreases |s.sleeping|
  {
    if s.sleeping != [] {
      StoredWaiting(Post(s, BrokerPublish(s.sleeping[0])).(sleeping := s.sleeping[1..]));
    }
  }

  lemma PublishWaits(s: State, p: Publish)
    requires s.counter <= 0xffff
    ensures s.waiting <= HandlePublish(s, p).waiting
  {
  }

  lemma UnderLonger(ws: seq<Waiting>, ws': seq<Waiting>, msgId: nat)
    requires ws <= ws'
    ensures Under(ws, msgId) <= Under(ws', msgId)
  {
    assert ws' == ws + ws'[|ws|..];
    UnderAppend(ws, ws'[|ws|..], msgId);
  }

  lemma PacketWaits(s: State, packet: FromClient, msgId: nat)
    requires packet == SnRegack(msgId) ==> !s.status.Active? && !s.status.Awake?
    ensures Under(HandlePacket(s, packet).waiting, msgId) == Under(s.waiting, msgId)
  {
    match packet
    case SnConnect(_, _) => StoredWaiting(Send(s, Connack));
    case SnPingreq => StoredWaiting(s);
    case SnRegack(m) =>
      if m != msgId {
        OthersReleased(s, msgId, m);
      }
    case SnBye(_) =>
  }

  /** A step that does not release under a message id takes nothing away there. */
  lemma NotReleased(s: State, a: Action, msgId: nat)
    requires s.counter <= 0xffff && !Releases(s, a, msgId)
    ensures Under(s.waiting, msgId) <= Under(Step(s, a).waiting, msgId)
  {
    if a.Handle? && s.events != [] {
      var u := s.(events := s.events[1..]);
      match s.events[0] {
        case BrokerPublish(p) =>
          PublishWaits(u, p);
          UnderLonger(u.waiting, HandlePublish(u, p).waiting, msgId);
        case ClientPacket(packet) => PacketWaits(u, packet, msgId);
        case _ =>
      }
    }
  }

  /** One that does sends the oldest packet there. */
  lemma ReleasesOldest(s: State, a: Action, msgId: nat)
    requires s.counter <= 0xffff && Releases(s, a, msgId)
    ensures var q, t := Under(s.waiting, msgId), Step(s, a);
            && Under(t.waiting, msgId) == (if q == [] then [] else q[1..])
            && Pubs(t.toClient) == Pubs(s.toClient) + (if q == [] then [] else [q[0].packet])
  {
    var k := FindWaiting(s.waiting, msgId);
    UnderFirst(s.waiting, msgId);
    if k < |s.waiting| {
      PubsSnoc(s.toClient, SnPub(s.waiting[k].packet));
    }
  }

  /**
   Over every run the packets under one message id form a queue: each REGACK takes the oldest, nothing else takes any.
   */
  lemma {:induction false} SameIdQueue(s: State, acts: seq<Action>, msgId: nat)
    requires s.counter <= 0xffff && ReleaseCount(s, acts, msgId) <= |Under(s.waiting, msgId)|
    ensures Under(s.waiting, msgId)[ReleaseCount(s, acts, msgId)..] <= Under(Run(s, acts).waiting, msgId)
    decreases |acts|
  {
    if acts != [] {
      var n := ReleaseCount(s, acts, msgId);
      var q, q' := Under(s.waiting, msgId), Under(Step(s, acts[0]).waiting, msgId);
      if Releases(s, acts[0], msgId) {
        ReleasesOldest(s, acts[0], msgId);
        assert q[n..] == q'[n - 1..];
      } else {
        NotReleased(s, acts[0], msgId);
        assert q[n..] <= q'[n..];
      }
      SameIdQueue(Step(s, acts[0]), acts[1..], msgId);
    }
  }

  lemma AddedFound(es: seq<Entry>, counter: nat, name: string)
    requires counter <= 0xffff && ByName(es, name) == |es| < MAX_TOPIC_PAR_CLIENT
    ensures var (es', id) := Added(es, counter, name, 0);
            ByName(es', name) == |es| && es' == es + [Entry(NORMAL, id, name)] && id == NextId(counter)
  {
    var es' := es + [Entry(NORMAL, NextId(counter), name)];
    assert es'[|es|].name == name;
    assert forall i :: 0 <= i < |es| ==> es'[i] == es[i];
  }

  /** A PUBLISH on a topic without an id, which gets one. */
  ghost predicate NeedsRegister(s: State, p: Publish) {
    && (s.status.Active? || s.status.Awake?) && s.counter <= 0xffff
    && !Resolved(s.topics, p) && (Wanted(s.topics, p.topic) || !s.clean) && |s.topics| < MAX_TOPIC_PAR_CLIENT
  }

  /** What then waits for the REGACK. */
  ghost function Parked(s: State, p: Publish): Waiting
    requires s.counter <= 0xffff
  {
    Waiting(SnPublish(p.msg, Normal(NextId(s.counter))), NextSnMsgId(s.snMsgId))
  }

  /**
   A REGISTER goes out at once and its PUBLISH waits, with the id of that REGISTER, to which the topic now resolves.
   */
  lemma RegisterFirst(s: State, p: Publish)
    requires NeedsRegister(s, p)
    ensures var t, w := HandlePublish(s, p), Parked(s, p);
            && t.toClient == s.toClient + [Register(NextId(s.counter), w.msgId, p.topic)]
            && t.waiting == s.waiting + [w]
            && Resolved(t.topics, p) && Resolve(t.topics, p) == w.packet
            && Under(t.waiting, w.msgId) == Under(s.waiting, w.msgId) + [w]
  {
    AddedFound(s.topics, s.counter, p.topic);
    var w := Parked(s, p);
    UnderAppend(s.waiting, [w], w.msgId);
    assert [w][1..] == [];
  }

  /**
   Whatever happens after the REGISTER, each REGACK with its message id sends one packet: first those that waited
   under that id before, oldest first, then the PUBLISH. So the first REGACK sends it if and only if none did.
   */
  lemma RegisterThenPublish(s: State, p: Publish, acts: seq<Action>, a: Action)
    requires NeedsRegister(s, p)
    requires ReleaseCount(HandlePublish(s, p), acts, Parked(s, p).msgId) <= |Under(s.waiting, Parked(s, p).msgId)|
    ensures var w, u := Parked(s, p), Run(HandlePublish(s, p), acts);
            var queue := Under(s.waiting, w.msgId) + [w];
            var n := ReleaseCount(HandlePublish(s, p), acts, w.msgId);
            && queue[n..] <= Under(u.waiting, w.msgId)
            && (Releases(u, a, w.msgId) ==>
                  && Pubs(Step(u, a).toClient) == Pubs(u.toClient) + [queue[n].packet]
                  && queue[n + 1..] <= Under(Step(u, a).waiting, w.msgId))
  {
    var w, u := Parked(s, p), Run(HandlePublish(s, p), acts);
    RegisterFirst(s, p);
    SameIdQueue(HandlePublish(s, p), acts, w.msgId);
    if Releases(u, a, w.msgId) {
      ReleasesOldest(u, a, w.msgId);
    }
  }

  /**
   A packet whose REGACK never came goes out in place of the one registered under its message id, which is left
   waiting.
   */
  lemma StaleSentFirst(s: State, p: Publish, stale: Waiting)
    requires NeedsRegister(s, p) && s.events == [] && s.waiting == [stale] && stale.msgId == NextSnMsgId(s.snMsgId)
    ensures var t := HandlePublish(s, p);
            var u := Step(Step(t, Offer(ClientPacket(SnRegack(stale.msgId)))), Handle);
            Pubs(u.toClient) == Pubs(t.toClient) + [stale.packet] && u.waiting == [Parked(s, p)]
  {
    RegisterFirst(s, p);
    OldestReleased(HandlePublish(s, p), stale, [Parked(s, p)]);
  }

  lemma OldestReleased(s: State, w: Waiting, others: seq<Waiting>)
    requires (s.status.Active? || s.status.Awake?) && s.counter <= 0xffff && s.events == [] && s.waiting == [w] + others
    ensures var u := Step(Step(s, Offer(ClientPacket(SnRegack(w.msgId)))), Handle);
            Pubs(u.toClient) == Pubs(s.toClient) + [w.packet] && u.waiting == others
  {
    var v := Step(s, Offer(ClientPacket(SnRegack(w.msgId))));
    assert v.events == [ClientPacket(SnRegack(w.msgId))] && v.events[1..] == [];
    FirstOf(s.waiting, w.msgId, 0);
    assert Without(s.waiting, 0) == others;
    PubsSnoc(s.toClient, SnPub(w.packet));
  }

  // ----- the topics of the packets that wait

  ghost predicate HasTopic(es: seq<Entry>, w: Waiting) {
    w.packet.topic.Normal? && ById(es, NORMAL, w.packet.topic.id) < |es|
  }

  /** The id of every waiting packet is that of a registered topic. */
  ghost predicate AllKnown(s: State) {
    forall i :: 0 <= i < |s.waiting| ==> HasTopic(s.topics, s.waiting[i])
  }

  /** CONNECT with a clean session of a client that is not asleep. */
  ghost predicate Forgets(s: State, a: Action) {
    && a.Handle? && s.events != [] && s.events[0].ClientPacket? && s.events[0].packet.SnConnect?
    && s.events[0].packet.clean && !s.status.Asleep? && !s.status.Awake?
  }

  lemma ByIdLonger(es: seq<Entry>, es': seq<Entry>, w: Waiting)
    requires es <= es' && HasTopic(es, w)
    ensures HasTopic(es', w)
  {
    var id := w.packet.topic.id;
    assert es'[ById(es, NORMAL, id)] == es[ById(es, NORMAL, id)];
  }

  lemma KnownLonger(s: State, t: State)
    requires AllKnown(s) && s.topics <= t.topics && t.waiting == s.waiting
    ensures AllKnown(t)
  {
    forall i | 0 <= i < |t.waiting| ensures HasTopic(t.topics, t.waiting[i]) {
      ByIdLonger(s.topics, t.topics, s.waiting[i]);
    }
  }

  lemma RegisteredKnown(s: State, p: Publish)
    requires NeedsRegister(s, p) && AllKnown(s)
    ensures AllKnown(HandlePublish(s, p))
  {
    var t, w := HandlePublish(s, p), Parked(s, p);
    AddedFound(s.topics, s.counter, p.topic);
    RegisterFirst(s, p);
    KnownLonger(s, t.(waiting := s.waiting));
    assert t.topics[|s.topics|] == Entry(NORMAL, w.packet.topic.id, p.topic);
    assert HasTopic(t.topics, w);
  }

  lemma PublishKnown(s: State, p: Publish)
    requires s.counter <= 0xffff && AllKnown(s)
    ensures AllKnown(HandlePublish(s, p))
  {
    if NeedsRegister(s, p) {
      RegisteredKnown(s, p);
    } else {
      KnownLonger(s, HandlePublish(s, p));
    }
  }

  lemma ReleasedKnown(s: State, msgId: nat)
    requires AllKnown(s)
    ensures AllKnown(Released(s, msgId))
  {
  }

  lemma NoneNormal(es: seq<Entry>, id: nat)
    ensures ById(Predefined(es), NORMAL, id) == |Predefined(es)|
  {
    PredefinedProps(es);
    forall i | 0 <= i < |Predefined(es)| ensures Predefined(es)[i].kind != NORMAL {
      assert Predefined(es)[i] in Predefined(es);
    }
  }

  /** Erasing the normal topics leaves no packet with a topic. */
  lemma NoneKnown(es: seq<Entry>, ws: seq<Waiting>)
    ensures forall i :: 0 <= i < |ws| ==> !HasTopic(Predefined(es), ws[i])
  {
    forall i | 0 <= i < |ws| ensures !HasTopic(Predefined(es), ws[i]) {
      if ws[i].packet.topic.Normal? {
        NoneNormal(es, ws[i].packet.topic.id);
      }
    }
  }

  ghost predicate NoneHasTopic(s: State) {
    forall i :: 0 <= i < |s.waiting| ==> !HasTopic(s.topics, s.waiting[i])
  }

  lemma ConnectKnown(s: State, clean: bool, will: bool)
    requires AllKnown(s)
    ensures var t, forgets := HandleConnect(s, clean, will), clean && !s.status.Asleep? && !s.status.Awake?;
            && t.waiting == s.waiting && (forgets ==> NoneHasTopic(t))
            && (AllKnown(t) <==> !forgets || s.waiting == [])
  {
    var t := HandleConnect(s, clean, will);
    StoredWaiting(Send(s, Connack));
    NoneKnown(s.topics, s.waiting);
    if AllKnown(t) && s.waiting != [] {
      assert HasTopic(t.topics, t.waiting[0]);
    }
  }

  lemma PacketKnown(s: State, packet: FromClient)
    requires AllKnown(s) && !packet.SnConnect?
    ensures AllKnown(HandlePacket(s, packet))
  {
    match packet
    case SnPingreq => StoredWaiting(s);
    case SnRegack(m) => ReleasedKnown(s, m);
    case SnBye(_) =>
  }

  lemma AddedKnown(s: State, name: string, id: nat)
    requires s.counter <= 0xffff && AllKnown(s)
    ensures AllKnown(TopicAdded(s, name, id))
  {
    KnownLonger(s, TopicAdded(s, name, id));
  }

  /** Exactly the start of a clean session breaks this, when packets wait; then none of them has a topic any more. */
  lemma KnownStep(s: State, a: Action)
    requires s.counter <= 0xffff && AllKnown(s)
    ensures AllKnown(Step(s, a)) <==> !Forgets(s, a) || s.waiting == []
    ensures Forgets(s, a) ==> Step(s, a).waiting == s.waiting && NoneHasTopic(Step(s, a))
  {
    if a.Handle? && s.events != [] {
      var u := s.(events := s.events[1..]);
      match s.events[0] {
        case BrokerPublish(p) => PublishKnown(u, p);
        case NewTopic(name, id) => AddedKnown(u, name, id);
        case ClientPacket(packet) =>
          if packet.SnConnect? {
            ConnectKnown(u, packet.clean, packet.will);
          } else {
            PacketKnown(u, packet);
          }
        case _ =>
      }
    }
  }

  ghost predicate ForgottenIn(s: State, acts: seq<Action>)
    requires s.counter <= 0xffff
    decreases |acts|
  {
    acts != [] && ((Forgets(s, acts[0]) && s.waiting != []) || ForgottenIn(Step(s, acts[0]), acts[1..]))
  }

  /** Over every run without that every waiting packet's id is registered. */
  lemma {:induction false} KnownOverRun(s: State, acts: seq<Action>)
    requires s.counter <= 0xffff && AllKnown(s) && !ForgottenIn(s, acts)
    ensures AllKnown(Run(s, acts))
    decreases |acts|
  {
    if acts != [] {
      KnownStep(s, acts[0]);
      KnownOverRun(Step(s, acts[0]), acts[1..]);
    }
  }
}
