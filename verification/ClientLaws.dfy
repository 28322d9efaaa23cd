/**
 What each event does to a client, read off the event and the state it meets: the packets that go to the broker and to
 the client, where a PUBLISH ends up, and the status. Counted over whole runs.
 */
module ClientLaws {
  import opened ClientRuns
  import opened SleepPath
  import opened TopicRegistry
  import opened WakeUp

  ghost predicate SleepsOrWakes(s: State) {
    s.status.Asleep? || s.status.Awake?
  }

  ghost predicate Receives(s: State) {
    s.status.Active? || s.status.Awake?
  }

  // ----- what becomes of a PUBLISH

  /** The index of the topic with the name of a PUBLISH, or the number of topics. */
  ghost predicate Knows(s: State, p: Publish, i: nat) {
    i < |s.topics| && s.topics[i].name == p.topic && forall j :: 0 <= j < i ==> s.topics[j].name != p.topic
  }

  ghost predicate Unknown(s: State, p: Publish) {
    |p.topic| > 2 && forall i :: 0 <= i < |s.topics| ==> s.topics[i].name != p.topic
  }

  ghost predicate Subscribed(s: State, p: Publish) {
    exists i :: 0 <= i < |s.topics| && IsFilterOf(s.topics[i].name, p.topic)
  }

  /** In a clean session nobody asked for it. */
  ghost predicate Refused(s: State, p: Publish) {
    Receives(s) && Unknown(s, p) && s.clean && !Subscribed(s, p)
  }

  ghost predicate GetsId(s: State, p: Publish) {
    Receives(s) && Unknown(s, p) && !Refused(s, p) && |s.topics| < 50
  }

  ghost predicate Lost(s: State, p: Publish) {
    || (!s.status.Asleep? && !Receives(s))
    || (s.status.Asleep? && |s.sleeping| >= 20)
    || Refused(s, p)
    || (Receives(s) && Unknown(s, p) && |s.topics| >= 50)
  }

  lemma WantedIsSubscribed(s: State, p: Publish)
    ensures Wanted(s.topics, p.topic) <==> Subscribed(s, p)
  {
    if Wanted(s.topics, p.topic) {
      var e :| e in s.topics && IsFilterOf(e.name, p.topic);
      var i :| 0 <= i < |s.topics| && s.topics[i] == e;
      assert IsFilterOf(s.topics[i].name, p.topic);
    }
    if Subscribed(s, p) {
      var i :| 0 <= i < |s.topics| && IsFilterOf(s.topics[i].name, p.topic);
      assert s.topics[i] in s.topics;
    }
  }

  lemma ResolvedIsKnown(s: State, p: Publish)
    ensures Resolved(s.topics, p) <==> !Unknown(s, p)
    ensures |p.topic| > 2 && Resolved(s.topics, p) ==> Knows(s, p, ByName(s.topics, p.topic))
  {
  }

  /** Whether a PUBLISH is put in the sleep queue, on the REGACK list, or thrown away. */
  lemma PublishPlaced(s: State, p: Publish)
    requires s.counter <= 0xffff
    ensures var t := HandlePublish(s, p);
            && t.sleeping == s.sleeping + (if s.status.Asleep? && |s.sleeping| < 20 then [p] else [])
            && t.waiting == s.waiting + (if GetsId(s, p) then [Parked(s, p)] else [])
            && t.discarded == s.discarded + (if Lost(s, p) then [p.msg] else [])
            && t.topics == s.topics + (if GetsId(s, p) then [Entry(NORMAL, NextId(s.counter), p.topic)] else [])
            && t.counter == (if GetsId(s, p) then NextId(s.counter) else s.counter)
            && t.snMsgId == (if GetsId(s, p) then NextSnMsgId(s.snMsgId) else s.snMsgId)
            && (t.status, t.clean, t.hold, t.events, t.offered) == (s.status, s.clean, s.hold, s.events, s.offered)
  {
    WantedIsSubscribed(s, p);
    ResolvedIsKnown(s, p);
    if GetsId(s, p) {
      AddedFound(s.topics, s.counter, p.topic);
    }
  }

  // ----- what the broker gets

  /** A PUBLISH is acknowledged in place of the client: that sleeps, or has not asked for it. */
  ghost predicate Acked(s: State, p: Publish) {
    s.status.Asleep? || Refused(s, p)
  }

  /** How many packets are left to wait after a REGACK. */
  ghost function LeftWaiting(s: State, msgId: nat): int {
    |s.waiting| - if exists i :: 0 <= i < |s.waiting| && s.waiting[i].msgId == msgId then 1 else 0
  }

  /** An event sends this packet to the broker. */
  ghost predicate ToBrokerBy(s: State, ev: Event, out: ToBroker) {
    match ev
    case BrokerPublish(p) =>
      || (Acked(s, p) && p.msg.qos == 1 && out == Puback(p.msg.msgId))
      || (Acked(s, p) && p.msg.qos == 2 && out == Pubrec(p.msg.msgId))
    case ClientPacket(SnConnect(_, will)) => out == Connect && !SleepsOrWakes(s) && !will
    case ClientPacket(SnPingreq) => out == Pingreq && !(SleepsOrWakes(s) && s.sleeping != [])
    case ClientPacket(SnRegack(m)) => out == Pingreq && Receives(s) && s.hold && LeftWaiting(s, m) % 0x100 == 0
    case ClientPacket(SnBye(duration)) => out == Disconnect && duration == 0
    case _ => false
  }

  /** A step appends this one packet, or none, exactly as a condition says. */
  ghost predicate Extends<T(!new)>(before: seq<T>, after: seq<T>, cause: T -> bool) {
    && before <= after && |after| <= |before| + 1
    && forall x :: after == before + [x] <==> cause(x)
  }

  lemma NoneSent<T(!new)>(before: seq<T>, cause: T -> bool)
    requires forall x :: !cause(x)
    ensures Extends(before, before, cause)
  {
    assert forall x :: |before + [x]| == |before| + 1;
  }

  lemma OneSent<T(!new)>(before: seq<T>, y: T, cause: T -> bool)
    requires forall x :: cause(x) <==> x == y
    ensures Extends(before, before + [y], cause)
  {
    assert (before + [y])[|before|] == y;
    assert forall x :: (before + [x])[|before|] == x;
  }

  lemma PublishToBroker(s: State, p: Publish)
    requires s.counter <= 0xffff
    ensures Extends(s.toBroker, HandlePublish(s, p).toBroker, out => ToBrokerBy(s, BrokerPublish(p), out))
  {
    WantedIsSubscribed(s, p);
    ResolvedIsKnown(s, p);
    var cause := out => ToBrokerBy(s, BrokerPublish(p), out);
    if Acked(s, p) && p.msg.qos == 1 {
      OneSent(s.toBroker, Puback(p.msg.msgId), cause);
    } else if Acked(s, p) && p.msg.qos == 2 {
      OneSent(s.toBroker, Pubrec(p.msg.msgId), cause);
    } else {
      NoneSent(s.toBroker, cause);
    }
  }

  lemma ReleasedCount(s: State, msgId: nat)
    ensures |Released(s, msgId).waiting| == LeftWaiting(s, msgId)
  {
    var k := FindWaiting(s.waiting, msgId);
    if k < |s.waiting| {
      assert s.waiting[k].msgId == msgId;
    }
  }

  lemma PacketToBroker(s: State, packet: FromClient)
    ensures Extends(s.toBroker, HandlePacket(s, packet).toBroker, out => ToBrokerBy(s, ClientPacket(packet), out))
  {
    var cause := out => ToBrokerBy(s, ClientPacket(packet), out);
    match packet
    case SnConnect(_, will) =>
      StoredPings(Send(s, Connack));
      if !SleepsOrWakes(s) && !will {
        OneSent(s.toBroker, Connect, cause);
      } else {
        NoneSent(s.toBroker, cause);
      }
    case SnPingreq =>
      StoredPings(s);
      if SleepsOrWakes(s) && s.sleeping != [] {
        NoneSent(s.toBroker, cause);
      } else {
        OneSent(s.toBroker, Pingreq, cause);
      }
    case SnRegack(m) =>
      ReleasedCount(s, m);
      if Receives(s) && s.hold && LeftWaiting(s, m) % 0x100 == 0 {
        OneSent(s.toBroker, Pingreq, cause);
      } else {
        NoneSent(s.toBroker, cause);
      }
    case SnBye(duration) =>
      if duration == 0 {
        OneSent(s.toBroker, Disconnect, cause);
      } else {
        NoneSent(s.toBroker, cause);
      }
  }

  /** A step sends this packet to the broker. */
  ghost predicate SendsToBroker(s: State, a: Action, out: ToBroker) {
    a.Handle? && s.events != [] && ToBrokerBy(s, s.events[0], out)
  }

  lemma EventToBroker(s: State, ev: Event)
    requires s.counter <= 0xffff
    ensures Extends(s.toBroker, HandleEvent(s, ev).toBroker, out => ToBrokerBy(s, ev, out))
  {
    match ev
    case BrokerPublish(p) => PublishToBroker(s, p);
    case ClientPacket(packet) => PacketToBroker(s, packet);
    case _ => NoneSent(s.toBroker, out => ToBrokerBy(s, ev, out));
  }

  /** Exactly what each step sends to the broker: at most one packet, behind those sent before. */
  lemma BrokerStep(s: State, a: Action)
    requires s.counter <= 0xffff
    ensures Extends(s.toBroker, Step(s, a).toBroker, out => SendsToBroker(s, a, out))
  {
    var cause := out => SendsToBroker(s, a, out);
    if a.Handle? && s.events != [] {
      var u, ev := s.(events := s.events[1..]), s.events[0];
      EventToBroker(u, ev);
      assert forall out :: cause(out) <==> ToBrokerBy(u, ev, out);
    } else {
      NoneSent(s.toBroker, cause);
    }
  }

  /** How often a run sends a packet to the broker, by its steps. */
  ghost function BrokerCount(s: State, acts: seq<Action>, out: ToBroker): nat
    requires s.counter <= 0xffff
    decreases |acts|
  {
    if acts == [] then 0
    else (if SendsToBroker(s, acts[0], out) then 1 else 0) + BrokerCount(Step(s, acts[0]), acts[1..], out)
  }

  lemma ExtendsCount<T(!new)>(before: seq<T>, after: seq<T>, cause: T -> bool, x: T)
    requires Extends(before, after, cause)
    ensures multiset(after)[x] == multiset(before)[x] + if cause(x) then 1 else 0
  {
    if |after| > |before| {
      assert after == before + [after[|before|]];
      assert cause(x) ==> after == before + [x];
    } else {
      assert after == before;
      assert |before + [x]| > |after|;
    }
  }

  /** Over every run. */
  lemma {:induction false} BrokerLedger(s: State, acts: seq<Action>, out: ToBroker)
    requires s.counter <= 0xffff
    ensures multiset(Run(s, acts).toBroker)[out] == multiset(s.toBroker)[out] + BrokerCount(s, acts, out)
    decreases |acts|
  {
    if acts != [] {
      var t := Step(s, acts[0]);
      BrokerStep(s, acts[0]);
      ExtendsCount(s.toBroker, t.toBroker, x => SendsToBroker(s, acts[0], x), out);
      BrokerLedger(t, acts[1..], out);
    }
  }

  /** How many publishes of a QoS with a message id a run handles while the client sleeps or has not asked for them. */
  ghost function AckedCount(s: State, acts: seq<Action>, qos: nat, msgId: nat): nat
    requires s.counter <= 0xffff
    decreases |acts|
  {
    if acts == [] then 0
    else
      (if acts[0].Handle? && s.events != [] && s.events[0].BrokerPublish? && Acked(s, s.events[0].p)
          && s.events[0].p.msg.qos == qos && s.events[0].p.msg.msgId == msgId then 1 else 0)
      + AckedCount(Step(s, acts[0]), acts[1..], qos, msgId)
  }

  /**
   Each of QoS 1 is answered with a PUBACK, each of QoS 2 with a PUBREC, under its own message id, and nothing else
   is.
   */
  lemma {:induction false} AcksOverRun(s: State, acts: seq<Action>, m: nat)
    requires s.counter <= 0xffff
    ensures multiset(Run(s, acts).toBroker)[Puback(m)] == multiset(s.toBroker)[Puback(m)] + AckedCount(s, acts, 1, m)
    ensures multiset(Run(s, acts).toBroker)[Pubrec(m)] == multiset(s.toBroker)[Pubrec(m)] + AckedCount(s, acts, 2, m)
  {
    BrokerLedger(s, acts, Puback(m));
    BrokerLedger(s, acts, Pubrec(m));
    AckedIsSent(s, acts, m);
  }

  lemma {:induction false} AckedIsSent(s: State, acts: seq<Action>, m: nat)
    requires s.counter <= 0xffff
    ensures BrokerCount(s, acts, Puback(m)) == AckedCount(s, acts, 1, m)
    ensures BrokerCount(s, acts, Pubrec(m)) == AckedCount(s, acts, 2, m)
    decreases |acts|
  {
    if acts != [] {
      AckedIsSent(Step(s, acts[0]), acts[1..], m);
    }
  }

  // ----- what the client gets

  /** The reference under which a topic goes to the client. */
  ghost predicate RefersTo(s: State, p: Publish, t: TopicRef) {
    if |p.topic| <= 2 then t == Short(p.topic)
    else
      exists i :: 0 <= i < |s.topics| && Knows(s, p, i)
                  && t == if s.topics[i].kind == PREDEFINED then Known(s.topics[i].id) else Normal(s.topics[i].id)
  }

  /** A packet is the one that waits longest under its message id. */
  ghost predicate WaitsFirst(s: State, msgId: nat, packet: SnPublish) {
    exists i :: 0 <= i < |s.waiting| && s.waiting[i] == Waiting(packet, msgId)
                && forall j :: 0 <= j < i ==> s.waiting[j].msgId != msgId
  }

  /** An event sends this packet to the client. */
  ghost predicate ToClientBy(s: State, ev: Event, out: ToClient)
    requires s.counter <= 0xffff
  {
    match ev
    case BrokerPublish(p) =>
      || (Receives(s) && out.SnPub? && out.packet.msg == p.msg && RefersTo(s, p, out.packet.topic))
      || (GetsId(s, p) && out == Register(NextId(s.counter), NextSnMsgId(s.snMsgId), p.topic))
    case BrokerPingresp => out == Pingresp
    case ClientPacket(SnConnect(_, will)) => if SleepsOrWakes(s) then out == Connack else will && out == WillTopicReq
    case ClientPacket(SnRegack(m)) => Receives(s) && out.SnPub? && WaitsFirst(s, m, out.packet)
    case ClientPacket(SnBye(_)) => out == SnDisconnect
    case _ => false
  }

  lemma PublishToClient(s: State, p: Publish)
    requires s.counter <= 0xffff
    ensures Extends(s.toClient, HandlePublish(s, p).toClient, out => ToClientBy(s, BrokerPublish(p), out))
  {
    WantedIsSubscribed(s, p);
    ResolvedIsKnown(s, p);
    var cause := out => ToClientBy(s, BrokerPublish(p), out);
    if GetsId(s, p) {
      AddedFound(s.topics, s.counter, p.topic);
      OneSent(s.toClient, Register(NextId(s.counter), NextSnMsgId(s.snMsgId), p.topic), cause);
    } else if Receives(s) && Resolved(s.topics, p) {
      OneReference(s, p);
      OneSent(s.toClient, SnPub(Resolve(s.topics, p)), cause);
    } else {
      NoneSent(s.toClient, cause);
    }
  }

  lemma OneReference(s: State, p: Publish)
    requires Resolved(s.topics, p)
    ensures forall t :: RefersTo(s, p, t) <==> t == Resolve(s.topics, p).topic
  {
    ResolvedIsKnown(s, p);
    if |p.topic| > 2 {
      var k := ByName(s.topics, p.topic);
      assert Knows(s, p, k) && forall i :: 0 <= i < |s.topics| && Knows(s, p, i) ==> i == k;
    }
  }

  lemma RegackToClient(s: State, m: nat)
    requires s.counter <= 0xffff
    ensures Extends(s.toClient, HandleRegack(s, m).toClient, out => ToClientBy(s, ClientPacket(SnRegack(m)), out))
  {
    var cause, k := out => ToClientBy(s, ClientPacket(SnRegack(m)), out), FindWaiting(s.waiting, m);
    if Receives(s) && k < |s.waiting| {
      assert s.waiting[k] == Waiting(s.waiting[k].packet, m);
      assert forall packet :: WaitsFirst(s, m, packet) <==> packet == s.waiting[k].packet;
      OneSent(s.toClient, SnPub(s.waiting[k].packet), cause);
    } else {
      NoneSent(s.toClient, cause);
    }
  }

  lemma {:induction false} StoredToClient(s: State)
    ensures SendStored(s).toClient == s.toClient
    decreases |s.sleeping|
  {
    if s.sleeping != [] {
      StoredToClient(Post(s, BrokerPublish(s.sleeping[0])).(sleeping := s.sleeping[1..]));
    }
  }

  lemma PacketToClient(s: State, packet: FromClient)
    requires s.counter <= 0xffff
    ensures Extends(s.toClient, HandlePacket(s, packet).toClient, out => ToClientBy(s, ClientPacket(packet), out))
  {
    var cause := out => ToClientBy(s, ClientPacket(packet), out);
    match packet
    case SnConnect(_, will) =>
      StoredToClient(Send(s, Connack));
      if SleepsOrWakes(s) {
        OneSent(s.toClient, Connack, cause);
      } else if will {
        OneSent(s.toClient, WillTopicReq, cause);
      } else {
        NoneSent(s.toClient, cause);
      }
    case SnPingreq =>
      StoredToClient(s);
      NoneSent(s.toClient, cause);
    case SnRegack(m) => RegackToClient(s, m);
    case SnBye(_) => OneSent(s.toClient, SnDisconnect, cause);
  }

  lemma EventToClient(s: State, ev: Event)
    requires s.counter <= 0xffff
    ensures Extends(s.toClient, HandleEvent(s, ev).toClient, out => ToClientBy(s, ev, out))
  {
    match ev
    case BrokerPublish(p) => PublishToClient(s, p);
    case BrokerPingresp => OneSent(s.toClient, Pingresp, out => ToClientBy(s, ev, out));
    case ClientPacket(packet) => PacketToClient(s, packet);
    case _ => NoneSent(s.toClient, out => ToClientBy(s, ev, out));
  }

  ghost predicate SendsToClient(s: State, a: Action, out: ToClient)
    requires s.counter <= 0xffff
  {
    a.Handle? && s.events != [] && ToClientBy(s, s.events[0], out)
  }

  /** Exactly what each step sends to the client: at most one packet, behind those sent before. */
  lemma ClientStep(s: State, a: Action)
    requires s.counter <= 0xffff
    ensures Extends(s.toClient, Step(s, a).toClient, out => SendsToClient(s, a, out))
  {
    var cause := out => SendsToClient(s, a, out);
    if a.Handle? && s.events != [] {
      var u, ev := s.(events := s.events[1..]), s.events[0];
      EventToClient(u, ev);
      assert forall out :: cause(out) <==> ToClientBy(u, ev, out);
    } else {
      NoneSent(s.toClient, cause);
    }
  }

  ghost function ClientCount(s: State, acts: seq<Action>, out: ToClient): nat
    requires s.counter <= 0xffff
    decreases |acts|
  {
    if acts == [] then 0
    else (if SendsToClient(s, acts[0], out) then 1 else 0) + ClientCount(Step(s, acts[0]), acts[1..], out)
  }

  /** Over every run. */
  lemma {:induction false} ClientLedger(s: State, acts: seq<Action>, out: ToClient)
    requires s.counter <= 0xffff
    ensures multiset(Run(s, acts).toClient)[out] == multiset(s.toClient)[out] + ClientCount(s, acts, out)
    decreases |acts|
  {
    if acts != [] {
      var t := Step(s, acts[0]);
      ClientStep(s, acts[0]);
      ExtendsCount(s.toClient, t.toClient, x => SendsToClient(s, acts[0], x), out);
      ClientLedger(t, acts[1..], out);
    }
  }

  // ----- CONNECT

  /**
   The event queue behind a CONNECT that has been handled while the client slept or was awake, and the state without
   it.
   */
  ghost function Connected(s: State, rest: seq<Event>): State {
    s.(status := Active, sleeping := [], events := [], toClient := s.toClient + [Connack],
       discarded := s.discarded + Messages(s.sleeping[Room(s.(events := rest))..]))
  }

  /**
   CONNECT of a client that sleeps or is awake: it is active, has its CONNACK, and everything stored stands in the
   event queue, oldest first, as far as that takes it; the rest is lost. Nothing else changes, its clean flag and
   topics included.
   */
  lemma ConnectHandled(s: State, clean: bool, will: bool, rest: seq<Event>)
    requires SleepsOrWakes(s) && s.counter <= 0xffff && s.events == [ClientPacket(SnConnect(clean, will))] + rest
    ensures Step(s, Handle) == Connected(s, rest).(events := rest + AsEvents(Taken(s, rest)))
  {
    assert s.events[1..] == rest;
    StoredInOrder(Send(s.(events := rest), Connack));
  }

  /**
   CONNECT of any other client: a session is to start. It is not connected yet, the clean flag is that of the packet,
   and a clean session has lost the normal topics; with a will the client is asked for it, otherwise CONNECT goes to
   the broker.
   */
  lemma ConnectAnew(s: State, clean: bool, will: bool, rest: seq<Event>)
    requires !SleepsOrWakes(s) && s.counter <= 0xffff && s.events == [ClientPacket(SnConnect(clean, will))] + rest
    ensures Step(s, Handle) ==
            s.(status := Disconnected, clean := clean, topics := if clean then Predefined(s.topics)
                else s.topics, events := rest,
               toClient := s.toClient + (if will then [WillTopicReq] else []),
               toBroker := s.toBroker + (if will then [] else [SleepPath.Connect]))
  {
    assert s.events[1..] == rest;
    assert s.toClient + [] == s.toClient && s.toBroker + [] == s.toBroker;
  }

  /** The state when everything that stood in the event queue behind the CONNECT has been handled too. */
  ghost function Reconnected(s: State, rest: seq<Event>): State
    requires s.counter <= 0xffff
  {
    Run(s, WakeTurns(s, rest))
  }

  /** The CONNECT of a sleeping client delivers as its PINGREQ does, and leaves it active. */
  lemma ConnectDelivers(s: State, clean: bool, will: bool, rest: seq<Event>)
    requires SleepsOrWakes(s) && s.counter <= 0xffff && Quiet(rest)
    requires s.events == [ClientPacket(SnConnect(clean, will))] + rest
    ensures Delivers(Connected(s, rest), WakePackets(s, rest), WakeFates(s, rest), Reconnected(s, rest))
    ensures WakeUp.Announces(Connected(s, rest), Reconnected(s, rest))
  {
    ConnectTurns(s, clean, will, rest);
    RegistersSent(Connected(s, rest), WakePackets(s, rest));
    FatesMet(Connected(s, rest), WakePackets(s, rest), s.topics, []);
  }

  lemma ConnectFirst(s: State, clean: bool, will: bool, rest: seq<Event>, n: nat)
    requires SleepsOrWakes(s) && s.counter <= 0xffff && s.events == [ClientPacket(SnConnect(clean, will))] + rest
    ensures Run(s, Turns(1 + n)) == Run(Connected(s, rest).(events := rest + AsEvents(Taken(s, rest))), Turns(n))
  {
    ConnectHandled(s, clean, will, rest);
    assert Turns(1 + n)[1..] == Turns(n);
  }

  lemma ConnectTurns(s: State, clean: bool, will: bool, rest: seq<Event>)
    requires SleepsOrWakes(s) && s.counter <= 0xffff && Quiet(rest)
    requires s.events == [ClientPacket(SnConnect(clean, will))] + rest
    ensures Reconnected(s, rest) == After(Connected(s, rest), WakePackets(s, rest))
  {
    ConnectFirst(s, clean, will, rest, Pending(s, rest));
    QueueForwarded(Connected(s, rest).(events := rest + AsEvents(Taken(s, rest))), Connected(s, rest), rest,
        Taken(s, rest));
  }

  // ----- the status

  /** The status that an event leaves. */
  ghost predicate Becomes(st: Status, ev: Event, to: Status) {
    var sleeps := st.Asleep? || st.Awake?;
    match ev
    case BrokerPingresp => to == if sleeps then Asleep else st
    case BrokerBye => to == Disconnected
    case ClientPacket(SnConnect(_, _)) => to == if sleeps then Active else Disconnected
    case ClientPacket(SnPingreq) => to == if sleeps then Awake else st
    case ClientPacket(SnBye(duration)) =>
      to == if st.Active? && duration > 0 then Asleep else if st.Active? || sleeps then Disconnected else st
    case _ => to == st
  }

  lemma StatusStep(s: State, a: Action)
    requires s.counter <= 0xffff
    ensures match a
            case SetStatus(st) => Step(s, a).status == st
            case Offer(_) => Step(s, a).status == s.status
            case Handle => if s.events == [] then Step(s, a) == s else Becomes(s.status, s.events[0], Step(s, a).status)
  {
    if a.Handle? && s.events != [] {
      var u := s.(events := s.events[1..]);
      match s.events[0] {
        case BrokerPublish(p) => PublishPings(u, p);
        case ClientPacket(packet) => PacketStatus(u, packet);
        case _ =>
      }
    }
  }

  /** The client's CONNECT out of its sleep, or another task, makes it active. */
  ghost predicate MakesActive(s: State, a: Action) {
    || a == SetStatus(Active)
    || (a.Handle? && s.events != [] && s.events[0].ClientPacket? && s.events[0].packet.SnConnect? && SleepsOrWakes(s))
  }

  /** An active client's CONNECT or DISCONNECT, the broker's DISCONNECT, or another task, ends that. */
  ghost predicate EndsActive(s: State, a: Action) {
    || (a.SetStatus? && a.st != Active)
    || (a.Handle? && s.events != []
        && (s.events[0].BrokerBye? || (s.events[0].ClientPacket?
           && (s.events[0].packet.SnConnect? || s.events[0].packet.SnBye?))))
  }

  ghost predicate AnyActive(s: State, acts: seq<Action>, ends: bool)
    requires s.counter <= 0xffff
    decreases |acts|
  {
    && acts != []
    && ((if ends then EndsActive(s, acts[0]) else MakesActive(s, acts[0]))
       || AnyActive(Step(s, acts[0]), acts[1..], ends))
  }

  /**
   Over every run: a client that is not active stays so until that happens, and one that is stays so until its end.
   */
  lemma {:induction false} ActiveOverRun(s: State, acts: seq<Action>)
    requires s.counter <= 0xffff
    ensures !s.status.Active? && !AnyActive(s, acts, false) ==> !Run(s, acts).status.Active?
    ensures s.status.Active? && !AnyActive(s, acts, true) ==> Run(s, acts).status.Active?
    decreases |acts|
  {
    if acts != [] {
      ActiveStep(s, acts[0]);
      ActiveOverRun(Step(s, acts[0]), acts[1..]);
    }
  }

  lemma ActiveStep(s: State, a: Action)
    requires s.counter <= 0xffff
    ensures Step(s, a).status.Active? <==> if s.status.Active? then !EndsActive(s, a) else MakesActive(s, a)
  {
    StatusStep(s, a);
  }

  // ----- the session

  /** CONNECT of a client that does not sleep. */
  ghost predicate StartsSession(s: State, a: Action) {
    a.Handle? && s.events != [] && s.events[0].ClientPacket? && s.events[0].packet.SnConnect? && !SleepsOrWakes(s)
  }

  ghost predicate StartsIn(s: State, acts: seq<Action>)
    requires s.counter <= 0xffff
    decreases |acts|
  {
    acts != [] && (StartsSession(s, acts[0]) || StartsIn(Step(s, acts[0]), acts[1..]))
  }

  /** The session is clean as the CONNECT that started it said; nothing else touches that. */
  lemma CleanStep(s: State, a: Action)
    requires s.counter <= 0xffff
    ensures Step(s, a).clean == if StartsSession(s, a) then s.events[0].packet.clean else s.clean
  {
    if a.Handle? && s.events != [] {
      var u := s.(events := s.events[1..]);
      match s.events[0] {
        case BrokerPublish(p) => PublishPlaced(u, p);
        case ClientPacket(packet) => PacketClean(u, packet);
        case _ =>
      }
    }
  }

  lemma PacketClean(s: State, packet: FromClient)
    ensures HandlePacket(s, packet).clean == if packet.SnConnect? && !SleepsOrWakes(s) then packet.clean else s.clean
  {
    match packet
    case SnConnect(_, _) => StoredClean(Send(s, Connack));
    case SnPingreq => StoredClean(s);
    case _ =>
  }

  lemma {:induction false} StoredClean(s: State)
    ensures SendStored(s).clean == s.clean
    decreases |s.sleeping|
  {
    if s.sleeping != [] {
      StoredClean(Post(s, BrokerPublish(s.sleeping[0])).(sleeping := s.sleeping[1..]));
    }
  }

  lemma {:induction false} CleanOverRun(s: State, acts: seq<Action>)
    requires s.counter <= 0xffff && !StartsIn(s, acts)
    ensures Run(s, acts).clean == s.clean
    decreases |acts|
  {
    if acts != [] {
      CleanStep(s, acts[0]);
      CleanOverRun(Step(s, acts[0]), acts[1..]);
    }
  }

  /**
   A topic that the client brings is added under its id, or under the next one; not when it is known or there are too
   many.
   */
  lemma TopicComes(s: State, name: string, id: nat)
    requires s.counter <= 0xffff
    ensures var t := HandleEvent(s, NewTopic(name, id));
            var comes := |s.topics| < 50 && forall i :: 0 <= i < |s.topics| ==> s.topics[i].name != name;
            var topic := if id == 0 then Entry(NORMAL, NextId(s.counter), name) else Entry(PREDEFINED, id, name);
            && t.topics == s.topics + (if comes then [topic] else [])
            && t.counter == (if comes && id == 0 then NextId(s.counter) else s.counter)
            && t == s.(topics := t.topics, counter := t.counter)
  {
    if ByName(s.topics, name) < |s.topics| {
      assert s.topics[ByName(s.topics, name)].name == name;
    }
  }

  /**
   An event that is offered stands behind the others, unless the queue has a bound and is full; a PUBLISH is then
   lost.
   */
  lemma EventOffered(s: State, ev: Event)
    requires s.counter <= 0xffff
    ensures var t, fits := Step(s, Offer(ev)), s.maxEvents == 0 || |s.events| < s.maxEvents;
            && t.events == s.events + (if fits then [ev] else [])
            && t.offered == s.offered + (if ev.BrokerPublish? then [ev.p.msg] else [])
            && t.discarded == s.discarded + (if ev.BrokerPublish? && !fits then [ev.p.msg] else [])
            && t == s.(events := t.events, offered := t.offered, discarded := t.discarded)
  {
  }
}
