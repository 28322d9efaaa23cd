/**
 One client of the transparent gateway as the object the handlers work on: the packet event queue, the sleep queue,
 the REGACK list and the topics are linked structures in the heap. Now is the state of SleepPath that they represent.
 */
module ClientPath {
  import opened Que
  import opened ClientRuns
  import opened RegackList
  import opened Sequences
  import opened SleepPath
  import opened TopicRegistry
  import opened WakeUp
  import opened Wrappers

  method NewQue<T>(maxSize: nat) returns (q: Que<T>)
    ensures fresh(q) && q.Valid() && q.list == [] && q.maxSize == maxSize
  {
    q := new Que();
    q.SetMaxSize(maxSize);
  }

  class ClientPath {
    var status: Status
    var clean: bool
    const topics: Topics
    var snMsgId: nat
    var hold: bool
    const events: Que<Event>
    const sleepQue: Que<Publish>
    const waitList: RegackList
    var toClient: seq<ToClient>
    var toBroker: seq<ToBroker>
    ghost var offered: seq<Message>
    ghost var discarded: seq<Message>

    ghost function Now(): State
      reads this, topics, events, sleepQue, waitList.links
    {
      State(status, clean, topics.Entries(), topics.nextTopicId, snMsgId, hold, events.Contents(), events.maxSize,
            sleepQue.Contents(), waitList.Waitings(), toClient, toBroker, offered, discarded)
    }

    ghost predicate QueuesValid()
      reads this, events, events.list, sleepQue, sleepQue.list
    {
      events.Valid() && sleepQue.Valid() && sleepQue.maxSize == MAX_SAVED_PUBLISH
    }

    ghost predicate Valid()
      reads this, topics, topics.list, events, events.list, sleepQue, sleepQue.list
      reads waitList, waitList.links, waitList.links.list
    {
      topics.Valid() && QueuesValid() && waitList.Valid()
    }

    constructor (maxEvents: nat)
      ensures Valid()
      ensures Now() == State(Disconnected, false, [], 0, 0, false, [], maxEvents, [], [], [], [], [], [])
    {
      status, clean, snMsgId, hold := Disconnected, false, 0, false;
      topics := new Topics();
      var evs: Que<Event> := NewQue(maxEvents);
      var stored: Que<Publish> := NewQue(MAX_SAVED_PUBLISH);
      events, sleepQue := evs, stored;
      waitList := new RegackList();
      toClient, toBroker, offered, discarded := [], [], [], [];
    }

    // ----- the event queue and the sleep queue

    method PostEvent(ev: Event)
      requires QueuesValid()
      modifies this`discarded, events, events.list
      ensures QueuesValid() && Now() == Post(old(Now()), ev)
      ensures forall n :: n in events.list ==> n in old(events.list) || fresh(n)
    {
      var size := events.Post(ev);
      if size == 0 && ev.BrokerPublish? {
        discarded := discarded + [ev.p.msg];
      }
    }

    method SetClientSleepPacket(p: Publish)
      requires QueuesValid()
      modifies this`discarded, sleepQue, sleepQue.list
      ensures QueuesValid() && Now() == Saved(old(Now()), p)
    {
      var size := sleepQue.Post(p);
      if size == 0 {
        discarded := discarded + [p.msg];
      }
    }

    method SendStoredPublish()
      requires QueuesValid()
      modifies this`discarded, events, events.list, sleepQue, sleepQue.list
      ensures QueuesValid() && Now() == SendStored(old(Now()))
    {
      StoredInOrder(Now());
      ghost var t := Drain(events, sleepQue, Now());
      discarded := t.discarded;
    }

    // ----- the REGACK list

    /** Takes the first packet that waits under this message id off the list. */
    method TakeWaiting(msgId: nat) returns (packet: Option<SnPublish>)
      requires waitList.Valid()
      modifies waitList, waitList.links, waitList.links.list
      ensures waitList.Valid()
      ensures var ws, k := old(waitList.Waitings()), FindWaiting(old(waitList.Waitings()), msgId);
              if k < |ws| then packet == Some(ws[k].packet) && waitList.Waitings() == Without(ws, k)
              else packet == None && waitList.Waitings() == ws
    {
      packet := waitList.GetPacket(msgId);
      if packet.Some? {
        waitList.Erase(msgId);
      }
    }

    /** It goes to the client. */
    method MoveWaiting(msgId: nat)
      requires waitList.Valid()
      modifies this`toClient, waitList, waitList.links, waitList.links.list
      ensures waitList.Valid() && Now() == Released(old(Now()), msgId)
    {
      var packet := TakeWaiting(msgId);
      if packet.Some? {
        toClient := toClient + [SnPub(packet.value)];
      }
    }

    // ----- a PUBLISH from the broker

    method ReplyAck(p: Publish)
      modifies this`toBroker
      ensures Now() == Acknowledged(old(Now()), p)
    {
      if p.msg.qos == 1 {
        toBroker := toBroker + [Puback(p.msg.msgId)];
      } else if p.msg.qos == 2 {
        toBroker := toBroker + [Pubrec(p.msg.msgId)];
      }
    }

    method FindTopic(p: Publish) returns (ref: Option<TopicRef>)
      requires topics.Valid()
      ensures ref == if Resolved(topics.Entries(), p) then Some(Resolve(topics.Entries(), p).topic) else None
    {
      if |p.topic| <= 2 {
        return Some(Short(p.topic));
      }
      var tp := topics.GetTopicByName(p.topic);
      ref :=
        if tp == null then None
        else if tp.kind == PREDEFINED then Some(Known(tp.topicId))
        else Some(Normal(tp.topicId));
    }

    /** A registered topic matches the name as a filter. */
    method IsWanted(name: string) returns (wanted: bool)
      requires topics.Valid()
      ensures wanted == Wanted(topics.Entries(), name)
    {
      var t := topics.Match(NORMAL, name);
      WantedIsMatch(topics, name, t);
      wanted := t != null;
    }

    /** The id of a new normal topic, unless the registry is full. */
    method AddTopic(name: string) returns (id: Option<nat>)
      requires topics.Valid() && waitList.Valid() && ByName(topics.Entries(), name) == |topics.Entries()|
      modifies topics, topics.list
      ensures topics.Valid() && waitList.Valid() && Now() == TopicAdded(old(Now()), name, 0)
      ensures id == if |old(topics.Entries())| >= MAX_TOPIC_PAR_CLIENT then None else Some(topics.nextTopicId)
    {
      ghost var es := topics.Entries();
      if |es| < MAX_TOPIC_PAR_CLIENT {
        AddedFound(es, topics.nextTopicId, name);
      }
      var topic := topics.AddTopicId(NORMAL, name);
      if topic == null {
        return None;
      }
      id := Some(topic.topicId);
    }

    method GetNextSnMsgId() returns (id: nat)
      modifies this`snMsgId
      ensures snMsgId == NextSnMsgId(old(snMsgId)) && id == snMsgId
    {
      snMsgId := (snMsgId + 1) % 0x100;
      if snMsgId == 0 {
        snMsgId := snMsgId + 1;
      }
      id := snMsgId;
    }

    /** Sends REGISTER and lets the PUBLISH wait. */
    method RegisterFirst(id: nat, p: Publish)
      requires topics.Valid() && waitList.Valid()
      modifies this`snMsgId, this`toClient, waitList, waitList.links, waitList.links.list
      ensures topics.Valid() && waitList.Valid()
      ensures Now() == var s, m := old(Now()), NextSnMsgId(old(snMsgId));
                       s.(snMsgId := m, toClient := s.toClient + [Register(id, m, p.topic)],
                          waiting := s.waiting + [Waiting(SnPublish(p.msg, Normal(id)), m)])
    {
      var regackMsgId := GetNextSnMsgId();
      toClient := toClient + [Register(id, regackMsgId, p.topic)];
      waitList.SetPacket(SnPublish(p.msg, Normal(id)), regackMsgId);
    }

    method RegisterTopic(p: Publish)
      requires topics.Valid() && waitList.Valid() && ByName(topics.Entries(), p.topic) == |topics.Entries()|
      modifies this`discarded, this`snMsgId, this`toClient, topics, topics.list
      modifies waitList, waitList.links, waitList.links.list
      ensures topics.Valid() && waitList.Valid()
      ensures Now() == if |old(Now()).topics| >= MAX_TOPIC_PAR_CLIENT then Discard(old(Now()), p)
                       else Registered(old(Now()), p)
    {
      var id := AddTopic(p.topic);
      if id == None {
        discarded := discarded + [p.msg];
      } else {
        RegisterFirst(id.value, p);
      }
    }

    /** A PUBLISH on a topic without an id. */
    method ForwardUnknown(p: Publish)
      requires topics.Valid() && waitList.Valid() && !Resolved(topics.Entries(), p)
      modifies this`discarded, this`snMsgId, this`toClient, this`toBroker
      modifies topics, topics.list, waitList, waitList.links, waitList.links.list
      ensures topics.Valid() && waitList.Valid() && Now() == Forwarded(old(Now()), p)
    {
      var wanted := IsWanted(p.topic);
      if !wanted && clean {
        Refuse(p);
      } else {
        RegisterTopic(p);
      }
    }

    method Refuse(p: Publish)
      modifies this`discarded, this`toBroker
      ensures Now() == Acknowledged(Discard(old(Now()), p), p)
    {
      ReplyAck(p);
      discarded := discarded + [p.msg];
    }

    method Forward(p: Publish)
      requires topics.Valid() && waitList.Valid()
      modifies this`discarded, this`snMsgId, this`toClient, this`toBroker
      modifies topics, topics.list, waitList, waitList.links, waitList.links.list
      ensures topics.Valid() && waitList.Valid() && Now() == Forwarded(old(Now()), p)
    {
      var ref := FindTopic(p);
      if ref.Some? {
        toClient := toClient + [SnPub(SnPublish(p.msg, ref.value))];
      } else {
        ForwardUnknown(p);
      }
    }

    method Save(p: Publish)
      requires Valid()
      modifies this`toBroker, this`discarded, sleepQue, sleepQue.list
      ensures Valid() && Now() == Saved(Acknowledged(old(Now()), p), p)
    {
      ReplyAck(p);
      SetClientSleepPacket(p);
    }

    method ForwardNow(p: Publish)
      requires Valid()
      modifies this`discarded, this`snMsgId, this`toClient, this`toBroker
      modifies topics, topics.list, waitList, waitList.links, waitList.links.list
      ensures Valid() && Now() == Forwarded(old(Now()), p)
    {
      Forward(p);
    }

    method OnPublish(p: Publish)
      requires Valid()
      modifies this`discarded, this`snMsgId, this`toClient, this`toBroker
      modifies topics, topics.list, sleepQue, sleepQue.list, waitList, waitList.links, waitList.links.list
      ensures Valid() && Now() == HandlePublish(old(Now()), p)
    {
      if status != Active && status != Asleep && status != Awake {
        discarded := discarded + [p.msg];
      } else if status == Asleep {
        Save(p);
      } else {
        ForwardNow(p);
      }
    }

    // ----- packets from the client

    method OnRegack(msgId: nat)
      requires waitList.Valid()
      modifies this`hold, this`toBroker, this`toClient, waitList, waitList.links, waitList.links.list
      ensures waitList.Valid() && Now() == HandleRegack(old(Now()), msgId)
    {
      if status != Active && status != Awake {
        return;
      }
      MoveWaiting(msgId);
      var count := waitList.GetCount();
      if hold && count == 0 {
        hold := false;
        toBroker := toBroker + [Pingreq];
      }
    }

    method DrainAndHold()
      requires QueuesValid()
      modifies this`hold, this`discarded, events, events.list, sleepQue, sleepQue.list
      ensures QueuesValid() && Now() == SendStored(old(Now())).(hold := true)
    {
      SendStoredPublish();
      hold := true;
    }

    method OnPingreq()
      requires QueuesValid()
      modifies this`hold, this`toBroker, this`discarded, events, events.list, sleepQue, sleepQue.list
      ensures QueuesValid() && Now() == HandlePingreq(old(Now()))
    {
      var first := sleepQue.Front();
      if (status == Asleep || status == Awake) && first.Some? {
        DrainAndHold();
      } else {
        hold := false;
        toBroker := toBroker + [Pingreq];
      }
    }

    method RequestConnection(will: bool)
      modifies this`toClient, this`toBroker
      ensures Now() == if will then Send(old(Now()), WillTopicReq) else SendBroker(old(Now()), Connect)
    {
      if will {
        toClient := toClient + [WillTopicReq];
      } else {
        toBroker := toBroker + [Connect];
      }
    }

    method ForgetNormal()
      requires topics.Valid()
      modifies topics, topics.list
      ensures topics.Valid() && Now() == old(Now()).(topics := Predefined(old(Now()).topics))
    {
      topics.EraseNormal();
    }

    method StartSession(cleanSession: bool)
      requires topics.Valid()
      modifies this`status, this`clean, topics, topics.list
      ensures topics.Valid()
      ensures Now() == old(Now()).(status := Disconnected, clean := cleanSession,
                                   topics := if cleanSession then Predefined(old(Now()).topics) else old(Now()).topics)
    {
      NoSession();
      if cleanSession {
        CleanSession();
      }
    }

    method NoSession()
      requires topics.Valid()
      modifies this`status, this`clean
      ensures topics.Valid() && Now() == old(Now()).(status := Disconnected, clean := false)
    {
      status := Disconnected;
      clean := false;
    }

    method CleanSession()
      requires topics.Valid()
      modifies this`clean, topics, topics.list
      ensures topics.Valid() && Now() == old(Now()).(clean := true, topics := Predefined(old(Now()).topics))
    {
      ForgetNormal();
      clean := true;
    }

    /** CONNECT of a sleeping client. */
    method ConnectAsleep()
      requires QueuesValid()
      modifies this`toClient, this`discarded, events, events.list, sleepQue, sleepQue.list
      ensures QueuesValid() && Now() == SendStored(Send(old(Now()), Connack))
    {
      toClient := toClient + [Connack];
      SendStoredPublish();
    }

    method ReturnAsleep()
      requires Valid()
      modifies this`toClient, this`discarded, events, events.list, sleepQue, sleepQue.list
      ensures Valid() && Now() == SendStored(Send(old(Now()), Connack))
    {
      ConnectAsleep();
    }

    method ConnectAnew(cleanSession: bool, will: bool)
      requires Valid()
      modifies this`status, this`clean, this`toClient, this`toBroker, topics, topics.list
      ensures Valid()
      ensures var s := old(Now());
              var t := s.(status := Disconnected, clean := cleanSession,
                          topics := if cleanSession then Predefined(s.topics) else s.topics);
              Now() == if will then Send(t, WillTopicReq) else SendBroker(t, Connect)
    {
      StartSession(cleanSession);
      RequestConnection(will);
    }

    method OnConnect(cleanSession: bool, will: bool)
      requires Valid()
      modifies this`status, this`clean, this`toClient, this`toBroker, this`discarded
      modifies topics, topics.list, events, events.list, sleepQue, sleepQue.list
      ensures Valid() && Now() == HandleConnect(old(Now()), cleanSession, will)
    {
      if status == Asleep || status == Awake {
        ReturnAsleep();
      } else {
        ConnectAnew(cleanSession, will);
      }
    }

    method OnDisconnect(duration: nat)
      modifies this`toBroker, this`toClient
      ensures Now() == HandleBye(old(Now()), duration)
    {
      if duration == 0 {
        toBroker := toBroker + [Disconnect];
      }
      toClient := toClient + [SnDisconnect];
    }

    method UpdateStatus(packet: FromClient)
      requires Valid()
      modifies this`status
      ensures Valid() && Now() == old(Now()).(status := UpdatedStatus(old(status), packet))
    {
      if status == Active {
        if packet.SnBye? {
          status := if packet.duration != 0 then Asleep else Disconnected;
        }
      } else if status == Awake || status == Asleep {
        match packet
        case SnConnect(_, _) => status := Active;
        case SnBye(_) => status := Disconnected;
        case SnPingreq => status := Awake;
        case _ =>
      }
    }

    /** The handler for a packet from the client. */
    method Dispatch(packet: FromClient)
      requires Valid()
      modifies this, topics, topics.list, events, events.list, sleepQue, sleepQue.list
      modifies waitList, waitList.links, waitList.links.list
      ensures Valid() && Now() == HandlePacket(old(Now()), packet)
    {
      match packet {
        case SnConnect(c, w) => OnConnect(c, w);
        case SnPingreq => Ping();
        case SnRegack(m) => Regack(m);
        case SnBye(d) => OnDisconnect(d);
      }
    }

    method Ping()
      requires Valid()
      modifies this`hold, this`toBroker, this`discarded, events, events.list, sleepQue, sleepQue.list
      ensures Valid() && Now() == HandlePingreq(old(Now()))
    {
      OnPingreq();
    }

    method Regack(msgId: nat)
      requires Valid()
      modifies this`hold, this`toBroker, this`toClient, waitList, waitList.links, waitList.links.list
      ensures Valid() && Now() == HandleRegack(old(Now()), msgId)
    {
      OnRegack(msgId);
    }

    /** The handler, then its effect on the status. */
    method OnPacket(packet: FromClient)
      requires Valid()
      modifies this, topics, topics.list, events, events.list, sleepQue, sleepQue.list
      modifies waitList, waitList.links, waitList.links.list
      ensures Valid()
      ensures Now() == var t := HandlePacket(old(Now()), packet); t.(status := UpdatedStatus(t.status, packet))
    {
      Dispatch(packet);
      UpdateStatus(packet);
    }

    // ----- the packet task

    method OnNewTopic(name: string, id: nat)
      requires Valid()
      modifies topics, topics.list
      ensures Valid() && Now() == TopicAdded(old(Now()), name, id)
    {
      var t := topics.Add(name, id);
    }

    method OnPingresp()
      requires Valid()
      modifies this`toClient, this`status
      ensures Valid()
      ensures Now() == var s := old(Now());
                       Send(s, Pingresp).(status := if s.status.Awake? || s.status.Asleep? then Asleep else s.status)
    {
      toClient := toClient + [Pingresp];
      if status == Awake || status == Asleep {
        status := Asleep;
      }
    }

    method OnBrokerBye()
      requires Valid()
      modifies this`status
      ensures Valid() && Now() == old(Now()).(status := Disconnected)
    {
      status := Disconnected;
    }

    method OnEvent(ev: Event)
      requires Valid()
      modifies this, topics, topics.list, events, events.list, sleepQue, sleepQue.list
      modifies waitList, waitList.links, waitList.links.list
      ensures Valid() && Now() == HandleEvent(old(Now()), ev)
    {
      match ev
      case BrokerPublish(p) => OnPublish(p);
      case BrokerPingresp => OnPingresp();
      case BrokerBye => OnBrokerBye();
      case ClientPacket(packet) => OnPacket(packet);
      case NewTopic(name, id) => OnNewTopic(name, id);
      case Foreign =>
    }

    method PopEvent() returns (ev: Event)
      requires QueuesValid() && events.Contents() != []
      modifies events, events.list
      ensures QueuesValid() && ev == old(events.Contents())[0]
              && Now() == old(Now()).(events := old(events.Contents())[1..])
      ensures forall n :: n in events.list ==> n in old(events.list)
    {
      var front := events.Front();
      ev := front.value;
      events.Pop();
    }

    method TakeEvent() returns (ev: Event)
      requires Valid() && events.Contents() != []
      modifies events, events.list
      ensures Valid() && ev == old(events.Contents())[0] && Now() == old(Now()).(events := old(events.Contents())[1..])
      ensures forall i :: 0 <= i < |events.list| ==> events.list[i] in old(events.list)
    {
      ev := PopEvent();
    }

    /** Any task posts an event. */
    method OfferEvent(ev: Event)
      requires Valid()
      modifies this`offered, this`discarded, events, events.list
      ensures Valid() && Now() == Step(old(Now()), Offer(ev))
    {
      if ev.BrokerPublish? {
        offered := offered + [ev.p.msg];
      }
      PostEvent(ev);
    }

    method TakeAndHandle()
      requires Valid() && events.Contents() != []
      modifies this, topics, topics.list, events, events.list, sleepQue, sleepQue.list
      modifies waitList, waitList.links, waitList.links.list
      ensures Valid() && Now() == Step(old(Now()), Handle)
    {
      var ev := TakeEvent();
      OnEvent(ev);
    }

    /** One turn of the packet task. */
    method HandleFront()
      requires Valid()
      modifies this, topics, topics.list, events, events.list, sleepQue, sleepQue.list
      modifies waitList, waitList.links, waitList.links.list
      ensures Valid() && Now() == Step(old(Now()), Handle)
    {
      var size := events.Size();
      if size > 0 {
        TakeAndHandle();
      }
    }
  }

  /** Two queues hold what a state says. */
  ghost predicate Shows(events: Que<Event>, sleepQue: Que<Publish>, s: State)
    reads events, events.list, sleepQue, sleepQue.list
  {
    && events.Valid() && sleepQue.Valid()
    && s.events == events.Contents() && s.maxEvents == events.maxSize && s.sleeping == sleepQue.Contents()
  }

  /** The front of the sleep queue, if any, goes to the event queue, which deletes it when it is full. */
  method MoveFirst(events: Que<Event>, sleepQue: Que<Publish>, ghost s: State) returns (more: bool, ghost t: State)
    requires Shows(events, sleepQue, s)
    modifies events, events.list, sleepQue, sleepQue.list
    ensures Shows(events, sleepQue, t) && sleepQue.maxSize == old(sleepQue.maxSize) && more == (s.sleeping != [])
    ensures t == if more then Post(s, BrokerPublish(s.sleeping[0])).(sleeping := s.sleeping[1..]) else s
    ensures forall n :: n in events.list ==> n in old(events.list) || fresh(n)
    ensures forall n :: n in sleepQue.list ==> n in old(sleepQue.list)
  {
    t := s;
    var msg := sleepQue.Front();
    more := msg.Some?;
    if more {
      t := Post(s, BrokerPublish(msg.value)).(sleeping := s.sleeping[1..]);
      sleepQue.Pop();
      var size := events.Post(BrokerPublish(msg.value));
    }
  }

  method Drain(events: Que<Event>, sleepQue: Que<Publish>, ghost s: State) returns (ghost t: State)
    requires Shows(events, sleepQue, s)
    modifies events, events.list, sleepQue, sleepQue.list
    ensures t == SendStored(s) && Shows(events, sleepQue, t) && sleepQue.maxSize == old(sleepQue.maxSize)
  {
    t := s;
    var more := true;
    ghost var evs, sls := events.list, sleepQue.list;
    while more
      invariant Shows(events, sleepQue, t) && sleepQue.maxSize == old(sleepQue.maxSize)
      invariant SendStored(t) == SendStored(s) && (!more ==> t.sleeping == [])
      invariant forall n :: n in events.list ==> n in evs || fresh(n)
      invariant forall n :: n in sleepQue.list ==> n in sls
      decreases |t.sleeping|, more
    {
      assert forall i :: 0 <= i < |events.list| ==> events.list[i] in evs || fresh(events.list[i]);
      assert forall i :: 0 <= i < |sleepQue.list| ==> sleepQue.list[i] in sls;
      more, t := MoveFirst(events, sleepQue, t);
    }
  }

  lemma WantedIsMatch(topics: Topics, name: string, t: Topic?)
    requires exists i :: 0 <= i <= |topics.list| && t == TopicRegistry.At(topics.list, i)
                         && (forall j :: 0 <= j < i ==> !IsFilterOf(topics.list[j].name, name))
                         && (i < |topics.list| ==> IsFilterOf(topics.list[i].name, name))
    ensures Wanted(topics.Entries(), name) <==> t != null
  {
    var es := topics.Entries();
    if t != null {
      var i :| 0 <= i < |es| && es[i].name == t.name && IsFilterOf(es[i].name, name);
      assert es[i] in es;
    }
  }
}
