/**
 A PUBLISH from an MQTT-SN client on its way to the broker, over whole runs of the client's topic registry, and what
 becomes of it when the broker sends it back to the same client.
 */
module Translation {
  import opened SleepPath
  import opened TopicRegistry
  import opened Wrappers

  datatype Outcome = ToBrokerAs(p: Publish) | Rejected(topic: TopicRef, msgId: nat) | Dropped

  /** The index of the topic with an id, or the number of topics. */
  ghost function IndexOf(es: seq<Entry>, t: TopicRef): (i: nat)
    ensures i <= |es|
  {
    match t
    case Normal(id) => ById(es, NORMAL, id)
    case Known(id) => ById(es, PREDEFINED, id)
    case Short(_) => |es|
  }

  /** A client's registry: its topics and its id counter. */
  datatype Registry = Registry(topics: seq<Entry>, counter: nat)

  /**
   The name behind a topic id and the registry after the lookup: a predefined topic of the gateway is added to those
   of the client, unless they are too many.
   */
  ghost function Lookup(r: Registry, gateway: seq<Entry>, t: TopicRef): (Option<string>, Registry)
    requires r.counter <= 0xffff
  {
    var i, k := IndexOf(r.topics, t), IndexOf(gateway, t);
    if i < |r.topics| then (Some(r.topics[i].name), r)
    else if k == |gateway| || |r.topics| >= MAX_TOPIC_PAR_CLIENT then (None, r)
    else
      var (es, counter) := Added(r.topics, r.counter, gateway[k].name, gateway[k].id);
      (Some(gateway[k].name), Registry(es, counter))
  }

  ghost function Found(r: Registry, gateway: seq<Entry>, t: TopicRef): Option<string>
    requires r.counter <= 0xffff
  {
    Lookup(r, gateway, t).0
  }

  /** QoS -1, sent as 3, becomes 0. */
  function Delivery(qos: nat): nat {
    if qos == 3 then 0 else qos
  }

  /**
   The handler of a client's PUBLISH; an unknown topic id that is neither rejected nor dropped goes on without a name.
   */
  ghost function FromClient(r: Registry, gateway: seq<Entry>, sn: SnPublish): Outcome
    requires r.counter <= 0xffff
  {
    var msg, name := sn.msg, Found(r, gateway, sn.topic);
    if sn.topic.Short? then ToBrokerAs(Publish(msg.(qos := Delivery(msg.qos)), sn.topic.name))
    else if name == None && msg.qos == 3 then Dropped
    else if (msg.qos == 0 || msg.qos == 3) && msg.msgId > 0 then Dropped
    else if name == None && msg.msgId > 0 && 0 < msg.qos < 3 then Rejected(sn.topic, msg.msgId)
    else ToBrokerAs(Publish(msg.(qos := Delivery(msg.qos)), if name == None then "" else name.value))
  }

  // ----- which ids are found, and what becomes of a PUBLISH

  /** A topic of a list stands under an id: a normal one under a normal id, a predefined one under a predefined id. */
  ghost predicate StandsFor(e: Entry, t: TopicRef) {
    match t
    case Normal(id) => e.kind == NORMAL && e.id == id
    case Known(id) => e.kind == PREDEFINED && e.id == id
    case Short(_) => false
  }

  ghost predicate Lists(es: seq<Entry>, t: TopicRef) {
    exists i :: 0 <= i < |es| && StandsFor(es[i], t)
  }

  /** The first topic of a list that stands under an id has this name. */
  ghost predicate FirstNamed(es: seq<Entry>, t: TopicRef, name: string) {
    exists i :: 0 <= i < |es| && StandsFor(es[i], t) && es[i].name == name
                && forall j :: 0 <= j < i ==> !StandsFor(es[j], t)
  }

  lemma IndexIsFirst(es: seq<Entry>, t: TopicRef)
    ensures IndexOf(es, t) < |es| <==> Lists(es, t)
    ensures forall name :: FirstNamed(es, t, name) <==> IndexOf(es, t) < |es| && es[IndexOf(es, t)].name == name
  {
    var k := IndexOf(es, t);
    if k < |es| {
      assert StandsFor(es[k], t) && forall j :: 0 <= j < k ==> !StandsFor(es[j], t);
    }
  }

  /**
   An id is found if a topic of the client has it, or one of the gateway and the client has room for that; with what
   name.
   */
  lemma FoundIff(r: Registry, gateway: seq<Entry>, t: TopicRef)
    requires r.counter <= 0xffff
    ensures Found(r, gateway, t).Some? <==> Lists(r.topics, t) || (Lists(gateway, t) && |r.topics| < 50)
    ensures forall name :: Found(r, gateway, t) == Some(name) <==>
                             if Lists(r.topics, t) then FirstNamed(r.topics, t, name)
                             else FirstNamed(gateway, t, name) && |r.topics| < 50
  {
    IndexIsFirst(r.topics, t);
    IndexIsFirst(gateway, t);
  }

  /** The lookup adds the gateway's topic to the client's, under its own id, unless the client has its name already. */
  lemma LookupAdds(r: Registry, gateway: seq<Entry>, t: TopicRef)
    requires r.counter <= 0xffff && GatewayTopics(gateway)
    ensures var r', k := Lookup(r, gateway, t).1, IndexOf(gateway, t);
            && r'.counter == r.counter
            && r'.topics == r.topics + (if Lists(r.topics, t) || !Lists(gateway, t) || |r.topics| >= 50
                                           || ByName(r.topics, gateway[k].name) < |r.topics| then [] else [gateway[k]])
  {
    IndexIsFirst(r.topics, t);
    IndexIsFirst(gateway, t);
  }

  /** The id of a PUBLISH with a topic id is of no use. */
  ghost predicate Lost(r: Registry, gateway: seq<Entry>, sn: SnPublish) {
    !sn.topic.Short? && !Lists(r.topics, sn.topic) && (!Lists(gateway, sn.topic) || |r.topics| >= 50)
  }

  /**
   A client gets the negative PUBACK exactly for QoS 1 and 2 with a message id and an id of no use, with its own topic
   id and message id. Without an answer stay QoS -1 with an id of no use, and QoS 0 and -1 with a message id. All
   other publishes go to the broker, QoS -1 as 0 and every other field as it was; a short topic under its own name.
   */
  lemma PublishAnswered(r: Registry, gateway: seq<Entry>, sn: SnPublish)
    requires r.counter <= 0xffff && sn.msg.qos <= 3
    ensures var out, lost := FromClient(r, gateway, sn), Lost(r, gateway, sn);
            var acknowledged := sn.msg.qos == 1 || sn.msg.qos == 2;
            && (out.Rejected? <==> lost && acknowledged && sn.msg.msgId > 0)
            && (out.Rejected? ==> out == Rejected(sn.topic, sn.msg.msgId))
            && (out.Dropped? <==> !sn.topic.Short? && !acknowledged && (sn.msg.msgId > 0 || (lost && sn.msg.qos == 3)))
            && (out.ToBrokerAs? ==> && out.p.msg == sn.msg.(qos := if acknowledged then sn.msg.qos else 0)
                                    && (sn.topic.Short? ==> out.p.topic == sn.topic.name))
  {
    FoundIff(r, gateway, sn.topic);
  }

  // ----- there and back

  /** MQTT carries no message id at QoS 0. */
  ghost function Carried(p: Publish): Publish {
    if p.msg.qos == 0 then Publish(p.msg.(msgId := 0), p.topic) else p
  }

  /** The message as the client sees it again. */
  ghost function Echo(msg: Message): Message {
    msg.(qos := Delivery(msg.qos), msgId := if Delivery(msg.qos) == 0 then 0 else msg.msgId)
  }

  /** A message that has come back. */
  ghost predicate Same(sent: Message, back: Message) {
    && back.dup == sent.dup && back.retain == sent.retain && back.payload == sent.payload
    && back.qos == (if sent.qos == 1 || sent.qos == 2 then sent.qos else 0)
    && back.msgId == (if sent.qos == 1 || sent.qos == 2 then sent.msgId else 0)
  }

  /** The gateway's own topics are predefined, with ids other than 0. */
  ghost predicate GatewayTopics(es: seq<Entry>) {
    forall i :: 0 <= i < |es| ==> es[i].kind == PREDEFINED && es[i].id != 0
  }

  /** They are what the configuration adds. */
  lemma {:induction false} ConfiguredTopics(ops: seq<Op>)
    requires forall i :: 0 <= i < |ops| ==> ops[i].AddTopic? && ops[i].id != 0
    ensures GatewayTopics(TopicRegistry.Registry(ops).0)
  {
    if ops != [] {
      ConfiguredTopics(ops[..|ops| - 1]);
    }
  }

  /** A name found stands in the registry after the lookup. */
  lemma FoundByName(r: Registry, gateway: seq<Entry>, t: TopicRef)
    requires r.counter <= 0xffff && NamesDistinct(r.topics) && GatewayTopics(gateway) && Found(r, gateway, t).Some?
    ensures var name, es := Found(r, gateway, t).value, Lookup(r, gateway, t).1.topics;
            && ByName(es, name) < |es|
            && (RefTo(es[ByName(es, name)]) == t <==>
                  IndexOf(r.topics, t) < |r.topics| || ByName(r.topics, name) == |r.topics|)
  {
    var i, k := IndexOf(r.topics, t), IndexOf(gateway, t);
    if i == |r.topics| {
      var g := gateway[k];
      if ByName(r.topics, g.name) == |r.topics| {
        var es := r.topics + [Entry(PREDEFINED, g.id, g.name)];
        assert es[|r.topics|].name == g.name && forall j :: 0 <= j < |r.topics| ==> es[j] == r.topics[j];
        assert ByName(es, g.name) == |r.topics|;
      }
    }
  }

  /**
   There and back: the client gets dup, retain and payload as it sent them, QoS -1 as QoS 0 and the message id at QoS
   1 and 2; and it gets its own topic reference exactly when that is a short topic, or the topic's name is longer than
   two characters and no other topic of the client has the name of a gateway topic that was looked up.
   */
  lemma ThereAndBack(s: State, gateway: seq<Entry>, sn: SnPublish)
    requires (s.status.Active? || s.status.Awake?) && s.counter <= 0xffff && NamesDistinct(s.topics) && sn.msg.qos <= 3
    requires GatewayTopics(gateway)
    requires var r := Registry(s.topics, s.counter);
             if sn.topic.Short? then |sn.topic.name| == 2
             else Found(r, gateway, sn.topic).Some? && (Delivery(sn.msg.qos) == 0 ==> sn.msg.msgId == 0)
    ensures FromClient(Registry(s.topics, s.counter), gateway, sn).ToBrokerAs?
    ensures var r := Registry(s.topics, s.counter);
            var r' := if sn.topic.Short? then r else Lookup(r, gateway, sn.topic).1;
            var p := Carried(FromClient(r, gateway, sn).p);
            var t := s.(topics := r'.topics, counter := r'.counter);
            && Resolved(t.topics, p) && t.counter <= 0xffff
            && HandlePublish(t, p) == Send(t, SnPub(Resolve(t.topics, p)))
            && Resolve(t.topics, p).msg == Echo(sn.msg)
            && Same(sn.msg, Resolve(t.topics, p).msg)
            && (Resolve(t.topics, p).topic == sn.topic <==>
                  sn.topic.Short?
                  || (&& |p.topic| > 2
                      && (IndexOf(s.topics, sn.topic) < |s.topics| || ByName(s.topics, p.topic) == |s.topics|)))
  {
    if !sn.topic.Short? {
      FoundByName(Registry(s.topics, s.counter), gateway, sn.topic);
    }
  }

  // ----- over runs

  /** What changes a client's registry or looks something up in it. */
  datatype Move = Change(op: Op) | Sends(sn: SnPublish)

  ghost function After(gateway: seq<Entry>, moves: seq<Move>): (r: Registry)
    ensures r.counter <= 0xffff
  {
    if moves == [] then Registry([], 0)
    else
      var r := After(gateway, moves[..|moves| - 1]);
      match moves[|moves| - 1]
      case Sends(sn) => if sn.topic.Short? then r else Lookup(r, gateway, sn.topic).1
      case Change(AddTopic(name, id)) =>
        var (es, counter) := Added(r.topics, r.counter, name, id);
        Registry(es, counter)
      case Change(EraseNormals) => r.(topics := Predefined(r.topics))
  }

  ghost predicate Named(es: seq<Entry>) {
    forall i :: 0 <= i < |es| ==> es[i].name != ""
  }

  /** No topic comes in under the empty name. */
  ghost predicate NoEmptyName(moves: seq<Move>) {
    forall i :: 0 <= i < |moves| && moves[i].Change? && moves[i].op.AddTopic? ==> moves[i].op.name != ""
  }

  lemma AddedNamed(es: seq<Entry>, counter: nat, name: string, id: nat)
    requires counter <= 0xffff && Named(es) && name != ""
    ensures Named(Added(es, counter, name, id).0)
  {
  }

  lemma ErasedNamed(es: seq<Entry>)
    requires Named(es)
    ensures Named(Predefined(es))
  {
    PredefinedProps(es);
    forall i | 0 <= i < |Predefined(es)| ensures Predefined(es)[i].name != "" {
      assert Predefined(es)[i] in Predefined(es);
    }
  }

  lemma {:induction false} AlwaysNamed(gateway: seq<Entry>, moves: seq<Move>)
    requires Named(gateway) && NoEmptyName(moves)
    ensures Named(After(gateway, moves).topics)
  {
    if moves != [] {
      var before := moves[..|moves| - 1];
      var r := After(gateway, before);
      AlwaysNamed(gateway, before);
      match moves[|moves| - 1]
      case Sends(sn) =>
        var k := IndexOf(gateway, sn.topic);
        if k < |gateway| {
          AddedNamed(r.topics, r.counter, gateway[k].name, gateway[k].id);
        }
      case Change(AddTopic(name, id)) => AddedNamed(r.topics, r.counter, name, id);
      case Change(EraseNormals) => ErasedNamed(r.topics);
    }
  }

  /**
   Over every run, what the broker gets for an unknown topic id has no topic, and it gets such a PUBLISH if and only
   if that has message id 0 and a QoS other than -1. What it gets for a known id has a topic, unless one came in under
   the empty name.
   */
  lemma BrokerGetsNames(gateway: seq<Entry>, moves: seq<Move>, sn: SnPublish)
    requires sn.msg.qos <= 3 && !sn.topic.Short?
    ensures var r := After(gateway, moves);
            var out, known := FromClient(r, gateway, sn), Found(r, gateway, sn.topic).Some?;
            && (out.ToBrokerAs? && !known ==> out.p.topic == "")
            && (out.ToBrokerAs? && known && Named(gateway) && NoEmptyName(moves) ==> out.p.topic != "")
            && (!known ==> (out.ToBrokerAs? <==> sn.msg.msgId == 0 && sn.msg.qos != 3))
  {
    if Named(gateway) && NoEmptyName(moves) {
      AlwaysNamed(gateway, moves);
    }
  }

  /** Such a PUBLISH reaches the broker without a topic. */
  lemma NamelessPublish(payload: seq<nat>)
    ensures FromClient(Registry([], 0), [], SnPublish(Message(false, 0, false, 0, payload), Normal(1))) ==
            ToBrokerAs(Publish(Message(false, 0, false, 0, payload), ""))
  {
  }
}
