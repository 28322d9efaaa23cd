/**
 The packet codecs and the handlers put together: a PUBLISH from the broker's stream to the datagram the client reads,
 and a client's datagram to the broker and back, with the buffers in between.
 */
module ByteLevel {
  import opened SleepPath
  import opened TopicRegistry
  import opened Wrappers
  import MqttPacket
  import SnPacket
  import Translation

  const MAX_PACKET_SIZE := 1024

  // ----- names and payloads as bytes

  ghost predicate Octets(s: string) {
    forall i :: 0 <= i < |s| ==> s[i] as int < 0x100
  }

  function Chars(bs: seq<byte>): string {
    seq(|bs|, i requires 0 <= i < |bs| => bs[i] as char)
  }

  ghost function Coded(s: string): seq<byte>
    requires Octets(s)
  {
    seq(|s|, i requires 0 <= i < |s| => s[i] as int)
  }

  lemma CharsCoded(s: string)
    requires Octets(s)
    ensures Chars(Coded(s)) == s
  {
  }

  ghost predicate Binary(payload: seq<nat>) {
    forall i :: 0 <= i < |payload| ==> payload[i] < 0x100
  }

  // ----- broker packets

  function AsPublish(p: MqttPacket.Publish): Publish {
    Publish(Message(p.dup, p.qos, p.retain, p.msgId, p.payload), Chars(p.topic))
  }

  ghost predicate Writable(p: Publish) {
    && p.msg.qos <= 2 && p.msg.msgId < 0x1_0000 && (p.msg.qos == 0 ==> p.msg.msgId == 0)
    && Binary(p.msg.payload) && Octets(p.topic) && |p.topic| < 0x1_0000
  }

  ghost function AsMqtt(p: Publish): MqttPacket.Publish
    requires Writable(p)
  {
    MqttPacket.Publish(p.msg.dup, p.msg.qos, p.msg.retain, p.msg.msgId, Coded(p.topic), p.msg.payload)
  }

  // ----- client packets

  ghost predicate Encodable(sn: SnPublish) {
    && sn.msg.qos <= 3 && sn.msg.msgId < 0x1_0000 && Binary(sn.msg.payload)
    && match sn.topic
       case Short(name) => |name| == 2 && Octets(name)
       case Normal(id) => id < 0x1_0000 && sn.msg.qos != 3
       case Known(id) => id < 0x1_0000
  }

  ghost function AsTopic(t: TopicRef): SnPacket.Topic
    requires t.Short? ==> |t.name| == 2 && Octets(t.name)
  {
    match t
    case Short(name) => SnPacket.Short(name[0] as int, name[1] as int)
    case Normal(id) => SnPacket.ById(id)
    case Known(id) => SnPacket.Predefined(id)
  }

  ghost function AsPacket(sn: SnPublish): (p: SnPacket.Packet)
    requires Encodable(sn)
    ensures SnPacket.WellFormed(p) && |SnPacket.Body(p)| == 6 + |sn.msg.payload|
  {
    SnPacket.Publish(sn.msg.dup, sn.msg.qos, sn.msg.retain, sn.msg.msgId, AsTopic(sn.topic), sn.msg.payload)
  }

  /** The length argument of setPUBLISH has sixteen bits. */
  ghost function Cut(sn: SnPublish): SnPublish {
    sn.(msg := sn.msg.(payload := sn.msg.payload[..|sn.msg.payload| % 0x1_0000]))
  }

  /** What goes out to the client: nothing sensible when the packet does not fit in the buffer of setPUBLISH. */
  ghost function Datagram(sn: SnPublish): Option<seq<byte>>
    requires Encodable(sn)
  {
    var body := SnPacket.Body(AsPacket(Cut(sn)));
    if SnPacket.PacketLen(|body|) > MAX_PACKET_SIZE then None else Some(SnPacket.Framed(body))
  }

  ghost function ClientReads(sn: SnPublish): Option<SnPacket.Packet>
    requires Encodable(sn)
  {
    match Datagram(sn)
    case Some(bytes) => SnPacket.Deserialized(bytes)
    case None => None
  }

  /** The payload lengths that pass. */
  predicate Passes(length: nat) {
    length != 248 && length <= 1015
  }

  /** The client reads a PUBLISH as it was meant exactly for these payloads. */
  lemma ClientReadsIff(sn: SnPublish)
    requires Encodable(sn)
    ensures ClientReads(sn) == Some(AsPacket(sn)) <==> Passes(|sn.msg.payload|)
  {
    if |sn.msg.payload| < 0x1_0000 {
      NothingCut(sn);
      SnPacket.RoundTrip(AsPacket(sn));
    } else {
      LongCut(sn);
    }
  }

  lemma NothingCut(sn: SnPublish)
    requires |sn.msg.payload| < 0x1_0000
    ensures Cut(sn) == sn
  {
    assert sn.msg.payload[..|sn.msg.payload|] == sn.msg.payload;
  }

  /** A longer payload comes out as a part of it at best. */
  lemma LongCut(sn: SnPublish)
    requires Encodable(sn) && |sn.msg.payload| >= 0x1_0000
    ensures ClientReads(sn) != Some(AsPacket(sn))
  {
    var body := SnPacket.Body(AsPacket(Cut(sn)));
    SnPacket.UnframedFramed(body);
    var seen := SnPacket.Unframed(SnPacket.Framed(body));
    if seen.Some? && SnPacket.Parse(seen.value) == Some(AsPacket(sn)) {
      SnPacket.ParsedLength(seen.value, AsPacket(sn));
    }
  }

  // ----- from the broker to the client

  ghost predicate SixteenBits(es: seq<Entry>) {
    forall i :: 0 <= i < |es| ==> es[i].id < 0x1_0000
  }

  lemma ResolvedEncodable(es: seq<Entry>, p: Publish)
    requires Resolved(es, p) && SixteenBits(es) && Writable(p) && |p.topic| >= 2
    ensures Encodable(Resolve(es, p))
  {
  }

  /**
   A PUBLISH on the broker's stream, on a topic that has an id or needs none: it is taken off the stream with all its
   fields exactly below the limit of its length code; and what is handled reaches the client with the same fields and
   the topic's id exactly for the payloads that pass.
   */
  lemma BrokerToClient(s: State, p: MqttPacket.Publish, tail: seq<byte>)
    requires (s.status.Active? || s.status.Awake?) && s.counter <= 0xffff && SixteenBits(s.topics)
    requires MqttPacket.WellFormed(p) && p.qos <= 2 && |p.topic| >= 2 && Resolved(s.topics, AsPublish(p))
    ensures TakenOff(p, tail) <==> |MqttPacket.Encoded(p).data| < 128 * 128 * 128
    ensures var sn := Resolve(s.topics, AsPublish(p));
            && HandlePublish(s, AsPublish(p)) == Send(s, SnPub(sn)) && Encodable(sn)
            && AsPacket(sn) == SnPacket.Publish(p.dup, p.qos, p.retain, p.msgId, AsTopic(sn.topic), p.payload)
            && GoesUnder(s.topics, p.topic, AsTopic(sn.topic))
            && (ClientTakes(s, AsPublish(p)) <==> Passes(|p.payload|))
  {
    MqttPacket.WireReceived(MqttPacket.Encoded(p), tail);
    MqttPacket.PublishDecoded(p);
    ResolvedEncodable(s.topics, AsPublish(p));
    ReferenceSent(s.topics, p);
    ClientReadsIff(Resolve(s.topics, AsPublish(p)));
  }

  /** Two characters go as they are, a longer name under the id and kind of the first topic of that name. */
  ghost predicate GoesUnder(es: seq<Entry>, name: seq<byte>, t: SnPacket.Topic) {
    if |name| == 2 then t == SnPacket.Short(name[0], name[1])
    else
      exists i :: 0 <= i < |es| && es[i].name == Chars(name) && (forall j :: 0 <= j < i ==> es[j].name != Chars(name))
                  && t == if es[i].kind == PREDEFINED then SnPacket.Predefined(es[i].id) else SnPacket.ById(es[i].id)
  }

  lemma ReferenceSent(es: seq<Entry>, p: MqttPacket.Publish)
    requires Resolved(es, AsPublish(p)) && |p.topic| >= 2
    ensures var t := Resolve(es, AsPublish(p)).topic;
            (t.Short? ==> |t.name| == 2 && Octets(t.name)) && GoesUnder(es, p.topic, AsTopic(t))
  {
    if |p.topic| > 2 {
      var i := ByName(es, Chars(p.topic));
      assert es[i].name == Chars(p.topic);
    }
  }

  // ----- from the client to the broker

  /** A datagram is cut to the buffer of the receiving call. */
  ghost function GatewayReads(sn: SnPublish): Option<SnPacket.Packet>
    requires Encodable(sn)
  {
    var bytes := SnPacket.Framed(SnPacket.Body(AsPacket(sn)));
    SnPacket.Deserialized(if |bytes| > MAX_PACKET_SIZE then bytes[..MAX_PACKET_SIZE] else bytes)
  }

  /** What a reader sees in a buffer is shorter than the buffer. */
  lemma UnframedShorter(buf: seq<byte>)
    ensures SnPacket.Unframed(buf).Some? ==> |SnPacket.Unframed(buf).value| < |buf|
    ensures SnPacket.Unframed(buf).Some? && |buf| >= 3 && buf[0] == 1 ==> |SnPacket.Unframed(buf).value| <= |buf| - 3
  {
  }

  /** The gateway reads a client's PUBLISH as it was sent for the same payloads and no others. */
  lemma GatewayReadsIff(sn: SnPublish)
    requires Encodable(sn)
    ensures GatewayReads(sn) == Some(AsPacket(sn)) <==> Passes(|sn.msg.payload|)
  {
    var p := AsPacket(sn);
    var bytes := SnPacket.Framed(SnPacket.Body(p));
    SnPacket.RoundTrip(p);
    if |bytes| > MAX_PACKET_SIZE {
      var buf := bytes[..MAX_PACKET_SIZE];
      UnframedShorter(buf);
      if SnPacket.Deserialized(buf) == Some(p) {
        SnPacket.ParsedLength(SnPacket.Unframed(buf).value, p);
      }
    }
  }

  // ----- there and back

  /** A PUBLISH is taken off a stream whole, and nothing of what follows it. */
  ghost predicate TakenOff(m: MqttPacket.Publish, tail: seq<byte>) {
    && MqttPacket.WellFormed(m)
    && var packet := MqttPacket.Encoded(m);
       && MqttPacket.ReceivedFrom(MqttPacket.Wire(packet) + tail) == MqttPacket.Received(packet, tail)
       && MqttPacket.Decoded(packet) == Some(m)
  }

  /** The handler sends a PUBLISH at once, and the client reads it as it was meant. */
  ghost predicate ClientTakes(s: State, p: Publish)
    requires s.counter <= 0xffff
  {
    && Resolved(s.topics, p) && Encodable(Resolve(s.topics, p))
    && HandlePublish(s, p) == Send(s, SnPub(Resolve(s.topics, p)))
    && ClientReads(Resolve(s.topics, p)) == Some(AsPacket(Resolve(s.topics, p)))
  }

  /** Written with any message id, a PUBLISH of QoS 0 is read without one; that is all that the wire loses. */
  lemma CarriedIsRead(p: Publish)
    requires Writable(Translation.Carried(p)) && p.msg.qos <= 2
    ensures var m := MqttPacket.Publish(p.msg.dup, p.msg.qos, p.msg.retain, p.msg.msgId, Coded(p.topic), p.msg.payload);
            MqttPacket.Decoded(MqttPacket.Encoded(m)) == Some(AsMqtt(Translation.Carried(p)))
  {
    MqttPacket.PublishDecoded(AsMqtt(Translation.Carried(p)));
  }

  /** What the broker gets from a forwarded PUBLISH, and sends back as it is. */
  lemma BrokerGets(p: Publish, tail: seq<byte>)
    requires Writable(p) && |p.msg.payload| <= 1015
    ensures TakenOff(AsMqtt(p), tail) && AsPublish(AsMqtt(p)) == p
  {
    CharsCoded(p.topic);
    MqttPacket.WireReceived(MqttPacket.Encoded(AsMqtt(p)), tail);
    MqttPacket.PublishDecoded(AsMqtt(p));
  }

  /** Ids of sixteen bits and names that a packet can carry. */
  ghost predicate Carries(es: seq<Entry>) {
    SixteenBits(es) && forall i :: 0 <= i < |es| ==> Octets(es[i].name) && 2 <= |es[i].name| < 0x1_0000
  }

  lemma LookupCarries(r: Translation.Registry, gateway: seq<Entry>, t: TopicRef)
    requires r.counter <= 0xffff && Carries(r.topics) && Carries(gateway) && !t.Short?
    ensures Carries(Translation.Lookup(r, gateway, t).1.topics)
    ensures var name := Translation.Found(r, gateway, t);
            name.Some? ==> Octets(name.value) && 2 <= |name.value| < 0x1_0000
  {
  }

  ghost function RegistryOf(s: State): Translation.Registry {
    Translation.Registry(s.topics, s.counter)
  }

  /** What the broker gets for a client's PUBLISH. */
  ghost function Forwards(s: State, gateway: seq<Entry>, sn: SnPublish): Publish
    requires s.counter <= 0xffff && Translation.FromClient(RegistryOf(s), gateway, sn).ToBrokerAs?
  {
    Translation.Carried(Translation.FromClient(RegistryOf(s), gateway, sn).p)
  }

  /** The client's state when its topic id has been looked up. */
  ghost function LookedUp(s: State, gateway: seq<Entry>, sn: SnPublish): (t: State)
    requires s.counter <= 0xffff
  {
    if sn.topic.Short? then s
    else
      var r := Translation.Lookup(RegistryOf(s), gateway, sn.topic).1;
      s.(topics := r.topics, counter := r.counter)
  }

  /**
   A client's PUBLISH that the gateway forwards: the topic is short, or its id is known and the message id fits the
   QoS.
   */
  ghost predicate IsForwarded(s: State, gateway: seq<Entry>, sn: SnPublish)
    requires s.counter <= 0xffff
  {
    || sn.topic.Short?
    || (Translation.Found(RegistryOf(s), gateway, sn.topic).Some?
       && (Translation.Delivery(sn.msg.qos) == 0 ==> sn.msg.msgId == 0))
  }

  lemma ForwardsWritable(s: State, gateway: seq<Entry>, sn: SnPublish)
    requires s.counter <= 0xffff && Encodable(sn) && Carries(s.topics) && Carries(gateway)
            && IsForwarded(s, gateway, sn)
    ensures Translation.FromClient(RegistryOf(s), gateway, sn).ToBrokerAs?
    ensures var p := Forwards(s, gateway, sn); Writable(p) && |p.topic| >= 2 && p.msg == Translation.Echo(sn.msg)
    ensures Carries(LookedUp(s, gateway, sn).topics)
  {
    if !sn.topic.Short? {
      LookupCarries(RegistryOf(s), gateway, sn.topic);
    }
  }

  /**
   From the client's datagram to the broker's stream and back to a datagram: the gateway reads the PUBLISH as it was
   sent exactly for the payloads that pass; and then the broker takes it off the stream whole, and the client reads
   what comes back whole, with dup, retain and payload as it sent them, QoS -1 as QoS 0 and the message id at QoS 1
   and 2.
   */
  lemma ThereAndBackInBytes(s: State, gateway: seq<Entry>, sn: SnPublish, tail: seq<byte>)
    requires (s.status.Active? || s.status.Awake?) && s.counter <= 0xffff && NamesDistinct(s.topics)
    requires Translation.GatewayTopics(gateway) && Carries(s.topics) && Carries(gateway)
    requires Encodable(sn) && IsForwarded(s, gateway, sn)
    ensures Translation.FromClient(RegistryOf(s), gateway, sn).ToBrokerAs? && Writable(Forwards(s, gateway, sn))
    ensures GatewayReads(sn) == Some(AsPacket(sn)) <==> Passes(|sn.msg.payload|)
    ensures var p, t := Forwards(s, gateway, sn), LookedUp(s, gateway, sn);
            Passes(|sn.msg.payload|) ==>
              && TakenOff(AsMqtt(p), tail) && AsPublish(AsMqtt(p)) == p
              && ClientTakes(t, p) && Resolve(t.topics, p).msg == Translation.Echo(sn.msg)
  {
    GatewayReadsIff(sn);
    ForwardsWritable(s, gateway, sn);
    if Passes(|sn.msg.payload|) {
      var p, t := Forwards(s, gateway, sn), LookedUp(s, gateway, sn);
      BrokerGets(p, tail);
      Translation.ThereAndBack(s, gateway, sn);
      ResolvedEncodable(t.topics, p);
      ClientReadsIff(Resolve(t.topics, p));
    }
  }
}
