/**
 MQTT-SN packets as bytes (MQTT-SN 1.2, sections 5.2.1 and 5.4): the length in front, the writers and readers of the
 packets on the publish and subscribe paths, and the patch that sets a message id in an encoded packet.
 */
module SnPacket {
  import opened Wrappers
  import opened Bytes

  const REGISTER: byte := 0x0a
  const REGACK: byte := 0x0b
  const PUBLISH: byte := 0x0c
  const PUBACK: byte := 0x0d
  const PUBCOMP: byte := 0x0e
  const PUBREC: byte := 0x0f
  const PUBREL: byte := 0x10
  const SUBSCRIBE: byte := 0x12
  const SUBACK: byte := 0x13
  const UNSUBSCRIBE: byte := 0x14
  const UNSUBACK: byte := 0x15

  const BUFFER_TOO_SHORT := -2

  // ----- packets

  /** A topic by id, by name, by predefined id, or two characters; kind 3 is not in use but read like a short one. */
  datatype Topic =
    | ById(id: nat)
    | ByName(name: seq<byte>)
    | Predefined(id: nat)
    | Short(a: byte, b: byte)
    | Reserved(a: byte, b: byte)

  datatype Packet =
    | Publish(dup: bool, qos: nat, retain: bool, msgId: nat, topic: Topic, payload: seq<byte>)
    | Register(topicId: nat, msgId: nat, name: seq<byte>)
    | Regack(topicId: nat, msgId: nat, rc: byte)
    | Puback(topicId: nat, msgId: nat, rc: byte)
    | Ack(kind: byte, msgId: nat)
    | Subscribe(dup: bool, qos: nat, msgId: nat, filter: Topic)
    | Suback(qos: nat, topicId: nat, msgId: nat, rc: byte)

  function KindOf(t: Topic): nat {
    match t
    case ById(_) => 0
    case ByName(_) => 0
    case Predefined(_) => 1
    case Short(_, _) => 2
    case Reserved(_, _) => 3
  }

  ghost predicate WellFormedTopic(t: Topic) {
    match t
    case ById(id) => id < 0x1_0000
    case ByName(name) => |name| < 0x1_0000
    case Predefined(id) => id < 0x1_0000
    case _ => true
  }

  /**
   Publishes name a topic only at QoS -1, written as 3; subscriptions always do unless the topic is predefined or
   short.
   */
  ghost predicate WellFormed(p: Packet) {
    && p.msgId < 0x1_0000
    && match p
       case Publish(_, qos, _, _, t, _) =>
         qos <= 3 && WellFormedTopic(t) && (t.ByName? ==> qos == 3) && (t.ById? ==> qos != 3)
       case Register(id, _, _) => id < 0x1_0000
       case Regack(id, _, _) => id < 0x1_0000
       case Puback(id, _, _) => id < 0x1_0000
       case Ack(kind, _) => kind == PUBREC || kind == PUBREL || kind == PUBCOMP
       case Subscribe(_, qos, _, t) => qos <= 3 && !t.ById? && !t.Reserved? && (t.Predefined? ==> t.id < 0x1_0000)
       case Suback(qos, id, _, _) => qos <= 3 && id < 0x1_0000
  }

  function Flags(dup: bool, qos: nat, retain: bool, kind: nat): byte
    requires qos <= 3 && kind <= 3
  {
    Bit(dup) * 0x80 + qos * 0x20 + Bit(retain) * 0x10 + kind
  }

  /** The two bytes of a topic in a PUBLISH; for a name they hold its length. */
  function TopicField(t: Topic): (bs: seq<byte>)
    ensures |bs| == 2
  {
    match t
    case ById(id) => Int16(id)
    case ByName(name) => Int16(|name|)
    case Predefined(id) => Int16(id)
    case Short(a, b) => [a, b]
    case Reserved(a, b) => [a, b]
  }

  function NameOf(t: Topic): seq<byte> {
    if t.ByName? then t.name else []
  }

  /** A packet without its length. */
  ghost function Body(p: Packet): (bs: seq<byte>)
    requires WellFormed(p)
    ensures bs != []
  {
    match p
    case Publish(dup, qos, retain, id, t, payload) =>
      [PUBLISH, Flags(dup, qos, retain, KindOf(t))] + TopicField(t) + Int16(id) + NameOf(t) + payload
    case Register(topicId, id, name) => [REGISTER] + Int16(topicId) + Int16(id) + name
    case Regack(topicId, id, rc) => [REGACK] + Int16(topicId) + Int16(id) + [rc]
    case Puback(topicId, id, rc) => [PUBACK] + Int16(topicId) + Int16(id) + [rc]
    case Ack(kind, id) => [kind] + Int16(id)
    case Subscribe(dup, qos, id, t) =>
      [SUBSCRIBE, Flags(dup, qos, false, KindOf(t))] + Int16(id) + (if t.ByName? then t.name else TopicField(t))
    case Suback(qos, topicId, id, rc) => [SUBACK, Flags(false, qos, false, 0)] + Int16(topicId) + Int16(id) + [rc]
  }

  // ----- the length in front

  /** The full length of a packet whose body has this length. */
  function PacketLen(length: nat): nat {
    if length >= 255 then length + 3 else length + 1
  }

  function LengthField(len: nat): seq<byte> {
    if len >= 255 then [1] + Int16(len) else [len]
  }

  ghost function Framed(body: seq<byte>): seq<byte> {
    LengthField(PacketLen(|body|)) + body
  }

  ghost predicate Fits(length: nat) {
    length != 254 && PacketLen(length) <= 0xffff
  }

  /** The body a reader sees in a buffer: from behind the length to where the length points. */
  ghost function Unframed(buf: seq<byte>): Option<seq<byte>> {
    if buf == [] || (buf[0] == 1 && |buf| < 3) then None
    else
      var start := if buf[0] == 1 then 3 else 1;
      var end := if buf[0] == 1 then ReadInt16(buf[1..]) else buf[0];
      if start <= end <= |buf| then Some(buf[start..end]) else None
  }

  /** The computed length is the number of bytes written exactly for the bodies that do not have 254 bytes. */
  lemma LengthIsWritten(body: seq<byte>)
    ensures |Framed(body)| == PacketLen(|body|) <==> |body| != 254
  {
  }

  /** The reader sees the body that was written, or when it does not fit a shorter one, or none. */
  lemma UnframedFramed(body: seq<byte>)
    requires body != []
    ensures Fits(|body|) ==> Unframed(Framed(body)) == Some(body)
    ensures !Fits(|body|) ==> Unframed(Framed(body)) == None || |Unframed(Framed(body)).value| < |body|
  {
    var buf := Framed(body);
    var len := PacketLen(|body|);
    if len >= 255 {
      assert buf[1..][0] == Int16(len)[0] && buf[1..][1] == Int16(len)[1];
      assert ReadInt16(buf[1..]) == len % 0x1_0000;
      if Fits(|body|) {
        assert buf[3..len] == body;
      }
    } else {
      assert buf[1..len] == body;
    }
  }

  // ----- readers

  function KindIn(flags: byte): nat {
    flags % 4
  }

  function QosIn(flags: byte): nat {
    flags / 0x20 % 4
  }

  /** A topic of two bytes. */
  function TopicAt(kind: nat, bs: seq<byte>): Topic
    requires |bs| == 2
  {
    if kind == 0 then ById(ReadInt16(bs))
    else if kind == 1 then Predefined(ReadInt16(bs))
    else if kind == 2 then Short(bs[0], bs[1])
    else Reserved(bs[0], bs[1])
  }

  ghost function ParsePublish(b: seq<byte>): Option<Packet>
    requires |b| > 0
  {
    if |b| < 6 then None
    else
      var kind, qos := KindIn(b[1]), QosIn(b[1]);
      var n := if kind == 0 && qos == 3 then ReadInt16(b[2..4]) else 0;
      if |b| < 6 + n then None
      else
        Some(Publish(b[1] / 0x80 == 1, qos, b[1] / 0x10 % 2 == 1, ReadInt16(b[4..6]),
                     if kind == 0 && qos == 3 then ByName(b[6..6 + n]) else TopicAt(kind, b[2..4]), b[6 + n..]))
  }

  ghost function ParseSubscribe(b: seq<byte>): Option<Packet>
    requires |b| > 0
  {
    if |b| < 4 || (KindIn(b[1]) != 0 && |b| < 6) then None
    else
      Some(Subscribe(b[1] / 0x80 == 1, QosIn(b[1]), ReadInt16(b[2..4]),
                     if KindIn(b[1]) == 0 then ByName(b[4..]) else TopicAt(KindIn(b[1]), b[4..6])))
  }

  /** The reader for the type in the first byte; a body that is too short gives nothing. */
  ghost function Parse(b: seq<byte>): Option<Packet> {
    if b == [] then None
    else if b[0] == PUBLISH then ParsePublish(b)
    else if b[0] == SUBSCRIBE then ParseSubscribe(b)
    else if b[0] == REGISTER then
      if |b| < 5 then None else Some(Register(ReadInt16(b[1..3]), ReadInt16(b[3..5]), b[5..]))
    else if b[0] == REGACK then
      if |b| < 6 then None else Some(Regack(ReadInt16(b[1..3]), ReadInt16(b[3..5]), b[5]))
    else if b[0] == PUBACK then
      if |b| < 6 then None else Some(Puback(ReadInt16(b[1..3]), ReadInt16(b[3..5]), b[5]))
    else if b[0] == SUBACK then
      if |b| < 7 then None else Some(Suback(QosIn(b[1]), ReadInt16(b[2..4]), ReadInt16(b[4..6]), b[6]))
    else if b[0] == PUBREC || b[0] == PUBREL || b[0] == PUBCOMP then
      if |b| < 3 then None else Some(Ack(b[0], ReadInt16(b[1..3])))
    else None
  }

  ghost function Deserialized(buf: seq<byte>): Option<Packet> {
    match Unframed(buf)
    case Some(body) => Parse(body)
    case None => None
  }

  lemma FlagsRead(dup: bool, qos: nat, retain: bool, kind: nat)
    requires qos <= 3 && kind <= 3
    ensures var f := Flags(dup, qos, retain, kind);
            (f / 0x80 == 1) == dup && QosIn(f) == qos && (f / 0x10 % 2 == 1) == retain && KindIn(f) == kind
  {
  }

  lemma Int16Read(n: nat)
    requires n < 0x1_0000
    ensures ReadInt16(Int16(n)) == n
  {
  }

  lemma PublishParsed(p: Packet)
    requires WellFormed(p) && p.Publish?
    ensures Parse(Body(p)) == Some(p)
  {
    var b, n := Body(p), |NameOf(p.topic)|;
    FlagsRead(p.dup, p.qos, p.retain, KindOf(p.topic));
    Int16Read(p.msgId);
    assert b[2..4] == TopicField(p.topic);
    assert b[4..6] == Int16(p.msgId);
    assert b[6..6 + n] == NameOf(p.topic);
    assert b[6 + n..] == p.payload;
  }

  lemma SubscribeParsed(p: Packet)
    requires WellFormed(p) && p.Subscribe?
    ensures Parse(Body(p)) == Some(p)
  {
    var b := Body(p);
    FlagsRead(p.dup, p.qos, false, KindOf(p.filter));
    Int16Read(p.msgId);
    assert b[2..4] == Int16(p.msgId);
    assert b[4..] == if p.filter.ByName? then p.filter.name else TopicField(p.filter);
    if !p.filter.ByName? {
      assert b[4..6] == TopicField(p.filter);
    }
  }

  lemma OthersParsed(p: Packet)
    requires WellFormed(p) && !p.Publish? && !p.Subscribe?
    ensures Parse(Body(p)) == Some(p)
  {
    var b := Body(p);
    Int16Read(p.msgId);
    match p
    case Register(topicId, id, name) =>
      Int16Read(topicId);
      assert b[1..3] == Int16(topicId) && b[3..5] == Int16(id) && b[5..] == name;
    case Ack(_, id) => assert b[1..3] == Int16(id);
    case Suback(qos, topicId, id, _) =>
      FlagsRead(false, qos, false, 0);
      Int16Read(topicId);
      assert b[2..4] == Int16(topicId) && b[4..6] == Int16(id);
    case Regack(topicId, id, _) =>
      Int16Read(topicId);
      assert b[1..3] == Int16(topicId) && b[3..5] == Int16(id);
    case Puback(topicId, id, _) =>
      Int16Read(topicId);
      assert b[1..3] == Int16(topicId) && b[3..5] == Int16(id);
    case _ =>
  }

  lemma BodyParsed(p: Packet)
    requires WellFormed(p)
    ensures Parse(Body(p)) == Some(p)
  {
    match p
    case Publish(_, _, _, _, _, _) => PublishParsed(p);
    case Subscribe(_, _, _, _) => SubscribeParsed(p);
    case _ => OthersParsed(p);
  }

  /** What the reader makes of a body accounts for the length of the body, where it varies. */
  lemma ParsedLength(b: seq<byte>, p: Packet)
    requires WellFormed(p) && Parse(b) == Some(p) && (p.Publish? || p.Register? || (p.Subscribe? && p.filter.ByName?))
    ensures |b| == |Body(p)|
  {
  }

  /** Reading back a written packet gives the same packet exactly when its length can be written. */
  lemma RoundTrip(p: Packet)
    requires WellFormed(p)
    ensures Deserialized(Framed(Body(p))) == Some(p) <==> Fits(|Body(p)|)
  {
    UnframedFramed(Body(p));
    BodyParsed(p);
    if !Fits(|Body(p)|) && Unframed(Framed(Body(p))).Some? {
      var b := Unframed(Framed(Body(p))).value;
      if Parse(b) == Some(p) {
        ParsedLength(b, p);
      }
    }
  }

  // ----- the bytes on the wire

  /** Two bytes at an index, most significant first. */
  ghost predicate At16(b: seq<byte>, i: nat, n: nat) {
    i + 2 <= |b| && 0x100 * (b[i] as int) + b[i + 1] == n
  }

  ghost function FlagBits(dup: bool, qos: nat, retain: bool, kind: nat): nat {
    (if dup then 0x80 else 0) + 0x20 * qos + (if retain then 0x10 else 0) + kind
  }

  /**
   The two bytes for a topic in a packet, and the code of its kind: 0 for ids and names, 1 for predefined ids, 2 for
   short ones.
   */
  ghost predicate TopicBytes(b: seq<byte>, i: nat, t: Topic) {
    && i + 2 <= |b|
    && match t
       case ById(id) => KindOf(t) == 0 && At16(b, i, id)
       case ByName(name) => KindOf(t) == 0 && At16(b, i, |name|)
       case Predefined(id) => KindOf(t) == 1 && At16(b, i, id)
       case Short(x, y) => KindOf(t) == 2 && b[i] == x && b[i + 1] == y
       case Reserved(x, y) => KindOf(t) == 3 && b[i] == x && b[i + 1] == y
  }

  /** A PUBLISH byte by byte (MQTT-SN 1.2, section 5.4.12). */
  lemma PublishBytes(p: Packet)
    requires WellFormed(p) && p.Publish?
    ensures var b, n := Body(p), if p.topic.ByName? then |p.topic.name| else 0;
            && b[0] == 0x0c && |b| == 6 + n + |p.payload| && b[1] == FlagBits(p.dup, p.qos, p.retain, KindOf(p.topic))
            && TopicBytes(b, 2, p.topic) && At16(b, 4, p.msgId)
            && (p.topic.ByName? ==> b[6..6 + n] == p.topic.name) && b[6 + n..] == p.payload
  {
  }

  /** SUBSCRIBE, section 5.4.15. */
  lemma SubscribeBytes(p: Packet)
    requires WellFormed(p) && p.Subscribe?
    ensures var b := Body(p);
            && b[0] == 0x12 && b[1] == FlagBits(p.dup, p.qos, false, KindOf(p.filter)) && At16(b, 2, p.msgId)
            && (if p.filter.ByName? then b[4..] == p.filter.name && KindOf(p.filter) == 0
                else |b| == 6 && TopicBytes(b, 4, p.filter))
  {
  }

  /** The others, sections 5.4.10, 5.4.11, 5.4.13, 5.4.14 and 5.4.16. */
  lemma OtherBytes(p: Packet)
    requires WellFormed(p)
    ensures var b := Body(p);
            match p
            case Register(topicId, id, name) => b[0] == 0x0a && At16(b, 1, topicId) && At16(b, 3, id) && b[5..] == name
            case Regack(topicId, id, rc) => |b| == 6 && b[0] == 0x0b && At16(b, 1, topicId) && At16(b, 3, id)
                && b[5] == rc
            case Puback(topicId, id, rc) => |b| == 6 && b[0] == 0x0d && At16(b, 1, topicId) && At16(b, 3, id)
                && b[5] == rc
            case Ack(kind, id) => |b| == 3 && b[0] == kind && (kind == 0x0e || kind == 0x0f || kind == 0x10)
                && At16(b, 1, id)
            case Suback(qos, topicId, id, rc) =>
              |b| == 7 && b[0] == 0x13 && b[1] == 0x20 * qos && At16(b, 2, topicId) && At16(b, 4, id) && b[6] == rc
            case _ => true
  {
  }

  /**
   In front of a body stands the length of the whole: in one byte up to 253 bytes, behind a 1 in two bytes from there
   on.
   */
  lemma FrameBytes(body: seq<byte>)
    requires |body| <= 0xfffc
    ensures |body| < 254 ==> Framed(body) == [|body| + 1] + body
    ensures |body| >= 254 ==> && Framed(body)[0] == 1 && Framed(body)[3..] == body
                              && At16(Framed(body), 1, if |body| == 254 then 255 else |body| + 3)
  {
  }

  // ----- the message id in an encoded packet

  function Start(buf: seq<byte>): nat {
    if buf != [] && buf[0] == 1 then 3 else 1
  }

  /** Where the message id is looked for; 0 stands for packets that are left alone. */
  function MsgIdIndex(buf: seq<byte>): nat {
    var p := Start(buf);
    if |buf| <= p then 0
    else
      var kind := buf[p];
      if kind == PUBLISH then p + 4
      else if kind == PUBACK || kind == REGISTER || kind == REGACK then 4
      else if kind == PUBREC || kind == PUBREL || kind == PUBCOMP || kind == UNSUBACK then 2
      else if kind == SUBSCRIBE || kind == UNSUBSCRIBE then p + 2
      else if kind == SUBACK then 5
      else 0
  }

  /** By type, for both forms of the length: those that take their body's place, and those that do not. */
  lemma IndexByType(buf: seq<byte>)
    requires |buf| > 3
    ensures var p := if buf[0] == 1 then 3 else 1;
            var kind := buf[p];
            MsgIdIndex(buf) ==
              if kind == 0x0c then p + 4
              else if kind == 0x12 || kind == 0x14 then p + 2
              else if kind == 0x0a || kind == 0x0b || kind == 0x0d then 4
              else if kind == 0x0e || kind == 0x0f || kind == 0x10 || kind == 0x15 then 2
              else if kind == 0x13 then 5
              else 0
  {
  }

  ghost function Patched(buf: seq<byte>, id: nat): seq<byte>
    requires MsgIdIndex(buf) + 2 <= |buf|
  {
    var i := MsgIdIndex(buf);
    if i == 0 then buf else buf[..i] + Int16(id) + buf[i + 2..]
  }

  /** Patches the packet in place. */
  method SetMsgId(buf: array<byte>, msgId: nat)
    requires MsgIdIndex(buf[..]) + 2 <= buf.Length
    modifies buf
    ensures buf[..] == Patched(old(buf[..]), msgId)
  {
    var i := MsgIdIndex(buf[..]);
    if i != 0 {
      buf[i] := msgId / 0x100 % 0x100;
      buf[i + 1] := msgId % 0x100;
    }
  }

  /** Where the message id stands in the body of a packet. */
  ghost function IdInBody(p: Packet): nat {
    match p
    case Publish(_, _, _, _, _, _) => 4
    case Register(_, _, _) => 3
    case Regack(_, _, _) => 3
    case Puback(_, _, _) => 3
    case Ack(_, _) => 1
    case Subscribe(_, _, _, _) => 2
    case Suback(_, _, _, _) => 4
  }

  ghost function WithId(p: Packet, id: nat): Packet {
    match p
    case Publish(dup, qos, retain, _, t, payload) => Publish(dup, qos, retain, id, t, payload)
    case Register(topicId, _, name) => Register(topicId, id, name)
    case Regack(topicId, _, rc) => Regack(topicId, id, rc)
    case Puback(topicId, _, rc) => Puback(topicId, id, rc)
    case Ack(kind, _) => Ack(kind, id)
    case Subscribe(dup, qos, _, t) => Subscribe(dup, qos, id, t)
    case Suback(qos, topicId, _, rc) => Suback(qos, topicId, id, rc)
  }

  /** A sequence with two of its elements replaced. */
  lemma Replaced<T>(xs: seq<T>, id: seq<T>, id': seq<T>, ys: seq<T>)
    requires |id| == |id'| == 2
    ensures var b, i := xs + id + ys, |xs|; b[i..i + 2] == id && b[..i] + id' + b[i + 2..] == xs + id' + ys
  {
    var b, i := xs + id + ys, |xs|;
    assert b[..i] == xs && b[i + 2..] == ys;
  }

  lemma BodyWithId(p: Packet, id: nat)
    requires WellFormed(p) && id < 0x1_0000
    ensures var b, i := Body(p), IdInBody(p);
            && WellFormed(WithId(p, id)) && i + 2 <= |b|
            && b[i..i + 2] == Int16(p.msgId) && Body(WithId(p, id)) == b[..i] + Int16(id) + b[i + 2..]
  {
    match p
    case Publish(dup, qos, retain, _, t, payload) => PublishWithId(p, id);
    case Subscribe(dup, qos, _, t) => SubscribeWithId(p, id);
    case _ => OtherWithId(p, id);
  }

  /** What stands before the message id of a PUBLISH. */
  ghost function FrontOf(p: Packet): (bs: seq<byte>)
    requires WellFormed(p) && p.Publish?
    ensures |bs| == 4
  {
    [PUBLISH, Flags(p.dup, p.qos, p.retain, KindOf(p.topic))] + TopicField(p.topic)
  }

  lemma PublishFront(p: Packet)
    requires WellFormed(p) && p.Publish?
    ensures Body(p) == FrontOf(p) + Int16(p.msgId) + (NameOf(p.topic) + p.payload)
  {
  }

  lemma PublishWithId(p: Packet, id: nat)
    requires WellFormed(p) && id < 0x1_0000 && p.Publish?
    ensures var b, i := Body(p), IdInBody(p);
            && WellFormed(WithId(p, id)) && i + 2 <= |b|
            && b[i..i + 2] == Int16(p.msgId) && Body(WithId(p, id)) == b[..i] + Int16(id) + b[i + 2..]
  {
    PublishFront(p);
    PublishFront(WithId(p, id));
    Replaced(FrontOf(p), Int16(p.msgId), Int16(id), NameOf(p.topic) + p.payload);
  }

  lemma SubscribeWithId(p: Packet, id: nat)
    requires WellFormed(p) && id < 0x1_0000 && p.Subscribe?
    ensures var b, i := Body(p), IdInBody(p);
            && WellFormed(WithId(p, id)) && i + 2 <= |b|
            && b[i..i + 2] == Int16(p.msgId) && Body(WithId(p, id)) == b[..i] + Int16(id) + b[i + 2..]
  {
    var front := [SUBSCRIBE, Flags(p.dup, p.qos, false, KindOf(p.filter))];
    Replaced(front, Int16(p.msgId), Int16(id), if p.filter.ByName? then p.filter.name else TopicField(p.filter));
  }

  lemma OtherWithId(p: Packet, id: nat)
    requires WellFormed(p) && id < 0x1_0000 && !p.Publish? && !p.Subscribe?
    ensures var b, i := Body(p), IdInBody(p);
            && WellFormed(WithId(p, id)) && i + 2 <= |b|
            && b[i..i + 2] == Int16(p.msgId) && Body(WithId(p, id)) == b[..i] + Int16(id) + b[i + 2..]
  {
  }

  /** The short form puts every message id where it is looked for, the long form all but that of a REGISTER. */
  lemma IndexInFrame(p: Packet)
    requires WellFormed(p)
    ensures var buf := Framed(Body(p));
            && MsgIdIndex(buf) + 2 <= |buf|
            && MsgIdIndex(buf) == (if p.Register? then 4 else Start(buf) + IdInBody(p))
            && Start(buf) == (if |Body(p)| >= 254 then 3 else 1)
  {
    var b, buf := Body(p), Framed(Body(p));
    assert buf[Start(buf)] == b[0];
  }

  lemma FramedWithId(b: seq<byte>, i: nat, id: nat)
    requires i + 2 <= |b|
    ensures var buf := Framed(b); var k := |buf| - |b| + i;
            Framed(b[..i] + Int16(id) + b[i + 2..]) == buf[..k] + Int16(id) + buf[k + 2..]
  {
  }

  /** Patching a message id gives the packet written with that id, for every packet but a REGISTER in the long form. */
  lemma PatchIsRewrite(p: Packet, id: nat)
    requires WellFormed(p) && id < 0x1_0000 && (p.Register? ==> |Body(p)| < 254)
    ensures MsgIdIndex(Framed(Body(p))) + 2 <= |Framed(Body(p))| && WellFormed(WithId(p, id))
    ensures Patched(Framed(Body(p)), id) == Framed(Body(WithId(p, id)))
  {
    BodyWithId(p, id);
    IndexInFrame(p);
    FramedWithId(Body(p), IdInBody(p), id);
  }

  /** In the long form of a REGISTER the patch overwrites the topic id. */
  lemma LongRegisterPatch(topicId: nat, msgId: nat, name: seq<byte>, id: nat)
    requires WellFormed(Register(topicId, msgId, name)) && id < 0x1_0000
            && |Body(Register(topicId, msgId, name))| >= 254
    ensures var buf := Framed(Body(Register(topicId, msgId, name)));
            && MsgIdIndex(buf) + 2 <= |buf|
            && Patched(buf, id) == Framed(Body(Register(id, msgId, name)))
            && (Patched(buf, id) == Framed(Body(Register(topicId, id, name))) <==> topicId == id && msgId == id)
  {
    var p, t, m := Register(topicId, msgId, name), Register(id, msgId, name), Register(topicId, id, name);
    IndexInFrame(p);
    var b := Body(p);
    assert Body(t) == b[..1] + Int16(id) + b[3..];
    FramedWithId(b, 1, id);
    if Framed(Body(t)) == Framed(Body(m)) {
      assert Framed(Body(t))[3..] == Body(t) && Framed(Body(m))[3..] == Body(m);
      BodyParsed(t);
      BodyParsed(m);
    }
  }
}
