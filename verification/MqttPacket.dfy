/**
 MQTT packets between gateway and broker: the remaining length code (MQTT 3.1.1, section 2.2.3), PUBLISH, and
 reading packets from a byte stream.
 */
module MqttPacket {
  import opened Wrappers
  import opened Bytes

  const PUBLISH := 3
  const MAX_NO_OF_REMAINING_LENGTH_BYTES := 3
  const LENGTH_LIMIT := 128 * 128 * 128

  // ----- the remaining length

  ghost function Digits(n: nat): (ds: seq<byte>)
    ensures ds != []
  {
    if n < 128 then [n] else [n % 128 + 128] + Digits(n / 128)
  }

  /** Encodes a length into a buffer from an index on and tells how many bytes it took. */
  method EncodeLength(buf: array<byte>, ptr: nat, length: nat) returns (rc: nat)
    requires ptr + |Digits(length)| <= buf.Length
    modifies buf
    ensures rc == |Digits(length)| && buf[..ptr + rc] == old(buf[..ptr]) + Digits(length)
    ensures buf[ptr + rc..] == old(buf[ptr + rc..])
  {
    rc := 0;
    var n := length;
    var more := true;
    while more
      invariant ptr + rc <= buf.Length && buf[ptr + rc..] == old(buf[ptr + rc..])
      invariant more ==> buf[..ptr + rc] + Digits(n) == old(buf[..ptr]) + Digits(length)
      invariant !more ==> n == 0 && buf[..ptr + rc] == old(buf[..ptr]) + Digits(length)
      decreases more, n
    {
      var d := n % 128;
      ghost var before, ds := buf[..ptr + rc], Digits(n);
      assert |before| + |ds| == ptr + |Digits(length)|;
      n := n / 128;
      if n > 0 {
        d := d + 128;
      }
      buf[ptr + rc] := d;
      rc := rc + 1;
      more := n > 0;
      assert buf[..ptr + rc] == before + [d];
    }
  }

  datatype Length = Length(value: nat, used: nat) | TooLong | TooShort

  /** The length at the start of a stream, in at most max bytes. */
  ghost function LengthAt(s: seq<byte>, max: nat): (r: Length)
    ensures r.Length? ==> r.used <= |s|
  {
    if max == 0 then TooLong
    else if s == [] then TooShort
    else if s[0] < 128 then Length(s[0], 1)
    else
      match LengthAt(s[1..], max - 1)
      case Length(value, used) => Length(s[0] - 128 + 128 * value, used + 1)
      case other => other
  }

  ghost function Pow128(k: nat): (p: nat)
    ensures p >= 1
  {
    if k == 0 then 1 else 128 * Pow128(k - 1)
  }

  /** The code of every length is read back, whatever follows it, if and only if it fits in the bytes allowed. */
  lemma {:induction false} LengthReadBack(n: nat, tail: seq<byte>, max: nat)
    requires max > 0
    ensures n < Pow128(max) ==> LengthAt(Digits(n) + tail, max) == Length(n, |Digits(n)|) && |Digits(n)| <= max
    ensures n >= Pow128(max) ==> LengthAt(Digits(n) + tail, max) == TooLong
    decreases max
  {
    var s := Digits(n) + tail;
    assert s[0] == Digits(n)[0];
    if n >= 128 {
      assert s[1..] == Digits(n / 128) + tail;
      if max > 1 {
        LengthReadBack(n / 128, tail, max - 1);
      }
    }
  }

  /** No code is the beginning of another. */
  lemma {:induction false} PrefixFree(m: nat, n: nat, tail: seq<byte>)
    requires Digits(m) + tail == Digits(n)
    ensures m == n && tail == []
  {
    assert (Digits(m) + tail)[0] == Digits(n)[0];
    if m >= 128 && n >= 128 {
      assert (Digits(m) + tail)[1..] == Digits(m / 128) + tail;
      PrefixFree(m / 128, n / 128, tail);
    } else {
      assert m < 128 ==> |Digits(m)| == 1;
      assert n < 128 ==> |Digits(n)| == 1;
    }
  }

  // ----- packets

  /** The first byte of a packet and what follows its remaining length. */
  datatype Packet = Packet(header: byte, data: seq<byte>)

  function TypeOf(header: byte): nat {
    header / 16
  }

  datatype Publish = Publish(dup: bool, qos: nat, retain: bool, msgId: nat, topic: seq<byte>, payload: seq<byte>)

  ghost predicate WellFormed(p: Publish) {
    p.qos <= 3 && p.msgId < 0x1_0000 && |p.topic| < 0x1_0000 && (p.qos == 0 ==> p.msgId == 0)
  }

  function Header(dup: bool, qos: nat, retain: bool): byte
    requires qos <= 3
  {
    PUBLISH * 16 + Bit(dup) * 8 + qos * 2 + Bit(retain)
  }

  /** What a PUBLISH packet is made of. */
  ghost function Encoded(p: Publish): Packet
    requires p.qos <= 3
  {
    Packet(Header(p.dup, p.qos, p.retain),
           Int16(|p.topic|) + p.topic + (if p.qos > 0 then Int16(p.msgId) else []) + p.payload)
  }

  ghost function Wire(p: Packet): seq<byte> {
    [p.header] + Digits(|p.data|) + p.data
  }

  datatype Receipt = Received(packet: Packet, rest: seq<byte>) | Failed(code: int)

  /** One packet off the front of a stream; the codes are those of the receiving function. */
  ghost function ReceivedFrom(s: seq<byte>): (r: Receipt)
    ensures r.Received? ==> |r.rest| < |s|
  {
    if s == [] then Failed(-1)
    else
      match LengthAt(s[1..], MAX_NO_OF_REMAINING_LENGTH_BYTES)
      case TooLong => Failed(-2)
      case TooShort => Failed(-1)
      case Length(n, used) =>
        var body := s[1 + used..];
        if |body| < n then Failed(-2) else Received(Packet(s[0], body[..n]), body[n..])
  }

  /**
   A packet is taken off a stream as it was written, and nothing of what follows it, exactly when its length has three
   digits.
   */
  lemma WireReceived(p: Packet, tail: seq<byte>)
    ensures ReceivedFrom(Wire(p) + tail) == if |p.data| < LENGTH_LIMIT then Received(p, tail) else Failed(-2)
  {
    var s := Wire(p) + tail;
    assert s[1..] == Digits(|p.data|) + (p.data + tail);
    LengthReadBack(|p.data|, p.data + tail, MAX_NO_OF_REMAINING_LENGTH_BYTES);
    assert Pow128(3) == LENGTH_LIMIT by {
      assert Pow128(1) == 128 && Pow128(2) == 128 * 128;
    }
    if |p.data| < LENGTH_LIMIT {
      assert s[1 + |Digits(|p.data|)|..] == p.data + tail;
    }
  }

  ghost function Wires(ps: seq<Packet>): seq<byte> {
    if ps == [] then [] else Wire(ps[0]) + Wires(ps[1..])
  }

  /** Packets off a stream until one fails. */
  ghost function Packets(s: seq<byte>): seq<Packet>
    decreases |s|
  {
    match ReceivedFrom(s)
    case Failed(_) => []
    case Received(p, rest) => [p] + Packets(rest)
  }

  /** A stream of packets is cut exactly where the packets were joined. */
  lemma {:induction false} StreamRecovered(ps: seq<Packet>)
    requires forall i :: 0 <= i < |ps| ==> |ps[i].data| < LENGTH_LIMIT
    ensures Packets(Wires(ps)) == ps
    decreases |ps|
  {
    if ps != [] {
      WireReceived(ps[0], Wires(ps[1..]));
      StreamRecovered(ps[1..]);
    }
  }

  /** The fields of a PUBLISH; a packet too short for its own topic length gives none. */
  ghost function Decoded(packet: Packet): Option<Publish> {
    var h, d := packet.header, packet.data;
    var qos := h / 2 % 4;
    var ids := if qos > 0 then 4 else 2;
    if TypeOf(h) != PUBLISH || |d| < 2 || |d| < ReadInt16(d) + ids then None
    else
      var end := 2 + ReadInt16(d);
      Some(Publish(h / 8 % 2 == 1, qos, h % 2 == 1, if qos > 0 then ReadInt16(d[end..]) else 0,
                   d[2..end], d[end + ids - 2..]))
  }

  lemma HeaderFields(dup: bool, qos: nat, retain: bool)
    requires qos <= 3
    ensures var h := Header(dup, qos, retain);
            TypeOf(h) == PUBLISH && (h / 8 % 2 == 1) == dup && h / 2 % 4 == qos && (h % 2 == 1) == retain
  {
  }

  lemma DataFields(topic: seq<byte>, id: seq<byte>, payload: seq<byte>)
    requires |topic| < 0x1_0000
    ensures var d, end := Int16(|topic|) + topic + id + payload, 2 + |topic|;
            && ReadInt16(d) == |topic| && d[2..end] == topic && d[end + |id|..] == payload
            && (|id| == 2 ==> ReadInt16(d[end..]) == ReadInt16(id))
  {
    var d, end := Int16(|topic|) + topic + id + payload, 2 + |topic|;
    assert d[0] == Int16(|topic|)[0] && d[1] == Int16(|topic|)[1];
    assert d[end..] == id + payload;
  }

  lemma PublishDecoded(p: Publish)
    requires WellFormed(p)
    ensures Decoded(Encoded(p)) == Some(p)
  {
    HeaderFields(p.dup, p.qos, p.retain);
    DataFields(p.topic, if p.qos > 0 then Int16(p.msgId) else [], p.payload);
  }

  /** A PUBLISH comes off the stream with every field it was built from; the rest of the stream is untouched. */
  lemma PublishRoundTrip(p: Publish, tail: seq<byte>)
    requires WellFormed(p)
    ensures |Encoded(p).data| < 128 * 128 * 128 ==>
              match ReceivedFrom(Wire(Encoded(p)) + tail)
              case Received(packet, rest) => Decoded(packet) == Some(p) && rest == tail
              case Failed(_) => false
    ensures |Encoded(p).data| >= 128 * 128 * 128 ==> ReceivedFrom(Wire(Encoded(p)) + tail) == Failed(-2)
  {
    WireReceived(Encoded(p), tail);
    PublishDecoded(p);
  }

  // ----- the bytes on the wire

  /** What digits with their high bit as a continuation mark stand for, the least significant first. */
  ghost function ValueOf(ds: seq<byte>): nat {
    if ds == [] then 0 else ds[0] % 128 + 128 * ValueOf(ds[1..])
  }

  /** The digits of a length stand for it, and only the last one says that it is the last. */
  lemma {:induction false} DigitsValue(n: nat)
    ensures var ds := Digits(n);
            ValueOf(ds) == n && ds[|ds| - 1] < 128 && forall i :: 0 <= i < |ds| - 1 ==> ds[i] >= 128
  {
    var ds := Digits(n);
    if n >= 128 {
      DigitsValue(n / 128);
      assert ds[1..] == Digits(n / 128);
      assert forall i :: 1 <= i < |ds| ==> ds[i] == Digits(n / 128)[i - 1];
    } else {
      assert ds[1..] == [];
    }
  }

  /**
   A PUBLISH byte by byte (MQTT 3.1.1, section 3.3): type 3 and the flags, the length of all that follows, the topic
   behind its length of two bytes, at QoS 1 and 2 the packet id, and the payload.
   */
  lemma PublishBytes(p: Publish)
    requires WellFormed(p)
    ensures var wire, k := Wire(Encoded(p)), |Digits(|Encoded(p).data|)|;
            var d, end := wire[1 + k..], 2 + |p.topic|;
            && wire[0] == 0x30 + (if p.dup then 8 else 0) + 2 * p.qos + (if p.retain then 1 else 0)
            && ValueOf(wire[1..1 + k]) == |d|
            && |d| == end + (if p.qos > 0 then 2 else 0) + |p.payload|
            && 0x100 * (d[0] as int) + d[1] == |p.topic| && d[2..end] == p.topic
            && (p.qos > 0 ==> 0x100 * (d[end] as int) + d[end + 1] == p.msgId)
            && d[|d| - |p.payload|..] == p.payload
  {
    var wire, k := Wire(Encoded(p)), |Digits(|Encoded(p).data|)|;
    assert wire[1..1 + k] == Digits(|Encoded(p).data|) && wire[1 + k..] == Encoded(p).data;
    DigitsValue(|Encoded(p).data|);
    DataFields(p.topic, if p.qos > 0 then Int16(p.msgId) else [], p.payload);
  }

  lemma {:induction false} DigitsCut(n: nat, j: nat, max: nat)
    requires j < |Digits(n)| <= max
    ensures LengthAt(Digits(n)[..j], max) == TooShort
    decreases max
  {
    if j > 0 {
      assert Digits(n)[..j][0] == Digits(n)[0] && Digits(n)[..j][1..] == Digits(n / 128)[..j - 1];
      DigitsCut(n / 128, j - 1, max - 1);
    }
  }

  lemma DigitsAllowed(n: nat)
    requires n < LENGTH_LIMIT
    ensures |Digits(n)| <= 3
  {
    LengthReadBack(n, [], 3);
    assert Pow128(3) == LENGTH_LIMIT by {
      assert Pow128(1) == 128 && Pow128(2) == 128 * 128;
    }
  }

  /**
   A stream that ends within a packet gives none: code -1 where its length is not complete, -2 where its body is not.
   */
  lemma CutShort(p: Packet, k: nat)
    requires |p.data| < LENGTH_LIMIT && k < |Wire(p)|
    ensures ReceivedFrom(Wire(p)[..k]) == Failed(if k <= |Digits(|p.data|)| then -1 else -2)
  {
    var ds := Digits(|p.data|);
    if 0 < k <= |ds| {
      CutInLength(p, k);
    } else if k > 0 {
      assert Wire(p)[..k] == [p.header] + ds + p.data[..k - 1 - |ds|];
      CutInBody(p.header, |p.data|, p.data[..k - 1 - |ds|]);
    }
  }

  lemma CutInLength(p: Packet, k: nat)
    requires |p.data| < LENGTH_LIMIT && 0 < k <= |Digits(|p.data|)|
    ensures ReceivedFrom(Wire(p)[..k]) == Failed(-1)
  {
    DigitsAllowed(|p.data|);
    assert Wire(p)[..k][1..] == Digits(|p.data|)[..k - 1];
    DigitsCut(|p.data|, k - 1, 3);
  }

  lemma CutInBody(header: byte, n: nat, body: seq<byte>)
    requires |body| < n < LENGTH_LIMIT
    ensures ReceivedFrom([header] + Digits(n) + body) == Failed(-2)
  {
    var s := [header] + Digits(n) + body;
    assert s[1..] == Digits(n) + body && s[1 + |Digits(n)|..] == body;
    WithinLimit(n, body);
  }

  lemma WithinLimit(n: nat, tail: seq<byte>)
    requires n < LENGTH_LIMIT
    ensures LengthAt(Digits(n) + tail, 3) == Length(n, |Digits(n)|)
  {
    LengthReadBack(n, tail, 3);
    assert Pow128(3) == LENGTH_LIMIT by {
      assert Pow128(1) == 128 && Pow128(2) == 128 * 128;
    }
  }

  // ----- the object

  /** A length of which the first digits have been read. */
  ghost function Shifted(r: Length, value: nat, multiplier: nat, used: nat): Length {
    match r
    case Length(v, u) => Length(value + multiplier * v, used + u)
    case other => other
  }

  class MqttGwPacket {
    var header: byte
    var data: seq<byte>
    var remainingLength: nat

    constructor ()
      ensures header == 0 && data == [] && remainingLength == 0
    {
      header, data, remainingLength := 0, [], 0;
    }

    /** The remaining length counts what is sent of the data. */
    ghost predicate Valid()
      reads this
    {
      remainingLength <= |data|
    }

    ghost function Value(): Packet
      requires Valid()
      reads this
    {
      Packet(header, data[..remainingLength])
    }

    method SetPublish(p: Publish)
      requires p.qos <= 3
      modifies this
      ensures Valid() && Value() == Encoded(p)
    {
      header := Header(p.dup, p.qos, p.retain);
      remainingLength := 4 + |p.topic| + |p.payload|;
      data := Int16(|p.topic|) + p.topic;
      if p.qos > 0 {
        data := data + Int16(p.msgId);
      } else {
        remainingLength := remainingLength - 2;
      }
      data := data + p.payload;
    }

    method GetPublish() returns (r: Option<Publish>)
      requires Valid()
      ensures r == Decoded(Value())
    {
      if TypeOf(header) != PUBLISH {
        return None;
      }
      var d := data[..remainingLength];
      var qos := header / 2 % 4;
      var ids := if qos > 0 then 4 else 2;
      if |d| < 2 || |d| < ReadInt16(d) + ids {
        return None;
      }
      var topiclen := ReadInt16(d);
      var ptr := 2 + topiclen;
      var msgId := 0;
      if qos > 0 {
        msgId := ReadInt16(d[ptr..]);
        ptr := ptr + 2;
      }
      r := Some(Publish(header / 8 % 2 == 1, qos, header % 2 == 1, msgId, d[2..2 + topiclen], d[ptr..]));
    }

    /** Writes the packet as it goes to the broker. */
    method GetPacketData(buf: array<byte>) returns (n: nat)
      requires Valid() && |Wire(Value())| <= buf.Length
      modifies buf
      ensures n == |Wire(Value())| && buf[..n] == Wire(Value()) && buf[n..] == old(buf[n..])
    {
      var ptr := WriteBytes(buf, 0, [header]);
      var len := EncodeLength(buf, ptr, remainingLength);
      n := WriteBytes(buf, ptr + len, data[..remainingLength]);
    }

    /** Takes one packet off the front of a stream: a positive result is its length, others are error codes. */
    method Recv(stream: seq<byte>) returns (rc: int, rest: seq<byte>)
      modifies this
      ensures match ReceivedFrom(stream)
              case Failed(code) => rc == code
              case Received(p, tail) => Valid() && Value() == p && rest == tail && rc == |stream| - |tail|
    {
      rest := stream;
      header, remainingLength, data := 0, 0, [];
      if rest == [] {
        return -1, rest;
      }
      header, rest := rest[0], rest[1..];
      var len: int;
      len, rest := RecvLength(rest);
      if len < 0 {
        return len, rest;
      }
      if |rest| < remainingLength {
        return -2, rest;
      }
      data, rest := rest[..remainingLength], rest[remainingLength..];
      return 1 + len + remainingLength, rest;
    }

    /** The digits of the remaining length: how many there were, or an error code. */
    method RecvLength(s: seq<byte>) returns (len: int, rest: seq<byte>)
      requires remainingLength == 0
      modifies this`remainingLength
      ensures match LengthAt(s, MAX_NO_OF_REMAINING_LENGTH_BYTES)
              case Length(value, used) => remainingLength == value && len == used && rest == s[used..]
              case TooLong => len == -2
              case TooShort => len == -1
    {
      rest, len := s, 0;
      var multiplier: nat, c: nat := 1, 128;
      while c >= 128
        invariant 0 <= len <= MAX_NO_OF_REMAINING_LENGTH_BYTES && len <= |s| && rest == s[len..]
        invariant c >= 128 ==> LengthAt(s, 3) == Shifted(LengthAt(rest, 3 - len), remainingLength, multiplier, len)
        invariant c < 128 ==> LengthAt(s, 3) == Length(remainingLength, len)
        decreases c >= 128, 3 - len
      {
        len := len + 1;
        if len > MAX_NO_OF_REMAINING_LENGTH_BYTES {
          return -2, rest;
        }
        if rest == [] {
          return -1, rest;
        }
        c, rest := rest[0], rest[1..];
        NextDigit(c, LengthAt(rest, 3 - len), remainingLength, multiplier, len - 1);
        remainingLength := remainingLength + c % 128 * multiplier;
        multiplier := multiplier * 128;
      }
    }
  }

  /** A further digit counts multiplier times as much. */
  lemma NextDigit(c: nat, higher: Length, value: nat, multiplier: nat, used: nat)
    requires c < 256
    ensures c < 128 ==> Shifted(Length(c, 1), value, multiplier, used) == Length(value + c % 128 * multiplier, used + 1)
    ensures c >= 128 ==>
              Shifted(match higher case Length(v, u) => Length(c - 128 + 128 * v, u + 1) case other => other,
                      value, multiplier, used) ==
              Shifted(higher, value + c % 128 * multiplier, multiplier * 128, used + 1)
  {
    if c >= 128 && higher.Length? {
      var v := higher.value;
      assert c % 128 == c - 128;
      assert multiplier * (c - 128 + 128 * v) == (c - 128) * multiplier + multiplier * 128 * v;
    }
  }
}
