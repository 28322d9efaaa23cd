/**
 The MQTT-SN writers as they fill a caller's buffer through a moving index, and the PUBLISH reader.
 */
module SnWriter {
  import opened Wrappers
  import opened Bytes
  import opened SnPacket

  /**
   The memory at a buffer of buflen bytes after a writer: unchanged when the buffer is too short, else the framed body
   in front of what was there before.
   */
  ghost predicate Wrote(body: seq<byte>, buflen: nat, before: seq<byte>, after: seq<byte>, rc: int) {
    if PacketLen(|body|) > buflen then rc == BUFFER_TOO_SHORT && after == before
    else
      var packet := Framed(body);
      |packet| <= |before| && rc == |packet| && after == packet + before[|packet|..]
  }

  /** A writer goes past the end of its buffer exactly for a body of 254 bytes in a buffer of 255 or 256. */
  lemma OverrunIff(body: seq<byte>, buflen: nat, before: seq<byte>, after: seq<byte>, rc: int)
    requires Wrote(body, buflen, before, after, rc)
    ensures rc > buflen <==> |body| == 254 && (buflen == 255 || buflen == 256)
    ensures rc == -2 <==> |body| + (if |body| < 255 then 1 else 3) > buflen
  {
    LengthIsWritten(body);
  }

  /**
   The memory a writer may touch for a body of some length: where it can overrun, two bytes behind the buffer as well.
   */
  function Memory(length: nat, buflen: nat): nat {
    buflen + if length == 254 then 2 else 0
  }

  /** The moving pointer of the writers: written is what stands in front of it, before what the buffer held. */
  class Cursor {
    const buf: array<byte>
    var ptr: nat
    ghost const before: seq<byte>
    ghost var written: seq<byte>

    ghost predicate Valid()
      reads this, buf
    {
      && ptr == |written| <= buf.Length == |before|
      && forall i :: 0 <= i < buf.Length ==> buf[i] == if i < ptr then written[i] else before[i]
    }

    constructor (buf: array<byte>)
      ensures Valid() && this.buf == buf && before == buf[..] && written == []
    {
      this.buf := buf;
      ptr := 0;
      before := buf[..];
      written := [];
    }

    method WriteChar(c: byte)
      requires Valid() && ptr < buf.Length
      modifies this, buf
      ensures Valid() && written == old(written) + [c]
    {
      buf[ptr] := c;
      ptr := ptr + 1;
      written := written + [c];
    }

    method WriteInt(n: nat)
      requires Valid() && ptr + 2 <= buf.Length
      modifies this, buf
      ensures Valid() && written == old(written) + Int16(n)
    {
      WriteChar(n / 0x100 % 0x100);
      WriteChar(n % 0x100);
    }

    method CopyIn(bs: seq<byte>)
      requires Valid() && ptr + |bs| <= buf.Length
      modifies this, buf
      ensures Valid() && written == old(written) + bs
    {
      forall i | 0 <= i < |bs| {
        buf[ptr + i] := bs[i];
      }
      ptr := ptr + |bs|;
      written := written + bs;
    }

    method WriteLength(len: nat)
      requires Valid() && ptr + |LengthField(len)| <= buf.Length
      modifies this, buf
      ensures Valid() && written == old(written) + LengthField(len)
    {
      if len >= 255 {
        WriteChar(1);
        WriteInt(len);
      } else {
        WriteChar(len);
      }
    }
  }

  /** What the caller of a writer finds when the cursor has passed over a whole packet. */
  lemma Done(cursor: Cursor, body: seq<byte>, buflen: nat)
    requires cursor.Valid() && cursor.written == Framed(body) && PacketLen(|body|) <= buflen
    ensures Wrote(body, buflen, cursor.before, cursor.buf[..], cursor.ptr)
  {
  }

  /** The common shape of the writers: check the computed length, write it, then the fields, a name and a payload. */
  method WritePacket(buf: array<byte>, buflen: nat, fields: seq<byte>, name: seq<byte>, payload: seq<byte>)
      returns (rc: int)
    requires fields != [] && Memory(|fields + name + payload|, buflen) <= buf.Length
    modifies buf
    ensures Wrote(fields + name + payload, buflen, old(buf[..]), buf[..], rc)
  {
    ghost var body := fields + name + payload;
    var len := PacketLen(|fields| + |name| + |payload|);
    if len > buflen {
      return BUFFER_TOO_SHORT;
    }
    assert |Framed(body)| <= buf.Length;
    var cursor := new Cursor(buf);
    cursor.WriteLength(len);
    cursor.CopyIn(fields);
    cursor.CopyIn(name);
    cursor.CopyIn(payload);
    rc := cursor.ptr;
    assert cursor.written == Framed(body);
    Done(cursor, body, buflen);
  }

  method SerializePublish(buf: array<byte>, buflen: nat, p: Packet) returns (rc: int)
    requires p.Publish? && WellFormed(p) && Memory(|Body(p)|, buflen) <= buf.Length
    modifies buf
    ensures Wrote(Body(p), buflen, old(buf[..]), buf[..], rc)
  {
    var fields := [PUBLISH, Flags(p.dup, p.qos, p.retain, KindOf(p.topic))] + TopicField(p.topic) + Int16(p.msgId);
    assert Body(p) == fields + NameOf(p.topic) + p.payload;
    rc := WritePacket(buf, buflen, fields, NameOf(p.topic), p.payload);
  }

  method SerializeRegister(buf: array<byte>, buflen: nat, topicId: nat, msgId: nat, name: seq<byte>) returns (rc: int)
    requires WellFormed(Register(topicId, msgId, name)) && Memory(5 + |name|, buflen) <= buf.Length
    modifies buf
    ensures Wrote(Body(Register(topicId, msgId, name)), buflen, old(buf[..]), buf[..], rc)
  {
    var fields := [REGISTER] + Int16(topicId) + Int16(msgId);
    assert Body(Register(topicId, msgId, name)) == fields + name + [];
    rc := WritePacket(buf, buflen, fields, name, []);
  }

  method SerializeSubscribe(buf: array<byte>, buflen: nat, p: Packet) returns (rc: int)
    requires p.Subscribe? && WellFormed(p) && Memory(|Body(p)|, buflen) <= buf.Length
    modifies buf
    ensures Wrote(Body(p), buflen, old(buf[..]), buf[..], rc)
  {
    var fields := [SUBSCRIBE, Flags(p.dup, p.qos, false, KindOf(p.filter))] + Int16(p.msgId);
    var filter := if p.filter.ByName? then p.filter.name else TopicField(p.filter);
    assert Body(p) == fields + filter + [];
    rc := WritePacket(buf, buflen, fields, filter, []);
  }

  method SerializeSuback(buf: array<byte>, buflen: nat, qos: nat, topicId: nat, msgId: nat, code: byte)
      returns (rc: int)
    requires WellFormed(Suback(qos, topicId, msgId, code)) && buflen <= buf.Length
    modifies buf
    ensures Wrote(Body(Suback(qos, topicId, msgId, code)), buflen, old(buf[..]), buf[..], rc)
  {
    var fields := [SUBACK, Flags(false, qos, false, 0)] + Int16(topicId) + Int16(msgId) + [code];
    assert Body(Suback(qos, topicId, msgId, code)) == fields + [] + [];
    rc := WritePacket(buf, buflen, fields, [], []);
  }

  /** PUBACK and REGACK differ in their type only. */
  method SerializeIdAck(buf: array<byte>, buflen: nat, p: Packet) returns (rc: int)
    requires (p.Puback? || p.Regack?) && WellFormed(p) && buflen <= buf.Length
    modifies buf
    ensures Wrote(Body(p), buflen, old(buf[..]), buf[..], rc)
  {
    var fields := [if p.Puback? then PUBACK else REGACK] + Int16(p.topicId) + Int16(p.msgId) + [p.rc];
    assert Body(p) == fields + [] + [];
    rc := WritePacket(buf, buflen, fields, [], []);
  }

  method SerializeAck(buf: array<byte>, buflen: nat, kind: byte, msgId: nat) returns (rc: int)
    requires WellFormed(Ack(kind, msgId)) && buflen <= buf.Length
    modifies buf
    ensures Wrote(Body(Ack(kind, msgId)), buflen, old(buf[..]), buf[..], rc)
  {
    assert Body(Ack(kind, msgId)) == [kind] + Int16(msgId) + [] + [];
    rc := WritePacket(buf, buflen, [kind] + Int16(msgId), [], []);
  }

  /** Reads a PUBLISH from a buffer; None stands for the error return. */
  method DeserializePublish(buf: seq<byte>) returns (r: Option<Packet>)
    ensures r == (match Deserialized(buf) case Some(p) => if p.Publish? then Some(p) else None case None => None)
  {
    if buf == [] || (buf[0] == 1 && |buf| < 3) {
      return None;
    }
    var cur, end := 1, buf[0] as int;
    if buf[0] == 1 {
      end := ReadInt16(buf[1..]);
      cur := 3;
    }
    if !(cur < end <= |buf|) || buf[cur] != PUBLISH {
      return None;
    }
    r := ReadPublish(buf[cur..end]);
  }

  method ReadPublish(b: seq<byte>) returns (r: Option<Packet>)
    requires |b| > 0
    ensures r == ParsePublish(b)
  {
    if |b| < 6 {
      return None;
    }
    var cur := 1;
    var flags := b[cur];
    cur := cur + 1;
    var named := KindIn(flags) == 0 && QosIn(flags) == 3;
    var n := if named then ReadInt16(b[cur..cur + 2]) else 0;
    var topic := TopicAt(KindIn(flags), b[cur..cur + 2]);
    cur := cur + 2;
    var msgId := ReadInt16(b[cur..cur + 2]);
    cur := cur + 2;
    if |b| < cur + n {
      return None;
    }
    if named {
      topic := ByName(b[cur..cur + n]);
      cur := cur + n;
    }
    r := Some(Publish(flags / 0x80 == 1, QosIn(flags), flags / 0x10 % 2 == 1, msgId, topic, b[cur..]));
  }

  /** What a writer has put in a buffer is read back as the packet it was, exactly when the length could be written. */
  lemma WrittenIsRead(p: Packet, buflen: nat, before: seq<byte>, after: seq<byte>, rc: int)
    requires WellFormed(p) && Wrote(Body(p), buflen, before, after, rc) && rc != BUFFER_TOO_SHORT
    ensures 0 < rc <= |after| && (Deserialized(after[..rc]) == Some(p) <==> Fits(|Body(p)|))
  {
    RoundTrip(p);
    assert after[..rc] == Framed(Body(p));
  }
}
