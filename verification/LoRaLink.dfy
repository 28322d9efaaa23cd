/**
 The serial framing of the LoRa modem link: START, then the byte-stuffed frame, its last byte a checksum.
 The parser keeps its state across receive timeouts.
 */
module LoRaLink {
  import opened Wrappers

  const START_BYTE: byte := 0x7e
  const ESCAPE: byte := 0x7d
  const XON: byte := 0x11
  const XOFF: byte := 0x13
  const MAX_PAYLOAD := 256
  const MQTT_SN: byte := 0x40
  const BROADCAST_DEVADDR: byte := 0xff

  /** Exclusive or with 0x20: bit 5 flips. */
  function Pad(b: byte): (r: byte)
    ensures r != b && Flip(r) == b
  {
    Flip(b)
  }

  function Flip(b: byte): byte {
    if b / 0x20 % 2 == 0 then b + 0x20 else b - 0x20
  }

  predicate Special(b: byte) {
    b == START_BYTE || b == ESCAPE || b == XON || b == XOFF
  }

  // ----- byte stuffing

  /** One byte on the line, less the escape when that has been read. */
  ghost function Stuffed(c: byte, escape: bool): seq<byte> {
    if escape then [Pad(c)] else if Special(c) then [ESCAPE, Pad(c)] else [c]
  }

  ghost function Stuff(bs: seq<byte>): seq<byte> {
    if bs == [] then [] else Stuffed(bs[0], false) + Stuff(bs[1..])
  }

  ghost function Unstuff(bs: seq<byte>): seq<byte> {
    if bs == [] then []
    else if bs[0] == ESCAPE && |bs| > 1 then [Pad(bs[1])] + Unstuff(bs[2..])
    else [bs[0]] + Unstuff(bs[1..])
  }

  /** Stuffing loses nothing and hides the bytes that control the line. */
  lemma {:induction false} StuffingInverts(bs: seq<byte>)
    ensures Unstuff(Stuff(bs)) == bs
    ensures START_BYTE !in Stuff(bs) && XON !in Stuff(bs) && XOFF !in Stuff(bs)
    ensures |bs| <= |Stuff(bs)| <= 2 * |bs|
  {
    if bs != [] {
      StuffingInverts(bs[1..]);
      if Special(bs[0]) {
        assert Stuff(bs)[2..] == Stuff(bs[1..]);
      } else {
        assert Stuff(bs)[1..] == Stuff(bs[1..]);
      }
    }
  }

  lemma {:induction false} StuffAppend(xs: seq<byte>, c: byte)
    ensures Stuff(xs + [c]) == Stuff(xs) + Stuffed(c, false)
  {
    var ys := xs + [c];
    if xs == [] {
      assert ys[1..] == [];
    } else {
      StuffAppend(xs[1..], c);
      assert ys[1..] == xs[1..] + [c];
      assert Stuff(ys) == Stuffed(xs[0], false) + (Stuff(xs[1..]) + Stuffed(c, false));
    }
  }

  // ----- the receive layout

  /** The sum of the first k bytes, modulo 256. */
  ghost function Sum(bs: seq<byte>, k: nat): byte
    requires k <= |bs|
  {
    if k == 0 then 0 else (Sum(bs, k - 1) + bs[k - 1]) % 0x100
  }

  ghost function Crc(bs: seq<byte>): byte {
    0xff - Sum(bs, |bs|)
  }

  datatype Frame = Frame(src: byte, rssi: nat, snr: nat, kind: byte, payload: seq<byte>)

  ghost predicate WellSized(f: Frame) {
    f.rssi < 0x1_0000 && f.snr < 0x1_0000 && |f.payload| <= 256
  }

  /** What the checksum covers. */
  ghost function Covered(f: Frame): (bs: seq<byte>)
    requires WellSized(f)
    ensures |bs| == 6 + |f.payload|
  {
    [f.src, f.rssi / 0x100, f.rssi % 0x100, f.snr / 0x100, f.snr % 0x100, f.kind] + f.payload
  }

  /** The frame on the line before stuffing, with crc as its last byte. */
  ghost function Body(f: Frame, crc: byte): (bs: seq<byte>)
    requires WellSized(f)
    ensures |bs| == 9 + |f.payload|
  {
    [(|f.payload| + 7) / 0x100, (|f.payload| + 7) % 0x100] + Covered(f) + [crc]
  }

  /**
   Read by position: a length that counts the bytes behind it, the sender's address, signal strength and noise of two
   bytes each, the payload type, the payload and the last byte; with the right one all behind the length sums up to
   0xff.
   */
  lemma BodyLayout(f: Frame, crc: byte)
    requires WellSized(f)
    ensures var b := Body(f, crc);
            && |b| == |f.payload| + 9 && 0x100 * (b[0] as int) + b[1] == |b| - 2
            && b[2] == f.src && 0x100 * (b[3] as int) + b[4] == f.rssi && 0x100 * (b[5] as int) + b[6] == f.snr
            && b[7] == f.kind && b[8..|b| - 1] == f.payload && b[|b| - 1] == crc
            && (crc == Crc(Covered(f)) <==> Total(b[2..]) % 0x100 == 0xff)
  {
    assert Body(f, crc)[2..] == Covered(f) + [crc];
    CrcIff(Covered(f), crc);
  }

  lemma CrcIff(bs: seq<byte>, crc: byte)
    ensures crc == Crc(bs) <==> Total(bs + [crc]) % 0x100 == 0xff
  {
    SumIsTotal(bs, |bs|);
    assert bs[..|bs|] == bs && (bs + [crc])[..|bs|] == bs;
    LastFills(Total(bs), crc);
  }

  lemma LastFills(total: nat, crc: byte)
    ensures crc == 0xff - total % 0x100 <==> (total + crc) % 0x100 == 0xff
  {
  }

  /** The bytes with a meaning on the line, and how each of them goes over it. */
  lemma LineCodes()
    ensures forall c: byte :: Special(c) <==> c == 0x7e || c == 0x7d || c == 0x11 || c == 0x13
    ensures Stuff([0x7e]) == [0x7d, 0x5e] && Stuff([0x7d]) == [0x7d, 0x5d]
    ensures Stuff([0x11]) == [0x7d, 0x31] && Stuff([0x13]) == [0x7d, 0x33]
    ensures forall c: byte :: !Special(c) ==> Stuff([c]) == [c]
  {
  }

  // ----- the parser

  /** A receive either gives a byte or times out. */
  datatype Input = Byte(b: byte) | Timeout

  datatype Parser = Parser(pos: nat, checksum: byte, escape: bool, error: bool, available: bool,
                           len: nat, src: byte, rssi: nat, snr: nat, kind: byte, payload: seq<byte>)

  ghost predicate InRange(s: Parser) {
    s.pos < 0x1_0000 && s.len < 0x1_0000 && |s.payload| == MAX_PAYLOAD
  }

  ghost function Stored(payload: seq<byte>, i: int, b: byte): seq<byte> {
    if 0 <= i < |payload| then payload[i := b] else payload
  }

  ghost function Summed(s: Parser, b: byte): byte {
    (s.checksum + b) % 0x100
  }

  /** One decoded byte; the frame is complete when the second part is true. */
  ghost function Decoded(s: Parser, b: byte): (r: (Parser, bool))
    requires InRange(s)
    ensures InRange(r.0)
  {
    var next := (s.pos + 1) % 0x1_0000;
    match s.pos
    case 0 => (s.(pos := next), false)
    case 1 => (s.(pos := next, len := b * 0x100), false)
    case 2 => (s.(pos := next, len := (s.len + b) % 0x1_0000), false)
    case 3 => (s.(pos := next, src := b, checksum := b), false)
    case 4 => (s.(pos := next, rssi := b * 0x100, checksum := Summed(s, b)), false)
    case 5 => (s.(pos := next, rssi := (s.rssi + b) % 0x1_0000, checksum := Summed(s, b)), false)
    case 6 => (s.(pos := next, snr := b * 0x100, checksum := Summed(s, b)), false)
    case 7 => (s.(pos := next, snr := (s.snr + b) % 0x1_0000, checksum := Summed(s, b)), false)
    case 8 => (s.(pos := next, kind := b, checksum := Summed(s, b)), false)
    case _ =>
      if s.pos >= s.len + 2 then
        (s.(error := 0xff - s.checksum != b, available := true, len := (s.len - 7) % 0x1_0000, pos := 0, checksum := 0),
         true)
      else
        (s.(pos := next, payload := Stored(s.payload, s.pos - 9, b), checksum := Summed(s, b)), false)
  }

  ghost function Started(s: Parser): Parser {
    s.(pos := 1, error := true, available := false)
  }

  /**
   START begins a frame wherever the parser stands, which holds none until its end; of the rest nothing is touched.
   */
  lemma FrameOpens(s: Parser, input: seq<Input>)
    requires InRange(s)
    ensures Read(s, [Byte(0x7e)] + input) == Read(s.(pos := 1, error := true, available := false), input)
  {
    assert ([Byte(0x7e)] + input)[1..] == input;
  }

  ghost function Rest(input: seq<Input>, n: nat): seq<Input> {
    if n <= |input| then input[n..] else []
  }

  /** A call of the parser: it returns on a timeout or with a complete frame, leaving the rest of the input. */
  ghost function Read(s: Parser, input: seq<Input>): (r: (Parser, bool, seq<Input>))
    requires InRange(s)
    ensures InRange(r.0) && |r.2| <= |input| && (input != [] ==> |r.2| < |input|)
    decreases |input|, 1
  {
    if input == [] || input[0].Timeout? then (s, false, Rest(input, 1))
    else if input[0].b == START_BYTE then Read(Started(s), input[1..])
    else if s.pos > 0 && input[0].b == ESCAPE then
      if |input| == 1 || input[1].Timeout? then Read(s.(escape := true), Rest(input, 2))
      else Take(s, Pad(input[1].b), input[2..])
    else Take(s, input[0].b, input[1..])
  }

  /** One byte after the escape read in the same call has been undone. */
  ghost function Take(s: Parser, b: byte, rest: seq<Input>): (r: (Parser, bool, seq<Input>))
    requires InRange(s)
    ensures InRange(r.0) && |r.2| <= |rest|
    decreases |rest|, 2
  {
    var (t, done) := Decoded(s.(escape := false), if s.escape then Pad(b) else b);
    if done then (t, true, rest) else Read(t, rest)
  }

  // ----- frames through the parser

  datatype Received = Received(frame: Frame, error: bool)

  /** What the caller finds in the parser's fields after a complete frame. */
  ghost function Got(s: Parser): Received {
    var n := if s.len <= |s.payload| then s.len else |s.payload|;
    Received(Frame(s.src, s.rssi, s.snr, s.kind, s.payload[..n]), s.error)
  }

  /** Calls the parser until the input is used up: the frames it completes. */
  ghost function Session(s: Parser, input: seq<Input>): seq<Received>
    requires InRange(s)
    decreases |input|
  {
    if input == [] then []
    else
      var (t, done, rest) := Read(s, input);
      if done then [Got(t)] + Session(t, rest) else Session(t, rest)
  }

  /** The bytes of an input, wherever the timeouts stand. */
  ghost function Bytes(input: seq<Input>): seq<byte> {
    if input == [] then []
    else if input[0].Timeout? then Bytes(input[1..])
    else [input[0].b] + Bytes(input[1..])
  }

  lemma SessionContinues(s: Parser, input: seq<Input>, t: Parser, rest: seq<Input>)
    requires InRange(s) && InRange(t) && |rest| < |input| && Read(s, input) == Read(t, rest)
    ensures Session(s, input) == Session(t, rest)
  {
  }

  /** The parser after k bytes of a frame. */
  ghost predicate InFrame(s: Parser, f: Frame, k: nat)
    requires WellSized(f)
  {
    && InRange(s) && k <= 8 + |f.payload| && s.pos == k + 1
    && (k == 1 ==> s.len == (|f.payload| + 7) / 0x100 * 0x100) && (k >= 2 ==> s.len == |f.payload| + 7)
    && (k >= 3 ==> s.src == f.src && s.checksum == Sum(Covered(f), k - 2))
    && (k == 4 ==> s.rssi == f.rssi / 0x100 * 0x100) && (k >= 5 ==> s.rssi == f.rssi)
    && (k == 6 ==> s.snr == f.snr / 0x100 * 0x100) && (k >= 7 ==> s.snr == f.snr)
    && (k >= 8 ==> s.kind == f.kind && s.payload[..k - 8] == f.payload[..k - 8])
  }

  lemma LengthStep(s: Parser, f: Frame, crc: byte, k: nat)
    requires WellSized(f) && InFrame(s, f, k) && k < 2
    ensures var (t, done) := Decoded(s, Body(f, crc)[k]); !done && InFrame(t, f, k + 1) && t.escape == s.escape
  {
  }

  lemma Recombine(v: nat)
    requires v < 0x1_0000
    ensures v / 0x100 < 0x100 && (v / 0x100 * 0x100 + v % 0x100) % 0x1_0000 == v
  {
  }

  lemma HeaderStep(s: Parser, f: Frame, c: byte, k: nat)
    requires WellSized(f) && InFrame(s, f, k) && 2 <= k < 8 && c == Covered(f)[k - 2]
    ensures var (t, done) := Decoded(s, c); !done && InFrame(t, f, k + 1) && t.escape == s.escape
  {
    Recombine(f.rssi);
    Recombine(f.snr);
    if k == 2 {
    } else if k == 3 {
    } else if k == 4 {
    } else if k == 5 {
    } else if k == 6 {
    } else {
    }
  }

  lemma PayloadStep(s: Parser, f: Frame, crc: byte, k: nat)
    requires WellSized(f) && InFrame(s, f, k) && 8 <= k < 8 + |f.payload|
    ensures var (t, done) := Decoded(s, Body(f, crc)[k]); !done && InFrame(t, f, k + 1) && t.escape == s.escape
  {
    var i := k - 8;
    var t := Decoded(s, Body(f, crc)[k]).0;
    assert Body(f, crc)[k] == Covered(f)[k - 2] == f.payload[i];
    if i < |f.payload| {
      PayloadGrows(s.payload, f.payload, i);
    }
  }

  lemma PayloadGrows(buf: seq<byte>, payload: seq<byte>, i: nat)
    requires i < |buf| && i < |payload| && buf[..i] == payload[..i]
    ensures buf[i := payload[i]][..i + 1] == payload[..i + 1]
  {
    assert buf[i := payload[i]][..i] == buf[..i];
  }

  lemma FrameEnd(s: Parser, f: Frame, crc: byte)
    requires WellSized(f) && InFrame(s, f, 8 + |f.payload|)
    ensures var (t, done) := Decoded(s, Body(f, crc)[8 + |f.payload|]);
            done && t.escape == s.escape && Got(t) == Received(f, crc != Crc(Covered(f)))
  {
    assert f.payload[..|f.payload|] == f.payload;
  }

  /** What is left of a stuffed frame after k bytes, when half of an escape pair may have been read. */
  ghost function Pending(f: Frame, crc: byte, k: nat, escape: bool): seq<byte>
    requires WellSized(f) && k <= |Body(f, crc)|
  {
    if escape && k < |Body(f, crc)| then [Pad(Body(f, crc)[k])] + Stuff(Body(f, crc)[k + 1..])
    else Stuff(Body(f, crc)[k..])
  }

  lemma PendingHead(f: Frame, crc: byte, k: nat, escape: bool)
    requires WellSized(f) && k < |Body(f, crc)|
    ensures Pending(f, crc, k, escape) == Stuffed(Body(f, crc)[k], escape) + Stuff(Body(f, crc)[k + 1..])
  {
    assert Body(f, crc)[k..][1..] == Body(f, crc)[k + 1..];
  }

  lemma BodyStep(s: Parser, f: Frame, crc: byte, k: nat)
    requires WellSized(f) && InFrame(s, f, k) && k < 8 + |f.payload|
    ensures var (t, done) := Decoded(s, Body(f, crc)[k]); !done && InFrame(t, f, k + 1) && t.escape == s.escape
  {
    if k < 2 {
      LengthStep(s, f, crc, k);
    } else if k < 8 {
      assert Body(f, crc)[k] == Covered(f)[k - 2];
      HeaderStep(s, f, Covered(f)[k - 2], k);
    } else {
      PayloadStep(s, f, crc, k);
    }
  }

  /** The frame's byte k has been read from input and rest is what follows it. */
  ghost predicate ReadsByte(s: Parser, input: seq<Input>, rest: seq<Input>, c: byte)
    requires InRange(s)
  {
    && |rest| < |input|
    && Read(s, input) == var (t, done) := Decoded(s.(escape := false), c);
                         if done then (t, true, rest) else Read(t, rest)
  }

  lemma NextPair(s: Parser, input: seq<Input>, c: byte, after: seq<byte>) returns (rest: seq<Input>)
    requires InRange(s) && s.pos > 0 && !s.escape && input != [] && input[0] == Byte(ESCAPE)
    requires Bytes(input) == [ESCAPE, Pad(c)] + after
    ensures |input| > 1 && rest == input[2..]
    ensures input[1].Byte? ==> ReadsByte(s, input, rest, c) && Bytes(rest) == after
    ensures input[1].Timeout? ==> Read(s, input) == Read(s.(escape := true), rest) && Bytes(rest) == [Pad(c)] + after
  {
    assert Bytes(input[1..]) == Bytes(input)[1..] == [Pad(c)] + after;
    rest := input[2..];
    assert input[1..][1..] == rest;
    assert ([Pad(c)] + after)[1..] == after;
    assert ([Pad(c)] + after)[0] == Pad(c);
  }

  /** The next byte is read, or its escape is read and then a receive times out. */
  lemma NextByte(s: Parser, input: seq<Input>, c: byte, after: seq<byte>) returns (rest: seq<Input>, read: bool)
    requires InRange(s) && s.pos > 0 && (s.escape ==> Special(c))
    requires input != [] && input[0].Byte? && Bytes(input) == Stuffed(c, s.escape) + after
    ensures |rest| < |input|
    ensures read ==> ReadsByte(s, input, rest, c) && Bytes(rest) == after
    ensures !read ==>
              && Special(c) && Read(s, input) == Read(s.(escape := true), rest)
              && Bytes(rest) == Stuffed(c, true) + after
  {
    if !s.escape && Special(c) {
      assert Bytes(input)[0] == ESCAPE;
      rest := NextPair(s, input, c, after);
      read := input[1].Byte?;
    } else {
      rest, read := input[1..], true;
      assert Bytes(input) == [input[0].b] + Bytes(rest);
      assert Bytes(input)[0] == input[0].b && Bytes(input)[1..] == Bytes(rest);
      assert (Stuffed(c, s.escape) + after)[1..] == after;
      assert (Stuffed(c, s.escape) + after)[0] == input[0].b;
      assert Read(s, input) == Take(s, input[0].b, rest);
    }
  }

  /** The parser stands k bytes into a frame, of which the rest is still to come. */
  ghost predicate Midway(s: Parser, input: seq<Input>, f: Frame, crc: byte, k: nat, tail: seq<byte>)
    requires WellSized(f)
  {
    InFrame(s, f, k) && (s.escape ==> Special(Body(f, crc)[k])) && Bytes(input) == Pending(f, crc, k, s.escape) + tail
  }

  /** The parser has delivered the frame at the end of which it stands. */
  ghost predicate Delivered(s: Parser, input: seq<Input>, f: Frame, crc: byte, tail: seq<byte>, t: Parser,
                            rest: seq<Input>)
    requires WellSized(f) && InRange(s)
  {
    && InRange(t) && !t.escape && |rest| < |input| && Bytes(rest) == tail
    && Session(s, input) == [Received(f, crc != Crc(Covered(f)))] + Session(t, rest)
  }

  lemma AfterByte(s: Parser, input: seq<Input>, rest: seq<Input>, f: Frame, crc: byte, k: nat, tail: seq<byte>)
    returns (t: Parser)
    requires WellSized(f) && InFrame(s, f, k) && ReadsByte(s, input, rest, Body(f, crc)[k])
    requires Bytes(rest) == Stuff(Body(f, crc)[k + 1..]) + tail
    ensures k < 8 + |f.payload| ==> Midway(t, rest, f, crc, k + 1, tail) && Session(s, input) == Session(t, rest)
    ensures k == 8 + |f.payload| ==> Delivered(s, input, f, crc, tail, t, rest)
  {
    var s1 := s.(escape := false);
    t := Decoded(s1, Body(f, crc)[k]).0;
    if k < 8 + |f.payload| {
      BodyStep(s1, f, crc, k);
      SessionContinues(s, input, t, rest);
    } else {
      FrameEnd(s1, f, crc);
      assert Body(f, crc)[k + 1..] == [];
    }
  }

  lemma AfterEscape(s: Parser, input: seq<Input>, rest: seq<Input>, f: Frame, crc: byte, k: nat, tail: seq<byte>)
    returns (t: Parser)
    requires WellSized(f) && InFrame(s, f, k) && Special(Body(f, crc)[k]) && |rest| < |input|
    requires Read(s, input) == Read(s.(escape := true), rest)
    requires Bytes(rest) == Stuffed(Body(f, crc)[k], true) + (Stuff(Body(f, crc)[k + 1..]) + tail)
    ensures Midway(t, rest, f, crc, k, tail) && Session(s, input) == Session(t, rest)
  {
    t := s.(escape := true);
    PendingHead(f, crc, k, true);
    SessionContinues(s, input, t, rest);
    assert Bytes(rest) == Pending(f, crc, k, true) + tail;
  }

  /** The next byte of a frame, by NextByte. */
  lemma NextOfFrame(s: Parser, input: seq<Input>, f: Frame, crc: byte, k: nat, tail: seq<byte>)
    returns (rest: seq<Input>, read: bool)
    requires WellSized(f) && Midway(s, input, f, crc, k, tail) && input != [] && input[0].Byte?
    ensures |rest| < |input|
    ensures read ==> ReadsByte(s, input, rest, Body(f, crc)[k]) && Bytes(rest) == Stuff(Body(f, crc)[k + 1..]) + tail
    ensures !read ==>
              && Special(Body(f, crc)[k]) && Read(s, input) == Read(s.(escape := true), rest)
              && Bytes(rest) == Stuffed(Body(f, crc)[k], true) + (Stuff(Body(f, crc)[k + 1..]) + tail)
  {
    PendingHead(f, crc, k, s.escape);
    Onward(Stuffed(Body(f, crc)[k], s.escape), Stuff(Body(f, crc)[k + 1..]), tail);
    rest, read := NextByte(s, input, Body(f, crc)[k], Stuff(Body(f, crc)[k + 1..]) + tail);
  }

  lemma Onward<T>(xs: seq<T>, ys: seq<T>, zs: seq<T>)
    ensures xs + ys + zs == xs + (ys + zs)
  {
  }

  lemma FrameByte(s: Parser, input: seq<Input>, f: Frame, crc: byte, k: nat, tail: seq<byte>)
    returns (t: Parser, rest: seq<Input>, n: nat)
    requires WellSized(f) && Midway(s, input, f, crc, k, tail) && input != [] && input[0].Byte?
    ensures || Delivered(s, input, f, crc, tail, t, rest)
            || (Midway(t, rest, f, crc, n, tail) && |rest| < |input| && Session(s, input) == Session(t, rest))
  {
    var read;
    rest, read := NextOfFrame(s, input, f, crc, k, tail);
    if read {
      n := k + 1;
      t := AfterByte(s, input, rest, f, crc, k, tail);
    } else {
      n := k;
      t := AfterEscape(s, input, rest, f, crc, k, tail);
    }
  }

  lemma {:induction false} FrameParsed(s: Parser, input: seq<Input>, f: Frame, crc: byte, k: nat, tail: seq<byte>)
    returns (t: Parser, rest: seq<Input>)
    requires WellSized(f) && Midway(s, input, f, crc, k, tail)
    ensures Delivered(s, input, f, crc, tail, t, rest)
    decreases |input|
  {
    if input[0].Timeout? {
      t, rest := FrameParsed(s, input[1..], f, crc, k, tail);
    } else {
      var n;
      t, rest, n := FrameByte(s, input, f, crc, k, tail);
      if !Delivered(s, input, f, crc, tail, t, rest) {
        t, rest := FrameParsed(t, rest, f, crc, n, tail);
      }
    }
  }

  /** Frames on the line, each behind a START and each with the checksum byte it comes with. */
  ghost function Line(fs: seq<(Frame, byte)>): seq<byte>
    requires forall i :: 0 <= i < |fs| ==> WellSized(fs[i].0)
  {
    if fs == [] then [] else [START_BYTE] + Stuff(Body(fs[0].0, fs[0].1)) + Line(fs[1..])
  }

  ghost function Expected(fs: seq<(Frame, byte)>): seq<Received>
    requires forall i :: 0 <= i < |fs| ==> WellSized(fs[i].0)
  {
    if fs == [] then [] else [Received(fs[0].0, fs[0].1 != Crc(Covered(fs[0].0)))] + Expected(fs[1..])
  }

  /**
   From any state without a pending escape every frame arrives, wherever receives time out; error means a wrong
   checksum.
   */
  lemma {:induction false} FramesReceived(s: Parser, input: seq<Input>, fs: seq<(Frame, byte)>)
    requires InRange(s) && !s.escape
    requires forall i :: 0 <= i < |fs| ==> WellSized(fs[i].0)
    requires Bytes(input) == Line(fs)
    ensures Session(s, input) == Expected(fs)
    decreases |input|
  {
    if input == [] {
    } else if input[0].Timeout? {
      FramesReceived(s, input[1..], fs);
    } else {
      var f, crc, tail := fs[0].0, fs[0].1, Line(fs[1..]);
      FrameBegins(s, input, f, crc, tail);
      var t, rest := FrameParsed(Started(s), input[1..], f, crc, 0, tail);
      FramesReceived(t, rest, fs[1..]);
    }
  }

  lemma FrameBegins(s: Parser, input: seq<Input>, f: Frame, crc: byte, tail: seq<byte>)
    requires InRange(s) && WellSized(f) && input != [] && input[0].Byte?
    requires Bytes(input) == [START_BYTE] + Stuff(Body(f, crc)) + tail
    ensures Bytes(input[1..]) == Stuff(Body(f, crc)) + tail && input[0].b == START_BYTE
    ensures Session(s, input) == Session(Started(s), input[1..])
    ensures !s.escape ==> Midway(Started(s), input[1..], f, crc, 0, tail)
  {
    var stuffed := Stuff(Body(f, crc)) + tail;
    assert Bytes(input) == [START_BYTE] + stuffed;
    assert Bytes(input)[0] == input[0].b && Bytes(input)[1..] == Bytes(input[1..]);
    SessionContinues(s, input, Started(s), input[1..]);
    if !s.escape {
      assert Body(f, crc)[0..] == Body(f, crc);
      assert InFrame(Started(s), f, 0);
    }
  }

  /** The high length byte has been misread, so no byte that can still come ends a frame. */
  ghost predicate Lost(s: Parser, input: seq<Input>) {
    && InRange(s) && 0x2000 <= s.len <= 0x21ff && 2 <= s.pos && s.pos + |Bytes(input)| < 0x2000
    && START_BYTE !in Bytes(input) && (s.pos == 2 ==> s.len == 0x2000 || s.len == 0x2100)
  }

  lemma {:induction false} LostStaysLost(s: Parser, input: seq<Input>)
    requires Lost(s, input)
    ensures Session(s, input) == []
    decreases |input|
  {
    if input == [] {
    } else if input[0].Timeout? {
      LostStaysLost(s, input[1..]);
    } else {
      var t, rest := LostByte(s, input);
      LostStaysLost(t, rest);
    }
  }

  lemma LostByte(s: Parser, input: seq<Input>) returns (t: Parser, rest: seq<Input>)
    requires Lost(s, input) && input != [] && input[0].Byte?
    ensures Lost(t, rest) && |rest| < |input| && Session(s, input) == Session(t, rest)
  {
    assert Bytes(input) == [input[0].b] + Bytes(input[1..]);
    if input[0].b != ESCAPE {
      rest := input[1..];
      t := LostDecoded(s, input, input[0].b, rest);
    } else if |input| == 1 || input[1].Timeout? {
      t, rest := s.(escape := true), Rest(input, 2);
      SessionContinues(s, input, t, rest);
    } else {
      rest := input[2..];
      assert Bytes(input[1..]) == [input[1].b] + Bytes(rest);
      t := LostDecoded(s, input, Pad(input[1].b), rest);
    }
  }

  lemma LostDecoded(s: Parser, input: seq<Input>, b: byte, rest: seq<Input>) returns (t: Parser)
    requires Lost(s, input) && Read(s, input) == Take(s, b, rest) && |rest| < |input|
    requires |Bytes(rest)| < |Bytes(input)| && START_BYTE !in Bytes(rest)
    ensures Lost(t, rest) && Session(s, input) == Session(t, rest)
  {
    var c := if s.escape then Pad(b) else b;
    LostStep(s.(escape := false), c);
    t := Decoded(s.(escape := false), c).0;
    assert Read(s, input) == Read(t, rest);
    SessionContinues(s, input, t, rest);
  }

  lemma LostStep(s: Parser, c: byte)
    requires InRange(s) && 0x2000 <= s.len <= 0x21ff && 2 <= s.pos < 0x2000
            && (s.pos == 2 ==> s.len == 0x2000 || s.len == 0x2100)
    ensures var (t, done) := Decoded(s, c); !done && t.pos == s.pos + 1 && 0x2000 <= t.len <= 0x21ff
  {
  }

  /** START does not clear a pending escape: then the next frame is not received, whatever it is. */
  lemma PendingEscapeLosesFrame(s: Parser, input: seq<Input>, f: Frame, crc: byte)
    requires InRange(s) && s.escape && WellSized(f)
    requires Bytes(input) == [START_BYTE] + Stuff(Body(f, crc))
    ensures Session(s, input) == []
    decreases |input|
  {
    if input[0].Timeout? {
      PendingEscapeLosesFrame(s, input[1..], f, crc);
    } else {
      assert Stuff(Body(f, crc)) + [] == Stuff(Body(f, crc));
      FrameBegins(s, input, f, crc, []);
      EscapedLength(Started(s), input[1..], f, crc);
    }
  }

  lemma {:induction false} EscapedLength(s: Parser, input: seq<Input>, f: Frame, crc: byte)
    requires InRange(s) && s.escape && s.pos == 1 && WellSized(f)
    requires Bytes(input) == Stuff(Body(f, crc))
    ensures Session(s, input) == []
    decreases |input|
  {
    var body := Body(f, crc);
    StuffingInverts(body);
    assert Stuff(body) == [body[0]] + Stuff(body[1..]);
    if input[0].Timeout? {
      EscapedLength(s, input[1..], f, crc);
    } else {
      assert Bytes(input)[0] == input[0].b && Bytes(input)[1..] == Bytes(input[1..]) == Stuff(body[1..]);
      MisreadLength(s, input);
      LostStaysLost(Decoded(s.(escape := false), Pad(body[0])).0, input[1..]);
    }
  }

  lemma MisreadLength(s: Parser, input: seq<Input>)
    requires InRange(s) && s.escape && s.pos == 1 && input != [] && (input[0] == Byte(0) || input[0] == Byte(1))
    ensures var t := Decoded(s.(escape := false), Pad(input[0].b)).0;
            t.pos == 2 && (t.len == 0x2000 || t.len == 0x2100) && Session(s, input) == Session(t, input[1..])
  {
    assert Read(s, input) == Take(s, input[0].b, input[1..]);
    SessionContinues(s, input, Decoded(s.(escape := false), Pad(input[0].b)).0, input[1..]);
  }

  /** Whether a frame is received is decided by the escape flag alone. */
  lemma ReceivedIffNoEscape(s: Parser, input: seq<Input>, f: Frame, crc: byte)
    requires InRange(s) && WellSized(f) && Bytes(input) == Line([(f, crc)])
    ensures Session(s, input) == [Received(f, crc != Crc(Covered(f)))] <==> !s.escape
  {
    var fs := [(f, crc)];
    assert fs[1..] == [];
    if s.escape {
      PendingEscapeLosesFrame(s, input, f, crc);
    } else {
      FramesReceived(s, input, fs);
    }
  }

  // ----- the transmit layout

  /** What goes to the modem behind START, before stuffing. */
  ghost function Request(dest: byte, kind: byte, payload: seq<byte>): seq<byte>
    requires |payload| <= 0xff
  {
    var covered := [dest, kind] + payload;
    [(|payload| + 3) / 0x100, (|payload| + 3) % 0x100] + covered + [Crc(covered)]
  }

  /** The sum of all bytes, not cut to eight bits. */
  ghost function Total(bs: seq<byte>): nat {
    if bs == [] then 0 else Total(bs[..|bs| - 1]) + bs[|bs| - 1]
  }

  lemma {:induction false} SumIsTotal(bs: seq<byte>, k: nat)
    requires k <= |bs|
    ensures Sum(bs, k) == Total(bs[..k]) % 0x100
  {
    if k > 0 {
      SumIsTotal(bs, k - 1);
      assert bs[..k][..k - 1] == bs[..k - 1];
    }
  }

  /**
   A frame as the modem expects it: a length of two bytes that counts the bytes behind it, the address, the payload
   type, the payload, and a last byte that brings the sum of all behind the length to 0xff.
   */
  ghost predicate Transmits(b: seq<byte>, dest: byte, kind: byte, payload: seq<byte>) {
    && |b| == |payload| + 5 && 0x100 * (b[0] as int) + b[1] == |b| - 2
    && b[2] == dest && b[3] == kind && b[4..|b| - 1] == payload && Total(b[2..]) % 0x100 == 0xff
  }

  lemma RequestTransmits(dest: byte, kind: byte, payload: seq<byte>)
    requires |payload| <= 0xff
    ensures Transmits(Request(dest, kind, payload), dest, kind, payload)
  {
    var b, covered := Request(dest, kind, payload), [dest, kind] + payload;
    CrcIff(covered, Crc(covered));
    assert b[2..] == covered + [Crc(covered)];
  }

  /** What has gone out since: START, which occurs nowhere else, and a frame that reads so when it is unstuffed. */
  ghost predicate SentFrame(before: seq<byte>, after: seq<byte>, dest: byte, kind: byte, payload: seq<byte>) {
    && |before| < |after| && before == after[..|before|] && after[|before|] == 0x7e
    && 0x7e !in after[|before| + 1..] && 0x11 !in after[|before| + 1..] && 0x13 !in after[|before| + 1..]
    && Transmits(Unstuff(after[|before| + 1..]), dest, kind, payload)
  }

  lemma SentLayout(before: seq<byte>, after: seq<byte>, dest: byte, kind: byte, payload: seq<byte>)
    requires |payload| <= 0xff && after == before + [START_BYTE] + Stuff(Request(dest, kind, payload))
    ensures SentFrame(before, after, dest, kind, payload)
  {
    RequestTransmits(dest, kind, payload);
    StuffingInverts(Request(dest, kind, payload));
    assert after[|before| + 1..] == Stuff(Request(dest, kind, payload));
  }

  lemma SumOfTwo(dest: byte, kind: byte, payload: seq<byte>)
    ensures Sum([dest, kind] + payload, 2) == (dest + kind) % 0x100
  {
    assert Sum([dest, kind] + payload, 1) == dest;
  }

  lemma PrefixGrows(bytes: seq<byte>, payload: seq<byte>, i: nat)
    requires i < |payload|
    ensures bytes + payload[..i] + [payload[i]] == bytes + payload[..i + 1]
  {
  }

  class FrameWriter {
    var sent: seq<byte>

    constructor ()
      ensures sent == []
    {
      sent := [];
    }

    /** A byte of a frame; start is what went out before the frame's stuffed bytes. */
    method SendByte(c: byte, ghost start: seq<byte>, ghost bytes: seq<byte>)
      requires sent == start + Stuff(bytes)
      modifies this
      ensures sent == start + Stuff(bytes + [c])
    {
      StuffAppend(bytes, c);
      if c == START_BYTE || c == ESCAPE || c == XON || c == XOFF {
        sent := sent + [ESCAPE];
        sent := sent + [Pad(c)];
      } else {
        sent := sent + [c];
      }
    }

    method Send(kind: byte, payload: seq<byte>, dest: byte)
      requires |payload| <= 0xff
      modifies this
      ensures sent == old(sent) + [START_BYTE] + Stuff(Request(dest, kind, payload))
      ensures SentFrame(old(sent), sent, dest, kind, payload)
    {
      var len := |payload| + 3;
      sent := sent + [START_BYTE];
      ghost var start := sent;
      SendByte(len / 0x100, start, []);
      SendByte(len % 0x100, start, [len / 0x100]);
      SendByte(dest, start, [len / 0x100, len % 0x100]);
      SendByte(kind, start, [len / 0x100, len % 0x100, dest]);
      assert [len / 0x100, len % 0x100, dest] + [kind] == [len / 0x100, len % 0x100, dest, kind];
      var chks := SendPayload(dest, kind, payload, start, [len / 0x100, len % 0x100, dest, kind]);
      SendByte(0xff - chks, start, [len / 0x100, len % 0x100, dest, kind] + payload);
      assert [len / 0x100, len % 0x100, dest, kind] + payload + [0xff - chks] == Request(dest, kind, payload);
      SentLayout(old(sent), sent, dest, kind, payload);
    }

    method SendPayload(dest: byte, kind: byte, payload: seq<byte>, ghost start: seq<byte>, ghost bytes: seq<byte>)
      returns (chks: byte)
      requires sent == start + Stuff(bytes)
      modifies this
      ensures sent == start + Stuff(bytes + payload)
      ensures 0xff - chks == Crc([dest, kind] + payload)
    {
      ghost var covered := [dest, kind] + payload;
      chks := (dest + kind) % 0x100;
      SumOfTwo(dest, kind, payload);
      assert bytes + payload[..0] == bytes;
      for i := 0 to |payload|
        invariant sent == start + Stuff(bytes + payload[..i])
        invariant chks == Sum(covered, i + 2)
      {
        SendByte(payload[i], start, bytes + payload[..i]);
        PrefixGrows(bytes, payload, i);
        chks := (chks + payload[i]) % 0x100;
      }
      assert payload[..|payload|] == payload;
    }

    /** The length is cut to eight bits. */
    method Unicast(payload: seq<byte>, dest: byte)
      modifies this
      ensures SentFrame(old(sent), sent, dest, 0x40, payload[..|payload| % 0x100])
    {
      Send(MQTT_SN, payload[..|payload| % 0x100], dest);
    }

    /** As Unicast, to every device. */
    method Broadcast(payload: seq<byte>)
      modifies this
      ensures SentFrame(old(sent), sent, 0xff, 0x40, payload[..|payload| % 0x100])
    {
      Send(MQTT_SN, payload[..|payload| % 0x100], BROADCAST_DEVADDR);
    }
  }

  // ----- the reader

  class FrameReader {
    var pos: nat
    var checksum: byte
    var escape: bool
    var error: bool
    var available: bool
    var len: nat
    var src: byte
    var rssi: nat
    var snr: nat
    var kind: byte
    const payload: array<byte>

    ghost function State(): Parser
      reads this, payload
    {
      Parser(pos, checksum, escape, error, available, len, src, rssi, snr, kind, payload[..])
    }

    ghost predicate Valid()
      reads this, payload
    {
      InRange(State())
    }

    constructor ()
      ensures Valid() && pos == 0 && !escape && fresh(payload)
    {
      pos, checksum, escape, error, available := 0, 0, false, false, false;
      len, src, rssi, snr, kind := 0, 0, 0, 0, 0;
      payload := new byte[MAX_PAYLOAD](_ => 0);
    }

    method ReadApiFrame(input: seq<Input>) returns (done: bool, rest: seq<Input>)
      requires Valid()
      modifies this, payload
      ensures Valid() && (State(), done, rest) == Read(old(State()), input)
    {
      rest := input;
      while rest != [] && rest[0].Byte?
        invariant Valid() && Read(State(), rest) == Read(old(State()), input)
        decreases |rest|
      {
        var b := rest[0].b;
        rest := rest[1..];
        if b == START_BYTE {
          pos, error, available := 1, true, false;
          continue;
        }
        if pos > 0 && b == ESCAPE {
          if rest != [] && rest[0].Byte? {
            b := Pad(rest[0].b);
            rest := rest[1..];
          } else {
            escape := true;
            rest := if rest == [] then [] else rest[1..];
            continue;
          }
        }
        if escape {
          b := Pad(b);
          escape := false;
        }
        done := Decode(b);
        if done {
          return;
        }
      }
      done := false;
      rest := if rest == [] then [] else rest[1..];
    }

    /** The switch over the position in the frame. */
    method Decode(b: byte) returns (done: bool)
      requires Valid()
      modifies this, payload
      ensures Valid() && (State(), done) == Decoded(old(State()), b)
    {
      done := false;
      if 4 <= pos <= 8 {
        checksum := (checksum + b) % 0x100;
      }
      if pos == 0 {
      } else if pos == 1 {
        len := b * 0x100;
      } else if pos == 2 {
        len := (len + b) % 0x1_0000;
      } else if pos == 3 {
        src, checksum := b, b;
      } else if pos == 4 {
        rssi := b * 0x100;
      } else if pos == 5 {
        rssi := (rssi + b) % 0x1_0000;
      } else if pos == 6 {
        snr := b * 0x100;
      } else if pos == 7 {
        snr := (snr + b) % 0x1_0000;
      } else if pos == 8 {
        kind := b;
      } else if pos >= len + 2 {
        error := 0xff - checksum != b;
        available, len, pos, checksum := true, (len - 7) % 0x1_0000, 0, 0;
        return true;
      } else {
        checksum := (checksum + b) % 0x100;
        if pos - 9 < payload.Length {
          payload[pos - 9] := b;
        }
      }
      pos := (pos + 1) % 0x1_0000;
    }
  }
}
