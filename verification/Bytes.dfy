/** Two-byte integers as both protocols write them, most significant byte first, cut to sixteen bits. */
module Bytes {
  import opened Wrappers

  function Int16(n: nat): (bs: seq<byte>)
    ensures |bs| == 2 && (n < 0x1_0000 ==> 0x100 * (bs[0] as int) + bs[1] == n)
  {
    [n / 0x100 % 0x100, n % 0x100]
  }

  function ReadInt16(bs: seq<byte>): nat
    requires |bs| >= 2
  {
    0x100 * (bs[0] as int) + bs[1]
  }

  function Bit(b: bool): (n: nat)
    ensures n <= 1
  {
    if b then 1 else 0
  }

  /** Copies bytes into a buffer from an index on. */
  method WriteBytes(buf: array<byte>, ptr: nat, bs: seq<byte>) returns (next: nat)
    requires ptr + |bs| <= buf.Length
    modifies buf
    ensures next == ptr + |bs| && buf[..next] == old(buf[..ptr]) + bs && buf[next..] == old(buf[next..])
  {
    next := ptr + |bs|;
    forall i | 0 <= i < |bs| {
      buf[ptr + i] := bs[i];
    }
    assert buf[..ptr] == old(buf[..ptr]) && buf[ptr..next] == bs;
    assert buf[..next] == buf[..ptr] + buf[ptr..next];
  }
}
