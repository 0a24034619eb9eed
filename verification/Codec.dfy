/**
 Bytes on the wire: integers in network byte order (Appendix B of RFC 791), the 16-byte
 expiry message, and streams of mixed fields.
 */
module Codec {
  import opened Common

  type byte = x: int | 0 <= x < 256

  // ---------- Integers ----------

  function BE32(v: nat): (b: seq<byte>)
    ensures |b| == 4
  {
    [v / 0x100_0000 % 256, v / 0x1_0000 % 256, v / 0x100 % 256, v % 256]
  }

  function Value32(b: seq<byte>): (v: nat)
    requires |b| >= 4
    ensures v < TWO_32
  {
    b[0] as nat * 0x100_0000 + b[1] as nat * 0x1_0000 + b[2] as nat * 0x100 + b[3] as nat
  }

  // The most significant half first.
  function BE64(v: nat): (b: seq<byte>)
    ensures |b| == 8
  {
    BE32(v / TWO_32 % TWO_32) + BE32(v % TWO_32)
  }

  function Value64(b: seq<byte>): (v: nat)
    requires |b| >= 8
  {
    Value32(b) * TWO_32 + Value32(b[4..])
  }

  /** The 32-bit two's complement reading of an unsigned number, and back. */
  function ToSigned(v: nat): int {
    if v < TWO_32 / 2 then v else v - TWO_32
  }

  function FromSigned(v: int): nat {
    v % TWO_32
  }

  lemma RoundTrip32(v: nat, rest: seq<byte>)
    requires v < TWO_32
    ensures Value32(BE32(v) + rest) == v
  {
    var b := BE32(v) + rest;
    assert b[0] == v / 0x100_0000 % 256 && b[1] == v / 0x1_0000 % 256 && b[2] == v / 0x100 % 256 && b[3] == v % 256;
    assert v / 0x1_0000 == v / 0x100_0000 * 256 + v / 0x1_0000 % 256;
    assert v / 0x100 == v / 0x1_0000 * 256 + v / 0x100 % 256;
  }

  lemma RoundTrip64(v: nat, rest: seq<byte>)
    requires v < TWO_64
    ensures Value64(BE64(v) + rest) == v
  {
    var hi, lo := v / TWO_32 % TWO_32, v % TWO_32;
    assert BE64(v) + rest == BE32(hi) + (BE32(lo) + rest);
    assert (BE64(v) + rest)[4..] == BE32(lo) + rest;
    RoundTrip32(hi, BE32(lo) + rest);
    RoundTrip32(lo, rest);
  }

  lemma SignedRoundTrip(v: int)
    requires -(TWO_32 / 2) <= v < TWO_32 / 2
    ensures FromSigned(v) < TWO_32 && ToSigned(FromSigned(v)) == v
  {
    if v < 0 {
      assert v % TWO_32 == v + TWO_32;
    }
  }

  // ---------- Three-byte integers ----------

  function Split24(v: nat): (b: seq<byte>)
    ensures |b| == 3
  {
    [v / 0x1_0000 % 256, v / 0x100 % 256, v % 256]
  }

  function Unsplit24(b: seq<byte>): nat
    requires |b| == 3
  {
    b[0] as nat * 0x1_0000 + b[1] as nat * 0x100 + b[2] as nat
  }

  lemma Digits24(a: nat, b: nat, c: nat)
    requires b < 256 && c < 256
    ensures (a * 0x1_0000 + b * 0x100 + c) / 0x1_0000 == a
    ensures (a * 0x1_0000 + b * 0x100 + c) / 0x100 == a * 0x100 + b
    ensures (a * 0x1_0000 + b * 0x100 + c) % 0x100 == c
  {
  }

  lemma LowByte(h: nat, x: nat)
    requires x < 256
    ensures (h * 256 + x) % 256 == x && (h * 256 + x) / 256 == h
  {
  }

  lemma LowDigits(h: nat, low: nat)
    requires low < 0x100_0000
    ensures (h * 0x100_0000 + low) % 0x100_0000 == low
  {
  }

  // Splitting keeps the low 24 bits and nothing else.
  lemma UnsplitSplit24(v: nat)
    ensures Unsplit24(Split24(v)) == v % 0x100_0000
  {
    var z, v1 := v % 256, v / 256;
    var y, v2 := v1 % 256, v1 / 256;
    var x, h := v2 % 256, v2 / 256;
    assert v1 == v2 * 256 + y && v2 == h * 256 + x;
    Digits24(v2, y, z);
    LowByte(h, x);
    LowByte(v2, y);
    assert v == v2 * 0x1_0000 + y * 0x100 + z;
    LowDigits(h, x * 0x1_0000 + y * 0x100 + z);
  }

  // Unsplitting loses nothing.
  lemma SplitUnsplit24(b: seq<byte>)
    requires |b| == 3
    ensures Split24(Unsplit24(b)) == b
  {
    Digits24(b[0] as nat, b[1] as nat, b[2] as nat);
  }

  // ---------- Network byte order ----------

  /** The number whose digits in base 256 are b, the most significant first. */
  function ValueOf(b: seq<byte>): nat {
    if b == [] then 0 else ValueOf(b[..|b| - 1]) * 256 + b[|b| - 1] as nat
  }

  lemma ValueOfSnoc(b: seq<byte>, d: byte)
    ensures ValueOf(b + [d]) == ValueOf(b) * 256 + d as nat
  {
    assert (b + [d])[..|b|] == b;
  }

  lemma ValueOfOnto(a: seq<byte>, b: seq<byte>)
    requires |b| == 4
    ensures ValueOf(a + b) == ValueOf(a) * TWO_32 + Value32(b)
  {
    ValueOfSnoc(a, b[0]);
    ValueOfSnoc(a + [b[0]], b[1]);
    ValueOfSnoc(a + [b[0]] + [b[1]], b[2]);
    ValueOfSnoc(a + [b[0]] + [b[1]] + [b[2]], b[3]);
    assert a + b == a + [b[0]] + [b[1]] + [b[2]] + [b[3]];
  }

  // Integers go out in network byte order.
  lemma NetworkOrder(v: nat)
    requires v < TWO_32
    ensures ValueOf(BE32(v)) == v
  {
    ValueOfOnto([], BE32(v));
    RoundTrip32(v, []);
    assert [] + BE32(v) == BE32(v) == BE32(v) + [];
  }

  lemma NetworkOrder64(v: nat)
    requires v < TWO_64
    ensures ValueOf(BE64(v)) == v
  {
    var hi, lo := v / TWO_32 % TWO_32, v % TWO_32;
    ValueOfOnto(BE32(hi), BE32(lo));
    NetworkOrder(hi);
    RoundTrip32(lo, []);
    assert BE32(lo) + [] == BE32(lo);
  }

  lemma NetworkOrder24(v: nat)
    ensures ValueOf(Split24(v)) == v % 0x100_0000
  {
    var b := Split24(v);
    UnsplitSplit24(v);
    ValueOfSnoc([], b[0]);
    ValueOfSnoc([] + [b[0]], b[1]);
    ValueOfSnoc([] + [b[0]] + [b[1]], b[2]);
    assert b == [] + [b[0]] + [b[1]] + [b[2]];
  }

  // An expiry message names the sender, the event and the index, in this order.
  lemma MessageLayout(from: nat, event: nat, shmIndex: nat)
    requires from < TWO_32 && event < TWO_32 && shmIndex < TWO_64
    ensures var b := EncodeMessage(from, event, shmIndex);
            ValueOf(b[..4]) == from && ValueOf(b[4..8]) == event && ValueOf(b[8..]) == shmIndex
  {
    var b := EncodeMessage(from, event, shmIndex);
    assert b[..4] == BE32(from) && b[4..8] == BE32(event) && b[8..] == BE64(shmIndex);
    NetworkOrder(from);
    NetworkOrder(event);
    NetworkOrder64(shmIndex);
  }

  // ---------- Buffers ----------

  method SerializeUINT32ToCharBuf(value: nat, buf: array<byte>, at: nat)
    requires value < TWO_32 && at + 4 <= buf.Length
    modifies buf
    ensures buf[..] == old(buf[..at]) + BE32(value) + old(buf[at + 4..])
  {
    buf[at] := value / 0x100_0000 % 256;
    buf[at + 1] := value / 0x1_0000 % 256;
    buf[at + 2] := value / 0x100 % 256;
    buf[at + 3] := value % 256;
  }

  method DeserializeUINT32FromCharBuf(buf: array<byte>, at: nat) returns (value: nat)
    requires at + 4 <= buf.Length
    ensures value == Value32(buf[at..])
  {
    value := buf[at] as nat * 0x100_0000 + buf[at + 1] as nat * 0x1_0000
             + buf[at + 2] as nat * 0x100 + buf[at + 3] as nat;
  }

  method SerializeUINT64ToCharBuf(value: nat, buf: array<byte>, at: nat)
    requires value < TWO_64 && at + 8 <= buf.Length
    modifies buf
    ensures buf[..] == old(buf[..at]) + BE64(value) + old(buf[at + 8..])
  {
    SerializeUINT32ToCharBuf(value / TWO_32 % TWO_32, buf, at);
    SerializeUINT32ToCharBuf(value % TWO_32, buf, at + 4);
  }

  method DeserializeUINT64FromCharBuf(buf: array<byte>, at: nat) returns (value: nat)
    requires at + 8 <= buf.Length
    ensures value == Value64(buf[at..])
  {
    var msb := DeserializeUINT32FromCharBuf(buf, at);
    var lsb := DeserializeUINT32FromCharBuf(buf, at + 4);
    assert buf[at + 4..] == buf[at..][4..];
    value := msb * TWO_32 + lsb;
  }

  // ---------- The expiry message ----------

  const MESSAGE_SIZE := 16

  function EncodeMessage(from: nat, event: nat, shmIndex: nat): (b: seq<byte>)
    ensures |b| == MESSAGE_SIZE
  {
    BE32(from) + BE32(event) + BE64(shmIndex)
  }

  function MessageFrom(b: seq<byte>): nat
    requires |b| == MESSAGE_SIZE
  {
    Value32(b)
  }

  function MessageIndex(b: seq<byte>): nat
    requires |b| == MESSAGE_SIZE
  {
    Value64(b[8..])
  }

  lemma MessageRoundTrip(from: nat, event: nat, shmIndex: nat)
    requires from < TWO_32 && event < TWO_32 && shmIndex < TWO_64
    ensures MessageFrom(EncodeMessage(from, event, shmIndex)) == from
    ensures MessageIndex(EncodeMessage(from, event, shmIndex)) == shmIndex
  {
    var b := EncodeMessage(from, event, shmIndex);
    assert b == BE32(from) + (BE32(event) + BE64(shmIndex));
    assert b[8..] == BE64(shmIndex) + [];
    RoundTrip32(from, BE32(event) + BE64(shmIndex));
    RoundTrip64(shmIndex, []);
  }

  class PosixMessageQueueObject {
    var from: nat
    var event: nat
    var shmIndex: nat

    constructor (from: nat, event: nat, shmIndex: nat)
      ensures this.from == from && this.event == event && this.shmIndex == shmIndex
    {
      this.from := from;
      this.event := event;
      this.shmIndex := shmIndex;
    }

    method SerializeToCharBuf(buf: array<byte>)
      requires from < TWO_32 && event < TWO_32 && shmIndex < TWO_64 && buf.Length == MESSAGE_SIZE
      modifies buf
      ensures buf[..] == EncodeMessage(from, event, shmIndex)
    {
      SerializeUINT32ToCharBuf(from, buf, 0);
      assert buf[..4] == BE32(from);
      SerializeUINT32ToCharBuf(event, buf, 4);
      assert buf[..8] == BE32(from) + BE32(event);
      SerializeUINT64ToCharBuf(shmIndex, buf, 8);
    }

    /** The event is read but not restored. */
    method DeserializeFromCharBuf(buf: array<byte>)
      requires buf.Length == MESSAGE_SIZE
      modifies this
      ensures from == MessageFrom(buf[..]) && shmIndex == MessageIndex(buf[..])
      ensures event == old(event)
    {
      var id := DeserializeUINT32FromCharBuf(buf, 0);
      var ignoredEvent := DeserializeUINT32FromCharBuf(buf, 4);
      var index := DeserializeUINT64FromCharBuf(buf, 8);
      assert buf[..] == buf[0..] && buf[..][8..] == buf[8..];
      from := id;
      shmIndex := index;
    }
  }
}
