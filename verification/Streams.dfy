/** Fields of mixed types written to a stream back to back and read back in turn. */
module Streams {
  import opened Common
  import opened Codec

  /** A value as the serializers take it: strings by their characters, three-byte integers
      as arrays. */
  datatype Field =
    | UINT8(u8: byte)
    | ThreeByte(b: seq<byte>)
    | UINT32(u32: nat)
    | SINT32(s32: int)
    | UINT64(u64: nat)
    | SINT64(s64: int)
    | Text(s: seq<byte>)
    | Padding(len: nat)

  /** What a reader knows beforehand: the type, and for a string its length. */
  datatype Shape = U8 | U24 | U32 | S32 | U64 | S64 | TextOf(len: nat) | PaddingOf(len: nat)

  predicate FieldOk(f: Field) {
    match f
    case UINT8(_) => true
    case ThreeByte(b) => |b| == 3
    case UINT32(v) => v < TWO_32
    case SINT32(v) => -(TWO_32 / 2) <= v < TWO_32 / 2
    case UINT64(v) => v < TWO_64
    case SINT64(v) => -(TWO_64 / 2) <= v < TWO_64 / 2
    case Text(_) => true
    case Padding(_) => true
  }

  function ShapeOf(f: Field): Shape {
    match f
    case UINT8(_) => U8
    case ThreeByte(_) => U24
    case UINT32(_) => U32
    case SINT32(_) => S32
    case UINT64(_) => U64
    case SINT64(_) => S64
    case Text(s) => TextOf(|s|)
    case Padding(len) => PaddingOf(len)
  }

  function Size(sh: Shape): nat {
    match sh
    case U8 => 1
    case U24 => 3
    case U32 => 4
    case S32 => 4
    case U64 => 8
    case S64 => 8
    case TextOf(len) => len
    case PaddingOf(len) => len
  }

  /** The characters before the first NUL. */
  function UpToNul(s: seq<byte>): (t: seq<byte>)
    ensures |t| <= |s| && t == s[..|t|] && 0 !in t
    ensures |t| < |s| ==> s[|t|] == 0
  {
    if s == [] || s[0] == 0 then [] else [s[0]] + UpToNul(s[1..])
  }

  /** A string is copied up to its first NUL into a fresh buffer, and as many bytes as the
      string has characters are written; junk is what the buffer held before. */
  function WrittenText(s: seq<byte>, junk: seq<byte>): (b: seq<byte>)
    requires |junk| > |s|
    ensures |b| == |s|
  {
    var t := UpToNul(s);
    if t == s then s else t + [0] + junk[|t| + 1..|s|]
  }

  function Encode(f: Field, junk: seq<byte>): (b: seq<byte>)
    requires FieldOk(f) && (f.Text? ==> |junk| > |f.s|)
    ensures |b| == Size(ShapeOf(f))
  {
    match f
    case UINT8(v) => [v]
    case ThreeByte(b) => [b[2], b[1], b[0]]
    case UINT32(v) => BE32(v)
    case SINT32(v) => BE32(FromSigned(v))
    case UINT64(v) => BE64(v)
    case SINT64(v) => BE32(FromSigned(v / TWO_32)) + BE32(v % TWO_32)
    case Text(s) => WrittenText(s, junk)
    case Padding(len) => seq(len, _ => 0)
  }

  function Decode(sh: Shape, b: seq<byte>): Field
    requires |b| >= Size(sh)
  {
    match sh
    case U8 => UINT8(b[0])
    case U24 => ThreeByte([b[2], b[1], b[0]])
    case U32 => UINT32(Value32(b))
    case S32 => SINT32(ToSigned(Value32(b)))
    case U64 => UINT64(Value64(b))
    case S64 => SINT64(ToSigned(Value32(b)) * TWO_32 + Value32(b[4..]))
    case TextOf(len) => Text(UpToNul(b[..len]))
    case PaddingOf(len) => Padding(len)
  }

  // Where the first NUL is, or the end, there the text ends.
  lemma TextEnds(s: seq<byte>, i: nat)
    requires i <= |s| && (forall k | 0 <= k < i :: s[k] != 0) && (i == |s| || s[i] == 0)
    ensures UpToNul(s) == s[..i]
  {
    var t := UpToNul(s);
    assert |t| == i by {
      assert forall k | 0 <= k < |t| :: t[k] in t && s[k] == t[k];
    }
  }

  // A string is read back exactly when it holds no NUL, whatever was in the buffer.
  lemma TextRoundTrip(s: seq<byte>, junk: seq<byte>)
    requires |junk| > |s|
    ensures UpToNul(WrittenText(s, junk)) == s <==> 0 !in s
  {
    var t, b := UpToNul(s), WrittenText(s, junk);
    forall k | 0 <= k < |t| ensures b[k] != 0 {
      assert b[k] == t[k] && t[k] in t;
    }
    TextEnds(b, |t|);
    assert b[..|t|] == t;
    if t != s {
      assert s[|t|] == 0;
    }
  }

  lemma SignedRoundTrip64(v: int, rest: seq<byte>)
    requires -(TWO_64 / 2) <= v < TWO_64 / 2
    ensures Decode(S64, BE32(FromSigned(v / TWO_32)) + BE32(v % TWO_32) + rest) == SINT64(v)
  {
    var hi, lo := v / TWO_32, v % TWO_32;
    var b := BE32(FromSigned(hi)) + BE32(lo) + rest;
    assert v == hi * TWO_32 + lo;
    assert b == BE32(FromSigned(hi)) + (BE32(lo) + rest);
    assert b[4..] == BE32(lo) + rest;
    SignedRoundTrip(hi);
    RoundTrip32(FromSigned(hi), BE32(lo) + rest);
    RoundTrip32(lo, rest);
  }

  // One field is read back exactly when it is not a string with a NUL.
  lemma FieldRoundTrip(f: Field, junk: seq<byte>, rest: seq<byte>)
    requires FieldOk(f) && (f.Text? ==> |junk| > |f.s|)
    ensures Decode(ShapeOf(f), Encode(f, junk) + rest) == f <==> !(f.Text? && 0 in f.s)
  {
    var b := Encode(f, junk) + rest;
    match f
    case UINT8(_) =>
    case ThreeByte(t) =>
      assert [t[0], t[1], t[2]] == t;
    case UINT32(v) => RoundTrip32(v, rest);
    case SINT32(v) =>
      SignedRoundTrip(v);
      RoundTrip32(FromSigned(v), rest);
    case UINT64(v) => RoundTrip64(v, rest);
    case SINT64(v) => SignedRoundTrip64(v, rest);
    case Text(s) =>
      assert b[..|s|] == WrittenText(s, junk);
      TextRoundTrip(s, junk);
    case Padding(_) =>
  }

  /** The bytes b of a field: integers in network byte order, negative ones in two's
      complement; the three bytes of an array in reverse; a string as it is, up to its first
      NUL and with it; padding as zeros. */
  ghost predicate LaidOut(f: Field, b: seq<byte>) {
    match f
    case UINT8(v) => b == [v]
    case ThreeByte(t) => |t| == 3 && b == [t[2], t[1], t[0]]
    case UINT32(v) => |b| == 4 && ValueOf(b) == v
    case SINT32(v) => |b| == 4 && ValueOf(b) == if v < 0 then v + TWO_32 else v
    case UINT64(v) => |b| == 8 && ValueOf(b) == v
    case SINT64(v) => |b| == 8 && ValueOf(b) == if v < 0 then v + TWO_64 else v
    case Text(s) => |b| == |s| && forall k | 0 <= k < |s| && 0 !in s[..k] :: b[k] == s[k]
    case Padding(len) => |b| == len && forall k | 0 <= k < len :: b[k] == 0
  }

  lemma FieldLayout(f: Field, junk: seq<byte>)
    requires FieldOk(f) && (f.Text? ==> |junk| > |f.s|)
    ensures LaidOut(f, Encode(f, junk))
  {
    match f
    case UINT32(v) => NetworkOrder(v);
    case SINT32(v) => NetworkOrder(FromSigned(v));
    case UINT64(v) => NetworkOrder64(v);
    case SINT64(v) => SignedLayout(v);
    case Text(s) => TextLayout(s, junk);
    case _ =>
  }

  lemma SignedLayout(v: int)
    requires -(TWO_64 / 2) <= v < TWO_64 / 2
    ensures ValueOf(BE32(FromSigned(v / TWO_32)) + BE32(v % TWO_32)) == if v < 0 then v + TWO_64 else v
  {
    var u: nat := if v < 0 then v + TWO_64 else v;
    SignedHalves(v, u);
    NetworkOrder64(u);
  }

  lemma SignedHalves(v: int, u: nat)
    requires -(TWO_64 / 2) <= v < TWO_64 / 2 && u == if v < 0 then v + TWO_64 else v
    ensures u / TWO_32 % TWO_32 == FromSigned(v / TWO_32) && u % TWO_32 == v % TWO_32
  {
    var hi, lo := v / TWO_32, v % TWO_32;
    assert v == hi * TWO_32 + lo;
    assert u == (if v < 0 then hi + TWO_32 else hi) * TWO_32 + lo;
  }

  lemma TextLayout(s: seq<byte>, junk: seq<byte>)
    requires |junk| > |s|
    ensures forall k | 0 <= k < |s| && 0 !in s[..k] :: WrittenText(s, junk)[k] == s[k]
  {
    var t := UpToNul(s);
    if |t| < |s| {
      assert s[|t|] in s;
      forall k | |t| < k < |s| ensures 0 in s[..k] {
        assert s[..k][|t|] == 0;
      }
    }
  }

  // ---------- Streams ----------

  class OutputStream {
    var bytes: seq<byte>
  }

  class InputStream {
    const bytes: seq<byte>
    var at: nat
  }

  method SerializeUINT8(value: byte, os: OutputStream)
    modifies os
    ensures os.bytes == old(os.bytes) + Encode(UINT8(value), [])
  {
    os.bytes := os.bytes + [value];
  }

  method Serialize3ByteUnsignedChar(threeByteInteger: array<byte>, os: OutputStream)
    requires threeByteInteger.Length == 3
    modifies os
    ensures os.bytes == old(os.bytes) + Encode(ThreeByte(threeByteInteger[..]), [])
  {
    var buffer := new byte[3];
    buffer[0] := threeByteInteger[2];
    buffer[1] := threeByteInteger[1];
    buffer[2] := threeByteInteger[0];
    os.bytes := os.bytes + buffer[..];
  }

  method SerializeUINT32(value: nat, os: OutputStream)
    requires value < TWO_32
    modifies os
    ensures os.bytes == old(os.bytes) + Encode(UINT32(value), [])
  {
    var buffer := new byte[4];
    SerializeUINT32ToCharBuf(value, buffer, 0);
    assert buffer[..] == BE32(value);
    os.bytes := os.bytes + buffer[..];
  }

  method SerializeSINT32(value: int, os: OutputStream)
    requires -(TWO_32 / 2) <= value < TWO_32 / 2
    modifies os
    ensures os.bytes == old(os.bytes) + Encode(SINT32(value), [])
  {
    SerializeUINT32(FromSigned(value), os);
  }

  method SerializeUINT64(value: nat, os: OutputStream)
    requires value < TWO_64
    modifies os
    ensures os.bytes == old(os.bytes) + Encode(UINT64(value), [])
  {
    SerializeUINT32(value / TWO_32 % TWO_32, os);
    SerializeUINT32(value % TWO_32, os);
    assert os.bytes == old(os.bytes) + (BE32(value / TWO_32 % TWO_32) + BE32(value % TWO_32));
  }

  method SerializeSINT64(value: int, os: OutputStream)
    requires -(TWO_64 / 2) <= value < TWO_64 / 2
    modifies os
    ensures os.bytes == old(os.bytes) + Encode(SINT64(value), [])
  {
    SerializeSINT32(value / TWO_32, os);
    SerializeUINT32(value % TWO_32, os);
    assert os.bytes == old(os.bytes) + (BE32(FromSigned(value / TWO_32)) + BE32(value % TWO_32));
  }

  /** strcpy: the characters before the first NUL, and a NUL. */
  method CopyText(value: seq<byte>, buffer: array<byte>) returns (length: nat)
    requires buffer.Length > |value|
    modifies buffer
    ensures length == |UpToNul(value)|
    ensures buffer[..] == UpToNul(value) + [0] + old(buffer[..])[length + 1..]
  {
    length := 0;
    while length < |value| && value[length] != 0
      invariant length <= |value|
      invariant forall k | 0 <= k < length :: buffer[k] == value[k] != 0
      invariant forall k | length <= k < buffer.Length :: buffer[k] == old(buffer[k])
    {
      buffer[length] := value[length];
      length := length + 1;
    }
    buffer[length] := 0;
    TextEnds(value, length);
  }

  /** junk is what the fresh buffer held. */
  method SerializeString(value: seq<byte>, os: OutputStream) returns (ghost junk: seq<byte>)
    modifies os
    ensures |junk| == |value| + 1 && os.bytes == old(os.bytes) + WrittenText(value, junk)
  {
    var buffer := new byte[|value| + 1];
    junk := buffer[..];
    var length := CopyText(value, buffer);
    var written := buffer[..|value|];
    BufferWritten(value, junk, length, buffer[..]);
    os.bytes := os.bytes + written;
  }

  /** memset and write. */
  method SerializePadding(padLen: nat, os: OutputStream)
    modifies os
    ensures os.bytes == old(os.bytes) + Encode(Padding(padLen), [])
  {
    var buffer := new byte[padLen](_ => 0);
    assert buffer[..] == Encode(Padding(padLen), []);
    os.bytes := os.bytes + buffer[..];
  }

  /** The next n bytes of the stream, in a buffer of their own. */
  method Read(ins: InputStream, n: nat) returns (buffer: array<byte>)
    requires ins.at + n <= |ins.bytes|
    modifies ins
    ensures fresh(buffer) && buffer.Length == n
    ensures buffer[..] == old(ins.bytes[ins.at..])[..n] && ins.at == old(ins.at) + n
  {
    buffer := new byte[n](i requires 0 <= i < n && ins.at + n <= |ins.bytes| reads ins => ins.bytes[ins.at + i]);
    ins.at := ins.at + n;
  }

  method DeserializePadding(padLen: nat, ins: InputStream)
    requires ins.at + padLen <= |ins.bytes|
    modifies ins
    ensures ins.at == old(ins.at) + padLen
  {
    var buffer := Read(ins, padLen);
  }

  method DeserializeUINT8(ins: InputStream) returns (value: byte)
    requires ins.at + 1 <= |ins.bytes|
    modifies ins
    ensures UINT8(value) == Decode(U8, old(ins.bytes[ins.at..])) && ins.at == old(ins.at) + 1
  {
    var buffer := Read(ins, 1);
    value := buffer[0];
    assert buffer[..][0] == value;
  }

  method DeserializeTo3ByteUnsignedChar(threeByteInteger: array<byte>, ins: InputStream)
    requires threeByteInteger.Length == 3 && ins.at + 3 <= |ins.bytes|
    modifies ins, threeByteInteger
    ensures ThreeByte(threeByteInteger[..]) == Decode(U24, old(ins.bytes[ins.at..])) && ins.at == old(ins.at) + 3
  {
    ghost var b := ins.bytes[ins.at..];
    var buffer := Read(ins, 3);
    threeByteInteger[2] := buffer[0];
    threeByteInteger[1] := buffer[1];
    threeByteInteger[0] := buffer[2];
    assert buffer[..][0] == b[0] && buffer[..][1] == b[1] && buffer[..][2] == b[2];
    assert threeByteInteger[..] == [b[2], b[1], b[0]];
  }

  method DeserializeUINT32(ins: InputStream) returns (value: nat)
    requires ins.at + 4 <= |ins.bytes|
    modifies ins
    ensures UINT32(value) == Decode(U32, old(ins.bytes[ins.at..])) && ins.at == old(ins.at) + 4
    ensures value < TWO_32
  {
    var buffer := Read(ins, 4);
    value := DeserializeUINT32FromCharBuf(buffer, 0);
    assert buffer[0..] == buffer[..];
  }

  method DeserializeSINT32(ins: InputStream) returns (value: int)
    requires ins.at + 4 <= |ins.bytes|
    modifies ins
    ensures SINT32(value) == Decode(S32, old(ins.bytes[ins.at..])) && ins.at == old(ins.at) + 4
  {
    var v := DeserializeUINT32(ins);
    value := ToSigned(v);
  }

  method DeserializeUINT64(ins: InputStream) returns (value: nat)
    requires ins.at + 8 <= |ins.bytes|
    modifies ins
    ensures UINT64(value) == Decode(U64, old(ins.bytes[ins.at..])) && ins.at == old(ins.at) + 8
  {
    ghost var b := ins.bytes[ins.at..];
    assert ins.bytes[ins.at + 4..] == b[4..];
    var msb := DeserializeUINT32(ins);
    var lsb := DeserializeUINT32(ins);
    value := msb * TWO_32 + lsb;
  }

  method DeserializeSINT64(ins: InputStream) returns (value: int)
    requires ins.at + 8 <= |ins.bytes|
    modifies ins
    ensures SINT64(value) == Decode(S64, old(ins.bytes[ins.at..])) && ins.at == old(ins.at) + 8
  {
    ghost var b := ins.bytes[ins.at..];
    assert ins.bytes[ins.at + 4..] == b[4..];
    var msb := DeserializeSINT32(ins);
    var lsb := DeserializeUINT32(ins);
    value := msb * TWO_32 + lsb;
  }

  method DeserializeString(ins: InputStream, datalen: nat) returns (value: seq<byte>)
    requires ins.at + datalen <= |ins.bytes|
    modifies ins
    ensures Text(value) == Decode(TextOf(datalen), old(ins.bytes[ins.at..])) && ins.at == old(ins.at) + datalen
  {
    var read := ins.bytes[ins.at..][..datalen];
    ins.at := ins.at + datalen;
    var i := 0;
    while i < datalen && read[i] != 0
      invariant i <= datalen && forall k | 0 <= k < i :: read[k] != 0
    {
      i := i + 1;
    }
    TextEnds(read, i);
    value := read[..i];
  }

  lemma BufferWritten(s: seq<byte>, junk: seq<byte>, i: nat, buffer: seq<byte>)
    requires |junk| == |s| + 1 && i <= |s| && UpToNul(s) == s[..i]
    requires buffer == s[..i] + [0] + junk[i + 1..]
    ensures buffer[..|s|] == WrittenText(s, junk)
  {
    if i == |s| {
      assert s[..i] == s;
      assert buffer[..|s|] == s;
    } else {
      assert UpToNul(s) != s;
      assert buffer[..|s|] == s[..i] + [0] + junk[i + 1..|s|];
    }
  }

  function SizeAll(shapes: seq<Shape>): nat {
    if shapes == [] then 0 else Size(shapes[0]) + SizeAll(shapes[1..])
  }

  /** Each string is written from a buffer of its own; junks says what the buffers held. */
  predicate AllOk(fs: seq<Field>, junks: seq<seq<byte>>) {
    && |junks| == |fs|
    && forall i | 0 <= i < |fs| :: FieldOk(fs[i]) && (fs[i].Text? ==> |junks[i]| > |fs[i].s|)
  }

  function EncodeAll(fs: seq<Field>, junks: seq<seq<byte>>): seq<byte>
    requires AllOk(fs, junks)
  {
    if fs == [] then [] else Encode(fs[0], junks[0]) + EncodeAll(fs[1..], junks[1..])
  }

  function ShapesOf(fs: seq<Field>): (sh: seq<Shape>)
    ensures |sh| == |fs|
  {
    if fs == [] then [] else [ShapeOf(fs[0])] + ShapesOf(fs[1..])
  }

  function DecodeAll(shapes: seq<Shape>, b: seq<byte>): (fs: seq<Field>)
    requires |b| >= SizeAll(shapes)
    ensures |fs| == |shapes|
  {
    if shapes == [] then []
    else [Decode(shapes[0], b)] + DecodeAll(shapes[1..], b[Size(shapes[0])..])
  }

  // Any list of fields, written back to back, is read back exactly, field by field, using
  // exactly the bytes that were written, if and only if no string in it holds a NUL.
  lemma {:induction false} StreamRoundTrip(fs: seq<Field>, junks: seq<seq<byte>>, rest: seq<byte>)
    requires AllOk(fs, junks)
    ensures |EncodeAll(fs, junks)| == SizeAll(ShapesOf(fs))
    ensures DecodeAll(ShapesOf(fs), EncodeAll(fs, junks) + rest) == fs <==>
            forall f | f in fs :: !(f.Text? && 0 in f.s)
    decreases fs
  {
    if fs != [] {
      var b, tail := Encode(fs[0], junks[0]), EncodeAll(fs[1..], junks[1..]);
      var shapes := ShapesOf(fs);
      StreamRoundTrip(fs[1..], junks[1..], rest);
      FieldRoundTrip(fs[0], junks[0], tail + rest);
      assert EncodeAll(fs, junks) + rest == b + (tail + rest);
      assert (b + (tail + rest))[Size(shapes[0])..] == tail + rest;
      assert shapes[1..] == ShapesOf(fs[1..]);
      SplitHead(DecodeAll(shapes, b + (tail + rest)), fs);
    }
  }

  lemma SplitHead(a: seq<Field>, b: seq<Field>)
    requires |a| == |b| > 0
    ensures a == b <==> a[0] == b[0] && a[1..] == b[1..]
  {
    assert a == [a[0]] + a[1..];
    assert b == [b[0]] + b[1..];
  }
}
