/**
 * The ordered byte channel used by the sync protocol (Netty's PacketBuffer as the
 * entity uses it): signed byte, big-endian 16- and 32-bit integers and
 * length-prefixed strings.  The string layout is this model's own: a 16-bit
 * character count followed by three bytes (the code point) per character.
 */
module Packets {
  import opened Wrappers

  type Byte = b: int | 0 <= b < 0x100
  type Int32 = x: int | -0x8000_0000 <= x < 0x8000_0000

  /** The bound PacketBuffer.readString(32767) is called with. */
  const MaxStringLength: nat := 32767

  function Signed8(u: Byte): (r: int)
    ensures -0x80 <= r < 0x80 && (r == u || r == u - 0x100)
  {
    if u < 0x80 then u else u - 0x100
  }

  function Signed16(u: int): (r: int)
    requires 0 <= u < 0x1_0000
    ensures -0x8000 <= r < 0x8000 && (r == u || r == u - 0x1_0000)
  {
    if u < 0x8000 then u else u - 0x1_0000
  }

  function Signed32(u: int): (r: Int32)
    requires 0 <= u < 0x1_0000_0000
    ensures r == u || r == u - 0x1_0000_0000
  {
    if u < 0x8000_0000 then u else u - 0x1_0000_0000
  }

  // ----- writers: the bytes each primitive appends -----

  /** writeByte keeps the low eight bits of its argument. */
  function EncodeByte(v: int): (r: seq<Byte>)
    ensures |r| == 1 && r[0] == v % 0x100
  {
    [v % 0x100]
  }

  /** writeShort keeps the low sixteen bits, high byte first. */
  function EncodeShort(v: int): (r: seq<Byte>)
    ensures |r| == 2 && (r[0] as int) * 0x100 + r[1] == v % 0x1_0000
  {
    var u := v % 0x1_0000;
    [u / 0x100, u % 0x100]
  }

  /** writeInt: four bytes, most significant first. */
  function EncodeInt(v: Int32): (r: seq<Byte>)
    ensures |r| == 4
  {
    var u := v % 0x1_0000_0000;
    EncodeShort(u / 0x1_0000) + EncodeShort(u % 0x1_0000)
  }

  /** One character as the three bytes of its code point. */
  function EncodeChar(c: char): (r: seq<Byte>)
    ensures |r| == 3
  {
    var n := c as int;
    [n / 0x1_0000, (n / 0x100) % 0x100, n % 0x100]
  }

  function EncodeChars(s: string): (r: seq<Byte>)
    ensures |r| == 3 * |s|
  {
    if s == [] then [] else EncodeChar(s[0]) + EncodeChars(s[1..])
  }

  /** writeString: character count, then the characters. */
  function EncodeString(s: string): (r: seq<Byte>)
    requires |s| <= MaxStringLength
    ensures |r| == 2 + 3 * |s|
  {
    EncodeShort(|s|) + EncodeChars(s)
  }

  // ----- readers: the value found at a position, and the position after it -----

  function DecodeByte(bs: seq<Byte>, pos: nat): (r: Option<Decoded<int>>)
    ensures r.Some? <==> pos < |bs|
    ensures r.Some? ==> -0x80 <= r.value.value < 0x80 && r.value.next == pos + 1
  {
    if pos < |bs| then Some(Decoded(Signed8(bs[pos]), pos + 1)) else None
  }

  function DecodeUnsignedShort(bs: seq<Byte>, pos: nat): (r: Option<Decoded<int>>)
    ensures r.Some? <==> pos + 2 <= |bs|
    ensures r.Some? ==> 0 <= r.value.value < 0x1_0000 && r.value.next == pos + 2
  {
    if pos + 2 <= |bs| then Some(Decoded((bs[pos] as int) * 0x100 + bs[pos + 1], pos + 2)) else None
  }

  function DecodeShort(bs: seq<Byte>, pos: nat): (r: Option<Decoded<int>>)
    ensures r.Some? <==> pos + 2 <= |bs|
    ensures r.Some? ==> -0x8000 <= r.value.value < 0x8000 && r.value.next == pos + 2
  {
    match DecodeUnsignedShort(bs, pos)
    case None => None
    case Some(d) => Some(Decoded(Signed16(d.value), d.next))
  }

  function DecodeInt(bs: seq<Byte>, pos: nat): (r: Option<Decoded<Int32>>)
    ensures r.Some? <==> pos + 4 <= |bs|
    ensures r.Some? ==> r.value.next == pos + 4
  {
    if pos + 4 <= |bs| then
      var hi := DecodeUnsignedShort(bs, pos).value.value;
      var lo := DecodeUnsignedShort(bs, pos + 2).value.value;
      Some(Decoded(Signed32(hi * 0x1_0000 + lo), pos + 4))
    else None
  }

  predicate IsScalarValue(n: int) {
    (0 <= n < 0xD800) || (0xE000 <= n < 0x11_0000)
  }

  function DecodeChar(bs: seq<Byte>, pos: nat): (r: Option<Decoded<char>>)
    ensures r.Some? ==> r.value.next == pos + 3 <= |bs|
  {
    if pos + 3 <= |bs| then
      var n := (bs[pos] as int) * 0x1_0000 + (bs[pos + 1] as int) * 0x100 + bs[pos + 2];
      if IsScalarValue(n) then Some(Decoded(n as char, pos + 3)) else None
    else None
  }

  function DecodeChars(bs: seq<Byte>, pos: nat, count: nat): (r: Option<Decoded<string>>)
    ensures r.Some? ==> |r.value.value| == count && r.value.next == pos + 3 * count
    ensures r.Some? && count > 0 ==> r.value.next <= |bs|
    decreases count
  {
    if count == 0 then Some(Decoded([], pos))
    else
      match DecodeChar(bs, pos)
      case None => None
      case Some(c) =>
        match DecodeChars(bs, c.next, count - 1)
        case None => None
        case Some(rest) => Some(Decoded([c.value] + rest.value, rest.next))
  }

  /** readString(maxLength): a negative or too large count is a decoding error. */
  function DecodeString(bs: seq<Byte>, pos: nat, maxLength: nat): (r: Option<Decoded<string>>)
    ensures r.Some? ==> |r.value.value| <= maxLength && r.value.next == pos + 2 + 3 * |r.value.value| <= |bs|
  {
    match DecodeShort(bs, pos)
    case None => None
    case Some(n) =>
      if n.value < 0 || n.value > maxLength then None
      else DecodeChars(bs, n.next, n.value)
  }

  // ----- round trips: each reader recovers what the matching writer wrote -----

  /** The bytes of `bs` from `pos` on start with `w`. */
  predicate WrittenAt(bs: seq<Byte>, pos: nat, w: seq<Byte>) {
    pos + |w| <= |bs| && bs[pos..pos + |w|] == w
  }

  lemma WrittenAtSplit(bs: seq<Byte>, pos: nat, a: seq<Byte>, b: seq<Byte>)
    requires WrittenAt(bs, pos, a + b)
    ensures WrittenAt(bs, pos, a) && WrittenAt(bs, pos + |a|, b)
  {
    assert bs[pos..pos + |a|] == (a + b)[..|a|];
    assert bs[pos + |a|..pos + |a| + |b|] == (a + b)[|a|..];
  }

  lemma ByteRoundTrip(v: int, bs: seq<Byte>, pos: nat)
    requires -0x80 <= v < 0x80 && WrittenAt(bs, pos, EncodeByte(v))
    ensures DecodeByte(bs, pos) == Some(Decoded(v, pos + 1))
  {
    assert bs[pos] == EncodeByte(v)[0];
  }

  lemma UnsignedShortRoundTrip(v: int, bs: seq<Byte>, pos: nat)
    requires WrittenAt(bs, pos, EncodeShort(v))
    ensures DecodeUnsignedShort(bs, pos) == Some(Decoded(v % 0x1_0000, pos + 2))
  {
    assert bs[pos] == EncodeShort(v)[0] && bs[pos + 1] == EncodeShort(v)[1];
  }

  lemma ShortRoundTrip(v: int, bs: seq<Byte>, pos: nat)
    requires -0x8000 <= v < 0x8000 && WrittenAt(bs, pos, EncodeShort(v))
    ensures DecodeShort(bs, pos) == Some(Decoded(v, pos + 2))
  {
    UnsignedShortRoundTrip(v, bs, pos);
  }

  lemma IntRoundTrip(v: Int32, bs: seq<Byte>, pos: nat)
    requires WrittenAt(bs, pos, EncodeInt(v))
    ensures DecodeInt(bs, pos) == Some(Decoded(v, pos + 4))
  {
    var u := v % 0x1_0000_0000;
    WrittenAtSplit(bs, pos, EncodeShort(u / 0x1_0000), EncodeShort(u % 0x1_0000));
    UnsignedShortRoundTrip(u / 0x1_0000, bs, pos);
    UnsignedShortRoundTrip(u % 0x1_0000, bs, pos + 2);
    assert (u / 0x1_0000) % 0x1_0000 == u / 0x1_0000;
    assert (u % 0x1_0000) % 0x1_0000 == u % 0x1_0000;
    assert (u / 0x1_0000) * 0x1_0000 + u % 0x1_0000 == u;
  }

  lemma CharRoundTrip(c: char, bs: seq<Byte>, pos: nat)
    requires WrittenAt(bs, pos, EncodeChar(c))
    ensures DecodeChar(bs, pos) == Some(Decoded(c, pos + 3))
  {
    var n := c as int;
    var w := EncodeChar(c);
    assert bs[pos] == w[0] && bs[pos + 1] == w[1] && bs[pos + 2] == w[2];
    assert (n / 0x1_0000) * 0x1_0000 + ((n / 0x100) % 0x100) * 0x100 + n % 0x100 == n;
  }

  lemma DecodeCharsStep(bs: seq<Byte>, pos: nat, count: nat, c: char, rest: Decoded<string>)
    requires count > 0 && DecodeChar(bs, pos) == Some(Decoded(c, pos + 3))
    requires DecodeChars(bs, pos + 3, count - 1) == Some(rest)
    ensures DecodeChars(bs, pos, count) == Some(Decoded([c] + rest.value, rest.next))
  {
  }

  lemma {:induction false} CharsRoundTrip(s: string, bs: seq<Byte>, pos: nat)
    requires WrittenAt(bs, pos, EncodeChars(s))
    ensures DecodeChars(bs, pos, |s|) == Some(Decoded(s, pos + 3 * |s|))
    decreases |s|
  {
    if s != [] {
      WrittenAtSplit(bs, pos, EncodeChar(s[0]), EncodeChars(s[1..]));
      CharRoundTrip(s[0], bs, pos);
      CharsRoundTrip(s[1..], bs, pos + 3);
      DecodeCharsStep(bs, pos, |s|, s[0], Decoded(s[1..], pos + 3 + 3 * |s[1..]|));
      assert [s[0]] + s[1..] == s;
    }
  }

  lemma StringRoundTrip(s: string, bs: seq<Byte>, pos: nat)
    requires |s| <= MaxStringLength && WrittenAt(bs, pos, EncodeString(s))
    ensures DecodeString(bs, pos, MaxStringLength) == Some(Decoded(s, pos + 2 + 3 * |s|))
  {
    WrittenAtSplit(bs, pos, EncodeShort(|s|), EncodeChars(s));
    ShortRoundTrip(|s|, bs, pos);
    CharsRoundTrip(s, bs, pos + 2);
  }

  /** The value a read produced, if any. */
  function ValueOf<T>(d: Option<Decoded<T>>): Option<T> {
    match d
    case None => None
    case Some(x) => Some(x.value)
  }

  /** Where the reader index stands after a read: a failed read consumes nothing. */
  function NextIndex<T>(d: Option<Decoded<T>>, pos: nat): nat {
    match d
    case None => pos
    case Some(x) => x.next
  }

  /** A read that produced a value was a decoding that succeeded, ending where the index now stands. */
  lemma ReadSucceeded<T>(d: Option<Decoded<T>>, pos: nat)
    requires ValueOf(d).Some?
    ensures d == Some(Decoded(ValueOf(d).value, NextIndex(d, pos)))
  {
  }

  /**
   * A packet buffer: the bytes written so far and the reader index.  Writers
   * append; readers advance the index past what they decode.
   */
  class PacketBuffer {
    var data: seq<Byte>
    var readIndex: nat

    ghost predicate Valid()
      reads this
    {
      readIndex <= |data|
    }

    constructor (initial: seq<Byte>)
      ensures Valid() && data == initial && readIndex == 0
    {
      data := initial;
      readIndex := 0;
    }

    method WriteByte(v: int)
      modifies this`data
      ensures data == old(data) + EncodeByte(v)
    {
      data := data + EncodeByte(v);
    }

    method WriteShort(v: int)
      modifies this`data
      ensures data == old(data) + EncodeShort(v)
    {
      data := data + EncodeShort(v);
    }

    method WriteInt(v: Int32)
      modifies this`data
      ensures data == old(data) + EncodeInt(v)
    {
      data := data + EncodeInt(v);
    }

    method WriteString(s: string)
      requires |s| <= MaxStringLength
      modifies this`data
      ensures data == old(data) + EncodeString(s)
    {
      data := data + EncodeString(s);
    }

    method ReadByte() returns (r: Option<int>)
      requires Valid()
      modifies this`readIndex
      ensures Valid()
      ensures r == ValueOf(DecodeByte(data, old(readIndex)))
      ensures readIndex == NextIndex(DecodeByte(data, old(readIndex)), old(readIndex))
    {
      var d := DecodeByte(data, readIndex);
      r := ValueOf(d);
      readIndex := NextIndex(d, readIndex);
    }

    method ReadShort() returns (r: Option<int>)
      requires Valid()
      modifies this`readIndex
      ensures Valid()
      ensures r == ValueOf(DecodeShort(data, old(readIndex)))
      ensures readIndex == NextIndex(DecodeShort(data, old(readIndex)), old(readIndex))
    {
      var d := DecodeShort(data, readIndex);
      r := ValueOf(d);
      readIndex := NextIndex(d, readIndex);
    }

    method ReadInt() returns (r: Option<Int32>)
      requires Valid()
      modifies this`readIndex
      ensures Valid()
      ensures r == ValueOf(DecodeInt(data, old(readIndex)))
      ensures readIndex == NextIndex(DecodeInt(data, old(readIndex)), old(readIndex))
    {
      var d := DecodeInt(data, readIndex);
      r := ValueOf(d);
      readIndex := NextIndex(d, readIndex);
    }

    method ReadString(maxLength: nat) returns (r: Option<string>)
      requires Valid()
      modifies this`readIndex
      ensures Valid()
      ensures r == ValueOf(DecodeString(data, old(readIndex), maxLength))
      ensures readIndex == NextIndex(DecodeString(data, old(readIndex), maxLength), old(readIndex))
    {
      var d := DecodeString(data, readIndex, maxLength);
      r := ValueOf(d);
      readIndex := NextIndex(d, readIndex);
    }

    /** Everything not yet read; afterwards the buffer is exhausted. */
    method ReadRemaining() returns (r: seq<Byte>)
      requires Valid()
      modifies this`readIndex
      ensures Valid()
      ensures r == data[old(readIndex)..] && readIndex == |data|
    {
      r := data[readIndex..];
      readIndex := |data|;
    }
  }
}
