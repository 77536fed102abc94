/** UTF-8 encoding of Dafny strings (sequences of Unicode scalar values).
    The analyzers bound their input by `len(text.encode('utf-8'))`; this module
    gives that length (`ByteLength`) together with the encoder it measures and a
    decoder that inverts it, so that the length is known to be the length of a
    genuine UTF-8 encoding. */
module Utf8 {

  import opened Wrappers

  newtype byte = x: int | 0 <= x < 256

  /** Number of bytes UTF-8 uses for one scalar value. */
  function Width(c: char): (n: nat)
    ensures 1 <= n <= 4
    ensures n == 1 <==> c as int < 0x80
    ensures n == 4 <==> c as int >= 0x10000
  {
    var cp := c as int;
    if cp < 0x80 then 1
    else if cp < 0x800 then 2
    else if cp < 0x10000 then 3
    else 4
  }

  /** `len(s.encode('utf-8'))`. */
  function ByteLength(s: string): (n: nat)
  {
    if s == [] then 0 else Width(s[0]) + ByteLength(s[1..])
  }

  function EncodeChar(c: char): (bs: seq<byte>)
    ensures |bs| == Width(c)
  {
    var cp := c as int;
    if cp < 0x80 then
      [cp as byte]
    else if cp < 0x800 then
      [(0xC0 + cp / 64) as byte, (0x80 + cp % 64) as byte]
    else if cp < 0x10000 then
      [(0xE0 + cp / 4096) as byte, (0x80 + (cp / 64) % 64) as byte, (0x80 + cp % 64) as byte]
    else
      [(0xF0 + cp / 262144) as byte, (0x80 + (cp / 4096) % 64) as byte,
       (0x80 + (cp / 64) % 64) as byte, (0x80 + cp % 64) as byte]
  }

  /** `s.encode('utf-8')`. */
  function Encode(s: string): (bs: seq<byte>)
    ensures |bs| == ByteLength(s)
  {
    if s == [] then [] else EncodeChar(s[0]) + Encode(s[1..])
  }

  /** Sequence length announced by a leading byte, 0 when it cannot lead. */
  function LeadWidth(b: byte): nat
  {
    if b < 0x80 then 1
    else if 0xC0 <= b < 0xE0 then 2
    else if 0xE0 <= b < 0xF0 then 3
    else if 0xF0 <= b < 0xF8 then 4
    else 0
  }

  predicate IsContinuation(b: byte)
  {
    0x80 <= b < 0xC0
  }

  /** The code point carried by a well-formed sequence of 1 to 4 bytes. */
  function CodePoint(bs: seq<byte>): int
    requires 1 <= |bs| <= 4
  {
    var b0 := bs[0] as int;
    if |bs| == 1 then b0
    else if |bs| == 2 then (b0 - 0xC0) * 64 + (bs[1] as int - 0x80)
    else if |bs| == 3 then (b0 - 0xE0) * 4096 + (bs[1] as int - 0x80) * 64 + (bs[2] as int - 0x80)
    else (b0 - 0xF0) * 262144 + (bs[1] as int - 0x80) * 4096 + (bs[2] as int - 0x80) * 64 + (bs[3] as int - 0x80)
  }

  /** A scalar value in the shortest form for its width (no overlong forms, no surrogates). */
  predicate ScalarOfWidth(cp: int, n: nat)
  {
    match n
    case 1 => 0 <= cp < 0x80
    case 2 => 0x80 <= cp < 0x800
    case 3 => 0x800 <= cp < 0x10000 && !(0xD800 <= cp < 0xE000)
    case 4 => 0x10000 <= cp < 0x110000
    case _ => false
  }

  /** Strict UTF-8 decoding; None on any malformed input. */
  function Decode(bs: seq<byte>): Option<string>
    decreases |bs|
  {
    if bs == [] then Some([])
    else
      var n := LeadWidth(bs[0]);
      if n == 0 || |bs| < n then None
      else if !(forall k :: 1 <= k < n ==> IsContinuation(bs[k])) then None
      else
        var cp := CodePoint(bs[..n]);
        if !ScalarOfWidth(cp, n) then None
        else
          match Decode(bs[n..])
          case None => None
          case Some(rest) => Some([cp as char] + rest)
  }

  lemma EncodeCharWellFormed(c: char)
    ensures var bs := EncodeChar(c);
      && LeadWidth(bs[0]) == |bs|
      && (forall k :: 1 <= k < |bs| ==> IsContinuation(bs[k]))
      && CodePoint(bs) == c as int
      && ScalarOfWidth(c as int, |bs|)
  {
    var cp := c as int;
    var bs := EncodeChar(c);
    if cp >= 0x10000 {
      var q1, r1 := cp / 64, cp % 64;
      var q2, r2 := q1 / 64, q1 % 64;
      var q3, r3 := q2 / 64, q2 % 64;
      assert cp / 4096 == q2;
      assert cp / 262144 == q3;
      assert cp == q3 * 262144 + r3 * 4096 + r2 * 64 + r1;
    } else if cp >= 0x800 {
      var q1, r1 := cp / 64, cp % 64;
      var q2, r2 := q1 / 64, q1 % 64;
      assert cp / 4096 == q2;
      assert cp == q2 * 4096 + r2 * 64 + r1;
    }
  }

  /** Decoding undoes encoding: the encoder produces genuine, strict UTF-8. */
  lemma {:induction false} DecodeEncode(s: string)
    ensures Decode(Encode(s)) == Some(s)
  {
    if s != [] {
      var head := EncodeChar(s[0]);
      var tail := Encode(s[1..]);
      var bs := head + tail;
      assert Encode(s) == bs;
      EncodeCharWellFormed(s[0]);
      var n := |head|;
      assert bs[0] == head[0];
      assert bs[..n] == head;
      assert bs[n..] == tail;
      assert forall k :: 1 <= k < n ==> bs[k] == head[k];
      DecodeEncode(s[1..]);
      assert (CodePoint(head) as char) == s[0];
      assert [s[0]] + s[1..] == s;
    }
  }

  /** Each scalar value takes between one and four bytes. */
  lemma {:induction false} ByteLengthBounds(s: string)
    ensures |s| <= ByteLength(s) <= 4 * |s|
    ensures ByteLength(s) == |s| <==> forall i :: 0 <= i < |s| ==> s[i] as int < 0x80
  {
    if s != [] {
      ByteLengthBounds(s[1..]);
      assert forall i :: 1 <= i < |s| ==> s[i] == s[1..][i - 1];
    }
  }
}
