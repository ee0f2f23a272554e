/**
 * UTF-8, as tweetnacl-util's `decodeUTF8` (string to bytes) and `TextEncoder.encode`
 * produce it. A Dafny `char` is a Unicode scalar value, so every string is encodable.
 */
module Utf8 {
  import opened Wrappers
  import opened Bytes

  /** The one to four bytes of one code point. */
  function EncodeChar(c: char): (b: Bytes)
    ensures 1 <= |b| <= 4
  {
    var cp := c as int;
    if cp < 0x80 then [cp]
    else if cp < 0x800 then [0xC0 + cp / 64, 0x80 + cp % 64]
    else if cp < 0x10000 then [0xE0 + cp / 4096, 0x80 + (cp / 64) % 64, 0x80 + cp % 64]
    else [0xF0 + cp / 262144, 0x80 + (cp / 4096) % 64, 0x80 + (cp / 64) % 64, 0x80 + cp % 64]
  }

  /** The UTF-8 bytes of a string. */
  function Encode(s: string): Bytes
  {
    if s == [] then [] else EncodeChar(s[0]) + Encode(s[1..])
  }

  predicate IsScalarValue(cp: int)
  {
    0 <= cp < 0xD800 || 0xE000 <= cp < 0x110000
  }

  predicate IsContinuation(x: byte)
  {
    0x80 <= x < 0xC0
  }

  /** The number of bytes the sequence starting with `lead` occupies; 0 for a byte that cannot lead. */
  function SequenceLength(lead: byte): nat
  {
    if lead < 0x80 then 1
    else if 0xC0 <= lead < 0xE0 then 2
    else if 0xE0 <= lead < 0xF0 then 3
    else if 0xF0 <= lead < 0xF8 then 4
    else 0
  }

  /** The code point at the start of `b`, or `None` for a malformed sequence. */
  function DecodeCharAt(b: Bytes): (r: Option<char>)
    requires |b| >= 1 && 1 <= SequenceLength(b[0]) <= |b|
  {
    var n := SequenceLength(b[0]);
    if (n >= 2 && !IsContinuation(b[1])) || (n >= 3 && !IsContinuation(b[2]))
       || (n >= 4 && !IsContinuation(b[3])) then None
    else
      var cp :=
        if n == 1 then b[0] as int
        else if n == 2 then (b[0] as int - 0xC0) * 64 + (b[1] as int - 0x80)
        else if n == 3 then (b[0] as int - 0xE0) * 4096 + (b[1] as int - 0x80) * 64 + (b[2] as int - 0x80)
        else (b[0] as int - 0xF0) * 262144 + (b[1] as int - 0x80) * 4096 + (b[2] as int - 0x80) * 64 + (b[3] as int - 0x80);
      if IsScalarValue(cp) then Some(cp as char) else None
  }

  /** Reads UTF-8 bytes back into a string; `None` for malformed input. */
  function Decode(b: Bytes): (r: Option<string>)
    decreases |b|
  {
    if b == [] then Some([])
    else
      var n := SequenceLength(b[0]);
      if n == 0 || n > |b| then None
      else match DecodeCharAt(b[..n])
        case None => None
        case Some(c) =>
          match Decode(b[n..])
          case None => None
          case Some(rest) => Some([c] + rest)
  }

  lemma Digits64(x: nat)
    ensures (x / 64) / 64 == x / 4096 && ((x / 64) / 64) / 64 == x / 262144
    ensures (x / 4096) * 4096 + ((x / 64) % 64) * 64 + x % 64 == x
    ensures (x / 262144) * 262144 + ((x / 4096) % 64) * 4096 + ((x / 64) % 64) * 64 + x % 64 == x
  {
  }

  lemma DecodeEncodeChar(c: char)
    ensures var b := EncodeChar(c);
      SequenceLength(b[0]) == |b| && DecodeCharAt(b) == Some(c)
  {
    var cp := c as int;
    var b := EncodeChar(c);
    Digits64(cp);
    if cp < 0x80 {
    } else if cp < 0x800 {
      assert b == [0xC0 + cp / 64, 0x80 + cp % 64];
      assert (b[0] as int - 0xC0) * 64 + (b[1] as int - 0x80) == cp;
    } else if cp < 0x10000 {
      assert b == [0xE0 + cp / 4096, 0x80 + (cp / 64) % 64, 0x80 + cp % 64];
      assert (b[0] as int - 0xE0) * 4096 + (b[1] as int - 0x80) * 64 + (b[2] as int - 0x80) == cp;
    } else {
      assert b == [0xF0 + cp / 262144, 0x80 + (cp / 4096) % 64, 0x80 + (cp / 64) % 64, 0x80 + cp % 64];
      assert (b[0] as int - 0xF0) * 262144 + (b[1] as int - 0x80) * 4096 + (b[2] as int - 0x80) * 64 + (b[3] as int - 0x80) == cp;
    }
  }

  /** Decoding the UTF-8 bytes of `s` gives back `s`. */
  lemma {:induction false} DecodeEncode(s: string)
    ensures Decode(Encode(s)) == Some(s)
  {
    if s != [] {
      var b := Encode(s);
      var head := EncodeChar(s[0]);
      DecodeEncodeChar(s[0]);
      DecodeEncode(s[1..]);
      assert b[..|head|] == head && b[|head|..] == Encode(s[1..]);
      assert [s[0]] + s[1..] == s;
    }
  }

  /** Different strings have different UTF-8 bytes. */
  lemma EncodeInjective(s: string, t: string)
    requires Encode(s) == Encode(t)
    ensures s == t
  {
    DecodeEncode(s);
    DecodeEncode(t);
  }
}
