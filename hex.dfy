/** `Buffer.prototype.toString('hex')`: two lower-case hexadecimal digits per byte. */
module Hex {
  import opened Wrappers
  import opened Bytes

  predicate IsLowerHexDigit(c: char)
  {
    '0' <= c <= '9' || 'a' <= c <= 'f'
  }

  function HexChar(d: nat): (c: char)
    requires d < 16
    ensures IsLowerHexDigit(c)
  {
    if d < 10 then ('0' as int + d) as char else ('a' as int + d - 10) as char
  }

  function HexValue(c: char): (d: nat)
    requires IsLowerHexDigit(c)
    ensures d < 16
  {
    if c <= '9' then c as int - '0' as int else c as int - 'a' as int + 10
  }

  /** The hex text of `b`: twice as long as `b`, made only of `[0-9a-f]`. */
  function Encode(b: Bytes): (s: string)
    ensures |s| == 2 * |b|
    ensures forall i :: 0 <= i < |s| ==> IsLowerHexDigit(s[i])
  {
    if b == [] then "" else [HexChar(b[0] / 16), HexChar(b[0] % 16)] + Encode(b[1..])
  }

  /** Reads lower-case hex text back into bytes; `None` for odd length or a non-hex character. */
  function Decode(s: string): (r: Option<Bytes>)
    decreases |s|
  {
    if s == [] then Some([])
    else if |s| < 2 || !IsLowerHexDigit(s[0]) || !IsLowerHexDigit(s[1]) then None
    else match Decode(s[2..])
      case None => None
      case Some(rest) => Some([HexValue(s[0]) * 16 + HexValue(s[1])] + rest)
  }

  /** Decoding the hex text of `b` gives back `b`. */
  lemma {:induction false} DecodeEncode(b: Bytes)
    ensures Decode(Encode(b)) == Some(b)
  {
    if b != [] {
      DecodeEncode(b[1..]);
      var s := Encode(b);
      assert s[2..] == Encode(b[1..]);
      assert s[0] == HexChar(b[0] / 16) && s[1] == HexChar(b[0] % 16);
      assert HexValue(s[0]) * 16 + HexValue(s[1]) == b[0];
      assert [b[0]] + b[1..] == b;
    }
  }

  /** Different byte strings have different hex texts. */
  lemma EncodeInjective(a: Bytes, b: Bytes)
    requires Encode(a) == Encode(b)
    ensures a == b
  {
    DecodeEncode(a);
    DecodeEncode(b);
  }
}
