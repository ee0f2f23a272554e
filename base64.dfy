/**
 * Base64 as tweetnacl-util implements it: `encodeBase64` writes the standard alphabet with
 * `=` padding; `decodeBase64` first checks the text against the strict pattern
 * `(XXXX)*(XX==|XXX=)?` over `[A-Za-z0-9+/]` and throws `invalid encoding` otherwise.
 */
module Base64 {
  import opened Wrappers
  import opened Bytes

  predicate IsBase64Char(c: char)
  {
    'A' <= c <= 'Z' || 'a' <= c <= 'z' || '0' <= c <= '9' || c == '+' || c == '/'
  }

  /** The character for a six-bit value. */
  function SextetChar(i: nat): (c: char)
    requires i < 64
    ensures IsBase64Char(c)
  {
    if i < 26 then ('A' as int + i) as char
    else if i < 52 then ('a' as int + i - 26) as char
    else if i < 62 then ('0' as int + i - 52) as char
    else if i == 62 then '+'
    else '/'
  }

  /** The six-bit value of an alphabet character: the inverse of SextetChar. */
  function Sextet(c: char): (i: nat)
    requires IsBase64Char(c)
    ensures i < 64 && SextetChar(i) == c
  {
    if 'A' <= c <= 'Z' then c as int - 'A' as int
    else if 'a' <= c <= 'z' then c as int - 'a' as int + 26
    else if '0' <= c <= '9' then c as int - '0' as int + 52
    else if c == '+' then 62
    else 63
  }

  lemma SextetOfChar(i: nat)
    requires i < 64
    ensures Sextet(SextetChar(i)) == i
  {
  }

  /** The last group for one remaining byte: two characters and `==`. */
  function EncodeOne(b0: byte): (q: string)
    ensures |q| == 4
  {
    [SextetChar(b0 / 4), SextetChar((b0 % 4) * 16), '=', '=']
  }

  /** The last group for two remaining bytes: three characters and `=`. */
  function EncodeTwo(b0: byte, b1: byte): (q: string)
    ensures |q| == 4
  {
    [SextetChar(b0 / 4), SextetChar((b0 % 4) * 16 + b1 / 16), SextetChar((b1 % 16) * 4), '=']
  }

  /** The four characters of three bytes. */
  function EncodeThree(b0: byte, b1: byte, b2: byte): (q: string)
    ensures |q| == 4
  {
    [SextetChar(b0 / 4), SextetChar((b0 % 4) * 16 + b1 / 16), SextetChar((b1 % 16) * 4 + b2 / 64), SextetChar(b2 % 64)]
  }

  /** `encodeBase64(b)`: four characters per started group of three bytes. */
  function Encode(b: Bytes): (s: string)
    ensures |s| == 4 * ((|b| + 2) / 3)
    decreases |b|
  {
    if |b| == 0 then ""
    else if |b| == 1 then EncodeOne(b[0])
    else if |b| == 2 then EncodeTwo(b[0], b[1])
    else EncodeThree(b[0], b[1], b[2]) + Encode(b[3..])
  }

  /** Base64 text is made of alphabet characters and `=` only. */
  lemma {:induction false} EncodeAlphabet(b: Bytes)
    ensures forall i :: 0 <= i < |Encode(b)| ==> IsBase64Char(Encode(b)[i]) || Encode(b)[i] == '='
    decreases |b|
  {
    if |b| >= 3 {
      EncodeAlphabet(b[3..]);
      var s := Encode(b);
      assert s[4..] == Encode(b[3..]);
      forall i | 4 <= i < |s|
        ensures IsBase64Char(s[i]) || s[i] == '='
      {
        assert s[i] == Encode(b[3..])[i - 4];
      }
    }
  }

  predicate IsFullQuad(q: string)
    requires |q| >= 4
  {
    IsBase64Char(q[0]) && IsBase64Char(q[1]) && IsBase64Char(q[2]) && IsBase64Char(q[3])
  }

  /** The three bytes four alphabet characters stand for. */
  function QuadBytes(q: string): (r: Bytes)
    requires |q| >= 4 && IsFullQuad(q)
    ensures |r| == 3
  {
    var s0, s1, s2, s3 := Sextet(q[0]), Sextet(q[1]), Sextet(q[2]), Sextet(q[3]);
    [s0 * 4 + s1 / 16, (s1 % 16) * 16 + s2 / 4, (s2 % 4) * 64 + s3]
  }

  /** The last group of four characters, which may end in `==` or `=`. */
  function DecodeLastQuad(q: string): (r: Option<Bytes>)
    requires |q| == 4
  {
    if IsFullQuad(q) then Some(QuadBytes(q))
    else if IsBase64Char(q[0]) && IsBase64Char(q[1]) && q[2] == '=' && q[3] == '=' then
      Some([Sextet(q[0]) * 4 + Sextet(q[1]) / 16])
    else if IsBase64Char(q[0]) && IsBase64Char(q[1]) && IsBase64Char(q[2]) && q[3] == '=' then
      var s1, s2 := Sextet(q[1]), Sextet(q[2]);
      Some([Sextet(q[0]) * 4 + s1 / 16, (s1 % 16) * 16 + s2 / 4])
    else None
  }

  /**
   * The strict pattern apart from the length: alphabet characters, except that the last one
   * or two may be `=`, and a `=` second to last is followed by another.
   */
  predicate StrictText(s: string)
  {
    && (forall i :: 0 <= i < |s| ==> IsBase64Char(s[i]) || (i >= |s| - 2 && s[i] == '='))
    && (|s| >= 2 && s[|s| - 2] == '=' ==> s[|s| - 1] == '=')
  }

  /** The last group is accepted iff it is strict. */
  lemma LastQuadStrict(q: string)
    requires |q| == 4
    ensures DecodeLastQuad(q).Some? <==> StrictText(q)
  {
  }

  /** Past a leading group of four alphabet characters, the rest of the text is strict iff the whole is. */
  lemma StrictTail(s: string)
    requires |s| > 4 && IsFullQuad(s)
    ensures StrictText(s) <==> StrictText(s[4..])
  {
    var t := s[4..];
    if StrictText(t) {
      forall i | 0 <= i < |s|
        ensures IsBase64Char(s[i]) || (i >= |s| - 2 && s[i] == '=')
      {
        if i >= 4 {
          assert s[i] == t[i - 4];
        }
      }
      if |t| >= 2 {
        assert s[|s| - 2] == t[|t| - 2] && s[|s| - 1] == t[|t| - 1];
      }
    }
    if StrictText(s) {
      forall i | 0 <= i < |t|
        ensures IsBase64Char(t[i]) || (i >= |t| - 2 && t[i] == '=')
      {
        assert t[i] == s[i + 4];
      }
      if |t| >= 2 {
        assert s[|s| - 2] == t[|t| - 2] && s[|s| - 1] == t[|t| - 1];
      }
    }
  }

  /**
   * `decodeBase64(s)`: `None` where tweetnacl-util throws. Text that is accepted always has
   * a length that is a multiple of four; `DecodeStrict` gives the whole pattern.
   */
  function Decode(s: string): (r: Option<Bytes>)
    ensures r.Some? ==> |s| % 4 == 0
    decreases |s|
  {
    if s == [] then Some([])
    else if |s| < 4 then None
    else if |s| == 4 then DecodeLastQuad(s)
    else if !IsFullQuad(s) then None
    else match Decode(s[4..])
      case None => None
      case Some(rest) => Some(QuadBytes(s) + rest)
  }

  /** Text is accepted iff it matches the strict pattern: a length that is a multiple of four, and `StrictText`. */
  lemma {:induction false} DecodeStrict(s: string)
    ensures Decode(s).Some? <==> |s| % 4 == 0 && StrictText(s)
    decreases |s|
  {
    if |s| == 4 {
      LastQuadStrict(s);
    } else if |s| > 4 {
      if !IsFullQuad(s) {
        assert !IsBase64Char(s[0]) || !IsBase64Char(s[1]) || !IsBase64Char(s[2]) || !IsBase64Char(s[3]);
      } else {
        StrictTail(s);
        DecodeStrict(s[4..]);
      }
    }
  }

  lemma FullGroup(b0: byte, b1: byte, b2: byte)
    ensures var s0, s1, s2, s3 := b0 / 4, (b0 % 4) * 16 + b1 / 16, (b1 % 16) * 4 + b2 / 64, b2 % 64;
      s0 < 64 && s1 < 64 && s2 < 64 && s3 < 64 &&
      s0 * 4 + s1 / 16 == b0 && (s1 % 16) * 16 + s2 / 4 == b1 && (s2 % 4) * 64 + s3 == b2
  {
  }

  /** The group of one byte decodes back to it. */
  lemma DecodeOne(b0: byte)
    ensures DecodeLastQuad(EncodeOne(b0)) == Some([b0])
  {
    var q := EncodeOne(b0);
    var s0, s1 := b0 / 4, (b0 % 4) * 16;
    FullGroup(b0, 0, 0);
    SextetOfChar(s0);
    SextetOfChar(s1);
    assert Sextet(q[0]) == s0 && Sextet(q[1]) == s1;
    assert !IsFullQuad(q);
  }

  /** The group of two bytes decodes back to them. */
  lemma DecodeTwo(b0: byte, b1: byte)
    ensures DecodeLastQuad(EncodeTwo(b0, b1)) == Some([b0, b1])
  {
    var q := EncodeTwo(b0, b1);
    var s0, s1, s2 := b0 / 4, (b0 % 4) * 16 + b1 / 16, (b1 % 16) * 4;
    FullGroup(b0, b1, 0);
    SextetOfChar(s0);
    SextetOfChar(s1);
    SextetOfChar(s2);
    assert Sextet(q[0]) == s0 && Sextet(q[1]) == s1 && Sextet(q[2]) == s2;
    assert !IsFullQuad(q) && q[2] != '=';
  }

  /** The group of three bytes is a full group that decodes back to them. */
  lemma DecodeThree(b0: byte, b1: byte, b2: byte)
    ensures var q := EncodeThree(b0, b1, b2); IsFullQuad(q) && QuadBytes(q) == [b0, b1, b2]
  {
    var q := EncodeThree(b0, b1, b2);
    var s0, s1, s2, s3 := b0 / 4, (b0 % 4) * 16 + b1 / 16, (b1 % 16) * 4 + b2 / 64, b2 % 64;
    FullGroup(b0, b1, b2);
    SextetOfChar(s0);
    SextetOfChar(s1);
    SextetOfChar(s2);
    SextetOfChar(s3);
    assert Sextet(q[0]) == s0 && Sextet(q[1]) == s1 && Sextet(q[2]) == s2 && Sextet(q[3]) == s3;
  }

  /** A full group in front of more text decodes to its three bytes in front of what the rest decodes to. */
  lemma DecodeFullThen(q: string, t: string)
    requires |q| == 4 && IsFullQuad(q) && t != []
    ensures Decode(q + t) == if Decode(t).Some? then Some(QuadBytes(q) + Decode(t).value) else None
  {
    var s := q + t;
    assert s[..4] == q && s[4..] == t;
  }

  /** Text of one group is decoded as a last group. */
  lemma DecodeSingleGroup(q: string)
    requires |q| == 4
    ensures Decode(q) == DecodeLastQuad(q)
  {
  }

  /** One byte makes one group padded with `==`, which decodes back to it. */
  lemma DecodeEncodeOneByte(b: Bytes)
    requires |b| == 1
    ensures Decode(Encode(b)) == Some(b)
  {
    var q := EncodeOne(b[0]);
    assert Encode(b) == q;
    DecodeSingleGroup(q);
    DecodeOne(b[0]);
    assert [b[0]] == b;
  }

  /** Two bytes make one group padded with `=`, which decodes back to them. */
  lemma DecodeEncodeTwoBytes(b: Bytes)
    requires |b| == 2
    ensures Decode(Encode(b)) == Some(b)
  {
    var q := EncodeTwo(b[0], b[1]);
    assert Encode(b) == q;
    DecodeSingleGroup(q);
    DecodeTwo(b[0], b[1]);
    assert [b[0], b[1]] == b;
  }

  /** Decoding the Base64 text of `b` gives back `b`. */
  lemma {:induction false} DecodeEncode(b: Bytes)
    ensures Decode(Encode(b)) == Some(b)
    decreases |b|
  {
    if |b| == 1 {
      DecodeEncodeOneByte(b);
    } else if |b| == 2 {
      DecodeEncodeTwoBytes(b);
    } else if |b| >= 3 {
      var q, rest := EncodeThree(b[0], b[1], b[2]), b[3..];
      DecodeThree(b[0], b[1], b[2]);
      assert [b[0], b[1], b[2]] + rest == b;
      if rest == [] {
        assert Encode(b) == q && Decode(q) == Some([b[0], b[1], b[2]]);
        assert [b[0], b[1], b[2]] == b;
      } else {
        assert Encode(b) == q + Encode(rest);
        DecodeEncode(rest);
        DecodeFullThen(q, Encode(rest));
      }
    }
  }
}
