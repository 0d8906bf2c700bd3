/**
 * The standard base64 encoding of section 4 of RFC 4648 (alphabet
 * A-Z a-z 0-9 + /, padded with '='), as used by mail.go through
 * base64.StdEncoding.EncodeToString for the Subject encoded word and for
 * the message body, together with a decoder that inverts it.
 */
module Base64 {
  import opened Wrappers

  type byte = x: int | 0 <= x < 256

  /** A 6-bit group: the index of one character of the alphabet. */
  type sextet = x: int | 0 <= x < 64

  const Pad: char := '='

  /**
   * The character that encodes the value v, following table 1 of RFC 4648:
   * 0-25 are 'A'-'Z', 26-51 are 'a'-'z', 52-61 are '0'-'9', 62 is '+' and
   * 63 is '/'. SymVal proves that Val inverts it.
   */
  function Sym(v: sextet): char
  {
    if v < 26 then ('A' as int + v) as char
    else if v < 52 then ('a' as int + (v - 26)) as char
    else if v < 62 then ('0' as int + (v - 52)) as char
    else if v == 62 then '+'
    else '/'
  }

  /** The value a character of the alphabet encodes; None for any other character. */
  function Val(c: char): (r: Option<sextet>)
  {
    if 'A' <= c <= 'Z' then Some(c as int - 'A' as int)
    else if 'a' <= c <= 'z' then Some(c as int - 'a' as int + 26)
    else if '0' <= c <= '9' then Some(c as int - '0' as int + 52)
    else if c == '+' then Some(62)
    else if c == '/' then Some(63)
    else None
  }

  /** Val inverts Sym: the character of each sextet is decoded back to that sextet. */
  lemma SymVal(v: sextet)
    ensures Val(Sym(v)) == Some(v)
  {
  }

  /** A character of the alphabet. */
  predicate IsAlphabetChar(c: char)
  {
    Val(c).Some?
  }

  /** A character that can occur in encoded output. */
  predicate IsEncodedChar(c: char)
  {
    IsAlphabetChar(c) || c == Pad
  }

  /** Three bytes become four characters. */
  function EncodeGroup(b0: byte, b1: byte, b2: byte): (s: string)
    ensures |s| == 4
  {
    [Sym(b0 / 4), Sym((b0 % 4) * 16 + b1 / 16), Sym((b1 % 16) * 4 + b2 / 64), Sym(b2 % 64)]
  }

  /** A final single byte becomes two characters and two pad characters. */
  function EncodeOne(b0: byte): (s: string)
    ensures |s| == 4 && s[2] == Pad && s[3] == Pad
  {
    [Sym(b0 / 4), Sym((b0 % 4) * 16), Pad, Pad]
  }

  /** Two final bytes become three characters and one pad character. */
  function EncodeTwo(b0: byte, b1: byte): (s: string)
    ensures |s| == 4 && s[3] == Pad
  {
    [Sym(b0 / 4), Sym((b0 % 4) * 16 + b1 / 16), Sym((b1 % 16) * 4), Pad]
  }

  /** Padded standard encoding, three bytes to four characters (EncodeLength gives the length). */
  function Encode(b: seq<byte>): (s: string)
    ensures |b| > 0 ==> |s| >= 4
    decreases |b|
  {
    if |b| == 0 then ""
    else if |b| == 1 then EncodeOne(b[0])
    else if |b| == 2 then EncodeTwo(b[0], b[1])
    else EncodeGroup(b[0], b[1], b[2]) + Encode(b[3..])
  }

  /** Decodes one final quantum, which may carry one or two pad characters. */
  function DecodeLast(q: string): (r: Option<seq<byte>>)
    requires |q| == 4
    ensures r.Some? ==> 1 <= |r.value| <= 3
  {
    match (Val(q[0]), Val(q[1]))
    case (Some(v0), Some(v1)) =>
      if q[2] == Pad && q[3] == Pad then
        Some([v0 as int * 4 + v1 / 16])
      else if q[3] == Pad then
        (match Val(q[2])
         case Some(v2) => Some([v0 as int * 4 + v1 / 16, (v1 as int % 16) * 16 + v2 / 4])
         case None => None)
      else
        DecodeGroup(q)
    case _ => None
  }

  /** Decodes one unpadded quantum of four alphabet characters into three bytes. */
  function DecodeGroup(q: string): (r: Option<seq<byte>>)
    requires |q| == 4
    ensures r.Some? ==> |r.value| == 3
  {
    match (Val(q[0]), Val(q[1]), Val(q[2]), Val(q[3]))
    case (Some(v0), Some(v1), Some(v2), Some(v3)) =>
      Some([v0 as int * 4 + v1 / 16, (v1 as int % 16) * 16 + v2 / 4, (v2 as int % 4) * 64 + v3])
    case _ => None
  }

  /**
   * Decodes padded standard base64: the length must be a multiple of four
   * and only the last quantum may be padded.
   */
  function Decode(s: string): (r: Option<seq<byte>>)
    decreases |s|
  {
    if |s| == 0 then Some([])
    else if |s| < 4 then None
    else if |s| == 4 then DecodeLast(s)
    else
      match DecodeGroup(s[..4])
      case None => None
      case Some(g) =>
        match Decode(s[4..])
        case None => None
        case Some(rest) => Some(g + rest)
  }

  lemma GroupRoundTrip(b0: byte, b1: byte, b2: byte)
    ensures DecodeGroup(EncodeGroup(b0, b1, b2)) == Some([b0, b1, b2])
    ensures DecodeLast(EncodeGroup(b0, b1, b2)) == Some([b0, b1, b2])
  {
    GroupSextets(b0, b1, b2);
    DecodeThree(EncodeGroup(b0, b1, b2), b0, b1, b2);
  }

  /** A quantum without pads, holding the sextets of three bytes, decodes to those bytes. */
  lemma DecodeThree(q: string, b0: byte, b1: byte, b2: byte)
    requires |q| == 4 && q[2] != Pad && q[3] != Pad
    requires Val(q[0]) == Some(b0 / 4) && Val(q[1]) == Some((b0 % 4) * 16 + b1 / 16)
    requires Val(q[2]) == Some((b1 % 16) * 4 + b2 / 64) && Val(q[3]) == Some(b2 % 64)
    ensures DecodeGroup(q) == Some([b0, b1, b2]) && DecodeLast(q) == Some([b0, b1, b2])
  {
    GroupArithmetic(b0, b1, b2);
  }

  /** The characters of a group are the symbols of its four sextets, none of them a pad. */
  lemma GroupSextets(b0: byte, b1: byte, b2: byte)
    ensures var q := EncodeGroup(b0, b1, b2);
      && Val(q[0]) == Some(b0 / 4)
      && Val(q[1]) == Some((b0 % 4) * 16 + b1 / 16)
      && Val(q[2]) == Some((b1 % 16) * 4 + b2 / 64)
      && Val(q[3]) == Some(b2 % 64)
      && q[2] != Pad && q[3] != Pad
  {
    SymVal(b0 / 4);
    SymVal((b0 % 4) * 16 + b1 / 16);
    SymVal((b1 % 16) * 4 + b2 / 64);
    SymVal(b2 % 64);
  }

  /** The four sextets of a group put back together give the three bytes. */
  lemma GroupArithmetic(b0: byte, b1: byte, b2: byte)
    ensures var v1 := (b0 % 4) * 16 + b1 / 16;
      var v2 := (b1 % 16) * 4 + b2 / 64;
      && (b0 / 4) * 4 + v1 / 16 == b0
      && (v1 % 16) * 16 + v2 / 4 == b1
      && (v2 % 4) * 64 + b2 % 64 == b2
  {
    SplitAt16(b0 % 4, b1 / 16);
    SplitAt4(b1 % 16, b2 / 64);
  }

  /** A sextet made of two bits and four bits splits back into them. */
  lemma SplitAt16(hi: int, lo: int)
    requires 0 <= hi < 4 && 0 <= lo < 16
    ensures (hi * 16 + lo) / 16 == hi && (hi * 16 + lo) % 16 == lo
  {
  }

  /** A sextet made of four bits and two bits splits back into them. */
  lemma SplitAt4(hi: int, lo: int)
    requires 0 <= hi < 16 && 0 <= lo < 4
    ensures (hi * 4 + lo) / 4 == hi && (hi * 4 + lo) % 4 == lo
  {
  }

  /** The round trip for one byte: two characters and two pads. */
  lemma OneRoundTrip(b: seq<byte>)
    requires |b| == 1
    ensures Decode(Encode(b)) == Some(b)
  {
    var q := EncodeOne(b[0]);
    assert Encode(b) == q;
    SymVal(b[0] / 4);
    SymVal((b[0] % 4) * 16);
    assert Val(q[0]) == Some(b[0] / 4) && Val(q[1]) == Some((b[0] % 4) * 16);
    DecodeOne(q, b[0]);
    assert b == [b[0]];
  }

  /** A quantum with two pads, holding the sextets of one byte, decodes to that byte. */
  lemma DecodeOne(q: string, b0: byte)
    requires |q| == 4 && q[2] == Pad && q[3] == Pad
    requires Val(q[0]) == Some(b0 / 4) && Val(q[1]) == Some((b0 % 4) * 16)
    ensures Decode(q) == Some([b0])
  {
    SplitAt16(b0 % 4, 0);
  }

  /** The round trip for two bytes: three characters and one pad. */
  lemma TwoRoundTrip(b: seq<byte>)
    requires |b| == 2
    ensures Decode(Encode(b)) == Some(b)
  {
    var q := EncodeTwo(b[0], b[1]);
    assert Encode(b) == q;
    TwoSextets(b[0], b[1]);
    DecodeTwo(q, b[0], b[1]);
    assert b == [b[0], b[1]];
  }

  /** The characters of a two-byte quantum are the symbols of its three sextets, then a pad. */
  lemma TwoSextets(b0: byte, b1: byte)
    ensures var q := EncodeTwo(b0, b1);
      && Val(q[0]) == Some(b0 / 4)
      && Val(q[1]) == Some((b0 % 4) * 16 + b1 / 16)
      && Val(q[2]) == Some((b1 % 16) * 4)
      && q[2] != Pad && q[3] == Pad
  {
    SymVal(b0 / 4);
    SymVal((b0 % 4) * 16 + b1 / 16);
    SymVal((b1 % 16) * 4);
  }

  /** A quantum with one pad, holding the sextets of two bytes, decodes to those bytes. */
  lemma DecodeTwo(q: string, b0: byte, b1: byte)
    requires |q| == 4 && q[2] != Pad && q[3] == Pad
    requires Val(q[0]) == Some(b0 / 4) && Val(q[1]) == Some((b0 % 4) * 16 + b1 / 16)
    requires Val(q[2]) == Some((b1 % 16) * 4)
    ensures Decode(q) == Some([b0, b1])
  {
    TwoArithmetic(b0, b1);
  }

  /** The three sextets of a two-byte quantum put back together give the two bytes. */
  lemma TwoArithmetic(b0: byte, b1: byte)
    ensures var v1 := (b0 % 4) * 16 + b1 / 16;
      && (b0 / 4) * 4 + v1 / 16 == b0
      && (v1 % 16) * 16 + ((b1 % 16) * 4) / 4 == b1
  {
    SplitAt16(b0 % 4, b1 / 16);
    SplitAt4(b1 % 16, 0);
  }

  /** The round trip for three bytes: one quantum without padding. */
  lemma ThreeRoundTrip(b: seq<byte>)
    requires |b| == 3
    ensures Decode(Encode(b)) == Some(b)
  {
    var g := EncodeGroup(b[0], b[1], b[2]);
    assert Encode(b[3..]) == "";
    assert Encode(b) == g;
    GroupRoundTrip(b[0], b[1], b[2]);
    assert b == [b[0], b[1], b[2]];
  }

  /** Four characters for every started group of three bytes. */
  lemma {:induction false} EncodeLength(b: seq<byte>)
    ensures |Encode(b)| == 4 * ((|b| + 2) / 3)
    decreases |b|
  {
    if |b| == 1 {
      assert Encode(b) == EncodeOne(b[0]);
    } else if |b| == 2 {
      assert Encode(b) == EncodeTwo(b[0], b[1]);
    } else if |b| >= 3 {
      var rest := Encode(b[3..]);
      assert Encode(b) == EncodeGroup(b[0], b[1], b[2]) + rest;
      EncodeLength(b[3..]);
      GroupCount(|b| - 3);
    }
  }

  /** Three more bytes start exactly one more group. */
  lemma GroupCount(n: nat)
    ensures (n + 3 + 2) / 3 == (n + 2) / 3 + 1
  {
  }

  /** Every character of an encoding is in the alphabet or is the pad character. */
  lemma {:induction false} EncodeAlphabet(b: seq<byte>)
    ensures forall i :: 0 <= i < |Encode(b)| ==> IsEncodedChar(Encode(b)[i])
    decreases |b|
  {
    var s := Encode(b);
    if |b| == 1 {
      SymVal(b[0] / 4);
      SymVal((b[0] % 4) * 16);
      assert s == [Sym(b[0] / 4), Sym((b[0] % 4) * 16), Pad, Pad];
    } else if |b| == 2 {
      SymVal(b[0] / 4);
      SymVal((b[0] % 4) * 16 + b[1] / 16);
      SymVal((b[1] % 16) * 4);
      assert s == [Sym(b[0] / 4), Sym((b[0] % 4) * 16 + b[1] / 16), Sym((b[1] % 16) * 4), Pad];
    } else if |b| >= 3 {
      var g := EncodeGroup(b[0], b[1], b[2]);
      SymVal(b[0] / 4);
      SymVal((b[0] % 4) * 16 + b[1] / 16);
      SymVal((b[1] % 16) * 4 + b[2] / 64);
      SymVal(b[2] % 64);
      EncodeAlphabet(b[3..]);
      assert forall i :: 0 <= i < 4 ==> IsAlphabetChar(g[i]);
      assert forall i :: 4 <= i < |s| ==> s[i] == Encode(b[3..])[i - 4];
    }
  }

  /** Decoding a full quantum followed by more text decodes the quantum, then the rest. */
  lemma DecodeAppend(g: string, t: string)
    requires |g| == 4 && |t| >= 4
    ensures Decode(g + t) ==
      match DecodeGroup(g)
      case None => None
      case Some(x) =>
        match Decode(t)
        case None => None
        case Some(y) => Some(x + y)
  {
    assert (g + t)[..4] == g && (g + t)[4..] == t;
  }

  /** Decoding an encoding gives back the original bytes. */
  lemma {:induction false} RoundTrip(b: seq<byte>)
    ensures Decode(Encode(b)) == Some(b)
    decreases |b|
  {
    if |b| == 0 {
    } else if |b| == 1 {
      OneRoundTrip(b);
    } else if |b| == 2 {
      TwoRoundTrip(b);
    } else if |b| == 3 {
      ThreeRoundTrip(b);
    } else {
      var g := EncodeGroup(b[0], b[1], b[2]);
      var t := Encode(b[3..]);
      assert Encode(b) == g + t;
      RoundTrip(b[3..]);
      GroupRoundTrip(b[0], b[1], b[2]);
      DecodeAppend(g, t);
      assert b == [b[0], b[1], b[2]] + b[3..];
    }
  }
}
