/** Base64 with the standard alphabet and `=` padding, as in section 4 of RFC 4648.
    Encoded output is given as the ASCII codes of its characters. */
module Base64 {
  import opened Common

  /** The character of the 64-character alphabet for a 6-bit value (Table 1 of RFC 4648). */
  function Symbol(i: nat): (b: Byte)
    requires i < 64
  {
    if i < 26 then 'A' as int + i
    else if i < 52 then 'a' as int + (i - 26)
    else if i < 62 then '0' as int + (i - 52)
    else if i == 62 then '+' as int
    else '/' as int
  }

  const Pad: Byte := '=' as int

  predicate IsSymbol(b: Byte) {
    || ('A' as int <= b <= 'Z' as int)
    || ('a' as int <= b <= 'z' as int)
    || ('0' as int <= b <= '9' as int)
    || b == '+' as int
    || b == '/' as int
  }

  /** The 6-bit value a character of the alphabet stands for. */
  function SymbolIndex(b: Byte): (i: nat)
    requires IsSymbol(b)
    ensures i < 64 && Symbol(i) == b
  {
    if 'A' as int <= b <= 'Z' as int then b - 'A' as int
    else if 'a' as int <= b <= 'z' as int then b - 'a' as int + 26
    else if '0' as int <= b <= '9' as int then b - '0' as int + 52
    else if b == '+' as int then 62
    else 63
  }

  lemma SymbolRoundTrip(i: nat)
    requires i < 64
    ensures IsSymbol(Symbol(i)) && SymbolIndex(Symbol(i)) == i
  {
  }

  /** Three bytes (24 bits) become four characters. */
  function EncodeBlock(b0: Byte, b1: Byte, b2: Byte): seq<Byte> {
    [Symbol(b0 / 4), Symbol(b0 % 4 * 16 + b1 / 16), Symbol(b1 % 16 * 4 + b2 / 64), Symbol(b2 % 64)]
  }

  /** Encoding of a whole byte string; a final group of one or two bytes is padded
      with "==" or "=" (section 4 of RFC 4648, cases (2) and (3)). */
  function Encode(s: seq<Byte>): (r: seq<Byte>)
    ensures |r| == 4 * ((|s| + 2) / 3)
    ensures forall k :: 0 <= k < |r| ==> IsSymbol(r[k]) || r[k] == Pad
    decreases |s|
  {
    if |s| == 0 then []
    else if |s| == 1 then [Symbol(s[0] / 4), Symbol(s[0] % 4 * 16), Pad, Pad]
    else if |s| == 2 then [Symbol(s[0] / 4), Symbol(s[0] % 4 * 16 + s[1] / 16), Symbol(s[1] % 16 * 4), Pad]
    else EncodeBlock(s[0], s[1], s[2]) + Encode(s[3..])
  }

  /** Four characters, the last one or two of which may be `=`, read back into bytes. */
  function DecodeQuad(c0: Byte, c1: Byte, c2: Byte, c3: Byte): Option<seq<Byte>> {
    if !IsSymbol(c0) || !IsSymbol(c1) then None
    else if IsSymbol(c2) && IsSymbol(c3) then
      var i0, i1, i2, i3 := SymbolIndex(c0), SymbolIndex(c1), SymbolIndex(c2), SymbolIndex(c3);
      Some([i0 * 4 + i1 / 16, i1 % 16 * 16 + i2 / 4, i2 % 4 * 64 + i3])
    else if IsSymbol(c2) && c3 == Pad then
      var i0, i1, i2 := SymbolIndex(c0), SymbolIndex(c1), SymbolIndex(c2);
      Some([i0 * 4 + i1 / 16, i1 % 16 * 16 + i2 / 4])
    else if c2 == Pad && c3 == Pad then
      var i0, i1 := SymbolIndex(c0), SymbolIndex(c1);
      Some([i0 * 4 + i1 / 16])
    else None
  }

  /** Decoding: padding is accepted in the last group of four only. */
  function Decode(t: seq<Byte>): Option<seq<Byte>>
    decreases |t|
  {
    if |t| == 0 then Some([])
    else if |t| < 4 then None
    else if |t| == 4 then DecodeQuad(t[0], t[1], t[2], t[3])
    else if !(IsSymbol(t[0]) && IsSymbol(t[1]) && IsSymbol(t[2]) && IsSymbol(t[3])) then None
    else match (DecodeQuad(t[0], t[1], t[2], t[3]), Decode(t[4..]))
      case (Some(head), Some(tail)) => Some(head + tail)
      case _ => None
  }

  /** A 6-bit value split as two high bits over four low bits, and back. */
  lemma Split16(hi: int, lo: int)
    requires 0 <= hi < 4 && 0 <= lo < 16
    ensures (hi * 16 + lo) / 16 == hi && (hi * 16 + lo) % 16 == lo
  {
  }

  /** A 6-bit value split as four high bits over two low bits, and back. */
  lemma Split4(hi: int, lo: int)
    requires 0 <= hi < 16 && 0 <= lo < 4
    ensures (hi * 4 + lo) / 4 == hi && (hi * 4 + lo) % 4 == lo
  {
  }

  lemma ByteSplit(b: Byte)
    ensures b / 4 * 4 + b % 4 == b && b / 16 * 16 + b % 16 == b && b / 64 * 64 + b % 64 == b
    ensures b / 4 < 64 && b / 16 < 16 && b / 64 < 4
  {
  }

  /** Four alphabet characters decode to the three bytes their 24 bits spell. */
  lemma QuadOfSymbols(i0: nat, i1: nat, i2: nat, i3: nat)
    requires i0 < 64 && i1 < 64 && i2 < 64 && i3 < 64
    ensures DecodeQuad(Symbol(i0), Symbol(i1), Symbol(i2), Symbol(i3))
         == Some([i0 * 4 + i1 / 16, i1 % 16 * 16 + i2 / 4, i2 % 4 * 64 + i3])
  {
    SymbolRoundTrip(i0);
    SymbolRoundTrip(i1);
    SymbolRoundTrip(i2);
    SymbolRoundTrip(i3);
  }

  /** Three alphabet characters and "=" decode to the two bytes their 16 high bits spell. */
  lemma QuadOfSymbolsPadded(i0: nat, i1: nat, i2: nat)
    requires i0 < 64 && i1 < 64 && i2 < 64
    ensures DecodeQuad(Symbol(i0), Symbol(i1), Symbol(i2), Pad)
         == Some([i0 * 4 + i1 / 16, i1 % 16 * 16 + i2 / 4])
  {
    SymbolRoundTrip(i0);
    SymbolRoundTrip(i1);
    SymbolRoundTrip(i2);
  }

  lemma BlockArithmetic(b0: Byte, b1: Byte, b2: Byte)
    ensures var i0, i1, i2, i3 := b0 / 4, b0 % 4 * 16 + b1 / 16, b1 % 16 * 4 + b2 / 64, b2 % 64;
      && i0 * 4 + i1 / 16 == b0 && i1 % 16 * 16 + i2 / 4 == b1 && i2 % 4 * 64 + i3 == b2
  {
    ByteSplit(b0);
    ByteSplit(b1);
    ByteSplit(b2);
    Split16(b0 % 4, b1 / 16);
    Split4(b1 % 16, b2 / 64);
  }

  lemma BlockRoundTrip(b0: Byte, b1: Byte, b2: Byte)
    ensures var q := EncodeBlock(b0, b1, b2); DecodeQuad(q[0], q[1], q[2], q[3]) == Some([b0, b1, b2])
  {
    ByteSplit(b0);
    ByteSplit(b1);
    ByteSplit(b2);
    var i0, i1, i2, i3 := b0 / 4, b0 % 4 * 16 + b1 / 16, b1 % 16 * 4 + b2 / 64, b2 % 64;
    var q := EncodeBlock(b0, b1, b2);
    assert q[0] == Symbol(i0) && q[1] == Symbol(i1) && q[2] == Symbol(i2) && q[3] == Symbol(i3);
    QuadOfSymbols(i0, i1, i2, i3);
    BlockArithmetic(b0, b1, b2);
    assert [i0 * 4 + i1 / 16, i1 % 16 * 16 + i2 / 4, i2 % 4 * 64 + i3] == [b0, b1, b2];
  }

  /** One trailing byte: two characters and "==". */
  lemma DecodeEncodeOne(s: seq<Byte>)
    requires |s| == 1
    ensures Decode(Encode(s)) == Some(s)
  {
    var b0 := s[0];
    ByteSplit(b0);
    var i0, i1 := b0 / 4, b0 % 4 * 16;
    Split16(b0 % 4, 0);
    SymbolRoundTrip(i0);
    SymbolRoundTrip(i1);
    assert Encode(s) == [Symbol(i0), Symbol(i1), Pad, Pad];
    assert [b0] == s;
  }

  lemma PairRoundTrip(b0: Byte, b1: Byte)
    ensures b0 / 4 < 64 && b0 % 4 * 16 + b1 / 16 < 64 && b1 % 16 * 4 < 64
    ensures DecodeQuad(Symbol(b0 / 4), Symbol(b0 % 4 * 16 + b1 / 16), Symbol(b1 % 16 * 4), Pad) == Some([b0, b1])
  {
    var i0, i1, i2 := b0 / 4, b0 % 4 * 16 + b1 / 16, b1 % 16 * 4;
    QuadOfSymbolsPadded(i0, i1, i2);
    TwoArithmetic(b0, b1, i0, i1, i2);
  }

  /** Two trailing bytes: three characters and "=". */
  lemma DecodeEncodeTwo(s: seq<Byte>)
    requires |s| == 2
    ensures Decode(Encode(s)) == Some(s)
  {
    var b0, b1 := s[0], s[1];
    PairRoundTrip(b0, b1);
    var e := Encode(s);
    assert e == [Symbol(b0 / 4), Symbol(b0 % 4 * 16 + b1 / 16), Symbol(b1 % 16 * 4), Pad];
    assert s == [b0, b1];
  }

  lemma TwoArithmetic(b0: Byte, b1: Byte, i0: int, i1: int, i2: int)
    requires i0 == b0 / 4 && i1 == b0 % 4 * 16 + b1 / 16 && i2 == b1 % 16 * 4
    ensures i0 * 4 + i1 / 16 == b0 && i1 % 16 * 16 + i2 / 4 == b1
  {
    ByteSplit(b0);
    ByteSplit(b1);
    Split16(b0 % 4, b1 / 16);
    Split4(b1 % 16, 0);
  }

  /** A full group of four followed by a non-empty decodable rest. */
  lemma DecodeAppend(q: seq<Byte>, rest: seq<Byte>, head: seq<Byte>, tail: seq<Byte>)
    requires |q| == 4 && IsSymbol(q[0]) && IsSymbol(q[1]) && IsSymbol(q[2]) && IsSymbol(q[3])
    requires DecodeQuad(q[0], q[1], q[2], q[3]) == Some(head) && rest != [] && Decode(rest) == Some(tail)
    ensures Decode(q + rest) == Some(head + tail)
  {
    var t := q + rest;
    assert t[0] == q[0] && t[1] == q[1] && t[2] == q[2] && t[3] == q[3] && t[4..] == rest;
  }

  /** Decoding undoes encoding, for every byte string. */
  lemma {:induction false} DecodeEncode(s: seq<Byte>)
    ensures Decode(Encode(s)) == Some(s)
    decreases |s|
  {
    if |s| == 1 {
      DecodeEncodeOne(s);
    } else if |s| == 2 {
      DecodeEncodeTwo(s);
    } else if |s| >= 3 {
      var q := EncodeBlock(s[0], s[1], s[2]);
      var rest := Encode(s[3..]);
      assert Encode(s) == q + rest;
      BlockRoundTrip(s[0], s[1], s[2]);
      DecodeEncode(s[3..]);
      if |rest| == 0 {
        assert s == [s[0], s[1], s[2]];
        assert q + rest == q;
      } else {
        SymbolRoundTrip(s[0] / 4);
        assert IsSymbol(q[0]) && IsSymbol(q[1]) && IsSymbol(q[2]) && IsSymbol(q[3]);
        DecodeAppend(q, rest, [s[0], s[1], s[2]], s[3..]);
        assert s == [s[0], s[1], s[2]] + s[3..];
      }
    }
  }

  /** Every character of an encoding is printable ASCII, so it is a visible header value. */
  lemma EncodeIsPrintableAscii(s: seq<Byte>)
    ensures forall k :: 0 <= k < |Encode(s)| ==> 0x21 <= Encode(s)[k] <= 0x7E
  {
  }
}
