/** Multiple-precision integers on the wire (section 5 of RFC 4251) and the
    length-prefixed strings that carry them. */
module Mpint {
  import opened Bytes

  datatype Parsed<+T> = Short | Parsed(value: T, rest: seq<byte>)

  function EncodeString(s: seq<byte>): (r: seq<byte>)
    ensures |r| == 4 + |s|
  {
    PutU32(|s|) + s
  }

  /** The length test compares the announced length with the number of available
      octets truncated to 32 bits. */
  function ParseString(input: seq<byte>): (r: Parsed<seq<byte>>)
    ensures r.Parsed? ==> |input| >= 4 && input == input[..4] + r.value + r.rest && |r.value| == GetU32(input)
  {
    if |input| < 4 then Short
    else
      var length := GetU32(input);
      var body := input[4..];
      if |body| % U32_MODULUS < length then Short
      else Parsed(body[..length], body[length..])
  }

  /** The string is shorter than 2^32 octets, and what follows does not hide octets from the truncated length test. */
  predicate Counted(s: seq<byte>, rest: seq<byte>)
  {
    |s| < U32_MODULUS && (|s| + |rest|) % U32_MODULUS >= |s|
  }

  /** The exact range in which a string survives the trip. Outside it a parser that does not give up reads a
      shorter string. */
  lemma ParseEncodeString(s: seq<byte>, rest: seq<byte>)
    ensures var r := ParseString(EncodeString(s) + rest);
            && (r == Parsed(s, rest) <==> Counted(s, rest))
            && (r.Parsed? && !Counted(s, rest) ==> |r.value| < |s|)
  {
    var input := EncodeString(s) + rest;
    assert input == PutU32(|s|) + (s + rest);
    GetPutU32(|s|, s + rest);
    assert |s| < U32_MODULUS ==> (s + rest)[..|s|] == s && (s + rest)[|s|..] == rest;
  }

  lemma ParseEncodeShort(s: seq<byte>, rest: seq<byte>)
    requires |s| + |rest| < U32_MODULUS
    ensures ParseString(EncodeString(s) + rest) == Parsed(s, rest)
  {
    ParseEncodeString(s, rest);
  }

  function Complement(s: seq<byte>): (r: seq<byte>)
    ensures |r| == |s|
    ensures forall i :: 0 <= i < |s| ==> r[i] == 255 - s[i]
  {
    seq(|s|, i requires 0 <= i < |s| => 255 - s[i])
  }

  /** A leading octet keeps the sign bit right where the magnitude alone would flip it. */
  function SignPad(negative: bool, bytes: seq<byte>): (r: seq<byte>)
  {
    if negative then (if bytes == [] || bytes[0] < 128 then [255] else [])
    else if bytes != [] && bytes[0] >= 128 then [0] else []
  }

  function Magnitude(n: int): (r: seq<byte>)
  {
    if n < 0 then Complement(ToBytes(-n - 1)) else ToBytes(n)
  }

  /** The octets that follow the length field. */
  function IntContents(n: int): (r: seq<byte>)
  {
    SignPad(n < 0, Magnitude(n)) + Magnitude(n)
  }

  function EncodeInt(n: int): (r: seq<byte>)
  {
    EncodeString(IntContents(n))
  }

  function IntValue(contents: seq<byte>): int
  {
    if contents != [] && contents[0] >= 128 then -(FromBytes(Complement(contents)) + 1)
    else FromBytes(contents)
  }

  function ParseInt(input: seq<byte>): Parsed<int>
  {
    match ParseString(input)
    case Short => Short
    case Parsed(contents, rest) => Parsed(IntValue(contents), rest)
  }

  // ---- The encoding is two's complement, exact, shortest and unique ----

  /** Two's complement, read arithmetically: an independent account of `IntValue`. */
  function TwosComplement(s: seq<byte>): int
  {
    if s != [] && s[0] >= 128 then FromBytes(s) - Pow256(|s|) else FromBytes(s)
  }

  lemma {:induction false} FromBytesComplement(s: seq<byte>)
    ensures FromBytes(Complement(s)) + FromBytes(s) + 1 == Pow256(|s|)
  {
    if s != [] {
      FromBytesComplement(s[..|s| - 1]);
      assert Complement(s)[..|s| - 1] == Complement(s[..|s| - 1]);
    }
  }

  lemma IntValueIsTwosComplement(s: seq<byte>)
    ensures IntValue(s) == TwosComplement(s)
  {
    FromBytesComplement(s);
  }

  lemma ComplementInvolutive(s: seq<byte>)
    ensures Complement(Complement(s)) == s
  {
  }

  lemma FromBytesLeadingZero(s: seq<byte>)
    ensures FromBytes([0] + s) == FromBytes(s)
  {
    FromBytesCons(0, s);
  }

  lemma NonNegativeValue(bytes: seq<byte>)
    ensures IntValue(SignPad(false, bytes) + bytes) == FromBytes(bytes)
  {
    var c := SignPad(false, bytes) + bytes;
    if SignPad(false, bytes) == [] {
      assert c == bytes;
    } else {
      FromBytesLeadingZero(bytes);
    }
  }

  lemma NegativeValue(m: seq<byte>)
    ensures IntValue(SignPad(true, Complement(m)) + Complement(m)) + FromBytes(m) == -1
  {
    var inverted := Complement(m);
    var pad := SignPad(true, inverted);
    var c := pad + inverted;
    if pad == [] {
      assert c == inverted;
      ComplementInvolutive(m);
    } else {
      assert pad == [255];
      ComplementPadded(m);
      FromBytesLeadingZero(m);
    }
  }

  lemma ComplementPadded(m: seq<byte>)
    ensures Complement([255] + Complement(m)) == [0] + m
  {
  }

  lemma IntValueOfContents(n: int)
    ensures IntValue(IntContents(n)) == n
  {
    if n < 0 {
      FromToBytes(-n - 1);
      NegativeValue(ToBytes(-n - 1));
    } else {
      FromToBytes(n);
      NonNegativeValue(ToBytes(n));
    }
  }

  /** Decoding inverts encoding for every integer whose octets can be counted in 32 bits, and only then. */
  lemma ParseIntInvertsEncodeInt(n: int)
    ensures ParseInt(EncodeInt(n)) == Parsed(n, []) <==> |IntContents(n)| < U32_MODULUS
  {
    IntValueOfContents(n);
    ParseWholeString(IntContents(n));
  }

  lemma ParseWholeString(c: seq<byte>)
    ensures |c| < U32_MODULUS ==> ParseString(EncodeString(c)) == Parsed(c, [])
    ensures |c| >= U32_MODULUS && ParseString(EncodeString(c)).Parsed? ==> ParseString(EncodeString(c)).rest != []
  {
    assert EncodeString(c) + [] == EncodeString(c);
    ParseEncodeString(c, []);
    GetPutU32(|c|, c);
  }

  lemma {:induction false} LeadingByteBound(s: seq<byte>)
    requires s != []
    ensures s[0] as int * Pow256(|s| - 1) <= FromBytes(s) < (s[0] as int + 1) * Pow256(|s| - 1)
  {
    assert s == [s[0]] + s[1..];
    FromBytesCons(s[0], s[1..]);
    FromBytesBound(s[1..]);
  }

  /** `k` octets of two's complement hold exactly the integers of this range. */
  lemma TwosComplementRange(s: seq<byte>)
    requires s != []
    ensures -128 * Pow256(|s| - 1) <= TwosComplement(s) < 128 * Pow256(|s| - 1)
  {
    LeadingByteBound(s);
    var p := Pow256(|s| - 1);
    assert Pow256(|s|) == 256 * p;
    if s[0] < 128 {
      ScaleBound(s[0] as int + 1, 128, p);
    } else {
      ScaleBound(128, s[0] as int, p);
      ScaleBound(s[0] as int + 1, 256, p);
    }
  }

  lemma ScaleBound(a: int, b: int, p: nat)
    requires a <= b
    ensures a * p <= b * p
  {
  }

  lemma PositiveContents(n: nat)
    requires n > 0
    ensures IntContents(n) != []
    ensures |IntContents(n)| >= 2 ==> n >= 128 * Pow256(|IntContents(n)| - 2)
  {
    var b := ToBytes(n);
    FromToBytes(n);
    LeadingByteBound(b);
    var p := Pow256(|b| - 1);
    if b[0] >= 128 {
      ScaleBound(128, b[0], p);
    } else {
      ScaleBound(1, b[0], p);
      if |b| >= 2 {
        assert p == 256 * Pow256(|b| - 2);
      }
    }
  }

  lemma NegativeContents(n: int)
    requires n < 0
    ensures IntContents(n) != []
    ensures |IntContents(n)| >= 2 ==> n < -128 * Pow256(|IntContents(n)| - 2)
  {
    if n < -1 {
      PositiveContents(-n - 1);
    }
  }

  /** Section 5 of RFC 4251: no encoding of `n` is shorter, and none of the same length differs. */
  lemma IntContentsShortest(n: int, s: seq<byte>)
    requires TwosComplement(s) == n
    ensures |IntContents(n)| <= |s|
    ensures |IntContents(n)| == |s| ==> IntContents(n) == s
  {
    if n > 0 { PositiveContents(n); }
    if n < 0 { NegativeContents(n); }
    if s != [] {
      TwosComplementRange(s);
      if |IntContents(n)| > |s| {
        Pow256Monotone(|s| - 1, |IntContents(n)| - 2);
        assert false;
      }
    }
    if |IntContents(n)| == |s| {
      IntValueOfContents(n);
      IntValueIsTwosComplement(IntContents(n));
      SameLengthUnique(IntContents(n), s);
    }
  }

  lemma SameLengthUnique(c: seq<byte>, s: seq<byte>)
    requires |c| == |s| && TwosComplement(c) == TwosComplement(s)
    ensures c == s
  {
    FromBytesBound(c);
    FromBytesBound(s);
    FromBytesInjective(c, s);
  }

  lemma {:induction false} Pow256Monotone(a: nat, b: nat)
    requires a <= b
    ensures Pow256(a) <= Pow256(b)
  {
    if a < b {
      Pow256Monotone(a, b - 1);
    }
  }

  // ---- The length computed from the bit length ----

  function BitLen(n: nat): nat
  {
    if n == 0 then 0 else 1 + BitLen(n / 2)
  }

  function IntLength(n: int): (r: nat)
  {
    if n < 0 then
      var bitLen := BitLen(-n - 1);
      4 + (if bitLen % 8 == 0 then 1 else 0) + (bitLen + 7) / 8
    else if n == 0 then 4
    else
      var bitLen := BitLen(n);
      4 + (if bitLen % 8 == 0 then 1 else 0) + (bitLen + 7) / 8
  }

  lemma BitLenQuarter(n: nat)
    requires n >= 4
    ensures BitLen(n) == 2 + BitLen(n / 4)
  {
    assert n / 2 / 2 == n / 4;
  }

  lemma BitLenSixteenth(n: nat)
    requires n >= 16
    ensures BitLen(n) == 4 + BitLen(n / 16)
  {
    BitLenQuarter(n);
    BitLenQuarter(n / 4);
    assert n / 4 / 4 == n / 16;
  }

  lemma BitLenBytewise(n: nat)
    requires n >= 256
    ensures BitLen(n) == BitLen(n / 256) + 8
  {
    BitLenSixteenth(n);
    BitLenSixteenth(n / 16);
    assert n / 16 / 16 == n / 256;
  }

  lemma {:induction false} BitLenOfBytes(n: nat)
    requires n > 0
    ensures (BitLen(n) + 7) / 8 == |ToBytes(n)|
    ensures BitLen(n) % 8 == 0 <==> ToBytes(n)[0] >= 128
  {
    if n < 256 {
      BitLenSmall(n);
      assert ToBytes(n / 256) == [];
      assert ToBytes(n) == [n];
    } else {
      BitLenBytewise(n);
      BitLenOfBytes(n / 256);
    }
  }

  lemma BitLenSmall(n: nat)
    requires 0 < n < 256
    ensures 1 <= BitLen(n) <= 8 && (BitLen(n) == 8 <==> n >= 128)
  {
    BitLenNibble(n / 16);
    if n >= 16 {
      BitLenSixteenth(n);
    } else {
      BitLenNibble(n);
    }
  }

  lemma BitLenNibble(n: nat)
    requires n < 16
    ensures BitLen(n) <= 4 && (BitLen(n) == 4 <==> n >= 8) && (n > 0 ==> BitLen(n) >= 1)
  {
    assert BitLen(n / 4 / 4) == 0;
    assert n >= 4 ==> BitLen(n) == 2 + BitLen(n / 4);
  }

  /** `intLength` predicts exactly how many octets are written. */
  lemma IntLengthExact(n: int)
    ensures IntLength(n) == |EncodeInt(n)|
  {
    if n < -1 {
      BitLenOfBytes(-n - 1);
    } else if n > 0 {
      BitLenOfBytes(n);
    }
  }

  ghost function Splice(s: seq<byte>, pos: nat, b: seq<byte>): seq<byte>
    requires pos + |b| <= |s|
  {
    s[..pos] + b + s[pos + |b|..]
  }

  /** Go's `copy` into `to[pos..]`. */
  method CopyInto(to: array<byte>, pos: nat, bytes: seq<byte>)
    requires pos + |bytes| <= to.Length
    modifies to
    ensures to[..] == Splice(old(to[..]), pos, bytes)
  {
    for i := 0 to |bytes|
      invariant to[..pos] == old(to[..pos])
      invariant to[pos..pos + i] == bytes[..i]
      invariant to[pos + i..] == old(to[pos + i..])
    {
      to[pos + i] := bytes[i];
    }
    assert to[..] == to[..pos] + to[pos..pos + |bytes|] + to[pos + |bytes|..];
  }

  method SplitInt(n: int) returns (pad: seq<byte>, bytes: seq<byte>)
    ensures pad + bytes == IntContents(n)
  {
    pad, bytes := [], [];
    if n < 0 {
      bytes := InvertAll(ToBytes(-n - 1));
      if |bytes| == 0 || bytes[0] < 128 {
        pad := [255];
      }
    } else if n > 0 {
      bytes := ToBytes(n);
      if |bytes| > 0 && bytes[0] >= 128 {
        pad := [0];
      }
    }
  }

  /** Fills `to[start..]` with the encoding of `n`, as the source does on a slice. */
  method MarshalInt(to: array<byte>, start: nat, n: int) returns (end: nat)
    requires start + IntLength(n) <= to.Length
    modifies to
    ensures end == start + IntLength(n)
    ensures to[..] == old(to[..start]) + EncodeInt(n) + old(to[end..])
  {
    IntLengthExact(n);
    var pad, bytes := SplitInt(n);
    end := FillString(to, start, pad, bytes);
  }

  method FillString(to: array<byte>, start: nat, pad: seq<byte>, bytes: seq<byte>) returns (end: nat)
    requires start + 4 + |pad + bytes| <= to.Length
    modifies to
    ensures end == start + 4 + |pad + bytes|
    ensures to[..] == old(to[..start]) + EncodeString(pad + bytes) + old(to[end..])
  {
    hide Splice, EncodeString, PutU32;
    ghost var before := to[..];
    var length := |pad| + |bytes|;
    end := start + 4 + length;
    assert before[..start] == to[..start] && before[end..] == to[end..];
    CopyInto(to, start + 4, pad);
    CopyInto(to, start + 4 + |pad|, bytes);
    CopyInto(to, start, PutU32(length));
    Layout(before, start, pad, bytes);
  }

  lemma Layout(s: seq<byte>, start: nat, pad: seq<byte>, bytes: seq<byte>)
    requires start + 4 + |pad| + |bytes| <= |s|
    ensures Splice(Splice(Splice(s, start + 4, pad), start + 4 + |pad|, bytes), start, PutU32(|pad + bytes|))
         == s[..start] + EncodeString(pad + bytes) + s[start + 4 + |pad| + |bytes|..]
  {
    var one := Splice(s, start + 4, pad);
    var two := Splice(one, start + 4 + |pad|, bytes);
    assert two[start + 4..] == pad + bytes + s[start + 4 + |pad| + |bytes|..];
    assert two[..start] == s[..start];
  }

  method InvertAll(bytes: seq<byte>) returns (r: seq<byte>)
    ensures r == Complement(bytes)
  {
    r := bytes;
    for i := 0 to |bytes|
      invariant |r| == |bytes|
      invariant forall k :: 0 <= k < i ==> r[k] == 255 - bytes[k]
      invariant forall k :: i <= k < |bytes| ==> r[k] == bytes[k]
    {
      r := r[i := 255 - r[i]];
    }
  }
}
