/** Octets, big-endian integers and the exclusive-or used by the packet ciphers. */
module Bytes {

  type byte = b: int | 0 <= b < 256

  const U32_MODULUS: int := 0x1_0000_0000

  type word = n: int | 0 <= n < U32_MODULUS

  /** The unsigned big-endian value of an octet string. */
  function FromBytes(s: seq<byte>): (n: nat)
  {
    if s == [] then 0 else FromBytes(s[..|s| - 1]) * 256 + s[|s| - 1]
  }

  /** The shortest big-endian octet string of a natural number; zero gives the empty string. */
  function ToBytes(n: nat): (r: seq<byte>)
    ensures n == 0 <==> r == []
    ensures n > 0 ==> r[0] != 0
  {
    if n == 0 then [] else ToBytes(n / 256) + [n % 256]
  }

  function Pow256(k: nat): (r: nat)
    ensures r > 0
  {
    if k == 0 then 1 else 256 * Pow256(k - 1)
  }

  lemma {:induction false} FromToBytes(n: nat)
    ensures FromBytes(ToBytes(n)) == n
  {
    if n > 0 {
      FromToBytes(n / 256);
      assert ToBytes(n)[..|ToBytes(n)| - 1] == ToBytes(n / 256);
    }
  }

  lemma {:induction false} FromBytesBound(s: seq<byte>)
    ensures FromBytes(s) < Pow256(|s|)
  {
    if s != [] {
      FromBytesBound(s[..|s| - 1]);
    }
  }

  lemma {:induction false} FromBytesCons(b: byte, s: seq<byte>)
    ensures FromBytes([b] + s) == b * Pow256(|s|) + FromBytes(s)
  {
    if s == [] {
      assert [b] + s == [b];
      assert FromBytes([b][..0]) == 0;
    } else {
      var t := s[..|s| - 1];
      assert ([b] + s)[..|s|] == [b] + t;
      FromBytesCons(b, t);
      assert b * (256 * Pow256(|t|)) == 256 * (b * Pow256(|t|));
    }
  }

  lemma {:induction false} FromBytesInjective(s: seq<byte>, t: seq<byte>)
    requires |s| == |t| && FromBytes(s) == FromBytes(t)
    ensures s == t
  {
    if s != [] {
      FromBytesInjective(s[..|s| - 1], t[..|t| - 1]);
      assert s == s[..|s| - 1] + [s[|s| - 1]];
      assert t == t[..|t| - 1] + [t[|t| - 1]];
    }
  }

  function Octet(n: nat, i: nat): byte
  {
    if i == 0 then n / 0x100_0000 % 256
    else if i == 1 then n / 0x1_0000 % 256
    else if i == 2 then n / 0x100 % 256
    else n % 256
  }

  /** The four octets of `n` as a 32-bit big-endian number; bits above the 32nd are dropped. */
  function PutU32(n: nat): (r: seq<byte>)
    ensures |r| == 4
  {
    seq(4, i requires 0 <= i < 4 => Octet(n, i))
  }

  function GetU32(s: seq<byte>): (n: nat)
    requires |s| >= 4
    ensures n < U32_MODULUS
  {
    FromBytesBound(s[..4]);
    FromBytes(s[..4])
  }

  lemma FourOctets(s: seq<byte>)
    requires |s| == 4
    ensures FromBytes(s) == s[0] as int * 0x100_0000 + s[1] as int * 0x1_0000 + s[2] as int * 0x100 + s[3]
  {
    var t := s[..3];
    var u := t[..2];
    var v := u[..1];
    assert FromBytes(v) == FromBytes(v[..0]) * 256 + s[0];
    assert FromBytes(u) == FromBytes(v) * 256 + s[1];
    assert FromBytes(t) == FromBytes(u) * 256 + s[2];
  }

  lemma RecombineOctets(n: nat)
    ensures Octet(n, 0) as int * 0x100_0000 + Octet(n, 1) as int * 0x1_0000 + Octet(n, 2) as int * 0x100 + Octet(n, 3)
         == n % U32_MODULUS
  {
    var a, b, c := n / 0x100, n / 0x1_0000, n / 0x100_0000;
    assert b == a / 256 && c == b / 256;
    assert n == 256 * a + n % 256 && a == 256 * b + a % 256 && b == 256 * c + b % 256;
    assert c == 256 * (c / 256) + c % 256;
  }

  lemma GetPutU32(n: nat, rest: seq<byte>)
    ensures GetU32(PutU32(n) + rest) == n % U32_MODULUS
    ensures (PutU32(n) + rest)[4..] == rest
  {
    assert (PutU32(n) + rest)[..4] == PutU32(n);
    FourOctets(PutU32(n));
    RecombineOctets(n);
  }

  lemma OctetsOfWord(a: byte, b: byte, c: byte, d: byte)
    ensures var n: nat := a as int * 0x100_0000 + b as int * 0x1_0000 + c as int * 0x100 + d;
            Octet(n, 0) == a && Octet(n, 1) == b && Octet(n, 2) == c && Octet(n, 3) == d
  {
    var n: nat := a as int * 0x100_0000 + b as int * 0x1_0000 + c as int * 0x100 + d;
    assert n / 0x100 == a as int * 0x1_0000 + b as int * 0x100 + c;
    assert n / 0x1_0000 == a as int * 0x100 + b;
    assert n / 0x100_0000 == a;
  }

  lemma PutGetU32(s: seq<byte>)
    requires |s| >= 4
    ensures PutU32(GetU32(s)) == s[..4]
  {
    var t := s[..4];
    FourOctets(t);
    OctetsOfWord(t[0], t[1], t[2], t[3]);
  }

  /** The octets of a text. */
  function Ascii(s: string): (r: seq<byte>)
    ensures |r| == |s|
    ensures forall i :: 0 <= i < |s| && s[i] as int < 256 ==> r[i] == s[i] as int
  {
    seq(|s|, i requires 0 <= i < |s| => s[i] as int % 256)
  }

  /** Bitwise exclusive-or of the low `bits` bits. */
  function XorBits(a: nat, b: nat, bits: nat): nat
  {
    if bits == 0 then 0 else 2 * XorBits(a / 2, b / 2, bits - 1) + (a + b) % 2
  }

  function Pow2(k: nat): nat
  {
    if k == 0 then 1 else 2 * Pow2(k - 1)
  }

  lemma HalfAndLow(h: nat, low: nat)
    requires low < 2
    ensures (2 * h + low) / 2 == h && (2 * h + low) % 2 == low
  {
  }

  lemma ParityCancels(a: nat, b: nat, r: nat)
    requires r % 2 == (a + b) % 2
    ensures (r + b) % 2 == a % 2
  {
  }

  lemma {:induction false} XorBitsInvolutive(a: nat, b: nat, bits: nat)
    requires a < Pow2(bits)
    ensures XorBits(a, b, bits) < Pow2(bits)
    ensures XorBits(XorBits(a, b, bits), b, bits) == a
  {
    if bits > 0 {
      XorBitsInvolutive(a / 2, b / 2, bits - 1);
      var r := XorBits(a, b, bits);
      HalfAndLow(XorBits(a / 2, b / 2, bits - 1), (a + b) % 2);
      assert r / 2 == XorBits(a / 2, b / 2, bits - 1) && r % 2 == (a + b) % 2;
      ParityCancels(a, b, r);
    }
  }

  function XorByte(a: byte, b: byte): (r: byte)
    ensures XorBits(r, b, 8) == a
  {
    assert Pow2(8) == 256;
    XorBitsInvolutive(a, b, 8);
    XorBits(a, b, 8)
  }

  function Bit(n: nat, i: nat): nat
  {
    if i == 0 then n % 2 else Bit(n / 2, i - 1)
  }

  /** Bit by bit: set exactly where the operands differ. */
  lemma {:induction false} XorIsBitwise(a: nat, b: nat, bits: nat, i: nat)
    requires i < bits
    ensures Bit(XorBits(a, b, bits), i) == if Bit(a, i) != Bit(b, i) then 1 else 0
  {
    HalfAndLow(XorBits(a / 2, b / 2, bits - 1), (a + b) % 2);
    if i > 0 {
      XorIsBitwise(a / 2, b / 2, bits - 1, i - 1);
    }
  }

  /** Octet-wise exclusive-or; the second operand must be at least as long. */
  function Xor(s: seq<byte>, k: seq<byte>): (r: seq<byte>)
    requires |s| <= |k|
    ensures |r| == |s|
  {
    seq(|s|, i requires 0 <= i < |s| => XorByte(s[i], k[i]))
  }

  lemma XorInvolutive(s: seq<byte>, k: seq<byte>)
    requires |s| <= |k|
    ensures Xor(Xor(s, k), k) == s
  {
    forall i | 0 <= i < |s|
      ensures Xor(Xor(s, k), k)[i] == s[i]
    {
      assert XorByte(Xor(s, k)[i], k[i]) == XorBits(XorByte(s[i], k[i]), k[i], 8);
    }
  }
}
