/** Packets under AES-GCM: the length is authenticated in the clear and the invocation
    counter in the IV steps once per packet. */
module GcmCipher {
  import opened Arithmetic
  import opened Bytes
  import opened Options
  import opened Packets

  const TAG_SIZE: nat := 16

  /** Any authenticated cipher: seal(iv, plain, aad) and open(iv, sealed, aad). */
  datatype Aead = Aead(seal: (seq<byte>, seq<byte>, seq<byte>) -> seq<byte>,
                       open: (seq<byte>, seq<byte>, seq<byte>) -> Option<seq<byte>>)
  {
    ghost predicate Valid()
    {
      && (forall iv: seq<byte>, p: seq<byte>, a: seq<byte> :: |seal(iv, p, a)| == |p| + TAG_SIZE)
      && (forall iv: seq<byte>, p: seq<byte>, a: seq<byte> :: open(iv, seal(iv, p, a), a) == Some(p))
      && (forall iv: seq<byte>, c: seq<byte>, a: seq<byte> :: open(iv, c, a).Some? ==> |open(iv, c, a).value| + TAG_SIZE == |c|)
    }
  }

  // ---- The IV ----

  /** Adds one with carry; the value of all ones becomes zero. */
  function Carry(s: seq<byte>): (r: seq<byte>)
    ensures |r| == |s|
  {
    if s == [] then []
    else
      var n := |s| - 1;
      if s[n] == 255 then Carry(s[..n]) + [0] else s[..n] + [s[n] + 1]
  }

  lemma {:induction false} CarryIsPlusOne(s: seq<byte>)
    ensures FromBytes(Carry(s)) == (FromBytes(s) + 1) % Pow256(|s|)
  {
    FromBytesBound(s);
    if s != [] {
      var n := |s| - 1;
      var init := s[..n];
      FromBytesBound(init);
      assert Carry(s)[..n] == if s[n] == 255 then Carry(init) else init;
      if s[n] == 255 {
        CarryIsPlusOne(init);
        WrapStep(FromBytes(init), Pow256(n));
      } else {
        assert FromBytes(s) + 1 < Pow256(|s|) by {
          ScaleUp(FromBytes(init), Pow256(n));
        }
        SmallMod(FromBytes(s) + 1, Pow256(|s|));
      }
    }
  }

  lemma ScaleUp(a: nat, p: nat)
    requires a < p
    ensures a * 256 + 255 < 256 * p
  {
  }

  lemma WrapStep(a: nat, p: nat)
    requires a < p
    ensures (a + 1) % p * 256 == (a * 256 + 255 + 1) % (256 * p)
  {
    if a + 1 < p {
      SmallMod(a + 1, p);
      SmallMod(a * 256 + 256, 256 * p);
    } else {
      assert a + 1 == p;
      SelfMod(p);
      SelfMod(256 * p);
    }
  }

  /** The fixed field is octets 0 to 3, the invocation counter octets 4 to 11. */
  function IncIv(iv: seq<byte>): (r: seq<byte>)
    requires |iv| == 12
    ensures |r| == 12
  {
    iv[..4] + Carry(iv[4..])
  }

  function Counter(iv: seq<byte>): nat
    requires |iv| == 12
  {
    FromBytes(iv[4..])
  }

  /** `incIV` adds one modulo 2^64 to the counter and keeps the fixed field. */
  lemma IncIvCounts(iv: seq<byte>)
    requires |iv| == 12
    ensures Counter(IncIv(iv)) == (Counter(iv) + 1) % Pow256(8) && IncIv(iv)[..4] == iv[..4]
  {
    CarryIsPlusOne(iv[4..]);
    assert IncIv(iv)[4..] == Carry(iv[4..]);
  }

  /** The IV of packet `k`. */
  function IvAfter(iv: seq<byte>, k: nat): (r: seq<byte>)
    requires |iv| == 12
    ensures |r| == 12
  {
    if k == 0 then iv else IncIv(IvAfter(iv, k - 1))
  }

  lemma CounterBound(iv: seq<byte>)
    requires |iv| == 12
    ensures Counter(iv) < Pow256(8)
  {
    FromBytesBound(iv[4..]);
  }

  lemma {:induction false} IvAfterCounts(iv: seq<byte>, k: nat)
    requires |iv| == 12
    ensures Counter(IvAfter(iv, k)) == (Counter(iv) + k) % Pow256(8)
  {
    hide Pow256, FromBytes, IncIv, Counter;
    if k == 0 {
      CounterBound(iv);
      SmallMod(Counter(iv), Pow256(8));
    } else {
      IvAfterCounts(iv, k - 1);
      var before := IvAfter(iv, k - 1);
      IncIvCounts(before);
      ModChain(Counter(iv), k, Pow256(8), Counter(before), Counter(IncIv(before)));
    }
  }

  lemma ModChain(c: nat, k: nat, m: nat, x: nat, y: nat)
    requires m > 0 && k > 0 && x == (c + (k - 1)) % m && y == (x + 1) % m
    ensures y == (c + k) % m
  {
    StepMod(c + (k - 1), m);
  }

  /** No two packets closer than 2^64 apart share an IV. */
  lemma IvNeverRepeats(iv: seq<byte>, i: nat, j: nat)
    requires |iv| == 12 && i < j < i + Pow256(8)
    ensures IvAfter(iv, i) != IvAfter(iv, j)
  {
    hide Pow256, IvAfter;
    IvAfterCounts(iv, i);
    IvAfterCounts(iv, j);
    DistinctMods(Counter(iv) + i, Counter(iv) + j, Pow256(8));
  }

  /** The carry loop, in place. */
  method IncIV(iv: array<byte>)
    requires iv.Length == 12
    modifies iv
    ensures iv[..] == IncIv(old(iv[..]))
  {
    ghost var before := iv[..];
    var i := 11;
    assert iv[4..12] == before[4..] && iv[12..] == [];
    while i >= 4
      invariant 3 <= i <= 11
      invariant iv[..i + 1] == before[..i + 1]
      invariant iv[..4] + (Carry(iv[4..i + 1]) + iv[i + 1..]) == IncIv(before)
      decreases i
    {
      ghost var head := iv[4..i + 1];
      assert head[..|head| - 1] == iv[4..i];
      if iv[i] != 255 {
        assert Carry(head) == iv[4..i] + [iv[i] + 1];
        iv[i] := iv[i] + 1;
        assert iv[..] == iv[..4] + (iv[4..i] + [iv[i]] + iv[i + 1..]);
        return;
      }
      assert Carry(head) == Carry(iv[4..i]) + [0];
      iv[i] := 0;
      assert iv[i..] == [0] + iv[i + 1..];
      i := i - 1;
    }
    assert iv[4..4] == [] && Carry([]) == [];
    assert iv[..] == iv[..4] + iv[4..];
  }

  // ---- One packet ----

  datatype Error = ShortRead | MaxPacketExceeded | OpenFailed | IllegalPadding | PaddingTooLarge | Panic
  datatype ReadResult = ReadPacket(packet: seq<byte>, iv: seq<byte>, rest: seq<byte>) | ReadError(error: Error)

  function PaddingLength(n: nat): nat
  {
    var p := 16 - (1 + n) % 16;
    if p < 4 then p + 16 else p
  }

  /** Section 6 of RFC 4253 on the encrypted part, which here leaves out the length. */
  lemma PaddingLaw(n: nat, other: nat)
    ensures var p := PaddingLength(n);
            && 4 <= p < 20 && (1 + n + p) % 16 == 0
            && (other >= 4 && (1 + n + other) % 16 == 0 ==> p <= other)
  {
  }

  function Plain(packet: seq<byte>, padding: seq<byte>): seq<byte>
    requires |padding| < 256
  {
    [|padding|] + packet + padding
  }

  datatype Written = Written(bytes: seq<byte>) | WritePanics

  /** The writer has no length check of its own; its buffer has the low 32 bits of the length. */
  function BufferLength(n: nat): nat
  {
    (n + 1 + PaddingLength(n)) % U32_MODULUS
  }

  /** The payload does not fit in the buffer exactly when the length does not fit in 32 bits. */
  lemma BufferTooShort(n: nat)
    ensures 1 + n > BufferLength(n) <==> n + 1 + PaddingLength(n) >= U32_MODULUS
  {
    PaddingLaw(n, 4);
    var length := n + 1 + PaddingLength(n);
    hide PaddingLength;
    if length >= U32_MODULUS {
      assert length == length / U32_MODULUS * U32_MODULUS + length % U32_MODULUS;
      assert length / U32_MODULUS >= 1;
    }
  }

  function Write(c: Aead, iv: seq<byte>, packet: seq<byte>, padding: seq<byte>): Written
    requires |padding| == PaddingLength(|packet|)
  {
    PaddingLaw(|packet|, 4);
    var plain := Plain(packet, padding);
    var length := BufferLength(|packet|);
    if 1 + |packet| > length then WritePanics
    else Written(PutU32(length) + c.seal(iv, plain, PutU32(length)))
  }

  datatype Unpadded = Payload(packet: seq<byte>) | Bad(error: Error)

  /** The checks on an authenticated packet; `padding+1` is computed in eight bits and
      `length-padding` in thirty-two. */
  function Unpad(plain: seq<byte>): Unpadded
  {
    if plain == [] then Bad(Panic)
    else
      var padding := plain[0];
      var end := (|plain| + U32_MODULUS - padding) % U32_MODULUS;
      if padding < 4 then Bad(IllegalPadding)
      else if (padding + 1) % 256 >= |plain| then Bad(PaddingTooLarge)
      else if end < 1 || end > |plain| then Bad(Panic)
      else Payload(plain[1..end])
  }

  /** The reader indexes out of range on exactly these authenticated packets. */
  lemma UnpadPanics(plain: seq<byte>)
    requires |plain| < U32_MODULUS
    ensures Unpad(plain) == Bad(Panic) <==> plain == [] || (plain[0] == 255 && |plain| < 256)
  {
    if plain != [] {
      var padding: int := plain[0];
      if |plain| >= padding {
        assert (|plain| + U32_MODULUS - padding) % U32_MODULUS == |plain| - padding;
      } else {
        assert (|plain| + U32_MODULUS - padding) % U32_MODULUS == |plain| + U32_MODULUS - padding;
      }
    }
  }

  /** Which padding is refused, and why: fewer than four octets, or no octet of payload left. */
  lemma UnpadRefuses(plain: seq<byte>)
    requires plain != []
    ensures Unpad(plain) == Bad(IllegalPadding) <==> plain[0] <= 3
    ensures Unpad(plain) == Bad(PaddingTooLarge) <==> 4 <= plain[0] < 255 && plain[0] + 1 >= |plain|
  {
    var padding: int := plain[0];
    if padding == 255 {
      assert (padding + 1) % 256 == 0;
    }
  }

  lemma UnpadErrors(plain: seq<byte>)
    ensures var r := Unpad(plain);
            r.Bad? ==> r.error.IllegalPadding? || r.error.PaddingTooLarge? || r.error.Panic?
  {
  }

  function Read(c: Aead, iv: seq<byte>, input: seq<byte>): ReadResult
    requires |iv| == 12
  {
    if |input| < 4 then ReadError(ShortRead)
    else
      var length := GetU32(input);
      if length > MAX_PACKET then ReadError(MaxPacketExceeded)
      else if |input| < 4 + length + TAG_SIZE then ReadError(ShortRead)
      else
        match c.open(iv, input[4..4 + length + TAG_SIZE], input[..4])
        case None => ReadError(OpenFailed)
        case Some(plain) =>
          match Unpad(plain)
          case Bad(e) => ReadError(e)
          case Payload(p) => ReadPacket(p, IncIv(iv), input[4 + length + TAG_SIZE..])
  }

  lemma UnpadPlain(packet: seq<byte>, padding: seq<byte>)
    requires 4 <= |padding| < 20 && |packet| < MAX_PACKET
    ensures Unpad(Plain(packet, padding)) == if packet == [] then Bad(PaddingTooLarge) else Payload(packet)
  {
    var plain := Plain(packet, padding);
    assert (|plain| + U32_MODULUS - |padding|) % U32_MODULUS == |plain| - |padding|;
    assert plain[1..|plain| - |padding|] == packet;
  }

  /** The writer panics exactly when the length with padding does not fit in 32 bits. Otherwise the packet is read
      back, with the IV stepped alike on both sides, exactly when it is not empty and fits with its padding. */
  lemma ReadInvertsWrite(c: Aead, iv: seq<byte>, packet: seq<byte>, padding: seq<byte>, rest: seq<byte>)
    requires c.Valid() && |iv| == 12 && |padding| == PaddingLength(|packet|)
    ensures var w := Write(c, iv, packet, padding);
            var length := |packet| + 1 + |padding|;
            && (w.WritePanics? <==> length >= U32_MODULUS)
            && (w.Written? ==> Read(c, iv, w.bytes + rest)
                               == if length > MAX_PACKET then ReadError(MaxPacketExceeded)
                                  else if packet == [] then ReadError(PaddingTooLarge)
                                  else ReadPacket(packet, IncIv(iv), rest))
  {
    PaddingLaw(|packet|, 4);
    BufferTooShort(|packet|);
    if |packet| + 1 + |padding| < U32_MODULUS {
      ReadOfWrite(c, iv, packet, padding, rest);
    }
  }

  /** The frame of a sealed packet. */
  function Frame(c: Aead, iv: seq<byte>, plain: seq<byte>): seq<byte>
    requires |plain| < U32_MODULUS
  {
    PutU32(|plain|) + c.seal(iv, plain, PutU32(|plain|))
  }

  /** Whatever a peer with the key seals is opened and judged by its padding. */
  lemma ReadOfFrame(c: Aead, iv: seq<byte>, plain: seq<byte>, rest: seq<byte>)
    requires c.Valid() && |iv| == 12 && |plain| < U32_MODULUS
    ensures Read(c, iv, Frame(c, iv, plain) + rest)
            == if |plain| > MAX_PACKET then ReadError(MaxPacketExceeded)
               else match Unpad(plain)
                    case Bad(e) => ReadError(e)
                    case Payload(p) => ReadPacket(p, IncIv(iv), rest)
  {
    hide Unpad, IncIv, GetU32, PutU32;
    var prefix := PutU32(|plain|);
    var sealed := c.seal(iv, plain, prefix);
    var input := Frame(c, iv, plain) + rest;
    assert input == prefix + (sealed + rest);
    GetPutU32(|plain|, sealed + rest);
    if |plain| <= MAX_PACKET {
      assert input[4..4 + |plain| + TAG_SIZE] == sealed && input[..4] == prefix;
      assert input[4 + |plain| + TAG_SIZE..] == rest;
    }
  }

  /** So the reader panics on exactly these packets that a peer can send: the empty one, and those shorter than
      256 octets that announce 255 octets of padding. */
  lemma ReadPanicsIff(c: Aead, iv: seq<byte>, plain: seq<byte>, rest: seq<byte>)
    requires c.Valid() && |iv| == 12 && |plain| <= MAX_PACKET
    ensures Read(c, iv, Frame(c, iv, plain) + rest) == ReadError(Panic) <==> plain == [] || (plain[0] == 255 && |plain| < 256)
  {
    hide Unpad, Read, Frame;
    ReadOfFrame(c, iv, plain, rest);
    UnpadPanics(plain);
  }

  lemma ReadOfWrite(c: Aead, iv: seq<byte>, packet: seq<byte>, padding: seq<byte>, rest: seq<byte>)
    requires c.Valid() && |iv| == 12 && |padding| == PaddingLength(|packet|) && |packet| + 1 + |padding| < U32_MODULUS
    ensures var w := Write(c, iv, packet, padding);
            && w.Written?
            && Read(c, iv, w.bytes + rest)
               == if |packet| + 1 + |padding| > MAX_PACKET then ReadError(MaxPacketExceeded)
                  else if packet == [] then ReadError(PaddingTooLarge)
                  else ReadPacket(packet, IncIv(iv), rest)
  {
    PaddingLaw(|packet|, 4);
    hide Unpad, IncIv, PaddingLength, PutU32, Read;
    var plain := Plain(packet, padding);
    LowBits(|plain|);
    ReadOfFrame(c, iv, plain, rest);
    if |plain| <= MAX_PACKET {
      UnpadPlain(packet, padding);
    }
  }

  /** The octets on the wire (section 7.2 of RFC 5647): the length, authenticated in the clear, then padding length,
      payload and padding sealed under the IV. */
  lemma WrittenOctets(c: Aead, iv: seq<byte>, packet: seq<byte>, padding: seq<byte>)
    requires c.Valid() && |padding| == PaddingLength(|packet|) && |packet| + 1 + |padding| < U32_MODULUS
    ensures |padding| < 256
    ensures var length := PutU32(1 + |packet| + |padding|);
            && Write(c, iv, packet, padding) == Written(length + c.seal(iv, [|padding|] + packet + padding, length))
            && |Write(c, iv, packet, padding).bytes| == 4 + (1 + |packet| + |padding|) + 16
  {
    PaddingLaw(|packet|, 4);
    BufferTooShort(|packet|);
    hide PaddingLength, PutU32;
    LowBits(|packet| + 1 + |padding|);
    assert 1 + |packet| + |padding| == |packet| + 1 + |padding|;
  }

  lemma LowBits(n: nat)
    requires n < U32_MODULUS
    ensures n % U32_MODULUS == n
  {
  }

  // ---- A list of packets ----

  predicate AllAdmissible(packets: seq<seq<byte>>, paddings: seq<seq<byte>>)
  {
    && |packets| == |paddings|
    && forall i :: 0 <= i < |packets| ==>
         packets[i] != [] && |paddings[i]| == PaddingLength(|packets[i]|) && |packets[i]| + 1 + |paddings[i]| <= MAX_PACKET
  }

  function WriteAll(c: Aead, iv: seq<byte>, packets: seq<seq<byte>>, paddings: seq<seq<byte>>): seq<byte>
    requires |iv| == 12 && AllAdmissible(packets, paddings)
    decreases packets
  {
    if packets == [] then []
    else
      BufferTooShort(|packets[0]|);
      Write(c, iv, packets[0], paddings[0]).bytes + WriteAll(c, IncIv(iv), packets[1..], paddings[1..])
  }

  function ReadAll(c: Aead, iv: seq<byte>, input: seq<byte>, n: nat): (seq<seq<byte>>, seq<byte>, seq<byte>)
    requires |iv| == 12
    decreases n
  {
    if n == 0 then ([], iv, input)
    else
      match Read(c, iv, input)
      case ReadError(_) => ([], iv, input)
      case ReadPacket(p, _, rest) =>
        var (ps, end, left) := ReadAll(c, IncIv(iv), rest, n - 1);
        ([p] + ps, end, left)
  }

  lemma {:induction false} IvAfterStep(iv: seq<byte>, k: nat)
    requires |iv| == 12
    ensures IvAfter(IncIv(iv), k) == IvAfter(iv, k + 1)
  {
    hide IncIv;
    if k > 0 {
      IvAfterStep(iv, k - 1);
    }
  }

  /** Any list of admissible packets survives, and the reader ends on the writer's IV, one step per packet. */
  lemma {:induction false} ReadAllInvertsWriteAll(c: Aead, iv: seq<byte>, packets: seq<seq<byte>>,
                                                  paddings: seq<seq<byte>>, rest: seq<byte>)
    requires c.Valid() && |iv| == 12 && AllAdmissible(packets, paddings)
    ensures ReadAll(c, iv, WriteAll(c, iv, packets, paddings) + rest, |packets|)
         == (packets, IvAfter(iv, |packets|), rest)
    decreases packets
  {
    hide Read, Write, IncIv, PaddingLength;
    if packets == [] {
      assert [] + rest == rest;
    } else {
      ReadInvertsWrite(c, iv, packets[0], paddings[0], []);
      var first := Write(c, iv, packets[0], paddings[0]).bytes;
      var others := WriteAll(c, IncIv(iv), packets[1..], paddings[1..]);
      assert first + others + rest == first + (others + rest);
      ReadInvertsWrite(c, iv, packets[0], paddings[0], others + rest);
      ReadAllInvertsWriteAll(c, IncIv(iv), packets[1..], paddings[1..], rest);
      IvAfterStep(iv, |packets| - 1);
      assert packets == [packets[0]] + packets[1..];
    }
  }

  // ---- The object ----

  class GcmPacketCipher {
    const aead: Aead
    const iv: array<byte>

    constructor (c: Aead, start: seq<byte>)
      requires |start| == 12
      ensures aead == c && fresh(iv) && iv.Length == 12 && iv[..] == start
    {
      aead := c;
      iv := new byte[12](i requires 0 <= i < 12 => start[i]);
      new;
      assert iv[..] == start;
    }

    method WritePacket(packet: seq<byte>, random: seq<byte>) returns (out: Written)
      requires iv.Length == 12 && |random| == PaddingLength(|packet|)
      modifies iv
      ensures out == Write(aead, old(iv[..]), packet, random)
      ensures iv[..] == if out.Written? then IncIv(old(iv[..])) else old(iv[..])
    {
      PaddingLaw(|packet|, 4);
      BufferTooShort(|packet|);
      var plain := [|random|] + packet + random;
      var length := |plain| % U32_MODULUS;
      if 1 + |packet| > length {
        return WritePanics;
      }
      var prefix := PutU32(length);
      out := Written(prefix + aead.seal(iv[..], plain, prefix));
      IncIV(iv);
    }

    /** The IV steps whenever the packet authenticates, even if its padding is then refused. */
    method ReadPacket(input: seq<byte>) returns (r: ReadResult)
      requires iv.Length == 12
      modifies iv
      ensures r == Read(aead, old(iv[..]), input)
      ensures r.ReadPacket? ==> iv[..] == r.iv
      ensures r.ReadError? ==>
                iv[..] == if r.error.ShortRead? || r.error.MaxPacketExceeded? || r.error.OpenFailed? then old(iv[..])
                          else IncIv(old(iv[..]))
    {
      hide GetU32, IncIv;
      if |input| < 4 {
        return ReadError(ShortRead);
      }
      var length := GetU32(input);
      if length > MAX_PACKET {
        return ReadError(MaxPacketExceeded);
      }
      if |input| < 4 + length + TAG_SIZE {
        return ReadError(ShortRead);
      }
      var unsealed := aead.open(iv[..], input[4..4 + length + TAG_SIZE], input[..4]);
      if unsealed.None? {
        return ReadError(OpenFailed);
      }
      IncIV(iv);
      UnpadErrors(unsealed.value);
      match Unpad(unsealed.value) {
        case Bad(e) => r := ReadError(e);
        case Payload(p) => r := ReadResult.ReadPacket(p, iv[..], input[4 + length + TAG_SIZE..]);
      }
    }
  }
}
