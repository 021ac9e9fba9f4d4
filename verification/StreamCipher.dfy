/** Packets under a stream cipher, with the MAC over the plain packet or, for the
    encrypt-then-MAC algorithms, over the encrypted one (section 6 of RFC 4253). */
module StreamCipher {
  import opened Bytes
  import opened Packets

  const PACKET_SIZE_MULTIPLE: nat := 16
  const PREFIX_LEN: nat := 5

  /** The keystream by position and the MAC by sequence number and data are arbitrary functions.
      Before the first exchange there is no MAC and the keystream is zero. */
  datatype Suite = Suite(keystream: nat -> byte, hasMac: bool, mac: (nat, seq<byte>) -> seq<byte>, macSize: nat, etm: bool)
  {
    ghost predicate Valid()
    {
      && (forall n: nat, d: seq<byte> :: |mac(n, d)| == macSize)
      && (!hasMac ==> macSize == 0)
    }

    predicate Etm()
    {
      hasMac && etm
    }

    function Tag(seqNum: nat, data: seq<byte>): seq<byte>
    {
      if hasMac then mac(seqNum, data) else []
    }

    /** The octets of the packet that are not encrypted. */
    function Aad(): nat
    {
      if Etm() then 4 else 0
    }
  }

  datatype Error = PacketTooLarge | PacketTooSmall | MacFailure | ShortRead
  datatype Written = Written(bytes: seq<byte>, pos: nat) | WriteError(error: Error)
  datatype ReadResult = ReadPacket(packet: seq<byte>, pos: nat, rest: seq<byte>) | ReadError(error: Error)

  // ---- The keystream ----

  function Crypt(s: Suite, pos: nat, data: seq<byte>): (r: seq<byte>)
    ensures |r| == |data|
  {
    seq(|data|, i requires 0 <= i < |data| => XorByte(data[i], s.keystream(pos + i)))
  }

  lemma CryptTwice(s: Suite, pos: nat, data: seq<byte>)
    ensures Crypt(s, pos, Crypt(s, pos, data)) == data
  {
    forall i | 0 <= i < |data|
      ensures Crypt(s, pos, Crypt(s, pos, data))[i] == data[i]
    {
      var k := s.keystream(pos + i);
      assert XorByte(XorByte(data[i], k), k) == XorBits(XorByte(data[i], k), k, 8);
    }
  }

  lemma CryptSplit(s: Suite, pos: nat, a: seq<byte>, b: seq<byte>)
    ensures Crypt(s, pos, a + b) == Crypt(s, pos, a) + Crypt(s, pos + |a|, b)
  {
  }

  // ---- Padding ----

  function PaddingLength(aad: nat, n: nat): nat
    requires aad <= 4
  {
    var p := PACKET_SIZE_MULTIPLE - (PREFIX_LEN + n - aad) % PACKET_SIZE_MULTIPLE;
    if p < 4 then p + PACKET_SIZE_MULTIPLE else p
  }

  /** Section 6 of RFC 4253: at least four octets, and the encrypted part is a multiple of the block size;
      no shorter padding would do. */
  lemma PaddingLaw(aad: nat, n: nat, other: nat)
    requires aad <= 4
    ensures var p := PaddingLength(aad, n);
            && 4 <= p < 20 && (5 + n + p - aad) % 16 == 0
            && (other >= 4 && (5 + n + other - aad) % 16 == 0 ==> p <= other)
  {
  }

  // ---- One packet ----

  function Header(n: nat, p: nat): seq<byte>
    requires p < 256
  {
    PutU32(n + 1 + p) + [p]
  }

  /** The packet in the clear: length, padding length, payload, padding. */
  function Clear(packet: seq<byte>, padding: seq<byte>): seq<byte>
    requires |padding| < 256
  {
    Header(|packet|, |padding|) + packet + padding
  }

  /** The packet as it is sent, without its tag. */
  function Sent(s: Suite, pos: nat, clear: seq<byte>): (r: seq<byte>)
    requires |clear| >= 5
    ensures |r| == |clear|
  {
    if s.Etm() then clear[..4] + Crypt(s, pos, clear[4..]) else Crypt(s, pos, clear)
  }

  function Seal(s: Suite, pos: nat, seqNum: nat, clear: seq<byte>): seq<byte>
    requires |clear| >= 5
  {
    var sent := Sent(s, pos, clear);
    sent + s.Tag(seqNum, if s.Etm() then sent else clear)
  }

  function Write(s: Suite, pos: nat, seqNum: nat, packet: seq<byte>, padding: seq<byte>): Written
    requires |padding| == PaddingLength(s.Aad(), |packet|)
  {
    PaddingLaw(s.Aad(), |packet|, 4);
    if |packet| > MAX_PACKET then WriteError(PacketTooLarge)
    else
      var clear := Clear(packet, padding);
      Written(Seal(s, pos, seqNum, clear), pos + |clear| - s.Aad())
  }

  /** The five header octets in the clear. */
  function OpenHeader(s: Suite, pos: nat, input: seq<byte>): (r: seq<byte>)
    requires |input| >= 5
    ensures |r| == 5
  {
    if s.Etm() then input[..4] + Crypt(s, pos, input[4..5]) else Crypt(s, pos, input[..5])
  }

  function Read(s: Suite, pos: nat, seqNum: nat, input: seq<byte>): ReadResult
  {
    if |input| < PREFIX_LEN then ReadError(ShortRead)
    else
      var header := OpenHeader(s, pos, input);
      var length := GetU32(header);
      var paddingLength := header[4] as nat;
      if length <= paddingLength + 1 then ReadError(PacketTooSmall)
      else if length > MAX_PACKET then ReadError(PacketTooLarge)
      else if |input| < 4 + length + s.macSize then ReadError(ShortRead)
      else
        var sent := input[5..4 + length];
        var from := pos + PREFIX_LEN - s.Aad();
        var plain := Crypt(s, from, sent);
        var tag := input[4 + length..4 + length + s.macSize];
        var covered := if s.Etm() then input[..5] + sent else header + plain;
        if s.hasMac && s.Tag(seqNum, covered) != tag then ReadError(MacFailure)
        else ReadPacket(plain[..length - paddingLength - 1], from + |sent|, input[4 + length + s.macSize..])
  }

  // ---- Round trip ----

  /** Header and body decrypt separately to what was sealed together. */
  lemma SentOpens(s: Suite, pos: nat, clear: seq<byte>)
    requires |clear| >= 5
    ensures OpenHeader(s, pos, Sent(s, pos, clear)) == clear[..5]
    ensures Crypt(s, pos + 5 - s.Aad(), Sent(s, pos, clear)[5..]) == clear[5..]
  {
    hide Crypt;
    var k := s.Aad();
    var head, tail := clear[k..5], clear[5..];
    assert clear[k..] == head + tail;
    CryptSplit(s, pos, head, tail);
    CryptTwice(s, pos, head);
    CryptTwice(s, pos + 5 - k, tail);
    var sent := Sent(s, pos, clear);
    assert sent == clear[..k] + Crypt(s, pos, clear[k..]) by {
      assert clear[0..] == clear;
    }
    assert sent[k..5] == Crypt(s, pos, head) && sent[5..] == Crypt(s, pos + 5 - k, tail);
    assert clear[..5] == clear[..k] + head;
    assert sent[..k] == clear[..k];
    assert s.Etm() || sent[..5] == sent[k..5];
  }

  lemma HeaderLocal(s: Suite, pos: nat, a: seq<byte>, rest: seq<byte>)
    requires |a| >= 5
    ensures OpenHeader(s, pos, a + rest) == OpenHeader(s, pos, a)
  {
    assert (a + rest)[..5] == a[..5] && (a + rest)[..4] == a[..4] && (a + rest)[4..5] == a[4..5];
  }

  /** The parts of a sealed packet as the reader cuts them out of its input. */
  lemma SealShape(s: Suite, pos: nat, seqNum: nat, clear: seq<byte>, rest: seq<byte>)
    requires s.Valid() && |clear| >= 5
    ensures var input := Seal(s, pos, seqNum, clear) + rest;
            && |input| == |clear| + s.macSize + |rest|
            && OpenHeader(s, pos, input) == clear[..5]
            && Crypt(s, pos + 5 - s.Aad(), input[5..|clear|]) == clear[5..]
            && input[|clear|..|clear| + s.macSize]
               == s.Tag(seqNum, if s.Etm() then input[..5] + input[5..|clear|] else clear)
            && input[|clear| + s.macSize..] == rest
  {
    hide Crypt, OpenHeader;
    var sent := Sent(s, pos, clear);
    var tag := s.Tag(seqNum, if s.Etm() then sent else clear);
    var input := Seal(s, pos, seqNum, clear) + rest;
    assert |tag| == s.macSize;
    assert input == sent + (tag + rest);
    SentOpens(s, pos, clear);
    HeaderLocal(s, pos, sent, tag + rest);
    assert input[5..|clear|] == sent[5..];
    assert input[..5] + input[5..|clear|] == sent;
    assert input[|clear|..|clear| + s.macSize] == tag;
  }

  lemma ClearShape(packet: seq<byte>, padding: seq<byte>)
    requires |padding| < 256 && |packet| <= MAX_PACKET
    ensures var clear := Clear(packet, padding);
            && |clear| == 5 + |packet| + |padding|
            && GetU32(clear[..5]) == |packet| + 1 + |padding| && clear[4] == |padding|
            && clear[5..][..|packet|] == packet
  {
    var clear := Clear(packet, padding);
    assert clear[..5] == PutU32(|packet| + 1 + |padding|) + [|padding|];
    GetPutU32(|packet| + 1 + |padding|, [|padding|]);
  }

  /** What the MAC of a packet covers. */
  function Covered(s: Suite, pos: nat, clear: seq<byte>): seq<byte>
    requires |clear| >= 5
  {
    if s.Etm() then Sent(s, pos, clear) else clear
  }

  /** What the reader makes of a sealed packet depends on its two lengths and on the MAC for the number it expects. */
  lemma ReadSealed(s: Suite, pos: nat, seqNum: nat, other: nat, clear: seq<byte>, length: nat, p: nat, rest: seq<byte>)
    requires s.Valid() && |clear| == 4 + length && length >= 1 + p
    requires GetU32(clear[..5]) == length && clear[4] == p
    ensures Read(s, pos, other, Seal(s, pos, seqNum, clear) + rest)
         == if length <= p + 1 then ReadError(PacketTooSmall)
            else if length > MAX_PACKET then ReadError(PacketTooLarge)
            else if s.hasMac && s.Tag(other, Covered(s, pos, clear)) != s.Tag(seqNum, Covered(s, pos, clear)) then ReadError(MacFailure)
            else ReadPacket(clear[5..][..length - p - 1], pos + |clear| - s.Aad(), rest)
  {
    SealCut(s, pos, seqNum, clear, rest);
    hide Seal, OpenHeader, Crypt, GetU32, Sent;
    SealShape(s, pos, seqNum, clear, rest);
    assert clear == clear[..5] + clear[5..];
  }

  lemma SealCut(s: Suite, pos: nat, seqNum: nat, clear: seq<byte>, rest: seq<byte>)
    requires |clear| >= 5
    ensures var input := Seal(s, pos, seqNum, clear) + rest;
            |input| >= |clear| && input[..5] + input[5..|clear|] == Sent(s, pos, clear)
  {
    hide Crypt, Sent;
    var input := Seal(s, pos, seqNum, clear) + rest;
    assert input[..|clear|] == Sent(s, pos, clear) && input[..5] + input[5..|clear|] == input[..|clear|];
  }

  /** A written packet is read back, leaving reader and writer at the same keystream position and the
      rest of the input untouched, exactly when it is not empty and fits with its padding. */
  lemma ReadInvertsWrite(s: Suite, pos: nat, seqNum: nat, packet: seq<byte>, padding: seq<byte>, rest: seq<byte>)
    requires s.Valid() && |padding| == PaddingLength(s.Aad(), |packet|) && |packet| <= MAX_PACKET
    ensures var w := Write(s, pos, seqNum, packet, padding);
            && w.Written?
            && (Read(s, pos, seqNum, w.bytes + rest) == ReadPacket(packet, w.pos, rest)
                <==> packet != [] && |packet| + 1 + |padding| <= MAX_PACKET)
            && (packet == [] ==> Read(s, pos, seqNum, w.bytes + rest) == ReadError(PacketTooSmall))
            && (|packet| + 1 + |padding| > MAX_PACKET ==> Read(s, pos, seqNum, w.bytes + rest) == ReadError(PacketTooLarge))
  {
    PaddingLaw(s.Aad(), |packet|, 4);
    hide Seal, Clear, Read, GetU32, PaddingLength;
    ClearShape(packet, padding);
    ReadSealed(s, pos, seqNum, seqNum, Clear(packet, padding), |packet| + 1 + |padding|, |padding|, rest);
  }

  lemma SentOctets(s: Suite, pos: nat, clear: seq<byte>)
    requires |clear| >= 5
    ensures var plain := if s.hasMac && s.etm then 4 else 0;
            forall i :: 0 <= i < |clear| ==>
              Sent(s, pos, clear)[i] == if i < plain then clear[i] else XorByte(clear[i], s.keystream(pos + i - plain))
  {
  }

  /** The packet in the clear, as section 6 of RFC 4253 lays it out. */
  lemma ClearOctets(packet: seq<byte>, padding: seq<byte>)
    requires |padding| < 256
    ensures Clear(packet, padding) == PutU32(1 + |packet| + |padding|) + [|padding|] + packet + padding
  {
  }

  lemma SealOctets(s: Suite, pos: nat, seqNum: nat, clear: seq<byte>)
    requires s.Valid() && |clear| >= 5
    ensures var sealed := Seal(s, pos, seqNum, clear);
            && |sealed| == |clear| + s.macSize && sealed[..|clear|] == Sent(s, pos, clear)
            && (s.hasMac ==> sealed[|clear|..] == s.mac(seqNum, if s.etm then sealed[..|clear|] else clear))
  {
    hide Sent;
  }

  /** The octets on the wire: the packet, all under the keystream except the length of an encrypt-then-MAC packet; then
      the MAC of the sequence number and the clear packet or, for encrypt-then-MAC, the packet as sent. */
  lemma WrittenOctets(s: Suite, pos: nat, seqNum: nat, packet: seq<byte>, padding: seq<byte>)
    requires s.Valid() && |padding| == PaddingLength(s.Aad(), |packet|) && |packet| <= MAX_PACKET
    ensures |padding| < 256
    ensures var w := Write(s, pos, seqNum, packet, padding);
            var clear := PutU32(1 + |packet| + |padding|) + [|padding|] + packet + padding;
            var plain := if s.hasMac && s.etm then 4 else 0;
            && w.Written? && |w.bytes| == |clear| + s.macSize && w.pos == pos + |clear| - plain
            && (forall i :: 0 <= i < |clear| ==>
                  w.bytes[i] == if i < plain then clear[i] else XorByte(clear[i], s.keystream(pos + i - plain)))
            && (s.hasMac ==> w.bytes[|clear|..] == s.mac(seqNum, if s.etm then w.bytes[..|clear|] else clear))
  {
    PaddingLaw(s.Aad(), |packet|, 4);
    hide PaddingLength, PutU32, Sent, Seal, Clear, XorByte, Suite.Valid;
    ClearOctets(packet, padding);
    var clear := Clear(packet, padding);
    SentOctets(s, pos, clear);
    SealOctets(s, pos, seqNum, clear);
    assert forall i :: 0 <= i < |clear| ==> Seal(s, pos, seqNum, clear)[i] == Seal(s, pos, seqNum, clear)[..|clear|][i];
  }

  lemma ReadUnder(s: Suite, pos: nat, seqNum: nat, other: nat, packet: seq<byte>, padding: seq<byte>, rest: seq<byte>)
    requires s.Valid() && s.hasMac && packet != [] && |padding| < 256 && |packet| + 1 + |padding| <= MAX_PACKET
    ensures var clear := Clear(packet, padding);
            && |clear| >= 5
            && var covered := Covered(s, pos, clear);
               Read(s, pos, other, Seal(s, pos, seqNum, clear) + rest)
               == if s.mac(other, covered) == s.mac(seqNum, covered) then ReadPacket(packet, pos + |clear| - s.Aad(), rest)
                  else ReadError(MacFailure)
  {
    hide PutU32, GetU32, Covered, Seal, Clear, Read, Suite.Valid;
    ClearShape(packet, padding);
    ReadSealed(s, pos, seqNum, other, Clear(packet, padding), |packet| + 1 + |padding|, |padding|, rest);
  }

  /** Read under another number, a written packet passes exactly when the MAC is the same there too. */
  lemma NumberMatters(s: Suite, pos: nat, seqNum: nat, other: nat, packet: seq<byte>, padding: seq<byte>, rest: seq<byte>)
    requires s.Valid() && s.hasMac && Admissible(s, packet) && |padding| == PaddingLength(s.Aad(), |packet|)
    ensures |padding| < 256
    ensures var w := Write(s, pos, seqNum, packet, padding);
            var clear := PutU32(1 + |packet| + |padding|) + [|padding|] + packet + padding;
            && w.Written? && |clear| <= |w.bytes|
            && var covered := if s.etm then w.bytes[..|clear|] else clear;
               Read(s, pos, other, w.bytes + rest)
               == if s.mac(other, covered) == s.mac(seqNum, covered) then ReadPacket(packet, w.pos, rest) else ReadError(MacFailure)
  {
    PaddingLaw(s.Aad(), |packet|, 4);
    hide PaddingLength, PutU32, GetU32, Sent, Seal, Clear, Read, Suite.Valid;
    ClearOctets(packet, padding);
    SealOctets(s, pos, seqNum, Clear(packet, padding));
    ReadUnder(s, pos, seqNum, other, packet, padding, rest);
  }

  // ---- A list of packets ----

  predicate Admissible(s: Suite, packet: seq<byte>)
  {
    packet != [] && |packet| + 1 + PaddingLength(s.Aad(), |packet|) <= MAX_PACKET
  }

  predicate AllAdmissible(s: Suite, packets: seq<seq<byte>>, paddings: seq<seq<byte>>)
  {
    && |packets| == |paddings|
    && forall i :: 0 <= i < |packets| ==>
         Admissible(s, packets[i]) && |paddings[i]| == PaddingLength(s.Aad(), |packets[i]|)
  }

  function WriteAll(s: Suite, pos: nat, seqNum: nat, packets: seq<seq<byte>>, paddings: seq<seq<byte>>): (seq<byte>, nat)
    requires AllAdmissible(s, packets, paddings)
    decreases packets
  {
    if packets == [] then ([], pos)
    else
      var w := Write(s, pos, seqNum, packets[0], paddings[0]);
      var (bytes, end) := WriteAll(s, w.pos, NextSeq(seqNum), packets[1..], paddings[1..]);
      (w.bytes + bytes, end)
  }

  /** Reads `n` packets, or fewer if one cannot be read. */
  function ReadAll(s: Suite, pos: nat, seqNum: nat, input: seq<byte>, n: nat): (seq<seq<byte>>, nat, seq<byte>)
    decreases n
  {
    if n == 0 then ([], pos, input)
    else
      match Read(s, pos, seqNum, input)
      case ReadError(_) => ([], pos, input)
      case ReadPacket(p, pos', rest) =>
        var (ps, end, left) := ReadAll(s, pos', NextSeq(seqNum), rest, n - 1);
        ([p] + ps, end, left)
  }

  /** Any list of admissible packets survives any number of packets, keystream and sequence numbers in step. */
  lemma {:induction false} ReadAllInvertsWriteAll(s: Suite, pos: nat, seqNum: nat, packets: seq<seq<byte>>,
                                                  paddings: seq<seq<byte>>, rest: seq<byte>)
    requires s.Valid() && AllAdmissible(s, packets, paddings)
    ensures var (bytes, end) := WriteAll(s, pos, seqNum, packets, paddings);
            ReadAll(s, pos, seqNum, bytes + rest, |packets|) == (packets, end, rest)
    decreases packets
  {
    hide Read, Write, PaddingLength;
    if packets != [] {
      WriteAdmissible(s, pos, seqNum, packets[0], paddings[0]);
      var w := Write(s, pos, seqNum, packets[0], paddings[0]);
      var (bytes, end) := WriteAll(s, w.pos, NextSeq(seqNum), packets[1..], paddings[1..]);
      ReadInvertsWrite(s, pos, seqNum, packets[0], paddings[0], bytes + rest);
      ReadAllInvertsWriteAll(s, w.pos, NextSeq(seqNum), packets[1..], paddings[1..], rest);
      assert w.bytes + bytes + rest == w.bytes + (bytes + rest);
      assert packets == [packets[0]] + packets[1..];
    } else {
      assert [] + rest == rest;
    }
  }

  lemma WriteAdmissible(s: Suite, pos: nat, seqNum: nat, packet: seq<byte>, padding: seq<byte>)
    requires Admissible(s, packet) && |padding| == PaddingLength(s.Aad(), |packet|)
    ensures Write(s, pos, seqNum, packet, padding).Written?
  {
  }

  // ---- The object, working in place ----

  class StreamPacketCipher {
    const suite: Suite
    var pos: nat                    // how much of the keystream has been used
    const prefix: array<byte>
    const padding: array<byte>

    constructor (s: Suite)
      ensures suite == s && pos == 0 && fresh(prefix) && fresh(padding) && prefix != padding
      ensures prefix.Length == 5 && padding.Length == 32
    {
      suite, pos := s, 0;
      prefix := new byte[5](_ => 0);
      padding := new byte[32](_ => 0);
    }

    /** Encrypts `buf[from..to]` where it stands. */
    method XorKeyStream(buf: array<byte>, from: nat, to: nat)
      requires from <= to <= buf.Length
      modifies `pos, buf
      ensures pos == old(pos) + to - from
      ensures buf[..from] == old(buf[..from]) && buf[to..] == old(buf[to..])
      ensures buf[from..to] == Crypt(suite, old(pos), old(buf[from..to]))
    {
      ghost var before := buf[..];
      for i := from to to
        invariant pos == old(pos) && buf[..from] == before[..from] && buf[i..] == before[i..]
        invariant forall k :: from <= k < i ==> buf[k] == XorByte(before[k], suite.keystream(pos + k - from))
      {
        buf[i] := XorByte(buf[i], suite.keystream(pos + i - from));
      }
      assert buf[from..to] == Crypt(suite, pos, before[from..to]);
      pos := pos + to - from;
    }

    method PutHeader(length: nat, paddingLength: byte)
      requires prefix.Length == 5
      modifies prefix
      ensures prefix[..] == PutU32(length) + [paddingLength]
    {
      var b := PutU32(length);
      prefix[0], prefix[1], prefix[2], prefix[3], prefix[4] := b[0], b[1], b[2], b[3], paddingLength;
      assert prefix[..] == b + [paddingLength];
    }

    ghost predicate Separate(packet: array<byte>)
    {
      prefix.Length == 5 && padding.Length == 32 && prefix != padding && packet != prefix && packet != padding
    }

    /** Header, packet and padding one after the other, each where it stands. */
    method EncryptParts(packet: array<byte>, n: nat)
      requires Separate(packet) && n <= 32
      modifies `pos, prefix, padding, packet
      ensures prefix[..] + packet[..] + padding[..n]
           == Sent(suite, old(pos), old(prefix[..] + packet[..] + padding[..n]))
      ensures pos == old(pos) + 5 - suite.Aad() + packet.Length + n
    {
      hide Crypt, Sent;
      ghost var k, header, payload, filler := suite.Aad(), prefix[..], packet[..], padding[..n];
      SealInPieces(suite, pos, header, payload, filler);
      assert prefix[k..5] == header[k..];
      XorKeyStream(prefix, suite.Aad(), 5);
      assert prefix[..] == prefix[..k] + prefix[k..5];
      assert packet[0..packet.Length] == payload;
      XorKeyStream(packet, 0, packet.Length);
      assert packet[..] == packet[0..packet.Length];
      assert padding[0..n] == filler;
      XorKeyStream(padding, 0, n);
      assert padding[..n] == padding[0..n];
    }

    /** Encrypts the packet in place and emits prefix, packet, padding and tag. */
    method WritePacket(seqNum: nat, packet: array<byte>, random: seq<byte>) returns (out: Written)
      requires Separate(packet) && |random| == PaddingLength(suite.Aad(), packet.Length)
      modifies `pos, prefix, padding, packet
      ensures out == Write(suite, old(pos), seqNum, old(packet[..]), random)
      ensures out.Written? ==> pos == out.pos
      ensures out.WriteError? ==> pos == old(pos) && packet[..] == old(packet[..])
    {
      PaddingLaw(suite.Aad(), packet.Length, 4);
      hide Crypt, Sent, PutU32, PaddingLength;
      if packet.Length > MAX_PACKET {
        return WriteError(PacketTooLarge);
      }
      PutHeader(packet.Length + 1 + |random|, |random|);
      CopyPadding(random);
      var plain := prefix[..] + packet[..] + padding[..|random|];
      assert plain == Clear(packet[..], random);
      EncryptParts(packet, |random|);
      var sent := prefix[..] + packet[..] + padding[..|random|];
      var tag := suite.Tag(seqNum, if suite.Etm() then sent else plain);
      out := Written(sent + tag, pos);
    }

    /** Reads the header, decides on it, then reads and decrypts the body; the tag is compared last. */
    method ReadPacket(seqNum: nat, input: seq<byte>) returns (r: ReadResult)
      requires prefix.Length == 5
      modifies `pos, prefix
      ensures r == Read(suite, old(pos), seqNum, input)
      ensures r.ReadPacket? ==> pos == r.pos
    {
      hide Crypt, GetU32;
      if |input| < PREFIX_LEN {
        return ReadError(ShortRead);
      }
      OpenPrefix(input[..5]);
      var header := prefix[..];
      assert header == OpenHeader(suite, old(pos), input) by {
        HeaderLocal(suite, old(pos), input[..5], input[5..]);
        assert input[..5] + input[5..] == input;
      }
      var length, paddingLength := GetU32(header), header[4] as nat;
      if length <= paddingLength + 1 {
        return ReadError(PacketTooSmall);
      }
      if length > MAX_PACKET {
        return ReadError(PacketTooLarge);
      }
      if |input| < 4 + length + suite.macSize {
        return ReadError(ShortRead);
      }
      var sent := input[5..4 + length];
      var data := new byte[length - 1](i requires 0 <= i < length - 1 => sent[i]);
      assert data[0..data.Length] == sent;
      XorKeyStream(data, 0, data.Length);
      var plain := data[..];
      assert plain == data[0..data.Length];
      assert plain == Crypt(suite, old(pos) + PREFIX_LEN - suite.Aad(), sent);
      var tag := input[4 + length..4 + length + suite.macSize];
      if suite.hasMac && suite.Tag(seqNum, if suite.Etm() then input[..5] + sent else header + plain) != tag {
        return ReadError(MacFailure);
      }
      return ReadResult.ReadPacket(plain[..length - paddingLength - 1], pos, input[4 + length + suite.macSize..]);
    }

    method OpenPrefix(bytes: seq<byte>)
      requires prefix.Length == 5 && |bytes| == 5
      modifies `pos, prefix
      ensures prefix[..] == OpenHeader(suite, old(pos), bytes) && pos == old(pos) + 5 - suite.Aad()
    {
      hide Crypt;
      prefix[0], prefix[1], prefix[2], prefix[3], prefix[4] := bytes[0], bytes[1], bytes[2], bytes[3], bytes[4];
      assert prefix[..] == bytes && bytes[..5] == bytes;
      assert prefix[suite.Aad()..5] == bytes[suite.Aad()..5];
      XorKeyStream(prefix, suite.Aad(), 5);
      assert prefix[..] == prefix[..suite.Aad()] + prefix[suite.Aad()..5];
      assert bytes[0..5] == bytes[..5];
    }

    method CopyPadding(random: seq<byte>)
      requires |random| <= padding.Length
      modifies padding
      ensures padding[..|random|] == random
    {
      for i := 0 to |random|
        invariant padding[..i] == random[..i]
      {
        padding[i] := random[i];
      }
    }
  }

  /** Encrypting header, payload and padding one after the other is encrypting them together. */
  lemma SealInPieces(s: Suite, pos: nat, header: seq<byte>, payload: seq<byte>, padding: seq<byte>)
    requires |header| == 5
    ensures var k := s.Aad();
            Sent(s, pos, header + payload + padding)
            == header[..k] + Crypt(s, pos, header[k..]) + Crypt(s, pos + 5 - k, payload)
               + Crypt(s, pos + 5 - k + |payload|, padding)
  {
    hide Crypt;
    var k := s.Aad();
    var clear := header + payload + padding;
    assert clear[k..] == header[k..] + (payload + padding);
    CryptSplit(s, pos, header[k..], payload + padding);
    CryptSplit(s, pos + 5 - k, payload, padding);
    assert Sent(s, pos, clear) == clear[..k] + Crypt(s, pos, clear[k..]) by {
      assert clear[0..] == clear;
    }
    assert clear[..k] == header[..k];
  }
}
