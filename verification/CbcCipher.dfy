/** Packets under a block cipher in CBC mode. On a verification error the reader goes on
    reading, so that the amount it consumed does not tell which check failed. */
module CbcCipher {
  import opened Arithmetic
  import opened Bytes
  import opened Packets
  import opened Sequences

  /** Any block permutation with its inverse, and any MAC. The MAC may be the front of a longer sum of `sumSize` octets. */
  datatype Suite = Suite(size: nat, enc: seq<byte> -> seq<byte>, dec: seq<byte> -> seq<byte>,
                         hasMac: bool, mac: (nat, seq<byte>) -> seq<byte>, macSize: nat, sumSize: nat)
  {
    ghost predicate Valid()
    {
      && (size == 8 || size == 16)
      && (forall x: seq<byte> {:trigger enc(x)} :: |x| == size ==> |enc(x)| == size)
      && (forall x: seq<byte> {:trigger dec(x)} :: |x| == size ==> |dec(x)| == size)
      && (forall x: seq<byte> {:trigger enc(x)} :: |x| == size ==> dec(enc(x)) == x)
      && (forall n: nat, d: seq<byte> :: |mac(n, d)| == macSize)
      && (hasMac || sumSize == 0)
      && macSize <= sumSize <= 32
    }

    function Tag(seqNum: nat, data: seq<byte>): seq<byte>
    {
      if hasMac then mac(seqNum, data) else []
    }

    /** Octets read before the length is known. */
    function First(): nat
      requires size > 0
    {
      (5 + size - 1) / size * size
    }
  }

  function Max(a: nat, b: nat): nat
  {
    if a > b then a else b
  }

  /** Whole blocks of eight or sixteen octets. */
  predicate Blocks(size: nat, data: seq<byte>)
  {
    if size == 8 then |data| % 8 == 0 else size == 16 && |data| % 16 == 0
  }

  // ---- Chaining ----

  lemma DropBlock(size: nat, data: seq<byte>)
    requires Blocks(size, data) && data != []
    ensures |data| >= size && Blocks(size, data[size..])
  {
  }

  function Encrypt(s: Suite, chain: seq<byte>, data: seq<byte>): (r: seq<byte>)
    requires s.Valid() && |chain| == s.size && Blocks(s.size, data)
    ensures |r| == |data|
    decreases |data|
  {
    if data == [] then []
    else
      DropBlock(s.size, data);
      var c := s.enc(Xor(data[..s.size], chain));
      c + Encrypt(s, c, data[s.size..])
  }

  function Decrypt(s: Suite, chain: seq<byte>, data: seq<byte>): (r: seq<byte>)
    requires s.Valid() && |chain| == s.size && Blocks(s.size, data)
    ensures |r| == |data|
    decreases |data|
  {
    if data == [] then []
    else
      DropBlock(s.size, data);
      Xor(s.dec(data[..s.size]), chain) + Decrypt(s, data[..s.size], data[s.size..])
  }

  /** The chaining value after some ciphertext: its last block. */
  function ChainAfter(size: nat, chain: seq<byte>, sent: seq<byte>): (r: seq<byte>)
    requires |chain| == size && Blocks(size, sent)
    ensures |r| == size
  {
    if sent == [] then chain
    else
      DropBlock(size, sent);
      sent[|sent| - size..]
  }

  lemma {:induction false} DecryptInvertsEncrypt(s: Suite, chain: seq<byte>, data: seq<byte>)
    requires s.Valid() && |chain| == s.size && Blocks(s.size, data)
    ensures Blocks(s.size, Encrypt(s, chain, data)) && Decrypt(s, chain, Encrypt(s, chain, data)) == data
    decreases |data|
  {
    if data != [] {
      DropBlock(s.size, data);
      var x := Xor(data[..s.size], chain);
      var c := s.enc(x);
      var sent := Encrypt(s, chain, data);
      assert sent[..s.size] == c && sent[s.size..] == Encrypt(s, c, data[s.size..]);
      DecryptInvertsEncrypt(s, c, data[s.size..]);
      XorInvolutive(data[..s.size], chain);
      Cut(data, s.size);
    }
  }

  lemma DecryptFirst(s: Suite, chain: seq<byte>, first: seq<byte>, rest: seq<byte>)
    requires s.Valid() && |chain| == s.size && |first| == s.size && Blocks(s.size, rest)
    ensures Blocks(s.size, first + rest) && |s.dec(first)| == s.size
    ensures Decrypt(s, chain, first + rest) == Xor(s.dec(first), chain) + Decrypt(s, first, rest)
  {
    hide Xor;
    var data := first + rest;
    SplitConcat(first, rest, data);
  }

  /** Decrypting the first block alone and the rest from its chaining value is decrypting at once. */
  lemma DecryptInPieces(s: Suite, chain: seq<byte>, first: seq<byte>, rest: seq<byte>)
    requires s.Valid() && |chain| == s.size && |first| == s.size && Blocks(s.size, rest)
    ensures Blocks(s.size, first) && Blocks(s.size, first + rest) && ChainAfter(s.size, chain, first) == first
    ensures Decrypt(s, chain, first + rest) == Decrypt(s, chain, first) + Decrypt(s, first, rest)
  {
    hide Decrypt, Xor;
    DecryptFirst(s, chain, first, rest);
    DecryptFirst(s, chain, first, []);
    assert first + [] == first;
    DecryptNothing(s, first);
    assert Xor(s.dec(first), chain) + [] == Xor(s.dec(first), chain);
  }

  lemma DecryptNothing(s: Suite, chain: seq<byte>)
    requires s.Valid() && |chain| == s.size
    ensures Decrypt(s, chain, []) == []
  {
  }

  // ---- One packet ----

  datatype Error = TooLarge | TooSmall | BadMultiple | BadLength | MacFailure

  /** What the leaky reader found: `used` octets read, and how many the camouflage still has to read. */
  datatype Leaky =
    | Verified(packet: seq<byte>, chain: seq<byte>, used: nat, camouflage: nat)
    | Refused(error: Error, used: nat, camouflage: nat)
    | Short

  datatype ReadResult =
    | ReadPacket(packet: seq<byte>, chain: seq<byte>, consumed: nat)
    | CbcError(error: Error, consumed: nat)
    | ShortRead

  /** Header, payload and padding together: nine octets more than the payload, rounded up. */
  function EncLength(size: nat, n: nat): nat
    requires size > 0
  {
    var b := Max(8, size);
    (Max(5 + n + 4, 4) + b - 1) / b * b
  }

  function PaddingLength(size: nat, n: nat): int
    requires size > 0
  {
    EncLength(size, n) - 4 - (1 + n)
  }

  /** Section 6 of RFC 4253: at least four octets of padding, the smallest count that fills
      whole blocks, and at least sixteen octets in all. */
  lemma PaddingLaw(size: nat, n: nat, other: nat)
    requires size == 8 || size == 16
    ensures var p := PaddingLength(size, n);
            && 4 <= p < 4 + size && (5 + n + p) % size == 0 && 5 + n + p >= 16
            && (other >= 4 && (5 + n + other) % size == 0 ==> p <= other)
  {
    RoundUp(9 + n, size, 5 + n + other);
    RoundUp(9 + n, size, 16);
    FillsBlock(size, EncLength(size, n));
  }

  lemma FillsBlock(size: nat, r: nat)
    requires (size == 8 || size == 16) && r >= 9 && r % size == 0
    ensures r >= 16
  {
  }

  function Clear(packet: seq<byte>, padding: seq<byte>): seq<byte>
    requires |padding| < 256
  {
    PutU32(1 + |packet| + |padding|) + [|padding|] + packet + padding
  }

  lemma ClearBlocks(s: Suite, packet: seq<byte>, padding: seq<byte>)
    requires s.Valid() && |padding| == PaddingLength(s.size, |packet|)
    ensures 4 <= |padding| < 20 && Blocks(s.size, Clear(packet, padding)) && |Clear(packet, padding)| >= 16
    ensures |Clear(packet, padding)| == EncLength(s.size, |packet|)
  {
    hide PutU32;
    PaddingLaw(s.size, |packet|, 4);
  }

  datatype Written = Written(bytes: seq<byte>, chain: seq<byte>) | WritePanics

  /** The same in 32 bits, as the writer computes it for its buffer. */
  function BufferLength(size: nat, n: nat): int
    requires size > 0
  {
    var b := Max(8, size);
    (Max(5 + n + 4, 4) % U32_MODULUS + b - 1) % U32_MODULUS / b * b
  }

  /** Header and payload fit in the buffer. */
  predicate Fits(size: nat, n: nat)
    requires size > 0
  {
    5 + n <= BufferLength(size, n)
  }

  /** They do exactly when no sum exceeds 32 bits, and then the buffer is as long as it should be. */
  lemma FitsIff(size: nat, n: nat)
    requires size == 8 || size == 16
    ensures Fits(size, n) <==> 9 + n + size - 1 < U32_MODULUS
    ensures Fits(size, n) ==> BufferLength(size, n) == EncLength(size, n) < U32_MODULUS
  {
    var e := (9 + n) % U32_MODULUS;
    var sum := (e + size - 1) % U32_MODULUS;
    assert BufferLength(size, n) == sum / size * size;
    LowBitsBound(9 + n);
    LowBitsBound(e + size - 1);
    RoundDown(sum, size);
    RoundUp(9 + n, size, 0);
    if 9 + n + size - 1 < U32_MODULUS {
      assert sum == 9 + n + size - 1;
    } else if 9 + n < U32_MODULUS {
      assert sum < size && sum / size == 0;
    }
  }

  lemma LowBitsBound(n: nat)
    ensures n < U32_MODULUS ==> n % U32_MODULUS == n
    ensures n >= U32_MODULUS ==> n % U32_MODULUS <= n - U32_MODULUS
  {
    if n >= U32_MODULUS {
      assert n == n / U32_MODULUS * U32_MODULUS + n % U32_MODULUS;
      assert n / U32_MODULUS >= 1;
    }
  }

  lemma RoundDown(n: nat, m: nat)
    requires m > 0
    ensures n / m * m <= n
  {
  }

  // ---- The buffer ----

  const INITIAL_CAPACITY: nat := 1024

  /** Room for the MAC is reserved behind the packet, again in 32 bits. */
  function BufferSize(size: nat, macSize: nat, n: nat): nat
    requires size > 0
  {
    (BufferLength(size, n) + macSize) % U32_MODULUS
  }

  /** A new buffer is made when the capacity, cut to 32 bits, is below the wanted size. */
  predicate MakesNew(capacity: nat, wanted: nat)
  {
    capacity % U32_MODULUS < wanted
  }

  function TakenCapacity(capacity: nat, wanted: nat): nat
  {
    if MakesNew(capacity, wanted) then wanted else capacity
  }

  /** Neither making nor slicing the buffer is out of range, and header and payload fit in it. */
  predicate Writable(size: nat, macSize: nat, n: nat, capacity: nat)
    requires size > 0
  {
    Fits(size, n) && BufferLength(size, n) <= TakenCapacity(capacity, BufferSize(size, macSize, n))
  }

  /** While packet and MAC together stay below 2^32 the capacity does not matter. Above, the buffer is not made anew
      for them, so the old one must hold the packet; and if its capacity has outgrown 32 bits, the rest must not be
      small enough to ask for a new one. */
  lemma WritableIff(size: nat, macSize: nat, n: nat, capacity: nat)
    requires (size == 8 || size == 16) && macSize <= 32
    ensures Writable(size, macSize, n, capacity) <==>
            && 9 + n + size - 1 < U32_MODULUS
            && var over := EncLength(size, n) + macSize - U32_MODULUS;
               over >= 0 ==> EncLength(size, n) <= capacity && over <= capacity % U32_MODULUS
    ensures capacity < U32_MODULUS ==>
              (Writable(size, macSize, n, capacity) <==>
                Fits(size, n) && (EncLength(size, n) + macSize < U32_MODULUS || EncLength(size, n) <= capacity))
    ensures Writable(size, macSize, n, capacity) ==> 16 <= EncLength(size, n) == BufferLength(size, n)
  {
    FitsIff(size, n);
    if Fits(size, n) {
      PaddingLaw(size, n, 4);
      var length := EncLength(size, n);
      hide EncLength, BufferLength, Fits;
      LowBitsBound(length + macSize);
      LowBitsBound(capacity);
      if length + macSize >= U32_MODULUS {
        assert (length + macSize) % U32_MODULUS == length + macSize - U32_MODULUS;
      }
    }
  }

  /** What the buffer can hold after a packet was written; appending the MAC may move it to a place of size `grown`. */
  function CapacityAfter(s: Suite, n: nat, capacity: nat, grown: nat): nat
    requires s.size > 0
  {
    var taken := TakenCapacity(capacity, BufferSize(s.size, s.macSize, n));
    if BufferLength(s.size, n) + s.sumSize <= taken then taken else grown
  }

  /** The tag covers the clear packet and is sent unencrypted. There is no length check. */
  function Write(s: Suite, chain: seq<byte>, capacity: nat, seqNum: nat, packet: seq<byte>, padding: seq<byte>): (w: Written)
    requires s.Valid() && |chain| == s.size
    requires Writable(s.size, s.macSize, |packet|, capacity) ==> |padding| == PaddingLength(s.size, |packet|)
    ensures w.Written? ==> |w.chain| == s.size
  {
    if !Writable(s.size, s.macSize, |packet|, capacity) then WritePanics
    else
      ClearBlocks(s, packet, padding);
      var clear := Clear(packet, padding);
      var crypted := Encrypt(s, chain, clear);
      Written(crypted + s.Tag(seqNum, clear), ChainAfter(s.size, chain, crypted))
  }

  /** A packet that is nowhere too long for its own length, on a new cipher: the size of the buffer wraps to four,
      so none is made, and the slice of the first one is out of range. */
  lemma CapacityTooSmall(s: Suite, chain: seq<byte>, seqNum: nat, packet: seq<byte>, padding: seq<byte>)
    requires s.Valid() && s.size == 16 == |chain| && s.macSize == 20 && |packet| == U32_MODULUS - 25
    ensures Fits(16, |packet|) && BufferLength(16, |packet|) == U32_MODULUS - 16 && BufferSize(16, 20, |packet|) == 4
    ensures !Writable(16, 20, |packet|, 1024)
    ensures Write(s, chain, 1024, seqNum, packet, padding) == WritePanics
  {
    WritableIff(16, 20, |packet|, 1024);
  }

  /** The four checks on the first block, in the order the reader makes them. */
  function CheckHeader(size: nat, length: nat, padding: nat): (r: seq<Error>)
    requires size > 0
    ensures |r| <= 1
    ensures r == [] <==> length <= MAX_PACKET && length + 4 >= Max(16, size) && (length + 4) % Max(8, size) == 0
                         && 4 <= padding && padding + 1 < length
  {
    if length > MAX_PACKET then [TooLarge]
    else if length + 4 < Max(16, size) then [TooSmall]
    else if (length + 4) % Max(8, size) != 0 then [BadMultiple]
    else if padding < 4 || length <= padding + 1 then [BadLength]
    else []
  }

  /** Which check refuses a header: the size first, then the block length, then the padding. */
  lemma HeaderErrors(size: nat, length: nat, padding: nat)
    requires size == 8 || size == 16
    ensures var r := CheckHeader(size, length, padding);
            && (r == [TooLarge] <==> length > 0x4_0000)
            && (r == [TooSmall] <==> length < 12)
            && (r == [BadMultiple] <==> 12 <= length <= 0x4_0000 && (length + 4) % size != 0)
            && (r == [BadLength] <==>
                  12 <= length <= 0x4_0000 && (length + 4) % size == 0 && (padding < 4 || length <= padding + 1))
  {
  }

  lemma RestBlocks(size: nat, n: nat)
    requires (size == 8 || size == 16) && n >= 16 && n % Max(8, size) == 0
    ensures (n - size) % size == 0
  {
  }

  lemma SuiteSizes(s: Suite, seqNum: nat, data: seq<byte>)
    requires s.Valid()
    ensures (s.size == 8 || s.size == 16) && |s.Tag(seqNum, data)| == s.macSize <= 32
  {
  }

  lemma FirstIsOneBlock(s: Suite)
    requires s.Valid()
    ensures s.First() == s.size
  {
  }

  /** The MAC check and the payload, once all of the packet is there. */
  function Finish(s: Suite, seqNum: nat, clear: seq<byte>, padding: nat, tag: seq<byte>, chain: seq<byte>, camouflage: nat): Leaky
    requires 5 + padding <= |clear|
  {
    var used := |clear| + |tag|;
    if s.hasMac && s.Tag(seqNum, clear) != tag then Refused(MacFailure, used, camouflage)
    else Verified(clear[5..|clear| - padding], chain, used, camouflage)
  }

  /** The rest of a packet whose first block passed: `head` is that block in the clear. */
  function ReadBody(s: Suite, seqNum: nat, head: seq<byte>, input: seq<byte>, camouflage: nat): (r: Leaky)
    requires s.Valid() && |head| == s.size <= |input| && CheckHeader(s.size, GetU32(head), head[4]) == []
    requires s.size + camouflage == MAX_PACKET + 4 + s.macSize
    ensures r.Verified? ==> |r.chain| == s.size && r.used <= |input|
  {
    var end := 4 + GetU32(head);
    var used := end + s.macSize;
    if |input| < used then Short
    else
      RestBlocks(s.size, end);
      var first, crypted, tag := input[..s.size], input[s.size..end], input[end..used];
      Finish(s, seqNum, head + Decrypt(s, first, crypted), head[4], tag,
             ChainAfter(s.size, first, crypted), camouflage - (used - s.size))
  }

  function ReadLeaky(s: Suite, chain: seq<byte>, seqNum: nat, input: seq<byte>): (r: Leaky)
    requires s.Valid() && |chain| == s.size
    ensures r.Verified? ==> |r.chain| == s.size && r.used <= |input|
  {
    FirstIsOneBlock(s);
    var first := s.First();
    if |input| < first then Short
    else
      var camouflage := MAX_PACKET + 4 + s.macSize - first;
      var head := Decrypt(s, chain, input[..first]);
      var refused := CheckHeader(s.size, GetU32(head), head[4]);
      if refused != [] then Refused(refused[0], first, camouflage)
      else ReadBody(s, seqNum, head, input, camouflage)
  }

  /** What the buffer can hold after a read: it is made anew only for a packet whose header passed. */
  function CapacityRead(s: Suite, chain: seq<byte>, input: seq<byte>, capacity: nat): nat
    requires s.Valid() && |chain| == s.size
  {
    FirstIsOneBlock(s);
    if |input| < s.First() then capacity
    else
      var head := Decrypt(s, chain, input[..s.First()]);
      if CheckHeader(s.size, GetU32(head), head[4]) != [] then capacity
      else TakenCapacity(capacity, 4 + GetU32(head) + s.macSize)
  }

  lemma LeakyHead(s: Suite, chain: seq<byte>, seqNum: nat, head: seq<byte>, a: seq<byte>, b: seq<byte>, c: seq<byte>)
    requires s.Valid() && |chain| == s.size <= |a| && |head| == s.size
    requires Blocks(s.size, a[..s.size]) && Decrypt(s, chain, a[..s.size]) == head
    ensures var camouflage := MAX_PACKET + 4 + s.macSize - s.size;
            var refused := CheckHeader(s.size, GetU32(head), head[4]);
            && camouflage >= 0
            && ReadLeaky(s, chain, seqNum, a + b + c)
               == if refused != [] then Refused(refused[0], s.size, camouflage) else ReadBody(s, seqNum, head, a + b + c, camouflage)
  {
    CutConcat(a, b, c, s.size);
    FirstIsOneBlock(s);
    hide Decrypt, GetU32, CheckHeader, ReadBody;
  }

  /** Only verification errors are followed by the extra reading. */
  function Read(s: Suite, chain: seq<byte>, seqNum: nat, input: seq<byte>): (r: ReadResult)
    requires s.Valid() && |chain| == s.size
    ensures r.ReadPacket? ==> |r.chain| == s.size && r.consumed <= |input|
  {
    match ReadLeaky(s, chain, seqNum, input)
    case Verified(packet, next, used, _) => ReadPacket(packet, next, used)
    case Refused(e, used, camouflage) =>
      CbcError(e, if used + camouflage <= |input| then used + camouflage else |input|)
    case Short => ShortRead
  }

  lemma ReadIs(s: Suite, chain: seq<byte>, seqNum: nat, input: seq<byte>)
    requires s.Valid() && |chain| == s.size
    ensures match ReadLeaky(s, chain, seqNum, input)
            case Verified(packet, next, used, _) => Read(s, chain, seqNum, input) == ReadPacket(packet, next, used)
            case Refused(e, _, _) => Read(s, chain, seqNum, input).CbcError? && Read(s, chain, seqNum, input).error == e
            case Short => Read(s, chain, seqNum, input).ShortRead?
  {
    hide ReadLeaky;
  }

  /** However a packet is refused, the reader has consumed the same amount: all there is, up to the
      size of the largest packet. */
  lemma RefusalsConsumeAlike(s: Suite, chain: seq<byte>, seqNum: nat, input: seq<byte>)
    requires s.Valid() && |chain| == s.size && Read(s, chain, seqNum, input).CbcError?
    ensures var limit := MAX_PACKET + 4 + s.macSize;
            Read(s, chain, seqNum, input).consumed == if |input| < limit then |input| else limit
  {
    hide Decrypt, GetU32, ChainAfter, CheckHeader, Suite.Tag;
    FirstIsOneBlock(s);
  }

  lemma FirstBlock(size: nat, data: seq<byte>)
    requires Blocks(size, data) && |data| >= 16
    ensures (size == 8 || size == 16) && Blocks(size, data[..size]) && Blocks(size, data[size..])
  {
    assert |data[..size]| == size && |data[size..]| == |data| - size;
    if size == 8 {
      assert (|data| - 8) % 8 == 0;
    } else {
      assert (|data| - 16) % 16 == 0;
    }
  }

  /** The two reads of the ciphertext give the clear packet in two parts. */
  lemma ClearInPieces(s: Suite, chain: seq<byte>, clear: seq<byte>)
    requires s.Valid() && |chain| == s.size && Blocks(s.size, clear) && |clear| >= 16
    ensures var sent := Encrypt(s, chain, clear);
            && Blocks(s.size, sent[..s.size]) && Blocks(s.size, sent[s.size..])
            && Decrypt(s, chain, sent[..s.size]) == clear[..s.size]
            && Decrypt(s, sent[..s.size], sent[s.size..]) == clear[s.size..]
  {
    hide *;
    SuiteSizes(s, 0, []);
    var sent := Encrypt(s, chain, clear);
    DecryptInvertsEncrypt(s, chain, clear);
    FirstBlock(s.size, sent);
    var first, rest := sent[..s.size], sent[s.size..];
    Cut(sent, s.size);
    DecryptInPieces(s, chain, first, rest);
    SplitConcat(Decrypt(s, chain, first), Decrypt(s, first, rest), clear);
  }

  lemma ClearHeader(s: Suite, packet: seq<byte>, padding: seq<byte>)
    requires s.Valid() && |padding| == PaddingLength(s.size, |packet|) && 5 + |packet| + |padding| < U32_MODULUS
    ensures 4 <= |padding| < 20
    ensures var clear := Clear(packet, padding);
            var head := clear[..s.size];
            && GetU32(head) == |clear| - 4 == 1 + |packet| + |padding|
            && head[4] == |padding|
            && clear[5..|clear| - |padding|] == packet
            && CheckHeader(s.size, GetU32(head), head[4])
               == if 1 + |packet| + |padding| > MAX_PACKET then [TooLarge] else if packet == [] then [BadLength] else []
  {
    ClearBlocks(s, packet, padding);
    SuiteSizes(s, 0, []);
    hide GetU32, PutU32, EncLength, PaddingLength, Suite.Valid;
    var clear := Clear(packet, padding);
    var length := 1 + |packet| + |padding|;
    SmallMod(length, U32_MODULUS);
    assert clear[..s.size] == PutU32(length) + clear[4..s.size];
    GetPutU32(length, clear[4..s.size]);
  }

  lemma WriteIs(s: Suite, chain: seq<byte>, capacity: nat, seqNum: nat, packet: seq<byte>, padding: seq<byte>)
    requires s.Valid() && |chain| == s.size && |padding| == PaddingLength(s.size, |packet|)
    requires Writable(s.size, s.macSize, |packet|, capacity)
    ensures 4 <= |padding| < 20 && Blocks(s.size, Clear(packet, padding))
    ensures var clear := Clear(packet, padding);
            var crypted := Encrypt(s, chain, clear);
            && 16 <= |clear| == |crypted| && Blocks(s.size, crypted)
            && Write(s, chain, capacity, seqNum, packet, padding)
               == Written(crypted + s.Tag(seqNum, clear), ChainAfter(s.size, chain, crypted))
  {
    hide Writable;
    ClearBlocks(s, packet, padding);
  }

  lemma ChainSplit(size: nat, chain: seq<byte>, sent: seq<byte>)
    requires |chain| == size && Blocks(size, sent) && sent != []
    ensures |sent| >= size && Blocks(size, sent[size..])
    ensures ChainAfter(size, sent[..size], sent[size..]) == ChainAfter(size, chain, sent)
  {
  }

  lemma ReadBodyOf(s: Suite, seqNum: nat, clear: seq<byte>, crypted: seq<byte>, tag: seq<byte>, padding: nat, rest: seq<byte>,
                   camouflage: nat)
    requires s.Valid() && 16 <= |clear| == |crypted| && Blocks(s.size, crypted) && Blocks(s.size, crypted[s.size..])
    requires Decrypt(s, crypted[..s.size], crypted[s.size..]) == clear[s.size..] && |tag| == s.macSize
    requires var head := clear[..s.size];
             GetU32(head) == |clear| - 4 && head[4] == padding && CheckHeader(s.size, GetU32(head), padding) == []
    requires s.size + camouflage == MAX_PACKET + 4 + s.macSize
    ensures var left := camouflage - (|clear| + s.macSize - s.size);
            && left >= 0 && 5 + padding <= |clear|
            && ReadBody(s, seqNum, clear[..s.size], crypted + tag + rest, camouflage)
               == Finish(s, seqNum, clear, padding, tag, ChainAfter(s.size, crypted[..s.size], crypted[s.size..]), left)
  {
    SuiteSizes(s, seqNum, clear);
    BodyFits(s, clear, padding, camouflage);
    hide Finish, Decrypt, GetU32, Suite.Valid, Suite.Tag, ChainAfter, Blocks, CheckHeader;
    CutConcat(crypted, tag, rest, s.size);
    Cut(clear, s.size);
  }

  lemma BodyFits(s: Suite, clear: seq<byte>, padding: nat, camouflage: nat)
    requires s.Valid() && |clear| >= 4 && CheckHeader(s.size, |clear| - 4, padding) == []
    requires s.size + camouflage == MAX_PACKET + 4 + s.macSize
    ensures camouflage >= |clear| + s.macSize - s.size && 5 + padding <= |clear|
  {
  }

  lemma LeakyCrypted(s: Suite, chain: seq<byte>, seqNum: nat, clear: seq<byte>, tag: seq<byte>, padding: nat, rest: seq<byte>)
    requires s.Valid() && |chain| == s.size && Blocks(s.size, clear) && |clear| >= 16
    requires GetU32(clear[..s.size]) == |clear| - 4 && clear[..s.size][4] == padding
    ensures var input := Encrypt(s, chain, clear) + tag + rest;
            var camouflage := MAX_PACKET + 4 + s.macSize - s.size;
            var refused := CheckHeader(s.size, |clear| - 4, padding);
            && camouflage >= 0 && |input| >= s.size
            && ReadLeaky(s, chain, seqNum, input)
               == if refused != [] then Refused(refused[0], s.size, camouflage) else ReadBody(s, seqNum, clear[..s.size], input, camouflage)
  {
    ClearInPieces(s, chain, clear);
    SuiteSizes(s, seqNum, clear);
    hide *;
    LeakyHead(s, chain, seqNum, clear[..s.size], Encrypt(s, chain, clear), tag, rest);
  }

  lemma BodyCrypted(s: Suite, chain: seq<byte>, seqNum: nat, clear: seq<byte>, tag: seq<byte>, padding: nat, rest: seq<byte>)
    requires s.Valid() && |chain| == s.size && Blocks(s.size, clear) && |clear| >= 16 && |tag| == s.macSize
    requires GetU32(clear[..s.size]) == |clear| - 4 && clear[..s.size][4] == padding
    requires CheckHeader(s.size, |clear| - 4, padding) == []
    ensures var crypted := Encrypt(s, chain, clear);
            var camouflage := MAX_PACKET + 4 + s.macSize - s.size;
            var left := camouflage - (|clear| + s.macSize - s.size);
            && Blocks(s.size, crypted) && camouflage >= 0 && left >= 0 && 5 + padding <= |clear|
            && ReadBody(s, seqNum, clear[..s.size], crypted + tag + rest, camouflage)
               == Finish(s, seqNum, clear, padding, tag, ChainAfter(s.size, chain, crypted), left)
  {
    ClearInPieces(s, chain, clear);
    SuiteSizes(s, seqNum, clear);
    DecryptInvertsEncrypt(s, chain, clear);
    hide *;
    var crypted := Encrypt(s, chain, clear);
    ReadBodyOf(s, seqNum, clear, crypted, tag, padding, rest, MAX_PACKET + 4 + s.macSize - s.size);
    ChainSplit(s.size, chain, crypted);
  }

  lemma FinishIs(s: Suite, seqNum: nat, clear: seq<byte>, padding: nat, tag: seq<byte>, chain: seq<byte>, camouflage: nat)
    requires 5 + padding <= |clear|
    ensures Finish(s, seqNum, clear, padding, tag, chain, camouflage)
         == if s.hasMac && s.mac(seqNum, clear) != tag then Refused(MacFailure, |clear| + |tag|, camouflage)
            else Verified(clear[5..|clear| - padding], chain, |clear| + |tag|, camouflage)
  {
  }

  /** What the reader makes of an encrypted packet depends on its two lengths and on whether the tag behind it is the
      MAC of the sequence number it expects and the clear packet. */
  lemma ReadCrypted(s: Suite, chain: seq<byte>, seqNum: nat, clear: seq<byte>, tag: seq<byte>, padding: nat, rest: seq<byte>)
    requires s.Valid() && |chain| == s.size && Blocks(s.size, clear) && |clear| >= 16 && |tag| == s.macSize
    requires GetU32(clear[..s.size]) == |clear| - 4 && clear[..s.size][4] == padding
    ensures var crypted := Encrypt(s, chain, clear);
            var refused := CheckHeader(s.size, |clear| - 4, padding);
            var r := Read(s, chain, seqNum, crypted + tag + rest);
            && Blocks(s.size, crypted)
            && if refused != [] then r.CbcError? && r.error == refused[0]
               else if s.hasMac && s.mac(seqNum, clear) != tag then r.CbcError? && r.error == MacFailure
               else 5 + padding <= |clear|
                    && r == ReadPacket(clear[5..|clear| - padding], ChainAfter(s.size, chain, crypted), |clear| + s.macSize)
  {
    DecryptInvertsEncrypt(s, chain, clear);
    hide *;
    LeakyCrypted(s, chain, seqNum, clear, tag, padding, rest);
    ReadIs(s, chain, seqNum, Encrypt(s, chain, clear) + tag + rest);
    if CheckHeader(s.size, |clear| - 4, padding) == [] {
      BodyCrypted(s, chain, seqNum, clear, tag, padding, rest);
      var left := MAX_PACKET + 4 + s.macSize - s.size - (|clear| + s.macSize - s.size);
      FinishIs(s, seqNum, clear, padding, tag, ChainAfter(s.size, chain, Encrypt(s, chain, clear)), left);
    }
  }

  /** The writer panics exactly when the packet is not writable. Otherwise it is read back, with both ends on
      the same chaining value, exactly when it is not empty and fits with its padding. */
  lemma ReadInvertsWrite(s: Suite, chain: seq<byte>, capacity: nat, seqNum: nat,
                         packet: seq<byte>, padding: seq<byte>, rest: seq<byte>)
    requires s.Valid() && |chain| == s.size
    requires Writable(s.size, s.macSize, |packet|, capacity) ==> |padding| == PaddingLength(s.size, |packet|)
    ensures var w := Write(s, chain, capacity, seqNum, packet, padding);
            var over := EncLength(s.size, |packet|) + s.macSize - U32_MODULUS;
            && (w.WritePanics? <==>
                  || 9 + |packet| + s.size - 1 >= U32_MODULUS
                  || (over >= 0 && (EncLength(s.size, |packet|) > capacity || over > capacity % U32_MODULUS)))
            && (w.Written? ==>
                  var r := Read(s, chain, seqNum, w.bytes + rest);
                  if 1 + |packet| + |padding| > MAX_PACKET then r.CbcError? && r.error == TooLarge
                  else if packet == [] then r.CbcError? && r.error == BadLength
                  else r == ReadPacket(packet, w.chain, |w.bytes|))
  {
    WritableIff(s.size, s.macSize, |packet|, capacity);
    if Writable(s.size, s.macSize, |packet|, capacity) {
      ReadOfWrite(s, chain, capacity, seqNum, packet, padding, rest);
    }
    hide Writable, Read, EncLength;
  }

  lemma ReadOfWrite(s: Suite, chain: seq<byte>, capacity: nat, seqNum: nat,
                    packet: seq<byte>, padding: seq<byte>, rest: seq<byte>)
    requires s.Valid() && |chain| == s.size && |padding| == PaddingLength(s.size, |packet|)
    requires Writable(s.size, s.macSize, |packet|, capacity)
    ensures var w := Write(s, chain, capacity, seqNum, packet, padding);
            && w.Written?
            && var r := Read(s, chain, seqNum, w.bytes + rest);
               if 1 + |packet| + |padding| > MAX_PACKET then r.CbcError? && r.error == TooLarge
               else if packet == [] then r.CbcError? && r.error == BadLength
               else r == ReadPacket(packet, w.chain, |w.bytes|)
  {
    FitsIff(s.size, |packet|);
    ClearBlocks(s, packet, padding);
    ClearHeader(s, packet, padding);
    WriteIs(s, chain, capacity, seqNum, packet, padding);
    hide *;
    var clear := Clear(packet, padding);
    SuiteSizes(s, seqNum, clear);
    TagIs(s, seqNum, clear);
    ReadCrypted(s, chain, seqNum, clear, s.Tag(seqNum, clear), |padding|, rest);
  }

  lemma TagIs(s: Suite, seqNum: nat, clear: seq<byte>)
    requires s.Valid()
    ensures s.Tag(seqNum, clear) == if s.hasMac then s.mac(seqNum, clear) else []
  {
  }

  /** The octets on the wire (section 6 of RFC 4253): length, padding length, payload and padding, encrypted as a chain of
      blocks, then in the clear the MAC of the sequence number and the unencrypted packet. */
  lemma WrittenOctets(s: Suite, chain: seq<byte>, capacity: nat, seqNum: nat, packet: seq<byte>, padding: seq<byte>)
    requires s.Valid() && |chain| == s.size && |padding| == PaddingLength(s.size, |packet|)
    requires Writable(s.size, s.macSize, |packet|, capacity)
    ensures |padding| < 256
    ensures var w := Write(s, chain, capacity, seqNum, packet, padding);
            var clear := PutU32(1 + |packet| + |padding|) + [|padding|] + packet + padding;
            && w.Written? && Blocks(s.size, clear)
            && w.bytes == Encrypt(s, chain, clear) + (if s.hasMac then s.mac(seqNum, clear) else [])
            && |clear| >= s.size && w.chain == w.bytes[|clear| - s.size..|clear|]
  {
    WriteIs(s, chain, capacity, seqNum, packet, padding);
    SuiteSizes(s, seqNum, []);
    var clear := Clear(packet, padding);
    var crypted := Encrypt(s, chain, clear);
    TagIs(s, seqNum, clear);
    hide Encrypt, PutU32, PaddingLength, Writable, Write, Suite.Tag;
    assert clear == PutU32(1 + |packet| + |padding|) + [|padding|] + packet + padding;
    assert (crypted + s.Tag(seqNum, clear))[|clear| - s.size..|clear|] == crypted[|crypted| - s.size..];
  }

  /** Read under another number, a written packet passes exactly when the MAC is the same there too. */
  lemma NumberMatters(s: Suite, chain: seq<byte>, capacity: nat, seqNum: nat, other: nat,
                      packet: seq<byte>, padding: seq<byte>, rest: seq<byte>)
    requires s.Valid() && s.hasMac && |chain| == s.size && Writable(s.size, s.macSize, |packet|, capacity)
    requires |padding| == PaddingLength(s.size, |packet|) && packet != [] && |packet| + 1 + |padding| <= MAX_PACKET
    ensures |padding| < 256
    ensures var w := Write(s, chain, capacity, seqNum, packet, padding);
            var clear := PutU32(1 + |packet| + |padding|) + [|padding|] + packet + padding;
            && w.Written?
            && var r := Read(s, chain, other, w.bytes + rest);
               if s.mac(other, clear) == s.mac(seqNum, clear) then r == ReadPacket(packet, w.chain, |w.bytes|)
               else r.CbcError? && r.error == MacFailure
  {
    FitsIff(s.size, |packet|);
    ClearBlocks(s, packet, padding);
    ClearHeader(s, packet, padding);
    WriteIs(s, chain, capacity, seqNum, packet, padding);
    var clear := Clear(packet, padding);
    assert clear == PutU32(1 + |packet| + |padding|) + [|padding|] + packet + padding;
    hide *;
    SuiteSizes(s, seqNum, clear);
    TagIs(s, seqNum, clear);
    ReadCrypted(s, chain, other, clear, s.Tag(seqNum, clear), |padding|, rest);
  }

  // ---- A list of packets ----

  predicate AllAdmissible(size: nat, packets: seq<seq<byte>>, paddings: seq<seq<byte>>)
    requires size > 0
  {
    && |packets| == |paddings|
    && forall i :: 0 <= i < |packets| ==>
         packets[i] != [] && |paddings[i]| == PaddingLength(size, |packets[i]|) && |packets[i]| + 1 + |paddings[i]| <= MAX_PACKET
  }

  lemma AdmissibleWritable(size: nat, macSize: nat, packets: seq<seq<byte>>, paddings: seq<seq<byte>>, capacity: nat)
    requires (size == 8 || size == 16) && macSize <= 32 && AllAdmissible(size, packets, paddings) && packets != []
    ensures Writable(size, macSize, |packets[0]|, capacity) && |paddings[0]| == PaddingLength(size, |packets[0]|)
  {
    PaddingLaw(size, |packets[0]|, 4);
    WritableIff(size, macSize, |packets[0]|, capacity);
  }

  /** Whatever the capacity of the buffer is when each packet is written. */
  function WriteAll(s: Suite, chain: seq<byte>, capacities: seq<nat>, seqNum: nat,
                    packets: seq<seq<byte>>, paddings: seq<seq<byte>>): (w: Written)
    requires s.Valid() && |chain| == s.size && AllAdmissible(s.size, packets, paddings) && |capacities| == |packets|
    ensures w.Written?
    decreases packets
  {
    if packets == [] then Written([], chain)
    else
      AdmissibleWritable(s.size, s.macSize, packets, paddings, capacities[0]);
      var w := Write(s, chain, capacities[0], seqNum, packets[0], paddings[0]);
      var others := WriteAll(s, w.chain, capacities[1..], NextSeq(seqNum), packets[1..], paddings[1..]);
      Written(w.bytes + others.bytes, others.chain)
  }

  /** Reads `n` packets, or fewer if one cannot be read. */
  function ReadAll(s: Suite, chain: seq<byte>, seqNum: nat, input: seq<byte>, n: nat): (seq<seq<byte>>, seq<byte>, seq<byte>)
    requires s.Valid() && |chain| == s.size
    decreases n
  {
    if n == 0 then ([], chain, input)
    else
      match Read(s, chain, seqNum, input)
      case ReadPacket(p, next, consumed) =>
        var (ps, end, left) := ReadAll(s, next, NextSeq(seqNum), input[consumed..], n - 1);
        ([p] + ps, end, left)
      case _ => ([], chain, input)
  }

  /** Any list of admissible packets survives, chaining values and sequence numbers in step. */
  lemma {:induction false} ReadAllInvertsWriteAll(s: Suite, chain: seq<byte>, capacities: seq<nat>, seqNum: nat,
                                                  packets: seq<seq<byte>>, paddings: seq<seq<byte>>, rest: seq<byte>)
    requires s.Valid() && |chain| == s.size && AllAdmissible(s.size, packets, paddings) && |capacities| == |packets|
    ensures var w := WriteAll(s, chain, capacities, seqNum, packets, paddings);
            ReadAll(s, chain, seqNum, w.bytes + rest, |packets|) == (packets, w.chain, rest)
    decreases packets
  {
    hide Read, Write, PaddingLength, NextSeq, Suite.Valid, Writable;
    if packets == [] {
      assert [] + rest == rest;
    } else {
      SuiteSizes(s, 0, []);
      AdmissibleWritable(s.size, s.macSize, packets, paddings, capacities[0]);
      ReadOfWrite(s, chain, capacities[0], seqNum, packets[0], paddings[0], []);
      var w := Write(s, chain, capacities[0], seqNum, packets[0], paddings[0]);
      var others := WriteAll(s, w.chain, capacities[1..], NextSeq(seqNum), packets[1..], paddings[1..]);
      var left := others.bytes + rest;
      ReadOfWrite(s, chain, capacities[0], seqNum, packets[0], paddings[0], left);
      ReadAllInvertsWriteAll(s, w.chain, capacities[1..], NextSeq(seqNum), packets[1..], paddings[1..], rest);
      assert w.bytes + others.bytes + rest == w.bytes + left;
      SplitConcat(w.bytes, left, w.bytes + left);
      assert packets == [packets[0]] + packets[1..];
    }
  }

  // ---- The object ----

  class CbcPacketCipher {
    const suite: Suite
    var encrypter: seq<byte>        // chaining value of what was written
    var decrypter: seq<byte>        // chaining value of what was read
    var oracleCamouflage: nat       // what is still to be read to hide which error it was
    var capacity: nat               // of packetData

    /** The buffer always holds a first block. */
    ghost predicate Valid()
      reads this
    {
      suite.Valid() && |encrypter| == suite.size == |decrypter| && suite.size <= 16 <= capacity
    }

    constructor (s: Suite, iv: seq<byte>)
      requires s.Valid() && |iv| == s.size
      ensures Valid() && suite == s && encrypter == iv && decrypter == iv && capacity == 1024
    {
      suite, encrypter, decrypter, oracleCamouflage, capacity := s, iv, iv, 0, INITIAL_CAPACITY;
    }

    /** After a panic the cipher is not used again. */
    method WritePacket(seqNum: nat, packet: seq<byte>, random: seq<byte>, grown: nat) returns (out: Written)
      requires Valid()
      requires Writable(suite.size, suite.macSize, |packet|, capacity) ==> |random| == PaddingLength(suite.size, |packet|)
      requires BufferLength(suite.size, |packet|) + suite.sumSize <= grown
      modifies this`encrypter, this`capacity
      ensures Valid() && out == Write(suite, old(encrypter), old(capacity), seqNum, packet, random)
      ensures out.Written? ==> encrypter == out.chain && capacity == CapacityAfter(suite, |packet|, old(capacity), grown)
    {
      WritableIff(suite.size, suite.macSize, |packet|, capacity);
      hide EncLength;
      var length := BufferLength(suite.size, |packet|);
      var wanted := (length + suite.macSize) % U32_MODULUS;
      if capacity % U32_MODULUS < wanted {
        if length > wanted {
          return WritePanics;
        }
      } else if length > capacity {
        return WritePanics;
      }
      if 5 + |packet| > length {
        return WritePanics;
      }
      ghost var before := capacity;
      assert Writable(suite.size, suite.macSize, |packet|, before);
      WriteIs(suite, encrypter, before, seqNum, packet, random);
      hide Encrypt, Clear, ChainAfter, PaddingLength, Write, BufferLength;
      if capacity % U32_MODULUS < wanted {
        capacity := wanted;
      }
      var clear := Clear(packet, random);
      var tag := suite.Tag(seqNum, clear);
      if length + suite.sumSize > capacity {
        capacity := grown;
      }
      var crypted := Encrypt(suite, encrypter, clear);
      encrypter := ChainAfter(suite.size, encrypter, crypted);
      out := Written(crypted + tag, encrypter);
    }

    method ReadRest(seqNum: nat, head: seq<byte>, input: seq<byte>) returns (r: Leaky)
      requires Valid() && |head| == suite.size <= |input| && decrypter == input[..suite.size]
      requires CheckHeader(suite.size, GetU32(head), head[4]) == []
      requires suite.size + oracleCamouflage == MAX_PACKET + 4 + suite.macSize
      modifies this`decrypter, this`oracleCamouflage, this`capacity
      ensures Valid() && r == ReadBody(suite, seqNum, head, input, old(oracleCamouflage))
      ensures capacity == TakenCapacity(old(capacity), 4 + GetU32(head) + suite.macSize)
      ensures !r.Short? ==> oracleCamouflage == r.camouflage && r.used + oracleCamouflage == MAX_PACKET + 4 + suite.macSize
      ensures r.Verified? ==> decrypter == r.chain
    {
      hide Decrypt, GetU32, ChainAfter;
      var end := 4 + GetU32(head);
      var used := end + suite.macSize;
      if capacity % U32_MODULUS < used {
        capacity := used;
      }
      if |input| < used {
        return Short;
      }
      oracleCamouflage := oracleCamouflage - (used - suite.size);
      RestBlocks(suite.size, end);
      var crypted := input[suite.size..end];
      var clear := head + Decrypt(suite, decrypter, crypted);
      decrypter := ChainAfter(suite.size, decrypter, crypted);
      if suite.hasMac && suite.Tag(seqNum, clear) != input[end..used] {
        return Refused(MacFailure, used, oracleCamouflage);
      }
      r := Verified(clear[5..end - head[4]], decrypter, used, oracleCamouflage);
    }

    /** The field ends at what the camouflage has still to read, and never goes below zero. */
    method ReadPacketLeaky(seqNum: nat, input: seq<byte>) returns (r: Leaky)
      requires Valid()
      modifies this`decrypter, this`oracleCamouflage, this`capacity
      ensures Valid() && r == ReadLeaky(suite, old(decrypter), seqNum, input)
      ensures capacity == CapacityRead(suite, old(decrypter), input, old(capacity))
      ensures !r.Short? ==> oracleCamouflage == r.camouflage && r.used + oracleCamouflage == MAX_PACKET + 4 + suite.macSize
      ensures r.Verified? ==> decrypter == r.chain
    {
      FirstIsOneBlock(suite);
      hide Decrypt, GetU32, CheckHeader, ReadBody;
      var first := suite.First();
      if |input| < first {
        return Short;
      }
      oracleCamouflage := MAX_PACKET + 4 + suite.macSize - first;
      var block := input[..first];
      var head := Decrypt(suite, decrypter, block);
      decrypter := block;
      var refused := CheckHeader(suite.size, GetU32(head), head[4]);
      if refused != [] {
        return Refused(refused[0], first, oracleCamouflage);
      }
      r := ReadRest(seqNum, head, input);
    }

    method ReadPacket(seqNum: nat, input: seq<byte>) returns (r: ReadResult)
      requires Valid()
      modifies this`decrypter, this`oracleCamouflage, this`capacity
      ensures Valid() && r == Read(suite, old(decrypter), seqNum, input)
      ensures capacity == CapacityRead(suite, old(decrypter), input, old(capacity))
      ensures r.ReadPacket? ==> decrypter == r.chain
    {
      hide ReadLeaky, CapacityRead;
      var leaky := ReadPacketLeaky(seqNum, input);
      match leaky {
        case Verified(packet, chain, used, _) =>
          r := ReadResult.ReadPacket(packet, chain, used);
        case Refused(e, used, _) =>
          var total := used + oracleCamouflage;
          r := CbcError(e, if total <= |input| then total else |input|);
        case Short =>
          r := ShortRead;
      }
    }
  }
}
