/** The handshake transport as the object that its goroutines share, with the counters
    that decide when to ask for new keys. */
module HandshakeTransport {
  import opened Bytes
  import opened Handshake
  import opened Options

  const PACKET_REKEY_THRESHOLD: nat := 0x8000_0000

  /** How many bytes may be written under one key of a cipher (RFC 4344 for the AES modes, RFC 4253 otherwise). */
  function RekeyBytes(cipher: string): nat
  {
    if cipher == "aes128-ctr" || cipher == "aes192-ctr" || cipher == "aes256-ctr"
       || cipher == "aes128-gcm@openssh.com" || cipher == "aes128-cbc"
    then 16 * 0x1_0000_0000 else 0x4000_0000
  }

  /** Section 3.2 of RFC 4344: 2^(L/4) blocks of L bits for the AES modes, L being 128; otherwise one gigabyte (section 9
      of RFC 4253). */
  lemma RekeyLimits(cipher: string)
    ensures RekeyBytes(cipher) == (if IsAes(cipher) then Pow2(128 / 4) * (128 / 8) else Pow2(30))
  {
    Pow2Of30();
  }

  predicate IsAes(cipher: string)
  {
    cipher in {"aes128-ctr", "aes192-ctr", "aes256-ctr", "aes128-gcm@openssh.com", "aes128-cbc"}
  }

  lemma Pow2Of30()
    ensures Pow2(30) == 0x4000_0000 && Pow2(32) == 0x1_0000_0000
  {
    assert Pow2(8) == 256;
    assert Pow2(16) == 0x1_0000;
    assert Pow2(24) == 0x100_0000;
    assert Pow2(30) == 0x4000_0000;
  }

  /** The byte counter after writes of the given lengths: it stops once it has run out. */
  function BytesLeft(limit: int, lengths: seq<nat>): int
  {
    if lengths == [] then limit
    else
      var left := BytesLeft(limit, lengths[..|lengths| - 1]);
      if left > 0 then left - lengths[|lengths| - 1] else left
  }

  /** The packet counter after `n` writes. */
  function PacketsLeft(limit: nat, n: nat): nat
  {
    if n >= limit then 0 else limit - n
  }

  function Total(lengths: seq<nat>): nat
  {
    if lengths == [] then 0 else Total(lengths[..|lengths| - 1]) + lengths[|lengths| - 1]
  }

  /** After a reset to `limit` bytes the next write asks for an exchange, for the bytes, exactly when the writes
      since then have used up the limit. */
  lemma {:induction false} RequestIffUsedUp(limit: int, lengths: seq<nat>)
    requires limit > 0
    ensures BytesLeft(limit, lengths) <= 0 <==> Total(lengths) >= limit
    ensures Total(lengths) < limit ==> BytesLeft(limit, lengths) == limit - Total(lengths)
  {
    if lengths != [] {
      RequestIffUsedUp(limit, lengths[..|lengths| - 1]);
    }
  }

  /** Pushing all queued packets, one after the other. */
  ghost function FlushAll(x: Side): Side
    requires CanFlush(x)
    decreases |x.apps.pending|
  {
    if x.apps.pending == [] then Flush(x) else FlushAll(Flush(x))
  }

  /** Consecutive application packets under one key, numbered from `seqNum`. */
  ghost predicate Consecutive(records: seq<Record>, payloads: seq<Payload>, seqNum: nat, key: Key)
  {
    && |records| == |payloads|
    && forall i :: 0 <= i < |records| ==> records[i] == Record(App(payloads[i]), (seqNum + i) % U32_MODULUS, key)
  }

  lemma ShiftModulo(n: nat, i: nat)
    ensures ((n + 1) % U32_MODULUS + i) % U32_MODULUS == (n + (i + 1)) % U32_MODULUS
  {
  }

  lemma ConsecutiveCons(first: Record, rest: seq<Record>, payloads: seq<Payload>, seqNum: nat, key: Key)
    requires payloads != [] && first == Record(App(payloads[0]), seqNum % U32_MODULUS, key)
    requires Consecutive(rest, payloads[1..], (seqNum + 1) % U32_MODULUS, key)
    ensures Consecutive([first] + rest, payloads, seqNum, key)
  {
    forall i | 0 <= i < |rest|
      ensures rest[i] == Record(App(payloads[i + 1]), (seqNum + (i + 1)) % U32_MODULUS, key)
    {
      ShiftModulo(seqNum, i);
    }
  }

  /** The flush empties the queue onto the wire in order, under the new key, and nothing else happens. */
  lemma {:induction false} FlushAllSends(x: Side)
    requires CanFlush(x) && x.tr.writer.seqNum < U32_MODULUS
    ensures var x' := FlushAll(x);
            && x'.apps == x.apps.(pending := []) && x'.loops == x.loops.(kex := Collecting)
            && x'.tr.writer.key == x.tr.writer.key && x'.fault == x.fault
            && x.tr.log <= x'.tr.log
            && Consecutive(x'.tr.log[|x.tr.log|..], x.apps.pending, x.tr.writer.seqNum, x.tr.writer.key)
    decreases |x.apps.pending|
  {
    hide Consecutive;
    if x.apps.pending == [] {
      assert FlushAll(x).tr.log[|x.tr.log|..] == [];
      ConsecutiveNone(x.tr.writer.seqNum, x.tr.writer.key);
    } else {
      var y := Flush(x);
      FlushAllSends(y);
      var log, n := FlushAll(x).tr.log, |x.tr.log|;
      assert log[n..] == [y.tr.log[n]] + log[n + 1..];
      ConsecutiveCons(y.tr.log[n], log[n + 1..], x.apps.pending, x.tr.writer.seqNum, x.tr.writer.key);
    }
  }

  lemma ConsecutiveNone(seqNum: nat, key: Key)
    ensures Consecutive([], [], seqNum, key)
  {
  }

  class HandshakeTransport {
    const isClient: bool
    const rekeyThreshold: nat       // Config.RekeyThreshold, zero when unset
    var agreed: Option<string>      // the cipher agreed on for writing
    var tr: Transport
    var loops: Loops
    var apps: Apps
    var past: History
    var fault: Fault
    var writeBytesLeft: int
    var writePacketsLeft: nat

    ghost function View(): Side
      reads this
    {
      Side(isClient, tr, loops, apps, past, fault)
    }

    function ByteLimit(): (limit: nat)
      reads this
      ensures limit > 0
    {
      if rekeyThreshold > 0 then rekeyThreshold else if agreed.Some? then RekeyBytes(agreed.value) else 0x4000_0000
    }

    /** Both counters stand where writes of these lengths since the last reset have brought them. */
    ghost predicate Counted(lengths: seq<nat>)
      reads this
    {
      && writeBytesLeft == BytesLeft(ByteLimit(), lengths)
      && writePacketsLeft == PacketsLeft(PACKET_REKEY_THRESHOLD, |lengths|)
    }

    constructor (client: bool, threshold: nat)
      ensures View().tr == Transport([], Direction(0, Plain, []), 0, Direction(0, Plain, []))
      ensures loops == Loops(Collecting, Reading, None, true, false, None, None) && apps == Apps([], [], [], [], [])
      ensures writePacketsLeft == PACKET_REKEY_THRESHOLD && writeBytesLeft == ByteLimit()
      ensures Counted([])
    {
      isClient, rekeyThreshold, agreed := client, threshold, None;
      tr := Transport([], Direction(0, Plain, []), 0, Direction(0, Plain, []));
      loops := Loops(Collecting, Reading, None, true, false, None, None);
      apps, past, fault := Apps([], [], [], [], []), History(0, []), NoFault;
      writePacketsLeft := PACKET_REKEY_THRESHOLD;
      writeBytesLeft := if threshold > 0 then threshold else 0x4000_0000;
    }

    method PushPacket(p: Packet)
      modifies `tr, `fault
      ensures View() == Push(old(View()), p)
    {
      var w := tr.writer;
      var log := tr.log + [Record(p, w.seqNum, w.key)];
      w := w.(seqNum := (w.seqNum + 1) % U32_MODULUS);
      if p.NewKeys? {
        if |w.prepared| == 0 {
          fault := NoKeyMaterial;
        } else {
          w := w.(key := w.prepared[0], prepared := w.prepared[1..]);
        }
      }
      tr := tr.(log := log, writer := w);
    }

    /** Refuses what looks like a KEXINIT or a NEWKEYS. Queues during an exchange. Otherwise sends, counts, and asks for an exchange exactly when the packets
        sent since the last reset have used up the byte limit or number 2^31. */
    method WritePacket(p: Payload, ghost lengths: seq<nat>) returns (ok: bool)
      requires CanWrite(View(), p) && Counted(lengths)
      modifies `tr, `fault, `loops, `apps, `writeBytesLeft, `writePacketsLeft
      ensures View() == Write(old(View()), p, Total(lengths) >= ByteLimit() || |lengths| >= 0x8000_0000)
      ensures ok <==> p[0] != 20 && p[0] != 21
      ensures Counted(if ok && loops.sentInit.None? then lengths + [|p|] else lengths)
      ensures loops.sentInit.Some? ==> tr == old(tr)
    {
      if p[0] == 20 || p[0] == 21 {
        return false;
      }
      ok := true;
      RequestIffUsedUp(ByteLimit(), lengths);
      assert (lengths + [|p|])[..|lengths|] == lengths;
      apps := apps.(accepted := apps.accepted + [p]);
      if loops.sentInit.Some? {
        apps := apps.(pending := apps.pending + [p]);
        return;
      }
      if writeBytesLeft > 0 {
        writeBytesLeft := writeBytesLeft - |p|;
      } else {
        loops := loops.(requestKex := true);
      }
      if writePacketsLeft > 0 {
        writePacketsLeft := writePacketsLeft - 1;
      } else {
        loops := loops.(requestKex := true);
      }
      PushPacket(App(p));
    }

    method SendKexInit(offer: nat)
      modifies `tr, `fault, `loops
      ensures View() == SendInit(old(View()), offer)
    {
      if loops.sentInit.Some? {
        return;
      }
      PushPacket(KexInit(offer));
      loops := loops.(sentInit := Some(offer));
    }

    method ResetWriteThresholds()
      modifies `writeBytesLeft, `writePacketsLeft
      ensures Counted([])
    {
      writePacketsLeft := PACKET_REKEY_THRESHOLD;
      writeBytesLeft := ByteLimit();
    }

    /** The end of an exchange in kexLoop: counters start again and everything queued goes out, in
        order, before any new write. `cipher` is what the exchange agreed on. */
    method FinishExchange(cipher: string)
      requires CanFinish(View()) && tr.writer.seqNum < U32_MODULUS
      modifies `tr, `fault, `loops, `apps, `past, `agreed, `writeBytesLeft, `writePacketsLeft
      ensures View() == FlushAll(Finish(old(View())))
      ensures apps.pending == [] && loops.kex.Collecting? && !loops.requestKex && loops.sentInit.None?
      ensures old(tr.log) <= tr.log
      ensures Consecutive(tr.log[|old(tr.log)|..], old(apps.pending), old(tr.writer.seqNum), old(tr.writer.key))
      ensures Counted([]) && ByteLimit() == if rekeyThreshold > 0 then rekeyThreshold else RekeyBytes(cipher)
    {
      agreed := Some(cipher);
      ghost var start := Finish(View());
      FlushAllSends(start);
      loops := loops.(kex := Flushing, sentInit := None, requestKex := false, done := true);
      past := past.(rounds := past.rounds + 1);
      assert View() == start;
      ResetWriteThresholds();
      while |apps.pending| > 0
        invariant CanFlush(View()) && FlushAll(View()) == FlushAll(start)
        invariant Counted([]) && agreed == Some(cipher)
        decreases |apps.pending|
      {
        var p := apps.pending[0];
        apps := apps.(pending := apps.pending[1..]);
        PushPacket(App(p));
      }
      loops := loops.(kex := Collecting);
    }
  }
}
