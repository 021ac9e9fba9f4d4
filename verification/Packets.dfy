/** What every packet cipher shares. */
module Packets {
  import opened Bytes

  /** The longest packet a reader accepts, header and tag not counted. */
  const MAX_PACKET: nat := 256 * 1024

  /** Packet sequence numbers wrap at 2^32. */
  function NextSeq(seqNum: nat): nat
  {
    (seqNum + 1) % U32_MODULUS
  }

  /** 256 kB, and the last number is followed by zero. */
  lemma Limits(seqNum: word)
    ensures MAX_PACKET == 0x4_0000
    ensures NextSeq(seqNum) == if seqNum == 0xffff_ffff then 0 else seqNum + 1
  {
  }
}
