/** The packet framing shared by both RF front-ends: a packet starts with
    eight 32-bit metadata words, six fixed preamble words followed by a
    64-bit timestamp stored little-endian in words 6 (low half) and 7 (high
    half). The ring buffers between the driver threads and the PHY carry a
    small header per packet. */
module Framing {
  import opened Wrappers

  const TwoTo32: nat := 0x1_0000_0000
  const TwoTo64: nat := 0x1_0000_0000_0000_0000

  /** One unsigned 32-bit word of a DMA buffer (one complex 16-bit sample). */
  type Word = w: int | 0 <= w < 0x1_0000_0000

  /** An unsigned 64-bit value, such as a hardware timestamp. */
  type U64 = t: int | 0 <= t < 0x1_0000_0000_0000_0000

  const CommonPreamble1: Word := 0xbbbb_aaaa
  const CommonPreamble2: Word := 0xdddd_cccc
  const CommonPreamble3: Word := 0xffff_eeee
  /** The low half of `CommonPreamble3`, used where the high half carries a length. */
  const CommonPreamble3Short: Word := 0x0000_ffee
  const TimePreamble1: Word := 0xabcd_dcba
  const TimePreamble2: Word := 0xfedc_cdef
  const TimePreamble3: Word := 0xdfcb_aefd

  /** Number of 32-bit metadata words in front of the samples of a packet. */
  const MetadataSamples: nat := 8

  /** The magic value of a valid ring-buffer packet header. */
  const PktHeaderMagic: Word := 0x1234_5678

  /** The six preamble words, in order. */
  const HeaderPreamble: seq<Word> :=
    [CommonPreamble1, CommonPreamble2, CommonPreamble3, TimePreamble1, TimePreamble2, TimePreamble3]

  /** The header the driver threads exchange with the PHY through a ring
      buffer, one per packet of samples. */
  datatype PacketHeader = PacketHeader(magic: Word, timestamp: U64, nofSamples: nat, endOfBurst: bool)

  /** The part of a streamer that switching timestamping on reads or
      writes: its data-buffer length in samples, its metadata length, whether
      it is streaming, and how many samples of the current ring packet are
      still unread. */
  datatype Streamer = Streamer(bufferSize: nat, metadataSamples: nat, active: bool, pendingSamples: nat)

  /** The outcome of switching timestamping on: both streamers afterwards,
      the length in samples of the TX buffer if it is re-created, and which
      streams are stopped and restarted around the change. */
  datatype Reconfig = Reconfig(rx: Streamer, tx: Streamer, txBufferLength: Option<nat>, restartRx: bool, restartTx: bool)

  /** Low and high 32-bit halves of a 64-bit value. */
  function Lo32(t: U64): Word
  {
    t % TwoTo32
  }

  function Hi32(t: U64): Word
  {
    t / TwoTo32
  }

  /** Reading a little-endian 64-bit value from two consecutive words. */
  function Join64(lo: Word, hi: Word): (t: U64)
    ensures t / TwoTo32 == hi && t % TwoTo32 == lo
  {
    hi * TwoTo32 + lo
  }

  /** Splitting a 64-bit value into words and reading it back gives it back. */
  lemma JoinOfHalves(t: U64)
    ensures Join64(Lo32(t), Hi32(t)) == t
  {
  }

  /** Reading two words as a 64-bit value and splitting it gives the words back. */
  lemma HalvesOfJoin(lo: Word, hi: Word)
    ensures Lo32(Join64(lo, hi)) == lo && Hi32(Join64(lo, hi)) == hi
  {
  }

  /** The eight metadata words that carry timestamp `t`. */
  function Metadata(t: U64): (ws: seq<Word>)
    ensures |ws| == MetadataSamples
    ensures ws[..6] == HeaderPreamble
    ensures Join64(ws[6], ws[7]) == t
  {
    JoinOfHalves(t);
    HeaderPreamble + [Lo32(t), Hi32(t)]
  }
}
