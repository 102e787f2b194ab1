/** Pure rules of the RFSoC data-converter front-end driver: the preamble
    check of the reader thread, the TX packet header built by the writer
    thread, buffer sizing when timestamping is configured, the channel rules
    applied when the device is opened, the ADC block choice, the sample-rate
    acceptance, and the size of a TX DMA transfer. */
module RfdcRules {
  import opened Wrappers
  import opened Framing
  import PhyCommon
  import IioRules

  // ---------------------------------------------------------------------
  // Preamble check
  // ---------------------------------------------------------------------

  /** `match_preamble`: the six words at `input` are the common and the
      time-domain preamble, in order. */
  function MatchPreamble(input: seq<Word>): (b: bool)
    requires |input| >= 6
    ensures b <==> input[..6] == HeaderPreamble
  {
    var p := input[..6];
    assert p[0] == input[0] && p[1] == input[1] && p[2] == input[2];
    assert p[3] == input[3] && p[4] == input[4] && p[5] == input[5];
    input[0] == CommonPreamble1 && input[1] == CommonPreamble2 && input[2] == CommonPreamble3
    && input[3] == TimePreamble1 && input[4] == TimePreamble2 && input[5] == TimePreamble3
  }

  /** The two drivers recognise the same headers: the RFSoC check accepts
      exactly the words on which the IIO state machine succeeds. */
  lemma MatchPreambleAgreesWithFsm(input: seq<Word>, current: U64)
    requires |input| >= MetadataSamples
    ensures MatchPreamble(input) <==> IioRules.PreambleFsm(input, current).ret == 1
  {
  }

  // ---------------------------------------------------------------------
  // TX packet header
  // ---------------------------------------------------------------------

  /** `dma_length_bytes`: the packet length in bytes less one, computed in
      unsigned 32-bit arithmetic. */
  function DmaLengthBytes(items: nat, metadataSamples: nat): Word {
    ((items + metadataSamples) * 4 - 1) % TwoTo32
  }

  /** Word 2 of a TX header: `common_preamble3_short | (len << 16)` in 32
      bits. The shifted length has zero low half, so the OR is a sum. */
  function LengthWord(len: Word): Word {
    CommonPreamble3Short + (len % 0x1_0000) * 0x1_0000
  }

  /** The eight metadata words the RFSoC writer puts in front of a TX packet
      holding `items` samples. */
  function TxMetadata(items: nat, metadataSamples: nat, timestamp: U64, useTimestamps: bool): (ws: seq<Word>)
    ensures |ws| == MetadataSamples
    ensures ws[0] == CommonPreamble1 && ws[1] == CommonPreamble2
    ensures ws[3] == TimePreamble1 && ws[4] == TimePreamble2 && ws[5] == TimePreamble3
    ensures ws[2] % 0x1_0000 == CommonPreamble3Short
    ensures ws[2] / 0x1_0000 == DmaLengthBytes(items, metadataSamples) % 0x1_0000
    ensures Join64(ws[6], ws[7]) == (if useTimestamps then timestamp else 0)
  {
    var t := if useTimestamps then timestamp else 0;
    JoinOfHalves(t);
    [CommonPreamble1, CommonPreamble2, LengthWord(DmaLengthBytes(items, metadataSamples)),
     TimePreamble1, TimePreamble2, TimePreamble3, Lo32(t), Hi32(t)]
  }

  /** For packets of at most 64 KiB the length field gives back the number
      of 32-bit words in the packet, metadata included. */
  lemma TxLengthRecoverable(items: nat, metadataSamples: nat, timestamp: U64, useTimestamps: bool)
    requires 1 <= items + metadataSamples <= 0x4000
    ensures (TxMetadata(items, metadataSamples, timestamp, useTimestamps)[2] / 0x1_0000 + 1) / 4
      == items + metadataSamples
  {
  }

  /** A TX header never passes the RX preamble check, whatever its length:
      the low half of word 2 is 0xffee, while `common_preamble3` ends in
      0xeeee. The two directions use different headers. */
  lemma TxHeaderIsNotRxHeader(items: nat, metadataSamples: nat, timestamp: U64, useTimestamps: bool)
    ensures !MatchPreamble(TxMetadata(items, metadataSamples, timestamp, useTimestamps))
  {
    var ws := TxMetadata(items, metadataSamples, timestamp, useTimestamps);
    assert CommonPreamble3 % 0x1_0000 == 0xeeee;
    assert ws[2] != CommonPreamble3;
  }

  // ---------------------------------------------------------------------
  // Buffer sizing when timestamping is configured
  // ---------------------------------------------------------------------

  const MinDataBufferSize: nat := 1000

  /** The data-buffer length in samples for a PRB count, with `sfLen` the
      subframe length in samples for that PRB count. */
  function DataBufferSize(nofPrbs: nat, sfLen: nat): nat {
    if nofPrbs <= 6 then MinDataBufferSize
    else if nofPrbs <= 15 then MinDataBufferSize * 2
    else if nofPrbs <= 25 then sfLen
    else sfLen / 2
  }

  /** `configure_timestamping`, with `rxChannels` the RX streamer's channel
      count (1 or 2 once the device is open). */
  function ConfigureTimestamping(rx: Streamer, tx: Streamer, rxChannels: nat, nofPrbs: nat, sfLen: nat): (r: Reconfig)
    requires rxChannels > 0
    ensures r.rx.bufferSize == r.tx.bufferSize == DataBufferSize(nofPrbs, sfLen)
    ensures r.tx.metadataSamples == MetadataSamples
    ensures r.rx.metadataSamples * rxChannels <= MetadataSamples < (r.rx.metadataSamples + 1) * rxChannels
    ensures r.txBufferLength.Some? <==> tx.bufferSize != DataBufferSize(nofPrbs, sfLen)
    ensures r.txBufferLength.Some? ==> r.txBufferLength.value == r.tx.bufferSize + r.tx.metadataSamples
    ensures r.restartRx <==> rx.bufferSize != DataBufferSize(nofPrbs, sfLen) && rx.active
    ensures r.restartTx <==> tx.bufferSize != DataBufferSize(nofPrbs, sfLen) && tx.active
    ensures r.rx.pendingSamples == (if r.restartRx then 0 else rx.pendingSamples)
    ensures r.tx.pendingSamples == (if r.restartTx then 0 else tx.pendingSamples)
    ensures r.rx.active == rx.active && r.tx.active == tx.active
  {
    var size := DataBufferSize(nofPrbs, sfLen);
    var restartRx := rx.bufferSize != size && rx.active;
    var restartTx := tx.bufferSize != size && tx.active;
    Reconfig(
      rx.(bufferSize := size, metadataSamples := MetadataSamples / rxChannels,
          pendingSamples := if restartRx then 0 else rx.pendingSamples),
      tx.(bufferSize := size, metadataSamples := MetadataSamples,
          pendingSamples := if restartTx then 0 else tx.pendingSamples),
      if tx.bufferSize != size then Some(size + MetadataSamples) else None,
      restartRx, restartTx)
  }

  /** Configuring timestamping a second time for the same PRB count leaves
      both streamers as they are and re-creates nothing. */
  lemma ConfigureTimestampingIdempotent(rx: Streamer, tx: Streamer, rxChannels: nat, nofPrbs: nat, sfLen: nat)
    requires rxChannels > 0
    ensures var once := ConfigureTimestamping(rx, tx, rxChannels, nofPrbs, sfLen);
            var twice := ConfigureTimestamping(once.rx, once.tx, rxChannels, nofPrbs, sfLen);
            twice.rx == once.rx && twice.tx == once.tx
            && twice.txBufferLength == None && !twice.restartRx && !twice.restartTx
  {
  }

  // ---------------------------------------------------------------------
  // Channel rules at open
  // ---------------------------------------------------------------------

  /** Sample direction of a DMA device. */
  datatype Direction = Rx | Tx

  /** What `open_srs_dma_device` records for a streamer. */
  datatype DmaStream = DmaStream(direction: Direction, nofChannels: nat, sampleSize: nat)

  /** `open_srs_dma_device` once the device is open: the TX path always has
      one channel of 4-byte samples; the RX path must match the channel
      count the hardware reports (0 read as 1) and carries 4 bytes per
      channel per sample. The error is the driver's -1. */
  function OpenDmaDevice(isRx: bool, nofChannels: nat, hwRxChannels: Word): (r: Result<DmaStream, int>)
    ensures r.Err? <==> isRx && nofChannels != (if hwRxChannels == 0 then 1 else hwRxChannels)
    ensures r.Err? ==> r.error == -1
    ensures r.Ok? ==> r.value.direction == (if isRx then Rx else Tx)
    ensures r.Ok? ==> r.value.sampleSize == 4 * r.value.nofChannels
    ensures r.Ok? && !isRx ==> r.value.nofChannels == 1
    ensures r.Ok? && isRx ==> r.value.nofChannels == nofChannels
  {
    var hw := if hwRxChannels == 0 then 1 else hwRxChannels;
    if isRx && nofChannels != hw then Err(-1)
    else
      Ok(DmaStream(if isRx then Rx else Tx, if !isRx then 1 else nofChannels,
                   if isRx then 2 * 2 * nofChannels else 2 * 2))
  }

  /** The channel and PRB rules of `rf_xrfdc_open_multi`, with `nPrbArg` the
      `n_prb` device argument if one was given: returns the RX and TX
      streams and the PRB count used to configure timestamping. */
  function OpenMulti(nofChannels: nat, nPrbArg: Option<nat>, hwRxChannels: Word): (r: Result<(DmaStream, DmaStream, nat), int>)
    ensures r.Ok? <==> 1 <= (if nofChannels == 0 then 1 else nofChannels) <= 2
                       && (if nofChannels == 0 then 1 else nofChannels) == (if hwRxChannels == 0 then 1 else hwRxChannels)
    ensures r.Err? ==> r.error == -1
    ensures r.Ok? ==> var (rx, tx, nPrb) := r.value;
      rx.direction == Rx && 1 <= rx.nofChannels <= 2 && rx.sampleSize == 4 * rx.nofChannels
      && tx == DmaStream(Tx, 1, 4)
      && nPrb == (if nPrbArg.Some? then nPrbArg.value else 6)
  {
    var n := if nofChannels == 0 then 1 else nofChannels;
    if n > 2 then Err(-1)
    else
      var rx :- OpenDmaDevice(true, n, hwRxChannels);
      var tx := OpenDmaDevice(false, n, hwRxChannels).value;
      Ok((rx, tx, nPrbArg.GetOr(6)))
  }

  /** Once the device is open, the RX metadata of configure-timestamping is
      a whole number of words per channel: 8 words for one channel, 4 per
      channel for two. */
  lemma RxMetadataSplitsEvenly(nofChannels: nat, nPrbArg: Option<nat>, hwRxChannels: Word,
                               rx0: Streamer, tx0: Streamer, sfLen: nat)
    requires OpenMulti(nofChannels, nPrbArg, hwRxChannels).Ok?
    ensures var (rx, _, nPrb) := OpenMulti(nofChannels, nPrbArg, hwRxChannels).value;
            ConfigureTimestamping(rx0, tx0, rx.nofChannels, nPrb, sfLen).rx.metadataSamples * rx.nofChannels
              == MetadataSamples
  {
  }

  // ---------------------------------------------------------------------
  // ADC block choice
  // ---------------------------------------------------------------------

  /** The ADC block `rf_xrfdc_set_rx_freq` configures for channel `ch`, given
      which of the two blocks of tile 0 are enabled; `None` is the -1 return. */
  function ChooseAdcBlock(ch: nat, enabled0: bool, enabled1: bool): (r: Option<nat>)
    ensures var preferred := if ch > 1 then 0 else ch;
            var enabled := (b: nat) => if b == 0 then enabled0 else enabled1;
            && (r.None? <==> !enabled0 && !enabled1)
            && (r.Some? ==> r.value <= 1 && enabled(r.value))
            && (enabled(preferred) ==> r == Some(preferred))
  {
    var block := if ch > 1 then 0 else ch;
    var isEnabled := if block == 0 then enabled0 else enabled1;
    if isEnabled then Some(block)
    else
      var other := (block + 1) % 2;
      if (if other == 0 then enabled0 else enabled1) then Some(other) else None
  }

  // ---------------------------------------------------------------------
  // Sample rate
  // ---------------------------------------------------------------------

  /** The rate-related state: the `_fs_hz` of both streamers, the FFT-size
      register (register 4 of the control block) and the RX streamer's
      fields touched by a pause. */
  datatype Radio = Radio(rxFs: nat, txFs: nat, fftSizeReg: Word, rxActive: bool, rxPending: nat)

  /** The symbol size a requested rate asks for: samples per subframe over
      15. */
  function RequestedSymbolSz(rate: nat): nat {
    rate / 1000 / 15
  }

  /** `rf_xrfdc_set_rx_srate` for an integral rate in Hz: the rate is taken
      only when it asks for a symbol size valid in the active rate mode;
      the RX stream is paused either way; the requested rate is returned. */
  function SetRxSrate(m: PhyCommon.RateMode, r: Radio, rate: nat): (out: (Radio, nat))
    requires rate < 1000 * TwoTo32
    ensures out.1 == rate
    ensures PhyCommon.SymbolSzIsValid(m, RequestedSymbolSz(rate)) ==>
      out.0.rxFs == rate && out.0.fftSizeReg == RequestedSymbolSz(rate)
    ensures !PhyCommon.SymbolSzIsValid(m, RequestedSymbolSz(rate)) ==>
      out.0.rxFs == r.rxFs && out.0.fftSizeReg == r.fftSizeReg
    ensures out.0.txFs == r.txFs && out.0.rxActive == r.rxActive
    ensures out.0.rxPending == (if r.rxActive then 0 else r.rxPending)
  {
    var paused := r.(rxPending := if r.rxActive then 0 else r.rxPending);
    var sz := RequestedSymbolSz(rate);
    if PhyCommon.SymbolSzIsValid(m, sz) then (paused.(rxFs := rate, fftSizeReg := sz), rate)
    else (paused, rate)
  }

  /** `rf_xrfdc_set_tx_srate`: the TX streamer follows the RX one whatever
      rate is asked for. */
  function SetTxSrate(r: Radio, rate: nat): (out: (Radio, nat))
    ensures out.0.txFs == r.rxFs && out.1 == rate
    ensures out.0.(txFs := r.txFs) == r
  {
    (r.(txFs := r.rxFs), rate)
  }

  /** Every LTE sampling frequency of the active mode is accepted, and the
      FFT-size register then holds that PRB count's symbol size. */
  lemma SrateAcceptsLteRates(m: PhyCommon.RateMode, r: Radio, nofPrb: nat)
    requires 1 <= nofPrb <= PhyCommon.MaxTablePrb
    ensures var rate := PhyCommon.SamplingFreqHz(m, nofPrb, -1);
            rate > 0 && rate < 1000 * TwoTo32
            && SetRxSrate(m, r, rate).0.rxFs == rate
            && SetRxSrate(m, r, rate).0.fftSizeReg == PhyCommon.SymbolSz(m, nofPrb, -1)
  {
    var n := PhyCommon.SymbolSz(m, nofPrb, -1);
    PhyCommon.ValidPrbHasSymbolSz(m, if nofPrb < 6 then 6 else nofPrb, -1);
    assert 15000 * n / 1000 == 15 * n;
    assert RequestedSymbolSz(15000 * n) == n;
  }

  // ---------------------------------------------------------------------
  // TX transfer size
  // ---------------------------------------------------------------------

  /** `send_buf`: the bytes handed to the DMA driver for a packet of `items`
      samples; the writer's item count is reset to 0 afterwards. */
  function SendBufBytes(items: nat, sampleSize: nat, metadataSamples: nat): nat {
    items * sampleSize + metadataSamples * 4
  }

  /** A TX packet never exceeds the DMA buffer created for it (buffer size
      plus metadata, 4 bytes per sample), and its header's length field is
      the transfer size less one. */
  lemma SendBufFitsBuffer(items: nat, bufferSize: nat)
    requires items <= bufferSize && (bufferSize + MetadataSamples) * 4 <= TwoTo32
    ensures SendBufBytes(items, 4, MetadataSamples) <= (bufferSize + MetadataSamples) * 4
    ensures DmaLengthBytes(items, MetadataSamples) + 1 == SendBufBytes(items, 4, MetadataSamples)
  {
  }
}
