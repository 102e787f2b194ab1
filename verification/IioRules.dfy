/** Pure rules of the IIO front-end driver (AD9361 through libiio): the
    preamble recogniser and the realignment scan of the reader thread, the
    buffer sizing chosen when timestamping is switched on, the sample-rate
    and gain rules, the zero-filling of a partly filled TX buffer, and the
    late-register read. Attribute writes to the radio become fields of a
    `Radio` record. */
module IioRules {
  import opened Wrappers
  import opened Framing
  import PhyCommon

  // ---------------------------------------------------------------------
  // Preamble recogniser
  // ---------------------------------------------------------------------

  /** The three states of `preamble_fsm`. */
  datatype FsmState = Common | TimeDomain | Timestamp

  /** The loop of `preamble_fsm` from state `st` with `remaining` iterations
      left. `None` stands for "return 0"; `Some(t)` for "store `t` as the
      current timestamp and return 1". */
  function FsmRun(input: seq<Word>, st: FsmState, remaining: nat): Option<U64>
    requires |input| >= MetadataSamples
    decreases remaining
  {
    if remaining == 0 then None
    else
      match st
      case Common =>
        if input[0] == CommonPreamble1 && input[1] == CommonPreamble2 && input[2] == CommonPreamble3
        then FsmRun(input, TimeDomain, remaining - 1)
        else None
      case TimeDomain =>
        if input[3] == TimePreamble1 && input[4] == TimePreamble2 && input[5] == TimePreamble3
        then FsmRun(input, Timestamp, remaining - 1)
        else None
      case Timestamp =>
        Some(Join64(input[6], input[7]))
  }

  /** What `preamble_fsm` returns and the timestamp it leaves behind. */
  datatype FsmResult = FsmResult(ret: int, tstamp: U64)

  /** `preamble_fsm` on the eight words at `input`, with `current` the
      streamer's current timestamp before the call. */
  function PreambleFsm(input: seq<Word>, current: U64): (r: FsmResult)
    requires |input| >= MetadataSamples
    ensures r.ret == 0 || r.ret == 1
    ensures r.ret == 1 <==> input[..6] == HeaderPreamble
    ensures r.tstamp == (if r.ret == 1 then Join64(input[6], input[7]) else current)
  {
    FsmRunAccepts(input);
    match FsmRun(input, Common, MetadataSamples)
    case None => FsmResult(0, current)
    case Some(t) => FsmResult(1, t)
  }

  /** The FSM reaches its timestamp state exactly when the six words are the
      preamble. */
  lemma FsmRunAccepts(input: seq<Word>)
    requires |input| >= MetadataSamples
    ensures FsmRun(input, Common, MetadataSamples)
      == (if input[..6] == HeaderPreamble then Some(Join64(input[6], input[7])) else None)
  {
    var p := input[..6];
    assert p[0] == input[0] && p[1] == input[1] && p[2] == input[2];
    assert p[3] == input[3] && p[4] == input[4] && p[5] == input[5];
    if input[0] == CommonPreamble1 && input[1] == CommonPreamble2 && input[2] == CommonPreamble3
       && input[3] == TimePreamble1 && input[4] == TimePreamble2 && input[5] == TimePreamble3 {
      assert p == HeaderPreamble;
    }
  }

  /** Six preamble words at index `i` of a DMA buffer, with room for the
      timestamp behind them. */
  predicate PreambleAt(buf: seq<Word>, i: nat) {
    i + MetadataSamples <= |buf| && buf[i..i + 6] == HeaderPreamble
  }

  /** The timestamp stored behind the preamble at `i`. */
  function StampAt(buf: seq<Word>, i: nat): U64
    requires i + MetadataSamples <= |buf|
  {
    Join64(buf[i + 6], buf[i + 7])
  }

  /** The alignment step of `reader_thread` with timestamps on: check the
      preamble at the remembered location `loc`; if it is not there, scan
      every index below `bufferSize - 7` and keep the last one where the
      FSM succeeds, together with the timestamp found there. Returns the new
      location and the new current timestamp. */
  method Realign(buf: seq<Word>, bufferSize: nat, loc: nat, tstamp: U64) returns (newLoc: nat, newStamp: U64)
    requires loc + MetadataSamples <= |buf|
    requires bufferSize <= |buf|
    ensures PreambleAt(buf, loc) ==> newLoc == loc && newStamp == StampAt(buf, loc)
    ensures !PreambleAt(buf, loc) && (exists i: nat :: i < bufferSize - 7 && PreambleAt(buf, i)) ==>
      newLoc < bufferSize - 7 && PreambleAt(buf, newLoc) && newStamp == StampAt(buf, newLoc)
      && forall j: nat :: newLoc < j < bufferSize - 7 ==> !PreambleAt(buf, j)
    ensures !PreambleAt(buf, loc) && (forall i: nat :: i < bufferSize - 7 ==> !PreambleAt(buf, i)) ==>
      newLoc == loc && newStamp == tstamp
  {
    var first := PreambleFsm(buf[loc..], tstamp);
    assert buf[loc..][..6] == buf[loc..loc + 6];
    if first.ret == 1 {
      return loc, first.tstamp;
    }
    newLoc, newStamp := loc, tstamp;
    var found := false;
    var i := 0;
    while i < bufferSize - 7
      invariant 0 <= i <= (if bufferSize >= 7 then bufferSize - 7 else 0)
      invariant found <==> exists j: nat :: j < i && PreambleAt(buf, j)
      invariant found ==> newLoc < i && PreambleAt(buf, newLoc) && newStamp == StampAt(buf, newLoc)
                          && forall j: nat :: newLoc < j < i ==> !PreambleAt(buf, j)
      invariant !found ==> newLoc == loc && newStamp == tstamp
    {
      var r := PreambleFsm(buf[i..], newStamp);
      assert buf[i..][..6] == buf[i..i + 6];
      assert r.ret == 1 <==> PreambleAt(buf, i);
      if r.ret == 1 {
        newLoc, newStamp := i, r.tstamp;
        found := true;
      } else {
        assert forall j: nat :: j < i + 1 && PreambleAt(buf, j) ==> j < i;
      }
      i := i + 1;
    }
  }

  // ---------------------------------------------------------------------
  // Buffer sizing when timestamping is switched on
  // ---------------------------------------------------------------------

  const IioMinDataBufferSize: nat := 1920

  /** The data-buffer length, in samples, chosen for a PRB count. */
  function DataBufferSize(nofPrbs: int): nat {
    if nofPrbs <= 6 then IioMinDataBufferSize
    else if nofPrbs <= 15 then IioMinDataBufferSize * 2
    else 7680
  }

  /** `rf_iio_use_timestamping`. */
  function UseTimestamping(rx: Streamer, tx: Streamer, nofPrbs: int): (r: Reconfig)
    ensures r.rx.bufferSize == r.tx.bufferSize == DataBufferSize(nofPrbs)
    ensures r.rx.metadataSamples == r.tx.metadataSamples == MetadataSamples
    ensures r.txBufferLength.Some? <==> tx.bufferSize != DataBufferSize(nofPrbs)
    ensures r.txBufferLength.Some? ==> r.txBufferLength.value == r.tx.bufferSize + r.tx.metadataSamples
    ensures r.restartRx <==> rx.bufferSize != DataBufferSize(nofPrbs) && rx.active
    ensures r.restartTx <==> tx.bufferSize != DataBufferSize(nofPrbs) && tx.active
    ensures r.rx.pendingSamples == (if r.restartRx then 0 else rx.pendingSamples)
    ensures r.tx.pendingSamples == (if r.restartTx then 0 else tx.pendingSamples)
    ensures r.rx.active == rx.active && r.tx.active == tx.active
  {
    var size := DataBufferSize(nofPrbs);
    var restartRx := rx.bufferSize != size && rx.active;
    var restartTx := tx.bufferSize != size && tx.active;
    Reconfig(
      rx.(bufferSize := size, metadataSamples := MetadataSamples,
          pendingSamples := if restartRx then 0 else rx.pendingSamples),
      tx.(bufferSize := size, metadataSamples := MetadataSamples,
          pendingSamples := if restartTx then 0 else tx.pendingSamples),
      if tx.bufferSize != size then Some(size + MetadataSamples) else None,
      restartRx, restartTx)
  }

  /** Switching timestamping on a second time for the same PRB count changes
      nothing and re-creates nothing. */
  lemma UseTimestampingIdempotent(rx: Streamer, tx: Streamer, nofPrbs: int)
    ensures var once := UseTimestamping(rx, tx, nofPrbs);
            var twice := UseTimestamping(once.rx, once.tx, nofPrbs);
            twice.rx == once.rx && twice.tx == once.tx
            && twice.txBufferLength == None && !twice.restartRx && !twice.restartTx
  {
  }

  /** With standard LTE rates, a subframe (a thousandth of the sampling
      frequency) is a whole number of IIO data buffers for every PRB count
      from 1 to 110, so a frequency-domain burst never leaves a partly
      filled buffer behind. */
  lemma SubframeIsWholeBuffers(nofPrb: nat)
    requires 1 <= nofPrb <= PhyCommon.MaxTablePrb
    ensures PhyCommon.SamplingFreqHz(PhyCommon.RateMode(true), nofPrb, -1) / 1000 % DataBufferSize(nofPrb) == 0
  {
  }

  /** With the reduced rates the same does not hold: at 25 PRB a subframe is
      5760 samples while the buffer holds 7680. */
  lemma ReducedSubframeIsNotWholeBuffers()
    ensures PhyCommon.SamplingFreqHz(PhyCommon.RateMode(false), 25, -1) / 1000 == 5760
    ensures DataBufferSize(25) == 7680
  {
  }

  // ---------------------------------------------------------------------
  // Sample rate and gain
  // ---------------------------------------------------------------------

  /** The rate-related state: the `_fs_hz` of both streamers, the rate
      written to the AD9361 PHY, the rates written to the RX and TX
      streaming cores, and the RX streamer's fields touched by a pause. */
  datatype Radio = Radio(rxFs: nat, txFs: nat, phyRate: nat, rxCoreRate: nat, txCoreRate: nat,
                         rxActive: bool, rxPending: nat, rxGain: int, txGain: int)

  /** The integer form of `samplerate < 25e6 / 48`. */
  predicate NeedsDecimation(rate: nat) {
    48 * rate < 25_000_000
  }

  /** `rf_iio_set_rx_srate` for an integral rate in Hz; returns the new
      state and the value returned to the caller. */
  function SetRxSrate(r: Radio, rate: nat): (out: (Radio, nat))
    ensures out.1 == rate
    ensures rate == r.rxFs ==> out.0 == r
    ensures rate != r.rxFs ==>
      out.0.rxFs == rate && out.0.txFs == rate
      && out.0.rxCoreRate == rate && out.0.txCoreRate == rate
      && out.0.phyRate == (if NeedsDecimation(rate) then 8 * rate else rate)
      && out.0.rxPending == (if r.rxActive then 0 else r.rxPending)
      && out.0.rxActive == r.rxActive && out.0.rxGain == r.rxGain && out.0.txGain == r.txGain
  {
    if rate == r.rxFs then (r, rate)
    else
      var decimation := NeedsDecimation(rate);
      var phy := if decimation then rate * 8 else rate;
      var core := if decimation then phy / 8 else phy;
      (r.(rxFs := rate, txFs := rate, phyRate := phy, rxCoreRate := core, txCoreRate := core,
          rxPending := if r.rxActive then 0 else r.rxPending), rate)
  }

  /** `rf_iio_set_tx_srate`: forwards to the RX rule only when the rate
      differs from the RX streamer's. */
  function SetTxSrate(r: Radio, rate: nat): (out: (Radio, nat))
    ensures out.1 == rate
    ensures rate == r.rxFs ==> out.0 == r
    ensures rate != r.rxFs ==> out.0 == SetRxSrate(r, rate).0
  {
    if rate != r.rxFs then (SetRxSrate(r, rate).0, rate) else (r, rate)
  }

  /** After a rate change both streamers run at the requested rate, the
      cores run at it whether or not the PHY decimates, the PHY always runs
      at a rate of at least 25 MHz / 48 when the requested rate allows it at
      all, and repeating the request or setting the TX rate to it is a
      no-op. */
  lemma SrateRules(r: Radio, rate: nat)
    requires rate != r.rxFs
    ensures var s := SetRxSrate(r, rate).0;
            s.rxFs == s.txFs == s.rxCoreRate == s.txCoreRate == rate
            && (384 * rate >= 25_000_000 ==> 48 * s.phyRate >= 25_000_000)
            && (s.phyRate == rate || s.phyRate == 8 * rate)
            && SetRxSrate(s, rate).0 == s && SetTxSrate(s, rate).0 == s
  {
    var s := SetRxSrate(r, rate).0;
    if NeedsDecimation(rate) {
      assert s.phyRate == 8 * rate;
    } else {
      assert s.phyRate == rate;
    }
  }

  /** C's conversion of a double to `long long`: truncation toward zero. */
  function Trunc(x: real): (n: int)
    ensures x >= 0.0 ==> n as real <= x < n as real + 1.0
    ensures x < 0.0 ==> n as real - 1.0 < x <= n as real
  {
    if x >= 0.0 then x.Floor else -((-x).Floor)
  }

  /** `rf_iio_set_rx_gain`: the hardware gain is the truncated request. */
  function SetRxGain(r: Radio, gain: real): Radio {
    r.(rxGain := Trunc(gain))
  }

  /** `rf_iio_set_tx_gain`: the hardware gain is the truncated request less
      89 dB. */
  function SetTxGain(r: Radio, gain: real): Radio {
    r.(txGain := Trunc(gain) - 89)
  }

  /** `rf_iio_get_rx_gain`; `stored` is `None` when the attribute read fails. */
  function GetRxGain(stored: Option<int>): int {
    match stored
    case None => 0
    case Some(g) => g
  }

  /** `rf_iio_get_tx_gain`: the hardware gain plus 89 dB, 0 when the read fails. */
  function GetTxGain(stored: Option<int>): int {
    match stored
    case None => 0
    case Some(g) => g + 89
  }

  /** Setting a gain and reading it back yields the truncated request on
      both paths: the TX offset of 89 dB is applied on write and undone on
      read. */
  lemma GainRoundTrip(r: Radio, gain: real)
    ensures GetRxGain(Some(SetRxGain(r, gain).rxGain)) == Trunc(gain)
    ensures GetTxGain(Some(SetTxGain(r, gain).txGain)) == Trunc(gain)
    ensures SetTxGain(r, gain).txGain == GetTxGain(Some(SetTxGain(r, gain).txGain)) - 89
  {
  }

  // ---------------------------------------------------------------------
  // TX buffer: header and zero fill
  // ---------------------------------------------------------------------

  /** The eight metadata words the IIO writer puts in front of a TX packet:
      the preamble and the timestamp, or 0 when timestamps are off. */
  function TxMetadata(timestamp: U64, useTimestamps: bool): seq<Word> {
    Metadata(if useTimestamps then timestamp else 0)
  }

  /** A TX packet as the writer builds it is recognised by the RX
      preamble recogniser, which recovers the timestamp it carries. */
  lemma TxHeaderRecognised(timestamp: U64, useTimestamps: bool, payload: seq<Word>, current: U64)
    ensures PreambleFsm(TxMetadata(timestamp, useTimestamps) + payload, current)
      == FsmResult(1, if useTimestamps then timestamp else 0)
  {
    var h := TxMetadata(timestamp, useTimestamps);
    assert (h + payload)[..6] == h[..6];
    assert (h + payload)[6] == h[6] && (h + payload)[7] == h[7];
  }

  /** `send_buf` as written: when the buffer is not full, the IIO buffer is
      zeroed from word `items` to its end, although the samples start after
      the eight metadata words. `buf` is the whole IIO buffer of
      `bufferSize + 8` words. */
  function SendBufFillAsWritten(buf: seq<Word>, items: nat, bufferSize: nat): (r: seq<Word>)
    requires |buf| == bufferSize + MetadataSamples
    ensures |r| == |buf|
    ensures items < bufferSize ==> forall k :: items <= k < |r| ==> r[k] == 0
    ensures forall k :: 0 <= k < |r| && (k < items || items >= bufferSize) ==> r[k] == buf[k]
  {
    if items < bufferSize then buf[..items] + seq(|buf| - items, _ => 0) else buf
  }

  /** The fill as evidently intended: zero only the unused sample slots
      behind the `items` samples already written. */
  function SendBufFill(buf: seq<Word>, items: nat, bufferSize: nat): (r: seq<Word>)
    requires |buf| == bufferSize + MetadataSamples
    ensures |r| == |buf|
    ensures r[..MetadataSamples] == buf[..MetadataSamples]
    ensures forall k :: MetadataSamples <= k < MetadataSamples + items && k < |r| ==> r[k] == buf[k]
    ensures forall k :: MetadataSamples + items <= k < |r| ==> r[k] == 0
  {
    var start := MetadataSamples + items;
    if items < bufferSize then buf[..start] + seq(|buf| - start, _ => 0) else buf
  }

  /** The intended fill keeps the packet header, so the packet pushed to
      the radio still carries its preamble and timestamp. */
  lemma SendBufFillKeepsHeader(timestamp: U64, useTimestamps: bool, samples: seq<Word>, bufferSize: nat, current: U64)
    requires |samples| == bufferSize
    ensures var pushed := SendBufFill(TxMetadata(timestamp, useTimestamps) + samples, 0, bufferSize);
            PreambleFsm(pushed, current) == FsmResult(1, if useTimestamps then timestamp else 0)
  {
    var buf := TxMetadata(timestamp, useTimestamps) + samples;
    var pushed := SendBufFill(buf, 0, bufferSize);
    assert pushed[..MetadataSamples] == buf[..MetadataSamples];
    assert pushed[..6] == pushed[..MetadataSamples][..6];
    assert buf[..6] == buf[..MetadataSamples][..6];
    TxHeaderRecognised(timestamp, useTimestamps, samples, current);
  }

  /** As written, an end-of-burst packet with 100 of 1920 samples loses the
      samples stored in words 100 to 107, its last eight. */
  lemma SendBufFillAsWrittenLosesSamples(buf: seq<Word>)
    requires |buf| == 1920 + MetadataSamples
    requires forall k :: 0 <= k < |buf| ==> buf[k] == 1
    ensures SendBufFillAsWritten(buf, 100, 1920)[100] == 0
    ensures MetadataSamples <= 100 < MetadataSamples + 100
    ensures SendBufFill(buf, 100, 1920)[100] == 1
  {
  }

  /** As written, a packet pushed with fewer than six samples loses at
      least the last time-domain preamble word, so the radio no longer
      recognises its header. */
  lemma SendBufFillAsWrittenLosesHeader(timestamp: U64, samples: seq<Word>, items: nat, bufferSize: nat, current: U64)
    requires |samples| == bufferSize && items < bufferSize && items < 6
    ensures PreambleFsm(SendBufFillAsWritten(TxMetadata(timestamp, true) + samples, items, bufferSize), current).ret == 0
  {
    var pushed := SendBufFillAsWritten(TxMetadata(timestamp, true) + samples, items, bufferSize);
    assert pushed[..6][5] == pushed[5] == 0;
  }

  // ---------------------------------------------------------------------
  // Late register
  // ---------------------------------------------------------------------

  /** `check_late_register`: register 4 of the mapped register block, or 0
      when the registers are not mapped. */
  function CheckLateRegister(regs: Option<seq<Word>>): (v: Word)
    requires regs.Some? ==> |regs.value| > 4
    ensures regs.None? ==> v == 0
  {
    match regs
    case None => 0
    case Some(m) => m[4]
  }
}
