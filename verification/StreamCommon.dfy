/** The sample accounting both RF front-ends share: the receive call that
    drains packets from the RX ring buffer, the writer thread that packs
    packets from the TX ring buffer into fixed-size hardware buffers, and
    the split of an integer timestamp into seconds and a remainder.

    The ring buffers are sequences of packet headers; the sample payloads
    themselves are not modelled, only how many samples move where. */
module StreamCommon {
  import opened Wrappers
  import opened Framing

  function Min(a: nat, b: nat): (m: nat)
    ensures m <= a && m <= b && (m == a || m == b)
  {
    if a <= b then a else b
  }

  /** Total number of samples announced by a run of packet headers. */
  function SumSamples(hs: seq<PacketHeader>): nat {
    if |hs| == 0 then 0 else SumSamples(hs[..|hs| - 1]) + hs[|hs| - 1].nofSamples
  }

  /** Total of a sequence of counts. */
  function Total(xs: seq<nat>): nat {
    if |xs| == 0 then 0 else Total(xs[..|xs| - 1]) + xs[|xs| - 1]
  }

  lemma SumSamplesSnoc(hs: seq<PacketHeader>, h: PacketHeader)
    ensures SumSamples(hs + [h]) == SumSamples(hs) + h.nofSamples
  {
    assert (hs + [h])[..|hs|] == hs;
  }

  lemma TotalSnoc(xs: seq<nat>, x: nat)
    ensures Total(xs + [x]) == Total(xs) + x
  {
    assert (xs + [x])[..|xs|] == xs;
  }

  // ---------------------------------------------------------------------
  // Timestamp split
  // ---------------------------------------------------------------------

  /** `tstamp_to_time_iio` / `hw_tstamp_to_time` without the fractional
      part: whole seconds and the remaining ticks at `fsHz` ticks per
      second, or nothing when either output pointer is missing. The source
      divides by the rate unguarded, so a zero rate with both outputs
      present is excluded. */
  function SplitTimestamp(t: U64, fsHz: nat, haveSecs: bool, haveFrac: bool): (r: Option<(nat, nat)>)
    requires haveSecs && haveFrac ==> fsHz > 0
    ensures r.Some? <==> haveSecs && haveFrac
    ensures r.Some? ==> r.value.0 * fsHz + r.value.1 == t && r.value.1 < fsHz
  {
    if haveSecs && haveFrac then Some((t / fsHz, t % fsHz)) else None
  }

  // ---------------------------------------------------------------------
  // Receive
  // ---------------------------------------------------------------------

  /** How a receive call ended: with the requested count (or after 100
      reads), on a failed read of the next packet header, on a header with
      the wrong magic, or on a failed read of a packet's samples. */
  datatype RecvStatus = Done | RingEmpty | BadMagic | SampleReadFailed

  /** The result of a receive call: the status and return value, the
      samples delivered, the streamer's packet header afterwards, how many
      ring headers were taken, how many headers the ring still holds (the
      last `left` of them), and the number of loop iterations. */
  datatype RecvOutcome = RecvOutcome(status: RecvStatus, ret: int, received: nat, prev: PacketHeader,
                                     consumed: nat, left: nat, trials: nat)

  /** The loop of `rf_iio_recv_with_time_multi` and
      `rf_xrfdc_recv_with_time_multi`. `prev` is the header of the packet
      being drained, `ring` every header the RX ring buffer yields before
      a read of it fails: the ring read blocks while the ring is empty, so
      running out of `ring` stands for that read returning an error or
      nothing. `failAt` is the first iteration (counted from 0) whose read of
      the samples themselves fails; the call returns there, so later
      failures never matter, and since there are at most 100 iterations a
      `failAt` of 100 or more means no sample read fails. A failed read, of
      a header or of samples, returns `ringErrorRet` (-1 in the IIO driver,
      the library error in the RFSoC one); a bad magic resets the ring,
      dropping every header still in it, and returns `badMagicRet` (0 in the
      IIO driver, the library error in the RFSoC one). Each iteration takes the minimum
      of what is left of the packet and what is still wanted; the timestamp
      is moved back by the samples already delivered whenever a read is
      shorter than the request. */
  method Recv(nsamples: nat, prev: PacketHeader, ring: seq<PacketHeader>, failAt: nat,
              ringErrorRet: int, badMagicRet: int)
    returns (o: RecvOutcome)
    ensures o.received <= nsamples && o.trials <= 100 && o.consumed <= |ring|
    ensures o.ret == (match o.status
                        case Done => nsamples as int
                        case RingEmpty => ringErrorRet
                        case BadMagic => badMagicRet
                        case SampleReadFailed => ringErrorRet)
    ensures o.status == Done ==> o.received == nsamples || o.trials == 100
    ensures o.status == RingEmpty ==> o.consumed == |ring| && o.prev.nofSamples == 0
    ensures o.status == BadMagic ==> 0 < o.consumed && o.prev == ring[o.consumed - 1] && o.prev.magic != PktHeaderMagic
    ensures o.status == SampleReadFailed ==> o.trials == failAt && o.received < nsamples
    ensures o.status != SampleReadFailed ==> o.trials <= failAt
    ensures o.left == if o.status == BadMagic then 0 else |ring| - o.consumed
    ensures o.received + o.prev.nofSamples == prev.nofSamples + SumSamples(ring[..o.consumed])
    ensures prev.nofSamples == 0 && 0 < nsamples && 0 < |ring| && ring[0].magic == PktHeaderMagic
            && nsamples <= ring[0].nofSamples && 0 < failAt ==>
              o.status == Done && o.consumed == 1 && o.received == nsamples
              && o.prev.timestamp == ring[0].timestamp
  {
    var cur := prev;
    var received: nat := 0;
    var trials: nat := 0;
    var consumed: nat := 0;
    ghost var oneRead := prev.nofSamples == 0 && 0 < nsamples && 0 < |ring| && ring[0].magic == PktHeaderMagic
                         && nsamples <= ring[0].nofSamples && 0 < failAt;
    assert ring[..0] == [];
    while received < nsamples && trials < 100
      invariant received <= nsamples && trials <= 100 && consumed <= |ring|
      invariant received + cur.nofSamples == prev.nofSamples + SumSamples(ring[..consumed])
      invariant trials <= failAt
      invariant trials == 0 ==> received == 0 && consumed == 0 && cur == prev
      invariant oneRead && trials > 0 ==> received == nsamples && consumed == 1 && cur.timestamp == ring[0].timestamp
      decreases 100 - trials
    {
      if cur.nofSamples == 0 {
        if consumed == |ring| {
          return RecvOutcome(RingEmpty, ringErrorRet, received, cur, consumed, 0, trials);
        }
        assert ring[..consumed + 1] == ring[..consumed] + [ring[consumed]];
        SumSamplesSnoc(ring[..consumed], ring[consumed]);
        cur := ring[consumed];
        consumed := consumed + 1;
        if cur.magic != PktHeaderMagic {
          return RecvOutcome(BadMagic, badMagicRet, received, cur, consumed, 0, trials);
        }
      }
      if trials == failAt {
        return RecvOutcome(SampleReadFailed, ringErrorRet, received, cur, consumed, |ring| - consumed, trials);
      }
      var read := Min(cur.nofSamples, nsamples - received);
      cur := cur.(nofSamples := cur.nofSamples - read);
      if read != nsamples {
        cur := cur.(timestamp := (cur.timestamp - received) % TwoTo64);
      }
      received := received + read;
      trials := trials + 1;
    }
    return RecvOutcome(Done, nsamples, received, cur, consumed, |ring| - consumed, trials);
  }

  // ---------------------------------------------------------------------
  // Writer
  // ---------------------------------------------------------------------

  /** The writer thread's bookkeeping: samples in the hardware buffer, the
      samples taken in the current round (`n`), what is left of the current
      ring packet and its end-of-burst flag, and the sizes of the buffers
      sent so far. */
  datatype WriterState = WriterState(items: nat, n: nat, pending: nat, endOfBurst: bool, flushes: seq<nat>)

  const InitialWriter := WriterState(0, 0, 0, false, [])

  /** Every count in `xs` is at most `bound`. */
  predicate AllAtMost(xs: seq<nat>, bound: nat) {
    forall i :: 0 <= i < |xs| ==> xs[i] <= bound
  }

  lemma AllAtMostSnoc(xs: seq<nat>, x: nat, bound: nat)
    requires x <= bound
    ensures AllAtMost(xs, bound) ==> AllAtMost(xs + [x], bound)
  {
  }

  /** One iteration of the writer's inner loop, including the reset of `n`
      when a round ends. `next` is the ring header read when the previous
      packet is used up. An iteration that reads nothing at the start of a
      round is skipped; the RFSoC writer also asks for an empty buffer
      (`skipNeedsEmpty`). A buffer is sent when it is full or at the end
      of a burst, and an end of burst ends the round. */
  function WriterStep(s: WriterState, bufferSize: nat, next: Option<PacketHeader>, skipNeedsEmpty: bool): (r: WriterState)
    requires 0 < bufferSize && s.items < bufferSize
    requires s.pending == 0 ==> next.Some?
    ensures r.items < bufferSize
    ensures Total(r.flushes) + r.items + r.pending
      == Total(s.flushes) + s.items + (if s.pending == 0 then next.value.nofSamples else s.pending)
    ensures AllAtMost(s.flushes, bufferSize) ==> AllAtMost(r.flushes, bufferSize)
    ensures 0 < s.pending ==> r.pending < s.pending
  {
    var pending := if s.pending == 0 then next.value.nofSamples else s.pending;
    var eob := if s.pending == 0 then next.value.endOfBurst else s.endOfBurst;
    var read := Min(pending, bufferSize - s.items);
    if read == 0 && s.n == 0 && (!skipNeedsEmpty || s.items == 0) then
      s.(pending := pending, endOfBurst := eob)
    else
      var items := s.items + read;
      var n := s.n + read;
      if items == bufferSize || eob then
        var n' := if eob then bufferSize else n;
        TotalSnoc(s.flushes, items);
        AllAtMostSnoc(s.flushes, items, bufferSize);
        WriterState(0, if n' >= bufferSize then 0 else n', pending - read, eob, s.flushes + [items])
      else
        WriterState(items, if n >= bufferSize then 0 else n, pending - read, eob, s.flushes)
  }

  /** Within a round the buffer holds exactly the samples taken in that
      round, so it is empty whenever a round starts. */
  ghost predicate RoundAligned(s: WriterState) {
    s.items == s.n
  }

  /** The invariant holds after every iteration, and on states that satisfy
      it the two drivers' skip conditions give the same step. */
  lemma WriterStepAligned(s: WriterState, bufferSize: nat, next: Option<PacketHeader>)
    requires 0 < bufferSize && s.items < bufferSize
    requires s.pending == 0 ==> next.Some?
    requires RoundAligned(s)
    ensures RoundAligned(WriterStep(s, bufferSize, next, false))
    ensures WriterStep(s, bufferSize, next, false) == WriterStep(s, bufferSize, next, true)
  {
  }

  /** What holds after every iteration of the writer fed with `headers`,
      of which the first `used` have been read. */
  ghost predicate WriterInv(s: WriterState, bufferSize: nat, headers: seq<PacketHeader>, used: nat) {
    && used <= |headers|
    && s.items < bufferSize && RoundAligned(s)
    && AllAtMost(s.flushes, bufferSize)
    && Total(s.flushes) + s.items + s.pending == SumSamples(headers[..used])
  }

  /** An iteration that reads the next ring header keeps the invariant. */
  lemma ReadHeaderKeeps(s: WriterState, bufferSize: nat, headers: seq<PacketHeader>, used: nat, skipNeedsEmpty: bool)
    requires 0 < bufferSize && WriterInv(s, bufferSize, headers, used)
    requires s.pending == 0 && used < |headers|
    ensures WriterInv(WriterStep(s, bufferSize, Some(headers[used]), skipNeedsEmpty), bufferSize, headers, used + 1)
  {
    var h := headers[used];
    WriterStepAligned(s, bufferSize, Some(h));
    assert headers[..used + 1] == headers[..used] + [h];
    SumSamplesSnoc(headers[..used], h);
  }

  /** An iteration that drains the current packet further keeps the
      invariant. */
  lemma DrainKeeps(s: WriterState, bufferSize: nat, headers: seq<PacketHeader>, used: nat, skipNeedsEmpty: bool)
    requires 0 < bufferSize && WriterInv(s, bufferSize, headers, used)
    requires s.pending > 0
    ensures WriterInv(WriterStep(s, bufferSize, None, skipNeedsEmpty), bufferSize, headers, used)
  {
    WriterStepAligned(s, bufferSize, None);
  }

  /** The writer thread fed with the TX ring headers `headers` until the
      ring is drained. Every header is used; every buffer sent holds at most
      `bufferSize` samples; and every announced sample has either been sent
      or is waiting in the partly filled buffer. */
  method RunWriter(headers: seq<PacketHeader>, bufferSize: nat, skipNeedsEmpty: bool) returns (s: WriterState, used: nat)
    requires 0 < bufferSize
    ensures used == |headers| && s.pending == 0
    ensures s.items < bufferSize && RoundAligned(s)
    ensures AllAtMost(s.flushes, bufferSize)
    ensures Total(s.flushes) + s.items == SumSamples(headers)
  {
    s := InitialWriter;
    used := 0;
    assert headers[..0] == [];
    while !(used == |headers| && s.pending == 0)
      invariant WriterInv(s, bufferSize, headers, used)
      decreases |headers| - used, s.pending
    {
      if s.pending == 0 {
        ReadHeaderKeeps(s, bufferSize, headers, used, skipNeedsEmpty);
        s, used := WriterStep(s, bufferSize, Some(headers[used]), skipNeedsEmpty), used + 1;
      } else {
        DrainKeeps(s, bufferSize, headers, used, skipNeedsEmpty);
        s := WriterStep(s, bufferSize, None, skipNeedsEmpty);
      }
    }
    assert headers[..used] == headers;
  }
}
