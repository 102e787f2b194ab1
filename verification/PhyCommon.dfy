/** LTE numerology of the PHY library: which PRB counts are valid, the FFT
    symbol size for a PRB count in the two rate modes, the sampling frequency
    that follows from it, and which symbol sizes are valid.

    The library keeps the rate mode in a process-wide flag; here it is the
    explicit `RateMode` argument. The library's error constant is the
    argument `err`. */
module PhyCommon {

  /** The `use_standard_rates` flag: standard LTE power-of-two FFT sizes, or
      the reduced sizes used by default. */
  datatype RateMode = RateMode(standard: bool)

  /** The flag's initial value, fixed when the library is built. */
  function InitialMode(forceStandardRate: bool): (m: RateMode)
    ensures m.standard == forceStandardRate
  {
    RateMode(forceStandardRate)
  }

  /** `srsran_use_standard_symbol_size`. */
  function UseStandardSymbolSize(m: RateMode, enabled: bool): RateMode {
    m.(standard := enabled)
  }

  /** `srsran_symbol_size_is_standard`. */
  function SymbolSizeIsStandard(m: RateMode): bool {
    m.standard
  }

  /** The upper PRB count the symbol-size tables cover. */
  const MaxTablePrb: nat := 110

  /** `srsran_nofprb_isvalid`, with the library's PRB bound as `maxPrb`. */
  predicate NofPrbIsValid(nofPrb: nat, maxPrb: nat) {
    nofPrb == 1 || (6 <= nofPrb <= maxPrb)
  }

  /** The six symbol sizes of each mode. */
  function ValidSizes(m: RateMode): set<int> {
    if m.standard then {128, 256, 512, 1024, 1536, 2048} else {128, 256, 384, 768, 1024, 1536}
  }

  /** `srsran_symbol_sz_power2`: the standard table, -1 above 110 PRB. A PRB
      count of 0 is not rejected here. */
  function SymbolSzPower2(nofPrb: nat): (r: int)
    ensures r == -1 <==> nofPrb > MaxTablePrb
    ensures r != -1 ==> r in ValidSizes(RateMode(true)) && 12 * nofPrb < r
  {
    if nofPrb <= 6 then 128
    else if nofPrb <= 15 then 256
    else if nofPrb <= 25 then 512
    else if nofPrb <= 52 then 1024
    else if nofPrb <= 79 then 1536
    else if nofPrb <= 110 then 2048
    else -1
  }

  /** `srsran_symbol_sz`: a size of the active mode's table whose FFT has room
      for all 12 subcarriers of every PRB; `err` for 0 PRB, and for more than
      110 PRB `err` in the reduced mode but -1 in the standard one. */
  function SymbolSz(m: RateMode, nofPrb: nat, err: int): (r: int)
    ensures 1 <= nofPrb <= MaxTablePrb ==> r in ValidSizes(m) && 12 * nofPrb < r
    ensures nofPrb == 0 ==> r == err
    ensures nofPrb > MaxTablePrb ==> r == (if m.standard then -1 else err)
  {
    if nofPrb == 0 then err
    else if !m.standard then
      if nofPrb <= 6 then 128
      else if nofPrb <= 15 then 256
      else if nofPrb <= 25 then 384
      else if nofPrb <= 52 then 768
      else if nofPrb <= 79 then 1024
      else if nofPrb <= 110 then 1536
      else err
    else SymbolSzPower2(nofPrb)
  }

  /** `srsran_sampling_freq_hz`: 15 kHz per FFT bin. */
  function SamplingFreqHz(m: RateMode, nofPrb: nat, err: int): (r: int)
    ensures 1 <= nofPrb <= MaxTablePrb ==> r == 15000 * SymbolSz(m, nofPrb, err) && r % 15000 == 0
    ensures SymbolSz(m, nofPrb, err) == -1 ==> r == err
  {
    var n := SymbolSz(m, nofPrb, err);
    if n == -1 then err else 15000 * n
  }

  /** `srsran_symbol_sz_isvalid`. */
  predicate SymbolSzIsValid(m: RateMode, symbolSz: nat) {
    if !m.standard then
      symbolSz == 128 || symbolSz == 256 || symbolSz == 384 || symbolSz == 768
      || symbolSz == 1024 || symbolSz == 1536
    else
      symbolSz == 128 || symbolSz == 256 || symbolSz == 512 || symbolSz == 1024
      || symbolSz == 1536 || symbolSz == 2048
  }

  /** The flag reads back what was last written. */
  lemma ModeRoundTrip(m: RateMode, enabled: bool)
    ensures SymbolSizeIsStandard(UseStandardSymbolSize(m, enabled)) == enabled
    ensures UseStandardSymbolSize(m, SymbolSizeIsStandard(m)) == m
  {
  }

  /** Validity is membership in the mode's table. */
  lemma IsValidIffTable(m: RateMode, symbolSz: nat)
    ensures SymbolSzIsValid(m, symbolSz) <==> symbolSz in ValidSizes(m)
  {
  }

  /** The sizes `SymbolSz` produces are exactly the sizes `SymbolSzIsValid`
      accepts: every valid size is the size of some PRB count in 1..110. */
  lemma {:induction false} SymbolSzOnto(m: RateMode, symbolSz: nat, err: int) returns (nofPrb: nat)
    requires SymbolSzIsValid(m, symbolSz)
    ensures 1 <= nofPrb <= MaxTablePrb && SymbolSz(m, nofPrb, err) == symbolSz
  {
    if m.standard {
      nofPrb := if symbolSz == 128 then 6 else if symbolSz == 256 then 15 else if symbolSz == 512 then 25
        else if symbolSz == 1024 then 52 else if symbolSz == 1536 then 79 else 110;
    } else {
      nofPrb := if symbolSz == 128 then 6 else if symbolSz == 256 then 15 else if symbolSz == 384 then 25
        else if symbolSz == 768 then 52 else if symbolSz == 1024 then 79 else 110;
    }
  }

  /** More PRB never means a smaller FFT. */
  lemma SymbolSzMonotone(m: RateMode, a: nat, b: nat, err: int)
    requires 1 <= a <= b <= MaxTablePrb
    ensures SymbolSz(m, a, err) <= SymbolSz(m, b, err)
  {
  }

  /** With the library's error value -1, the sampling frequency is an error
      exactly when the PRB count is outside 1..110. */
  lemma SamplingFreqDefined(m: RateMode, nofPrb: nat)
    ensures SamplingFreqHz(m, nofPrb, -1) == -1 <==> nofPrb == 0 || nofPrb > MaxTablePrb
  {
  }

  /** Every PRB count the library accepts (with its bound of 110) has a symbol
      size. */
  lemma ValidPrbHasSymbolSz(m: RateMode, nofPrb: nat, err: int)
    requires NofPrbIsValid(nofPrb, MaxTablePrb)
    ensures SymbolSzIsValid(m, SymbolSz(m, nofPrb, err) as nat)
  {
  }
}
