# srsRAN zynq_timestamping core, modelled in Dafny

This project models the core of the srsRAN `zynq_timestamping` repository.
It covers the host side of the timestamped sample path between the srsRAN PHY and the FPGA, and the Vivado helper scripts that build the FPGA IPs:

- **Packet framing** (`Framing`). A DMA packet starts with eight 32-bit metadata words: six fixed preamble words and then a 64-bit timestamp, low half first.
- **The AD936x/IIO front-end** (`IioRules`). Covers:
  - preamble recognition and realignment in the reader thread;
  - buffer sizing when timestamping is switched on;
  - the sample-rate rules, including decimation below 25 MHz / 48;
  - gain offsets;
  - the TX header;
  - the zero fill before a buffer is pushed.
- **The RFSoC front-end** (`RfdcRules`). Covers:
  - preamble matching;
  - the TX header, which carries the DMA length in the high half of word 2;
  - opening the DMA devices and the channel checks;
  - buffer sizing;
  - ADC block choice;
  - sample-rate rules checked against the valid FFT sizes;
  - the byte count of a DMA send.
- **Sample accounting shared by both front-ends** (`StreamCommon`):
  - the receive loop that drains packets from the RX ring;
  - the writer thread that packs ring packets into fixed-size hardware buffers;
  - the split of a timestamp into seconds and ticks.
- **The `srs_dma` kernel driver** (`DmaQueue`):
  - the buffer queue, whose pending, in-flight and completed lists are sequences of buffer ids;
  - submission to the DMA engine and completion;
  - every ioctl command;
  - `mmap`;
  - open and release with the device semaphore;
  - the direction property.
- **PHY numerology** (`PhyCommon`):
  - valid PRB counts;
  - FFT symbol sizes in the reduced and the standard rate mode;
  - the sampling frequency;
  - valid symbol sizes.
- **Vivado scripts**:
  - `VivadoLog` classifies Vivado log lines and buckets them by kind. The regular expressions are modelled by `Regex`.
  - `PackConfig` covers the IP packing script: configuration normalisation, IP list selection and the build summary.
  - `BuildInfo` covers the build-info stamping script: the lazy `KEY {…}` substitution and the commit, date and time values.

`Wrappers` (Option and Result) and `Strings` (the Python string helpers the scripts rely on) are shared.

Modelling choices:

- 32-bit and 64-bit machine words are the subset types `Word` and `U64`.
- Where the code builds a word from parts, the arithmetic is written out: shifts, masks and truncating casts.
- Hardware, threads, the DMA engine, the clock, the environment and the file system become parameters.
  - The engine's answer to a submission is an `Engine` value.
  - The environment is a map.
  - The clock reading is a `Moment`.

Places where the code does something unexpected; the model follows the code:

- `create_tcl` builds a `$script_path/` prefix for hdl sources without a `$SRS_` prefix but never stores it. Such sources are kept as written (`PackConfig.SourcesWithoutPrefixUnchanged`).
- In debug mode `hdl_sources` becomes the very list object of `hdl_sources_debug`. Resolving the sources therefore also rewrites `hdl_sources_debug` (`PackConfig.Normalise`).
- `parse_message_step` writes the key `body` twice. The step body is therefore always empty (`VivadoLog.ClassifyStep`).
- A log line is a phase line when it starts with `Phase ` and contains `Checksum` anywhere.
- The last match of each pattern on a line wins (`Regex.LastMatch`).

## Model

| member | source | states |
|---|---|---|
| Framing.Join64 | sw/lib/src/phy/rf/rf_iio_imp.c:752 | The 64-bit timestamp read from words 6 and 7 has word 7 as its high half and word 6 as its low half. |
| Framing.JoinOfHalves | sw/lib/src/phy/rf/rf_iio_imp.c:1054 | Writing a timestamp as two words and reading it back gives the same timestamp. |
| Framing.HalvesOfJoin | sw/lib/src/phy/rf/rf_iio_imp.c:752 | Reading two words as a timestamp and splitting it again gives the same two words. |
| Framing.Metadata | sw/lib/src/phy/rf/rf_iio_imp.c:1046-1054 | A TX header is eight words: the six preamble words in order, then the timestamp, which reads back exactly. |
| IioRules.PreambleFsm | sw/lib/src/phy/rf/rf_iio_imp.c:729-757 | The state machine accepts (returns 1) exactly when the first six words are the preamble. It then takes the timestamp from words 6-7; otherwise it returns 0 and the current timestamp stays. |
| IioRules.FsmRunAccepts | sw/lib/src/phy/rf/rf_iio_imp.c:735-756 | The eight-step loop reaches the timestamp state exactly when the three common and three time-domain preamble words match. |
| IioRules.Realign | sw/lib/src/phy/rf/rf_iio_imp.c:808-819 | If a preamble sits at the stored location, it and its timestamp are used. Otherwise the scan moves to the last index below buffer size minus 7 that holds a preamble. If there is none, location and timestamp stay. |
| IioRules.UseTimestamping | sw/lib/src/phy/rf/rf_iio_imp.c:474-550 | Both streamers get the PRB-dependent buffer size and 8 metadata words. The TX buffer is re-created, with buffer plus metadata length, exactly when its size changes. A stream restarts, and its partial packet is dropped, exactly when its size changes while it is active. |
| IioRules.UseTimestampingIdempotent | sw/lib/src/phy/rf/rf_iio_imp.c:496-503 | Switching timestamping on a second time changes nothing: no buffer is re-created and no stream restarts. |
| IioRules.SubframeIsWholeBuffers | sw/lib/src/phy/rf/rf_iio_imp.c:484-491 | In the standard rate mode, one subframe of samples at any valid PRB count fills a whole number of data buffers. |
| IioRules.ReducedSubframeIsNotWholeBuffers | sw/lib/src/phy/rf/rf_iio_imp.c:484-491 | In the reduced rate mode at 25 PRB, a subframe holds 5760 samples but the buffer holds 7680. |
| IioRules.SetRxSrate | sw/lib/src/phy/rf/rf_iio_imp.c:313-372 | The requested rate is returned. An unchanged rate leaves everything as it is. A new rate sets both streamers and both core rates. The PHY runs 8 times faster when the rate is below 25 MHz / 48. An active RX stream loses its partial packet. Gains are kept. |
| IioRules.SetTxSrate | sw/lib/src/phy/rf/rf_iio_imp.c:374-383 | A TX rate that differs from the RX rate reconfigures exactly as an RX rate change does; otherwise nothing changes. |
| IioRules.SrateRules | sw/lib/src/phy/rf/rf_iio_imp.c:338-345 | After a change all four rates equal the request. The PHY rate is the rate or 8 times it, and it reaches 25 MHz / 48 whenever 8 times the rate does. Setting the same rate again changes nothing. |
| IioRules.Trunc | sw/lib/src/phy/rf/rf_iio_imp.c:388 | The C cast of a gain to an integer truncates toward zero, for both signs. |
| IioRules.GainRoundTrip | sw/lib/src/phy/rf/rf_iio_imp.c:385-426 | Reading a gain back gives the truncated gain that was set. The TX hardware gain is stored 89 dB lower than the gain reported. |
| IioRules.TxHeaderRecognised | sw/lib/src/phy/rf/rf_iio_imp.c:1046-1054 | The writer's header is accepted by the reader's state machine, whatever payload follows. The timestamp read back is the one written, or 0 without timestamps. |
| IioRules.SendBufFillAsWritten | sw/lib/src/phy/rf/rf_iio_imp.c:944-955 | As written, a partly filled buffer is zeroed from word `items` to the end, counted from the start of the buffer including the header. Words before it are kept. |
| IioRules.SendBufFill | sw/lib/src/phy/rf/rf_iio_imp.c:944-955 | Corrected fill: the header and the `items` written samples are kept, and only the samples after them are zeroed. |
| IioRules.SendBufFillKeepsHeader | sw/lib/src/phy/rf/rf_iio_imp.c:944-955 | With the corrected fill, a pushed buffer still carries a header the reader accepts, with its timestamp. |
| IioRules.SendBufFillAsWrittenLosesSamples | sw/lib/src/phy/rf/rf_iio_imp.c:948-953 | With 100 of 1920 samples written, the fill as written zeroes word 100, which holds sample 92. The corrected fill keeps it. |
| IioRules.SendBufFillAsWrittenLosesHeader | sw/lib/src/phy/rf/rf_iio_imp.c:948-953 | A buffer pushed with fewer than six samples written has at least its last time-domain preamble word zeroed, so the reader no longer recognises it. |
| IioRules.CheckLateRegister | sw/lib/src/phy/rf/rf_iio_imp.c:130-139 | Without mapped registers the late counter reads 0. |
| RfdcRules.MatchPreamble | sw/lib/src/phy/rf/xrfdc/rf_xlnx_rfdc_imp.c:1653-1661 | A packet matches exactly when its first six words are the preamble. |
| RfdcRules.MatchPreambleAgreesWithFsm | sw/lib/src/phy/rf/xrfdc/rf_xlnx_rfdc_imp.c:1653-1661 | The RFSoC matcher and the IIO state machine accept the same packets. |
| RfdcRules.TxMetadata | sw/lib/src/phy/rf/xrfdc/rf_xlnx_rfdc_imp.c:1955-1964 | The TX header keeps the preamble words except word 2. Word 2 has the short preamble in its low half and the DMA length (bytes minus 1) in its high half, truncated to 16 bits. Words 6-7 read back as the timestamp, or 0. |
| RfdcRules.TxLengthRecoverable | sw/lib/src/phy/rf/xrfdc/rf_xlnx_rfdc_imp.c:1955-1959 | For packets up to 0x4000 words (64 KiB), the packet length in words can be read back from word 2 of the header. |
| RfdcRules.TxHeaderIsNotRxHeader | sw/lib/src/phy/rf/xrfdc/rf_xlnx_rfdc_imp.c:1955-1962 | A TX header never matches the RX preamble, because its word 2 differs. |
| RfdcRules.OpenDmaDevice | sw/lib/src/phy/rf/xrfdc/rf_xlnx_rfdc_imp.c:213-256 | Opening fails with -1 exactly for RX when the channel count differs from the hardware's (0 read as 1). TX always has one channel. The sample size is 4 bytes per channel. |
| RfdcRules.OpenMulti | sw/lib/src/phy/rf/xrfdc/rf_xlnx_rfdc_imp.c:1342-1411 | Opening succeeds exactly when the channel count (0 read as 1) is 1 or 2 and equals the hardware's. The PRB count defaults to 6. |
| RfdcRules.ConfigureTimestamping | sw/lib/src/phy/rf/xrfdc/rf_xlnx_rfdc_imp.c:1239-1320 | Both buffers get the PRB-dependent size. TX has 8 metadata words and RX has 8 divided by the channel count. Re-creation and restarts happen exactly when a size changes. |
| RfdcRules.ConfigureTimestampingIdempotent | sw/lib/src/phy/rf/xrfdc/rf_xlnx_rfdc_imp.c:1264-1271 | Configuring twice with the same arguments changes nothing the second time. |
| RfdcRules.RxMetadataSplitsEvenly | sw/lib/src/phy/rf/xrfdc/rf_xlnx_rfdc_imp.c:1247 | For every channel count that opening accepts, the per-channel RX metadata times the channel count is exactly 8. |
| RfdcRules.ChooseAdcBlock | sw/lib/src/phy/rf/xrfdc/rf_xlnx_rfdc_imp.c:1526-1544 | The requested ADC block (0 when out of range) is used if enabled, else the other block. The call fails exactly when neither block is enabled. |
| RfdcRules.SetRxSrate | sw/lib/src/phy/rf/xrfdc/rf_xlnx_rfdc_imp.c:1448-1488 | A rate is taken, together with its FFT size register, exactly when rate/1000/15 is a valid symbol size. Otherwise rate and register stay. An active RX stream loses its partial packet. |
| RfdcRules.SetTxSrate | sw/lib/src/phy/rf/xrfdc/rf_xlnx_rfdc_imp.c:1490-1495 | The TX rate is copied from the RX rate whatever is asked. Nothing else changes. |
| RfdcRules.SrateAcceptsLteRates | sw/lib/src/phy/rf/xrfdc/rf_xlnx_rfdc_imp.c:1465-1473 | Every LTE sampling rate of a valid PRB count is accepted, and it programs that count's symbol size. |
| RfdcRules.SendBufFitsBuffer | sw/lib/src/phy/rf/xrfdc/rf_xlnx_rfdc_imp.c:1865-1876 | The bytes sent never exceed the allocated TX buffer. They are one more than the length written into the header. |
| StreamCommon.SplitTimestamp | sw/lib/src/phy/rf/rf_iio_imp.c:246-254 | With both outputs present, seconds times rate plus the remainder give back the timestamp, and the remainder is below the rate. Otherwise nothing is written. |
| StreamCommon.Recv | sw/lib/src/phy/rf/rf_iio_imp.c:877-919 | Never more than requested and at most 100 iterations. Every sample taken from the ring is delivered or stays in the current packet. A failed header read and a failed sample read return the ring error code; a bad magic returns its own code and empties the ring; otherwise the headers after the last one taken stay in the ring. A first packet large enough is served in one read with its timestamp, unless that read fails. |
| StreamCommon.WriterStep | sw/lib/src/phy/rf/rf_iio_imp.c:985-1091 | One iteration loses no sample: sent, buffered and pending samples add up to what was there plus the new packet. The buffer never fills past its size, and a pending packet shrinks. |
| StreamCommon.WriterStepAligned | sw/lib/src/phy/rf/xrfdc/rf_xlnx_rfdc_imp.c:1935 | The buffer holds exactly the current round's samples. Under that invariant the RFSoC skip condition, which also asks for an empty buffer, acts as the IIO one. |
| StreamCommon.RunWriter | sw/lib/src/phy/rf/rf_iio_imp.c:985-1091 | Fed any sequence of packets, the writer consumes them all. Every buffer it sends is at most full, and sent plus buffered samples equal the samples of all packets. |
| PhyCommon.InitialMode | sw/lib/src/phy/common/phy_common.c:20-24 | The rate mode starts standard exactly when the build forces standard rates. |
| PhyCommon.ModeRoundTrip | sw/lib/src/phy/common/phy_common.c:35-43 | Setting the mode and reading it back agree, and writing back what was read changes nothing. |
| PhyCommon.SymbolSzPower2 | sw/lib/src/phy/common/phy_common.c:55-72 | The power-of-two table fails exactly above 110 PRB. Otherwise it gives a standard size with room for 12 subcarriers per PRB. |
| PhyCommon.SymbolSz | sw/lib/src/phy/common/phy_common.c:74-98 | 0 PRB is an error. 1-110 PRB give a size valid in the active mode with room for all subcarriers. Above 110 gives an error. |
| PhyCommon.SamplingFreqHz | sw/lib/src/phy/common/phy_common.c:45-53 | The sampling frequency is 15 kHz times the symbol size, and an error exactly when the symbol size is. |
| PhyCommon.IsValidIffTable | sw/lib/src/phy/common/phy_common.c:100-117 | A symbol size is valid exactly when it is one of the six sizes of the active mode. |
| PhyCommon.SymbolSzOnto | sw/lib/src/phy/common/phy_common.c:74-117 | Every valid symbol size is the size of some PRB count between 1 and 110. |
| PhyCommon.SymbolSzMonotone | sw/lib/src/phy/common/phy_common.c:74-98 | More PRBs never give a smaller symbol size. |
| PhyCommon.SamplingFreqDefined | sw/lib/src/phy/common/phy_common.c:45-53 | The sampling frequency is an error exactly for 0 PRB and above 110 PRB. |
| PhyCommon.ValidPrbHasSymbolSz | sw/lib/src/phy/common/phy_common.c:26-33 | Every valid PRB count has a symbol size that the validity check accepts. |
| DmaQueue.Allocate | sw/lib/src/phy/rf/xrfdc/kernel_module/srs_dma_driver.c:397-455 | Allocation creates buffers numbered 0 up to the count, each of the requested size with an empty TX size. For MM2S they all join the completed list, in order. |
| DmaQueue.AllocateKeepsValid | sw/lib/src/phy/rf/xrfdc/kernel_module/srs_dma_driver.c:397-455 | Allocating into a queue without buffers keeps the queue invariant. |
| DmaQueue.FreeAsWritten | sw/lib/src/phy/rf/xrfdc/kernel_module/srs_dma_driver.c:367-395 | As written, freeing an initialised queue empties its lists and clears `initialized`, but keeps the buffer array pointer and count. |
| DmaQueue.Free | sw/lib/src/phy/rf/xrfdc/kernel_module/srs_dma_driver.c:367-395 | Corrected free: the array pointer and count are cleared too. An uninitialised queue is left alone. |
| DmaQueue.Reset | sw/lib/src/phy/rf/xrfdc/kernel_module/srs_dma_driver.c:212-227 | A reset empties pending and in-flight lists. For MM2S every buffer is put back on the completed list in id order; for S2MM nothing is. |
| DmaQueue.ResetKeepsValid | sw/lib/src/phy/rf/xrfdc/kernel_module/srs_dma_driver.c:212-227 | Resetting a disabled queue keeps the invariant. |
| DmaQueue.Submit | sw/lib/src/phy/rf/xrfdc/kernel_module/srs_dma_driver.c:299-352 | A disabled queue refuses with -EINVAL. The transfer size is the allocation for S2MM and the TX size for MM2S. An idle engine starts the buffer, or passes its error back. A busy engine gets it appended to the pending list. |
| DmaQueue.SubmitKeepsValid | sw/lib/src/phy/rf/xrfdc/kernel_module/srs_dma_driver.c:299-352 | Submitting a buffer that is not queued keeps the invariant. The queued buffers grow by that buffer exactly when it was taken. |
| DmaQueue.Complete | sw/lib/src/phy/rf/xrfdc/kernel_module/srs_dma_driver.c:141-201 | On a disabled queue completion does nothing. Otherwise the finished buffer goes to the completed list and the next pending one starts if the engine takes it. |
| DmaQueue.CompleteQueued | sw/lib/src/phy/rf/xrfdc/kernel_module/srs_dma_driver.c:169-200 | Completion never adds a buffer to the queue. Buffers only move between lists, or are dropped when the engine refuses them. |
| DmaQueue.CompleteKeepsValid | sw/lib/src/phy/rf/xrfdc/kernel_module/srs_dma_driver.c:141-201 | Completion keeps the invariant: at most one transfer in flight, and no buffer duplicated or unknown. |
| DmaQueue.SubmitFromAppends | sw/lib/src/phy/rf/xrfdc/kernel_module/srs_dma_driver.c:651-659 | Once buffer 0 is in flight, the enable loop queues every further buffer in id order and returns 0. |
| DmaQueue.SubmitFromKeepsValid | sw/lib/src/phy/rf/xrfdc/kernel_module/srs_dma_driver.c:651-659 | The enable loop keeps the invariant. |
| DmaQueue.EnableRx | sw/lib/src/phy/rf/xrfdc/kernel_module/srs_dma_driver.c:634-692 | Enabling an RX queue with buffers starts buffer 0 and queues the rest, when the engine accepts. When the engine refuses, the queue is disabled and reset, and its negative error code is returned. |
| DmaQueue.EnableTxOrEnabled | sw/lib/src/phy/rf/xrfdc/kernel_module/srs_dma_driver.c:638-649 | Enabling an enabled queue does nothing. Enabling a TX queue only sets the flag. |
| DmaQueue.DisableResets | sw/lib/src/phy/rf/xrfdc/kernel_module/srs_dma_driver.c:662-674 | Disabling keeps the invariant, clears the flag and returns 0. Afterwards only a TX queue has completed buffers, namely all of them in order. |
| DmaQueue.IoctlRefusals | sw/lib/src/phy/rf/xrfdc/kernel_module/srs_dma_driver.c:494-592 | PUT_RX and SEND_TX refuse with -EFAULT, changing nothing, when no buffers exist or the id is out of range. GET_RX on a disabled queue refuses with -EFAULT. |
| DmaQueue.PutRxHidesRefusal | sw/lib/src/phy/rf/xrfdc/kernel_module/srs_dma_driver.c:552-573 | PUT_RX of a known buffer returns 0 whatever happens to the submission. A taken submission queues the buffer; a disabled queue or a refusing engine leaves the queue as it was, and the caller cannot tell. |
| DmaQueue.GetHandsOutHead | sw/lib/src/phy/rf/xrfdc/kernel_module/srs_dma_driver.c:494-549 | GET_RX (on an enabled queue) and GET_TX hand out the oldest completed buffer and remove it from the list. Only the id is written into the reply; its transmit size is left unwritten. |
| DmaQueue.SendTxReply | sw/lib/src/phy/rf/xrfdc/kernel_module/srs_dma_driver.c:576-631 | SEND_TX writes the transmit size into the buffer. A disabled queue gives -EINVAL. When the submission is taken, user space gets the oldest completed buffer with a transmit size of 0, or waits when there is none. |
| DmaQueue.SendTxKeepsValid | sw/lib/src/phy/rf/xrfdc/kernel_module/srs_dma_driver.c:576-631 | Sending a TX buffer that is not queued keeps the invariant. |
| DmaQueue.Ioctl | sw/lib/src/phy/rf/xrfdc/kernel_module/srs_dma_driver.c:457-693 | The device's direction never changes. Only GET_RX, GET_TX and SEND_TX hand a buffer to user space, with a non-negative return. A call waits only when the completed list is empty, and only for those three commands. An unknown command gives -ENOTTY and changes nothing. DESTROY_BUFFERS uses the corrected free. |
| DmaQueue.IoctlKeepsValid | sw/lib/src/phy/rf/xrfdc/kernel_module/srs_dma_driver.c:457-693 | With the corrected free for DESTROY_BUFFERS, every ioctl keeps the queue invariant, provided user space does not return a buffer that is still queued or allocate twice. |
| DmaQueue.PopKeepsValid | sw/lib/src/phy/rf/xrfdc/kernel_module/srs_dma_driver.c:514-515 | Taking the head of the completed list keeps the invariant. |
| DmaQueue.DestroyedBuffersUnreachable | sw/lib/src/phy/rf/xrfdc/kernel_module/srs_dma_driver.c:484-491 | With the corrected free, every PUT_RX or SEND_TX after DESTROY_BUFFERS is refused with -EFAULT. |
| DmaQueue.FreeAsWrittenLeavesBuffersReachable | sw/lib/src/phy/rf/xrfdc/kernel_module/srs_dma_driver.c:367-395 | With the free as written, ALLOC_BUFFERS of one TX buffer and then DESTROY_BUFFERS breaks the queue invariant. A following SEND_TX of buffer 0 passes both sanity checks and writes its transmit size into the released buffer. On an enabled queue the released buffer is handed to the DMA engine. |
| DmaQueue.OpenAsWritten | sw/lib/src/phy/rf/xrfdc/kernel_module/srs_dma_driver.c:229-242 | As written, opening a busy device returns -EBUSY while still holding the semaphore. |
| DmaQueue.Open | sw/lib/src/phy/rf/xrfdc/kernel_module/srs_dma_driver.c:229-242 | Corrected open: the semaphore is released on both paths, and the device ends up in use. A busy device gives -EBUSY, a free one 0. |
| DmaQueue.Release | sw/lib/src/phy/rf/xrfdc/kernel_module/srs_dma_driver.c:244-256 | Release frees the buffers with the corrected free, disables the queue, marks the device unused and returns 0, or sleeps while the semaphore is held. |
| DmaQueue.OpenAsWrittenDeadlocks | sw/lib/src/phy/rf/xrfdc/kernel_module/srs_dma_driver.c:233-237 | After one refused open as written, both release and every further open sleep forever. |
| DmaQueue.OpenRefusalIsHarmless | sw/lib/src/phy/rf/xrfdc/kernel_module/srs_dma_driver.c:229-256 | With the corrected open, a refused open changes nothing: release then succeeds, and the next open succeeds. |
| DmaQueue.FindId | sw/lib/src/phy/rf/xrfdc/kernel_module/srs_dma_driver.c:269-278 | The search finds the first buffer with the requested id, or reports that no buffer has it. |
| DmaQueue.Mmap | sw/lib/src/phy/rf/xrfdc/kernel_module/srs_dma_driver.c:258-297 | mmap maps a buffer whose id is the page offset, or fails with -ENOMEM exactly when no buffer has that id. |
| DmaQueue.MmapSelectsUserBuffer | sw/lib/src/phy/rf/xrfdc/kernel_module/srs_dma_driver.c:270-284 | On a valid queue, the page offset a client computes for buffer i (offset i*4096) selects buffer i, or -ENOMEM past the last buffer. |
| DmaQueue.SelectDirection | sw/lib/src/phy/rf/xrfdc/kernel_module/srs_dma_driver.c:840-854 | A property starting "tx" gives MM2S named srs_tx_dma. One starting "rx" gives S2MM named srs_rx_dma. Anything else leaves the name unset and the direction at its zero value. |
| VivadoLog.CheckCommand | python_tools/srs_tools_fpga/vivado/vivado_logging_parser.py:94-97 | The command check raises exactly on "#" and "# ". It is true exactly for "# " followed by a lower-case letter. |
| VivadoLog.ClassifyDefault | python_tools/srs_tools_fpga/vivado/vivado_logging_parser.py:31-55 | Empty lines, and the lines on which the command check raises, give the default "none" message. |
| VivadoLog.ClassifyCommand | python_tools/srs_tools_fpga/vivado/vivado_logging_parser.py:89-97 | A line is a command exactly when the command check holds. Its body is the rest after "# ", right-stripped. |
| VivadoLog.ClassifyStep | python_tools/srs_tools_fpga/vivado/vivado_logging_parser.py:70-83 | A line starting "Starting" is a phase message with empty body and checksum. |
| VivadoLog.ClassifySystem | python_tools/srs_tools_fpga/vivado/vivado_logging_parser.py:154-157 | A line is a system message exactly when it starts "Time (s):". It is then parsed by the resource pattern. |
| VivadoLog.ClassifyPhase | python_tools/srs_tools_fpga/vivado/vivado_logging_parser.py:117-122 | A line is a phase message exactly when it starts "Starting", or starts "Phase " and contains "Checksum". |
| VivadoLog.ClassifyFallback | python_tools/srs_tools_fpga/vivado/vivado_logging_parser.py:50-51 | Every other non-empty line goes to the severity-tag parser. |
| VivadoLog.ParseSystemLast | python_tools/srs_tools_fpga/vivado/vivado_logging_parser.py:128-151 | The six fields are the groups of the match the left-to-right `finditer` scan reaches and after which no further match starts, or all empty when nothing matches. |
| VivadoLog.ParsePhaseLast | python_tools/srs_tools_fpga/vivado/vivado_logging_parser.py:103-114 | Tabs become spaces. Number, body and checksum are the right-stripped groups of the match the `finditer` scan reaches last, never one starting inside a match already taken, or empty when nothing matches. |
| VivadoLog.ParseInfoLast | python_tools/srs_tools_fpga/vivado/vivado_logging_parser.py:163-178 | The kind is warning, error, info or none. Code and body come from the tag match the `finditer` scan reaches last, or the default message is kept when nothing matches. |
| VivadoLog.PhaseAtSound | python_tools/srs_tools_fpga/vivado/vivado_logging_parser.py:106 | A phase match spells "Phase ", a number of digits and dots, a space, a body without newline, "\| Checksum: " and an alphanumeric checksum that runs to its end. |
| VivadoLog.PhaseBodyLongest | python_tools/srs_tools_fpga/vivado/vivado_logging_parser.py:106 | The greedy body reaches the last "\| Checksum: " on the line. |
| VivadoLog.TagAtSound | python_tools/srs_tools_fpga/vivado/vivado_logging_parser.py:166 | A tag match spells severity, ": [", a code of letters, digits, '-' and spaces, "] " and the rest of the line. |
| VivadoLog.TagAtComplete | python_tools/srs_tools_fpga/vivado/vivado_logging_parser.py:166 | Any text of that shape that runs to the end of the line is matched, with that severity, code and body. |
| VivadoLog.FirstTagOnLineWins | python_tools/srs_tools_fpga/vivado/vivado_logging_parser.py:166-176 | On a single line, the message comes from the first tag, because `.*` swallows every later one. |
| VivadoLog.Bucket | python_tools/srs_tools_fpga/vivado/vivado_logging_parser.py:14-22 | The buckets are exactly the seven message kinds. |
| VivadoLog.BucketIsFilter | python_tools/srs_tools_fpga/vivado/vivado_logging_parser.py:24-28 | Each bucket holds, in file order, exactly the classified lines of its kind. |
| VivadoLog.BucketSize | python_tools/srs_tools_fpga/vivado/vivado_logging_parser.py:24-28 | The buckets together hold one message per line. |
| Regex.RunEnd | python_tools/srs_tools_fpga/vivado/vivado_logging_parser.py:139 | A greedy character-class run stops at the first character outside the class. |
| Regex.LineEnd | python_tools/srs_tools_fpga/vivado/vivado_logging_parser.py:166 | `.*` stops at the first newline or the end. |
| Regex.MatchAtSound | python_tools/srs_tools_fpga/vivado/vivado_logging_parser.py:139 | A match spells the pattern token by token, its groups are the run tokens' texts, and every run is maximal. |
| Regex.MatchAtComplete | python_tools/srs_tools_fpga/vivado/vivado_logging_parser.py:139 | Any maximal spelling of an unambiguous pattern at a position is found there, with those groups. |
| Regex.LastMatchSpec | python_tools/srs_tools_fpga/vivado/vivado_logging_parser.py:140-149 | The `finditer` loop leaves the groups of a match its scan reaches (one position on after a miss, to the end of a match after a hit) and after which no further match starts, or the defaults when there is none. |
| Regex.ReachedResumes | python_tools/srs_tools_fpga/vivado/vivado_logging_parser.py:140-149 | The scan never looks at a position inside a match it took: it resumes at or after that match's end. |
| Regex.LastReachedUnique | python_tools/srs_tools_fpga/vivado/vivado_logging_parser.py:140-149 | Exactly one reached match has no match after it, so the groups the loop keeps come from one fixed match. |
| Strings.Rstrip | python_tools/srs_tools_fpga/vivado/vivado_logging_parser.py:110-112 | `rstrip` removes exactly the trailing whitespace: the result is a prefix and ends in a non-space. |
| Strings.ReplaceChar | python_tools/srs_tools_fpga/vivado/vivado_logging_parser.py:105 | Every tab, and nothing else, becomes a space. |
| Strings.JoinSplit | python_tools/srs_tools_fpga/vivado/pack.py:238-242 | Joining the parts of a split gives back the string. |
| Strings.SplitJoin | python_tools/srs_tools_fpga/vivado/pack.py:238-242 | Splitting a join of separator-free parts gives back the parts. |
| Strings.ParseDecimalOfDecimal | python_tools/srs_tools_fpga/vivado/replace_build_info.py:40-42 | `str` of a number reads back as that number. |
| Strings.Rjust | python_tools/srs_tools_fpga/vivado/replace_build_info.py:40-42 | `rjust` pads on the left with the fill to the width, and keeps the string as its suffix. |
| PackConfig.ResolveSources | python_tools/srs_tools_fpga/vivado/pack.py:52-64 | Resolution fails (AttributeError) exactly when a source is not a string. `$SRS_` sources become the environment value or None, and the others stay. |
| PackConfig.ResolveValue | python_tools/srs_tools_fpga/vivado/pack.py:52-64 | A missing list fails with TypeError. A plain string is left alone. A list is resolved element by element. |
| PackConfig.Normalise | python_tools/srs_tools_fpga/vivado/pack.py:21-64 | A missing hdl_sources raises KeyError. Debug mode takes the debug sources, which then alias hdl_sources. The optional keys get their defaults; the two single values get wrapped in a list. Every other key is kept. |
| PackConfig.SourcesWithoutPrefixUnchanged | python_tools/srs_tools_fpga/vivado/pack.py:54-63 | Sources without the `$SRS_` prefix are kept exactly as written. |
| PackConfig.ResolveIdempotent | python_tools/srs_tools_fpga/vivado/pack.py:54-63 | Resolving twice gives the same list, when no environment value itself starts with `$SRS_`. |
| PackConfig.DebugFallsBack | python_tools/srs_tools_fpga/vivado/pack.py:24-27 | Without debug sources, debug mode gives the same configuration as normal mode. |
| PackConfig.ParseRequest | python_tools/srs_tools_fpga/vivado/pack.py:228-242 | "Pack all" is chosen exactly when the list text is empty. The names split from it join back to that text. |
| PackConfig.Remove | python_tools/srs_tools_fpga/vivado/pack.py:253 | `remove` fails exactly when the name is absent, and otherwise drops its first occurrence only. |
| PackConfig.SelectAsWritten | python_tools/srs_tools_fpga/vivado/pack.py:250-253 | With a name list, every requested name is either packed or reported missing, and nothing else is. |
| PackConfig.SelectedIffRequested | python_tools/srs_tools_fpga/vivado/pack.py:252-253 | An IP is packed exactly when it is in the catalogue and was requested. |
| PackConfig.AllModeRaises | python_tools/srs_tools_fpga/vivado/pack.py:236-253 | In "pack all" mode the request list is [""], so the first catalogue IP with a non-empty name makes `remove` raise. |
| PackConfig.Select | python_tools/srs_tools_fpga/vivado/pack.py:250-253 | Corrected selection: "pack all" packs the whole catalogue in its order. |
| PackConfig.SelectAgrees | python_tools/srs_tools_fpga/vivado/pack.py:250-253 | With a name list, the corrected selection is exactly what the loop as written computes. |
| PackConfig.SelectFor | python_tools/srs_tools_fpga/vivado/pack.py:228-264 | A request selects the whole catalogue with nothing missing, or exactly the named IPs as written. |
| PackConfig.AllPacked | python_tools/srs_tools_fpga/vivado/pack.py:252 | The corrected "pack all" reports no IP as missing. |
| PackConfig.Insert | python_tools/srs_tools_fpga/vivado/pack.py:153-155 | Inserting into a list sorted by falling duration keeps it sorted and adds exactly that build. |
| PackConfig.SortByDuration | python_tools/srs_tools_fpga/vivado/pack.py:153-155 | The summary order is a permutation of the builds, sorted by falling duration. |
| PackConfig.Summary | python_tools/srs_tools_fpga/vivado/pack.py:147-162 | The table lists the builds by falling duration, then the total, then one "not found" row per missing IP, in order. |
| PackConfig.BuildsOfTimedRows | python_tools/srs_tools_fpga/vivado/pack.py:157-158 | The timed rows carry exactly the builds they were made from. |
| BuildInfo.FieldLen | python_tools/srs_tools_fpga/vivado/replace_build_info.py:32 | A field match ends at the first `}` after the opening, with no newline before it. There is none when a newline comes first. |
| BuildInfo.SubPlain | python_tools/srs_tools_fpga/vivado/replace_build_info.py:9-11 | Text in which no field starts is copied unchanged ahead of the rest. |
| BuildInfo.SubField | python_tools/srs_tools_fpga/vivado/replace_build_info.py:9-11 | A field is replaced as a whole, and the substitution goes on after its `}`. |
| BuildInfo.SubWithoutOpening | python_tools/srs_tools_fpga/vivado/replace_build_info.py:9-11 | Text without the opening of a field is left unchanged. |
| BuildInfo.CommitValue | python_tools/srs_tools_fpga/vivado/replace_build_info.py:31 | The commit value is "0x" and the first eight characters of the head hash, 10 characters for a full hash. |
| BuildInfo.Padded | python_tools/srs_tools_fpga/vivado/replace_build_info.py:40-42 | A padded number is all digits, has the width when it fits, and reads back as the number. |
| BuildInfo.DateValueReadsBack | python_tools/srs_tools_fpga/vivado/replace_build_info.py:38-46 | For a four-digit year the date value is 10 characters. Its digits read as year*10000 + month*100 + day. |
| BuildInfo.TimeValueReadsBack | python_tools/srs_tools_fpga/vivado/replace_build_info.py:48-55 | The time value is 10 characters. Its digits read as ((hour*100 + minute)*100 + second)*100. |
| BuildInfo.StampWithoutFields | python_tools/srs_tools_fpga/vivado/replace_build_info.py:28-55 | A file without any of the three fields is written back unchanged. |
| BuildInfo.FieldRewritten | python_tools/srs_tools_fpga/vivado/replace_build_info.py:9-11 | A field whose key holds no `}` is rewritten with the new value whatever it held before, and the rest of the file is processed on. |

## Left out

- `DmaQueue.Ioctl`, `DmaQueue.Release`, `DmaQueue.IoctlKeepsValid`: DESTROY_BUFFERS and release use the corrected `Free`, not the free as written. With `FreeAsWritten`, `Valid` does not survive DESTROY_BUFFERS (`DmaQueue.FreeAsWrittenLeavesBuffersReachable`); `DmaQueue.IoctlAsWritten` is the ioctl with the free as written.
- The `!buffer` check of SEND_TX (srs_dma_driver.c:594-598) is not modelled: every slot of the buffer array holds a buffer. After the free as written, that check reads released memory.
- GET_RX and GET_TX (srs_dma_driver.c:460, 518, 542) copy back a reply whose transmit size is never written: it holds whatever the kernel stack held. The model records it as unwritten (`None`) and does not model its contents.
- `StreamCommon.SplitTimestamp`: requires a positive rate when both outputs are present; the source divides by it unguarded. A rate below 1 Hz truncates to 0 there, and the division by zero is not modelled.
- `StreamCommon.Recv`: `srsran_ringbuffer_read` blocks while the ring is empty. `ring` stands for every header available before a header read fails, and running out of it is that failure; the first sample read that fails is the parameter `failAt` (100 or more: none). The samples themselves and the RFSoC driver's 500 µs sleep after an empty timed read are not modelled.
- Threads, mutexes, condition variables and spin locks are not modelled. Each operation is one atomic step on the state it touches.
- The IRQ callbacks and the DMA engine's asynchronous completion are not modelled either. `DmaQueue.Complete` is the step that runs when a completion fires.
- libiio, the RFdc driver, `/dev/mem` register maps, `ioctl` and `mmap` system calls are not modelled. Neither is the contents of sample buffers: only word positions and counts are modelled, not I/Q values or the int16-to-float conversion.
- Floating point is not modelled:
  - rates are integer Hz;
  - gains are reals truncated explicitly;
  - `frac_secs` is kept as the integer remainder;
  - durations in the pack summary are naturals;
  - `round(…, 2)` is omitted.
- The 25 MHz / 48 threshold is compared as 48 * rate against 25 000 000.
- The writer threads' timestamp bookkeeping is not modelled. This covers `have_timestamp`, stepping the timestamp by a buffer, and the late-register counting.
  - The IIO and RFSoC writers differ here: one steps by the buffer size, the other by the items.
  - Only the sample accounting of the writer loop is modelled.
- `RfdcRules.SetRxSrate`: requires the rate to be below 2^32 kHz. The source casts rate/1e3 to a 32-bit integer, which is undefined beyond that. The busy-wait for the MMCM lock is assumed to end.
- The RFSoC gain functions, RFdc tile/mixer programming, clock (LMK04208) programming and `rf_xrfdc_set_tx_freq` are not modelled. They are driver calls with no logic of their own.
- RFSoC `check_late_register` is not modelled; it is a plain register read.
- The kernel driver's failure paths are not modelled: `kmalloc` and `dma_zalloc_coherent` failures, `copy_from_user`/`copy_to_user` failures, and `-ERESTARTSYS` from interrupted waits. A blocking wait for a completed buffer appears as the reply `Waits`.
- The device probe and removal, character-device creation, and the `submit_buffer` work item (which is unused) are not modelled.
- `IioRules.CheckLateRegister`: states only the unmapped case. The mapped case is a plain read of register 4.
- `VivadoLog`: `islower` is taken for ASCII letters only.
- `PackConfig` does not model YAML parsing, Jinja rendering or running Vivado. The configuration is a map of values, and the build durations are inputs.
- `PackConfig.SortByDuration`: does not state that Python's `sorted` is stable. Builds of equal duration may appear in any order.
- `BuildInfo`: the replacement text of `re.sub` is used literally. This is exact for the values the script builds, which contain no backslashes.
- `SRSRAN_MAX_PRB` is taken as 110, its value in the srsRAN headers. `SRSRAN_SF_LEN_PRB` is an argument of the RFSoC buffer sizing. Both headers are not part of this model.
- `time_to_tstamp_iio` and `time_to_hw_tstamp` are not modelled; they are floating-point conversions.

## Findings

| source | as written | input that shows it | evidently intended | confidence | as-written member | corrected member |
|---|---|---|---|---|---|---|
| sw/lib/src/phy/rf/rf_iio_imp.c:944-955 | `send_buf` zero-fills from `start + items_in_buffer * step`, ignoring the 8 metadata words in front of the samples | 100 samples in a 1920-sample buffer: words 100-107, which hold samples 92-99, are zeroed. An end of burst with 3 samples has header words 3-7 zeroed | zero only from word `metadata_samples + items_in_buffer` | not executed | IioRules.SendBufFillAsWritten, IioRules.SendBufFillAsWrittenLosesSamples, IioRules.SendBufFillAsWrittenLosesHeader | IioRules.SendBufFill, IioRules.SendBufFillKeepsHeader |
| sw/lib/src/phy/rf/xrfdc/kernel_module/srs_dma_driver.c:236-237 | `srs_dma_open` returns `-EBUSY` without `up(&d_info->sem)` | a second open of a device that is in use | release the semaphore before returning `-EBUSY` | not executed | DmaQueue.OpenAsWritten, DmaQueue.OpenAsWrittenDeadlocks | DmaQueue.Open, DmaQueue.OpenRefusalIsHarmless |
| sw/lib/src/phy/rf/xrfdc/kernel_module/srs_dma_driver.c:367-395 | `free_trx_dma_buffers` frees the buffer array but leaves `queue.buffers` and `number_of_buffers` set, so the checks at 583-598 still pass | ALLOC_BUFFERS with one buffer on the TX device, DESTROY_BUFFERS, then SEND_TX_BUFFER with id 0 | clear the pointer and the count so later commands get `-EFAULT` | not executed | DmaQueue.FreeAsWritten, DmaQueue.IoctlAsWritten, DmaQueue.FreeAsWrittenLeavesBuffersReachable | DmaQueue.Free, DmaQueue.Ioctl, DmaQueue.DestroyedBuffersUnreachable |
| python_tools/srs_tools_fpga/vivado/pack.py:236-253 | in "pack all" mode `ips` is `"".split(",") == [""]`, and `ips.remove(name)` runs for every catalogue IP | an empty `--ip_list` with a catalogue holding an IP named "a": `remove` raises ValueError | pack every IP and report none missing | not executed | PackConfig.SelectAsWritten, PackConfig.AllModeRaises | PackConfig.Select, PackConfig.SelectFor, PackConfig.AllPacked |
