# Covert channel in IPv4 options: a Dafny model

The repository runs a covert storage channel between two hosts. A sender
hides a text message in the *number of NOP bytes* (`0x01`) in the IPv4
options of UDP packets. A receiver sniffs those packets and reassembles the
message. A detector watches traffic in a sliding time window and flags
option-heavy, high-entropy, poorly compressible bursts.

The model covers four programs:

- the scrambled sender `send_once`;
- the earlier unscrambled sender;
- the receiver's `count_nops` / `handler` / `finish` state machine under
  `sniff`;
- the detector's `feed`.

How each program is modelled:

- **Pure code** becomes functions and lemmas:
  - option building and padding;
  - text ↔ symbol coding;
  - NOP counting;
  - majority voting;
  - the handler's transition on a `Session` value.
- **Code that changes state** becomes imperative Dafny:
  - The senders' loops are methods proved to emit exactly the packets of a
    specification function.
  - The receiver is a class whose `Handler`, `Finish`, `OnAlarm` and
    `Sniff` methods update its fields in place, with a `while` loop for
    the voting. Each is proved to update the fields exactly as the pure
    transition does; `Handler`, `OnAlarm` and `Sniff` also keep the
    receiver's invariant.
  - The detector is a class whose `Feed` appends to the window and evicts
    from the front in a loop.

The main results:

- `Transmission.CovertChannel` (`transmission.dfy`): the packets the
  scrambled sender emits for a non-empty message whose characters are all
  below 256, once captured by a receiver with the same settings and mask,
  log exactly one run whose text is the message with trailing NULs
  stripped.
- `Codec.TextRoundTrip` (`codec.dfy`): for a text whose characters are
  all below 256, decoding the encoded symbols gives back the text, minus
  trailing NULs. An empty message logs no run at all, because `finish`
  returns early (`Transmission.EmptyMessage`). A character at or above 256
  is encoded as the sender encodes it, with more than 8 digits, and does
  not survive the round trip (`Codec.WideTextLost`).
- `Transmission.NoisyBlock` (`transmission.dfy`): a block in which a
  strict majority of copies is right decodes as if it were clean.

Files (one module each):

- `bits.dfy`: powers of two, binary digits, Python's `^`.
- `codec.dfy`: text ↔ symbols, START/END, the mask type.
- `wire.dfy`: bytes, padding, IPv4 headers, packets, emissions.
- `covert_sender.dfy`: the scrambled sender.
- `plain_sender.dfy`: the unscrambled sender.
- `receiver.dfy`: the receiver.
- `transmission.dfy`: the end-to-end lemmas.
- `detector.dfy`: the detector.

Where the design description and the code disagree, the model follows the
code:

- **Cumulative START and END counters.** The START counter in the waiting
  state is never reset by other readings (`receiver_covert.py:98-105`), so
  three STARTs need not be consecutive (`Transmission.ScatteredStarts`). The
  END counter likewise counts all END readings since the last reset.
- **The alarm only stops the capture.** The `SIGALRM` handler raises the
  stop flag and finalizes nothing (`receiver_covert.py:129`). `sniff`'s stop
  filter is evaluated only after a packet is handled, so capture ends after
  the next packet is processed (`Receiver.Run`).
- **The sender and receiver must share the mask.** Both build it from
  Python's `hash` of a tuple holding a bytes object, which CPython salts per
  process unless `PYTHONHASHSEED` is fixed. The model assumes, as the
  protocol requires, that both sides are given the same mask function.

## Model

| member | source | states |
|---|---|---|
| Bits.Format | code/insec/receiver_covert.py:26 | `f'{v:0{w}b}'` never has fewer than `w` digits |
| Bits.FormatValue | code/insec/receiver_covert.py:26 | the digits of `f'{v:0{w}b}'` read back as `v` |
| Bits.FormatFits | code/insec/receiver_covert.py:26 | a value below `2^w` is written with exactly `w` digits |
| Bits.ValueOfToBits | code/insec/receiver_covert.py:29 | `int(digits, 2)` of a value's `w`-digit form is the value |
| Bits.ToBitsOfValue | code/sec/sender_covert.py:23 | writing `int(digits, 2)` back in `len(digits)` digits restores the digits |
| Bits.Xor | code/sec/sender_covert.py:52 | Python's `^` on non-negative integers, bit by bit; its properties are `XorInvolution`, `XorBound` and `XorZero` |
| Bits.XorInvolution | code/insec/receiver_covert.py:125 | unmasking with the same mask undoes the sender's masking |
| Bits.XorBound | code/sec/sender_covert.py:52 | xor of two `w`-bit values is a `w`-bit value |
| Bits.XorZero | code/sec/sender_covert.py:52 | xor with 0 leaves a symbol unchanged |
| Codec.TextToSymbols | code/sec/sender_covert.py:20-23 | every symbol is below `2^bits` |
| Codec.Chunks | code/sec/sender_covert.py:23 | every `bits`-wide chunk read as binary is below `2^bits` |
| Codec.ChunksCount | code/sec/sender_covert.py:23 | a bit string of `n * w` digits splits into exactly `n` chunks |
| Codec.ChunksRoundTrip | code/sec/sender_covert.py:23 | re-formatting the chunks of a bit string whose length is a multiple of the width gives the bit string back |
| Codec.ChunksOfSymbolBits | code/insec/receiver_covert.py:26 | cutting the receiver's digit string of in-band symbols back into `w`-wide chunks gives the symbols back |
| Codec.SymbolBitsLength | code/insec/receiver_covert.py:26 | in-band symbols give the decoder exactly `len(symbols) * bits` digits |
| Codec.Start | code/sec/sender_covert.py:30 | the START marker `1 << bits`; `MaskedInBand` and `DataInBand` show no data count reaches it |
| Codec.End | code/sec/sender_covert.py:30 | the END marker `(1 << bits) + 1`; `WidthCap` bounds its options at 40 bytes |
| Codec.TextBits | code/sec/sender_covert.py:21 | the concatenated `f"{ord(c):08b}"` digits; `TextBitsLength` and `DecodeTextBits` state their length and that they decode back |
| Codec.SymbolBits | code/insec/receiver_covert.py:26 | the receiver's concatenated `f'{s:0{bits}b}'` digits; `SymbolBitsLength` and `ChunksOfSymbolBits` state their length and that they regroup into the symbols |
| Codec.TextBitsLength | code/sec/sender_covert.py:21 | an 8-bit text gives 8 digits per character |
| Codec.PaddedLength | code/sec/sender_covert.py:22 | `(-len) % bits` is below `bits` and brings the length to a multiple of `bits` |
| Codec.TextToSymbolsLayout | code/sec/sender_covert.py:20-23 | the symbols' digits are the text's bits followed by fewer than `bits` zeros |
| Codec.SymbolCount | code/sec/sender_covert.py:20-23 | the symbol count is the smallest that covers `8 * len(txt)` bits |
| Codec.NoTextNoSymbols | code/sec/sender_covert.py:20-23 | a text yields symbols exactly when it is non-empty |
| Codec.HiInNibbles | code/sec/sender_covert.py:20-23 | "Hi" in 4-bit symbols is 4, 8, 6, 9 |
| Codec.DecodeBytes | code/insec/receiver_covert.py:28-29 | `chr(int(bitstr[i:i+8], 2))` per 8-digit slice, the last slice possibly shorter; `DecodeLatin1`, `DecodeLength`, `DecodeTextBits` and `DecodeZeros` state what it yields |
| Codec.DecodeLatin1 | code/insec/receiver_covert.py:28-29 | every character `chr(int(b, 2))` of an 8-digit group is below 256 |
| Codec.DecodeLength | code/insec/receiver_covert.py:28-29 | a digit string of whole bytes gives one character per byte |
| Codec.WholeBytes | code/insec/receiver_covert.py:27 | `bitstr[: len(bitstr) - len(bitstr) % 8]`; `WholeBytesShape` states what is kept |
| Codec.WholeBytesShape | code/insec/receiver_covert.py:27 | the kept bits are a prefix of whole bytes and lose no whole byte |
| Codec.RStripNul | code/insec/receiver_covert.py:30 | the longest prefix that does not end in NUL and is followed only by NULs |
| Codec.BitsToText | code/insec/receiver_covert.py:25-30 | `bits_to_text`; `BitsToTextShape` bounds its result and `TextRoundTrip` shows it inverts `text_to_symbols` |
| Codec.BitsToTextShape | code/insec/receiver_covert.py:25-30 | the decoded text is 8-bit, at most one character per whole byte, and has no trailing NUL |
| Codec.DecodeTextBits | code/insec/receiver_covert.py:28-29 | decoding a text's bits followed by whole bytes gives the text followed by their decoding |
| Codec.DecodeZeros | code/insec/receiver_covert.py:28-29 | zero bytes decode to NUL characters |
| Codec.StripAppendedNuls | code/insec/receiver_covert.py:30 | appended NULs are all stripped |
| Codec.TextRoundTrip | code/insec/receiver_covert.py:25-30 | for every width, a text whose characters are all below 256 decodes back as `t` with trailing NULs stripped |
| Codec.WideTextLost | code/sec/sender_covert.py:21 | a text holding a character at or above 256 never survives the round trip, since the receiver reads 8 digits per character |
| Codec.RoundTrip | code/insec/receiver_covert.py:25-30 | the round trip is exact for a text whose characters are all below 256 and that does not end in NUL |
| Wire.Fill | code/sec/sender_covert.py:17 | `b * n` is `n` copies of `b` |
| Wire.Pad4 | code/sec/sender_covert.py:9-10 | padding keeps the options as a prefix, appends fewer than 4 zero bytes, reaches a multiple of 4, and changes nothing already aligned |
| Wire.Occurrences | code/insec/receiver_covert.py:23 | a byte count never exceeds the length |
| Wire.OccurrencesAppend | code/insec/receiver_covert.py:23 | counting distributes over concatenation |
| Wire.OccurrencesFill | code/insec/receiver_covert.py:23 | `n` copies of `x` contain `n` bytes `x` and no other byte |
| Wire.Slice | code/insec/receiver_covert.py:18 | Python slicing clamps to the sequence |
| Wire.OptionsRegion | code/insec/receiver_covert.py:18 | the region is at most the `(ihl - 5) * 4` bytes the header announces |
| Wire.RegionOfCarrier | code/insec/receiver_covert.py:18 | on a header carrying options, the announced region is exactly those options |
| Wire.Emission | code/sec/sender_covert.py:38-41 | the datagrams `pkt(c)` builds for a sequence of counts, in order; `EmissionSnoc` and `SendRun` relate it to the send loops |
| Wire.EmissionSnoc | code/sec/sender_covert.py:38-41 | one more count sends one more packet, built from that count |
| Wire.SendRun | code/sec/sender_covert.py:45-46 | sending a count `n` times appends exactly the packets of `n` more copies of that count |
| CovertSender.BuildOpts | code/sec/sender_covert.py:12-18 | no options for 0; otherwise the decoy Timestamp header, `n` NOPs, zero padding to `roundup(4 + n, 4)` bytes |
| CovertSender.WidthCap | code/sec/sender_covert.py:26-27 | the END packet's options fit in 40 bytes exactly when the width is at most 5 |
| CovertSender.DataBlocks | code/sec/sender_covert.py:51-56 | each symbol masked with `make_mask(idx)` and repeated `pps` times; `DataBlocksLength`, `DataBlocksAt` and `DataInBand` state its layout |
| CovertSender.Stream | code/sec/sender_covert.py:44-62 | three STARTs, the data blocks, three ENDs; `StreamFraming` states the framing and `CovertChannel` what a receiver makes of it |
| CovertSender.MaskedInBand | code/sec/sender_covert.py:52 | a masked symbol stays below START, so it is never taken for a marker |
| CovertSender.DataBlocksLength | code/sec/sender_covert.py:51-56 | the data section has `len(symbols) * pps` packets |
| CovertSender.DataBlocksAt | code/sec/sender_covert.py:51-56 | packet `k * pps + j` of the data section carries symbol `k` masked with `mask(k)` |
| CovertSender.DataInBand | code/sec/sender_covert.py:51-56 | every data count is below START |
| CovertSender.StreamFraming | code/sec/sender_covert.py:44-62 | three STARTs, then only in-band data, then three ENDs, `6 + len(symbols) * pps` packets in all |
| CovertSender.SendData | code/sec/sender_covert.py:51-56 | the data loop appends exactly the packets of every symbol, masked with its index, `pps` times each, in order |
| CovertSender.SendOnce | code/sec/sender_covert.py:25-66 | aborts exactly for widths over 5; otherwise sends exactly the framed, masked, repeated stream of the message to the port and reports `len(symbols) * nop_bits` bits |
| PlainSender.BuildOpts | code/sec/sender_tpphase2.py:8-9 | no options for 0; otherwise `n` NOPs padded with zeros to a multiple of 4 |
| PlainSender.DataBlocks | code/sec/sender_tpphase2.py:30-32 | each symbol repeated `pps` times, unmasked; `UnmaskedData` equates it with the scrambled sender's under a zero mask |
| PlainSender.Stream | code/sec/sender_tpphase2.py:29-33 | three STARTs, the data blocks, three ENDs; `UnmaskedStream` equates it with the scrambled stream under a zero mask |
| PlainSender.UnmaskedStream | code/sec/sender_tpphase2.py:29-33 | the plain stream is the scrambled stream under an all-zero mask |
| PlainSender.UnmaskedData | code/sec/sender_tpphase2.py:30-32 | the same for the data section |
| PlainSender.NoDecoy | code/sec/sender_tpphase2.py:9 | plain options start with a NOP, never with the decoy's type byte |
| PlainSender.SendData | code/sec/sender_tpphase2.py:30-32 | the data loop appends exactly the packets of every symbol, `pps` times each, in order |
| PlainSender.SendOnce | code/sec/sender_tpphase2.py:16-37 | aborts exactly for widths over 5; otherwise sends exactly the framed, repeated stream and reports the bits |
| Receiver.CountNops | code/insec/receiver_covert.py:13-23 | 0 without options; otherwise at most the announced region's length |
| Receiver.ReadsCovertOptions | code/insec/receiver_covert.py:13-23 | on the scrambled sender's packets the count read is the count sent |
| Receiver.ReadsPlainOptions | code/insec/receiver_covert.py:19-23 | the same on the plain sender's packets: no bytes are wrongly stripped |
| Receiver.Mode | code/insec/receiver_covert.py:122 | `Counter(block).most_common(1)[0][0]` as a scan for the first value of highest count; `ModeIsMostCommon`, `UnanimousVote` and `MajorityVote` state what it returns |
| Receiver.ModeFromSpec | code/insec/receiver_covert.py:122 | the scan ends on a most frequent value, the first to occur among equals |
| Receiver.ModeIsMostCommon | code/insec/receiver_covert.py:122 | `most_common(1)[0][0]` is a value of the block, occurs at least as often as any other, and is the first to occur among equally frequent values |
| Receiver.UnanimousVote | code/insec/receiver_covert.py:122 | a block of identical counts votes for that count |
| Receiver.MajorityVote | code/insec/receiver_covert.py:120-122 | a value filling more than half of a block wins the vote |
| Receiver.FinishRun | code/insec/receiver_covert.py:64-89 | no-op without symbols; otherwise one more run, logged with its bits and decoded text, symbols cleared, stop raised once `repeat` runs are done |
| Receiver.Absorb | code/insec/receiver_covert.py:120-127 | the loop ends with fewer than `pps` counts buffered |
| Receiver.AbsorbExtends | code/insec/receiver_covert.py:126 | the loop only appends to the symbols decoded so far |
| Receiver.AbsorbDrops | code/insec/receiver_covert.py:127 | the loop only drops counts from the front of the buffer |
| Receiver.AbsorbBlocks | code/insec/receiver_covert.py:120-127 | each appended symbol consumes exactly `pps` buffered counts |
| Receiver.Handle | code/insec/receiver_covert.py:98-127 | the handler's transition on one count read from an on-port packet; `HandleInv` shows it keeps the invariant and the `Transmission` lemmas what runs of counts do |
| Receiver.Receive | code/insec/receiver_covert.py:91-127 | `handler(pkt)`: off-port or non-UDP packets change nothing, others go through `Handle`; `RunIsFeed` relates it to `Feed` |
| Receiver.Feed | code/insec/receiver_covert.py:136-142 | the handler on a sequence of counts until the stop flag is set; `FeedInv`, `FeedAppend` and `ReceivesMessage` state what it does |
| Receiver.Run | code/insec/receiver_covert.py:136-142 | `sniff` with `stop_filter` on a sequence of packets; `RunIsFeed` and `CovertChannel` state what it does |
| Receiver.BufferData | code/insec/receiver_covert.py:116-120 | a data count that does not complete a block is only buffered |
| Receiver.CompleteBlock | code/insec/receiver_covert.py:119-127 | a count completing a block appends its unmasked vote and empties the buffer |
| Receiver.Alarm | code/insec/receiver_covert.py:129 | the alarm raises the stop flag |
| Receiver.InitialInv | code/insec/receiver_covert.py:60-62 | the start-up state satisfies the handler invariant |
| Receiver.HandleInv | code/insec/receiver_covert.py:91-127 | the handler keeps counters below 3 and the buffer below `pps`, clears symbols when waiting, keeps the run log in step with `runs`, never lowers stop and logs at most one run |
| Receiver.FeedInv | code/insec/receiver_covert.py:136-142 | the invariant holds after any sequence of readings |
| Receiver.AlarmInv | code/insec/receiver_covert.py:129 | the alarm keeps the invariant |
| Receiver.CovertReceiver.constructor | code/insec/receiver_covert.py:60-62 | waiting, empty buffers, no runs, stop clear |
| Receiver.CovertReceiver.Finish | code/insec/receiver_covert.py:64-89 | updates the fields exactly as `FinishRun` |
| Receiver.CovertReceiver.Handler | code/insec/receiver_covert.py:91-127 | ignores packets that are not UDP to the port; otherwise updates the fields exactly as the transition on the packet's count, and keeps the invariant |
| Receiver.CovertReceiver.OnWaiting | code/insec/receiver_covert.py:98-105 | in the waiting state, updates the fields exactly as the transition on the count |
| Receiver.CovertReceiver.OnReceiving | code/insec/receiver_covert.py:107-127 | in the receiving state, updates the fields exactly as the transition on the count, early returns included |
| Receiver.CovertReceiver.Drain | code/insec/receiver_covert.py:120-127 | the `while` loop leaves the buffer and symbols as the voting function does and changes no other field |
| Receiver.CovertReceiver.OnAlarm | code/insec/receiver_covert.py:129 | raises the stop flag only |
| Receiver.CovertReceiver.Sniff | code/insec/receiver_covert.py:136-142 | hands packets to the handler in order until one leaves the stop flag set; the final state is `Run` of the packets, and the invariant holds |
| Transmission.FeedAppend | code/insec/receiver_covert.py:136-142 | handling two runs of readings in turn is handling their concatenation, unless the first stops capture |
| Transmission.FeedSnoc | code/insec/receiver_covert.py:136-142 | one more reading is one more handler call |
| Transmission.PartialBlock | code/insec/receiver_covert.py:116-120 | fewer than `pps` data readings are only buffered |
| Transmission.BlockVote | code/insec/receiver_covert.py:119-127 | `pps` data readings add one symbol: their unmasked vote |
| Transmission.NoisyBlock | code/insec/receiver_covert.py:120-122 | a block whose majority is `m` decodes as `pps` clean copies of `m` |
| Transmission.NextSymbol | code/insec/receiver_covert.py:121-126 | `pps` copies of a masked symbol add exactly that symbol |
| Transmission.DataReceived | code/insec/receiver_covert.py:119-127 | the sender's whole data section is decoded into exactly the sent symbols |
| Transmission.StartsOpen | code/insec/receiver_covert.py:98-105 | three STARTs open a message from any waiting state |
| Transmission.WaitingIgnores | code/insec/receiver_covert.py:98-105 | while waiting, non-START readings change nothing, not even the START counter |
| Transmission.ScatteredStarts | code/insec/receiver_covert.py:98-105 | three STARTs separated by other readings still open a message |
| Transmission.EndsClose | code/insec/receiver_covert.py:107-114 | three ENDs close the message and finish the run |
| Transmission.ReceivesStream | code/insec/receiver_covert.py:91-127 | a waiting receiver turns the sender's stream of in-band symbols into one finished run of exactly those symbols |
| Transmission.ReceivesMessage | code/insec/receiver_covert.py:64-127 | for a non-empty message whose characters are all below 256: back to waiting, one run logged with the bits sent and the message minus trailing NULs, stop raised exactly when `repeat` runs are done |
| Transmission.EmptyMessage | code/insec/receiver_covert.py:66-67 | an empty message logs nothing and leaves the receiver waiting |
| Transmission.RunIsFeed | code/insec/receiver_covert.py:94-96 | capturing packets is handling their counts, when each is UDP to the port |
| Transmission.ReadsEmission | code/insec/receiver_covert.py:94-96 | the sender's delivered packets are read back as the counts sent |
| Transmission.CovertChannel | code/insec/receiver_covert.py:91-142 | for a non-empty message whose characters are all below 256, the captured packets of a scrambled transmission log exactly one new run carrying the message minus trailing NULs |
| Detector.CountNops | code/python-processor/detector.py:7-11 | 0 without an IPv4 layer or options; otherwise at most the announced region's length |
| Detector.SeesAtLeastReceiver | code/python-processor/detector.py:7-11 | the detector never counts fewer NOPs than the receiver reads |
| Detector.SeesCovertCount | code/python-processor/detector.py:11 | on the scrambled sender's packets the detector counts exactly the NOPs sent |
| Detector.MakeEntry | code/python-processor/detector.py:30-32 | the entry records the time and count, and keeps option bytes only when there is a NOP |
| Detector.Evict | code/python-processor/detector.py:35-36 | eviction keeps a suffix, drops only stale entries, and stops at a fresh one |
| Detector.OptCount | code/python-processor/detector.py:42 | `n_opts <= n`, and 0 exactly when no entry has a NOP |
| Detector.NopCounts | code/python-processor/detector.py:45 | the counter holds one value per option-carrying entry |
| Detector.Ratio | code/python-processor/detector.py:43 | a ratio of counts is non-negative, 0 exactly for a 0 numerator, at most 1 when the numerator is at most the denominator |
| Detector.PctOpts | code/python-processor/detector.py:43 | `pct_opts` lies in [0, 1] |
| Detector.Entropy | code/python-processor/detector.py:45-46 | `_entropy(counts)` when some entry has a NOP, 0 otherwise; `_entropy` is a parameter |
| Detector.RawLenOr1 | code/python-processor/detector.py:48 | the denominator is at least 1, and is the byte total when that is positive |
| Detector.FeedWindow | code/python-processor/detector.py:34-36 | with a non-negative window: the new entry is last, the window is non-empty, grows by at most one, and keeps the old entries in order |
| Detector.FreshWindow | code/python-processor/detector.py:35-36 | with a clock that does not run backwards, every kept entry is at most `win_sec` old and the window stays sorted |
| Detector.QuietWindow | code/python-processor/detector.py:38-54 | with `thr_opts >= 0`, a window without option packets is never flagged |
| Detector.SlidingEntropyDetector.constructor | code/python-processor/detector.py:18-27 | the settings as given (defaults 2.0, 0.01, 1.0, 0.5) and an empty window |
| Detector.Verdict | code/python-processor/detector.py:38-54 | `False` on an empty window, otherwise the conjunction of the three strict threshold tests; its properties are `QuietWindow`, `VerdictMonotone` and `OptsCeiling` |
| Detector.VerdictMonotone | code/python-processor/detector.py:52-54 | a window flagged under some thresholds stays flagged when any of them is lowered |
| Detector.OptsCeiling | code/python-processor/detector.py:43-52 | since `pct_opts` is at most 1, an option threshold of 1 or more means no window is ever flagged |
| Detector.SlidingEntropyDetector.Decide | code/python-processor/detector.py:38-54 | the answer is the verdict on the current window |
| Detector.SlidingEntropyDetector.Feed | code/python-processor/detector.py:29-54 | the window becomes the old one plus the new entry, stale entries evicted from the front; the answer is the three strict threshold tests on it, false on an empty window |

## Left out

- Network I/O, `scapy`, BPF capture filters, interfaces and environment variables are not modelled. Packets are values, and the capture is a sequence of packets.
- The capture filter's guarantee that every packet is IPv4 is a precondition (`pkt.ip.Some?`) of the receiver's handler.
- Sleeps, delays and Gaussian jitter are not modelled. Neither are durations, throughput (`bps`), wall-clock timestamps or the random UDP source port.
- CSV logging, console output and the `--done-flag` file are not modelled. The receiver's log is a sequence of run records.
- `make_mask` (`random.Random` seeded by `hash`) is a parameter: any function with values in `[0, 2^bits)`, shared by both sides. Python's generator and its per-process hash salting are not modelled.
- Re-arming the alarm in `finish` (`signal.alarm(timeout)`) and the timeout itself are not modelled. The alarm is an explicit `OnAlarm` event.
- The main loops that run `send_once` `--repeat` times are not modelled; one `send_once` is.
- Argument parsing and defaults of the senders and receiver are not modelled.
- `CovertSender.SendOnce`, `PlainSender.SendOnce`: a width below 1 makes `send_once` fail (`1 << nop_bits` raises on a negative width, `text_to_symbols` divides by zero on width 0), so it is a precondition. `sys.exit` on a width over 5 is the `Aborted` outcome.
- `Receiver.CovertReceiver.constructor`: the receiver exits at start-up on a width over 5. A block size below 1 makes its voting fail. Both are preconditions (`ParamsOk`).
- The detector's `_entropy` (floating-point `log2`) and `zlib.compress` are function parameters of the detector's configuration. The model proves nothing about their values.
- Detector: `time.time()` is the parameter `now`. Timestamps and thresholds are exact reals, not IEEE doubles.
- Detector: `Counter` is a multiset of counts and the entropy a function of that multiset. The order in which `_entropy` sums its floating-point terms is not modelled.
- The capture-side packet handling of `receiver.py`, `main.py`, `main.go` and `sender_ben.py` is not part of this model.
