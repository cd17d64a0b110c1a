/** `sec/sender_covert.py`: the scrambled covert sender. Each symbol is
    masked with a per-index pseudo-random value, sent as a count of NOP
    (0x01) options behind a fake Timestamp option header, `pps` times, and
    the message is framed by three START and three END packets. */
module CovertSender {
  import opened Bits
  import opened Codec
  import opened Wire

  /** A fake Timestamp option header: type 68, length 4, two dummy bytes. */
  const TimestampDecoy: seq<byte> := [0x44, 0x04, 0x00, 0x00]

  /** `build_opts(n)`: no options for a zero count; otherwise the decoy
      header, `n` NOP bytes and zero padding to a 32-bit boundary. */
  function BuildOpts(n: nat): (r: seq<byte>)
    ensures n == 0 ==> r == []
    ensures n > 0 ==>
      && |r| % 4 == 0 && 4 + n <= |r| < 8 + n
      && r[..4] == TimestampDecoy
      && (forall i :: 4 <= i < 4 + n ==> r[i] == 1)
      && (forall i :: 4 + n <= i < |r| ==> r[i] == 0)
  {
    if n == 0 then [] else Pad4(TimestampDecoy + Fill(1, n))
  }

  /** Why `send_once` refuses widths above 5: the END packet's options
      (decoy, `2^bits + 1` NOPs, padding) fit the 40 bytes an IPv4 header
      has room for exactly when the width is at most 5. */
  lemma WidthCap(bits: nat)
    ensures bits <= 5 <==> |BuildOpts(End(bits))| <= 40
  {
    if bits <= 5 {
      Pow2Monotone(bits, 5);
    } else {
      Pow2Monotone(6, bits);
    }
  }

  /** The option counts of the data section: symbol `k` masked with
      `mask(k, bits)`, each repeated `copies` times, symbols in order. */
  function DataBlocks(symbols: seq<nat>, copies: nat, bits: nat, mask: Mask): seq<nat>
  {
    if symbols == [] then []
    else
      var k := |symbols| - 1;
      DataBlocks(symbols[..k], copies, bits, mask) + Repeat(Xor(symbols[k], mask(k, bits)), copies)
  }

  /** Every option count `send_once` puts on the wire, in sending order. */
  function Stream(symbols: seq<nat>, copies: nat, bits: nat, mask: Mask): seq<nat>
  {
    Repeat(Start(bits), 3) + DataBlocks(symbols, copies, bits, mask) + Repeat(End(bits), 3)
  }

  /** A masked symbol stays a `bits`-wide value, so it is never mistaken for
      START or END. */
  lemma MaskedInBand(s: nat, idx: nat, bits: nat, mask: Mask)
    requires s < Pow2(bits)
    ensures Xor(s, mask(idx, bits)) < Start(bits)
  {
    XorBound(s, mask(idx, bits), bits);
  }

  lemma {:induction false} DataBlocksLength(symbols: seq<nat>, copies: nat, bits: nat, mask: Mask)
    ensures |DataBlocks(symbols, copies, bits, mask)| == |symbols| * copies
  {
    if symbols != [] {
      var k := |symbols| - 1;
      var init := symbols[..k];
      DataBlocksLength(init, copies, bits, mask);
      assert |DataBlocks(symbols, copies, bits, mask)| == |DataBlocks(init, copies, bits, mask)| + copies;
      assert |init| == k;
      MulSucc(k, copies);
    }
  }

  /** Position `k * copies + j` of the data section holds the `j`-th copy of
      masked symbol `k`. */
  lemma {:induction false} DataBlocksAt(symbols: seq<nat>, copies: nat, bits: nat, mask: Mask, k: nat, j: nat)
    requires k < |symbols| && j < copies
    ensures k * copies + j < |DataBlocks(symbols, copies, bits, mask)|
    ensures DataBlocks(symbols, copies, bits, mask)[k * copies + j] == Xor(symbols[k], mask(k, bits))
  {
    var n := |symbols| - 1;
    var init := symbols[..n];
    var head := DataBlocks(init, copies, bits, mask);
    var block := Repeat(Xor(symbols[n], mask(n, bits)), copies);
    DataBlocksLength(init, copies, bits, mask);
    assert DataBlocks(symbols, copies, bits, mask) == head + block;
    var p := k * copies;
    if k < n {
      MulSucc(k, copies);
      MulMonotone(k + 1, n, copies);
      assert p + j < |head|;
      DataBlocksAt(init, copies, bits, mask, k, j);
      assert init[k] == symbols[k];
    } else {
      assert p == |head|;
    }
  }

  /** Every count of the data section is a masked in-band symbol, hence
      below START. */
  lemma {:induction false} DataInBand(symbols: seq<nat>, copies: nat, bits: nat, mask: Mask, i: nat)
    requires forall i :: 0 <= i < |symbols| ==> symbols[i] < Pow2(bits)
    requires i < |DataBlocks(symbols, copies, bits, mask)|
    ensures DataBlocks(symbols, copies, bits, mask)[i] < Start(bits)
  {
    var n := |symbols| - 1;
    var init := symbols[..n];
    var head := DataBlocks(init, copies, bits, mask);
    var x := Xor(symbols[n], mask(n, bits));
    assert DataBlocks(symbols, copies, bits, mask) == head + Repeat(x, copies);
    if i < |head| {
      assert forall k :: 0 <= k < |init| ==> init[k] == symbols[k];
      DataInBand(init, copies, bits, mask, i);
    } else {
      MaskedInBand(symbols[n], n, bits, mask);
    }
  }

  /** The framing of a transmission: three START counts, then
      `|symbols| * copies` data counts all below START, then three END
      counts. */
  lemma StreamFraming(symbols: seq<nat>, copies: nat, bits: nat, mask: Mask)
    requires forall i :: 0 <= i < |symbols| ==> symbols[i] < Pow2(bits)
    ensures var s := Stream(symbols, copies, bits, mask);
      && |s| == 6 + |symbols| * copies
      && (forall i :: 0 <= i < 3 ==> s[i] == Start(bits))
      && (forall i :: 3 <= i < |s| - 3 ==> s[i] < Start(bits))
      && (forall i :: |s| - 3 <= i < |s| ==> s[i] == End(bits))
  {
    var d := DataBlocks(symbols, copies, bits, mask);
    var s := Stream(symbols, copies, bits, mask);
    DataBlocksLength(symbols, copies, bits, mask);
    forall i | 3 <= i < |s| - 3
      ensures s[i] < Start(bits)
    {
      assert s[i] == d[i - 3];
      DataInBand(symbols, copies, bits, mask, i - 3);
    }
  }

  /** The data loop of `send_once`: symbol `idx` masked with
      `mask(idx, bits)`, `copies` packets per symbol, symbols in order, after
      the packets already sent for `counts`. */
  method SendData(packets: seq<Datagram>, ghost counts: seq<nat>, symbols: seq<nat>, copies: nat,
                  nopBits: nat, port: int, mask: Mask)
    returns (sent: seq<Datagram>)
    requires forall i :: 0 <= i < |symbols| ==> symbols[i] < Pow2(nopBits)
    requires packets == Emission(counts, nopBits, port, BuildOpts)
    ensures sent == Emission(counts + DataBlocks(symbols, copies, nopBits, mask), nopBits, port, BuildOpts)
  {
    sent := packets;
    ghost var sofar := counts;
    for idx := 0 to |symbols|
      invariant sofar == counts + DataBlocks(symbols[..idx], copies, nopBits, mask)
      invariant sent == Emission(sofar, nopBits, port, BuildOpts)
    {
      var masked := Xor(symbols[idx], mask(idx, nopBits));
      MaskedInBand(symbols[idx], idx, nopBits, mask);
      sent := SendRun(sent, sofar, masked, "DATA", copies, nopBits, port, BuildOpts);
      sofar := sofar + Repeat(masked, copies);
      assert symbols[..idx + 1][..idx] == symbols[..idx];
    }
    assert symbols[..|symbols|] == symbols;
  }

  /** `send_once(cfg)`: aborts when the symbol width exceeds 5, otherwise
      sends the framed, masked, repeated symbols of `message` to `port` and
      reports the number of payload bits. A width below 1 makes `send_once`
      fail (`1 << nop_bits` raises on a negative width, and
      `text_to_symbols` divides by zero on width 0), so it is excluded. */
  method SendOnce(message: string, nopBits: int, pps: int, port: int, mask: Mask) returns (out: SendOutcome)
    requires nopBits >= 1
    ensures out.Aborted? <==> nopBits > 5
    ensures out.Sent? ==>
      var symbols := TextToSymbols(message, nopBits);
      && out.packets == Emission(Stream(symbols, Copies(pps), nopBits, mask), nopBits, port, BuildOpts)
      && out.bits == |symbols| * nopBits
  {
    if nopBits > 5 {
      return Aborted;
    }
    var start, end := Start(nopBits), End(nopBits);
    var symbols := TextToSymbols(message, nopBits);
    var copies := Copies(pps);
    var packets := SendRun([], [], start, "START", 3, nopBits, port, BuildOpts);
    assert [] + Repeat(start, 3) == Repeat(start, 3);
    packets := SendData(packets, Repeat(start, 3), symbols, copies, nopBits, port, mask);
    packets := SendRun(packets, Repeat(start, 3) + DataBlocks(symbols, copies, nopBits, mask), end, "END", 3,
                       nopBits, port, BuildOpts);
    out := Sent(packets, |symbols| * nopBits);
  }
}
