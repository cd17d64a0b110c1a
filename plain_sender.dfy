/** `sec/sender_tpphase2.py`: the earlier, unscrambled sender. Symbols go
    on the wire as they are, as a bare run of NOP (0x01) options with no
    decoy header; the framing is the same as the scrambled sender's, and
    the padding and text-to-symbol steps are the shared ones in `Wire` and
    `Codec`. */
module PlainSender {
  import opened Bits
  import opened Codec
  import opened Wire
  import CovertSender

  /** `build_opts(n)`: no options for a zero count, otherwise `n` NOP bytes
      zero-padded to a 32-bit boundary. */
  function BuildOpts(n: nat): (r: seq<byte>)
    ensures n == 0 ==> r == []
    ensures n > 0 ==>
      && |r| % 4 == 0 && n <= |r| < n + 4
      && (forall i :: 0 <= i < n ==> r[i] == 1)
      && (forall i :: n <= i < |r| ==> r[i] == 0)
  {
    if n == 0 then [] else Pad4(Fill(1, n))
  }

  /** The data section: each symbol repeated `copies` times, in order. */
  function DataBlocks(symbols: seq<nat>, copies: nat): seq<nat>
  {
    if symbols == [] then []
    else
      var k := |symbols| - 1;
      DataBlocks(symbols[..k], copies) + Repeat(symbols[k], copies)
  }

  /** Every option count `send_once` puts on the wire, in sending order. */
  function Stream(symbols: seq<nat>, copies: nat, bits: nat): seq<nat>
  {
    Repeat(Start(bits), 3) + DataBlocks(symbols, copies) + Repeat(End(bits), 3)
  }

  /** Scrambling with a mask that is zero everywhere gives this sender's
      stream: the two senders differ on the wire only in the mask and the
      decoy header. */
  lemma {:induction false} UnmaskedStream(symbols: seq<nat>, copies: nat, bits: nat, mask: Mask)
    requires forall idx: nat, b: nat :: mask(idx, b) == 0
    ensures Stream(symbols, copies, bits) == CovertSender.Stream(symbols, copies, bits, mask)
  {
    UnmaskedData(symbols, copies, bits, mask);
  }

  lemma {:induction false} UnmaskedData(symbols: seq<nat>, copies: nat, bits: nat, mask: Mask)
    requires forall idx: nat, b: nat :: mask(idx, b) == 0
    ensures DataBlocks(symbols, copies) == CovertSender.DataBlocks(symbols, copies, bits, mask)
  {
    if symbols != [] {
      var k := |symbols| - 1;
      UnmaskedData(symbols[..k], copies, bits, mask);
      assert mask(k, bits) == 0;
      XorZero(symbols[k]);
    }
  }

  /** The options of a non-empty plain packet start with a NOP byte, so the
      receiver's decoy check (`0x44 0x04`) never strips anything from them. */
  lemma NoDecoy(n: nat)
    requires n > 0
    ensures BuildOpts(n)[0] == 1 != CovertSender.TimestampDecoy[0]
  {
  }

  /** The data loop of `send_once`: `copies` packets per symbol, symbols in
      order, after the packets already sent for `counts`. */
  method SendData(packets: seq<Datagram>, ghost counts: seq<nat>, symbols: seq<nat>, copies: nat,
                  nopBits: nat, port: int)
    returns (sent: seq<Datagram>)
    requires forall i :: 0 <= i < |symbols| ==> symbols[i] < Pow2(nopBits)
    requires packets == Emission(counts, nopBits, port, BuildOpts)
    ensures sent == Emission(counts + DataBlocks(symbols, copies), nopBits, port, BuildOpts)
  {
    sent := packets;
    ghost var sofar := counts;
    for idx := 0 to |symbols|
      invariant sofar == counts + DataBlocks(symbols[..idx], copies)
      invariant sent == Emission(sofar, nopBits, port, BuildOpts)
    {
      var s := symbols[idx];
      sent := SendRun(sent, sofar, s, "DATA", copies, nopBits, port, BuildOpts);
      sofar := sofar + Repeat(s, copies);
      assert symbols[..idx + 1][..idx] == symbols[..idx];
    }
    assert symbols[..|symbols|] == symbols;
  }

  /** `send_once(cfg)`: aborts when the symbol width exceeds 5, otherwise
      sends the framed, repeated symbols of `message` to `port` and reports
      the number of payload bits. A width below 1 makes `send_once` fail
      (`1 << nop_bits` raises on a negative width, and `text_to_symbols`
      divides by zero on width 0), so it is excluded. */
  method SendOnce(message: string, nopBits: int, pps: int, port: int) returns (out: SendOutcome)
    requires nopBits >= 1
    ensures out.Aborted? <==> nopBits > 5
    ensures out.Sent? ==>
      var symbols := TextToSymbols(message, nopBits);
      && out.packets == Emission(Stream(symbols, Copies(pps), nopBits), nopBits, port, BuildOpts)
      && out.bits == |symbols| * nopBits
  {
    if nopBits > 5 {
      return Aborted;
    }
    var start, end := Start(nopBits), End(nopBits);
    var symbols := TextToSymbols(message, nopBits);
    var copies := Copies(pps);
    var packets := SendRun([], [], start, "START", 3, nopBits, port, BuildOpts);
    assert [] + Repeat(start, 3) == Repeat(start, 3);
    packets := SendData(packets, Repeat(start, 3), symbols, copies, nopBits, port);
    packets := SendRun(packets, Repeat(start, 3) + DataBlocks(symbols, copies), end, "END", 3, nopBits, port, BuildOpts);
    out := Sent(packets, |symbols| * nopBits);
  }
}
