/** Bytes, IPv4 options and packets: what the senders build, what the
    capture hands to the receiver and to the detector. Scapy's packet
    objects are reduced to the fields the channel reads or writes. */
module Wire {
  import opened Codec

  type byte = x: int | 0 <= x < 256

  datatype Option<T> = None | Some(value: T)

  /** `bytes([b]) * n`. */
  function Fill(b: byte, n: nat): (r: seq<byte>)
    ensures |r| == n
    ensures forall i :: 0 <= i < n ==> r[i] == b
  {
    seq(n, _ => b)
  }

  /** `pad4(opt)`: zero bytes up to the next 32-bit boundary, as IPv4
      options must be (RFC 791, section 3.1). `pad4` computes the count
      as `(4 - (len & 3)) & 3`; both `&` operands are non-negative, so each
      `& 3` is `% 4`. */
  function Pad4(opt: seq<byte>): (r: seq<byte>)
    ensures |r| % 4 == 0
    ensures |opt| <= |r| < |opt| + 4
    ensures r[..|opt|] == opt
    ensures forall i :: |opt| <= i < |r| ==> r[i] == 0
    ensures |opt| % 4 == 0 ==> r == opt
  {
    opt + Fill(0, (4 - |opt| % 4) % 4)
  }

  /** `s.count(b)` on a bytes object. */
  function Occurrences(s: seq<byte>, b: byte): (r: nat)
    ensures r <= |s|
  {
    if s == [] then 0 else (if s[0] == b then 1 else 0) + Occurrences(s[1..], b)
  }

  lemma {:induction false} OccurrencesAppend(s: seq<byte>, t: seq<byte>, b: byte)
    ensures Occurrences(s + t, b) == Occurrences(s, b) + Occurrences(t, b)
  {
    if s == [] {
      assert s + t == t;
    } else {
      assert (s + t)[1..] == s[1..] + t;
      OccurrencesAppend(s[1..], t, b);
    }
  }

  lemma {:induction false} OccurrencesFill(x: byte, n: nat, b: byte)
    ensures Occurrences(Fill(x, n), b) == if x == b then n else 0
  {
    if n > 0 {
      assert Fill(x, n)[1..] == Fill(x, n - 1);
      OccurrencesFill(x, n - 1, b);
    }
  }

  /** An IPv4 layer as captured: the header-length field (IHL, in 32-bit
      words) and the layer serialised, `raw(pkt[IP])`: 20 fixed header
      bytes, the options, then the transport header and payload. */
  datatype IpHeader = IpHeader(ihl: nat, raw: seq<byte>)

  /** A captured frame: its IPv4 layer if it has one, and its UDP
      destination port if it is UDP. */
  datatype Packet = Packet(ip: Option<IpHeader>, udpDport: Option<int>)

  /** `s[lo:hi]`, which Python clamps to the sequence. */
  function Slice(s: seq<byte>, lo: nat, hi: nat): (r: seq<byte>)
    ensures |r| <= |s| && |r| <= hi
  {
    var h := if hi < |s| then hi else |s|;
    var l := if lo < h then lo else h;
    s[l..h]
  }

  /** `raw(pkt[IP])[20 : 20 + (ihl - 5) * 4]`: the options region the header
      length announces. */
  function OptionsRegion(h: IpHeader): (r: seq<byte>)
    requires h.ihl > 5
    ensures |r| <= (h.ihl - 5) * 4
  {
    var r := Slice(h.raw, 20, 20 + (h.ihl - 5) * 4);
    r
  }

  /** How an IPv4 header carries the options `opts` (RFC 791, section 3.1):
      at most 40 bytes in whole 32-bit words, counted in the header length,
      right after the 20 fixed bytes. Scapy serialises `IP(options=...)`
      this way. */
  predicate Carries(h: IpHeader, opts: seq<byte>)
  {
    && |opts| % 4 == 0
    && |opts| <= 40
    && h.ihl == 5 + |opts| / 4
    && |h.raw| >= 20 + |opts|
    && h.raw[20..20 + |opts|] == opts
  }

  lemma RegionOfCarrier(h: IpHeader, opts: seq<byte>)
    requires Carries(h, opts) && opts != []
    ensures h.ihl > 5 && OptionsRegion(h) == opts
  {
    assert (h.ihl - 5) * 4 == |opts|;
  }

  /** A packet as a sender builds it, `IP(options=...)/UDP(dport=...)/Raw(tag)`;
      the random source port is not modelled. */
  datatype Datagram = Datagram(options: seq<byte>, dport: int, tag: string)

  /** The capture of `d` after transmission: a UDP packet to `d.dport` whose
      IPv4 header carries `d.options`. */
  predicate Delivered(d: Datagram, p: Packet)
  {
    p.udpDport == Some(d.dport) && p.ip.Some? && Carries(p.ip.value, d.options)
  }

  /** The debugging tag a sender puts in the payload next to an option count. */
  function TagFor(sym: nat, bits: nat): string
  {
    if sym == Start(bits) then "START" else if sym == End(bits) then "END" else "DATA"
  }

  /** The packets a sender puts on the wire for the option counts `counts`,
      with `build` as its options encoder. */
  function Emission(counts: seq<nat>, bits: nat, port: int, build: nat -> seq<byte>): (r: seq<Datagram>)
  {
    seq(|counts|, i requires 0 <= i < |counts| => Datagram(build(counts[i]), port, TagFor(counts[i], bits)))
  }

  lemma EmissionSnoc(counts: seq<nat>, c: nat, bits: nat, port: int, build: nat -> seq<byte>)
    ensures Emission(counts + [c], bits, port, build)
         == Emission(counts, bits, port, build) + [Datagram(build(c), port, TagFor(c, bits))]
  {
  }

  /** Sends `n` packets carrying the count `c` and tagged `tag`, after the
      packets already sent for `counts`. */
  method SendRun(packets: seq<Datagram>, ghost counts: seq<nat>, c: nat, tag: string, n: nat,
                 bits: nat, port: int, build: nat -> seq<byte>)
    returns (sent: seq<Datagram>)
    requires packets == Emission(counts, bits, port, build)
    requires tag == TagFor(c, bits)
    ensures sent == Emission(counts + Repeat(c, n), bits, port, build)
  {
    sent := packets;
    for k := 0 to n
      invariant sent == Emission(counts + Repeat(c, k), bits, port, build)
    {
      EmissionSnoc(counts + Repeat(c, k), c, bits, port, build);
      assert counts + Repeat(c, k) + [c] == counts + Repeat(c, k + 1);
      sent := sent + [Datagram(build(c), port, tag)];
    }
  }

  /** What `send_once` returns: either it aborted on a symbol width over 5
      before sending anything, or it sent `packets` carrying `bits` bits.
      Duration and throughput are wall-clock measurements and not modelled. */
  datatype SendOutcome = Aborted | Sent(packets: seq<Datagram>, bits: nat)

  /** `range(n)` runs `n` times, or not at all when `n <= 0`. */
  function Copies(n: int): nat
  {
    if n > 0 then n else 0
  }
}
