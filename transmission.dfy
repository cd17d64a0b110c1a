/** End-to-end behaviour of the channel: what the receiver's handler makes
    of the stream the scrambled sender emits, first as option counts, then
    as captured packets. */
module Transmission {
  import opened Bits
  import opened Codec
  import opened Wire
  import opened Receiver
  import CovertSender

  /** Feeding two runs of counts in turn is feeding their concatenation,
      as long as the first does not stop the capture. */
  lemma {:induction false} FeedAppend(p: Params, s: Session, a: seq<nat>, b: seq<nat>)
    requires p.pps >= 1
    requires !Feed(p, s, a).stop
    ensures Feed(p, s, a + b) == Feed(p, Feed(p, s, a), b)
    decreases |a|
  {
    if a == [] {
      assert a + b == b;
    } else {
      assert (a + b)[0] == a[0];
      assert (a + b)[1..] == a[1..] + b;
      FeedAppend(p, Handle(p, s, a[0]), a[1..], b);
    }
  }

  lemma FeedSnoc(p: Params, s: Session, a: seq<nat>, x: nat)
    requires p.pps >= 1
    requires !Feed(p, s, a).stop
    ensures Feed(p, s, a + [x]) == Handle(p, Feed(p, s, a), x)
  {
    FeedAppend(p, s, a, [x]);
  }

  /** Counts that are neither START nor END. */
  predicate DataCounts(p: Params, b: seq<nat>)
  {
    forall i :: 0 <= i < |b| ==> b[i] != Start(p.nopBits) && b[i] != End(p.nopBits)
  }

  /** Fewer than `pps` data counts are only buffered. */
  lemma {:induction false} PartialBlock(p: Params, q: Session, b: seq<nat>)
    requires ParamsOk(p) && q.phase == Receiving && !q.stop && q.pkbuf == []
    requires DataCounts(p, b) && |b| < p.pps
    ensures Feed(p, q, b) == q.(pkbuf := b)
  {
    if b != [] {
      var init := b[..|b| - 1];
      PartialBlock(p, q, init);
      FeedSnoc(p, q, init, b[|b| - 1]);
      BufferData(p, q.(pkbuf := init), b[|b| - 1]);
      assert init + [b[|b| - 1]] == b;
    }
  }

  /** A whole block of `pps` data counts becomes one symbol: the block's
      vote, unmasked with the mask of the next symbol index. */
  lemma BlockVote(p: Params, q: Session, b: seq<nat>)
    requires ParamsOk(p) && q.phase == Receiving && !q.stop && q.pkbuf == []
    requires DataCounts(p, b) && |b| == p.pps
    ensures Feed(p, q, b) == q.(symbols := q.symbols + [Xor(Mode(b), p.mask(|q.symbols|, p.nopBits))])
  {
    var init := b[..|b| - 1];
    var last := b[|b| - 1];
    assert init + [last] == b;
    PartialBlock(p, q, init);
    FeedSnoc(p, q, init, last);
    assert Feed(p, q, b) == Handle(p, q.(pkbuf := init), last);
    CompleteBlock(p, q.(pkbuf := init), last);
  }

  /** A block whose majority carries `m` decodes as if every copy had
      arrived intact: the redundancy `pps` buys. */
  lemma NoisyBlock(p: Params, q: Session, b: seq<nat>, m: nat)
    requires ParamsOk(p) && q.phase == Receiving && !q.stop && q.pkbuf == []
    requires DataCounts(p, b) && |b| == p.pps && 2 * multiset(b)[m] > p.pps
    ensures Feed(p, q, b) == Feed(p, q, Repeat(m, p.pps))
  {
    MajorityVote(b, m);
    var clean := Repeat(m, p.pps);
    assert m in b;
    assert DataCounts(p, clean);
    UnanimousVote(m, p.pps);
    BlockVote(p, q, b);
    BlockVote(p, q, clean);
  }

  /** `pps` copies of a masked symbol are unmasked back into the symbol
      when it is the next one the receiver expects. */
  lemma NextSymbol(p: Params, q: Session, x: nat)
    requires ParamsOk(p) && q.phase == Receiving && !q.stop && q.pkbuf == []
    requires x < Pow2(p.nopBits)
    ensures Feed(p, q, Repeat(Xor(x, p.mask(|q.symbols|, p.nopBits)), p.pps)) == q.(symbols := q.symbols + [x])
  {
    var k := |q.symbols|;
    var mask := p.mask(k, p.nopBits);
    var m := Xor(x, mask);
    CovertSender.MaskedInBand(x, k, p.nopBits, p.mask);
    var block := Repeat(m, p.pps);
    assert DataCounts(p, block);
    BlockVote(p, q, block);
    UnanimousVote(m, p.pps);
    XorInvolution(x, mask);
  }

  /** The data section of a transmission yields the sent symbols. */
  lemma {:induction false} DataReceived(p: Params, q: Session, symbols: seq<nat>)
    requires ParamsOk(p) && q.phase == Receiving && !q.stop && q.pkbuf == [] && q.symbols == []
    requires forall i :: 0 <= i < |symbols| ==> symbols[i] < Pow2(p.nopBits)
    ensures Feed(p, q, CovertSender.DataBlocks(symbols, p.pps, p.nopBits, p.mask)) == q.(symbols := symbols)
  {
    if symbols != [] {
      var k := |symbols| - 1;
      var init := symbols[..k];
      assert init + [symbols[k]] == symbols;
      DataReceived(p, q, init);
      var block := Repeat(Xor(symbols[k], p.mask(k, p.nopBits)), p.pps);
      var before := CovertSender.DataBlocks(init, p.pps, p.nopBits, p.mask);
      assert CovertSender.DataBlocks(symbols, p.pps, p.nopBits, p.mask) == before + block;
      FeedAppend(p, q, before, block);
      NextSymbol(p, q.(symbols := init), symbols[k]);
    }
  }

  /** Three START counts open a message from any waiting state, however
      many stray START counts came before; extra ones are ignored. */
  lemma StartsOpen(p: Params, s: Session)
    requires ParamsOk(p) && Inv(p, s) && s.phase == Waiting && !s.stop
    ensures Feed(p, s, Repeat(Start(p.nopBits), 3))
         == s.(phase := Receiving, startSeen := 0, pkbuf := [], symbols := [])
  {
    var x := Start(p.nopBits);
    var open := s.(phase := Receiving, startSeen := 0, pkbuf := [], symbols := []);
    assert Repeat(x, 3) == [x, x, x];
    var s1 := Handle(p, s, x);
    var s2 := Handle(p, s1, x);
    assert Handle(p, open, x) == open;
    if s.startSeen == 0 {
      assert s1 == s.(startSeen := 1) && s2 == s.(startSeen := 2);
    } else if s.startSeen == 1 {
      assert s1 == s.(startSeen := 2) && s2 == open;
    } else {
      assert s1 == open && s2 == open;
    }
    assert Handle(p, s2, x) == open;
    assert [x, x, x][1..] == [x, x] && [x, x][1..] == [x];
    assert Feed(p, s, [x, x, x]) == Feed(p, s1, [x, x]);
    assert Feed(p, s1, [x, x]) == Feed(p, s2, [x]);
    assert [x][1..] == [] && Feed(p, open, []) == open;
    assert Feed(p, s2, [x]) == open;
  }

  /** While waiting, any count other than START changes nothing; in
      particular it does not reset the START counter. */
  lemma {:induction false} WaitingIgnores(p: Params, s: Session, noise: seq<nat>)
    requires p.pps >= 1 && s.phase == Waiting && !s.stop
    requires forall i :: 0 <= i < |noise| ==> noise[i] != Start(p.nopBits)
    ensures Feed(p, s, noise) == s
    decreases |noise|
  {
    if noise != [] {
      assert Handle(p, s, noise[0]) == s;
      WaitingIgnores(p, s, noise[1..]);
    }
  }

  /** The three START counts need not be consecutive: other traffic to the
      port between them does not stop them from opening the message. */
  lemma ScatteredStarts(p: Params, s: Session, a: seq<nat>, b: seq<nat>)
    requires ParamsOk(p) && s.phase == Waiting && s.startSeen == 0 && !s.stop
    requires forall i :: 0 <= i < |a| ==> a[i] != Start(p.nopBits)
    requires forall i :: 0 <= i < |b| ==> b[i] != Start(p.nopBits)
    ensures var x := Start(p.nopBits);
      Feed(p, s, [x] + a + [x] + b + [x]) == s.(phase := Receiving, startSeen := 0, pkbuf := [], symbols := [])
  {
    var x := Start(p.nopBits);
    var s1 := s.(startSeen := 1);
    var s2 := s.(startSeen := 2);
    assert Feed(p, s, [x]) == s1;
    WaitingIgnores(p, s1, a);
    FeedAppend(p, s, [x], a);
    FeedSnoc(p, s, [x] + a, x);
    WaitingIgnores(p, s2, b);
    FeedAppend(p, s, [x] + a + [x], b);
    FeedSnoc(p, s, [x] + a + [x] + b, x);
  }

  /** Three END counts close the message and finish the run. */
  lemma EndsClose(p: Params, q: Session)
    requires ParamsOk(p) && q.phase == Receiving && q.endSeen == 0 && !q.stop
    ensures Feed(p, q, Repeat(End(p.nopBits), 3)) == FinishRun(p, q.(phase := Waiting))
  {
    var x := End(p.nopBits);
    assert Repeat(x, 3) == [x, x, x];
    var q1 := Handle(p, q, x);
    var q2 := Handle(p, q1, x);
    assert q1 == q.(endSeen := 1);
    assert q2 == q.(endSeen := 2);
    assert q2.(phase := Waiting, endSeen := 0) == q.(phase := Waiting);
    assert [x, x, x][1..] == [x, x] && [x, x][1..] == [x];
    assert Feed(p, q, [x, x, x]) == Feed(p, q1, [x, x]);
    assert Feed(p, q1, [x, x]) == Feed(p, q2, [x]);
    assert Handle(p, q2, x) == FinishRun(p, q.(phase := Waiting));
    assert Feed(p, q2, [x]) == Handle(p, q2, x);
  }

  /** A waiting receiver that shares the sender's settings and mask turns
      the sender's whole stream into one finished run of exactly the sent
      symbols. */
  lemma ReceivesStream(p: Params, s: Session, symbols: seq<nat>)
    requires ParamsOk(p) && Inv(p, s) && s.phase == Waiting && !s.stop
    requires forall i :: 0 <= i < |symbols| ==> symbols[i] < Pow2(p.nopBits)
    ensures Feed(p, s, CovertSender.Stream(symbols, p.pps, p.nopBits, p.mask))
         == FinishRun(p, s.(startSeen := 0, pkbuf := [], symbols := symbols))
  {
    var starts := Repeat(Start(p.nopBits), 3);
    var data := CovertSender.DataBlocks(symbols, p.pps, p.nopBits, p.mask);
    var ends := Repeat(End(p.nopBits), 3);
    var receiving := s.(phase := Receiving, startSeen := 0, pkbuf := [], symbols := []);
    StartsOpen(p, s);
    DataReceived(p, receiving, symbols);
    FeedAppend(p, s, starts, data);
    FeedAppend(p, s, starts + data, ends);
    EndsClose(p, receiving.(symbols := symbols));
  }

  /** The message round trip through the channel: after the sender's
      stream for a non-empty `text`, the receiver is waiting again and has
      logged one more run carrying `text` less its trailing NUL characters. */
  lemma ReceivesMessage(p: Params, s: Session, text: string)
    requires ParamsOk(p) && p.nopBits >= 1 && Inv(p, s) && s.phase == Waiting && !s.stop
    requires Latin1(text) && text != []
    ensures var symbols := TextToSymbols(text, p.nopBits);
      var r := Feed(p, s, CovertSender.Stream(symbols, p.pps, p.nopBits, p.mask));
      && r.phase == Waiting
      && r.log == s.log + [RunRecord(s.runs + 1, |symbols| * p.nopBits, RStripNul(text))]
      && (r.stop <==> s.runs + 1 >= p.repeat)
  {
    var symbols := TextToSymbols(text, p.nopBits);
    ReceivesStream(p, s, symbols);
    NoTextNoSymbols(text, p.nopBits);
    TextRoundTrip(text, p.nopBits);
  }

  /** An empty text is sent as bare framing, and the receiver logs nothing
      for it: `finish()` returns early when no symbol arrived. */
  lemma EmptyMessage(p: Params, s: Session)
    requires ParamsOk(p) && p.nopBits >= 1 && Inv(p, s) && s.phase == Waiting && !s.stop
    ensures Feed(p, s, CovertSender.Stream(TextToSymbols([], p.nopBits), p.pps, p.nopBits, p.mask))
         == s.(startSeen := 0, pkbuf := [])
  {
    NoTextNoSymbols([], p.nopBits);
    ReceivesStream(p, s, []);
  }

  /** The handler sees exactly the counts `vals` when every packet is UDP
      to its port and carries the matching number of NOP options. */
  lemma {:induction false} RunIsFeed(p: Params, s: Session, pkts: seq<Packet>, vals: seq<nat>)
    requires p.pps >= 1 && |pkts| == |vals|
    requires forall i :: 0 <= i < |pkts| ==>
      pkts[i].ip.Some? && pkts[i].udpDport == Some(p.port) && CountNops(pkts[i].ip.value) == vals[i]
    ensures Run(p, s, pkts) == Feed(p, s, vals)
    decreases |pkts|
  {
    if pkts != [] {
      RunIsFeed(p, Handle(p, s, vals[0]), pkts[1..], vals[1..]);
    }
  }

  /** Captured intact, the scrambled sender's packets show the receiver
      the counts they were built from, so the capture loop handles exactly
      those counts. */
  lemma ReadsEmission(p: Params, s: Session, counts: seq<nat>, pkts: seq<Packet>)
    requires p.pps >= 1
    requires var sent := Emission(counts, p.nopBits, p.port, CovertSender.BuildOpts);
      |pkts| == |sent| && forall i :: 0 <= i < |pkts| ==> Delivered(sent[i], pkts[i])
    ensures forall i :: 0 <= i < |pkts| ==> pkts[i].ip.Some?
    ensures Run(p, s, pkts) == Feed(p, s, counts)
  {
    var sent := Emission(counts, p.nopBits, p.port, CovertSender.BuildOpts);
    forall i | 0 <= i < |pkts|
      ensures pkts[i].ip.Some? && pkts[i].udpDport == Some(p.port) && CountNops(pkts[i].ip.value) == counts[i]
    {
      assert Delivered(sent[i], pkts[i]);
      ReadsCovertOptions(pkts[i].ip.value, counts[i]);
    }
    RunIsFeed(p, s, pkts, counts);
  }

  /** The covert channel end to end: the packets the scrambled sender emits
      for `text`, captured intact by a waiting receiver with the same
      settings, mask and port, make it log `text` (less trailing NULs) as
      its next run. */
  lemma CovertChannel(p: Params, s: Session, text: string, pkts: seq<Packet>)
    requires ParamsOk(p) && p.nopBits >= 1 && Inv(p, s) && s.phase == Waiting && !s.stop
    requires Latin1(text) && text != []
    requires var sent := Emission(
        CovertSender.Stream(TextToSymbols(text, p.nopBits), p.pps, p.nopBits, p.mask),
        p.nopBits, p.port, CovertSender.BuildOpts);
      |pkts| == |sent| && forall i :: 0 <= i < |pkts| ==> Delivered(sent[i], pkts[i])
    ensures forall i :: 0 <= i < |pkts| ==> pkts[i].ip.Some?
    ensures var symbols := TextToSymbols(text, p.nopBits);
      Run(p, s, pkts).log == s.log + [RunRecord(s.runs + 1, |symbols| * p.nopBits, RStripNul(text))]
  {
    var stream := CovertSender.Stream(TextToSymbols(text, p.nopBits), p.pps, p.nopBits, p.mask);
    ReadsEmission(p, s, stream, pkts);
    ReceivesMessage(p, s, text);
  }
}
