/** `insec/receiver_covert.py`: the covert receiver. It counts the NOP
    options of every UDP packet sent to its port, waits for three START
    counts, collects data counts in blocks of `pps`, votes on each block,
    unmasks the winner into a symbol, and on the third END count decodes
    the symbols into text and logs the run.

    The handler's state is modelled twice: as the value `Session` with the
    pure transition `Handle`, which the properties are proved about, and as
    the class `CovertReceiver`, whose methods update the same variables in
    place and are proved to follow `Handle`. */
module Receiver {
  import opened Bits
  import opened Codec
  import opened Wire
  import CovertSender
  import PlainSender

  /** `count_nops(pkt)`: the number of NOP bytes in the options region the
      header length announces, after dropping a leading fake Timestamp
      option (`0x44 0x04` and two more bytes). */
  function CountNops(h: IpHeader): (r: nat)
    ensures h.ihl <= 5 ==> r == 0
    ensures h.ihl > 5 ==> r <= (h.ihl - 5) * 4
  {
    if h.ihl <= 5 then 0
    else
      var opts := OptionsRegion(h);
      var body := if |opts| >= 2 && opts[0] == 0x44 && opts[1] == 0x04 then Slice(opts, 4, |opts|) else opts;
      Occurrences(body, 1)
  }

  /** The count read back from a header carrying the scrambled sender's
      options is the count that was sent. */
  lemma ReadsCovertOptions(h: IpHeader, n: nat)
    requires Carries(h, CovertSender.BuildOpts(n))
    ensures CountNops(h) == n
  {
    var o := CovertSender.BuildOpts(n);
    if n > 0 {
      RegionOfCarrier(h, o);
      var pad := |o| - 4 - n;
      assert Slice(o, 4, |o|) == Fill(1, n) + Fill(0, pad);
      OccurrencesAppend(Fill(1, n), Fill(0, pad), 1);
      OccurrencesFill(1, n, 1);
      OccurrencesFill(0, pad, 1);
    }
  }

  /** The receiver also reads the unscrambled sender's options correctly:
      they never start with the decoy's bytes, so nothing is dropped. */
  lemma ReadsPlainOptions(h: IpHeader, n: nat)
    requires Carries(h, PlainSender.BuildOpts(n))
    ensures CountNops(h) == n
  {
    var o := PlainSender.BuildOpts(n);
    if n > 0 {
      RegionOfCarrier(h, o);
      var pad := |o| - n;
      assert o == Fill(1, n) + Fill(0, pad);
      OccurrencesAppend(Fill(1, n), Fill(0, pad), 1);
      OccurrencesFill(1, n, 1);
      OccurrencesFill(0, pad, 1);
    }
  }

  /** Position of the first occurrence of `v` in `s`. */
  function FirstIndex(s: seq<nat>, v: nat): (r: nat)
    requires v in s
    ensures r < |s| && s[r] == v
    ensures forall j :: 0 <= j < r ==> s[j] != v
  {
    if s[0] == v then 0 else 1 + FirstIndex(s[1..], v)
  }

  /** Scans `block` from position `i`, keeping `best` unless a later value
      occurs strictly more often. */
  function ModeFrom(block: seq<nat>, i: nat, best: nat): nat
    requires i <= |block|
    decreases |block| - i
  {
    if i == |block| then best
    else
      var next := if multiset(block)[block[i]] > multiset(block)[best] then block[i] else best;
      ModeFrom(block, i + 1, next)
  }

  lemma {:induction false} ModeFromSpec(block: seq<nat>, i: nat, best: nat)
    requires 1 <= i <= |block|
    requires best in block[..i]
    requires forall j :: 0 <= j < i ==> multiset(block)[block[j]] <= multiset(block)[best]
    requires forall j :: 0 <= j < i && multiset(block)[block[j]] == multiset(block)[best] ==> FirstIndex(block, best) <= j
    ensures var r := ModeFrom(block, i, best);
      && r in block
      && (forall j :: 0 <= j < |block| ==> multiset(block)[block[j]] <= multiset(block)[r])
      && (forall j :: 0 <= j < |block| && multiset(block)[block[j]] == multiset(block)[r] ==> FirstIndex(block, r) <= j)
    decreases |block| - i
  {
    if i < |block| {
      var m := multiset(block);
      var next := if m[block[i]] > m[best] then block[i] else best;
      assert best in block;
      if m[block[i]] > m[best] {
        assert block[..i + 1][i] == next;
      } else {
        var k :| 0 <= k < i && block[..i][k] == best;
        assert block[k] == best;
        assert block[..i + 1][k] == next;
      }
      ModeFromSpec(block, i + 1, next);
    }
  }

  /** `Counter(block).most_common(1)[0][0]`: a value occurring most often in
      the block; among equally frequent values, the one that occurs first
      (the counter keeps first-occurrence order and `most_common(1)` takes
      the first maximum). */
  function Mode(block: seq<nat>): nat
    requires block != []
  {
    ModeFrom(block, 1, block[0])
  }

  /** The vote is a value of the block that occurs at least as often as any
      other, and the first to occur among equally frequent values. */
  lemma ModeIsMostCommon(block: seq<nat>)
    requires block != []
    ensures var r := Mode(block);
      && r in block
      && (forall j :: 0 <= j < |block| ==> multiset(block)[block[j]] <= multiset(block)[r])
      && (forall j :: 0 <= j < |block| && multiset(block)[block[j]] == multiset(block)[r] ==> FirstIndex(block, r) <= j)
  {
    assert block[..1] == [block[0]];
    ModeFromSpec(block, 1, block[0]);
  }

  /** A block of identical copies votes for that value. */
  lemma UnanimousVote(x: nat, n: nat)
    requires n >= 1
    ensures Mode(Repeat(x, n)) == x
  {
    ModeIsMostCommon(Repeat(x, n));
  }

  lemma {:induction false} TwoCounts(s: seq<nat>, a: nat, b: nat)
    requires a != b
    ensures multiset(s)[a] + multiset(s)[b] <= |s|
  {
    if s != [] {
      var init := s[..|s| - 1];
      TwoCounts(init, a, b);
      assert s == init + [s[|s| - 1]];
      assert multiset(s) == multiset(init) + multiset{s[|s| - 1]};
    }
  }

  /** Voting repairs a block: a value filling more than half of it wins. */
  lemma MajorityVote(block: seq<nat>, x: nat)
    requires block != [] && 2 * multiset(block)[x] > |block|
    ensures Mode(block) == x
  {
    var r := Mode(block);
    ModeIsMostCommon(block);
    if r != x {
      assert x in block;
      var j := FirstIndex(block, x);
      assert multiset(block)[x] <= multiset(block)[r];
      TwoCounts(block, r, x);
    }
  }

  /** The receiver's settings: `--repeat`, `--nop-bits`, `--pps`, `--port`,
      and the scramble mask shared with the sender. */
  datatype Params = Params(repeat: int, nopBits: nat, pps: nat, port: int, mask: Mask)

  /** Settings the receiver runs with: it exits at start-up on a symbol
      width over 5, and a block size below 1 makes its voting fail on the
      first data packet. */
  predicate ParamsOk(p: Params)
  {
    p.nopBits <= 5 && p.pps >= 1
  }

  datatype Phase = Waiting | Receiving

  /** One completed run as logged: its index, the payload bits and the
      decoded message. Duration, throughput and wall-clock time are not
      modelled. */
  datatype RunRecord = RunRecord(run: nat, bits: int, message: string)

  /** The handler's variables: `state`, `start_seen`, `end_seen`, `pkbuf`,
      `symbols`, `runs`, `done["stop"]`, and the runs logged so far. */
  datatype Session = Session(
    phase: Phase,
    startSeen: nat,
    endSeen: nat,
    pkbuf: seq<nat>,
    symbols: seq<nat>,
    runs: nat,
    stop: bool,
    log: seq<RunRecord>)

  const Initial := Session(Waiting, 0, 0, [], [], 0, false, [])

  /** `finish()`: nothing when no symbol arrived; otherwise count the run,
      log its decoded message, clear the symbols and stop once `repeat`
      runs are done. */
  function FinishRun(p: Params, s: Session): (r: Session)
    ensures s.symbols == [] ==> r == s
    ensures s.symbols != [] ==>
      && r.runs == s.runs + 1
      && r.log == s.log + [RunRecord(s.runs + 1, |s.symbols| * p.nopBits, BitsToText(s.symbols, p.nopBits))]
      && r == s.(runs := r.runs, log := r.log, symbols := [], stop := s.stop || r.runs >= p.repeat)
  {
    if s.symbols == [] then s
    else
      var runs := s.runs + 1;
      var record := RunRecord(runs, |s.symbols| * p.nopBits, BitsToText(s.symbols, p.nopBits));
      s.(runs := runs, log := s.log + [record], symbols := [], stop := if runs >= p.repeat then true else s.stop)
  }

  /** The two lists the voting loop works on: the buffered counts and the
      symbols decoded so far. */
  datatype Buffers = Buffers(pkbuf: seq<nat>, symbols: seq<nat>)

  /** The voting loop of `handler`: while a whole block of `pps` counts is
      buffered, vote on it, unmask the winner with the mask for the next
      symbol index, append the symbol and drop the block. */
  function Absorb(p: Params, b: Buffers): (r: Buffers)
    requires p.pps >= 1
    ensures |r.pkbuf| < p.pps
    decreases |b.pkbuf|
  {
    if |b.pkbuf| < p.pps then b
    else Absorb(p, Round(p, b))
  }

  /** One pass of the voting loop on a buffer holding a whole block: vote on
      the first `pps` counts, unmask the winner with the mask for the next
      symbol index, append the symbol and drop the block. */
  function Round(p: Params, b: Buffers): Buffers
    requires p.pps >= 1 && |b.pkbuf| >= p.pps
  {
    var voted := Mode(b.pkbuf[..p.pps]);
    var plain := Xor(voted, p.mask(|b.symbols|, p.nopBits));
    Buffers(b.pkbuf[p.pps..], b.symbols + [plain])
  }

  /** The voting loop only appends symbols. */
  lemma {:induction false} AbsorbExtends(p: Params, b: Buffers)
    requires p.pps >= 1
    ensures var r := Absorb(p, b);
      |b.symbols| <= |r.symbols| && r.symbols[..|b.symbols|] == b.symbols
    decreases |b.pkbuf|
  {
    if |b.pkbuf| >= p.pps {
      var t := Round(p, b);
      var r := Absorb(p, t);
      assert Absorb(p, b) == r;
      AbsorbExtends(p, t);
      assert r.symbols[..|b.symbols|] == r.symbols[..|t.symbols|][..|b.symbols|];
    }
  }

  /** The voting loop only drops counts from the front of the buffer. */
  lemma {:induction false} AbsorbDrops(p: Params, b: Buffers)
    requires p.pps >= 1
    ensures var r := Absorb(p, b);
      |r.pkbuf| <= |b.pkbuf| && r.pkbuf == b.pkbuf[|b.pkbuf| - |r.pkbuf|..]
    decreases |b.pkbuf|
  {
    if |b.pkbuf| >= p.pps {
      var t := Round(p, b);
      var r := Absorb(p, t);
      assert Absorb(p, b) == r;
      AbsorbDrops(p, t);
      assert r.pkbuf == b.pkbuf[p.pps..][|t.pkbuf| - |r.pkbuf|..];
    }
  }

  /** Each symbol the voting loop appends consumes one whole block. */
  lemma {:induction false} AbsorbBlocks(p: Params, b: Buffers)
    requires p.pps >= 1
    ensures var r := Absorb(p, b);
      && |b.symbols| <= |r.symbols|
      && |b.pkbuf| == |r.pkbuf| + (|r.symbols| - |b.symbols|) * p.pps
    decreases |b.pkbuf|
  {
    if |b.pkbuf| >= p.pps {
      var t := Round(p, b);
      var r := Absorb(p, t);
      assert Absorb(p, b) == r;
      AbsorbBlocks(p, t);
      MulSucc(|r.symbols| - |t.symbols|, p.pps);
    }
  }

  /** The handler's variables after the voting loop has run on them. */
  function Voted(p: Params, s: Session): (r: Session)
    requires p.pps >= 1
  {
    var b := Absorb(p, Buffers(s.pkbuf, s.symbols));
    s.(pkbuf := b.pkbuf, symbols := b.symbols)
  }

  /** `handler(pkt)` after the port filter, given the packet's NOP count. */
  function Handle(p: Params, s: Session, val: nat): Session
    requires p.pps >= 1
  {
    match s.phase
    case Waiting =>
      if val != Start(p.nopBits) then s
      else if s.startSeen + 1 == 3 then
        s.(phase := Receiving, startSeen := 0, pkbuf := [], symbols := [])
      else s.(startSeen := s.startSeen + 1)
    case Receiving =>
      if val == End(p.nopBits) then
        if s.endSeen + 1 == 3 then FinishRun(p, s.(phase := Waiting, endSeen := 0))
        else s.(endSeen := s.endSeen + 1)
      else if val == Start(p.nopBits) then s
      else Voted(p, s.(pkbuf := s.pkbuf + [val]))
  }

  /** A data count that does not complete a block is only buffered. */
  lemma BufferData(p: Params, q: Session, v: nat)
    requires p.pps >= 1 && q.phase == Receiving
    requires v != Start(p.nopBits) && v != End(p.nopBits) && |q.pkbuf| + 1 < p.pps
    ensures Handle(p, q, v) == q.(pkbuf := q.pkbuf + [v])
  {
  }

  /** A data count that completes a block turns the block into a symbol. */
  lemma CompleteBlock(p: Params, q: Session, v: nat)
    requires p.pps >= 1 && q.phase == Receiving
    requires v != Start(p.nopBits) && v != End(p.nopBits) && |q.pkbuf| + 1 == p.pps
    ensures Handle(p, q, v)
         == q.(pkbuf := [], symbols := q.symbols + [Xor(Mode(q.pkbuf + [v]), p.mask(|q.symbols|, p.nopBits))])
  {
    var b := q.pkbuf + [v];
    assert b[..p.pps] == b && b[p.pps..] == [];
    var t := Buffers([], q.symbols + [Xor(Mode(b), p.mask(|q.symbols|, p.nopBits))]);
    assert Absorb(p, t) == t;
    assert Absorb(p, Buffers(b, q.symbols)) == Absorb(p, t);
  }

  /** `handler(pkt)`: packets that are not UDP to the receiver's port are
      ignored. The capture filter only lets IPv4 traffic through, which the
      handler relies on. */
  function Receive(p: Params, s: Session, pkt: Packet): Session
    requires p.pps >= 1 && pkt.ip.Some?
  {
    if pkt.udpDport != Some(p.port) then s else Handle(p, s, CountNops(pkt.ip.value))
  }

  /** The handler applied to the counts `vals` in order, under `sniff`'s
      stop filter: after each packet, capture ends if the stop flag is set. */
  function Feed(p: Params, s: Session, vals: seq<nat>): Session
    requires p.pps >= 1
    decreases |vals|
  {
    if vals == [] then s
    else
      var next := Handle(p, s, vals[0]);
      if next.stop then next else Feed(p, next, vals[1..])
  }

  /** `sniff(prn=handler, stop_filter=...)` over the captured packets. */
  function Run(p: Params, s: Session, pkts: seq<Packet>): Session
    requires p.pps >= 1 && forall i :: 0 <= i < |pkts| ==> pkts[i].ip.Some?
    decreases |pkts|
  {
    if pkts == [] then s
    else
      var next := Receive(p, s, pkts[0]);
      if next.stop then next else Run(p, next, pkts[1..])
  }

  /** `SIGALRM`: the alarm only raises the stop flag. */
  function Alarm(s: Session): (r: Session)
    ensures r.stop
  {
    s.(stop := true)
  }

  /** What the handler's variables always satisfy between packets. */
  predicate Inv(p: Params, s: Session)
  {
    && s.startSeen < 3
    && s.endSeen < 3
    && |s.pkbuf| < p.pps
    && (s.phase == Waiting ==> s.endSeen == 0 && s.symbols == [])
    && (s.phase == Receiving ==> s.startSeen == 0)
    && |s.log| == s.runs
    && (forall i :: 0 <= i < |s.log| ==> s.log[i].run == i + 1)
  }

  lemma InitialInv(p: Params)
    requires ParamsOk(p)
    ensures Inv(p, Initial)
  {
  }

  /** The handler keeps the invariant, never lowers the stop flag, and
      logs at most one run per packet. */
  lemma HandleInv(p: Params, s: Session, val: nat)
    requires ParamsOk(p) && Inv(p, s)
    ensures var r := Handle(p, s, val);
      && Inv(p, r)
      && (s.stop ==> r.stop)
      && s.runs <= r.runs <= s.runs + 1
      && r.log[..s.runs] == s.log
  {
    var r := Handle(p, s, val);
    if s.phase == Receiving && val == End(p.nopBits) && s.endSeen + 1 == 3 {
      var w := s.(phase := Waiting, endSeen := 0);
      assert r == FinishRun(p, w);
      if w.symbols != [] {
        assert r.log[|s.log|].run == s.runs + 1;
      }
    }
  }

  /** The invariant holds after any sequence of counts. */
  lemma {:induction false} FeedInv(p: Params, s: Session, vals: seq<nat>)
    requires ParamsOk(p) && Inv(p, s)
    ensures Inv(p, Feed(p, s, vals))
    decreases |vals|
  {
    if vals != [] {
      HandleInv(p, s, vals[0]);
      FeedInv(p, Handle(p, s, vals[0]), vals[1..]);
    }
  }

  lemma AlarmInv(p: Params, s: Session)
    requires Inv(p, s)
    ensures Inv(p, Alarm(s))
  {
  }

  /** The running receiver: its settings and the variables `main` shares
      with `finish` and `handler`, updated in place. */
  class CovertReceiver {
    const params: Params
    var phase: Phase
    var startSeen: nat
    var endSeen: nat
    var pkbuf: seq<nat>
    var symbols: seq<nat>
    var runs: nat
    var stop: bool
    var log: seq<RunRecord>

    function Snapshot(): Session
      reads this
    {
      Session(phase, startSeen, endSeen, pkbuf, symbols, runs, stop, log)
    }

    predicate Valid()
      reads this
    {
      ParamsOk(params) && Inv(params, Snapshot())
    }

    /** The set-up in `main`: waiting, nothing buffered, no run yet. */
    constructor(p: Params)
      requires ParamsOk(p)
      ensures params == p && Snapshot() == Initial && Valid()
    {
      params := p;
      phase, startSeen, endSeen := Waiting, 0, 0;
      pkbuf, symbols := [], [];
      runs, stop, log := 0, false, [];
    }

    /** `finish()`. */
    method Finish()
      modifies this
      ensures Snapshot() == FinishRun(params, old(Snapshot()))
    {
      if symbols == [] {
        return;
      }
      runs := runs + 1;
      var msg := BitsToText(symbols, params.nopBits);
      log := log + [RunRecord(runs, |symbols| * params.nopBits, msg)];
      symbols := [];
      if runs >= params.repeat {
        stop := true;
      }
    }

    /** `handler(pkt)`. */
    method Handler(pkt: Packet)
      modifies this
      requires Valid() && pkt.ip.Some?
      ensures Snapshot() == Receive(params, old(Snapshot()), pkt)
      ensures Valid()
    {
      ghost var before := Snapshot();
      if pkt.udpDport == Some(params.port) {
        var val := CountNops(pkt.ip.value);
        HandleInv(params, before, val);
        if phase == Waiting {
          OnWaiting(val);
        } else {
          OnReceiving(val);
        }
      }
    }

    /** The `waiting` branch of `handler`: count START packets, and open a
        message on the third. */
    method OnWaiting(val: nat)
      modifies this
      requires params.pps >= 1 && phase == Waiting
      ensures Snapshot() == Handle(params, old(Snapshot()), val)
    {
      if val == Start(params.nopBits) {
        startSeen := startSeen + 1;
        if startSeen == 3 {
          phase, pkbuf, symbols := Receiving, [], [];
          startSeen := 0;
        }
      }
    }

    /** The `recv` branch of `handler`: count END packets and finish on the
        third, ignore START packets, buffer and vote on data counts. */
    method OnReceiving(val: nat)
      modifies this
      requires params.pps >= 1 && phase == Receiving
      ensures Snapshot() == Handle(params, old(Snapshot()), val)
    {
      if val == End(params.nopBits) {
        endSeen := endSeen + 1;
        if endSeen == 3 {
          phase := Waiting;
          endSeen := 0;
          Finish();
        }
        return;
      }
      if val == Start(params.nopBits) || val == End(params.nopBits) {
        return;
      }
      pkbuf := pkbuf + [val];
      Drain();
    }

    /** The voting loop of `handler`. */
    method Drain()
      modifies this
      requires params.pps >= 1
      ensures Snapshot() == Voted(params, old(Snapshot()))
    {
      ghost var before := Snapshot();
      while |pkbuf| >= params.pps
        invariant Absorb(params, Buffers(pkbuf, symbols)) == Absorb(params, Buffers(before.pkbuf, before.symbols))
        invariant Snapshot() == before.(pkbuf := pkbuf, symbols := symbols)
        decreases |pkbuf|
      {
        var block := pkbuf[..params.pps];
        var voted := Mode(block);
        var idx := |symbols|;
        var plain := Xor(voted, params.mask(idx, params.nopBits));
        symbols := symbols + [plain];
        pkbuf := pkbuf[params.pps..];
      }
    }

    /** The `SIGALRM` handler. */
    method OnAlarm()
      modifies this
      requires Valid()
      ensures Snapshot() == Alarm(old(Snapshot()))
      ensures Valid()
    {
      AlarmInv(params, Snapshot());
      stop := true;
    }

    /** `sniff(prn=handler, stop_filter=...)` over the captured packets:
        each packet goes to the handler, and capture ends after the first
        packet that leaves the stop flag set. */
    method Sniff(pkts: seq<Packet>)
      modifies this
      requires Valid() && forall i :: 0 <= i < |pkts| ==> pkts[i].ip.Some?
      ensures Snapshot() == Run(params, old(Snapshot()), pkts)
      ensures Valid()
    {
      var i := 0;
      while i < |pkts|
        invariant 0 <= i <= |pkts| && Valid()
        invariant Run(params, Snapshot(), pkts[i..]) == Run(params, old(Snapshot()), pkts)
      {
        assert pkts[i..][1..] == pkts[i + 1..];
        Handler(pkts[i]);
        if stop {
          return;
        }
        i := i + 1;
      }
    }
  }
}
