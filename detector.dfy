/** `python-processor/detector.py`: a sliding-window detector for the
    channel. Every packet enters a time window as its NOP count and option
    bytes; the window is flagged when enough of it carries options, the
    NOP counts are varied enough and the option bytes compress poorly
    enough. Entropy and compressed length are computed by library code
    with floating point and zlib, so they are parameters here. */
module Detector {
  import opened Wire
  import CovertSender
  import Receiver

  /** `_count_nops(pkt)`: every NOP byte in the announced options region;
      unlike the receiver, nothing is stripped first. */
  function CountNops(pkt: Packet): (r: nat)
    ensures pkt.ip.None? || pkt.ip.value.ihl <= 5 ==> r == 0
    ensures pkt.ip.Some? && pkt.ip.value.ihl > 5 ==> r <= (pkt.ip.value.ihl - 5) * 4
  {
    if pkt.ip.None? || pkt.ip.value.ihl <= 5 then 0
    else Occurrences(OptionsRegion(pkt.ip.value), 1)
  }

  /** The detector never sees fewer NOPs than the receiver reads. */
  lemma SeesAtLeastReceiver(h: IpHeader, dport: Option<int>)
    ensures Receiver.CountNops(h) <= CountNops(Packet(Some(h), dport))
  {
    if h.ihl > 5 {
      var opts := OptionsRegion(h);
      if |opts| >= 2 && opts[0] == 0x44 && opts[1] == 0x04 {
        var k := if |opts| < 4 then |opts| else 4;
        assert opts == opts[..k] + Slice(opts, 4, |opts|);
        OccurrencesAppend(opts[..k], Slice(opts, 4, |opts|), 1);
      }
    }
  }

  /** On the scrambled sender's own packets the detector counts exactly the
      NOPs sent: the decoy header holds no NOP byte. */
  lemma SeesCovertCount(h: IpHeader, dport: Option<int>, n: nat)
    requires Carries(h, CovertSender.BuildOpts(n))
    ensures CountNops(Packet(Some(h), dport)) == n
  {
    var o := CovertSender.BuildOpts(n);
    if n > 0 {
      RegionOfCarrier(h, o);
      var pad := |o| - 4 - n;
      assert o == CovertSender.TimestampDecoy + Fill(1, n) + Fill(0, pad);
      OccurrencesAppend(CovertSender.TimestampDecoy + Fill(1, n), Fill(0, pad), 1);
      OccurrencesAppend(CovertSender.TimestampDecoy, Fill(1, n), 1);
      OccurrencesFill(1, n, 1);
      OccurrencesFill(0, pad, 1);
    }
  }

  /** One window entry, `(now, nop_cnt, opt_bytes)`. */
  datatype Entry = Entry(ts: real, nopCnt: nat, optBytes: seq<byte>)

  /** The entry `feed` records for `pkt` at time `now`: the option bytes
      are kept only when the packet has a NOP. */
  function MakeEntry(now: real, pkt: Packet): (e: Entry)
    ensures e.ts == now && e.nopCnt == CountNops(pkt)
    ensures e.nopCnt == 0 ==> e.optBytes == []
    ensures e.nopCnt > 0 ==> pkt.ip.Some? && e.optBytes == OptionsRegion(pkt.ip.value)
  {
    var nopCnt := CountNops(pkt);
    Entry(now, nopCnt, if nopCnt == 0 then [] else OptionsRegion(pkt.ip.value))
  }

  /** The eviction loop: drop entries from the front while the oldest one
      is more than `winSec` older than `now`. */
  function Evict(win: seq<Entry>, now: real, winSec: real): (r: seq<Entry>)
    ensures |r| <= |win| && r == win[|win| - |r|..]
    ensures r == [] || now - r[0].ts <= winSec
    ensures forall i :: 0 <= i < |win| - |r| ==> now - win[i].ts > winSec
  {
    if win != [] && now - win[0].ts > winSec then Evict(win[1..], now, winSec) else win
  }

  /** The detector's settings (`win_sec`, `thr_opts`, `thr_entropy`,
      `thr_comp`) and the two library computations it relies on: the
      Shannon entropy of a count distribution and the zlib-compressed
      length of a byte string. */
  datatype Config = Config(
    winSec: real,
    thrOpts: real,
    thrEntropy: real,
    thrComp: real,
    entropy: multiset<nat> -> real,
    compressedLen: seq<byte> -> nat)

  /** `n_opts`: entries that carry at least one NOP. */
  function OptCount(win: seq<Entry>): (r: nat)
    ensures r <= |win|
    ensures r == 0 <==> forall i :: 0 <= i < |win| ==> win[i].nopCnt == 0
  {
    if win == [] then 0
    else (if win[0].nopCnt > 0 then 1 else 0) + OptCount(win[1..])
  }

  /** `Counter(c for _, c, _ in win if c > 0)`. */
  function NopCounts(win: seq<Entry>): (r: multiset<nat>)
    ensures |r| == OptCount(win)
  {
    if win == [] then multiset{}
    else (if win[0].nopCnt > 0 then multiset{win[0].nopCnt} else multiset{}) + NopCounts(win[1..])
  }

  /** `sum(len(o) for *_, o in win)`. */
  function RawLen(win: seq<Entry>): nat
  {
    if win == [] then 0 else |win[0].optBytes| + RawLen(win[1..])
  }

  /** `sum(len(zlib.compress(o)) for *_, o in win)`. */
  function CompLen(win: seq<Entry>, compressedLen: seq<byte> -> nat): nat
  {
    if win == [] then 0 else compressedLen(win[0].optBytes) + CompLen(win[1..], compressedLen)
  }

  /** Python's true division of two counts. */
  function Ratio(num: nat, den: nat): (r: real)
    requires den >= 1
    ensures 0.0 <= r && (r == 0.0 <==> num == 0)
    ensures num <= den ==> r <= 1.0
  {
    num as real / den as real
  }

  /** `pct_opts = n_opts / n`. */
  function PctOpts(win: seq<Entry>): (r: real)
    requires win != []
    ensures 0.0 <= r <= 1.0
  {
    Ratio(OptCount(win), |win|)
  }

  /** `ent`: the entropy of the NOP counts, 0 when no entry has one. */
  function Entropy(cfg: Config, win: seq<Entry>): real
  {
    var counts := NopCounts(win);
    if counts == multiset{} then 0.0 else cfg.entropy(counts)
  }

  /** `raw_len`: the option bytes in the window, or 1 when there are none. */
  function RawLenOr1(win: seq<Entry>): (r: nat)
    ensures r >= 1
    ensures RawLen(win) > 0 ==> r == RawLen(win)
  {
    if RawLen(win) == 0 then 1 else RawLen(win)
  }

  /** The decision after the window is updated: never on an empty window,
      otherwise all three strict threshold tests. */
  function Verdict(cfg: Config, win: seq<Entry>): bool
  {
    if win == [] then false
    else
      && PctOpts(win) > cfg.thrOpts
      && Entropy(cfg, win) > cfg.thrEntropy
      && Ratio(CompLen(win, cfg.compressedLen), RawLenOr1(win)) > cfg.thrComp
  }

  /** Lowering any of the three thresholds never clears a flag: a window
      flagged under `cfg` is flagged under every laxer setting. */
  lemma VerdictMonotone(cfg: Config, thrOpts: real, thrEntropy: real, thrComp: real, win: seq<Entry>)
    requires thrOpts <= cfg.thrOpts && thrEntropy <= cfg.thrEntropy && thrComp <= cfg.thrComp
    requires Verdict(cfg, win)
    ensures Verdict(cfg.(thrOpts := thrOpts, thrEntropy := thrEntropy, thrComp := thrComp), win)
  {
  }

  /** `pct_opts` never exceeds 1, so an option threshold of 1 or more
      switches the detector off whatever the entropy and compression. */
  lemma OptsCeiling(cfg: Config, win: seq<Entry>)
    requires cfg.thrOpts >= 1.0
    ensures !Verdict(cfg, win)
  {
  }

  /** Timestamps that never decrease along the window. */
  predicate Sorted(win: seq<Entry>)
  {
    forall i, j :: 0 <= i < j < |win| ==> win[i].ts <= win[j].ts
  }

  /** After `feed` with a non-negative window length: the new entry is the
      last one, so the window is never empty; entries are only dropped from
      the front, in order, and the window grows by at most one. */
  lemma FeedWindow(cfg: Config, win: seq<Entry>, now: real, pkt: Packet)
    requires cfg.winSec >= 0.0
    ensures var w := Evict(win + [MakeEntry(now, pkt)], now, cfg.winSec);
      && w != [] && w[|w| - 1] == MakeEntry(now, pkt)
      && |w| <= |win| + 1
      && w[..|w| - 1] == win[|win| + 1 - |w|..]
  {
    var e := MakeEntry(now, pkt);
    var all := win + [e];
    var w := Evict(all, now, cfg.winSec);
    var k := |all| - |w|;
    assert all[|all| - 1] == e && now - e.ts <= cfg.winSec;
    assert k < |all|;
    assert w == all[k..];
    assert w[|w| - 1] == all[|all| - 1];
    assert w[..|w| - 1] == all[k..|all| - 1] == win[k..];
  }

  lemma SortedSnoc(win: seq<Entry>, e: Entry)
    requires Sorted(win) && forall i :: 0 <= i < |win| ==> win[i].ts <= e.ts
    ensures Sorted(win + [e])
  {
    var all := win + [e];
    forall i, j | 0 <= i < j < |all|
      ensures all[i].ts <= all[j].ts
    {
      if j < |win| {
        assert all[i] == win[i] && all[j] == win[j];
      } else {
        assert all[i] == win[i] && all[j] == e;
      }
    }
  }

  lemma SortedSuffix(win: seq<Entry>, k: nat)
    requires Sorted(win) && k <= |win|
    ensures Sorted(win[k..])
  {
    var w := win[k..];
    forall i, j | 0 <= i < j < |w|
      ensures w[i].ts <= w[j].ts
    {
      assert w[i] == win[k + i] && w[j] == win[k + j];
    }
  }

  /** With a clock that never runs backwards, every entry left in the
      window is at most `winSec` old, and the window stays sorted. */
  lemma FreshWindow(cfg: Config, win: seq<Entry>, now: real, pkt: Packet)
    requires Sorted(win) && forall i :: 0 <= i < |win| ==> win[i].ts <= now
    ensures var w := Evict(win + [MakeEntry(now, pkt)], now, cfg.winSec);
      && Sorted(w)
      && forall i :: 0 <= i < |w| ==> now - w[i].ts <= cfg.winSec
  {
    var all := win + [MakeEntry(now, pkt)];
    SortedSnoc(win, MakeEntry(now, pkt));
    var w := Evict(all, now, cfg.winSec);
    SortedSuffix(all, |all| - |w|);
    assert Sorted(w);
    forall i | 0 <= i < |w|
      ensures now - w[i].ts <= cfg.winSec
    {
      assert w[0].ts <= w[i].ts;
    }
  }

  /** A window in which no packet carries a NOP is never flagged, as long
      as the option-share threshold is not negative. */
  lemma QuietWindow(cfg: Config, win: seq<Entry>)
    requires cfg.thrOpts >= 0.0
    requires forall i :: 0 <= i < |win| ==> win[i].nopCnt == 0
    ensures !Verdict(cfg, win)
  {
    if win != [] {
      assert OptCount(win) == 0;
      assert PctOpts(win) == 0.0;
    }
  }

  /** The detector object: its settings and the window deque. */
  class SlidingEntropyDetector {
    const cfg: Config
    var win: seq<Entry>

    constructor(entropy: multiset<nat> -> real, compressedLen: seq<byte> -> nat,
                winSec: real := 2.0, thrOpts: real := 0.01, thrEntropy: real := 1.0, thrComp: real := 0.5)
      ensures cfg == Config(winSec, thrOpts, thrEntropy, thrComp, entropy, compressedLen)
      ensures win == []
    {
      cfg := Config(winSec, thrOpts, thrEntropy, thrComp, entropy, compressedLen);
      win := [];
    }

    /** `feed(pkt)` at clock reading `now`: record the packet, evict stale
        entries from the front, and decide on the window. */
    method Feed(now: real, pkt: Packet) returns (flagged: bool)
      modifies this
      ensures win == Evict(old(win) + [MakeEntry(now, pkt)], now, cfg.winSec)
      ensures flagged == Verdict(cfg, win)
    {
      var nopCnt := CountNops(pkt);
      var optBytes := if nopCnt == 0 then [] else OptionsRegion(pkt.ip.value);
      win := win + [Entry(now, nopCnt, optBytes)];
      ghost var appended := win;
      while win != [] && now - win[0].ts > cfg.winSec
        invariant Evict(win, now, cfg.winSec) == Evict(appended, now, cfg.winSec)
        decreases |win|
      {
        win := win[1..];
      }
      flagged := Decide();
    }

    /** The decision part of `feed`: the three ratios of the current window
        against their thresholds. */
    method Decide() returns (flagged: bool)
      ensures flagged == Verdict(cfg, win)
    {
      var n := |win|;
      if n == 0 {
        return false;
      }
      var pctOpts := Ratio(OptCount(win), n);
      var counts := NopCounts(win);
      var ent := if counts == multiset{} then 0.0 else cfg.entropy(counts);
      var rawLen := if RawLen(win) == 0 then 1 else RawLen(win);
      var compLen := CompLen(win, cfg.compressedLen);
      var compRatio := Ratio(compLen, rawLen);
      flagged := pctOpts > cfg.thrOpts && ent > cfg.thrEntropy && compRatio > cfg.thrComp;
    }
  }
}
