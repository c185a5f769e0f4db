/** The BBR state of app/transport/bbr/bbr.go: ring-buffer filters, window, gains and mode.
    Floats are reals with an infinity for division by zero, durations are nanoseconds. */
module Bbr {
  const HOUR: int := 3600 * 1_000_000_000

  // ---------- rates ----------

  datatype Rate = Fin(r: real) | Inf

  const ZERO := Fin(0.0)

  predicate Above(a: Rate, b: Rate) {
    b.Fin? && (a.Inf? || a.r > b.r)
  }

  function Times(a: Rate, x: real): Rate
    requires a.Inf? ==> x > 0.0
  {
    if a.Inf? then Inf else Fin(a.r * x)
  }

  function Seconds(d: int): real {
    d as real / 1000000000.0
  }

  /** size / rtt in floating point: a zero duration gives infinity. */
  function Quotient(size: int, rtt: int): Rate
    requires size > 0
  {
    if rtt == 0 then Inf else Fin(size as real / Seconds(rtt))
  }

  /** A rate sample is the size over the time: finite, unless the time is zero. */
  lemma RateTimesSeconds(size: int, rtt: int)
    requires size > 0
    ensures Quotient(size, rtt).Inf? <==> rtt == 0
    ensures rtt != 0 ==> Quotient(size, rtt).r * (rtt as real / 1000000000.0) == size as real
    ensures Above(Quotient(size, rtt), ZERO) <==> rtt >= 0
  {
    if rtt != 0 {
      var t := rtt as real / 1000000000.0;
      assert t != 0.0 && (t > 0.0 <==> rtt > 0);
      Divided(size as real, t);
    }
  }

  lemma Divided(a: real, t: real)
    requires a > 0.0 && t != 0.0
    ensures a / t * t == a
    ensures a / t > 0.0 <==> t > 0.0
  {
  }

  /** The smaller of x and a rate. */
  function MinWith(x: real, a: Rate): real {
    if a.Inf? || x < a.r then x else a.r
  }

  // ---------- windows ----------

  /** A ring buffer read from its oldest entry. */
  function Unroll<T>(ring: seq<T>, idx: nat): seq<T>
    requires idx <= |ring|
  {
    ring[idx..] + ring[..idx]
  }

  /** The last n samples, padded in front. */
  function Recent<T>(pad: T, samples: seq<T>, n: nat): (w: seq<T>)
    ensures |w| == n
  {
    if |samples| >= n then samples[|samples| - n..] else seq(n - |samples|, i => pad) + samples
  }

  lemma NextIndex(idx: nat, n: nat)
    requires idx < n
    ensures (idx + 1) % n == if idx + 1 == n then 0 else idx + 1
  {
  }

  lemma RingPutAt<T>(ring: seq<T>, idx: nat, x: T, next: nat)
    requires idx < |ring| && next == if idx + 1 == |ring| then 0 else idx + 1
    ensures Unroll(ring[idx := x], next) == Unroll(ring, idx)[1..] + [x]
  {
    var put := ring[idx := x];
    assert put[..idx + 1] == ring[..idx] + [x] && put[idx + 1..] == ring[idx + 1..];
    assert Unroll(ring, idx)[1..] == ring[idx + 1..] + ring[..idx];
    if next == 0 {
      assert Unroll(put, 0) == put[..idx + 1];
    }
  }

  /** Overwriting the oldest slot and moving on is dropping the oldest entry and appending. */
  lemma RingPut<T>(ring: seq<T>, idx: nat, x: T)
    requires idx < |ring|
    ensures (idx + 1) % |ring| <= |ring|
    ensures Unroll(ring[idx := x], (idx + 1) % |ring|) == Unroll(ring, idx)[1..] + [x]
  {
    hide Unroll;
    NextIndex(idx, |ring|);
    RingPutAt(ring, idx, x, (idx + 1) % |ring|);
  }

  lemma RecentSnoc<T>(pad: T, samples: seq<T>, x: T, n: nat)
    requires n > 0
    ensures Recent(pad, samples + [x], n) == Recent(pad, samples, n)[1..] + [x]
  {
    var k := |samples|;
    if k >= n {
      assert (samples + [x])[k + 1 - n..] == samples[k - n..][1..] + [x];
    } else {
      assert seq(n - k, i => pad)[1..] == seq(n - k - 1, i => pad);
      assert (seq(n - k, i => pad) + samples)[1..] == seq(n - k, i => pad)[1..] + samples;
      if k + 1 == n {
        assert (samples + [x])[0..] == samples + [x];
      }
    }
  }

  lemma RingPutRecent<T>(ring: seq<T>, idx: nat, x: T, pad: T, samples: seq<T>)
    requires idx < |ring| && Unroll(ring, idx) == Recent(pad, samples, |ring|)
    ensures (idx + 1) % |ring| < |ring|
    ensures Unroll(ring[idx := x], (idx + 1) % |ring|) == Recent(pad, samples + [x], |ring|)
  {
    RingPut(ring, idx, x);
    RecentSnoc(pad, samples, x, |ring|);
  }

  lemma UnrollMembers<T>(ring: seq<T>, idx: nat)
    requires idx <= |ring|
    ensures forall x :: x in ring <==> x in Unroll(ring, idx)
  {
    assert ring == ring[..idx] + ring[idx..];
  }

  ghost predicate IsMax(m: Rate, w: seq<Rate>)
  {
    m in w && forall x | x in w :: !Above(x, m)
  }

  /** The minimum of the window and one hour. */
  ghost predicate IsMin(m: int, w: seq<int>)
  {
    (m == HOUR || m in w) && m <= HOUR && forall x | x in w :: m <= x
  }

  /** Nothing or the greatest sample of a run. */
  ghost predicate IsPeak(m: Rate, samples: seq<Rate>)
  {
    (m == ZERO || m in samples) && !Above(ZERO, m) && forall x | x in samples :: !Above(x, m)
  }

  // ---------- the state ----------

  datatype Mode = Startup | Drain | ProbeBW | ProbeRTT

  datatype Algorithm = Original | V2 | V3 | Other

  datatype Config = Config(
    algorithm: Algorithm, mss: nat, initCWND: real, bwFilterLen: nat, rttFilterLen: nat,
    ecnThreshold: real, startupPacingGain: real, startupCWNDGain: real, drainPacingGain: real,
    firstPacingGain: real, firstCWNDGain: real, alpha: real, beta: real)

  /** A usable configuration: non-empty filters, positive sizes and gains, an initial window
      within the cap, loss factors that do not enlarge the window. The gains to start with are
      not always those Reset returns to: the Plus and Adaptive variants differ in one of them. */
  predicate Usable(c: Config)
  {
    && c.mss > 0 && c.bwFilterLen > 0 && c.rttFilterLen > 0
    && 0.0 <= c.initCWND <= 600.0
    && c.startupPacingGain > 0.0 && c.startupCWNDGain > 0.0 && c.drainPacingGain > 0.0
    && c.firstPacingGain > 0.0 && c.firstCWNDGain > 0.0
    && 0.0 <= c.alpha <= 1.0 && 0.0 <= c.beta <= 1.0
  }

  class BBR {
    const config: Config
    var mode: Mode
    var bw: Rate
    var bwMax: Rate
    var bwLatest: Rate
    const bwFilter: array<Rate>
    var bwFilterIdx: nat
    var minRTT: int
    const minRTTFilter: array<int>
    var minRTTIdx: nat
    var latestRTT: int
    var cwnd: real
    var cwndGain: real
    var pacingGain: real
    var pacingRate: Rate
    var inflight: nat
    var packetsSent: nat
    var ecnCount: nat
    var fullBW: bool
    var fullBWCount: nat
    var cycleCount: nat

    /** All rate and RTT samples so far; the rate samples since Reset; whether Reset has zeroed
        bwMax since the last one; and for each ack taken in Startup, whether the latest rate
        then equalled the window maximum. */
    ghost var rates: seq<Rate>
    ghost var rtts: seq<int>
    ghost var ratesSinceReset: seq<Rate>
    ghost var zeroed: bool
    ghost var startupAcks: seq<bool>

    ghost predicate RatesOk()
      reads this`bwFilterIdx, this`rates, this`zeroed, this`bwMax, this`bw, this`ratesSinceReset, this`bwLatest, bwFilter
    {
      && bwFilter.Length == config.bwFilterLen && bwFilterIdx < bwFilter.Length
      && Unroll(bwFilter[..], bwFilterIdx) == Recent(ZERO, rates, bwFilter.Length)
      && (forall x | x in bwFilter[..] :: !Above(ZERO, x))
      && (!zeroed ==> IsMax(bwMax, Recent(ZERO, rates, bwFilter.Length)))
      && IsPeak(bw, ratesSinceReset)
      && (bwLatest == ZERO || Above(bwLatest, ZERO))
    }

    ghost predicate RttsOk()
      reads this`minRTTIdx, this`rtts, minRTTFilter
    {
      && minRTTFilter.Length == config.rttFilterLen && minRTTIdx < minRTTFilter.Length
      && Unroll(minRTTFilter[..], minRTTIdx) == Recent(HOUR, rtts, minRTTFilter.Length)
    }

    ghost predicate MinOk()
      requires RttsOk()
      reads this`minRTTIdx, this`rtts, this`minRTT, minRTTFilter
    {
      IsMin(minRTT, Recent(HOUR, rtts, minRTTFilter.Length))
    }

    ghost predicate WindowOk()
      reads this`cwnd
    {
      config.initCWND <= cwnd <= 600.0
    }

    /** Gains are positive, and the count of agreeing acks is real. */
    ghost predicate CountOk()
      reads this`cwndGain, this`pacingGain, this`fullBWCount, this`startupAcks
    {
      && cwndGain > 0.0 && pacingGain > 0.0
      && fullBWCount <= |startupAcks|
      && (forall i | |startupAcks| - fullBWCount <= i < |startupAcks| :: startupAcks[i])
    }

    /** And the mode is never ProbeBW. */
    ghost predicate ModeOk()
      reads this`mode, this`cwndGain, this`pacingGain, this`fullBWCount, this`startupAcks
    {
      mode != ProbeBW && CountOk()
    }

    ghost predicate Valid()
      reads this, bwFilter, minRTTFilter
    {
      Usable(config) && RatesOk() && RttsOk() && MinOk() && WindowOk() && ModeOk()
    }

    constructor (config: Config)
      requires Usable(config)
      ensures Valid() && this.config == config && mode == Startup && cwnd == config.initCWND
      ensures rates == [] && rtts == [] && startupAcks == [] && !zeroed
      ensures fresh(bwFilter) && fresh(minRTTFilter)
    {
      this.config := config;
      mode, bw, bwMax, bwLatest, bwFilterIdx := Startup, ZERO, ZERO, ZERO, 0;
      bwFilter := new Rate[config.bwFilterLen](_ => ZERO);
      minRTTFilter := new int[config.rttFilterLen](_ => HOUR);
      minRTT, minRTTIdx, latestRTT := HOUR, 0, 0;
      cwnd, cwndGain, pacingGain := config.initCWND, config.firstCWNDGain, config.firstPacingGain;
      pacingRate := Fin(10.0 * config.mss as real);
      inflight, packetsSent, ecnCount, fullBW, fullBWCount, cycleCount := 0, 0, 0, false, 0, 0;
      rates, rtts, ratesSinceReset, zeroed, startupAcks := [], [], [], false, [];
      new;
      assert bwFilter[0] in bwFilter[..];
      assert bwFilter[..] == Recent(ZERO, [], bwFilter.Length);
      assert minRTTFilter[..] == Recent(HOUR, [], minRTTFilter.Length);
    }

    /** Puts the latest rate in the ring and takes the maximum of the whole ring. */
    method UpdateBWFilter(rate: Rate)
      requires RatesOk() && Above(rate, ZERO)
      modifies this`bwLatest, this`bwFilterIdx, this`bwMax, this`bw, this`rates, this`ratesSinceReset, this`zeroed, bwFilter
      ensures RatesOk() && !zeroed && bwLatest == rate
      ensures IsMax(bwMax, Recent(ZERO, rates, bwFilter.Length))
      ensures rates == old(rates) + [bwLatest] && ratesSinceReset == old(ratesSinceReset) + [bwLatest]
    {
      hide Recent, Unroll;
      bwLatest := rate;
      RingPutRecent(bwFilter[..], bwFilterIdx, bwLatest, ZERO, rates);
      ghost var ring := bwFilter[..];
      bwFilter[bwFilterIdx] := bwLatest;
      assert bwFilter[..] == ring[bwFilterIdx := bwLatest];
      bwFilterIdx := (bwFilterIdx + 1) % bwFilter.Length;
      rates := rates + [bwLatest];
      MaxOfRing();
      zeroed := false;
      if Above(bwLatest, bw) {
        bw := bwLatest;
      }
      ratesSinceReset := ratesSinceReset + [bwLatest];
    }

    method MaxOfRing()
      requires bwFilter.Length > 0 && bwFilterIdx <= bwFilter.Length
      requires forall x | x in bwFilter[..] :: !Above(ZERO, x)
      modifies this`bwMax
      ensures IsMax(bwMax, Unroll(bwFilter[..], bwFilterIdx))
    {
      bwMax := ZERO;
      for i := 0 to bwFilter.Length
        invariant bwMax == ZERO || bwMax in bwFilter[..i]
        invariant !Above(ZERO, bwMax)
        invariant forall x | x in bwFilter[..i] :: !Above(x, bwMax)
      {
        assert bwFilter[..i + 1] == bwFilter[..i] + [bwFilter[i]];
        if Above(bwFilter[i], bwMax) {
          bwMax := bwFilter[i];
        }
      }
      assert bwFilter[..bwFilter.Length] == bwFilter[..];
      assert bwFilter[0] in bwFilter[..];
      UnrollMembers(bwFilter[..], bwFilterIdx);
    }

    /** Puts the latest RTT in the ring and takes the minimum of the whole ring and one hour. */
    method UpdateMinRTTFilter()
      requires RttsOk()
      modifies this`minRTTIdx, this`minRTT, this`rtts, minRTTFilter
      ensures RttsOk() && MinOk() && rtts == old(rtts) + [latestRTT]
    {
      hide Recent, Unroll;
      RingPutRecent(minRTTFilter[..], minRTTIdx, latestRTT, HOUR, rtts);
      ghost var ring := minRTTFilter[..];
      minRTTFilter[minRTTIdx] := latestRTT;
      assert minRTTFilter[..] == ring[minRTTIdx := latestRTT];
      minRTTIdx := (minRTTIdx + 1) % minRTTFilter.Length;
      rtts := rtts + [latestRTT];
      minRTT := HOUR;
      for i := 0 to minRTTFilter.Length
        invariant minRTT == HOUR || minRTT in minRTTFilter[..i]
        invariant minRTT <= HOUR && forall x | x in minRTTFilter[..i] :: minRTT <= x
        invariant RttsOk() && rtts == old(rtts) + [latestRTT]
      {
        assert minRTTFilter[..i + 1] == minRTTFilter[..i] + [minRTTFilter[i]];
        if minRTTFilter[i] < minRTT {
          minRTT := minRTTFilter[i];
        }
      }
      assert minRTTFilter[..minRTTFilter.Length] == minRTTFilter[..];
      UnrollMembers(minRTTFilter[..], minRTTIdx);
    }

    function Bdp(): Rate
      reads this`minRTT, this`bw
    {
      if minRTT <= 0 then Fin(config.initCWND) else Times(bw, Seconds(minRTT))
    }

    /** In Startup the window grows by its gain, at most to the gain times what the path holds;
        in Drain it is what the path holds, the bandwidth times the smallest RTT times the segment
        size; while the RTT is probed it is the initial window. It stays between that and 600. */
    ghost predicate WindowMoved(before: real)
      reads this`mode, this`cwnd, this`cwndGain, this`bw, this`minRTT
    {
      match mode
      case Startup =>
        if Endless() || before + cwndGain < StartupLimit() then Clamped(before + cwndGain)
        else Clamped(StartupLimit())
      case Drain => if Endless() then cwnd == 600.0 else Clamped(Path())
      case ProbeRTT => cwnd == config.initCWND
      case ProbeBW => if Endless() then cwnd == 600.0 else Clamped(2.0 * Path())
    }

    predicate Endless()
      reads this`bw, this`minRTT
    {
      bw.Inf? && minRTT > 0
    }

    /** What the path holds, if that is finite; without a smallest RTT the initial window, taken
        in segments, stands in for it. */
    function Path(): real
      reads this`bw, this`minRTT
    {
      if minRTT <= 0 then config.initCWND * config.mss as real
      else if bw.Inf? then 0.0
      else bw.r * (minRTT as real / 1000000000.0) * config.mss as real
    }

    function StartupLimit(): real
      reads this`bw, this`minRTT, this`cwndGain
    {
      Path() * cwndGain
    }

    lemma PathInBytes()
      requires config.mss > 0 && cwndGain > 0.0
      ensures var bdp := Times(Bdp(), config.mss as real);
        && bdp == (if Endless() then Inf else Fin(Path()))
        && Times(bdp, cwndGain) == (if Endless() then Inf else Fin(StartupLimit()))
        && Times(bdp, 2.0) == (if Endless() then Inf else Fin(2.0 * Path()))
    {
    }

    /** The window is x, or the limit x is beyond. */
    ghost predicate Clamped(x: real)
      reads this`cwnd
    {
      cwnd == if x < config.initCWND then config.initCWND else if x > 600.0 then 600.0 else x
    }

    /** The pacing rate is the larger of what it was and bandwidth times gain times segment size. */
    ghost predicate RateMoved(before: Rate)
      reads this`bw, this`pacingGain, this`pacingRate
    {
      if (bw.Fin? && bw.r <= 0.0) || pacingGain <= 0.0 then pacingRate == before
      else if bw.Inf? || before.Inf? then pacingRate.Inf?
      else
        var goal := bw.r * pacingGain * config.mss as real;
        pacingRate == Fin(if goal > before.r then goal else before.r)
    }

    method UpdatePacingRate()
      requires config.mss > 0
      modifies this`pacingRate
      ensures !Above(old(pacingRate), pacingRate) && RateMoved(old(pacingRate))
    {
      if Above(bw, ZERO) && pacingGain > 0.0 {
        var rate := Times(Times(bw, pacingGain), config.mss as real);
        if bw.Fin? {
          Positive(bw.r, pacingGain);
          Positive(bw.r * pacingGain, config.mss as real);
        }
        if Above(rate, pacingRate) || pacingRate == ZERO {
          pacingRate := rate;
        }
      }
    }

    static lemma Positive(x: real, y: real)
      requires x > 0.0 && y > 0.0
      ensures x * y > 0.0
    {
    }

    method UpdateCWND()
      requires Usable(config) && WindowOk() && cwndGain > 0.0
      modifies this`cwnd
      ensures WindowOk() && WindowMoved(old(cwnd))
    {
      hide Path, Bdp, Clamped, Endless, StartupLimit, Times;
      PathInBytes();
      if mode == ProbeRTT {
        cwnd := if cwnd < config.initCWND then cwnd else config.initCWND;
        return;
      }
      var bdp := Times(Bdp(), config.mss as real);
      if mode == Startup {
        cwnd := MinWith(cwnd + cwndGain, Times(bdp, cwndGain));
        ghost var goal := cwnd;
        Limit();
        SameLimit(goal, old(cwnd) + cwndGain);
        SameLimit(goal, StartupLimit());
      } else {
        var target := if mode == ProbeBW then Times(bdp, 2.0) else bdp;
        cwnd := MinWith(601.0, target);
        ghost var goal := cwnd;
        Limit();
        SameLimit(goal, Path());
        SameLimit(goal, 2.0 * Path());
      }
    }

    /** The last two tests: not below the initial window, not above 600. */
    method Limit()
      requires config.initCWND <= 600.0
      modifies this`cwnd
      ensures WindowOk() && Clamped(old(cwnd))
    {
      if cwnd < config.initCWND {
        cwnd := config.initCWND;
      }
      if cwnd > 600.0 {
        cwnd := 600.0;
      }
    }

    lemma SameLimit(x: real, y: real)
      requires config.initCWND <= 600.0 && Clamped(x)
      ensures (x == y || (x == 601.0 && y >= 601.0)) ==> Clamped(y)
      ensures x == 601.0 ==> cwnd == 600.0
    {
    }

    /** All four branches; since it is only called in Startup, the last three never run. */
    method AdvanceMode()
      requires Usable(config) && CountOk()
      modifies this`mode, this`pacingGain, this`cwndGain, this`fullBW, this`fullBWCount, this`cycleCount, this`startupAcks
      ensures old(mode) == Startup ==> ModeOk() && startupAcks == old(startupAcks) + [bwMax == bwLatest]
      ensures old(mode) == Startup ==>
        mode == if bwMax == bwLatest && old(fullBW) && old(fullBWCount) >= 2 then Drain else Startup
      ensures mode == old(mode) && mode != ProbeBW ==> pacingGain == old(pacingGain) && cwndGain == old(cwndGain)
      ensures mode == Drain && old(mode) != Drain ==> pacingGain == config.drainPacingGain && cwndGain == 1.0
      ensures mode == ProbeBW && old(mode) != ProbeBW ==> pacingGain == 1.25 && cwndGain == 2.0
      ensures old(mode) == Drain ==> mode == if Above(Fin(inflight as real), Bdp()) then Drain else ProbeBW
      ensures old(mode) == ProbeBW ==>
        && mode == ProbeBW && cycleCount == old(cycleCount) + 1
        && pacingGain == (if cycleCount % 8 == 0 then 1.25 else if cycleCount % 8 == 1 then 0.75 else 1.0)
        && cwndGain == (if cycleCount % 8 == 0 then 2.0 else 1.0)
      ensures old(mode) == ProbeRTT ==> mode == ProbeBW
      ensures old(mode) == Startup && mode != Startup ==>
        mode == Drain && |startupAcks| >= 3 && startupAcks[|startupAcks| - 3..] == [true, true, true]
    {
      match mode
      case Startup =>
        startupAcks := startupAcks + [bwMax == bwLatest];
        if bwMax == bwLatest && fullBW {
          fullBWCount := fullBWCount + 1;
          if fullBWCount >= 3 {
            mode, pacingGain, cwndGain, fullBW := Drain, config.drainPacingGain, 1.0, false;
          }
        } else {
          fullBW, fullBWCount := true, 0;
        }
      case Drain =>
        if !Above(Fin(inflight as real), Bdp()) {
          mode, pacingGain, cwndGain, cycleCount := ProbeBW, 1.25, 2.0, 0;
        }
      case ProbeBW =>
        cycleCount := cycleCount + 1;
        pacingGain := if cycleCount % 8 == 0 then 1.25 else if cycleCount % 8 == 1 then 0.75 else 1.0;
        cwndGain := if cycleCount % 8 == 0 then 2.0 else 1.0;
      case ProbeRTT =>
        // the stamp the source measures 200 ms from is never set, so they have always passed
        mode, pacingGain, cwndGain := ProbeBW, 1.25, 2.0;
    }

    method OnPacketSent()
      requires Valid()
      modifies this`packetsSent, this`inflight
      ensures Valid() && inflight == old(inflight) + 1 && packetsSent == old(packetsSent) + 1
    {
      packetsSent := packetsSent + 1;
      inflight := inflight + 1;
    }

    method OnPacketLost(ecn: bool)
      requires Valid()
      modifies this`inflight, this`ecnCount, this`cwnd
      ensures Valid() && cwnd <= old(cwnd)
      ensures ecnCount == old(ecnCount) + (if ecn then 1 else 0)
      ensures config.algorithm in {Original, Other} ==> Lowered(old(cwnd), 0.8)
      ensures config.algorithm in {V2, V3} && ecn && ecnCount as real > config.ecnThreshold * packetsSent as real ==>
        Lowered(old(cwnd), config.alpha)
      ensures config.algorithm in {V2, V3} && !(ecn && ecnCount as real > config.ecnThreshold * packetsSent as real) ==>
        Lowered(old(cwnd), config.beta)
      ensures inflight == (if old(inflight) > 0 then old(inflight) - 1 else 0)
    {
      hide RatesOk, RttsOk, MinOk, WindowOk, ModeOk, Lowered;
      if inflight > 0 {
        inflight := inflight - 1;
      }
      if ecn {
        ecnCount := ecnCount + 1;
      }
      var factor := 0.8;
      if config.algorithm == V2 || config.algorithm == V3 {
        factor := if ecn && ecnCount as real > config.ecnThreshold * packetsSent as real
                  then config.alpha else config.beta;
      }
      ShrinkWindow(factor);
    }

    /** The window is a factor times what it was, or its initial value if that is more. */
    ghost predicate Lowered(before: real, factor: real)
      reads this`cwnd
    {
      && cwnd >= config.initCWND && cwnd >= before * factor
      && (cwnd == config.initCWND || cwnd == before * factor)
    }

    method ShrinkWindow(factor: real)
      requires 0.0 <= config.initCWND && 0.0 <= factor <= 1.0 && WindowOk()
      modifies this`cwnd
      ensures WindowOk() && cwnd <= old(cwnd) && Lowered(old(cwnd), factor)
    {
      var shrunk := cwnd * factor;
      Portion(cwnd, factor, shrunk);
      cwnd := shrunk;
      if cwnd < config.initCWND {
        cwnd := config.initCWND;
      }
    }

    static lemma Portion(x: real, f: real, y: real)
      requires 0.0 <= x && 0.0 <= f <= 1.0 && y == x * f
      ensures y <= x
    {
    }

    method RecordRTT(rtt: int)
      requires RttsOk()
      modifies this`latestRTT, this`minRTT, this`minRTTIdx, this`rtts, minRTTFilter
      ensures RttsOk() && MinOk() && rtts == old(rtts) + [rtt]
    {
      latestRTT := rtt;
      if rtt < minRTT && rtt > 0 {
        minRTT := rtt;
      }
      UpdateMinRTTFilter();
    }

    /** A rate sample is taken when something was acknowledged and the rate is positive. */
    predicate Samples(size: int, rtt: int) {
      size > 0 && Above(Quotient(size, rtt), ZERO)
    }

    /** The measurements an acknowledgement brings. */
    method Measure(size: int, rtt: int)
      requires RatesOk() && RttsOk()
      modifies this`latestRTT, this`minRTT, this`minRTTIdx, this`rtts, minRTTFilter
      modifies this`bwLatest, this`bwFilterIdx, this`bwMax, this`bw, this`rates, this`ratesSinceReset, this`zeroed, bwFilter
      ensures RatesOk() && RttsOk() && MinOk()
      ensures rtts == old(rtts) + [rtt]
      ensures rates == old(rates) + if Samples(size, rtt) then [Quotient(size, rtt)] else []
      ensures ratesSinceReset == old(ratesSinceReset) + if Samples(size, rtt) then [Quotient(size, rtt)] else []
      ensures Samples(size, rtt) ==> IsMax(bwMax, Recent(ZERO, rates, bwFilter.Length))
    {
      assert ratesSinceReset + [] == ratesSinceReset;
      hide Unroll, Recent, IsMax, RatesOk, RttsOk, MinOk, Quotient;
      RecordRTT(rtt);
      if size > 0 {
        var rate := Quotient(size, rtt);
        if Above(rate, ZERO) {
          UpdateBWFilter(rate);
        }
      }
    }

    method OnPacketAcked(size: int, rtt: int)
      requires Valid()
      modifies this, bwFilter, minRTTFilter
      ensures Valid() && rtts == old(rtts) + [rtt]
      ensures rates == old(rates) + if Samples(size, rtt) then [Quotient(size, rtt)] else []
      ensures ratesSinceReset == old(ratesSinceReset) + if Samples(size, rtt) then [Quotient(size, rtt)] else []
      ensures Samples(size, rtt) ==> IsMax(bwMax, Recent(ZERO, rates, bwFilter.Length))
      ensures inflight == if old(inflight) > 0 then old(inflight) - 1 else 0
      ensures if mode == old(mode) then pacingGain == old(pacingGain) && cwndGain == old(cwndGain)
              else pacingGain == config.drainPacingGain && cwndGain == 1.0
      ensures WindowMoved(old(cwnd)) && RateMoved(old(pacingRate))
      ensures mode == old(mode) || (old(mode) == Startup && mode == Drain)
      ensures mode != old(mode) ==>
        |startupAcks| >= 3 && startupAcks[|startupAcks| - 3..] == [true, true, true]
      ensures startupAcks == old(startupAcks) + if old(mode) == Startup then [bwMax == bwLatest] else []
      ensures mode == ProbeRTT ==> cwnd == config.initCWND
      ensures !Above(old(pacingRate), pacingRate)
    {
      hide Recent, IsMax, RatesOk, RttsOk, MinOk, WindowOk, ModeOk, Quotient, Samples, WindowMoved, RateMoved;
      if inflight > 0 {
        inflight := inflight - 1;
      }
      Measure(size, rtt);
      Steer();
    }

    /** Mode, pacing rate and window after the measurements. */
    method Steer()
      requires Usable(config) && WindowOk() && ModeOk()
      modifies this`mode, this`pacingGain, this`cwndGain, this`fullBW, this`fullBWCount, this`cycleCount, this`startupAcks
      modifies this`pacingRate, this`cwnd
      ensures WindowOk() && ModeOk()
      ensures if mode == old(mode) then pacingGain == old(pacingGain) && cwndGain == old(cwndGain)
              else pacingGain == config.drainPacingGain && cwndGain == 1.0
      ensures WindowMoved(old(cwnd)) && RateMoved(old(pacingRate))
      ensures mode == old(mode) || (old(mode) == Startup && mode == Drain)
      ensures mode != old(mode) ==>
        |startupAcks| >= 3 && startupAcks[|startupAcks| - 3..] == [true, true, true]
      ensures startupAcks == old(startupAcks) + if old(mode) == Startup then [bwMax == bwLatest] else []
      ensures mode == ProbeRTT ==> cwnd == config.initCWND
      ensures !Above(old(pacingRate), pacingRate)
    {
      hide WindowOk, Bdp, WindowMoved, RateMoved;
      assert startupAcks + [] == startupAcks;
      if mode == Startup {
        AdvanceMode();
      }
      UpdateControl();
    }

    method UpdateControl()
      requires Usable(config) && WindowOk() && cwndGain > 0.0
      modifies this`pacingRate, this`cwnd
      ensures WindowOk() && !Above(old(pacingRate), pacingRate)
      ensures mode == ProbeRTT ==> cwnd == config.initCWND
      ensures WindowMoved(old(cwnd)) && RateMoved(old(pacingRate))
    {
      hide WindowOk, RateMoved, Clamped, Path;
      UpdatePacingRate();
      UpdateCWND();
    }

    /** The stamp of the last RTT probe's end is never set, so the source's ten seconds since then
        have always passed: every update with a positive minimum starts a probe. */
    method OnRTTUpdate(rtt: int)
      requires Valid()
      modifies this`latestRTT, this`minRTT, this`minRTTIdx, this`rtts, this`mode, minRTTFilter
      ensures Valid() && rtts == old(rtts) + [rtt]
      ensures mode == if minRTT > 0 then ProbeRTT else old(mode)
    {
      hide RatesOk, RttsOk, MinOk, WindowOk;
      RecordRTT(rtt);
      if minRTT > 0 {
        mode := ProbeRTT;
      }
    }

    /** The filters keep their samples; only the values taken from the rates are cleared. */
    method Reset()
      requires Valid()
      modifies this`cwnd, this`mode, this`pacingGain, this`cwndGain, this`packetsSent, this`inflight
      modifies this`bw, this`bwMax, this`ratesSinceReset, this`zeroed
      ensures Valid() && mode == Startup && cwnd == config.initCWND && inflight == 0
      ensures bw == ZERO && bwMax == ZERO && zeroed && packetsSent == 0
      ensures pacingGain == config.startupPacingGain && cwndGain == config.startupCWNDGain
      ensures ratesSinceReset == []
    {
      hide RatesOk, RttsOk, MinOk, ModeOk;
      cwnd := config.initCWND;
      ResetRates();
      ResetMode();
      packetsSent, inflight := 0, 0;
    }

    method ResetMode()
      requires Usable(config) && ModeOk()
      modifies this`mode, this`pacingGain, this`cwndGain
      ensures ModeOk() && mode == Startup
      ensures pacingGain == config.startupPacingGain && cwndGain == config.startupCWNDGain
    {
      mode, pacingGain, cwndGain := Startup, config.startupPacingGain, config.startupCWNDGain;
    }

    method ResetRates()
      requires RatesOk()
      modifies this`bw, this`bwMax, this`ratesSinceReset, this`zeroed
      ensures RatesOk() && bw == ZERO && bwMax == ZERO && zeroed && ratesSinceReset == []
    {
      bw, bwMax, ratesSinceReset, zeroed := ZERO, ZERO, [], true;
    }

    method CanSend() returns (ok: bool)
      ensures ok <==> inflight as real < cwnd
    {
      ok := inflight as real < cwnd;
    }
  }
}
