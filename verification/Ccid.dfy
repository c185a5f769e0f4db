/** Round-trip time estimation and the window rules of app/transport/dccp/congestion.go.
    Windows are reals, durations are integers in nanoseconds, divisions truncate. */
module Ccid {
  const MILLISECOND: int := 1_000_000
  const SECOND: int := 1000 * MILLISECOND
  const HOUR: int := 3600 * SECOND

  /** The largest finite 64-bit float, (2^53 - 1) * 2^971. */
  const MAX_FLOAT64: real := 179769313486231570814527423731704356798070567525844996598917476803157260780028538760589558632766878171540458953514382464234321326889464182768467546703537516986049910576551282076245490090389328944075868508455133942304583236903222948165808559332123348274797826204144723168738177180919299881250404026184124858368.0

  function Max(a: int, b: int): int {
    if a > b then a else b
  }

  function MaxR(a: real, b: real): real {
    if a > b then a else b
  }

  /** Integer division of the source: towards zero. */
  function Quotient(a: int, b: nat): int
    requires b > 0
  {
    if a >= 0 then a / b else -(-a / b)
  }

  // ---------- the estimator both controls use ----------

  datatype Rtt = Rtt(srtt: int, rttvar: int)

  function Abs(x: int): nat {
    if x < 0 then -x else x
  }

  function Sample(e: Rtt, rtt: int): Rtt
  {
    if e.srtt == 0 then Rtt(rtt, Quotient(rtt, 2))
    else Rtt(Quotient(7 * e.srtt + rtt, 8), Quotient(3 * e.rttvar + Abs(rtt - e.srtt), 4))
  }

  /** The estimator's update, as both controls write it. */
  method UpdateRtt(srtt: int, rttvar: int, rtt: int) returns (mean: int, deviation: int)
    ensures Rtt(mean, deviation) == Sample(Rtt(srtt, rttvar), rtt)
  {
    if srtt == 0 {
      mean, deviation := rtt, Quotient(rtt, 2);
    } else {
      var delta := rtt - srtt;
      if delta < 0 {
        delta := -delta;
      }
      deviation := Quotient(3 * rttvar + delta, 4);
      mean := Quotient(7 * srtt + rtt, 8);
    }
  }

  ghost predicate Within(samples: seq<int>, lo: int, hi: int)
  {
    forall i | 0 <= i < |samples| :: lo <= samples[i] <= hi
  }

  function Samples(samples: seq<int>): Rtt
  {
    if samples == [] then Rtt(0, 0) else Sample(Samples(samples[..|samples| - 1]), samples[|samples| - 1])
  }

  function VarBound(lo: int, hi: int): int {
    Max(Quotient(hi, 2), hi - lo)
  }

  predicate Estimates(e: Rtt, lo: int, hi: int) {
    lo <= e.srtt <= hi && e.rttvar <= VarBound(lo, hi) && (0 <= lo ==> 0 <= e.rttvar)
  }

  lemma SampleEstimates(e: Rtt, rtt: int, lo: int, hi: int)
    requires lo <= rtt <= hi && (e.srtt == 0 || Estimates(e, lo, hi))
    ensures Estimates(Sample(e, rtt), lo, hi)
  {
  }

  /** After any samples the mean lies between the extremes and the deviation is bounded. */
  lemma {:induction false} EstimatorBounds(samples: seq<int>, lo: int, hi: int)
    requires samples != [] && Within(samples, lo, hi)
    ensures Estimates(Samples(samples), lo, hi)
  {
    var n := |samples| - 1;
    if n > 0 {
      EstimatorBounds(samples[..n], lo, hi);
    } else {
      assert samples[..0] == [];
    }
    hide Sample, Estimates;
    SampleEstimates(Samples(samples[..n]), samples[n], lo, hi);
  }

  /** The first sample is the mean, and half of it the deviation. */
  lemma FirstSample(s: nat)
    ensures Samples([s]).srtt == s
    ensures 2 * Samples([s]).rttvar <= s <= 2 * Samples([s]).rttvar + 1
  {
    assert [s][..0] == [];
  }

  /** Up to rounding, a sample s moves the mean one eighth of the way to s, and the deviation one
      quarter of the way to the distance there was. */
  lemma SampleMoves(e: Rtt, s: int)
    requires e.srtt != 0
    ensures var e' := Sample(e, s);
      && Abs(8 * (s - e'.srtt) - 7 * (s - e.srtt)) <= 7
      && Abs(4 * e'.rttvar - (3 * e.rttvar + Abs(s - e.srtt))) <= 3
  {
  }

  function Power(x: real, n: nat): real
  {
    if n == 0 then 1.0 else x * Power(x, n - 1)
  }

  /** c multiplied by x, n times. */
  function Scaled(c: real, x: real, n: nat): real
  {
    c * Power(x, n)
  }

  lemma ScaledStep(c: real, x: real, n: nat)
    ensures Scaled(c, x, 0) == c
    ensures Scaled(c, x, n + 1) == Scaled(c * x, x, n)
  {
    Assoc(c, x, Power(x, n));
  }

  function Repeated(e: Rtt, s: int, n: nat): Rtt
  {
    if n == 0 then e else Sample(Repeated(e, s, n - 1), s)
  }

  lemma Assoc(a: real, b: real, c: real)
    ensures a * (b * c) == a * b * c
  {
  }

  lemma Product(a: real, b: real)
    requires a >= 0.0 && b >= 0.0
    ensures a * b >= 0.0
  {
  }

  lemma ConvergeStep(x: real, a: nat, b: nat)
    requires x >= 0.0 && a as real <= x + 7.0 && 8 * b <= 7 * a + 7
    ensures b as real <= 0.875 * x + 7.0
  {
    assert 8.0 * b as real == (8 * b) as real <= (7 * a + 7) as real == 7.0 * a as real + 7.0;
  }

  lemma CloserByAnEighth(e: Rtt, s: int)
    ensures 8 * Abs(s - Sample(e, s).srtt) <= 7 * Abs(s - e.srtt) + 7
  {
    if e.srtt != 0 {
      SampleMoves(e, s);
    }
  }

  lemma PowerStep(x: real, n: nat)
    ensures Power(x, 0) == 1.0
    ensures Power(x, n + 1) == x * Power(x, n)
  {
  }

  /** n equal samples bring the mean to within seven nanoseconds of (7/8)^n of its distance. */
  lemma {:induction false} EqualSamplesConverge(e: Rtt, s: int, n: nat)
    ensures Abs(s - Repeated(e, s, n).srtt) as real <= Power(0.875, n) * Abs(s - e.srtt) as real + 7.0
  {
    hide Sample, Power, Abs;
    var d := Abs(s - e.srtt) as real;
    if n == 0 {
      PowerStep(0.875, 0);
      assert 1.0 * d == d;
    } else {
      EqualSamplesConverge(e, s, n - 1);
      var before, p := Repeated(e, s, n - 1), Power(0.875, n - 1);
      PowerPositive(0.875, n - 1);
      PowerStep(0.875, n - 1);
      Product(p, d);
      CloserByAnEighth(before, s);
      Assoc(0.875, p, d);
      ConvergeStep(p * d, Abs(s - before.srtt), Abs(s - Repeated(e, s, n).srtt));
    }
  }

  lemma {:induction false} PowerPositive(x: real, n: nat)
    requires x > 0.0
    ensures Power(x, n) > 0.0
  {
    if n > 0 {
      PowerPositive(x, n - 1);
    }
  }

  // ---------- back-off ----------

  function TwoTo(n: nat): nat
  {
    if n == 0 then 1 else 2 * TwoTo(n - 1)
  }

  function Cap6(n: nat): nat {
    if n < 6 then n else 6
  }

  /** The loop that doubles a timeout once per back-off, six times at most. */
  method BackedOff(rto: int, backoff: nat) returns (r: int)
    ensures r == rto * TwoTo(Cap6(backoff))
  {
    r := rto;
    var i := 0;
    while i < backoff && i < 6
      invariant i <= Cap6(backoff) && r == rto * TwoTo(i)
    {
      r := r * 2;
      i := i + 1;
    }
  }

  // ---------- CCID 2 ----------

  datatype Window2 = Window2(
    cwnd: real, ssthresh: real, lossWindow: real, inFlight: nat, pipe: nat,
    est: Rtt, rto: int, backoff: nat, minRTT: int, maxRTT: int)

  const NEW2 := Window2(2.0, MAX_FLOAT64, 0.0, 0, 0, Rtt(0, 0), SECOND, 0, HOUR, 0)

  datatype Event2 = Sent2 | Lost2 | Acked2(rtt: int) | Reset2

  function Less(n: nat): nat {
    if n > 0 then n - 1 else 0
  }

  function Rto2(e: Rtt): int {
    Max(e.srtt + 4 * e.rttvar, 200 * MILLISECOND)
  }

  function Step2(w: Window2, e: Event2): Window2
    requires Safe2(w)
  {
    match e
    case Sent2 => w.(inFlight := w.inFlight + 1, pipe := w.pipe + 1)
    case Lost2 =>
      w.(ssthresh := MaxR(2.0, w.cwnd / 2.0), lossWindow := w.cwnd, cwnd := MaxR(1.0, w.cwnd / 2.0),
         backoff := w.backoff + 1, rto := w.rto * TwoTo(Cap6(w.backoff + 1)), pipe := Less(w.pipe))
    case Acked2(rtt) =>
      var est := Sample(w.est, rtt);
      w.(pipe := Less(w.pipe), est := est, rto := Rto2(est),
         minRTT := if rtt < w.minRTT then rtt else w.minRTT, maxRTT := Max(w.maxRTT, rtt),
         cwnd := if w.cwnd < w.ssthresh then w.cwnd + 1.0 else w.cwnd + 1.0 / w.cwnd)
    case Reset2 =>
      w.(cwnd := 2.0, ssthresh := MAX_FLOAT64, inFlight := 0, pipe := 0, backoff := 0, rto := SECOND)
  }

  class Ccid2CC {
    var cwnd: real
    var ssthresh: real
    var lossWindow: real
    var inFlight: nat
    var pipe: nat
    var srtt: int
    var rttvar: int
    var rto: int
    var backoff: nat
    var minRTT: int
    var maxRTT: int

    ghost function View(): Window2
      reads this
    {
      Window2(cwnd, ssthresh, lossWindow, inFlight, pipe, Rtt(srtt, rttvar), rto, backoff, minRTT, maxRTT)
    }

    ghost predicate Valid()
      reads this
    {
      Safe2(View())
    }

    constructor ()
      ensures Valid() && View() == NEW2
    {
      cwnd, ssthresh, lossWindow, inFlight, pipe := 2.0, MAX_FLOAT64, 0.0, 0, 0;
      srtt, rttvar, rto, backoff, minRTT, maxRTT := 0, 0, SECOND, 0, HOUR, 0;
    }

    method OnPacketSent()
      requires Valid()
      modifies this
      ensures Valid() && View() == Step2(old(View()), Sent2)
    {
      inFlight := inFlight + 1;
      pipe := pipe + 1;
    }

    method OnPacketLost()
      requires Valid()
      modifies this
      ensures Valid() && View() == Step2(old(View()), Lost2)
    {
      ssthresh := MaxR(2.0, cwnd / 2.0);
      lossWindow := cwnd;
      cwnd := MaxR(1.0, cwnd / 2.0);
      backoff := backoff + 1;
      rto := BackedOff(rto, backoff);
      if pipe > 0 {
        pipe := pipe - 1;
      }
    }

    method OnPacketAcked(rtt: int)
      requires Valid()
      modifies this
      ensures Valid() && View() == Step2(old(View()), Acked2(rtt))
    {
      hide Sample;
      StepSafe2(View(), Acked2(rtt));
      if pipe > 0 {
        pipe := pipe - 1;
      }
      if rtt < minRTT {
        minRTT := rtt;
      }
      if rtt > maxRTT {
        maxRTT := rtt;
      }
      srtt, rttvar := UpdateRtt(srtt, rttvar, rtt);
      rto := srtt + 4 * rttvar;
      if rto < 200 * MILLISECOND {
        rto := 200 * MILLISECOND;
      }
      if cwnd < ssthresh {
        cwnd := cwnd + 1.0;
      } else {
        cwnd := cwnd + 1.0 / cwnd;
      }
    }

    method OnRTO() returns (r: int)
      ensures r == rto * TwoTo(Cap6(backoff))
    {
      r := BackedOff(rto, backoff);
    }

    method CanSend() returns (ok: bool)
      ensures ok <==> pipe as real < cwnd
    {
      ok := pipe as real < cwnd;
    }

    method Reset()
      requires Valid()
      modifies this
      ensures Valid() && View() == Step2(old(View()), Reset2)
    {
      cwnd, ssthresh, inFlight, pipe, backoff, rto := 2.0, MAX_FLOAT64, 0, 0, 0, SECOND;
    }
  }

  predicate Safe2(w: Window2) {
    1.0 <= w.cwnd && 2.0 <= w.ssthresh
  }

  lemma StepSafe2(w: Window2, e: Event2)
    requires Safe2(w)
    ensures Safe2(Step2(w, e))
    ensures Step2(w, e).cwnd <= (if e.Acked2? then w.cwnd + 1.0 else MaxR(w.cwnd, 2.0))
  {
    if e.Acked2? && w.cwnd >= w.ssthresh {
      Reciprocal(w.cwnd);
    }
  }

  lemma Reciprocal(c: real)
    requires 1.0 <= c
    ensures 0.0 < 1.0 / c <= 1.0 && c * (1.0 / c) == 1.0
  {
  }

  function Run2(w: Window2, es: seq<Event2>): Window2
    requires Safe2(w)
    decreases es
  {
    if es == [] then w else (StepSafe2(w, es[0]); Run2(Step2(w, es[0]), es[1..]))
  }

  function AckCount(es: seq<Event2>): nat
  {
    if es == [] then 0 else (if es[0].Acked2? then 1 else 0) + AckCount(es[1..])
  }

  /** On every run the window is at least one packet, its threshold at least two, and it has
      grown by at most one packet per acknowledgement. */
  lemma {:induction false} WindowSafe2(w: Window2, es: seq<Event2>)
    requires Safe2(w)
    ensures Safe2(Run2(w, es))
    ensures Run2(w, es).cwnd <= MaxR(w.cwnd, 2.0) + AckCount(es) as real
    decreases es
  {
    if es != [] {
      hide Step2, Safe2;
      StepSafe2(w, es[0]);
      WindowSafe2(Step2(w, es[0]), es[1..]);
    }
  }

  /** From a new control: between 1 and 2 + the number of acknowledgements. */
  lemma NewWindowSafe2(es: seq<Event2>)
    ensures Safe2(NEW2) && Safe2(Run2(NEW2, es))
    ensures Run2(NEW2, es).cwnd <= 2.0 + AckCount(es) as real
  {
    WindowSafe2(NEW2, es);
  }

  function Acks(samples: seq<int>): seq<Event2>
  {
    seq(|samples|, i requires 0 <= i < |samples| => Acked2(samples[i]))
  }

  lemma SquareStep(c: real)
    requires 1.0 <= c
    ensures var d := c + 1.0 / c;
      c * c + 2.0 <= d * d <= c * c + 3.0 && c <= d
  {
    Reciprocal(c);
    var r := 1.0 / c;
    assert (c + r) * (c + r) == c * c + 2.0 * (c * r) + r * r;
    assert 0.0 <= r * r <= 1.0;
  }

  lemma AvoidanceStep(w: Window2, rtt: int)
    requires Safe2(w) && w.ssthresh <= w.cwnd
    ensures var w' := Step2(w, Acked2(rtt));
      && Safe2(w') && w'.ssthresh == w.ssthresh <= w'.cwnd
      && w.cwnd * w.cwnd + 2.0 <= w'.cwnd * w'.cwnd <= w.cwnd * w.cwnd + 3.0
  {
    SquareStep(w.cwnd);
  }

  /** Congestion avoidance grows like a square root: n acknowledgements without loss add
      between 2n and 3n to the square of the window. */
  lemma {:induction false} SquareRootLaw(w: Window2, samples: seq<int>)
    requires Safe2(w) && w.ssthresh <= w.cwnd
    ensures var w' := Run2(w, Acks(samples)); var n := |samples| as real;
      && w.cwnd * w.cwnd + 2.0 * n <= w'.cwnd * w'.cwnd <= w.cwnd * w.cwnd + 3.0 * n
      && w'.ssthresh == w.ssthresh
    decreases |samples|
  {
    hide Step2, Safe2;
    if samples != [] {
      AvoidanceStep(w, samples[0]);
      assert Acks(samples)[1..] == Acks(samples[1..]);
      SquareRootLaw(Step2(w, Acked2(samples[0])), samples[1..]);
    }
  }

  // ---------- what losses and acknowledgements do to the window ----------

  lemma {:induction false} RunSnoc2(w: Window2, es: seq<Event2>, e: Event2)
    requires Safe2(w)
    ensures Safe2(Run2(w, es))
    ensures Run2(w, es + [e]) == Step2(Run2(w, es), e)
    decreases es
  {
    hide Step2, Safe2;
    WindowSafe2(w, es);
    StepSafe2(w, e);
    if es == [] {
      assert [] + [e] == [e] && [e][1..] == [];
    } else {
      assert (es + [e])[0] == es[0] && (es + [e])[1..] == es[1..] + [e];
      StepSafe2(w, es[0]);
      RunSnoc2(Step2(w, es[0]), es[1..], e);
    }
  }

  /** On every run a loss halves a window of at least two packets and leaves a smaller one at one
      packet; the threshold becomes half the old window too, but at least two, and the old window
      is kept. */
  lemma LossHalves(es: seq<Event2>)
    ensures Safe2(Run2(NEW2, es)) && Safe2(Run2(NEW2, es + [Lost2]))
    ensures var before, after := Run2(NEW2, es), Run2(NEW2, es + [Lost2]);
      && (before.cwnd >= 2.0 ==> 2.0 * after.cwnd == before.cwnd)
      && (before.cwnd < 2.0 ==> after.cwnd == 1.0)
      && (before.cwnd >= 4.0 ==> 2.0 * after.ssthresh == before.cwnd)
      && (before.cwnd < 4.0 ==> after.ssthresh == 2.0)
      && after.lossWindow == before.cwnd
  {
    hide Run2;
    RunSnoc2(NEW2, es, Lost2);
  }

  /** After Reset the window is two packets and the timeout one second again, with nothing in
      flight and no back-off; the estimate and the extremes stay as they were. */
  lemma ResetRestarts2(es: seq<Event2>)
    ensures Safe2(Run2(NEW2, es)) && Safe2(Run2(NEW2, es + [Reset2]))
    ensures var before, after := Run2(NEW2, es), Run2(NEW2, es + [Reset2]);
      && after.cwnd == 2.0 && after.rto == 1_000_000_000 && after.ssthresh == NEW2.ssthresh
      && after.pipe == after.inFlight == after.backoff == 0
      && after.est == before.est && after.minRTT == before.minRTT && after.maxRTT == before.maxRTT
  {
    hide Run2;
    RunSnoc2(NEW2, es, Reset2);
  }

  /** k losses in a row divide a large enough window by two to the k. */
  lemma {:induction false} LossesDivide(w: Window2, k: nat)
    requires Safe2(w) && Power(2.0, k) <= w.cwnd
    ensures Run2(w, Losses(k)).cwnd * Power(2.0, k) == w.cwnd
    decreases k
  {
    if k > 0 {
      var w1 := Step2(w, Lost2);
      StepSafe2(w, Lost2);
      PowerAtLeastOne(k - 1);
      assert 2.0 * w1.cwnd == w.cwnd;
      assert Losses(k)[1..] == Losses(k - 1);
      hide Step2;
      LossesDivide(w1, k - 1);
      var c, p := Run2(w1, Losses(k - 1)).cwnd, Power(2.0, k - 1);
      assert c * (2.0 * p) == 2.0 * (c * p);
    }
  }

  lemma {:induction false} PowerAtLeastOne(n: nat)
    ensures Power(2.0, n) >= 1.0
  {
    if n > 0 {
      PowerAtLeastOne(n - 1);
    }
  }

  /** In slow start every acknowledgement adds one packet. */
  lemma {:induction false} SlowStartAddsOne(w: Window2, samples: seq<int>)
    requires Safe2(w) && (samples == [] || w.cwnd + |samples| as real - 1.0 < w.ssthresh)
    ensures Run2(w, Acks(samples)).cwnd == w.cwnd + |samples| as real
    decreases |samples|
  {
    if samples != [] {
      var w1 := Step2(w, Acked2(samples[0]));
      StepSafe2(w, Acked2(samples[0]));
      assert w1.cwnd == w.cwnd + 1.0 && w1.ssthresh == w.ssthresh;
      assert Acks(samples)[1..] == Acks(samples[1..]);
      hide Step2;
      SlowStartAddsOne(w1, samples[1..]);
    }
  }

  /** A sender that hears only about packets it has outstanding; Reset gives those up. */
  datatype Sender2 = Sender2(w: Window2, outstanding: set<nat>, sends: nat)

  datatype Packet2 = Send(seqno: nat) | Lose(seqno: nat) | Ack(seqno: nat, rtt: int) | Restart

  function StepPacket(s: Sender2, p: Packet2): Sender2
    requires Safe2(s.w)
  {
    match p
    case Send(q) =>
      if q !in s.outstanding then Sender2(Step2(s.w, Sent2), s.outstanding + {q}, s.sends + 1) else s
    case Lose(q) => if q in s.outstanding then s.(w := Step2(s.w, Lost2), outstanding := s.outstanding - {q}) else s
    case Ack(q, rtt) => if q in s.outstanding then s.(w := Step2(s.w, Acked2(rtt)), outstanding := s.outstanding - {q}) else s
    case Restart => Sender2(Step2(s.w, Reset2), {}, 0)
  }

  ghost predicate PipeExact(s: Sender2)
  {
    Safe2(s.w) && s.w.pipe == |s.outstanding| && s.w.inFlight == s.sends
  }

  lemma StepPipe(s: Sender2, p: Packet2)
    requires PipeExact(s)
    ensures PipeExact(StepPacket(s, p))
  {
    hide Step2, Safe2;
    match p
    case Send(q) => StepCounts2(s.w, Sent2); With(s.outstanding, q);
    case Lose(q) => StepCounts2(s.w, Lost2); Without(s.outstanding, q);
    case Ack(q, rtt) => StepCounts2(s.w, Acked2(rtt)); Without(s.outstanding, q);
    case Restart => StepCounts2(s.w, Reset2);
  }

  lemma StepCounts2(w: Window2, e: Event2)
    requires Safe2(w)
    ensures Safe2(Step2(w, e))
    ensures Step2(w, e).pipe == match e
      case Sent2 => w.pipe + 1
      case Reset2 => 0
      case _ => if w.pipe > 0 then w.pipe - 1 else 0
    ensures Step2(w, e).inFlight == match e
      case Sent2 => w.inFlight + 1
      case Reset2 => 0
      case _ => w.inFlight
  {
    hide Sample;
    StepSafe2(w, e);
  }

  lemma With(a: set<nat>, q: nat)
    ensures q !in a ==> |a + {q}| == |a| + 1
  {
  }

  lemma Without(a: set<nat>, q: nat)
    ensures q in a ==> |a| > 0 && |a - {q}| == |a| - 1
  {
  }

  function RunPackets(s: Sender2, ps: seq<Packet2>): Sender2
    requires PipeExact(s)
    decreases ps
  {
    if ps == [] then s else (StepPipe(s, ps[0]); RunPackets(StepPacket(s, ps[0]), ps[1..]))
  }

  lemma {:induction false} RunKeepsPipe(s: Sender2, ps: seq<Packet2>)
    requires PipeExact(s)
    ensures PipeExact(RunPackets(s, ps))
    decreases ps
  {
    if ps != [] {
      hide StepPacket, PipeExact;
      StepPipe(s, ps[0]);
      RunKeepsPipe(StepPacket(s, ps[0]), ps[1..]);
    }
  }

  /** On every run the pipe is the number of packets out, and inFlight that of packets sent. */
  lemma PipeIsOutstanding(ps: seq<Packet2>)
    ensures PipeExact(Sender2(NEW2, {}, 0))
    ensures var s := RunPackets(Sender2(NEW2, {}, 0), ps);
      s.w.pipe == |s.outstanding| && s.w.inFlight == s.sends
  {
    RunKeepsPipe(Sender2(NEW2, {}, 0), ps);
  }

  // ---------- estimate and timeout over runs ----------

  function SamplesIn(es: seq<Event2>): seq<int>
  {
    if es == [] then [] else (if es[0].Acked2? then [es[0].rtt] else []) + SamplesIn(es[1..])
  }

  lemma SamplesSnoc(samples: seq<int>, rtt: int)
    ensures Samples(samples + [rtt]) == Sample(Samples(samples), rtt)
  {
    assert (samples + [rtt])[..|samples|] == samples;
  }

  lemma StepEstimate(w: Window2, e: Event2)
    requires Safe2(w)
    ensures Safe2(Step2(w, e))
    ensures Step2(w, e).est == if e.Acked2? then Sample(w.est, e.rtt) else w.est
  {
    StepSafe2(w, e);
  }

  /** The estimate depends on the acknowledged samples alone; not even Reset clears it. */
  lemma {:induction false} EstimateFollowsSamples(w: Window2, es: seq<Event2>, before: seq<int>)
    requires Safe2(w) && w.est == Samples(before)
    ensures Run2(w, es).est == Samples(before + SamplesIn(es))
    decreases es
  {
    hide Sample, Samples, Step2, Safe2;
    if es == [] {
      assert before + [] == before;
    } else {
      var more := if es[0].Acked2? then [es[0].rtt] else [];
      StepEstimate(w, es[0]);
      if es[0].Acked2? {
        SamplesSnoc(before, es[0].rtt);
      } else {
        assert before + more == before;
      }
      EstimateFollowsSamples(Step2(w, es[0]), es[1..], before + more);
      assert before + more + SamplesIn(es[1..]) == before + SamplesIn(es);
    }
  }

  /** On every run the timeout an acknowledgement sets is bounded by the samples so far. */
  lemma TimeoutBounds2(es: seq<Event2>, rtt: int, lo: int, hi: int)
    requires Within(SamplesIn(es) + [rtt], lo, hi)
    ensures Safe2(Run2(NEW2, es))
    ensures var rto := Step2(Run2(NEW2, es), Acked2(rtt)).rto;
      && 200 * MILLISECOND <= rto <= Max(200 * MILLISECOND, hi + 4 * VarBound(lo, hi))
      && (0 <= lo ==> rto <= Max(200 * MILLISECOND, 5 * hi))
  {
    hide Run2, Samples, Sample, SamplesIn;
    WindowSafe2(NEW2, es);
    assert NEW2.est == Samples([]) by { NoSamples(); }
    EstimateFollowsSamples(NEW2, es, []);
    assert [] + SamplesIn(es) == SamplesIn(es);
    SamplesSnoc(SamplesIn(es), rtt);
    EstimatorBounds(SamplesIn(es) + [rtt], lo, hi);
    assert lo <= (SamplesIn(es) + [rtt])[|SamplesIn(es)|] <= hi;
  }

  /** The timeout an acknowledgement sets is the larger of 200 ms and the mean plus four times the
      deviation of the samples so far. */
  lemma AckSetsTimeout2(es: seq<Event2>, rtt: int)
    ensures Safe2(Run2(NEW2, es))
    ensures var rto, e := Step2(Run2(NEW2, es), Acked2(rtt)).rto, Samples(SamplesIn(es) + [rtt]);
      && rto >= 200 * MILLISECOND && rto >= e.srtt + 4 * e.rttvar
      && (rto == 200 * MILLISECOND || rto == e.srtt + 4 * e.rttvar)
  {
    hide Run2, Samples, Sample, SamplesIn;
    WindowSafe2(NEW2, es);
    assert NEW2.est == Samples([]) by { NoSamples(); }
    EstimateFollowsSamples(NEW2, es, []);
    assert [] + SamplesIn(es) == SamplesIn(es);
    SamplesSnoc(SamplesIn(es), rtt);
  }

  /** The smallest sample and an hour at most; the largest and zero at least. */
  ghost predicate Extremes(lo: int, hi: int, samples: seq<int>)
  {
    && (forall i | 0 <= i < |samples| :: lo <= samples[i] <= hi)
    && lo <= HOUR && (lo == HOUR || lo in samples)
    && 0 <= hi && (hi == 0 || hi in samples)
  }

  lemma {:induction false} ExtremesFollow2(w: Window2, es: seq<Event2>, before: seq<int>)
    requires Safe2(w) && Extremes(w.minRTT, w.maxRTT, before)
    ensures Extremes(Run2(w, es).minRTT, Run2(w, es).maxRTT, before + SamplesIn(es))
    decreases es
  {
    hide Step2, Safe2, Extremes;
    if es == [] {
      assert before + [] == before;
    } else {
      var e, more := es[0], if es[0].Acked2? then [es[0].rtt] else [];
      StepSafe2(w, e);
      StepExtremes2(w, e, before);
      ExtremesFollow2(Step2(w, e), es[1..], before + more);
      assert before + more + SamplesIn(es[1..]) == before + SamplesIn(es);
    }
  }

  lemma StepExtremes2(w: Window2, e: Event2, before: seq<int>)
    requires Safe2(w) && Extremes(w.minRTT, w.maxRTT, before)
    ensures var w', more := Step2(w, e), if e.Acked2? then [e.rtt] else [];
      Extremes(w'.minRTT, w'.maxRTT, before + more)
  {
    hide Sample;
    if !e.Acked2? {
      assert before + [] == before;
    }
  }

  /** On every run of a new control the recorded extremes are those of the samples. */
  lemma ExtremesOfSamples2(es: seq<Event2>)
    ensures Extremes(Run2(NEW2, es).minRTT, Run2(NEW2, es).maxRTT, SamplesIn(es))
  {
    hide Run2, SamplesIn;
    ExtremesFollow2(NEW2, es, []);
    assert [] + SamplesIn(es) == SamplesIn(es);
  }

  lemma NoSamples()
    ensures Samples([]) == Rtt(0, 0)
  {
  }

  /** How often k losses in a row double the timeout: 1 + 2 + ... + 6 + 6 + 6 ... */
  function Doublings(backoff: nat, k: nat): nat
    decreases k
  {
    if k == 0 then 0 else Cap6(backoff + 1) + Doublings(backoff + 1, k - 1)
  }

  lemma {:induction false} TwoToSum(m: nat, n: nat)
    ensures TwoTo(m + n) == TwoTo(m) * TwoTo(n)
  {
    if m > 0 {
      TwoToSum(m - 1, n);
      Regroup(2, TwoTo(m - 1), TwoTo(n));
    }
  }

  lemma NoDoubling()
    ensures TwoTo(0) == 1
  {
  }

  lemma Regroup(x: int, y: int, z: int)
    ensures x * y * z == x * (y * z)
  {
  }

  function Losses(k: nat): seq<Event2>
  {
    seq(k, i => Lost2)
  }

  /** Losses back off faster than doubling: each one re-applies every earlier doubling. */
  lemma {:induction false} LossesBackOff(w: Window2, k: nat)
    requires Safe2(w)
    ensures Run2(w, Losses(k)).rto == w.rto * TwoTo(Doublings(w.backoff, k))
    decreases k
  {
    hide TwoTo;
    if k == 0 {
      NoDoubling();
    } else {
      var w1 := Step2(w, Lost2);
      StepSafe2(w, Lost2);
      var a, b := Cap6(w.backoff + 1), Doublings(w.backoff + 1, k - 1);
      assert w1.rto == w.rto * TwoTo(a) && w1.backoff == w.backoff + 1;
      assert Losses(k)[1..] == Losses(k - 1);
      hide Step2;
      LossesBackOff(w1, k - 1);
      TwoToSum(a, b);
      Regroup(w.rto, TwoTo(a), TwoTo(b));
    }
  }

  const MAX_INT64: int := 0x7FFF_FFFF_FFFF_FFFF

  lemma {:induction false} TwoToGrows(m: nat, n: nat)
    requires m <= n
    ensures TwoTo(m) <= TwoTo(n)
  {
    if m < n {
      TwoToGrows(m, n - 1);
    }
  }

  lemma {:induction false} DoublingsGrow(backoff: nat, k: nat, l: nat)
    requires k <= l
    ensures Doublings(backoff, k) <= Doublings(backoff, l)
    decreases k
  {
    if k > 0 {
      DoublingsGrow(backoff + 1, k - 1, l - 1);
    }
  }

  lemma EightAndNineLosses()
    ensures Doublings(0, 8) == 33 && Doublings(0, 9) == 39
    ensures TwoTo(33) == 0x2_0000_0000 && TwoTo(39) == 0x80_0000_0000
  {
    assert Doublings(5, 3) == 18 && Doublings(5, 4) == 24;
    assert Doublings(3, 5) == 27 && Doublings(3, 6) == 33;
    assert TwoTo(8) == 0x100;
    TwoToSum(8, 8);
    TwoToSum(16, 16);
    TwoToSum(32, 1);
    TwoToSum(32, 7);
    assert TwoTo(1) == 2 && TwoTo(7) == 0x80;
  }

  /** From a new control the timeout is a 64-bit duration exactly up to eight losses in a row. */
  lemma NinthLossOverflows(k: nat)
    ensures Run2(NEW2, Losses(k)).rto <= MAX_INT64 <==> k <= 8
  {
    hide TwoTo, Doublings, Run2;
    LossesBackOff(NEW2, k);
    EightAndNineLosses();
    if k <= 8 {
      DoublingsGrow(0, k, 8);
      TwoToGrows(Doublings(0, k), 33);
    } else {
      DoublingsGrow(0, 9, k);
      TwoToGrows(39, Doublings(0, k));
    }
  }

  function LossCount(es: seq<Event2>): nat
  {
    if es == [] then 0 else (if es[0].Lost2? then 1 else 0) + LossCount(es[1..])
  }

  /** Until Reset the back-off counts every loss there has been: no acknowledgement lowers it. */
  lemma {:induction false} BackoffCountsLosses(w: Window2, es: seq<Event2>)
    requires Safe2(w) && forall i | 0 <= i < |es| :: !es[i].Reset2?
    ensures Run2(w, es).backoff == w.backoff + LossCount(es)
    decreases es
  {
    hide Sample, Safe2;
    if es != [] {
      StepSafe2(w, es[0]);
      BackoffCountsLosses(Step2(w, es[0]), es[1..]);
    }
  }

  // ---------- CCID 4 ----------

  datatype Window4 = Window4(
    cwnd: real, ssthresh: real, inFlight: int, maxInFlight: int, est: Rtt, rto: int, backoff: nat,
    minRTT: int, maxRTT: int)

  const NEW4 := Window4(10.0, MAX_FLOAT64, 0, 10, Rtt(0, 0), SECOND, 0, HOUR, 0)

  function Sent4(w: Window4): Window4 {
    w.(inFlight := w.inFlight + 1)
  }

  function Lost4(w: Window4): Window4
  {
    var cwnd := MaxR(2.0, w.cwnd * 0.7);
    w.(cwnd := cwnd, maxInFlight := cwnd.Floor, backoff := w.backoff + 1, inFlight := w.inFlight - 1)
  }

  function Acked4(w: Window4, rtt: int): Window4
  {
    var est := Sample(w.est, rtt);
    var grown := if w.cwnd < w.ssthresh then w.cwnd * 1.5 else w.cwnd + 0.5;
    var cwnd := if grown > 1000.0 then 1000.0 else grown;
    w.(inFlight := Max(w.inFlight - 1, 0), est := est, cwnd := cwnd, maxInFlight := cwnd.Floor,
       minRTT := if rtt < w.minRTT then rtt else w.minRTT, maxRTT := Max(w.maxRTT, rtt),
       rto := Quotient(est.srtt, 2) + 4 * est.rttvar, backoff := 0)
  }

  function Fresh4(w: Window4): Window4 {
    w.(cwnd := 10.0, ssthresh := MAX_FLOAT64, inFlight := 0, maxInFlight := 10, backoff := 0, rto := SECOND)
  }

  class Ccid4CC {
    var cwnd: real
    var ssthresh: real
    var inFlight: int
    var maxInFlight: int
    var rtt: int
    var rttVar: int
    var rto: int
    var backoff: nat
    var minRTT: int
    var maxRTT: int

    ghost function View(): Window4
      reads this
    {
      Window4(cwnd, ssthresh, inFlight, maxInFlight, Rtt(rtt, rttVar), rto, backoff, minRTT, maxRTT)
    }

    constructor ()
      ensures View() == NEW4
    {
      cwnd, ssthresh, inFlight, maxInFlight := 10.0, MAX_FLOAT64, 0, 10;
      rtt, rttVar, rto, backoff, minRTT, maxRTT := 0, 0, SECOND, 0, HOUR, 0;
    }

    method OnPacketSent()
      modifies this`inFlight
      ensures View() == Sent4(old(View()))
    {
      inFlight := inFlight + 1;
    }

    method OnPacketLost()
      modifies this
      ensures View() == Lost4(old(View()))
    {
      cwnd := MaxR(2.0, cwnd * 0.7);
      maxInFlight := cwnd.Floor;
      backoff := backoff + 1;
      inFlight := inFlight - 1;
    }

    method OnPacketAcked(sample: int)
      requires 0.0 <= cwnd
      modifies this
      ensures View() == Acked4(old(View()), sample)
    {
      hide Sample;
      inFlight := inFlight - 1;
      if inFlight < 0 {
        inFlight := 0;
      }
      if sample < minRTT {
        minRTT := sample;
      }
      if sample > maxRTT {
        maxRTT := sample;
      }
      rtt, rttVar := UpdateRtt(rtt, rttVar, sample);
      if cwnd < ssthresh {
        cwnd := cwnd * 1.5;
      } else {
        cwnd := cwnd + 0.5;
      }
      if cwnd > 1000.0 {
        cwnd := 1000.0;
      }
      maxInFlight := cwnd.Floor;
      rto := Quotient(rtt, 2) + 4 * rttVar;
      backoff := 0;
    }

    method OnRTO() returns (r: int)
      ensures r == rto * TwoTo(Cap6(backoff))
    {
      r := BackedOff(rto, backoff);
    }

    method CanSend() returns (ok: bool)
      ensures ok <==> inFlight < maxInFlight
    {
      ok := inFlight < maxInFlight;
    }

    method Reset()
      modifies this
      ensures View() == Fresh4(old(View()))
    {
      cwnd, ssthresh, inFlight, maxInFlight, backoff, rto := 10.0, MAX_FLOAT64, 0, 10, 0, SECOND;
    }
  }

  /** A sender that asks before it sends, and hears only about packets it has outstanding; when
      the control is reset it gives those up. */
  datatype Sender4 = Sender4(w: Window4, outstanding: set<nat>)

  datatype Event4 = Send4(seqno: nat) | Loss4(seqno: nat) | Ack4(seqno: nat, rtt: int) | Reset4

  function StepSender(s: Sender4, e: Event4): Sender4
  {
    match e
    case Send4(q) =>
      if s.w.inFlight < s.w.maxInFlight && q !in s.outstanding
      then Sender4(Sent4(s.w), s.outstanding + {q}) else s
    case Loss4(q) => if q in s.outstanding then Sender4(Lost4(s.w), s.outstanding - {q}) else s
    case Ack4(q, rtt) => if q in s.outstanding then Sender4(Acked4(s.w, rtt), s.outstanding - {q}) else s
    case Reset4 => Sender4(Fresh4(s.w), {})
  }

  function RunSender(s: Sender4, es: seq<Event4>): Sender4
    decreases es
  {
    if es == [] then s else RunSender(StepSender(s, es[0]), es[1..])
  }

  ghost predicate Disciplined(s: Sender4)
  {
    && s.w.inFlight == |s.outstanding| <= 1000
    && 2.0 <= s.w.cwnd <= 1000.0
    && s.w.maxInFlight == s.w.cwnd.Floor
  }

  lemma StepDisciplined(s: Sender4, e: Event4)
    requires Disciplined(s)
    ensures Disciplined(StepSender(s, e))
  {
    hide Sample;
    assert 2 <= s.w.maxInFlight <= 1000;
    if !e.Reset4? && e.seqno in s.outstanding {
      assert |s.outstanding - {e.seqno}| == |s.outstanding| - 1;
    }
  }

  lemma {:induction false} RunDisciplined(s: Sender4, es: seq<Event4>)
    requires Disciplined(s)
    ensures Disciplined(RunSender(s, es))
    decreases es
  {
    if es != [] {
      hide StepSender, Disciplined;
      StepDisciplined(s, es[0]);
      RunDisciplined(StepSender(s, es[0]), es[1..]);
    }
  }

  /** On every such run the in-flight count is exact, the limit is the whole part of a window
      between 2 and 1000, and no more than 1000 packets are ever outstanding. */
  lemma WindowDiscipline4(es: seq<Event4>)
    ensures Disciplined(RunSender(Sender4(NEW4, {}), es))
  {
    RunDisciplined(Sender4(NEW4, {}), es);
  }

  /** The sample that event e brings, if it acknowledges an outstanding packet. */
  function SampleBy(s: Sender4, e: Event4): seq<int>
  {
    if e.Ack4? && e.seqno in s.outstanding then [e.rtt] else []
  }

  function SamplesTaken(s: Sender4, es: seq<Event4>): seq<int>
    decreases es
  {
    if es == [] then [] else SampleBy(s, es[0]) + SamplesTaken(StepSender(s, es[0]), es[1..])
  }

  function Rto4(e: Rtt): int {
    Quotient(e.srtt, 2) + 4 * e.rttvar
  }

  /** The estimate is that of the samples taken, and the timeout is one second or follows it. */
  ghost predicate Follows4(w: Window4, taken: seq<int>)
  {
    w.est == Samples(taken) && (w.rto == SECOND || (taken != [] && w.rto == Rto4(w.est)))
  }

  lemma StepFollows4(s: Sender4, e: Event4, taken: seq<int>)
    requires Follows4(s.w, taken)
    ensures Follows4(StepSender(s, e).w, taken + SampleBy(s, e))
  {
    hide Samples, Sample;
    if SampleBy(s, e) == [] {
      assert taken + [] == taken;
    } else {
      SamplesSnoc(taken, e.rtt);
    }
  }

  /** On every run, resets included, estimate and timeout depend on the samples taken alone. */
  lemma {:induction false} EstimateFollowsSamples4(s: Sender4, es: seq<Event4>, before: seq<int>)
    requires Follows4(s.w, before)
    ensures Follows4(RunSender(s, es).w, before + SamplesTaken(s, es))
    decreases es
  {
    hide StepSender, SampleBy, Follows4;
    if es == [] {
      assert before + [] == before;
    } else {
      StepFollows4(s, es[0], before);
      EstimateFollowsSamples4(StepSender(s, es[0]), es[1..], before + SampleBy(s, es[0]));
      assert before + SampleBy(s, es[0]) + SamplesTaken(StepSender(s, es[0]), es[1..])
          == before + SamplesTaken(s, es);
    }
  }

  /** On every run of a new control the timeout is the first second or bounded by the samples
      taken so far, whatever came after the last of them. */
  lemma TimeoutBounds4(es: seq<Event4>, lo: int, hi: int)
    requires Within(SamplesTaken(Sender4(NEW4, {}), es), lo, hi)
    ensures var rto := RunSender(Sender4(NEW4, {}), es).w.rto;
      rto == SECOND || (rto <= Quotient(hi, 2) + 4 * VarBound(lo, hi) && (0 <= lo ==> 0 <= rto))
  {
    hide RunSender, SamplesTaken, Samples;
    var start := Sender4(NEW4, {});
    var taken := SamplesTaken(start, es);
    assert NEW4.est == Samples([]) by { NoSamples(); }
    EstimateFollowsSamples4(start, es, []);
    assert [] + taken == taken;
    if taken != [] {
      EstimatorBounds(taken, lo, hi);
    }
  }

  /** And on every run the timeout an acknowledgement sets is bounded by the samples so far. */
  lemma AckBoundsTimeout4(es: seq<Event4>, seqno: nat, rtt: int, lo: int, hi: int)
    requires seqno in RunSender(Sender4(NEW4, {}), es).outstanding
    requires Within(SamplesTaken(Sender4(NEW4, {}), es) + [rtt], lo, hi)
    ensures var rto := StepSender(RunSender(Sender4(NEW4, {}), es), Ack4(seqno, rtt)).w.rto;
      rto <= Quotient(hi, 2) + 4 * VarBound(lo, hi) && (0 <= lo ==> 0 <= rto)
  {
    hide RunSender, SamplesTaken, Samples, Sample;
    var start := Sender4(NEW4, {});
    var taken := SamplesTaken(start, es);
    assert NEW4.est == Samples([]) by { NoSamples(); }
    EstimateFollowsSamples4(start, es, []);
    assert [] + taken == taken;
    SamplesSnoc(taken, rtt);
    EstimatorBounds(taken + [rtt], lo, hi);
  }

  // ---------- how the CCID 4 window moves ----------

  function Acks4(w: Window4, samples: seq<int>): Window4
    decreases samples
  {
    if samples == [] then w else Acks4(Acked4(w, samples[0]), samples[1..])
  }

  function Losses4(w: Window4, k: nat): Window4
    decreases k
  {
    if k == 0 then w else Losses4(Lost4(w), k - 1)
  }

  function Capped(x: real): real
  {
    if x > 1000.0 then 1000.0 else x
  }

  lemma SameFactor(a: real, b: real, p: real)
    requires a == b
    ensures a * p == b * p
  {
  }

  lemma CapAfter(x: real, n: nat)
    requires x > 0.0
    ensures Capped(Scaled(Capped(x), 1.5, n)) == Capped(Scaled(x, 1.5, n))
  {
    var p := Power(1.5, n);
    PowerGrows(n);
    var a, b := Scaled(Capped(x), 1.5, n), Scaled(x, 1.5, n);
    if x > 1000.0 {
      Larger(1000.0, p);
      Larger(x, p);
      SameFactor(Capped(x), 1000.0, p);
      assert a >= 1000.0 && b > 1000.0;
    } else {
      SameFactor(Capped(x), x, p);
      assert a == b;
    }
  }

  /** Below the threshold n acknowledgements multiply the window by 1.5 each, up to 1000. */
  lemma {:induction false} GrowthLaw4(w: Window4, samples: seq<int>)
    requires 0.0 < w.cwnd <= 1000.0 < w.ssthresh
    ensures Acks4(w, samples).cwnd == Capped(Scaled(w.cwnd, 1.5, |samples|))
    decreases |samples|
  {
    hide Sample, Capped, Acked4, Scaled;
    if samples == [] {
      ScaledStep(w.cwnd, 1.5, 0);
      SmallStays(w.cwnd);
    } else {
      var n := |samples| - 1;
      FirstGrowth(w, samples[0]);
      GrowthLaw4(Acked4(w, samples[0]), samples[1..]);
      CapAfter(w.cwnd * 1.5, n);
      ScaledStep(w.cwnd, 1.5, n);
    }
  }

  lemma SmallStays(x: real)
    requires x <= 1000.0
    ensures Capped(x) == x
  {
  }

  lemma FirstGrowth(w: Window4, rtt: int)
    requires 0.0 < w.cwnd <= 1000.0 < w.ssthresh
    ensures var w1 := Acked4(w, rtt);
      w1.ssthresh == w.ssthresh && w1.cwnd == Capped(w.cwnd * 1.5) && 0.0 < w1.cwnd <= 1000.0
  {
    hide Sample;
  }

  lemma {:induction false} PowerGrows(n: nat)
    ensures Power(1.5, n) >= 1.0
  {
    if n > 0 {
      PowerGrows(n - 1);
    }
  }

  lemma Larger(x: real, p: real)
    requires x > 0.0 && p >= 1.0
    ensures x * p >= x
  {
  }

  /** From the threshold on each adds half a packet, up to 1000. */
  lemma {:induction false} LinearLaw4(w: Window4, samples: seq<int>)
    requires w.ssthresh <= w.cwnd <= 1000.0
    ensures Acks4(w, samples).cwnd == Capped(w.cwnd + 0.5 * |samples| as real)
    decreases |samples|
  {
    if samples != [] {
      hide Sample;
      var w1 := Acked4(w, samples[0]);
      assert w1.ssthresh == w.ssthresh && w1.cwnd == Capped(w.cwnd + 0.5);
      hide Acked4;
      LinearLaw4(w1, samples[1..]);
    }
  }

  lemma FloorAfter(x: real, n: nat)
    requires x > 0.0
    ensures MaxR(2.0, Scaled(MaxR(2.0, x), 0.7, n)) == MaxR(2.0, Scaled(x, 0.7, n))
  {
    var p := Power(0.7, n);
    PowerPositive(0.7, n);
    PowerShrinks(n);
    var a, b := Scaled(MaxR(2.0, x), 0.7, n), Scaled(x, 0.7, n);
    if x < 2.0 {
      Smaller(2.0, p);
      Smaller(x, p);
      SameFactor(MaxR(2.0, x), 2.0, p);
      assert a <= 2.0 && b <= 2.0;
    } else {
      SameFactor(MaxR(2.0, x), x, p);
      assert a == b;
    }
  }

  /** k losses multiply the window by 0.7 each, down to two packets. */
  lemma {:induction false} LossLaw4(w: Window4, k: nat)
    requires w.cwnd >= 2.0
    ensures Losses4(w, k).cwnd == MaxR(2.0, Scaled(w.cwnd, 0.7, k))
    decreases k
  {
    hide MaxR, Lost4, Scaled;
    if k == 0 {
      ScaledStep(w.cwnd, 0.7, 0);
      LargeStays(w.cwnd);
    } else {
      FirstLoss(w);
      LossLaw4(Lost4(w), k - 1);
      FloorAfter(w.cwnd * 0.7, k - 1);
      ScaledStep(w.cwnd, 0.7, k - 1);
    }
  }

  lemma LargeStays(x: real)
    requires x >= 2.0
    ensures MaxR(2.0, x) == x
  {
  }

  lemma FirstLoss(w: Window4)
    ensures Lost4(w).cwnd == MaxR(2.0, w.cwnd * 0.7) >= 2.0
  {
  }

  lemma {:induction false} PowerShrinks(n: nat)
    ensures Power(0.7, n) <= 1.0
  {
    if n > 0 {
      PowerPositive(0.7, n - 1);
      PowerShrinks(n - 1);
    }
  }

  lemma Smaller(x: real, p: real)
    requires x > 0.0 && 0.0 < p <= 1.0
    ensures x * p <= x
  {
  }

  lemma {:induction false} ThresholdStays4(s: Sender4, es: seq<Event4>)
    requires s.w.ssthresh == MAX_FLOAT64
    ensures RunSender(s, es).w.ssthresh == MAX_FLOAT64
    decreases es
  {
    if es != [] {
      hide Sample;
      ThresholdStays4(StepSender(s, es[0]), es[1..]);
    }
  }

  /** Nothing lowers the threshold of a new control, so on every run an acknowledgement multiplies
      the window by 1.5 and the linear step is never taken. */
  lemma AlwaysMultiplies4(es: seq<Event4>, seqno: nat, rtt: int)
    requires seqno in RunSender(Sender4(NEW4, {}), es).outstanding
    ensures var s := RunSender(Sender4(NEW4, {}), es);
      StepSender(s, Ack4(seqno, rtt)).w.cwnd == Capped(1.5 * s.w.cwnd)
  {
    hide RunSender, Sample;
    var start := Sender4(NEW4, {});
    ThresholdStays4(start, es);
    WindowDiscipline4(es);
  }

  // ---------- back-off and reset ----------

  /** Losses of outstanding packets since the last acknowledgement of one, or reset. */
  function Unanswered(s: Sender4, es: seq<Event4>, n: nat): nat
    decreases es
  {
    if es == [] then n
    else
      Unanswered(StepSender(s, es[0]), es[1..],
        match es[0]
        case Send4(q) => n
        case Loss4(q) => if q in s.outstanding then n + 1 else n
        case Ack4(q, rtt) => if q in s.outstanding then 0 else n
        case Reset4 => 0)
  }

  lemma {:induction false} BackoffFollows4(s: Sender4, es: seq<Event4>)
    ensures RunSender(s, es).w.backoff == Unanswered(s, es, s.w.backoff)
    decreases es
  {
    if es != [] {
      hide Sample;
      BackoffFollows4(StepSender(s, es[0]), es[1..]);
    }
  }

  /** After Reset the window is ten packets and the timeout one second again, with nothing in
      flight and no back-off; the estimate and the extremes stay as they were. */
  lemma ResetRestarts4(es: seq<Event4>)
    ensures var s := RunSender(Sender4(NEW4, {}), es); var w := StepSender(s, Reset4).w;
      && w.cwnd == 10.0 && w.maxInFlight == 10 && w.rto == 1_000_000_000
      && w.ssthresh == NEW4.ssthresh && w.inFlight == 0 && w.backoff == 0
      && w.est == s.w.est && w.minRTT == s.w.minRTT && w.maxRTT == s.w.maxRTT
  {
    hide RunSender;
    ThresholdStays4(Sender4(NEW4, {}), es);
  }

  // ---------- what else an acknowledgement records ----------

  /** Half the mean plus four times the deviation. */
  lemma AckSetsTimeout4(es: seq<Event4>, seqno: nat, rtt: int)
    requires seqno in RunSender(Sender4(NEW4, {}), es).outstanding
    ensures var start := Sender4(NEW4, {});
      var e := Samples(SamplesTaken(start, es) + [rtt]);
      var w := StepSender(RunSender(start, es), Ack4(seqno, rtt)).w;
      w.rto == Quotient(e.srtt, 2) + 4 * e.rttvar && w.backoff == 0
  {
    hide RunSender, SamplesTaken, Samples, Sample;
    var start := Sender4(NEW4, {});
    assert NEW4.est == Samples([]) by { NoSamples(); }
    EstimateFollowsSamples4(start, es, []);
    assert [] + SamplesTaken(start, es) == SamplesTaken(start, es);
    SamplesSnoc(SamplesTaken(start, es), rtt);
  }

  lemma StepExtremes4(s: Sender4, e: Event4, before: seq<int>)
    requires Extremes(s.w.minRTT, s.w.maxRTT, before)
    ensures var w := StepSender(s, e).w; Extremes(w.minRTT, w.maxRTT, before + SampleBy(s, e))
  {
    hide Sample;
    if SampleBy(s, e) == [] {
      assert before + [] == before;
    }
  }

  lemma {:induction false} ExtremesFollow4(s: Sender4, es: seq<Event4>, before: seq<int>)
    requires Extremes(s.w.minRTT, s.w.maxRTT, before)
    ensures Extremes(RunSender(s, es).w.minRTT, RunSender(s, es).w.maxRTT, before + SamplesTaken(s, es))
    decreases es
  {
    hide StepSender, SampleBy, Extremes;
    if es == [] {
      assert before + [] == before;
    } else {
      StepExtremes4(s, es[0], before);
      ExtremesFollow4(StepSender(s, es[0]), es[1..], before + SampleBy(s, es[0]));
      assert before + SampleBy(s, es[0]) + SamplesTaken(StepSender(s, es[0]), es[1..])
          == before + SamplesTaken(s, es);
    }
  }

  lemma ExtremesOfSamples4(es: seq<Event4>)
    ensures var start := Sender4(NEW4, {}); var w := RunSender(start, es).w;
      Extremes(w.minRTT, w.maxRTT, SamplesTaken(start, es))
  {
    hide RunSender, SamplesTaken;
    var start := Sender4(NEW4, {});
    ExtremesFollow4(start, es, []);
    assert [] + SamplesTaken(start, es) == SamplesTaken(start, es);
  }
}
