/** The mKCP state of app/transport/mkcp.go: segmentation, sequence numbers, the reused encode
    buffer, and the receiving side that takes the segments apart again. */
module Kcp {
  import opened Bytes

  const OVERHEAD: nat := 24
  const MTU: nat := 1350
  const MSS: nat := MTU - OVERHEAD
  const INTERVAL: nat := 100
  const DEADLINK: nat := 20
  const PROBE_INIT: nat := 7000
  const CMD_PUSH: Byte := 81
  const CMD_WINS: Byte := 84
  const WND_RCV: U16 := 128

  datatype Segment = Segment(
    conv: U32, cmd: Byte, frgl: Byte, wnd: U16, ts: U32, sn: U32, una: U32, len: U32,
    data: seq<Byte>, xmit: nat)

  const BLANK := Segment(0, 0, 0, 0, 0, 0, 0, 0, [], 0)

  // ---------- segments and their bytes ----------

  function SegHeader(s: Segment): (b: seq<Byte>)
    ensures |b| == OVERHEAD
  {
    Le32(s.conv) + [s.cmd, s.frgl] + Le16(s.wnd) + Le32(s.ts) + Le32(s.sn) + Le32(s.una) + Le32(s.len)
  }

  function Encode(s: Segment): (b: seq<Byte>)
    ensures |b| == OVERHEAD + |s.data|
  {
    SegHeader(s) + s.data
  }

  function EncodeAll(segs: seq<Segment>): seq<Byte>
  {
    if segs == [] then [] else Encode(segs[0]) + EncodeAll(segs[1..])
  }

  /** The data of segments in order. */
  function Data(segs: seq<Segment>): seq<Byte>
  {
    if segs == [] then [] else Data(segs[..|segs| - 1]) + segs[|segs| - 1].data
  }

  lemma DataSnoc(segs: seq<Segment>, s: Segment)
    ensures Data(segs + [s]) == Data(segs) + s.data
  {
    assert (segs + [s])[..|segs|] == segs;
  }

  lemma {:induction false} DataConcat(a: seq<Segment>, b: seq<Segment>)
    ensures Data(a + b) == Data(a) + Data(b)
  {
    if b == [] {
      assert a + b == a;
    } else {
      var c := b[..|b| - 1];
      DataConcat(a, c);
      assert (a + b)[..|a + b| - 1] == a + c && (a + b)[|a + b| - 1] == b[|b| - 1];
      assert (Data(a) + Data(c)) + b[|b| - 1].data == Data(a) + (Data(c) + b[|b| - 1].data);
    }
  }

  lemma {:induction false} SameData(a: seq<Segment>, b: seq<Segment>)
    requires |a| == |b| && forall i | 0 <= i < |a| :: a[i].data == b[i].data
    ensures Data(a) == Data(b)
  {
    if a != [] {
      SameData(a[..|a| - 1], b[..|b| - 1]);
    }
  }

  // ---------- the receiver's parser ----------

  function DecodeHeader(b: seq<Byte>, off: nat): Segment
    requires off + OVERHEAD <= |b|
  {
    Segment(GetLe32(b, off), b[off + 4], b[off + 5], GetLe16(b, off + 6), GetLe32(b, off + 8),
            GetLe32(b, off + 12), GetLe32(b, off + 16), GetLe32(b, off + 20), [], 0)
  }

  /** Segments from off on in the first n bytes of b; the data of the last one may run on into
      the rest of the array, and beyond it is a slice out of range. */
  datatype Parsed = Parsed(segs: seq<Segment>, panic: bool)

  function Parse(b: seq<Byte>, n: nat, off: nat): Parsed
    requires n <= |b|
    decreases n - off
  {
    if off + OVERHEAD > n then Parsed([], false)
    else
      var s := DecodeHeader(b, off);
      var end := off + OVERHEAD + s.len;
      if end > |b| then Parsed([], true)
      else
        var rest := Parse(b, n, end);
        Parsed([s.(data := b[off + OVERHEAD..end])] + rest.segs, rest.panic)
  }

  lemma ParseStep(b: seq<Byte>, n: nat, off: nat)
    requires n <= |b|
    ensures var p := Parse(b, n, off);
      if off + OVERHEAD > n then p == Parsed([], false)
      else
        var s := DecodeHeader(b, off);
        var end := off + OVERHEAD + s.len;
        if end > |b| then p == Parsed([], true)
        else
          && p.segs != [] && p.segs[0] == s.(data := b[off + OVERHEAD..end])
          && Parsed(p.segs[1..], p.panic) == Parse(b, n, end)
  {
    hide DecodeHeader;
  }

  /** Only PUSH segments are kept and only WINS segments move the window, the last one last. */
  lemma {:induction false} PushAndWindow(segs: seq<Segment>, s: Segment, wnd: U16)
    ensures Pushes(segs + [s]) == Pushes(segs) + if s.cmd == 81 then [s] else []
    ensures Window(segs + [s], wnd) == if s.cmd == 84 then s.wnd else Window(segs, wnd)
    ensures Pushes([]) == [] && Window([], wnd) == wnd
  {
    if segs == [] {
      assert [] + [s] == [s] && [s][1..] == [];
      assert Pushes([s]) == (if s.cmd == CMD_PUSH then [s] else []) + [];
    } else {
      assert (segs + [s])[0] == segs[0] && (segs + [s])[1..] == segs[1..] + [s];
      PushAndWindow(segs[1..], s, if segs[0].cmd == CMD_WINS then segs[0].wnd else wnd);
    }
  }

  function Pushes(segs: seq<Segment>): seq<Segment>
  {
    if segs == [] then [] else (if segs[0].cmd == CMD_PUSH then [segs[0]] else []) + Pushes(segs[1..])
  }

  /** The window the last WINS segment announces. */
  function Window(segs: seq<Segment>, wnd: U16): U16
  {
    if segs == [] then wnd else Window(segs[1..], if segs[0].cmd == CMD_WINS then segs[0].wnd else wnd)
  }

  ghost predicate Sized(segs: seq<Segment>)
  {
    forall i | 0 <= i < |segs| :: segs[i].len == |segs[i].data|
  }

  function Fresh(s: Segment): Segment {
    s.(xmit := 0)
  }

  lemma Le16RoundTripAt(b: seq<Byte>, i: nat, n: U16)
    requires i + 2 <= |b| && b[i..i + 2] == Le16(n)
    ensures GetLe16(b, i) == n
  {
    Le16RoundTrip(b, i, n);
  }

  lemma Le32RoundTripAt(b: seq<Byte>, i: nat, n: U32)
    requires i + 4 <= |b| && b[i..i + 4] == Le32(n)
    ensures GetLe32(b, i) == n
  {
    Le32RoundTrip(b, i, n);
  }

  /** The header, byte by byte, least significant bytes first. */
  lemma HeaderBytes(s: Segment)
    ensures var h := SegHeader(s);
      && Number(Reversed(h[0..4])) == s.conv && h[4] == s.cmd && h[5] == s.frgl
      && Number(Reversed(h[6..8])) == s.wnd && Number(Reversed(h[8..12])) == s.ts
      && Number(Reversed(h[12..16])) == s.sn && Number(Reversed(h[16..20])) == s.una
      && Number(Reversed(h[20..24])) == s.len
  {
    hide Le16, Le32, Number, Reversed;
    var h := SegHeader(s);
    assert h[0..4] == Le32(s.conv) && h[6..8] == Le16(s.wnd) && h[8..12] == Le32(s.ts);
    assert h[12..16] == Le32(s.sn) && h[16..20] == Le32(s.una) && h[20..24] == Le32(s.len);
    Le32Spells(s.conv);
    Le16Spells(s.wnd);
    Le32Spells(s.ts);
    Le32Spells(s.sn);
    Le32Spells(s.una);
    Le32Spells(s.len);
  }

  lemma HeaderRoundTrip(b: seq<Byte>, off: nat, s: Segment)
    requires off + OVERHEAD <= |b| && b[off..off + OVERHEAD] == SegHeader(s)
    ensures DecodeHeader(b, off) == s.(data := [], xmit := 0)
  {
    hide Le16, Le32, GetLe16, GetLe32;
    var h := SegHeader(s);
    assert forall i | 0 <= i < OVERHEAD :: b[off + i] == h[i];
    assert b[off..off + 4] == h[0..4] == Le32(s.conv);
    assert b[off + 6..off + 8] == h[6..8] == Le16(s.wnd);
    assert b[off + 8..off + 12] == h[8..12] == Le32(s.ts);
    assert b[off + 12..off + 16] == h[12..16] == Le32(s.sn);
    assert b[off + 16..off + 20] == h[16..20] == Le32(s.una);
    assert b[off + 20..off + 24] == h[20..24] == Le32(s.len);
    Le32RoundTripAt(b, off, s.conv);
    Le16RoundTripAt(b, off + 6, s.wnd);
    Le32RoundTripAt(b, off + 8, s.ts);
    Le32RoundTripAt(b, off + 12, s.sn);
    Le32RoundTripAt(b, off + 16, s.una);
    Le32RoundTripAt(b, off + 20, s.len);
  }

  function AllFresh(segs: seq<Segment>): (r: seq<Segment>)
    ensures |r| == |segs| && forall i | 0 <= i < |segs| :: r[i] == Fresh(segs[i])
  {
    if segs == [] then [] else [Fresh(segs[0])] + AllFresh(segs[1..])
  }

  /** A sized segment that stands in the buffer is parsed from where it stands. */
  lemma ParseAt(b: seq<Byte>, n: nat, off: nat, s: Segment)
    requires n <= |b| && off + OVERHEAD <= n && s.len == |s.data|
    requires var end := off + OVERHEAD + |s.data|; end <= |b| && b[off..end] == Encode(s)
    ensures Parse(b, n, off) ==
      (var rest := Parse(b, n, off + OVERHEAD + |s.data|); Parsed([Fresh(s)] + rest.segs, rest.panic))
  {
    hide SegHeader, DecodeHeader, Parse;
    var e := b[off..off + OVERHEAD + |s.data|];
    assert b[off..off + OVERHEAD] == e[..OVERHEAD] == SegHeader(s);
    assert b[off + OVERHEAD..off + OVERHEAD + |s.data|] == e[OVERHEAD..] == s.data;
    HeaderRoundTrip(b, off, s);
    ParseStep(b, n, off);
  }

  lemma FrontOf(b: seq<Byte>, off: nat, front: seq<Byte>, rest: seq<Byte>)
    requires off <= |b| && b[off..] == front + rest
    ensures off + |front| <= |b|
    ensures b[off..off + |front|] == front && b[off + |front|..] == rest
  {
    assert b[off..off + |front|] == b[off..][..|front|];
    assert b[off + |front|..] == b[off..][|front|..];
  }

  /** Sized segments are parsed one after another, and then what follows them. */
  lemma {:induction false} ParseThrough(b: seq<Byte>, off: nat, segs: seq<Segment>, tail: seq<Byte>)
    requires off <= |b| && b[off..] == EncodeAll(segs) + tail && Sized(segs)
    ensures |tail| <= |b|
    ensures var rest := Parse(b, |b|, |b| - |tail|);
      Parse(b, |b|, off) == Parsed(AllFresh(segs) + rest.segs, rest.panic)
    decreases segs
  {
    hide Parse, Encode;
    if segs == [] {
      assert EncodeAll(segs) + tail == tail;
      var rest := Parse(b, |b|, |b| - |tail|);
      assert b[off..] == tail && AllFresh(segs) + rest.segs == rest.segs;
    } else {
      var s := segs[0];
      var end := off + OVERHEAD + |s.data|;
      assert (Encode(s) + EncodeAll(segs[1..])) + tail == Encode(s) + (EncodeAll(segs[1..]) + tail);
      FrontOf(b, off, Encode(s), EncodeAll(segs[1..]) + tail);
      ParseAt(b, |b|, off, s);
      ParseThrough(b, end, segs[1..], tail);
      var rest := Parse(b, |b|, |b| - |tail|);
      assert [Fresh(s)] + (AllFresh(segs[1..]) + rest.segs) == AllFresh(segs) + rest.segs;
    }
  }

  /** Parsing the bytes of any sized segments gives them back. */
  lemma ParseEncoded(b: seq<Byte>, off: nat, segs: seq<Segment>)
    requires off <= |b| && b[off..] == EncodeAll(segs) && Sized(segs)
    ensures Parse(b, |b|, off) == Parsed(AllFresh(segs), false)
  {
    hide Parse, EncodeAll;
    assert EncodeAll(segs) + [] == EncodeAll(segs);
    ParseThrough(b, off, segs, []);
    ParseStep(b, |b|, |b|);
    assert AllFresh(segs) + [] == AllFresh(segs);
  }

  /** Less than a header behind them is left alone; a header whose data is cut off is a panic. */
  lemma ParseCutOff(segs: seq<Segment>, s: Segment, part: seq<Byte>)
    requires Sized(segs)
    ensures |part| < OVERHEAD ==> var b := EncodeAll(segs) + part; Parse(b, |b|, 0) == Parsed(AllFresh(segs), false)
    ensures |part| < s.len ==> var b := EncodeAll(segs) + (SegHeader(s) + part); Parse(b, |b|, 0) == Parsed(AllFresh(segs), true)
  {
    hide Parse, EncodeAll, SegHeader;
    assert AllFresh(segs) + [] == AllFresh(segs);
    if |part| < OVERHEAD {
      var b := EncodeAll(segs) + part;
      assert b[0..] == b;
      ParseThrough(b, 0, segs, part);
      ParseStep(b, |b|, |b| - |part|);
    }
    if |part| < s.len {
      var tail := SegHeader(s) + part;
      var b := EncodeAll(segs) + tail;
      var off := |b| - |tail|;
      assert b[0..] == b;
      assert b[off..off + OVERHEAD] == SegHeader(s);
      HeaderRoundTrip(b, off, s);
      ParseThrough(b, 0, segs, tail);
      ParseStep(b, |b|, off);
    }
  }

  lemma {:induction false} AllPushed(segs: seq<Segment>)
    requires forall i | 0 <= i < |segs| :: segs[i].cmd == CMD_PUSH
    ensures Pushes(AllFresh(segs)) == AllFresh(segs)
  {
    if segs != [] {
      AllPushed(segs[1..]);
      assert AllFresh(segs)[1..] == AllFresh(segs[1..]);
    }
  }

  /** The encodings of any PUSH segments, laid back to back, carry their data in order. */
  lemma EncodingsCarryData(segs: seq<Segment>)
    requires Sized(segs) && forall i | 0 <= i < |segs| :: segs[i].cmd == CMD_PUSH
    ensures var all := EncodeAll(segs); var p := Parse(all, |all|, 0);
      !p.panic && Data(Pushes(p.segs)) == Data(segs)
  {
    hide Parse, Data, Pushes;
    var all := EncodeAll(segs);
    assert all[0..] == all;
    ParseEncoded(all, 0, segs);
    AllPushed(segs);
    SameData(AllFresh(segs), segs);
  }

  // ---------- what a flush leaves in the one encode buffer ----------

  /** A segment encoded at the front of buffer b; the bytes behind it are those left before. */
  function Stamp(b: seq<Byte>, s: Segment): (r: seq<Byte>)
    requires OVERHEAD + |s.data| <= |b|
    ensures |r| == |b|
  {
    Encode(s) + b[OVERHEAD + |s.data|..]
  }

  ghost predicate Fit(segs: seq<Segment>, size: nat)
  {
    forall i | 0 <= i < |segs| :: OVERHEAD + |segs[i].data| <= size
  }

  /** Each segment in turn, at the same place. */
  function Stamped(b: seq<Byte>, segs: seq<Segment>): (r: seq<Byte>)
    requires Fit(segs, |b|)
    ensures |r| == |b|
  {
    if segs == [] then b else Stamp(Stamped(b, segs[..|segs| - 1]), segs[|segs| - 1])
  }

  /** Some first part of the buffer, received, would give exactly these segments. */
  ghost predicate Carries(b: seq<Byte>, segs: seq<Segment>)
  {
    exists k: nat | k <= |b| :: Parse(b, k, 0) == Parsed(AllFresh(segs), false)
  }

  /** Segments of one sender, numbered from base on. */
  ghost predicate Numbered(segs: seq<Segment>, base: nat)
  {
    forall i | 0 <= i < |segs| :: segs[i].sn == Wrap32(base + i)
  }

  lemma {:induction false} ParsedFit(b: seq<Byte>, n: nat, off: nat)
    requires off <= n <= |b|
    ensures OVERHEAD * |Parse(b, n, off).segs| <= n - off
    decreases n - off
  {
    hide DecodeHeader;
    if off + OVERHEAD <= n {
      var end := off + OVERHEAD + DecodeHeader(b, off).len;
      if end <= n {
        ParsedFit(b, n, end);
      }
    }
  }

  /** The last segment is what stands in the buffer, whole. */
  lemma LastIsLeft(b: seq<Byte>, segs: seq<Segment>)
    requires Fit(segs, |b|) && segs != []
    ensures var s := segs[|segs| - 1]; Stamped(b, segs)[..OVERHEAD + |s.data|] == Encode(s)
  {
    hide Encode;
  }

  /** Whatever first part of the buffer is parsed, the last segment comes first. */
  lemma LastIsParsed(b: seq<Byte>, segs: seq<Segment>, k: nat)
    requires Fit(segs, |b|) && segs != [] && Sized(segs) && k <= |b|
    ensures var s := segs[|segs| - 1]; var p := Parse(Stamped(b, segs), k, 0);
      if k < OVERHEAD then p.segs == []
      else p.segs != [] && p.segs[0] == Fresh(s) && (k == OVERHEAD + |s.data| ==> p == Parsed([Fresh(s)], false))
  {
    hide Parse, Stamped, Encode;
    var s, left := segs[|segs| - 1], Stamped(b, segs);
    var end := OVERHEAD + |s.data|;
    LastIsLeft(b, segs);
    ParseStep(left, k, 0);
    if OVERHEAD <= k {
      ParseAt(left, k, 0, s);
      ParseStep(left, k, end);
    }
  }

  lemma LastIsNotFirst(b: seq<Byte>, segs: seq<Segment>, base: nat, k: nat)
    requires |b| == MTU && Fit(segs, |b|) && Sized(segs) && Numbered(segs, base)
    requires k <= |b| && 2 <= |segs|
    ensures Parse(Stamped(b, segs), k, 0).segs != AllFresh(segs)
  {
    hide Parse, Stamped, Wrap32;
    LastIsParsed(b, segs, k);
    ParsedFit(Stamped(b, segs), k, 0);
    var n := |segs|;
    if Parse(Stamped(b, segs), k, 0).segs == AllFresh(segs) {
      assert segs[0].sn == Wrap32(base) && segs[n - 1].sn == Wrap32(base + (n - 1));
      NumbersDiffer(base, n - 1);
      assert false;
    }
  }

  lemma NumbersDiffer(m: nat, d: nat)
    requires 0 < d < 0x1_0000_0000
    ensures Wrap32(m) != Wrap32(m + d)
  {
  }

  /** Every segment of a flush is encoded over the one before: the buffer is left with all of
      them exactly when there was at most one. */
  lemma FlushKeepsOnlyTheLast(b: seq<Byte>, segs: seq<Segment>, base: nat)
    requires |b| == MTU && Fit(segs, |b|) && Sized(segs) && Numbered(segs, base)
    ensures Carries(Stamped(b, segs), segs) <==> |segs| <= 1
  {
    hide Parse, Stamped;
    if segs == [] {
      ParseNone(Stamped(b, segs));
    } else if |segs| == 1 {
      LastIsParsed(b, segs, OVERHEAD + |segs[0].data|);
      assert AllFresh(segs) == [Fresh(segs[0])];
    } else {
      forall k: nat | k <= |b| ensures Parse(Stamped(b, segs), k, 0).segs != AllFresh(segs) {
        LastIsNotFirst(b, segs, base, k);
      }
    }
  }

  lemma ParseNone(b: seq<Byte>)
    ensures Parse(b, 0, 0) == Parsed([], false) && Carries(b, [])
  {
    assert AllFresh([]) == [];
  }

  /** One byte each in two segments: of what was flushed, the first byte is gone. */
  lemma SecondOverwritesFirst(b: seq<Byte>)
    requires |b| == MTU
    ensures var first := BLANK.(cmd := CMD_PUSH, len := 1, data := [1]);
      var second := first.(sn := 1, data := [2]);
      var left := Stamped(b, [first, second]);
      !Carries(left, [first, second]) && Parse(left, 25, 0) == Parsed([second], false)
  {
    hide Parse, Stamped, Encode;
    var first := BLANK.(cmd := CMD_PUSH, len := 1, data := [1]);
    var second := first.(sn := 1, data := [2]);
    var segs := [first, second];
    FlushKeepsOnlyTheLast(b, segs, 0);
    LastIsLeft(b, segs);
    ParseAt(Stamped(b, segs), 25, 0, second);
    ParseStep(Stamped(b, segs), 25, 25);
  }

  // ---------- the timer ----------

  /** The flush mark, once there is one. */
  datatype Timer = Off | Mark(at: int)

  /** An update at time now moves the mark: to now at the start and after a jump of ten seconds,
      and at a flush so that what is left of the interval counts for the next one. */
  function Tick(t: Timer, now: int): Timer
  {
    match t
    case Off => Mark(now)
    case Mark(at) =>
      var slap := now - at;
      if slap >= 10000 || slap < -10000 then Mark(now)
      else if slap >= INTERVAL then Mark(now - (INTERVAL - slap % INTERVAL))
      else t
  }

  predicate Flushes(t: Timer, now: int)
  {
    t.Mark? && INTERVAL <= now - t.at < 10000
  }

  function Ticks(t: Timer, times: seq<int>): Timer
    decreases times
  {
    if times == [] then t else Ticks(Tick(t, times[0]), times[1..])
  }

  lemma {:induction false} QuietTicks(at: int, times: seq<int>)
    requires forall i | 0 <= i < |times| :: at - 10000 <= times[i] < at + INTERVAL
    ensures Ticks(Mark(at), times) == Mark(at)
  {
    if times != [] {
      QuietTicks(at, times[1..]);
    }
  }

  /** After a flush at time now that came (now - at) % 100 ms late, and whatever earlier updates, the
      next flush is due exactly that much later again, not a whole interval; it is overdue, and
      the mark is set anew, 9.9 seconds after that. */
  lemma NextFlushDue(at: int, now: int, quiet: seq<int>, next: int)
    requires Flushes(Mark(at), now)
    requires forall i | 0 <= i < |quiet| :: now - 9000 <= quiet[i] < now + (now - at) % 100
    ensures var t := Ticks(Tick(Mark(at), now), quiet); var due := now + (now - at) % 100;
      && (Flushes(t, next) <==> due <= next < due + 9900)
      && (next >= due + 9900 ==> Tick(t, next) == Mark(next))
  {
    QuietTicks(now - (INTERVAL - (now - at) % INTERVAL), quiet);
  }

  /** From the start: the first update sets the mark, the first flush is due 100 ms later. */
  lemma FirstFlushDue(start: int, quiet: seq<int>, next: int)
    requires forall i | 0 <= i < |quiet| :: start - 10000 <= quiet[i] < start + 100
    ensures !Flushes(Off, start)
    ensures Flushes(Ticks(Tick(Off, start), quiet), next) <==> start + 100 <= next < start + 10000
  {
    QuietTicks(start, quiet);
  }

  datatype Input = Accepted | TooShort | Panicked

  class KCPState {
    const conv: U32
    const buf: array<Byte>
    var state: int
    var sndNxt: U32
    var rcvNxt: U32
    var rcvWnd: U16
    var rmtWnd: U16
    var probe: nat
    var current: U32
    var tsFlush: int
    var updated: bool
    var tsProbe: nat
    var probeWait: nat
    var sndBuf: seq<Segment>
    var sndQueue: seq<Segment>
    var rcvBuf: seq<Segment>
    var rcvQueue: seq<Segment>
    var acklist: seq<(U32, U32)>

    /** Everything passed to Send. */
    ghost var sent: seq<Byte>

    static predicate Queued(s: Segment) {
      s.xmit == 0 && s.frgl == 0 && 0 < |s.data| <= MSS && s.len == |s.data|
    }

    /** Segment number i of this sender. */
    static predicate Pushed(conv: U32, s: Segment, i: nat) {
      && s.conv == conv && s.cmd == CMD_PUSH && s.frgl == 0 && s.sn == Wrap32(i)
      && 0 < |s.data| <= MSS && s.len == |s.data|
    }

    /** It carries this moment's time, window and next expected number. */
    ghost predicate Current(s: Segment)
      reads this`current, this`rmtWnd, this`rcvNxt
    {
      s.ts == current && s.wnd == rmtWnd && s.una == rcvNxt
    }

    /** It has been encoded, once. */
    static predicate Encoded(conv: U32, s: Segment, i: nat) {
      s.xmit == 1 && Pushed(conv, s, i)
    }

    ghost function Clock(): Timer
      reads this`updated, this`tsFlush
    {
      if updated then Mark(tsFlush) else Off
    }

    /** No probe is ever raised and no acknowledgement ever queued. */
    ghost predicate Quiet()
      reads this
    {
      probe == 0 && acklist == [] && (probeWait == 0 || probeWait == PROBE_INIT) && state == 0
    }

    ghost predicate Valid()
      reads this
    {
      && buf.Length == MTU && Quiet()
      && Data(sndBuf) + Data(sndQueue) == sent
      && sndNxt == Wrap32(|sndBuf|)
      && (forall i | 0 <= i < |sndBuf| :: Encoded(conv, sndBuf[i], i))
      && (forall i | 0 <= i < |sndQueue| :: Queued(sndQueue[i]))
    }

    constructor (conv: U32)
      ensures Valid() && sent == [] && this.conv == conv && rcvQueue == [] && fresh(buf)
    {
      this.conv := conv;
      buf := new Byte[MTU];
      state, sndNxt, rcvNxt, rcvWnd, rmtWnd, probe, current := 0, 0, 0, WND_RCV, WND_RCV, 0, 0;
      tsFlush, updated, tsProbe, probeWait := 0, false, 0, 0;
      sndBuf, sndQueue, rcvBuf, rcvQueue, acklist := [], [], [], [], [];
      sent := [];
    }

    /** Cuts the buffer into segments of at most MSS bytes and queues them. */
    method Send(buffer: seq<Byte>) returns (n: nat)
      requires Valid()
      modifies this`sndQueue, this`sent
      ensures Valid() && n == |buffer| && sent == old(sent) + buffer
      ensures |sndQueue| == |old(sndQueue)| + (|buffer| + MSS - 1) / MSS
    {
      hide Data, Encode, Encoded;
      var count := (|buffer| + MSS - 1) / MSS;
      var i := 0;
      ghost var cut := 0;
      assert buffer[..0] == [] && sent + [] == sent;
      while i < count
        invariant i <= count && cut <= |buffer| && cut == (if i < count then i * MSS else |buffer|)
        invariant sent == old(sent) && |sndQueue| == |old(sndQueue)| + i
        invariant forall j | 0 <= j < |sndQueue| :: Queued(sndQueue[j])
        invariant Data(sndBuf) + Data(sndQueue) == sent + buffer[..cut]
      {
        var start := i * MSS;
        var end := start + MSS;
        if end > |buffer| {
          end := |buffer|;
        }
        var seg := BLANK.(data := buffer[start..end], len := end - start);
        DataSnoc(sndQueue, seg);
        Joined(Data(sndBuf), Data(sndQueue), sent, buffer, start, end);
        sndQueue := sndQueue + [seg];
        cut := end;
        i := i + 1;
      }
      assert buffer[..|buffer|] == buffer;
      sent := sent + buffer;
      n := |buffer|;
    }

    static lemma Joined(a: seq<Byte>, b: seq<Byte>, s: seq<Byte>, buffer: seq<Byte>, start: nat, end: nat)
      requires start <= end <= |buffer| && a + b == s + buffer[..start]
      ensures a + (b + buffer[start..end]) == s + buffer[..end]
    {
      assert buffer[..start] + buffer[start..end] == buffer[..end];
      assert a + (b + buffer[start..end]) == (a + b) + buffer[start..end];
    }

    method Update(now: U32)
      requires Valid()
      modifies this, buf
      ensures Valid() && sent == old(sent) && rcvQueue == old(rcvQueue) && rcvBuf == old(rcvBuf)
      ensures updated && current == now
      ensures old(sndBuf) <= sndBuf
      ensures Clock() == Tick(old(Clock()), now)
      ensures if Flushes(old(Clock()), now)
              then
                && sndQueue == []
                && (Carries(buf[..], sndBuf[|old(sndBuf)|..]) <==> |old(sndQueue)| <= 1)
              else sndQueue == old(sndQueue) && sndBuf == old(sndBuf) && buf[..] == old(buf[..])
    {
      hide Data, Encode, Wrap32, Encoded, Queued, Stamped, Carries;
      current := now;
      if !updated {
        updated := true;
        tsFlush := now;
      }
      var slap := now - tsFlush;
      if slap >= 10000 || slap < -10000 {
        tsFlush := now;
        slap := 0;
      }
      if slap < 0 {
        slap := 0;
      }
      if slap >= INTERVAL {
        tsFlush := now - (INTERVAL - slap % INTERVAL);
        Flush();
      }
    }

    /** The window probe timer: it is always set to a later time than now, so it never fires. */
    method CheckProbe()
      requires Quiet()
      modifies this`tsProbe, this`probeWait, this`probe
      ensures Quiet()
    {
      if rmtWnd == 0 {
        if probeWait == 0 {
          probeWait := PROBE_INIT;
        }
        tsProbe := current + probeWait;
      } else {
        probeWait := 0;
        tsProbe := 0;
      }
      if tsProbe != 0 && current >= tsProbe {
        // here the source would raise the probe flag and lengthen the wait
        assert false;
      }
    }

    /** Numbers the queued segments and moves them behind the ones already sent. */
    method Promote()
      requires Valid()
      modifies this`sndQueue, this`sndBuf, this`sndNxt
      ensures sndQueue == [] && old(sndBuf) <= sndBuf && |sndBuf| == |old(sndBuf)| + |old(sndQueue)|
      ensures sndNxt == Wrap32(|sndBuf|)
      ensures forall j | |old(sndBuf)| <= j < |sndBuf| :: sndBuf[j].xmit == 0 && Pushed(conv, sndBuf[j], j)
      ensures Data(sndBuf) == sent
    {
      hide Data, Encode, Wrap32, Encoded;
      ghost var base := |sndBuf|;
      NoData();
      assert sndQueue[..0] == [] && Data(sndBuf) + [] == Data(sndBuf);
      for i := 0 to |sndQueue|
        invariant sndQueue == old(sndQueue) && |sndBuf| == base + i && old(sndBuf) <= sndBuf
        invariant sndNxt == Wrap32(|sndBuf|)
        invariant forall j | base <= j < |sndBuf| :: sndBuf[j].xmit == 0 && Pushed(conv, sndBuf[j], j)
        invariant Data(sndBuf) == Data(old(sndBuf)) + Data(sndQueue[..i])
      {
        var seg := sndQueue[i].(conv := conv, sn := sndNxt, ts := current, cmd := CMD_PUSH, wnd := rcvWnd, una := rcvNxt);
        DataSnoc(sndBuf, seg);
        DataSnoc(sndQueue[..i], sndQueue[i]);
        assert sndQueue[..i + 1] == sndQueue[..i] + [sndQueue[i]];
        NextNumber(|sndBuf|);
        sndNxt := Wrap32(sndNxt as int + 1);
        sndBuf := sndBuf + [seg];
      }
      assert sndQueue[..|sndQueue|] == sndQueue;
      sndQueue := [];
    }

    static lemma NoData()
      ensures Data([]) == []
    {
    }

    static lemma NextNumber(n: nat)
      ensures Wrap32(Wrap32(n) + 1) == Wrap32(n + 1)
    {
      Wrap32Add(n, 1);
    }

    method Flush()
      requires Valid()
      modifies this`tsProbe, this`probeWait, this`probe, this`sndQueue, this`sndBuf, this`sndNxt, this`state, this`acklist, buf
      ensures Valid() && sndQueue == []
      ensures old(sndBuf) <= sndBuf && |sndBuf| == |old(sndBuf)| + |old(sndQueue)|
      ensures var flushed := sndBuf[|old(sndBuf)|..];
        && (forall i | 0 <= i < |flushed| :: Current(flushed[i]))
        && Fit(flushed, MTU) && buf[..] == Stamped(old(buf[..]), flushed)
        && (Carries(buf[..], flushed) <==> |old(sndQueue)| <= 1)
    {
      hide Data, Encode, Wrap32, Stamped, Carries;
      CheckProbe();
      Promote();
      Transmit(|old(sndBuf)|);
      FlushKeepsOnlyTheLast(old(buf[..]), sndBuf[|old(sndBuf)|..], |old(sndBuf)|);
      assert acklist == [] && probe == 0;
      acklist := [];
      probe := 0;
      NoData();
      assert sent + [] == sent;
    }

    /** Encodes every segment that has not been encoded yet, in order, each at the front of the
        one buffer. The source does not use the lengths; nothing hands the buffer on. */
    method Transmit(ghost base: nat)
      requires base <= |sndBuf| && buf.Length == MTU && state == 0
      requires forall j | 0 <= j < base :: Encoded(conv, sndBuf[j], j)
      requires forall j | base <= j < |sndBuf| :: sndBuf[j].xmit == 0 && Pushed(conv, sndBuf[j], j)
      modifies this`sndBuf, this`state, buf
      ensures |sndBuf| == |old(sndBuf)| && state == 0
      ensures old(sndBuf)[..base] <= sndBuf
      ensures forall j | 0 <= j < |sndBuf| :: Encoded(conv, sndBuf[j], j)
      ensures forall j | base <= j < |sndBuf| :: Current(sndBuf[j])
      ensures Data(sndBuf) == Data(old(sndBuf))
      ensures Fit(sndBuf[base..], MTU) && buf[..] == Stamped(old(buf[..]), sndBuf[base..])
    {
      hide Encode, Data, Stamp, Stamped, Wrap32, Fit;
      ghost var start := buf[..];
      NoStamp(start);
      assert sndBuf[base..base] == [];
      for i := 0 to |sndBuf|
        invariant |sndBuf| == |old(sndBuf)| && state == 0 && old(sndBuf)[..base] <= sndBuf
        invariant forall j | 0 <= j < |sndBuf| && (j < base || j < i) :: Encoded(conv, sndBuf[j], j)
        invariant forall j | base <= j < i :: Current(sndBuf[j])
        invariant forall j | 0 <= j < |sndBuf| && base <= j && i <= j :: sndBuf[j] == old(sndBuf)[j]
        invariant forall j | 0 <= j < |sndBuf| :: sndBuf[j].data == old(sndBuf)[j].data
        invariant Fit(sndBuf[base..if i < base then base else i], MTU)
        invariant buf[..] == Stamped(start, sndBuf[base..if i < base then base else i])
      {
        var seg := sndBuf[i];
        var needsend := seg.xmit == 0;
        if needsend {
          seg := seg.(xmit := 1, ts := current, wnd := rmtWnd, una := rcvNxt);
        }
        if seg.xmit >= DEADLINK {
          // here the source would declare the link dead
          assert false;
        }
        if needsend {
          seg := seg.(len := |seg.data|);
          ghost var earlier := sndBuf[base..i];
          sndBuf := sndBuf[i := seg];
          assert sndBuf[base..i] == earlier && sndBuf[base..i + 1] == earlier + [seg];
          StampedSnoc(start, earlier, seg);
          var n := EncodeSegment(buf, seg);
        }
      }
      SameData(sndBuf, old(sndBuf));
      assert sndBuf[base..|sndBuf|] == sndBuf[base..];
    }

    static lemma NoStamp(b: seq<Byte>)
      ensures Fit([], |b|) && Stamped(b, []) == b
    {
    }

    static lemma StampedSnoc(b: seq<Byte>, segs: seq<Segment>, s: Segment)
      requires Fit(segs, |b|) && OVERHEAD + |s.data| <= |b|
      ensures Fit(segs + [s], |b|)
      ensures Stamped(b, segs + [s]) == Stamp(Stamped(b, segs), s)
    {
      hide Stamp;
      assert (segs + [s])[..|segs|] == segs;
    }

    /** Writes the fields at a moving offset; data beyond the end of the buffer is cut off. */
    static method EncodeSegment(buf: array<Byte>, seg: Segment) returns (offset: nat)
      requires OVERHEAD <= buf.Length
      modifies buf
      ensures offset == OVERHEAD + |seg.data|
      ensures offset <= buf.Length ==> buf[..] == Stamp(old(buf[..]), seg)
    {
      hide SegHeader;
      ghost var was := buf[..];
      PutHeader(buf, seg);
      offset := OVERHEAD;
      if |seg.data| > 0 {
        PutBytes(buf, offset, Take(seg.data, buf.Length - offset));
        offset := offset + |seg.data|;
      }
      if offset <= buf.Length {
        assert buf[..offset] == Encode(seg);
        assert buf[offset..] == was[offset..];
        assert buf[..] == buf[..offset] + buf[offset..];
      }
    }

    static method PutHeader(buf: array<Byte>, seg: Segment)
      requires OVERHEAD <= buf.Length
      modifies buf
      ensures buf[..OVERHEAD] == SegHeader(seg)
      ensures forall j | OVERHEAD <= j < buf.Length :: buf[j] == old(buf[j])
    {
      hide Le16, Le32;
      PutBytes(buf, 0, Le32(seg.conv));
      PutBytes(buf, 4, [seg.cmd]);
      PutBytes(buf, 5, [seg.frgl]);
      PutBytes(buf, 6, Le16(seg.wnd));
      PutBytes(buf, 8, Le32(seg.ts));
      PutBytes(buf, 12, Le32(seg.sn));
      PutBytes(buf, 16, Le32(seg.una));
      PutBytes(buf, 20, Le32(seg.len));
      assert buf[..OVERHEAD] == SegHeader(seg);
    }

    static method PutBytes(buf: array<Byte>, at: nat, bytes: seq<Byte>)
      requires at + |bytes| <= buf.Length
      modifies buf
      ensures buf[..at + |bytes|] == old(buf[..at]) + bytes
      ensures forall j | at + |bytes| <= j < buf.Length :: buf[j] == old(buf[j])
    {
      forall i | 0 <= i < |bytes| {
        buf[at + i] := bytes[i];
      }
    }

    /** Takes the first n bytes of a read buffer apart. */
    method Input(data: array<Byte>, n: nat) returns (r: Input)
      requires n <= data.Length && data != buf
      modifies this`rcvBuf, this`rcvQueue, this`rmtWnd
      ensures r == TooShort <==> n < OVERHEAD
      ensures r == TooShort ==> rcvQueue == old(rcvQueue) && rcvBuf == old(rcvBuf) && rmtWnd == old(rmtWnd)
      ensures r != TooShort ==> var p := Parse(data[..], n, 0);
        && (r == Panicked <==> p.panic)
        && rcvQueue == old(rcvQueue) + Pushes(p.segs)
        && rcvBuf == old(rcvBuf) + Pushes(p.segs)
        && rmtWnd == Window(p.segs, old(rmtWnd))
    {
      hide DecodeHeader, Parse, Pushes, Window;
      if n < OVERHEAD {
        return TooShort;
      }
      ghost var all := Parse(data[..], n, 0);
      ghost var rest := all;
      var offset := 0;
      while offset + OVERHEAD <= n
        invariant rest == Parse(data[..], n, offset) && rest.panic == all.panic
        invariant rcvQueue + Pushes(rest.segs) == old(rcvQueue) + Pushes(all.segs)
        invariant rcvBuf + Pushes(rest.segs) == old(rcvBuf) + Pushes(all.segs)
        invariant Window(rest.segs, rmtWnd) == Window(all.segs, old(rmtWnd))
        decreases n - offset
      {
        ParseStep(data[..], n, offset);
        PushesStep(rest.segs, rmtWnd);
        var seg := DecodeHeader(data[..], offset);
        offset := offset + OVERHEAD;
        if offset + seg.len > data.Length {
          assert rcvQueue + [] == rcvQueue && rcvBuf + [] == rcvBuf;
          return Panicked;
        }
        seg := seg.(data := data[offset..offset + seg.len]);
        offset := offset + seg.len;
        rest := Parsed(rest.segs[1..], rest.panic);
        if seg.cmd == CMD_PUSH {
          rcvBuf := rcvBuf + [seg];
          rcvQueue := rcvQueue + [seg];
        } else if seg.cmd == CMD_WINS {
          rmtWnd := seg.wnd;
        }
      }
      ParseStep(data[..], n, offset);
      PushesStep(rest.segs, rmtWnd);
      assert rcvQueue + [] == rcvQueue && rcvBuf + [] == rcvBuf;
      return Accepted;
    }

    static lemma PushesStep(segs: seq<Segment>, wnd: U16)
      ensures segs == [] ==> Pushes(segs) == [] && Window(segs, wnd) == wnd
      ensures segs != [] ==>
        && Pushes(segs) == (if segs[0].cmd == CMD_PUSH then [segs[0]] else []) + Pushes(segs[1..])
        && Window(segs, wnd) == Window(segs[1..], if segs[0].cmd == CMD_WINS then segs[0].wnd else wnd)
    {
    }

    /** Copies whole segments while they fit, and forgets the rest of the queue. */
    method Recv(buffer: array<Byte>) returns (n: nat, ok: bool)
      requires buffer != buf
      modifies this`rcvQueue, buffer
      ensures ok <==> old(rcvQueue) != []
      ensures !ok ==> n == 0
      ensures rcvQueue == [] && n <= buffer.Length
      ensures buffer[n..] == old(buffer[n..])
      ensures exists k | 0 <= k <= |old(rcvQueue)| ::
        && buffer[..n] == Data(old(rcvQueue)[..k])
        && (k < |old(rcvQueue)| ==> n + |old(rcvQueue)[k].data| > buffer.Length)
      ensures buffer[..n] <= Data(old(rcvQueue))
      ensures buffer[..n] == Data(old(rcvQueue)) <==> |Data(old(rcvQueue))| <= buffer.Length
    {
      hide Data;
      n := 0;
      if rcvQueue == [] {
        NoData();
        assert buffer[..0] == Data(rcvQueue[..0]);
        return 0, false;
      }
      ok := true;
      NoData();
      assert rcvQueue[..0] == [];
      var i := 0;
      while i < |rcvQueue|
        invariant i <= |rcvQueue| && n <= buffer.Length && rcvQueue == old(rcvQueue)
        invariant buffer[..n] == Data(rcvQueue[..i])
        invariant forall j | n <= j < buffer.Length :: buffer[j] == old(buffer[j])
      {
        var data := rcvQueue[i].data;
        DataSnoc(rcvQueue[..i], rcvQueue[i]);
        assert rcvQueue[..i] + [rcvQueue[i]] == rcvQueue[..i + 1];
        DataConcat(rcvQueue[..i + 1], rcvQueue[i + 1..]);
        assert rcvQueue[..i + 1] + rcvQueue[i + 1..] == rcvQueue;
        assert Data(rcvQueue) == buffer[..n] + (data + Data(rcvQueue[i + 1..]));
        if n + |data| > buffer.Length {
          break;
        }
        PutBytes(buffer, n, data);
        n := n + |data|;
        i := i + 1;
      }
      assert i == |rcvQueue| ==> rcvQueue[..i] == rcvQueue;
      assert buffer[..n] == Data(old(rcvQueue)[..i]);
      rcvQueue := [];
    }

    /** Once the queue is flushed, the encodings of the send buffer, laid back to back, parse to
        exactly the bytes passed to Send. */
    lemma EncodingsCarrySent()
      requires Valid() && sndQueue == []
      ensures var all := EncodeAll(sndBuf); var p := Parse(all, |all|, 0);
        !p.panic && Data(Pushes(p.segs)) == sent
    {
      hide Data, Parse, Pushes, Encode;
      EncodingsCarryData(sndBuf);
      NoData();
      assert sent + [] == sent;
    }

    /** A codec exchange: the encodings of everything flushed, handed to Input of an empty
        receiver, give Recv exactly the bytes passed to Send, if its buffer holds them. */
    method InputThenRecv(sender: KCPState, wire: array<Byte>, buffer: array<Byte>) returns (n: nat)
      requires sender.Valid() && sender.sndQueue == [] && wire[..] == EncodeAll(sender.sndBuf)
      requires rcvQueue == [] && buffer != buf && wire != buf
      modifies this`rcvBuf, this`rcvQueue, this`rmtWnd, buffer
      ensures n <= buffer.Length && rcvQueue == []
      ensures buffer[..n] <= old(sender.sent)
      ensures buffer[..n] == old(sender.sent) <==> |old(sender.sent)| <= buffer.Length
    {
      hide Data, Parse, Pushes, Window, EncodeAll;
      sender.EncodingsCarrySent();
      ghost var sent := sender.sent;
      sender.ShortMeansNothing();
      NoData();
      ghost var p := Parse(wire[..], wire.Length, 0);
      var r := Input(wire, wire.Length);
      assert rcvQueue == if r == TooShort then [] else Pushes(p.segs);
      assert Data(rcvQueue) == sent;
      var ok;
      n, ok := Recv(buffer);
    }

    lemma ShortMeansNothing()
      requires Valid() && sndQueue == []
      ensures |EncodeAll(sndBuf)| < OVERHEAD ==> sent == []
    {
    }
  }
}
