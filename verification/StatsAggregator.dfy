/** The statistics of a desktop session (`agent/src/desktop_stats_sse.rs`): observations are folded into a window
    and every emit reports the window and clears it.
 */
module StatsAggregator {
  import opened Common
  import opened Float32
  import opened AdaptiveBitrate

  // ---------- Sorting and order statistics ----------

  function Insert(x: u32, s: seq<u32>): (r: seq<u32>)
    ensures |r| == |s| + 1
  {
    if s == [] || x <= s[0] then [x] + s else [s[0]] + Insert(x, s[1..])
  }

  /** The sorted arrangement of `s`, of which there is only one. */
  function Sorted(s: seq<u32>): (r: seq<u32>)
    ensures |r| == |s|
  {
    if s == [] then [] else Insert(s[0], Sorted(s[1..]))
  }

  ghost predicate Ordered(s: seq<u32>) {
    forall i, j :: 0 <= i <= j < |s| ==> s[i] <= s[j]
  }

  function Below(s: seq<u32>, v: u32): nat {
    if s == [] then 0 else (if s[0] < v then 1 else 0) + Below(s[1..], v)
  }

  function AtMost(s: seq<u32>, v: u32): nat {
    if s == [] then 0 else (if s[0] <= v then 1 else 0) + AtMost(s[1..], v)
  }

  lemma {:induction false} InsertCounts(x: u32, s: seq<u32>, v: u32)
    ensures Below(Insert(x, s), v) == Below(s, v) + (if x < v then 1 else 0)
    ensures AtMost(Insert(x, s), v) == AtMost(s, v) + (if x <= v then 1 else 0)
  {
    var r := Insert(x, s);
    if s == [] || x <= s[0] {
      assert r[1..] == s;
    } else {
      InsertCounts(x, s[1..], v);
      assert r[1..] == Insert(x, s[1..]);
    }
  }

  lemma {:induction false} InsertPermutes(x: u32, s: seq<u32>)
    ensures multiset(Insert(x, s)) == multiset(s) + multiset{x}
  {
    if s != [] && x > s[0] {
      InsertPermutes(x, s[1..]);
      assert s == [s[0]] + s[1..];
    }
  }

  lemma {:induction false} InsertOrders(x: u32, s: seq<u32>)
    requires Ordered(s)
    ensures Ordered(Insert(x, s))
    ensures Insert(x, s)[0] == if s == [] || x <= s[0] then x else s[0]
  {
    if s != [] && x > s[0] {
      assert Ordered(s[1..]);
      InsertOrders(x, s[1..]);
      OrderedFrom(s[0], Insert(x, s[1..]));
    } else if s != [] {
      OrderedFrom(x, s);
    }
  }

  lemma OrderedFrom(x: u32, s: seq<u32>)
    requires Ordered(s) && s != [] && x <= s[0]
    ensures Ordered([x] + s)
  {
  }

  lemma {:induction false} SortedFacts(s: seq<u32>, v: u32)
    ensures Ordered(Sorted(s))
    ensures multiset(Sorted(s)) == multiset(s)
    ensures Below(Sorted(s), v) == Below(s, v) && AtMost(Sorted(s), v) == AtMost(s, v)
  {
    if s != [] {
      SortedFacts(s[1..], v);
      InsertCounts(s[0], Sorted(s[1..]), v);
      InsertPermutes(s[0], Sorted(s[1..]));
      InsertOrders(s[0], Sorted(s[1..]));
      assert s == [s[0]] + s[1..];
    }
  }

  lemma {:induction false} PositionCounts(s: seq<u32>, k: nat)
    requires Ordered(s) && k < |s|
    ensures Below(s, s[k]) <= k < AtMost(s, s[k])
  {
    if k == 0 {
      NoneBelow(s, s[0]);
    } else {
      assert Ordered(s[1..]) && s[1..][k - 1] == s[k];
      PositionCounts(s[1..], k - 1);
    }
  }

  lemma {:induction false} NoneBelow(s: seq<u32>, v: u32)
    requires forall i :: 0 <= i < |s| ==> v <= s[i]
    ensures Below(s, v) == 0
  {
    if s != [] {
      NoneBelow(s[1..], v);
    }
  }

  lemma {:induction false} BelowAtMost(s: seq<u32>, v: u32, w: u32)
    requires v < w
    ensures AtMost(s, v) <= Below(s, w)
  {
    if s != [] {
      BelowAtMost(s[1..], v, w);
    }
  }

  /** The value of rank `k` (from 0): no more than `k` samples are smaller, more than `k` are no larger. */
  predicate HasRank(s: seq<u32>, k: nat, v: u32) {
    Below(s, v) <= k < AtMost(s, v)
  }

  lemma RankUnique(s: seq<u32>, k: nat, v: u32, w: u32)
    requires HasRank(s, k, v) && HasRank(s, k, w)
    ensures v == w
  {
    if v < w {
      BelowAtMost(s, v, w);
    } else if w < v {
      BelowAtMost(s, w, v);
    }
  }

  lemma {:induction false} SortedHasRanks(s: seq<u32>, k: nat)
    requires k < |s|
    ensures HasRank(s, k, Sorted(s)[k])
  {
    SortedFacts(s, Sorted(s)[k]);
    PositionCounts(Sorted(s), k);
  }

  datatype Level = P50 | P95
  {
    function Percent(): nat {
      if P50? then 50 else 95
    }

    /** The float constants 0.5 and 0.95 as they are, in 2^-24ths. */
    function Quantum(): nat {
      if P50? then 0x80_0000 else 15_938_355
    }
  }

  /** The index of a percentile among `n` samples, in single precision: the count is converted, one is taken off,
      the product is formed and rounded to the nearest whole number, halves up. It is in bounds for every `n`. */
  function PickIndex(n: nat, level: Level): (k: nat)
    requires n > 0
    ensures k < n
  {
    hide RoundF32;
    var count := RoundF32(n);
    var lessOne := RoundF32(count - 1);
    var product := RoundF32(lessOne * level.Quantum());
    ErrorsSmall(n, count, lessOne, product, level);
    (product + ONE / 2) / ONE
  }

  /** It is off the exact place by no more than a half and one part in 40,000 of the count. */
  lemma PickNear(n: nat, level: Level)
    requires n > 0
    ensures -50 - n / 400 <= (n - 1) * level.Percent() - 100 * PickIndex(n, level) <= 50 + n / 400
  {
    hide RoundF32;
    var count := RoundF32(n);
    var lessOne := RoundF32(count - 1);
    ErrorsSmall(n, count, lessOne, RoundF32(lessOne * level.Quantum()), level);
  }

  lemma ErrorsSmall(n: nat, count: nat, lessOne: nat, product: nat, level: Level)
    requires n > 0 && (n < ONE ==> count == n && lessOne == n - 1)
    requires -(n as int) <= ONE * (count - n) <= n && count > 0
    requires -(count - 1) <= ONE * (lessOne - (count - 1)) <= count - 1
    requires var x := lessOne * level.Quantum(); -(x as int) <= ONE * (product - x) <= x
    ensures var k := (product + ONE / 2) / ONE;
      k < n && -50 - n / 400 <= (n - 1) * level.Percent() - 100 * k <= 50 + n / 400
  {
    var k := (product + ONE / 2) / ONE;
    assert k * ONE <= product + ONE / 2 < (k + 1) * ONE;
    if level.P50? {
      assert 2 * product <= lessOne * (ONE + 1) && 2 * product >= lessOne * (ONE - 1);
    } else {
      assert -(lessOne as int) <= product - lessOne * 15_938_355 <= lessOne;
    }
  }

  /** For windows of up to half a million samples, rounding does not show: the index is the exact place rounded to
      the nearest whole number, halves up. */
  lemma PickNearest(n: nat, level: Level)
    requires 0 < n <= 0x8_0001
    ensures -50 <= (n - 1) * level.Percent() - 100 * PickIndex(n, level) < 50
  {
    hide RoundF32, Exponent, Pow2;
    var m: nat := n - 1;
    assert RoundF32(n) == n && RoundF32(m) == m;
    if level.P50? {
      RoundsToHalves(m * P50.Quantum(), m);
      MedianPlace(m);
    } else if (19 * m + 10) % 20 == 0 {
      var k := (19 * m + 10) / 20;
      RoundsToHalves(m * P95.Quantum(), 2 * k - 1);
      NinetyFifthTie(m, k);
    } else {
      NinetyFifthPlace(m, (19 * m + 10) / 20, (19 * m + 10) % 20, RoundF32(m * P95.Quantum()));
    }
  }

  lemma MedianPlace(m: nat)
    ensures -50 <= m * 50 - 100 * ((m * HALF + ONE / 2) / ONE) < 50
  {
  }

  lemma NinetyFifthTie(m: nat, k: nat)
    requires 19 * m + 10 == 20 * k
    ensures -50 <= m * 95 - 100 * (((2 * k - 1) * HALF + ONE / 2) / ONE) < 50
  {
    assert (2 * k - 1) * HALF + ONE / 2 == k * ONE;
  }

  lemma NinetyFifthPlace(m: nat, k: nat, rest: nat, product: nat)
    requires m <= 0x8_0000 && 19 * m + 10 == 20 * k + rest && 0 < rest < 20
    requires -(m * 15_938_355) <= ONE * (product - m * 15_938_355) <= m * 15_938_355
    ensures -50 <= m * 95 - 100 * ((product + ONE / 2) / ONE) < 50
  {
    assert 20 * (m * 15_938_355) == ONE * (19 * m) - 4 * m;
    assert m * 15_938_355 - m <= product <= m * 15_938_355 + m;
    assert k * ONE <= product + ONE / 2 < (k + 1) * ONE;
    assert (product + ONE / 2) / ONE == k;
  }

  lemma MedianNoLater(n: nat)
    requires n > 0
    ensures PickIndex(n, P50) <= PickIndex(n, P95)
  {
    hide RoundF32;
    var lessOne := RoundF32(RoundF32(n) - 1);
    assert RoundF32(lessOne * P50.Quantum()) <= RoundF32(lessOne * P95.Quantum());
  }

  /** `percentiles`: sorts the samples in place and picks the median and the 95th percentile. */
  method Percentiles(samples: array<u32>) returns (p50: Option<u32>, p95: Option<u32>)
    modifies samples
    ensures samples[..] == Sorted(old(samples[..]))
    ensures samples.Length == 0 ==> p50.None? && p95.None?
    ensures samples.Length > 0 ==>
      && p50.Some? && p95.Some? && p50.value <= p95.value
      && HasRank(old(samples[..]), PickIndex(samples.Length, P50), p50.value)
      && HasRank(old(samples[..]), PickIndex(samples.Length, P95), p95.value)
  {
    var n := samples.Length;
    ghost var window := samples[..];
    if n == 0 {
      return None, None;
    }
    SortUnstable(samples);
    var i, j := PickIndex(n, P50), PickIndex(n, P95);
    SortedHasRanks(window, i);
    SortedHasRanks(window, j);
    MedianNoLater(n);
    SortedFacts(window, 0);
    return Some(samples[i]), Some(samples[j]);
  }

  /** The library's `sort_unstable`, known by its result. */
  method SortUnstable(a: array<u32>)
    modifies a
    ensures a[..] == Sorted(old(a[..]))
  {
    var sorted := Sorted(a[..]);
    forall i | 0 <= i < a.Length {
      a[i] := sorted[i];
    }
    assert a[..] == sorted;
  }

  // ---------- The aggregator ----------

  datatype StatsSnapshot = StatsSnapshot(
    rembKbps: Option<u32>, bitrateKbps: Option<u32>, lossPct: Option<real>, rttMs: Option<u32>, jitterMs: Option<u32>,
    encodeMsP50: Option<u32>, encodeMsP95: Option<u32>, framesEncoded: u32, keyframes: u32,
    bgraQueueDepthPeak: u32, sampleQueueDepthPeak: u32)

  datatype State = State(
    rembKbps: Option<u32>, lossPct: Option<real>, rttMs: Option<u32>, jitterMs: Option<u32>, bitrateKbps: Option<u32>,
    window: seq<u32>, keyframes: u32, bgraPeak: u32, samplePeak: u32)

  const NEW: State := State(None, None, None, None, None, [], 0, 0, 0)

  /** `as u32` keeps the low 32 bits. */
  function Truncate(n: nat): (r: u32)
    ensures r <= n && (r == n <==> n <= U32_MAX)
    ensures n == n / U32_MODULUS * U32_MODULUS + r
  {
    n % U32_MODULUS
  }

  function Newer<T>(old_: Option<T>, fresh_: Option<T>): Option<T> {
    if fresh_.Some? then fresh_ else old_
  }

  function FoldSpec(s: State, obs: AbrObservation): State {
    match obs
    case Network(remb, loss, rtt, jitter) =>
      s.(rembKbps := Newer(s.rembKbps, remb), lossPct := Newer(s.lossPct, loss),
         rttMs := Newer(s.rttMs, rtt), jitterMs := Newer(s.jitterMs, jitter))
    case Encode(ms, isKeyframe, bgraDepth, sampleDepth, bitrate) =>
      s.(window := s.window + [ms], keyframes := if isKeyframe then SaturatingAdd(s.keyframes, 1) else s.keyframes,
         bgraPeak := Max(s.bgraPeak, Truncate(bgraDepth)), samplePeak := Max(s.samplePeak, Truncate(sampleDepth)),
         bitrateKbps := Some(bitrate))
  }

  function Cleared(s: State): State {
    s.(window := [], keyframes := 0, bgraPeak := 0, samplePeak := 0)
  }

  function Quantile(window: seq<u32>, level: Level): Option<u32>
  {
    if window == [] then None else Some(Sorted(window)[PickIndex(|window|, level)])
  }

  function SnapshotOf(s: State): StatsSnapshot {
    StatsSnapshot(s.rembKbps, s.bitrateKbps, s.lossPct, s.rttMs, s.jitterMs,
                  Quantile(s.window, P50), Quantile(s.window, P95), Truncate(|s.window|), s.keyframes, s.bgraPeak, s.samplePeak)
  }

  class Aggregator {
    var lastRembKbps: Option<u32>
    var lastLossPct: Option<real>
    var lastRttMs: Option<u32>
    var lastJitterMs: Option<u32>
    var lastBitrateKbps: Option<u32>
    var encodeMsWindow: seq<u32>
    var keyframesWindow: u32
    var bgraQueuePeakWindow: u32
    var sampleQueuePeakWindow: u32

    function View(): State
      reads this
    {
      State(lastRembKbps, lastLossPct, lastRttMs, lastJitterMs, lastBitrateKbps,
            encodeMsWindow, keyframesWindow, bgraQueuePeakWindow, sampleQueuePeakWindow)
    }

    constructor ()
      ensures View() == NEW
    {
      lastRembKbps, lastLossPct, lastRttMs, lastJitterMs, lastBitrateKbps := None, None, None, None, None;
      encodeMsWindow, keyframesWindow, bgraQueuePeakWindow, sampleQueuePeakWindow := [], 0, 0, 0;
    }

    method Fold(obs: AbrObservation)
      modifies this
      ensures View() == FoldSpec(old(View()), obs)
    {
      match obs
      case Network(remb, loss, rtt, jitter) =>
        if remb.Some? {
          lastRembKbps := remb;
        }
        if loss.Some? {
          lastLossPct := loss;
        }
        if rtt.Some? {
          lastRttMs := rtt;
        }
        if jitter.Some? {
          lastJitterMs := jitter;
        }
      case Encode(ms, isKeyframe, bgraDepth, sampleDepth, bitrate) =>
        encodeMsWindow := encodeMsWindow + [ms];
        if isKeyframe {
          keyframesWindow := SaturatingAdd(keyframesWindow, 1);
        }
        bgraQueuePeakWindow := Max(bgraQueuePeakWindow, Truncate(bgraDepth));
        sampleQueuePeakWindow := Max(sampleQueuePeakWindow, Truncate(sampleDepth));
        lastBitrateKbps := Some(bitrate);
    }

    method Emit() returns (snapshot: StatsSnapshot)
      modifies this
      ensures snapshot == SnapshotOf(old(View()))
      ensures View() == Cleared(old(View()))
    {
      hide Sorted, HasRank, PickIndex, Truncate;
      var frames := Truncate(|encodeMsWindow|);
      var window := encodeMsWindow;
      var samples := new u32[|window|](i requires 0 <= i < |window| => window[i]);
      assert samples[..] == window;
      var p50, p95 := Percentiles(samples);
      if window != [] {
        QuantileByRank(window, P50, p50.value);
        QuantileByRank(window, P95, p95.value);
      }
      snapshot := StatsSnapshot(lastRembKbps, lastBitrateKbps, lastLossPct, lastRttMs, lastJitterMs,
                                p50, p95, frames, keyframesWindow, bgraQueuePeakWindow, sampleQueuePeakWindow);
      encodeMsWindow, keyframesWindow, bgraQueuePeakWindow, sampleQueuePeakWindow := [], 0, 0, 0;
    }
  }

  /** The quantile is the one value of its rank. */
  lemma {:induction false} QuantileByRank(window: seq<u32>, level: Level, v: u32)
    requires window != []
    ensures HasRank(window, PickIndex(|window|, level), v) <==> Quantile(window, level) == Some(v)
  {
    var k := PickIndex(|window|, level);
    SortedHasRanks(window, k);
    if HasRank(window, k, v) {
      RankUnique(window, k, v, Sorted(window)[k]);
    }
  }

  // ---------- Runs ----------

  datatype Op = Observe(obs: AbrObservation) | EmitNow

  function StateAt(ops: seq<Op>, i: nat): State
    requires i <= |ops|
  {
    if i == 0 then NEW
    else match ops[i - 1]
      case Observe(obs) => FoldSpec(StateAt(ops, i - 1), obs)
      case EmitNow => Cleared(StateAt(ops, i - 1))
  }

  type Encoding = obs: AbrObservation | obs.Encode? witness Encode(0, false, 0, 0, 0)

  /** The encode observations since the last emit before `i`. */
  function SinceEmit(ops: seq<Op>, i: nat): seq<Encoding>
    requires i <= |ops|
  {
    if i == 0 || ops[i - 1].EmitNow? then []
    else if ops[i - 1].obs.Encode? then SinceEmit(ops, i - 1) + [ops[i - 1].obs]
    else SinceEmit(ops, i - 1)
  }

  function Keyframes(es: seq<Encoding>): nat {
    if es == [] then 0 else Keyframes(es[..|es| - 1]) + (if es[|es| - 1].isKeyframe then 1 else 0)
  }

  ghost predicate IsPeak(depths: seq<nat>, peak: u32) {
    && (forall k :: 0 <= k < |depths| ==> Truncate(depths[k]) <= peak)
    && (depths == [] ==> peak == 0)
    && (depths != [] ==> exists k :: 0 <= k < |depths| && Truncate(depths[k]) == peak)
  }

  lemma PeakStep(depths: seq<nat>, peak: u32, depth: nat)
    requires IsPeak(depths, peak)
    ensures IsPeak(depths + [depth], Max(peak, Truncate(depth)))
  {
    var more := depths + [depth];
    assert more[|depths|] == depth;
    if depths != [] {
      var k :| 0 <= k < |depths| && Truncate(depths[k]) == peak;
      assert more[k] == depths[k];
    }
  }

  function EncodeMs(es: seq<Encoding>): seq<u32> {
    seq(|es|, i requires 0 <= i < |es| => es[i].encodeMs)
  }

  function BgraDepths(es: seq<Encoding>): seq<nat> {
    seq(|es|, i requires 0 <= i < |es| => es[i].bgraQueueDepth)
  }

  function SampleDepths(es: seq<Encoding>): seq<nat> {
    seq(|es|, i requires 0 <= i < |es| => es[i].sampleQueueDepth)
  }

  /** The window holds exactly what was encoded since the last emit. */
  ghost predicate Holds(s: State, es: seq<Encoding>) {
    && s.window == EncodeMs(es)
    && s.keyframes == Min(Keyframes(es), U32_MAX)
    && IsPeak(BgraDepths(es), s.bgraPeak)
    && IsPeak(SampleDepths(es), s.samplePeak)
  }

  lemma HoldsStep(s: State, es: seq<Encoding>, e: Encoding)
    requires Holds(s, es)
    ensures Holds(FoldSpec(s, e), es + [e])
  {
    PeakStep(BgraDepths(es), s.bgraPeak, e.bgraQueueDepth);
    PeakStep(SampleDepths(es), s.samplePeak, e.sampleQueueDepth);
    assert BgraDepths(es + [e]) == BgraDepths(es) + [e.bgraQueueDepth];
    assert SampleDepths(es + [e]) == SampleDepths(es) + [e.sampleQueueDepth];
    assert EncodeMs(es + [e]) == EncodeMs(es) + [e.encodeMs];
    assert (es + [e])[..|es|] == es;
  }

  lemma {:induction false} WindowHolds(ops: seq<Op>, i: nat)
    requires i <= |ops|
    ensures Holds(StateAt(ops, i), SinceEmit(ops, i))
  {
    hide Holds, FoldSpec;
    if i > 0 && ops[i - 1].Observe? {
      WindowHolds(ops, i - 1);
      if ops[i - 1].obs.Encode? {
        HoldsStep(StateAt(ops, i - 1), SinceEmit(ops, i - 1), ops[i - 1].obs);
      } else {
        HoldsNetwork(StateAt(ops, i - 1), SinceEmit(ops, i - 1), ops[i - 1].obs);
      }
    } else {
      HoldsEmpty(StateAt(ops, i));
    }
  }

  lemma HoldsNetwork(s: State, es: seq<Encoding>, obs: AbrObservation)
    requires Holds(s, es) && obs.Network?
    ensures Holds(FoldSpec(s, obs), es)
  {
  }

  lemma HoldsEmpty(s: State)
    ensures Cleared(s) == s ==> Holds(s, [])
  {
  }

  /** A snapshot reports exactly the window: its length and keyframes in 32 bits, the peaks of its queues, and as
      quantiles the values of the right ranks among its encode times. */
  lemma {:induction false} SnapshotRight(ops: seq<Op>, i: nat)
    requires i <= |ops|
    ensures var snapshot, es := SnapshotOf(StateAt(ops, i)), SinceEmit(ops, i); var ms := EncodeMs(es);
      && snapshot.framesEncoded == Truncate(|es|)
      && snapshot.keyframes == Min(Keyframes(es), U32_MAX)
      && IsPeak(BgraDepths(es), snapshot.bgraQueueDepthPeak)
      && IsPeak(SampleDepths(es), snapshot.sampleQueueDepthPeak)
      && (es == [] <==> snapshot.encodeMsP50.None?) && (es == [] <==> snapshot.encodeMsP95.None?)
      && (es != [] ==> && HasRank(ms, PickIndex(|es|, P50), snapshot.encodeMsP50.value)
                       && HasRank(ms, PickIndex(|es|, P95), snapshot.encodeMsP95.value)
                       && snapshot.encodeMsP50.value <= snapshot.encodeMsP95.value)
  {
    WindowHolds(ops, i);
    var es := SinceEmit(ops, i);
    if es != [] {
      var ms := EncodeMs(es);
      SortedHasRanks(ms, PickIndex(|es|, P50));
      SortedHasRanks(ms, PickIndex(|es|, P95));
      MedianNoLater(|es|);
      SortedFacts(ms, 0);
    }
  }

  // ---------- Nothing is lost or counted twice ----------

  /** Encode observations, and keyframes among them, in the first `i` operations. */
  function Observed(ops: seq<Op>, i: nat, keyframesOnly: bool): nat
    requires i <= |ops|
  {
    if i == 0 then 0 else
      Observed(ops, i - 1, keyframesOnly) +
      (if ops[i - 1].Observe? && ops[i - 1].obs.Encode? && (keyframesOnly ==> ops[i - 1].obs.isKeyframe) then 1 else 0)
  }

  /** What the snapshots among the first `i` operations reported, added up. */
  function Reported(ops: seq<Op>, i: nat, keyframesOnly: bool): nat
    requires i <= |ops|
  {
    if i == 0 then 0 else
      Reported(ops, i - 1, keyframesOnly) +
      (if !ops[i - 1].EmitNow? then 0
       else if keyframesOnly then SnapshotOf(StateAt(ops, i - 1)).keyframes
       else SnapshotOf(StateAt(ops, i - 1)).framesEncoded)
  }

  function WindowCount(ops: seq<Op>, i: nat, keyframesOnly: bool): nat
    requires i <= |ops|
  {
    if keyframesOnly then Keyframes(SinceEmit(ops, i)) else |SinceEmit(ops, i)|
  }

  /** No window that was emitted among the first `i` operations was too large for 32 bits. */
  ghost predicate Fits(ops: seq<Op>, i: nat, keyframesOnly: bool)
    requires i <= |ops|
  {
    forall j :: 0 <= j < i && ops[j].EmitNow? ==> WindowCount(ops, j, keyframesOnly) <= U32_MAX
  }

  lemma WindowCountStep(ops: seq<Op>, i: nat, keyframesOnly: bool)
    requires 0 < i <= |ops| && ops[i - 1].Observe?
    ensures WindowCount(ops, i, keyframesOnly) == WindowCount(ops, i - 1, keyframesOnly)
      + (if ops[i - 1].obs.Encode? && (keyframesOnly ==> ops[i - 1].obs.isKeyframe) then 1 else 0)
  {
    if ops[i - 1].obs.Encode? {
      var es := SinceEmit(ops, i - 1);
      assert (es + [ops[i - 1].obs])[..|es|] == es;
    }
  }

  /** Frames reported and frames still in the window are the frames observed, and likewise keyframes, exactly if
      every emitted window fitted its 32-bit count; if not, some are lost, never made up. */
  lemma {:induction false} Conservation(ops: seq<Op>, i: nat, keyframesOnly: bool)
    requires i <= |ops|
    ensures Reported(ops, i, keyframesOnly) + WindowCount(ops, i, keyframesOnly) <= Observed(ops, i, keyframesOnly)
    ensures Fits(ops, i, keyframesOnly) <==>
      Reported(ops, i, keyframesOnly) + WindowCount(ops, i, keyframesOnly) == Observed(ops, i, keyframesOnly)
  {
    if i > 0 {
      Conservation(ops, i - 1, keyframesOnly);
      if ops[i - 1].Observe? {
        WindowCountStep(ops, i, keyframesOnly);
      } else {
        EmitReports(ops, i, keyframesOnly);
      }
    }
  }

  lemma NoKeyframes()
    ensures Keyframes([]) == 0
  {
  }

  lemma {:induction false} EmitReports(ops: seq<Op>, i: nat, keyframesOnly: bool)
    requires 0 < i <= |ops| && ops[i - 1].EmitNow?
    ensures var n := WindowCount(ops, i - 1, keyframesOnly);
      && WindowCount(ops, i, keyframesOnly) == 0
      && Observed(ops, i, keyframesOnly) == Observed(ops, i - 1, keyframesOnly)
      && Reported(ops, i, keyframesOnly) <= Reported(ops, i - 1, keyframesOnly) + n
      && (Reported(ops, i, keyframesOnly) == Reported(ops, i - 1, keyframesOnly) + n <==> n <= U32_MAX)
  {
    SnapshotRight(ops, i - 1);
    NoKeyframes();
  }

  // ---------- What carries over ----------

  /** The latest value, among the first `i` operations, of the field that `pick` reads. */
  function Latest<T>(ops: seq<Op>, i: nat, pick: AbrObservation -> Option<T>): Option<T>
    requires i <= |ops|
  {
    if i == 0 then None
    else if ops[i - 1].Observe? && pick(ops[i - 1].obs).Some? then pick(ops[i - 1].obs)
    else Latest(ops, i - 1, pick)
  }

  /** Each network field and the bitrate are reported as last observed, across emits. */
  lemma {:induction false} LatestCarriesOver(ops: seq<Op>, i: nat)
    requires i <= |ops|
    ensures var s := SnapshotOf(StateAt(ops, i));
      && s.rembKbps == Latest(ops, i, (o: AbrObservation) => if o.Network? then o.rembKbps else None)
      && s.lossPct == Latest(ops, i, (o: AbrObservation) => if o.Network? then o.lossPct else None)
      && s.rttMs == Latest(ops, i, (o: AbrObservation) => if o.Network? then o.rttMs else None)
      && s.jitterMs == Latest(ops, i, (o: AbrObservation) => if o.Network? then o.jitterMs else None)
      && s.bitrateKbps == Latest(ops, i, (o: AbrObservation) => if o.Encode? then Some(o.currentBitrateKbps) else None)
  {
    hide Quantile, Truncate;
    if i > 0 {
      LatestCarriesOver(ops, i - 1);
    }
  }
}
