/** The adaptive-bitrate controller (`agent/src/desktop_abr.rs`).

    `AbrState` is the controller's field record and `TickSpec` what one tick makes of it. The class
    `AbrController` is the imperative controller, tied to that record method by method. The theorems
    at the end are about every run: every finite sequence of ticks, each preceded by any
    observations whatever.
 */
module AdaptiveBitrate {
  import opened Common

  datatype AbrZone = Comfort | Probe | Recovery

  datatype AbrObservation =
    | Network(rembKbps: Option<u32>, lossPct: Option<real>, rttMs: Option<u32>, jitterMs: Option<u32>)
    | Encode(encodeMs: u32, isKeyframe: bool, bgraQueueDepth: nat, sampleQueueDepth: nat,
             currentBitrateKbps: u32)

  datatype AbrTunables = AbrTunables(
    probeInterval: nat, recoveryCutPct: u32, probeStepPct: u32, hysteresisTicks: u32,
    antiThrash: nat, lossPctRecovery: real, lossPctComfort: real, rttMsRecovery: u32)

  datatype Reason = LossHigh | RttHigh | ProbeIntervalElapsed | Recovered | ProbeCeiling | Steady

  datatype AbrDecision = AbrDecision(zone: AbrZone, zoneChanged: bool, targetBitrateKbps: u32, reason: Reason)

  datatype AbrState = AbrState(
    tunables: AbrTunables, floorKbps: u32, ceilingKbps: u32, currentKbps: u32, zone: AbrZone,
    lastTransitionAt: int, lastProbeAt: int, pendingZone: Option<AbrZone>, pendingStreak: u32,
    windowLossMax: real, windowRttMax: u32, windowObsCount: u32)

  // ---------- What each operation does to the record ----------

  function Clamp(x: u32, lo: u32, hi: u32): (r: u32)
    requires lo <= hi
    ensures lo <= r <= hi
  {
    if x < lo then lo else if hi < x then hi else x
  }

  function NewSpec(tunables: AbrTunables, floorKbps: u32, ceilingKbps: u32, now: int): AbrState {
    var ceiling: u32 := Max(ceilingKbps, floorKbps);
    AbrState(tunables, floorKbps, ceiling, ceiling, Comfort, now, now, None, 0, 0.0, 0, 0)
  }

  function ObserveSpec(s: AbrState, obs: AbrObservation): AbrState {
    if !obs.Network? then s else
      s.(windowLossMax := if obs.lossPct.Some? && obs.lossPct.value > s.windowLossMax then obs.lossPct.value else s.windowLossMax,
         windowRttMax := if obs.rttMs.Some? && obs.rttMs.value > s.windowRttMax then obs.rttMs.value else s.windowRttMax,
         windowObsCount := WrappingAdd(s.windowObsCount, 1))
  }

  function ClassifySpec(s: AbrState, now: int): AbrZone {
    if s.windowObsCount == 0 then s.zone
    else if s.windowLossMax >= s.tunables.lossPctRecovery || s.windowRttMax >= s.tunables.rttMsRecovery then Recovery
    else if s.windowLossMax >= s.tunables.lossPctComfort then s.zone
    else if s.zone.Comfort? && s.currentKbps < s.ceilingKbps && Since(now, s.lastProbeAt) >= s.tunables.probeInterval then Probe
    else Comfort
  }

  /** The streak the observed zone would reach with this tick counted. */
  function StreakWith(s: AbrState, observed: AbrZone): u32 {
    if s.pendingZone == Some(observed) then WrappingAdd(s.pendingStreak, 1) else 1
  }

  function HysteresisSpec(s: AbrState, observed: AbrZone, now: int): (AbrState, Option<AbrZone>) {
    var settled := s.(pendingZone := None, pendingStreak := 0);
    if observed == s.zone then (settled, None)
    else if observed.Recovery? then (s, Some(observed))
    else if Since(now, s.lastTransitionAt) < s.tunables.antiThrash then (s, None)
    else if StreakWith(s, observed) >= s.tunables.hysteresisTicks then (settled, Some(observed))
    else (s.(pendingZone := Some(observed), pendingStreak := StreakWith(s, observed)), None)
  }

  function Step(kbps: u32, pct: u32): u32 {
    SaturatingMul(kbps, pct) / 100
  }

  function TransitionSpec(s: AbrState, zone: AbrZone, now: int): (AbrState, AbrDecision)
    requires s.floorKbps <= s.ceilingKbps
  {
    var (target, reason) :=
      match zone
      case Recovery => (SaturatingSub(s.currentKbps, Step(s.currentKbps, s.tunables.recoveryCutPct)),
                        if s.windowLossMax >= s.tunables.lossPctRecovery then LossHigh else RttHigh)
      case Probe => (SaturatingAdd(s.currentKbps, Step(s.currentKbps, s.tunables.probeStepPct)), ProbeIntervalElapsed)
      case Comfort => (s.ceilingKbps, Recovered);
    var kbps := Clamp(target, s.floorKbps, s.ceilingKbps);
    (s.(currentKbps := kbps, zone := zone, lastTransitionAt := now,
        lastProbeAt := if zone.Probe? then now else s.lastProbeAt),
     AbrDecision(zone, true, kbps, reason))
  }

  function WithoutWindow(s: AbrState): AbrState {
    s.(windowLossMax := 0.0, windowRttMax := 0, windowObsCount := 0)
  }

  function TickSpec(s: AbrState, now: int): (r: (AbrState, AbrDecision))
    requires s.floorKbps <= s.ceilingKbps
    ensures r.0.tunables == s.tunables && r.0.floorKbps == s.floorKbps && r.0.ceilingKbps == s.ceilingKbps
  {
    hide ClassifySpec, Step, StreakWith;
    var (h, transition) := HysteresisSpec(s, ClassifySpec(s, now), now);
    var w := WithoutWindow(h);
    if transition.Some? then TransitionSpec(w, transition.value, now)
    else if !w.zone.Probe? then (w, AbrDecision(w.zone, false, w.currentKbps, Steady))
    else
      var raised: u32 := Min(SaturatingAdd(w.currentKbps, Step(w.currentKbps, w.tunables.probeStepPct)), w.ceilingKbps);
      if raised >= w.ceilingKbps then
        (w.(currentKbps := raised, zone := Comfort, lastTransitionAt := now, lastProbeAt := now),
         AbrDecision(Comfort, true, raised, ProbeCeiling))
      else
        (w.(currentKbps := raised), AbrDecision(Probe, false, raised, Steady))
  }

  // ---------- The controller ----------

  class AbrController {
    const tunables: AbrTunables
    const floorKbps: u32
    const ceilingKbps: u32
    var currentKbps: u32
    var zone: AbrZone
    var lastTransitionAt: int
    var lastProbeAt: int
    var pendingZone: Option<AbrZone>
    var pendingStreak: u32
    var windowLossMax: real
    var windowRttMax: u32
    var windowObsCount: u32

    ghost predicate Valid() {
      floorKbps <= ceilingKbps
    }

    function View(): AbrState
      reads this
    {
      AbrState(tunables, floorKbps, ceilingKbps, currentKbps, zone, lastTransitionAt, lastProbeAt,
               pendingZone, pendingStreak, windowLossMax, windowRttMax, windowObsCount)
    }

    constructor (tunables: AbrTunables, floorKbps: u32, ceilingKbps: u32, now: int)
      ensures Valid() && View() == NewSpec(tunables, floorKbps, ceilingKbps, now)
    {
      var ceiling: u32 := Max(ceilingKbps, floorKbps);
      this.tunables := tunables;
      this.floorKbps := floorKbps;
      this.ceilingKbps := ceiling;
      currentKbps := ceiling;
      zone := Comfort;
      lastTransitionAt, lastProbeAt := now, now;
      pendingZone, pendingStreak := None, 0;
      windowLossMax, windowRttMax, windowObsCount := 0.0, 0, 0;
    }

    method Observe(obs: AbrObservation)
      modifies this
      ensures View() == ObserveSpec(old(View()), obs)
    {
      match obs
      case Network(_, loss, rtt, _) =>
        if loss.Some? && loss.value > windowLossMax {
          windowLossMax := loss.value;
        }
        if rtt.Some? && rtt.value > windowRttMax {
          windowRttMax := rtt.value;
        }
        windowObsCount := WrappingAdd(windowObsCount, 1);
      case Encode(_, _, _, _, _) =>
    }

    function ClassifyWindow(now: int): AbrZone
      reads this
    {
      ClassifySpec(View(), now)
    }

    method ApplyHysteresis(observed: AbrZone, now: int) returns (transition: Option<AbrZone>)
      modifies this`pendingZone, this`pendingStreak
      ensures (View(), transition) == HysteresisSpec(old(View()), observed, now)
    {
      if observed == zone {
        pendingZone, pendingStreak := None, 0;
        return None;
      }
      if !observed.Recovery? && Since(now, lastTransitionAt) < tunables.antiThrash {
        return None;
      }
      if observed.Recovery? {
        return Some(observed);
      }
      if pendingZone == Some(observed) {
        pendingStreak := WrappingAdd(pendingStreak, 1);
        if pendingStreak >= tunables.hysteresisTicks {
          pendingZone, pendingStreak := None, 0;
          return Some(observed);
        }
        return None;
      }
      pendingZone, pendingStreak := Some(observed), 1;
      if tunables.hysteresisTicks <= 1 {
        pendingZone, pendingStreak := None, 0;
        return Some(observed);
      }
      return None;
    }

    method TransitionTo(zone: AbrZone, now: int) returns (decision: AbrDecision)
      requires Valid()
      modifies this
      ensures (View(), decision) == TransitionSpec(old(View()), zone, now)
    {
      var target: u32, reason;
      match zone {
        case Recovery =>
          var cut: u32 := SaturatingMul(currentKbps, tunables.recoveryCutPct) / 100;
          target := SaturatingSub(currentKbps, cut);
          reason := if windowLossMax >= tunables.lossPctRecovery then LossHigh else RttHigh;
        case Probe =>
          var step: u32 := SaturatingMul(currentKbps, tunables.probeStepPct) / 100;
          target := SaturatingAdd(currentKbps, step);
          lastProbeAt := now;
          reason := ProbeIntervalElapsed;
        case Comfort =>
          target, reason := ceilingKbps, Recovered;
      }
      currentKbps := Clamp(target, floorKbps, ceilingKbps);
      this.zone := zone;
      lastTransitionAt := now;
      decision := AbrDecision(zone, true, currentKbps, reason);
    }

    method Tick(now: int) returns (decision: AbrDecision)
      requires Valid()
      modifies this
      ensures (View(), decision) == TickSpec(old(View()), now)
    {
      var observed := ClassifyWindow(now);
      var transition := ApplyHysteresis(observed, now);
      windowLossMax, windowRttMax, windowObsCount := 0.0, 0, 0;
      if transition.Some? {
        decision := TransitionTo(transition.value, now);
        return;
      }
      if zone.Probe? {
        var step: u32 := SaturatingMul(currentKbps, tunables.probeStepPct) / 100;
        currentKbps := Min(SaturatingAdd(currentKbps, step), ceilingKbps);
        if currentKbps >= ceilingKbps {
          zone := Comfort;
          lastTransitionAt, lastProbeAt := now, now;
          return AbrDecision(Comfort, true, currentKbps, ProbeCeiling);
        }
      }
      return AbrDecision(zone, false, currentKbps, Steady);
    }

    /** The loop around the controller: between two ticks it takes in whatever observations have arrived. */
    method Drive(inputs: seq<TickInput>) returns (decisions: seq<AbrDecision>)
      requires Valid()
      modifies this
      ensures View() == StateAt(old(View()), inputs, |inputs|)
      ensures |decisions| == |inputs|
      ensures forall i :: 0 <= i < |inputs| ==> decisions[i] == DecisionAt(old(View()), inputs, i)
    {
      hide TickSpec, ObserveSpec;
      decisions := [];
      for i := 0 to |inputs|
        invariant View() == StateAt(old(View()), inputs, i)
        invariant |decisions| == i
        invariant forall k :: 0 <= k < i ==> decisions[k] == DecisionAt(old(View()), inputs, k)
      {
        var obs := inputs[i].obs;
        ghost var before := View();
        for j := 0 to |obs|
          invariant View() == ObserveAll(before, obs[..j])
        {
          assert obs[..j + 1][..j] == obs[..j];
          Observe(obs[j]);
        }
        assert obs[..|obs|] == obs;
        var d := Tick(inputs[i].now);
        decisions := decisions + [d];
      }
    }
  }

  // ---------- Runs ----------

  /** One tick of the controller and the observations that arrived since the tick before. */
  datatype TickInput = TickInput(obs: seq<AbrObservation>, now: int)

  function ObserveAll(s: AbrState, obs: seq<AbrObservation>): (r: AbrState)
    ensures r == s.(windowLossMax := r.windowLossMax, windowRttMax := r.windowRttMax, windowObsCount := r.windowObsCount)
  {
    if obs == [] then s else ObserveSpec(ObserveAll(s, obs[..|obs| - 1]), obs[|obs| - 1])
  }

  function StateAt(s0: AbrState, run: seq<TickInput>, i: nat): (r: AbrState)
    requires s0.floorKbps <= s0.ceilingKbps && i <= |run|
    ensures r.tunables == s0.tunables && r.floorKbps == s0.floorKbps && r.ceilingKbps == s0.ceilingKbps
  {
    hide TickSpec;
    if i == 0 then s0 else TickSpec(ObserveAll(StateAt(s0, run, i - 1), run[i - 1].obs), run[i - 1].now).0
  }

  function DecisionAt(s0: AbrState, run: seq<TickInput>, i: nat): AbrDecision
    requires s0.floorKbps <= s0.ceilingKbps && i < |run|
  {
    TickSpec(ObserveAll(StateAt(s0, run, i), run[i].obs), run[i].now).1
  }

  ghost predicate ClockMonotone(t0: int, run: seq<TickInput>) {
    && (forall i :: 0 <= i < |run| ==> t0 <= run[i].now)
    && (forall i, j :: 0 <= i <= j < |run| ==> run[i].now <= run[j].now)
  }

  /** The tick's window had network feedback, and all of it was good. */
  ghost predicate Healthy(t: AbrTunables, obs: seq<AbrObservation>) {
    && (exists k :: 0 <= k < |obs| && obs[k].Network?)
    && (forall k :: 0 <= k < |obs| && obs[k].Network? ==>
          && (obs[k].lossPct.Some? ==> obs[k].lossPct.value < t.lossPctRecovery && obs[k].lossPct.value < t.lossPctComfort)
          && (obs[k].rttMs.Some? ==> obs[k].rttMs.value < t.rttMsRecovery))
  }

  // ---------- The reachable states ----------

  /** The ceiling cut once and clamped to the floor: the only other bitrate the controller ever asks for. */
  function CutOnce(s: AbrState): u32
    requires s.floorKbps <= s.ceilingKbps
  {
    Clamp(SaturatingSub(s.ceilingKbps, Step(s.ceilingKbps, s.tunables.recoveryCutPct)), s.floorKbps, s.ceilingKbps)
  }

  ghost predicate Inv(s: AbrState) {
    && s.floorKbps <= s.ceilingKbps
    && s.windowLossMax == 0.0 && s.windowRttMax == 0 && s.windowObsCount == 0
    && !s.zone.Probe?
    && (s.zone.Comfort? ==> s.currentKbps == s.ceilingKbps)
    && (s.zone.Recovery? ==> s.currentKbps == CutOnce(s))
    && PendingRight(s)
  }

  /** Only a return to Comfort is ever pending, and only in Recovery. */
  ghost predicate PendingRight(s: AbrState) {
    && (s.zone.Comfort? ==> s.pendingZone.None?)
    && (s.pendingZone.None? ==> s.pendingStreak == 0)
    && (s.pendingZone.Some? ==> s.pendingZone.value.Comfort? && 1 <= s.pendingStreak < s.tunables.hysteresisTicks)
  }

  lemma HysteresisKeepsPending(s: AbrState, observed: AbrZone, now: int)
    requires PendingRight(s) && !s.zone.Probe? && !observed.Probe?
    ensures var (h, transition) := HysteresisSpec(s, observed, now);
      && h == s.(pendingZone := h.pendingZone, pendingStreak := h.pendingStreak)
      && PendingRight(h)
      && (transition.Some? ==> transition.value == observed && observed != s.zone && h.pendingZone.None?)
  {
  }

  lemma InvStep(s: AbrState, input: TickInput)
    requires Inv(s)
    ensures var (next, d) := TickSpec(ObserveAll(s, input.obs), input.now);
      && Inv(next)
      && d.zone == next.zone && d.targetBitrateKbps == next.currentKbps
      && d.zoneChanged == (next.zone != s.zone)
      && (!d.zoneChanged ==> d.reason.Steady?)
      && (d.zoneChanged && d.zone.Comfort? ==> d.reason.Recovered?)
  {
    hide Step, ObserveAll, HysteresisSpec, SaturatingMul, SaturatingAdd, SaturatingSub;
    var w := ObserveAll(s, input.obs);
    var observed := ClassifySpec(w, input.now);
    HysteresisKeepsPending(w, observed, input.now);
  }

  lemma {:induction false} InvAlways(s0: AbrState, run: seq<TickInput>, i: nat)
    requires Inv(s0) && i <= |run|
    ensures Inv(StateAt(s0, run, i))
  {
    if i > 0 {
      InvAlways(s0, run, i - 1);
      InvStep(StateAt(s0, run, i - 1), run[i - 1]);
    }
  }

  /** The controller is never in Probe, asks for the full ceiling exactly when in Comfort, and otherwise
      for the ceiling cut once: sustained congestion never cuts a second time. */
  lemma {:induction false} ReachableStates(tunables: AbrTunables, floorKbps: u32, ceilingKbps: u32, t0: int, run: seq<TickInput>, i: nat)
    requires i < |run|
    ensures var s0 := NewSpec(tunables, floorKbps, ceilingKbps, t0);
      var d := DecisionAt(s0, run, i);
      var top := Max(ceilingKbps, floorKbps);
      && StateAt(s0, run, 0).zone.Comfort?
      && !d.zone.Probe?
      && (d.zone.Comfort? ==> d.targetBitrateKbps == top)
      && (d.zone.Recovery? ==>
            d.targetBitrateKbps == Max(floorKbps, Max(0, top - Min(top * tunables.recoveryCutPct, U32_MAX) / 100)))
      && floorKbps <= d.targetBitrateKbps
      && d.zone == StateAt(s0, run, i + 1).zone
      && d.zoneChanged == (d.zone != StateAt(s0, run, i).zone)
      && (!d.zoneChanged ==> d.reason.Steady?)
      && (d.zoneChanged && d.zone.Comfort? ==> d.reason.Recovered?)
  {
    hide TickSpec, ObserveAll;
    var s0 := NewSpec(tunables, floorKbps, ceilingKbps, t0);
    InvAlways(s0, run, i);
    InvStep(StateAt(s0, run, i), run[i]);
    CutAmount(s0);
  }

  lemma CutAmount(s: AbrState)
    requires s.floorKbps <= s.ceilingKbps
    ensures CutOnce(s)
      == Max(s.floorKbps, Max(0, s.ceilingKbps - Min(s.ceilingKbps * s.tunables.recoveryCutPct, U32_MAX) / 100))
  {
    var product := s.ceilingKbps * s.tunables.recoveryCutPct;
    assert product >= 0;
  }

  /** The window is cleared before the reason is worked out, so the label of a cut says "loss" exactly when
      the loss threshold is not positive, whatever caused the cut. */
  lemma RecoveryReason(tunables: AbrTunables, floorKbps: u32, ceilingKbps: u32, t0: int, run: seq<TickInput>, i: nat)
    requires i < |run|
    ensures var d := DecisionAt(NewSpec(tunables, floorKbps, ceilingKbps, t0), run, i);
      d.zoneChanged && d.zone.Recovery? ==>
        && (d.reason == LossHigh <==> tunables.lossPctRecovery <= 0.0)
        && (d.reason == RttHigh <==> tunables.lossPctRecovery > 0.0)
  {
    var s0 := NewSpec(tunables, floorKbps, ceilingKbps, t0);
    InvAlways(s0, run, i);
  }

  // ---------- Leaving Recovery ----------

  /** What the rolling window remembers of the observations folded into an empty one. */
  lemma {:induction false} WindowHolds(s: AbrState, obs: seq<AbrObservation>)
    requires s.windowLossMax == 0.0 && s.windowRttMax == 0 && s.windowObsCount == 0
    ensures var w := ObserveAll(s, obs);
      && (w.windowObsCount != 0 ==> exists k :: 0 <= k < |obs| && obs[k].Network?)
      && (forall k :: 0 <= k < |obs| && obs[k].Network? ==>
            && (obs[k].lossPct.Some? ==> obs[k].lossPct.value <= w.windowLossMax)
            && (obs[k].rttMs.Some? ==> obs[k].rttMs.value <= w.windowRttMax))
  {
    if obs != [] {
      WindowHolds(s, obs[..|obs| - 1]);
      var w := ObserveAll(s, obs[..|obs| - 1]);
      if obs[|obs| - 1].Network? {
      } else if w.windowObsCount != 0 {
        var k :| 0 <= k < |obs| - 1 && obs[..|obs| - 1][k].Network?;
        assert obs[k].Network?;
      }
      forall k | 0 <= k < |obs| && obs[k].Network?
        ensures (obs[k].lossPct.Some? ==> obs[k].lossPct.value <= ObserveAll(s, obs).windowLossMax)
             && (obs[k].rttMs.Some? ==> obs[k].rttMs.value <= ObserveAll(s, obs).windowRttMax)
      {
        if k < |obs| - 1 {
          assert obs[..|obs| - 1][k] == obs[k];
        }
      }
    }
  }

  /** The maxima are either at rest or the value of an observation, and a window of fewer than 2^32 observations
      with network feedback in it is not taken for an empty one. */
  lemma {:induction false} WindowAttained(s: AbrState, obs: seq<AbrObservation>)
    requires s.windowLossMax == 0.0 && s.windowRttMax == 0 && s.windowObsCount == 0
    ensures var w := ObserveAll(s, obs);
      && w.windowLossMax >= 0.0
      && (w.windowLossMax == 0.0
          || exists k :: 0 <= k < |obs| && obs[k].Network? && obs[k].lossPct == Some(w.windowLossMax))
      && (w.windowRttMax == 0
          || exists k :: 0 <= k < |obs| && obs[k].Network? && obs[k].rttMs == Some(w.windowRttMax))
      && (|obs| < U32_MODULUS ==> w.windowObsCount <= |obs|)
      && (|obs| < U32_MODULUS && (exists k :: 0 <= k < |obs| && obs[k].Network?) ==> w.windowObsCount > 0)
  {
    if obs != [] {
      var init, last := obs[..|obs| - 1], obs[|obs| - 1];
      WindowAttained(s, init);
      var v, w := ObserveAll(s, init), ObserveAll(s, obs);
      assert w == ObserveSpec(v, last);
      forall k | 0 <= k < |init| ensures init[k] == obs[k] {
      }
      if v.windowLossMax != 0.0 {
        var k :| 0 <= k < |init| && init[k].Network? && init[k].lossPct == Some(v.windowLossMax);
        assert obs[k].Network? && obs[k].lossPct == Some(v.windowLossMax);
      }
      if v.windowRttMax != 0 {
        var k :| 0 <= k < |init| && init[k].Network? && init[k].rttMs == Some(v.windowRttMax);
        assert obs[k].Network? && obs[k].rttMs == Some(v.windowRttMax);
      }
    }
  }

  /** The tick's window had network feedback, and some of it was bad (with a threshold of zero, any is). */
  ghost predicate Congested(t: AbrTunables, obs: seq<AbrObservation>) {
    && (exists k :: 0 <= k < |obs| && obs[k].Network?)
    && (|| t.lossPctRecovery <= 0.0
        || t.rttMsRecovery == 0
        || (exists k :: 0 <= k < |obs| && obs[k].Network? && obs[k].lossPct.Some? && obs[k].lossPct.value >= t.lossPctRecovery)
        || (exists k :: 0 <= k < |obs| && obs[k].Network? && obs[k].rttMs.Some? && obs[k].rttMs.value >= t.rttMsRecovery))
  }

  lemma RecoveryClassified(s: AbrState, input: TickInput)
    requires Inv(s) && |input.obs| < U32_MODULUS
    ensures var w := ObserveAll(s, input.obs);
      && (Congested(s.tunables, input.obs) ==> ClassifySpec(w, input.now).Recovery?)
      && (s.zone.Comfort? && ClassifySpec(w, input.now).Recovery? ==> Congested(s.tunables, input.obs))
  {
    WindowHolds(s, input.obs);
    WindowAttained(s, input.obs);
    var w, obs := ObserveAll(s, input.obs), input.obs;
    if s.zone.Comfort? && ClassifySpec(w, input.now).Recovery? {
      if w.windowLossMax >= s.tunables.lossPctRecovery > 0.0 {
        var k :| 0 <= k < |obs| && obs[k].Network? && obs[k].lossPct == Some(w.windowLossMax);
        assert obs[k].lossPct.value >= s.tunables.lossPctRecovery;
      } else if w.windowRttMax >= s.tunables.rttMsRecovery > 0 {
        var k :| 0 <= k < |obs| && obs[k].Network? && obs[k].rttMs == Some(w.windowRttMax);
        assert obs[k].rttMs.value >= s.tunables.rttMsRecovery;
      }
    }
  }

  /** Congestion cuts at the very next tick, whatever the gates, and nothing else does. */
  lemma {:induction false} CongestionCutsAtOnce(s: AbrState, input: TickInput)
    requires Inv(s) && |input.obs| < U32_MODULUS
    ensures var next := TickSpec(ObserveAll(s, input.obs), input.now).0;
      && (Congested(s.tunables, input.obs) ==> next.zone.Recovery?)
      && (s.zone.Comfort? && next.zone.Recovery? ==> Congested(s.tunables, input.obs))
  {
    RecoveryClassified(s, input);
  }

  /** What is left of a tick once Probe is known to be unreachable: a machine of two zones. */
  ghost predicate TwoZoneStep(s: AbrState, input: TickInput, next: AbrState) {
    var waited := Since(input.now, s.lastTransitionAt) >= s.tunables.antiThrash;
    if next.zone != s.zone then
      && next.lastTransitionAt == input.now && next.pendingStreak == 0
      && (next.zone.Comfort? ==>
            waited && Healthy(s.tunables, input.obs) && s.pendingStreak + 1 >= s.tunables.hysteresisTicks)
    else
      && next.lastTransitionAt == s.lastTransitionAt
      && (|| next.pendingStreak == 0
          || (next.pendingStreak == s.pendingStreak && !waited)
          || (next.pendingStreak == s.pendingStreak + 1 && waited && Healthy(s.tunables, input.obs)))
  }

  lemma TwoZoneRefinement(s: AbrState, input: TickInput)
    requires Inv(s)
    ensures TwoZoneStep(s, input, TickSpec(ObserveAll(s, input.obs), input.now).0)
  {
    hide Step, ObserveAll;
    var w := ObserveAll(s, input.obs);
    assert ClassifySpec(w, input.now).Comfort? && s.zone.Recovery? ==> Healthy(s.tunables, input.obs) by {
      WindowHolds(s, input.obs);
    }
  }

  // ---------- Returning to Comfort ----------

  /** The tick's window had network feedback, all of it was good, and the thresholds leave room for good feedback. */
  ghost predicate Calm(t: AbrTunables, obs: seq<AbrObservation>) {
    Healthy(t, obs) && !Congested(t, obs) && t.lossPctComfort > 0.0
  }

  lemma ComfortClassified(s: AbrState, input: TickInput)
    requires Inv(s) && |input.obs| < U32_MODULUS
    ensures var observed := ClassifySpec(ObserveAll(s, input.obs), input.now);
      && (Calm(s.tunables, input.obs) ==> observed.Comfort?)
      && (s.zone.Recovery? && observed.Comfort? ==> Calm(s.tunables, input.obs))
  {
    hide ObserveAll, CutOnce;
    var w, obs := ObserveAll(s, input.obs), input.obs;
    WindowHolds(s, obs);
    WindowAttained(s, obs);
    if Healthy(s.tunables, obs) {
      if w.windowLossMax != 0.0 {
        var k :| 0 <= k < |obs| && obs[k].Network? && obs[k].lossPct == Some(w.windowLossMax);
        assert obs[k].lossPct.value < s.tunables.lossPctComfort;
      }
      if w.windowRttMax != 0 {
        var k :| 0 <= k < |obs| && obs[k].Network? && obs[k].rttMs == Some(w.windowRttMax);
        assert obs[k].rttMs.value < s.tunables.rttMsRecovery;
      }
    }
  }

  /** The whole of a tick in Recovery, on any window of fewer than 2^32 observations: a calm window counts once the
      anti-thrash wait is over and at the threshold ends the stay, before the wait is over it changes nothing, and
      any other window starts the count again. */
  lemma {:induction false} RecoveryStep(s: AbrState, input: TickInput)
    requires Inv(s) && s.zone.Recovery? && |input.obs| < U32_MODULUS
    ensures var (next, d) := TickSpec(ObserveAll(s, input.obs), input.now);
      var waited := Since(input.now, s.lastTransitionAt) >= s.tunables.antiThrash;
      if !Calm(s.tunables, input.obs) then
        next == s.(pendingZone := None, pendingStreak := 0)
      else if !waited then
        next == s
      else if s.pendingStreak + 1 < s.tunables.hysteresisTicks then
        next == s.(pendingZone := Some(Comfort), pendingStreak := s.pendingStreak + 1)
      else
        && next == s.(zone := Comfort, currentKbps := s.ceilingKbps, lastTransitionAt := input.now,
                      pendingZone := None, pendingStreak := 0)
        && d == AbrDecision(Comfort, true, s.ceilingKbps, Recovered)
  {
    hide ObserveAll, Calm, Step, ClassifySpec, StreakWith, CutOnce, SaturatingSub, SaturatingAdd;
    var w := ObserveAll(s, input.obs);
    ComfortClassified(s, input);
    NeverProbes(s, input);
    StreakGrows(w);
  }

  lemma StreakGrows(s: AbrState)
    requires PendingRight(s)
    ensures s.pendingStreak < U32_MAX ==> StreakWith(s, Comfort) == s.pendingStreak + 1
    ensures s.pendingStreak < s.tunables.hysteresisTicks || s.pendingStreak == 0
  {
  }

  lemma NeverProbes(s: AbrState, input: TickInput)
    requires Inv(s)
    ensures !ClassifySpec(ObserveAll(s, input.obs), input.now).Probe?
  {
    hide ObserveAll;
  }

  /** `n` ticks from `i` on are calm, after the anti-thrash wait of the stay in Recovery that `i` is in. */
  ghost predicate CalmTicks(s0: AbrState, run: seq<TickInput>, i: nat, n: nat)
    requires s0.floorKbps <= s0.ceilingKbps && i + n <= |run|
  {
    forall j :: i <= j < i + n ==>
      && |run[j].obs| < U32_MODULUS && Calm(s0.tunables, run[j].obs)
      && Since(run[j].now, StateAt(s0, run, i).lastTransitionAt) >= s0.tunables.antiThrash
  }

  lemma {:induction false} CalmCounts(s0: AbrState, run: seq<TickInput>, i: nat, n: nat)
    requires Inv(s0) && i + n <= |run| && StateAt(s0, run, i).zone.Recovery? && CalmTicks(s0, run, i, n)
    ensures var s := StateAt(s0, run, i + n);
      || s.zone.Comfort?
      || (s.pendingStreak >= n && s.zone.Recovery? && s.lastTransitionAt == StateAt(s0, run, i).lastTransitionAt)
  {
    hide TickSpec, ObserveAll, Calm, CutOnce, PendingRight;
    if n > 0 {
      CalmCounts(s0, run, i, n - 1);
      var j := i + n - 1;
      InvAlways(s0, run, j);
      if StateAt(s0, run, j).zone.Comfort? {
        CalmKeepsComfort(StateAt(s0, run, j), run[j]);
      } else {
        RecoveryStep(StateAt(s0, run, j), run[j]);
      }
    }
  }

  lemma CalmKeepsComfort(s: AbrState, input: TickInput)
    requires Inv(s) && s.zone.Comfort? && |input.obs| < U32_MODULUS && Calm(s.tunables, input.obs)
    ensures TickSpec(ObserveAll(s, input.obs), input.now).0.zone.Comfort?
  {
    hide TickSpec, ObserveAll;
    CongestionCutsAtOnce(s, input);
    InvStep(s, input);
  }

  /** After `hysteresisTicks` calm ticks (at least one) past the anti-thrash wait, the controller is back in Comfort
      and asks for the full ceiling. */
  lemma {:induction false} ReturnsToComfort(s0: AbrState, run: seq<TickInput>, i: nat, n: nat)
    requires Inv(s0) && n == Max(1, s0.tunables.hysteresisTicks) && i + n <= |run|
    requires StateAt(s0, run, i).zone.Recovery? && CalmTicks(s0, run, i, n)
    ensures StateAt(s0, run, i + n).zone.Comfort?
    ensures var d := DecisionAt(s0, run, i + n - 1); d.zone.Comfort? && d.targetBitrateKbps == s0.ceilingKbps
  {
    hide TickSpec, ObserveAll, Calm, CutOnce;
    CalmCounts(s0, run, i, n);
    InvAlways(s0, run, i + n);
    InvAlways(s0, run, i + n - 1);
    InvStep(StateAt(s0, run, i + n - 1), run[i + n - 1]);
  }

  /** Tick `e` of the run took the controller from Comfort into Recovery, where it has been up to `i`. */
  ghost predicate InRecoverySince(s0: AbrState, run: seq<TickInput>, e: int, i: nat)
    requires s0.floorKbps <= s0.ceilingKbps && i <= |run|
  {
    && 0 <= e < i
    && StateAt(s0, run, e).zone.Comfort?
    && (forall j :: e < j <= i ==> StateAt(s0, run, j).zone.Recovery?)
    && StateAt(s0, run, i).lastTransitionAt == run[e].now
    && StateAt(s0, run, i).pendingStreak < i - e
  }

  /** The pending streak counts ticks just past, each healthy and each after the anti-thrash wait. */
  ghost predicate StreakEarned(s0: AbrState, run: seq<TickInput>, i: nat)
    requires s0.floorKbps <= s0.ceilingKbps && i <= |run|
  {
    var s := StateAt(s0, run, i);
    && s.pendingStreak <= i
    && (forall j :: i - s.pendingStreak <= j < i ==>
          Healthy(s0.tunables, run[j].obs) && run[j].now >= s.lastTransitionAt + s0.tunables.antiThrash)
  }

  lemma {:induction false} RecoveryHistory(s0: AbrState, run: seq<TickInput>, i: nat)
    requires Inv(s0) && s0.zone.Comfort? && i <= |run|
    requires ClockMonotone(s0.lastTransitionAt, run)
    ensures StreakEarned(s0, run, i)
    ensures StateAt(s0, run, i).zone.Recovery? ==> exists e :: InRecoverySince(s0, run, e, i)
    ensures StateAt(s0, run, i).lastTransitionAt <= if i == 0 then s0.lastTransitionAt else run[i - 1].now
  {
    hide TickSpec, ObserveAll, Healthy;
    if i > 0 {
      RecoveryHistory(s0, run, i - 1);
      InvAlways(s0, run, i - 1);
      InvAlways(s0, run, i);
      var s, next := StateAt(s0, run, i - 1), StateAt(s0, run, i);
      TwoZoneRefinement(s, run[i - 1]);
      if next.zone.Recovery? {
        if s.zone.Comfort? {
          assert InRecoverySince(s0, run, i - 1, i);
        } else {
          var e :| InRecoverySince(s0, run, e, i - 1);
          assert InRecoverySince(s0, run, e, i);
        }
      }
    }
  }

  /** The last `hysteresisTicks` ticks up to `i` (at least one) were all spent in the stay in Recovery that
      tick `e` began, all healthy, and all at least `antiThrash` after it began. */
  ghost predicate ExitEarned(s0: AbrState, run: seq<TickInput>, e: int, i: nat)
    requires s0.floorKbps <= s0.ceilingKbps && i < |run|
  {
    var h := Max(1, s0.tunables.hysteresisTicks);
    && InRecoverySince(s0, run, e, i)
    && h <= i - e
    && (forall j :: i - h < j <= i ==>
          Healthy(s0.tunables, run[j].obs) && run[j].now >= run[e].now + s0.tunables.antiThrash)
  }

  lemma RecoveryExit(s0: AbrState, run: seq<TickInput>, i: nat)
    requires Inv(s0) && s0.zone.Comfort? && i < |run|
    requires ClockMonotone(s0.lastTransitionAt, run)
    ensures StateAt(s0, run, i).zone.Recovery? && StateAt(s0, run, i + 1).zone.Comfort? ==>
      exists e :: ExitEarned(s0, run, e, i)
  {
    hide TickSpec, ObserveAll, Healthy;
    if StateAt(s0, run, i).zone.Recovery? && StateAt(s0, run, i + 1).zone.Comfort? {
      RecoveryHistory(s0, run, i);
      InvAlways(s0, run, i);
      TwoZoneRefinement(StateAt(s0, run, i), run[i]);
      var e :| InRecoverySince(s0, run, e, i);
      assert ExitEarned(s0, run, e, i);
    }
  }

  // ---------- How often the zone can change ----------

  /** Zone changes, and changes back to Comfort, among the ticks `a..b`. */
  ghost function Changes(s0: AbrState, run: seq<TickInput>, a: nat, b: nat): nat
    requires s0.floorKbps <= s0.ceilingKbps && a <= b <= |run|
  {
    if a == b then 0 else Changes(s0, run, a, b - 1) + (if DecisionAt(s0, run, b - 1).zoneChanged then 1 else 0)
  }

  ghost function Recoveries(s0: AbrState, run: seq<TickInput>, a: nat, b: nat): nat
    requires s0.floorKbps <= s0.ceilingKbps && a <= b <= |run|
  {
    if a == b then 0 else
      Recoveries(s0, run, a, b - 1) +
      (if DecisionAt(s0, run, b - 1).zoneChanged && DecisionAt(s0, run, b - 1).zone.Comfort? then 1 else 0)
  }

  ghost function InRecovery(s: AbrState): int {
    if s.zone.Recovery? then 1 else 0
  }

  lemma {:induction false} ChangesAlternate(s0: AbrState, run: seq<TickInput>, a: nat, b: nat)
    requires Inv(s0) && a <= b <= |run|
    ensures Changes(s0, run, a, b)
         == 2 * Recoveries(s0, run, a, b) + InRecovery(StateAt(s0, run, b)) - InRecovery(StateAt(s0, run, a))
  {
    hide TickSpec;
    if a < b {
      ChangesAlternate(s0, run, a, b - 1);
      InvAlways(s0, run, b - 1);
      InvStep(StateAt(s0, run, b - 1), run[b - 1]);
    }
  }

  /** A change back to Comfort comes `antiThrash` at least after the change before it. */
  lemma RecoveryWaits(s0: AbrState, run: seq<TickInput>, i: nat)
    requires Inv(s0) && s0.zone.Comfort? && i < |run|
    requires ClockMonotone(s0.lastTransitionAt, run)
    ensures var last, next, d := StateAt(s0, run, i).lastTransitionAt, StateAt(s0, run, i + 1).lastTransitionAt, DecisionAt(s0, run, i);
      && last <= next
      && (d.zoneChanged && d.zone.Comfort? ==> next == run[i].now >= last + s0.tunables.antiThrash)
  {
    RecoveryHistory(s0, run, i);
    InvAlways(s0, run, i);
    InvStep(StateAt(s0, run, i), run[i]);
    TwoZoneRefinement(StateAt(s0, run, i), run[i]);
  }

  /** `n` events, the first not before `from` and each `wait` at least after the one before, may have ended by `last`. */
  ghost predicate Spaced(n: nat, wait: nat, from: int, last: int) {
    n > 0 ==> last >= from + (n - 1) * wait
  }

  lemma OneMoreSpaced(n: nat, wait: nat, from: int, last: int, next: int)
    requires Spaced(n, wait, from, last) && next >= last
    ensures Spaced(n, wait, from, next)
    ensures next >= from && next >= last + wait ==> Spaced(n + 1, wait, from, next)
  {
    assert n * wait == (n - 1) * wait + wait;
  }

  lemma {:induction false} RecoveriesAreSpaced(s0: AbrState, run: seq<TickInput>, a: nat, b: nat)
    requires Inv(s0) && s0.zone.Comfort? && a <= b <= |run|
    requires ClockMonotone(s0.lastTransitionAt, run)
    ensures Recoveries(s0, run, a, b) > 0 ==> Spaced(
      Recoveries(s0, run, a, b), s0.tunables.antiThrash, run[a].now, StateAt(s0, run, b).lastTransitionAt)
  {
    hide StateAt, DecisionAt, Spaced, CutOnce, PendingRight;
    if a < b {
      RecoveriesAreSpaced(s0, run, a, b - 1);
      RecoveryWaits(s0, run, b - 1);
      var n, last := Recoveries(s0, run, a, b - 1), StateAt(s0, run, b - 1).lastTransitionAt;
      NoneSpaced(s0.tunables.antiThrash, run[a].now, last);
      OneMoreSpaced(n, s0.tunables.antiThrash, run[a].now, last, StateAt(s0, run, b).lastTransitionAt);
    }
  }

  lemma NoneSpaced(wait: nat, from: int, last: int)
    ensures Spaced(0, wait, from, last)
  {
  }

  /** Although Recovery bypasses both gates, a stretch of time `span` sees at most
      `2 * (span / antiThrash) + 3` zone changes. */
  lemma ZoneChangesBounded(s0: AbrState, run: seq<TickInput>, a: nat, b: nat, span: nat)
    requires Inv(s0) && s0.zone.Comfort? && a < b <= |run|
    requires ClockMonotone(s0.lastTransitionAt, run)
    requires s0.tunables.antiThrash > 0
    requires run[b - 1].now - run[a].now <= span
    ensures Changes(s0, run, a, b) <= 2 * (span / s0.tunables.antiThrash) + 3
  {
    hide TickSpec, ObserveAll, Healthy;
    ChangesAlternate(s0, run, a, b);
    RecoveriesAreSpaced(s0, run, a, b);
    RecoveryHistory(s0, run, b);
    var n, A := Recoveries(s0, run, a, b), s0.tunables.antiThrash;
    if n > 0 {
      assert (n - 1) * A <= span;
      QuotientBound(n - 1, A, span);
    }
  }
}
