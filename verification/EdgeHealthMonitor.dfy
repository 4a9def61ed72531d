/** The long-running edge-health monitor (`agent/src/edge_health_monitor.rs`).

    The monitor sleeps, probes and reacts to tunnel events in one select loop. An `Input` is one turn of
    that loop: a bus event, or the sleep running out with the probe's outcome. Which inputs come, and
    when, is arbitrary; `Admissible` only says that the clock does not run backwards and that a sleep
    never ends early. Times are seconds.
 */
module EdgeHealthMonitor {
  import opened Common
  import opened HealthCheck

  const INITIAL_INTERVAL: nat := 30
  const MAX_INTERVAL: nat := 120
  const FAIL_THRESHOLD: nat := 3
  const RESPAWN_THROTTLE: nat := 60

  datatype BusEvent = UrlChanged(url: string) | StepReady | StepDegraded | OtherEvent

  datatype Input =
    | FromBus(event: BusEvent, at: int)
    | SleepOver(at: int, outcome: ProbeOutcome, done: int)
  {
    /** When the turn is over: a probe takes from `at` to `done`. */
    function End(): int {
      if FromBus? then at else done
    }
  }

  datatype Output = EdgeUnhealthy(url: string, failures: nat) | Respawn | SyntheticReady(url: string)

  datatype Monitor = Monitor(
    url: Option<string>, engaged: bool, pendingRecovery: bool, failures: nat,
    lastRespawnAt: Option<int>, interval: nat, deadline: int)

  // ---------- What each turn does to the monitor ----------

  function InitialSpec(now: int): Monitor {
    Monitor(None, false, false, 0, None, INITIAL_INTERVAL, now + INITIAL_INTERVAL)
  }

  function NextBackoff(current: nat): (next: nat)
    ensures current <= MAX_INTERVAL ==> current <= next <= MAX_INTERVAL
  {
    Min(current * 2, MAX_INTERVAL)
  }

  predicate Probes(s: Monitor, input: Input) {
    input.SleepOver? && s.engaged && s.url.Some?
  }

  predicate FailedProbe(s: Monitor, input: Input) {
    Probes(s, input) && !input.outcome.Ok?
  }

  /** This turn is the third failure in a row. */
  predicate ThresholdReached(s: Monitor, input: Input) {
    FailedProbe(s, input) && s.failures + 1 >= FAIL_THRESHOLD
  }

  /** This turn would fire a respawn, were the last one not too recent. */
  predicate Throttled(s: Monitor, input: Input) {
    && ThresholdReached(s, input)
    && s.lastRespawnAt.Some? && Since(input.done, s.lastRespawnAt.value) < RESPAWN_THROTTLE
  }

  predicate Fires(s: Monitor, input: Input) {
    ThresholdReached(s, input) && !Throttled(s, input)
  }

  function Next(s: Monitor, input: Input): Monitor {
    match input
    case FromBus(UrlChanged(url), _) =>
      s.(url := Some(url), failures := 0, interval := INITIAL_INTERVAL, engaged := false, pendingRecovery := false)
    case FromBus(StepReady, _) => s.(engaged := true, pendingRecovery := false)
    case FromBus(StepDegraded, _) => s.(engaged := true, pendingRecovery := true)
    case FromBus(OtherEvent, _) => s
    case SleepOver(_, outcome, done) =>
      var probed :=
        if !Probes(s, input) then s
        else if outcome.Ok? then s.(pendingRecovery := false, failures := 0, interval := INITIAL_INTERVAL)
        else if !ThresholdReached(s, input) then s.(failures := s.failures + 1, interval := NextBackoff(s.interval))
        else s.(failures := 0, interval := INITIAL_INTERVAL,
                lastRespawnAt := if Throttled(s, input) then s.lastRespawnAt else Some(done));
      probed.(deadline := done + probed.interval)
  }

  function Outputs(s: Monitor, input: Input): seq<Output> {
    if Fires(s, input) then [EdgeUnhealthy(s.url.value, s.failures + 1), Respawn]
    else if Probes(s, input) && input.outcome.Ok? && s.pendingRecovery then [SyntheticReady(s.url.value)]
    else []
  }

  // ---------- The monitor ----------

  class EdgeMonitor {
    var currentUrl: Option<string>
    var engaged: bool
    var degradedPendingRecovery: bool
    var consecutiveFailures: nat
    var lastRespawnAt: Option<int>
    var interval: nat
    var deadline: int

    function View(): Monitor
      reads this
    {
      Monitor(currentUrl, engaged, degradedPendingRecovery, consecutiveFailures, lastRespawnAt, interval, deadline)
    }

    constructor (now: int)
      ensures View() == InitialSpec(now)
    {
      currentUrl, engaged, degradedPendingRecovery := None, false, false;
      consecutiveFailures, lastRespawnAt, interval := 0, None, INITIAL_INTERVAL;
      deadline := now + INITIAL_INTERVAL;
    }

    method RunProbe(url: string, outcome: ProbeOutcome, done: int) returns (out: seq<Output>)
      requires engaged && currentUrl == Some(url)
      modifies this`degradedPendingRecovery, this`consecutiveFailures, this`lastRespawnAt, this`interval
      ensures View().(deadline := done + interval) == Next(old(View()), SleepOver(done, outcome, done))
      ensures out == Outputs(old(View()), SleepOver(done, outcome, done))
    {
      out := [];
      if outcome.Ok? {
        if degradedPendingRecovery {
          out := [SyntheticReady(url)];
          degradedPendingRecovery := false;
        }
        consecutiveFailures := 0;
        interval := INITIAL_INTERVAL;
        return;
      }
      consecutiveFailures := consecutiveFailures + 1;
      interval := NextBackoff(interval);
      if consecutiveFailures >= FAIL_THRESHOLD {
        var throttled := lastRespawnAt.Some? && Since(done, lastRespawnAt.value) < RESPAWN_THROTTLE;
        if !throttled {
          out := [EdgeUnhealthy(url, consecutiveFailures), Respawn];
          lastRespawnAt := Some(done);
        }
        consecutiveFailures := 0;
        interval := INITIAL_INTERVAL;
      }
    }

    method Turn(input: Input) returns (out: seq<Output>)
      modifies this
      ensures View() == Next(old(View()), input)
      ensures out == Outputs(old(View()), input)
    {
      out := [];
      match input
      case FromBus(UrlChanged(url), _) =>
        currentUrl := Some(url);
        consecutiveFailures := 0;
        interval := INITIAL_INTERVAL;
        engaged := false;
        degradedPendingRecovery := false;
      case FromBus(StepReady, _) =>
        engaged := true;
        degradedPendingRecovery := false;
      case FromBus(StepDegraded, _) =>
        engaged := true;
        degradedPendingRecovery := true;
      case FromBus(OtherEvent, _) =>
      case SleepOver(_, outcome, done) =>
        if engaged && currentUrl.Some? {
          out := RunProbe(currentUrl.value, outcome, done);
        }
        deadline := done + interval;
    }

    /** The select loop, up to the turn at which it is shut down. */
    method Run(inputs: seq<Input>) returns (outs: seq<seq<Output>>)
      modifies this
      ensures View() == StateAt(old(View()), inputs, |inputs|)
      ensures |outs| == |inputs|
      ensures forall i :: 0 <= i < |inputs| ==> outs[i] == Outputs(StateAt(old(View()), inputs, i), inputs[i])
    {
      hide Next, Outputs;
      outs := [];
      for i := 0 to |inputs|
        invariant View() == StateAt(old(View()), inputs, i)
        invariant |outs| == i
        invariant forall k :: 0 <= k < i ==> outs[k] == Outputs(StateAt(old(View()), inputs, k), inputs[k])
      {
        var out := Turn(inputs[i]);
        outs := outs + [out];
      }
    }
  }

  // ---------- Runs ----------

  function StateAt(s0: Monitor, inputs: seq<Input>, i: nat): Monitor
    requires i <= |inputs|
  {
    if i == 0 then s0 else Next(StateAt(s0, inputs, i - 1), inputs[i - 1])
  }

  ghost predicate Admissible(t0: int, inputs: seq<Input>) {
    && (forall i :: 0 <= i < |inputs| ==> t0 <= inputs[i].at <= inputs[i].End())
    && (forall i, j :: 0 <= i < j < |inputs| ==> inputs[i].End() <= inputs[j].at)
    && (forall i :: 0 <= i < |inputs| && inputs[i].SleepOver? ==>
          StateAt(InitialSpec(t0), inputs, i).deadline <= inputs[i].at)
  }

  function BackoffOf(failures: nat): nat {
    if failures == 0 then INITIAL_INTERVAL else 2 * BackoffOf(failures - 1)
  }

  /** The earliest the sleep now running can end, counted from the last respawn. */
  function WaitSinceRespawn(failures: nat): nat {
    if failures == 0 then INITIAL_INTERVAL else WaitSinceRespawn(failures - 1) + BackoffOf(failures)
  }

  ghost predicate Inv(s: Monitor) {
    && s.failures < FAIL_THRESHOLD
    && s.interval == BackoffOf(s.failures)
    && (s.lastRespawnAt.Some? ==> s.deadline >= s.lastRespawnAt.value + WaitSinceRespawn(s.failures))
  }

  lemma InvStep(s: Monitor, input: Input)
    requires Inv(s)
    requires input.SleepOver? ==> s.deadline <= input.at <= input.done
    ensures Inv(Next(s, input))
    ensures ThresholdReached(s, input) && s.lastRespawnAt.Some? ==> input.done >= s.lastRespawnAt.value + 210
  {
    assert BackoffOf(1) == 60 && BackoffOf(2) == 120;
    assert WaitSinceRespawn(1) == 90 && WaitSinceRespawn(2) == 210;
  }

  /** Between turns the sleep interval is 30 seconds doubled once per failure, of which there are at most two. */
  lemma {:induction false} InvAlways(t0: int, inputs: seq<Input>, i: nat)
    requires Admissible(t0, inputs) && i <= |inputs|
    ensures Inv(StateAt(InitialSpec(t0), inputs, i))
  {
    if i > 0 {
      InvAlways(t0, inputs, i - 1);
      InvStep(StateAt(InitialSpec(t0), inputs, i - 1), inputs[i - 1]);
    }
  }

  /** The throttle never acts: whenever the third failure in a row comes, the respawn fires. */
  lemma NeverThrottled(t0: int, inputs: seq<Input>, i: nat)
    requires Admissible(t0, inputs) && i < |inputs|
    ensures !Throttled(StateAt(InitialSpec(t0), inputs, i), inputs[i])
  {
    InvAlways(t0, inputs, i);
    InvStep(StateAt(InitialSpec(t0), inputs, i), inputs[i]);
  }

  // ---------- Respawns are far apart ----------

  lemma {:induction false} RespawnRemembered(t0: int, inputs: seq<Input>, i: nat, j: nat)
    requires Admissible(t0, inputs) && i < j <= |inputs|
    requires Fires(StateAt(InitialSpec(t0), inputs, i), inputs[i])
    ensures var last := StateAt(InitialSpec(t0), inputs, j).lastRespawnAt;
      last.Some? && last.value >= inputs[i].done
  {
    if j > i + 1 {
      RespawnRemembered(t0, inputs, i, j - 1);
      assert inputs[i].End() <= inputs[j - 1].at <= inputs[j - 1].End();
    }
  }

  /** Two respawns are at least 210 seconds apart: three failed probes, 30, 60 and 120 seconds after the
      respawn, the failure and the failure before them. */
  lemma RespawnsApart(t0: int, inputs: seq<Input>, i: nat, j: nat)
    requires Admissible(t0, inputs) && i < j < |inputs|
    ensures var s0 := InitialSpec(t0);
      Respawn in Outputs(StateAt(s0, inputs, i), inputs[i]) && Respawn in Outputs(StateAt(s0, inputs, j), inputs[j]) ==>
        inputs[j].done >= inputs[i].done + 210
  {
    var s0 := InitialSpec(t0);
    if Fires(StateAt(s0, inputs, i), inputs[i]) && Fires(StateAt(s0, inputs, j), inputs[j]) {
      RespawnRemembered(t0, inputs, i, j);
      InvAlways(t0, inputs, j);
      InvStep(StateAt(s0, inputs, j), inputs[j]);
    }
  }

  // ---------- When it probes, and which URL ----------

  /** A sleep is set when the one before it has run out, and lasts 30 seconds doubled once for each failure that
      counts then; nothing else moves its end. */
  lemma SleepsLast(t0: int, inputs: seq<Input>, i: nat)
    requires Admissible(t0, inputs) && i < |inputs|
    ensures var s, next := StateAt(InitialSpec(t0), inputs, i), StateAt(InitialSpec(t0), inputs, i + 1);
      next.deadline ==
        if inputs[i].FromBus? then s.deadline
        else inputs[i].done + (if next.failures == 0 then 30 else if next.failures == 1 then 60 else 120)
    ensures StateAt(InitialSpec(t0), inputs, 0).deadline == t0 + 30
  {
    InvAlways(t0, inputs, i + 1);
    assert BackoffOf(1) == 60 && BackoffOf(2) == 120;
  }

  /** Input `u` is the latest change of URL before turn `i`. */
  ghost predicate LatestUrl(inputs: seq<Input>, u: nat, i: nat)
    requires i <= |inputs|
  {
    && u < i && inputs[u].FromBus? && inputs[u].event.UrlChanged?
    && (forall k :: u < k < i ==> !(inputs[k].FromBus? && inputs[k].event.UrlChanged?))
  }

  /** Input `r` reported the tunnel Ready or Degraded, and the URL has not changed since. */
  ghost predicate ReportedSinceUrl(inputs: seq<Input>, r: nat, i: nat)
    requires i <= |inputs|
  {
    && r < i && inputs[r].FromBus? && (inputs[r].event.StepReady? || inputs[r].event.StepDegraded?)
    && (forall k :: r < k < i ==> !(inputs[k].FromBus? && inputs[k].event.UrlChanged?))
  }

  /** Turn `i` is a sleep that runs out when there is a URL that has been reported Ready or Degraded. */
  ghost predicate ProbeDue(inputs: seq<Input>, i: nat)
    requires i < |inputs|
  {
    && inputs[i].SleepOver?
    && (exists r: nat :: ReportedSinceUrl(inputs, r, i)) && (exists u: nat :: LatestUrl(inputs, u, i))
  }

  ghost predicate FailureDue(inputs: seq<Input>, i: nat)
    requires i < |inputs|
  {
    ProbeDue(inputs, i) && !inputs[i].outcome.Ok?
  }

  /** A sleep that runs out leads to a probe exactly when the tunnel was reported Ready or Degraded after the
      latest change of URL, and the probe goes to that URL. */
  lemma {:induction false} ProbeGate(t0: int, inputs: seq<Input>, i: nat)
    requires i <= |inputs|
    ensures var s := StateAt(InitialSpec(t0), inputs, i);
      && (s.engaged <==> exists r: nat :: ReportedSinceUrl(inputs, r, i))
      && (s.url.Some? <==> exists u: nat :: LatestUrl(inputs, u, i))
      && (forall u: nat :: LatestUrl(inputs, u, i) ==> s.url == Some(inputs[u].event.url))
  {
    if i > 0 {
      var p: nat := i - 1;
      ProbeGate(t0, inputs, p);
      var last := inputs[p];
      if last.FromBus? && last.event.UrlChanged? {
        assert LatestUrl(inputs, p, i);
      } else {
        forall u: nat ensures LatestUrl(inputs, u, i) <==> LatestUrl(inputs, u, p) {}
        if u: nat :| LatestUrl(inputs, u, p) {
          assert LatestUrl(inputs, u, i);
        }
        if last.FromBus? && (last.event.StepReady? || last.event.StepDegraded?) {
          assert ReportedSinceUrl(inputs, p, i);
        }
        if r: nat :| ReportedSinceUrl(inputs, r, p) {
          assert ReportedSinceUrl(inputs, r, i);
        }
        if r: nat :| ReportedSinceUrl(inputs, r, i) {
          assert r < p ==> ReportedSinceUrl(inputs, r, p);
        }
      }
    }
  }

  lemma ProbesDue(t0: int, inputs: seq<Input>, i: nat)
    requires i < |inputs|
    ensures Probes(StateAt(InitialSpec(t0), inputs, i), inputs[i]) <==> ProbeDue(inputs, i)
  {
    ProbeGate(t0, inputs, i);
  }

  // ---------- One respawn for every three failures ----------

  /** Failed probes among the turns `a..b`, by what came in. */
  ghost function Failures(inputs: seq<Input>, a: nat, b: nat): nat
    requires a <= b <= |inputs|
  {
    if a == b then 0 else Failures(inputs, a, b - 1) + (if FailureDue(inputs, b - 1) then 1 else 0)
  }

  /** Respawns asked for in the turns `a..b`, by what went out. */
  ghost function Respawns(s0: Monitor, inputs: seq<Input>, a: nat, b: nat): nat
    requires a <= b <= |inputs|
  {
    if a == b then 0 else
      Respawns(s0, inputs, a, b - 1) + multiset(Outputs(StateAt(s0, inputs, b - 1), inputs[b - 1]))[Respawn]
  }

  /** The turn starts the count of failures afresh: a good probe, or a new tunnel URL. */
  ghost predicate Resets(inputs: seq<Input>, i: nat)
    requires i < |inputs|
  {
    || (inputs[i].FromBus? && inputs[i].event.UrlChanged?)
    || (ProbeDue(inputs, i) && inputs[i].outcome.Ok?)
  }

  /** From the start or a reset, up to any later turn before the next reset, `n` failed probes have asked for
      exactly `n / 3` respawns, and the counter holds the rest. */
  lemma {:induction false} RespawnPerThreeFailures(t0: int, inputs: seq<Input>, a: nat, b: nat)
    requires Admissible(t0, inputs) && a <= b <= |inputs|
    requires a == 0 || Resets(inputs, a - 1)
    requires forall i :: a <= i < b ==> !Resets(inputs, i)
    ensures var s0 := InitialSpec(t0); var n := Failures(inputs, a, b);
      && Respawns(s0, inputs, a, b) == n / 3
      && StateAt(s0, inputs, b).failures == n % 3
  {
    hide Next, Outputs, BackoffOf, WaitSinceRespawn, ProbeDue;
    if a < b {
      RespawnPerThreeFailures(t0, inputs, a, b - 1);
      RespawnAnnounced(t0, inputs, b - 1, "", 0);
    } else if a > 0 {
      ProbesDue(t0, inputs, a - 1);
      FailureCounts(StateAt(InitialSpec(t0), inputs, a - 1), inputs[a - 1]);
    }
  }

  lemma FailureCounts(s: Monitor, input: Input)
    ensures (input.FromBus? && input.event.UrlChanged?) || (Probes(s, input) && input.outcome.Ok?) ==> Next(s, input).failures == 0
    ensures !(input.FromBus? && input.event.UrlChanged?) && !(Probes(s, input) && input.outcome.Ok?) ==>
      Next(s, input).failures == if ThresholdReached(s, input) then 0 else s.failures + (if FailedProbe(s, input) then 1 else 0)
  {
  }

  /** What one turn asks for and says: a respawn once, with the third failure in a row and as three failures of the
      URL it probes, or one announcement of Ready, or nothing. The announcement of the failures comes first. */
  lemma {:induction false} TurnSays(t0: int, inputs: seq<Input>, i: nat)
    requires Admissible(t0, inputs) && i < |inputs|
    ensures var s := StateAt(InitialSpec(t0), inputs, i); var out := Outputs(s, inputs[i]);
      && (ProbeDue(inputs, i) ==> s.url.Some?)
      && (FailureDue(inputs, i) && s.failures == 2 ==> out == [EdgeUnhealthy(s.url.value, 3), Respawn])
      && (ProbeDue(inputs, i) && inputs[i].outcome.Ok? && s.pendingRecovery ==> out == [SyntheticReady(s.url.value)])
      && (out == [] || (FailureDue(inputs, i) && s.failures == 2)
                    || (ProbeDue(inputs, i) && inputs[i].outcome.Ok? && s.pendingRecovery))
  {
    hide ProbeDue, Next, StateAt, BackoffOf, WaitSinceRespawn;
    InvAlways(t0, inputs, i);
    NeverThrottled(t0, inputs, i);
    ProbesDue(t0, inputs, i);
  }

  /** The same for respawns, by number; and how the failures count on. */
  lemma RespawnAnnounced(t0: int, inputs: seq<Input>, i: nat, url: string, n: nat)
    requires Admissible(t0, inputs) && i < |inputs|
    ensures var s := StateAt(InitialSpec(t0), inputs, i); var out := multiset(Outputs(s, inputs[i]));
      && s.failures < 3
      && out[Respawn] == (if FailureDue(inputs, i) && s.failures == 2 then 1 else 0)
      && out[EdgeUnhealthy(url, n)]
         == (if FailureDue(inputs, i) && s.failures == 2 && n == 3 && s.url == Some(url) then 1 else 0)
      && (!Resets(inputs, i) ==>
            StateAt(InitialSpec(t0), inputs, i + 1).failures == (s.failures + if FailureDue(inputs, i) then 1 else 0) % 3)
  {
    hide ProbeDue, Next, Outputs, BackoffOf, WaitSinceRespawn;
    InvAlways(t0, inputs, i);
    TurnSays(t0, inputs, i);
    ProbesDue(t0, inputs, i);
    FailureCounts(StateAt(InitialSpec(t0), inputs, i), inputs[i]);
  }

  // ---------- Recovery is announced once ----------

  ghost function DegradedReports(inputs: seq<Input>, b: nat): nat
    requires b <= |inputs|
  {
    if b == 0 then 0 else
      DegradedReports(inputs, b - 1) + (if inputs[b - 1].FromBus? && inputs[b - 1].event.StepDegraded? then 1 else 0)
  }

  ghost function ReadyAnnouncements(s0: Monitor, inputs: seq<Input>, b: nat): nat
    requires b <= |inputs|
  {
    if b == 0 then 0 else
      ReadyAnnouncements(s0, inputs, b - 1) + Readies(Outputs(StateAt(s0, inputs, b - 1), inputs[b - 1]))
  }

  function Readies(out: seq<Output>): nat {
    if out == [] then 0 else (if out[0].SyntheticReady? then 1 else 0) + Readies(out[1..])
  }

  /** The monitor never announces Ready more often than it was told Degraded, and a recovery still owed
      accounts for one of the reports not yet answered. */
  lemma {:induction false} AnnouncementsOwed(t0: int, inputs: seq<Input>, b: nat)
    requires b <= |inputs|
    ensures var s0 := InitialSpec(t0);
      ReadyAnnouncements(s0, inputs, b) + (if StateAt(s0, inputs, b).pendingRecovery then 1 else 0)
        <= DegradedReports(inputs, b)
  {
    if b > 0 {
      AnnouncementsOwed(t0, inputs, b - 1);
      ReadyOnce(StateAt(InitialSpec(t0), inputs, b - 1), inputs[b - 1]);
    }
  }

  lemma ReadyOnce(s: Monitor, input: Input)
    ensures Readies(Outputs(s, input)) == if Probes(s, input) && input.outcome.Ok? && s.pendingRecovery then 1 else 0
  {
    var out := Outputs(s, input);
    if |out| == 2 {
      assert out[1..] == [Respawn] && [Respawn][1..] == [];
    }
  }

  /** The turn settles a recovery that was owed: Ready was reported, the URL changed, or a probe went well. */
  ghost predicate Settles(inputs: seq<Input>, i: nat)
    requires i < |inputs|
  {
    || (inputs[i].FromBus? && (inputs[i].event.UrlChanged? || inputs[i].event.StepReady?))
    || (ProbeDue(inputs, i) && inputs[i].outcome.Ok?)
  }

  /** Input `r` reported the tunnel Degraded, and nothing has settled that before turn `i`. */
  ghost predicate Unsettled(inputs: seq<Input>, r: nat, i: nat)
    requires i <= |inputs|
  {
    && r < i && inputs[r].FromBus? && inputs[r].event.StepDegraded?
    && (forall k :: r < k < i ==> !Settles(inputs, k))
  }

  /** A recovery is owed exactly when a report of Degraded is unsettled. */
  lemma {:induction false} RecoveryOwed(t0: int, inputs: seq<Input>, i: nat)
    requires i <= |inputs|
    ensures StateAt(InitialSpec(t0), inputs, i).pendingRecovery
      <==> exists r: nat :: Unsettled(inputs, r, i)
  {
    hide ProbeDue;
    if i > 0 {
      var p: nat := i - 1;
      var last := inputs[p];
      RecoveryOwed(t0, inputs, p);
      ProbesDue(t0, inputs, p);
      if last.FromBus? && last.event.StepDegraded? {
        assert Unsettled(inputs, p, i);
      }
      if r: nat :| Unsettled(inputs, r, p) && !Settles(inputs, p) {
        assert Unsettled(inputs, r, i);
      }
      if r: nat :| Unsettled(inputs, r, i) {
        assert r < p ==> !Settles(inputs, p) && Unsettled(inputs, r, p);
      }
    }
  }

  /** So a turn announces Ready, once, exactly when its probe goes well while a report of Degraded is unsettled. */
  lemma RecoveryAnnounced(t0: int, inputs: seq<Input>, i: nat, url: string)
    requires i < |inputs|
    ensures var s := StateAt(InitialSpec(t0), inputs, i);
      multiset(Outputs(s, inputs[i]))[SyntheticReady(url)] ==
        if ProbeDue(inputs, i) && inputs[i].outcome.Ok? && s.url == Some(url) && (exists r: nat :: Unsettled(inputs, r, i))
        then 1 else 0
  {
    hide ProbeDue, Unsettled, StateAt;
    ProbesDue(t0, inputs, i);
    RecoveryOwed(t0, inputs, i);
  }
}
