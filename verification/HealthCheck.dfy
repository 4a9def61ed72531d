/** The boot verification loop (`agent/src/health_check.rs`) and what the dashboard is told about its
    outcome (`agent/src/main.rs`).

    Everything the loop asks the network is an oracle indexed by the attempt number: the resolver's
    answer, the HEAD probe's answer and the clock. Theorems hold for every oracle.
 */
module HealthCheck {
  import opened Common

  datatype ProbeOutcome = Ok | Timeout | DohNxdomain | HttpError(code: nat) | Network(msg: string)

  datatype DohResult = Resolved | Nxdomain | Unavailable

  // Milliseconds.
  const HEALTH_TIMEOUT: nat := 8_000
  const PROBE_INTERVAL: nat := 2_000

  /** `resolve(k)` and `probe(k)` answer attempt `k`, counted from 0; `clock(k)` is the time on the loop's
      watch when it decides whether to make attempt `k`. A loop that sleeps between attempts finds
      `clock` advanced by the sleep at least. */
  datatype Oracle = Oracle(resolve: nat -> DohResult, probe: nat -> ProbeOutcome, clock: nat -> nat)

  ghost predicate Admissible(o: Oracle) {
    && (forall k: nat :: o.clock(k + 1) >= o.clock(k) + PROBE_INTERVAL)
    && (forall k: nat :: !o.probe(k).DohNxdomain?)
  }

  predicate Conclusive(outcome: ProbeOutcome) {
    outcome.Ok? || (outcome.HttpError? && outcome.code >= 500)
  }

  /** The answer the name lookup of attempt `k` has: without a host in the URL there is nothing to look up. */
  function LookupAnswer(o: Oracle, hasHost: bool, k: nat): DohResult {
    if hasHost then o.resolve(k) else Unavailable
  }

  /** Every one of the first `n` attempts looked the name up and was told it does not exist. */
  ghost predicate AllNxdomain(o: Oracle, hasHost: bool, n: nat) {
    n > 0 ==> hasHost && forall k: nat :: k < n ==> o.resolve(k).Nxdomain?
  }

  /** Attempt `k` was made and, some lookup up to it having answered otherwise than NXDOMAIN, it probed. */
  ghost predicate Probed(o: Oracle, hasHost: bool, attempts: nat, k: nat) {
    k < attempts && !AllNxdomain(o, hasHost, k + 1)
  }

  lemma AllNxdomainSteps(o: Oracle, hasHost: bool, n: nat)
    ensures AllNxdomain(o, hasHost, 0)
    ensures AllNxdomain(o, hasHost, n + 1) <==> AllNxdomain(o, hasHost, n) && LookupAnswer(o, hasHost, n).Nxdomain?
  {
  }

  lemma {:induction false} ClockAtLeast(o: Oracle, k: nat)
    requires Admissible(o)
    ensures o.clock(k) >= k * PROBE_INTERVAL
  {
    if k > 0 {
      ClockAtLeast(o, k - 1);
      assert o.clock(k - 1 + 1) >= o.clock(k - 1) + PROBE_INTERVAL;
    }
  }

  lemma ProbeSeesNoNxdomain(o: Oracle, k: nat)
    requires Admissible(o)
    ensures !o.probe(k).DohNxdomain?
  {
  }

  /** The loop. `attempts` counts rounds, `lookups` lists the answers of the name lookups it made. */
  method RunHealthCheck(hasHost: bool, o: Oracle)
    returns (outcome: ProbeOutcome, attempts: nat, lookups: seq<DohResult>)
    requires Admissible(o)
    // The number of attempts, and why there is no further one: the window is over, or the last probe was a success
    // or a server error. Every such answer is the last one.
    ensures attempts <= 4 && (attempts >= 1 <==> o.clock(0) < 8_000)
    ensures forall k: nat :: k < attempts ==> o.clock(k) < 8_000
    ensures o.clock(attempts) < 8_000 ==> attempts > 0 && (outcome.Ok? || (outcome.HttpError? && outcome.code >= 500))
    ensures forall k :: Probed(o, hasHost, attempts, k) && (o.probe(k).Ok? || (o.probe(k).HttpError? && o.probe(k).code >= 500)) ==>
      k == attempts - 1 && outcome == o.probe(k)
    // The name is looked up once per attempt until the first answer other than NXDOMAIN, never after it.
    ensures |lookups| <= attempts
    ensures forall k :: 0 <= k < |lookups| ==> lookups[k] == if hasHost then o.resolve(k) else Unavailable
    ensures forall k :: 0 <= k < |lookups| - 1 ==> lookups[k].Nxdomain?
    ensures |lookups| < attempts ==> lookups != [] && !lookups[|lookups| - 1].Nxdomain?
    // The outcome is that of the last attempt.
    ensures outcome.DohNxdomain? <==> attempts >= 1 && AllNxdomain(o, hasHost, attempts)
    ensures attempts == 0 ==> outcome.Timeout?
    ensures attempts >= 1 && !AllNxdomain(o, hasHost, attempts) ==> outcome == o.probe(attempts - 1)
  {
    hide Admissible, AllNxdomain;
    AllNxdomainSteps(o, hasHost, 0);
    attempts, lookups := 0, [];
    outcome := Timeout;
    var hasClient := false;
    while o.clock(attempts) < HEALTH_TIMEOUT
      invariant attempts <= 4
      invariant forall k: nat :: k < attempts ==> o.clock(k) < HEALTH_TIMEOUT
      invariant |lookups| <= attempts
      invariant forall k :: 0 <= k < |lookups| ==> lookups[k] == LookupAnswer(o, hasHost, k)
      invariant forall k :: 0 <= k < |lookups| - 1 ==> lookups[k].Nxdomain?
      invariant hasClient <==> lookups != [] && !lookups[|lookups| - 1].Nxdomain?
      invariant !hasClient ==> |lookups| == attempts
      invariant !hasClient <==> AllNxdomain(o, hasHost, attempts)
      invariant attempts == 0 ==> outcome.Timeout?
      invariant attempts >= 1 ==> (outcome.DohNxdomain? <==> !hasClient)
      invariant hasClient ==> attempts >= 1 && outcome == o.probe(attempts - 1)
      invariant forall k :: Probed(o, hasHost, attempts, k) ==> !Conclusive(o.probe(k))
      decreases 5 - attempts
    {
      ClockAtLeast(o, attempts);
      AllNxdomainSteps(o, hasHost, attempts);
      var attempt := attempts;
      attempts := attempts + 1;
      if !hasClient {
        var doh := LookupAnswer(o, hasHost, attempt);
        lookups := lookups + [doh];
        match doh {
          case Resolved =>
            hasClient := true;
          case Nxdomain =>
            outcome := DohNxdomain;
            continue;
          case Unavailable =>
            hasClient := true;
        }
      }
      var probed := o.probe(attempt);
      ProbeSeesNoNxdomain(o, attempt);
      if Conclusive(probed) {
        return probed, attempts, lookups;
      }
      outcome := probed;
    }
  }

  // ---------- What the dashboard is told ----------

  datatype TunnelStep = Ready | Degraded

  datatype StepReason = NoReason | NotRegistered | HttpStatus(code: nat) | NetworkError(msg: string)

  datatype StepChange = StepChange(step: TunnelStep, inconclusive: bool, reason: StepReason)

  function ProbeOutcomeToStep(outcome: ProbeOutcome): (change: StepChange)
    ensures change.step.Degraded? <==> !change.reason.NoReason?
    ensures change.reason.NotRegistered? <==> outcome.DohNxdomain?
    ensures change.inconclusive <==> outcome.Timeout?
    ensures change.reason.HttpStatus? ==> outcome == HttpError(change.reason.code)
    ensures change.reason.NetworkError? ==> outcome == Network(change.reason.msg)
    ensures change.step.Ready? <==>
      || outcome.Ok? || outcome.Timeout?
      || (outcome.HttpError? && 400 <= outcome.code < 500 && outcome.code !in {401, 403})
  {
    match outcome
    case Ok => StepChange(Ready, false, NoReason)
    case Timeout => StepChange(Ready, true, NoReason)
    case DohNxdomain => StepChange(Degraded, false, NotRegistered)
    case HttpError(code) =>
      if 400 <= code < 500 && code != 401 && code != 403 then StepChange(Ready, false, NoReason)
      else StepChange(Degraded, false, HttpStatus(code))
    case Network(msg) => StepChange(Degraded, false, NetworkError(msg))
  }

  /** The loop and the mapping composed: the dashboard says "not registered" exactly when every lookup the
      window had room for said so, and a single good probe in it makes it Ready without qualification. */
  method VerifyTunnel(hasHost: bool, o: Oracle) returns (change: StepChange, attempts: nat)
    requires Admissible(o)
    ensures attempts <= 4 && (attempts >= 1 <==> o.clock(0) < 8_000)
    ensures change.reason.NotRegistered? <==> attempts >= 1 && AllNxdomain(o, hasHost, attempts)
    ensures change.reason.NotRegistered? ==> hasHost && o.clock(attempts) >= 8_000
    ensures (exists k :: Probed(o, hasHost, attempts, k) && o.probe(k).Ok?) ==> change == StepChange(Ready, false, NoReason)
    ensures forall k :: Probed(o, hasHost, attempts, k) && o.probe(k).HttpError? && o.probe(k).code >= 500 ==>
      k == attempts - 1 && change == StepChange(Degraded, false, HttpStatus(o.probe(k).code))
    ensures o.clock(attempts) < 8_000 ==>
      change == StepChange(Ready, false, NoReason) || (change.reason.HttpStatus? && change.reason.code >= 500)
    ensures change == StepChange(Ready, false, NoReason) <==>
      && attempts >= 1 && !AllNxdomain(o, hasHost, attempts)
      && var last := o.probe(attempts - 1);
         last.Ok? || (last.HttpError? && 400 <= last.code < 500 && last.code !in {401, 403})
  {
    var outcome, lookups;
    outcome, attempts, lookups := RunHealthCheck(hasHost, o);
    change := ProbeOutcomeToStep(outcome);
  }
}
