/** The pairing rate limiter (`agent/src/auth.rs`): one counter per key and time bucket, and the cleanup that
    drops the counters of past buckets, found by parsing them back out of the counters' names.

    The clock is a non-negative `i64` number of seconds; `limit` and `window` are the same in every call, as
    they are in the program.
 */
module RateLimiter {
  import opened Common
  import opened Text

  type Time = t: int | 0 <= t <= 0x7FFF_FFFF_FFFF_FFFF

  function NowBucket(now: Time, window: nat): (bucket: nat)
    requires window > 0
    ensures bucket <= I64_MAX
    ensures now == bucket * window + now % window
  {
    var q := now / window;
    assert now == q * window + now % window;
    MultipleAtLeast(-q, window);
    assert (-q) * window == -(q * window);
    assert q >= 0;
    MultipleAtLeast(window, q);
    assert window * q == q * window;
    q
  }

  /** `{key}:{bucket}` */
  function Composite(key: string, bucket: nat): string {
    key + ":" + Decimal(bucket)
  }

  function Count(attempts: map<string, int>, composite: string): int {
    if composite in attempts then attempts[composite] else 0
  }

  function AllowSpec(attempts: map<string, int>, key: string, limit: nat, window: nat, now: Time): (map<string, int>, bool)
    requires window > 0
  {
    var composite := Composite(key, NowBucket(now, window));
    var n := Count(attempts, composite);
    if n >= limit then (attempts[composite := n], false) else (attempts[composite := n + 1], true)
  }

  predicate Stale(composite: string, window: nat, now: Time)
    requires window > 0
  {
    var bucket := ParseI64(AfterLast(composite, ':'));
    bucket.Some? && bucket.value < NowBucket(now, window)
  }

  function ClearSpec(attempts: map<string, int>, window: nat, now: Time): map<string, int>
    requires window > 0
  {
    map c | c in attempts && !Stale(c, window, now) :: attempts[c]
  }

  class PairingAttempts {
    var attempts: map<string, int>

    constructor ()
      ensures attempts == map[]
    {
      attempts := map[];
    }

    method ShouldAllowPairingAttempt(key: string, limit: nat, window: nat, now: Time) returns (allowed: bool)
      requires window > 0
      modifies this
      ensures (attempts, allowed) == AllowSpec(old(attempts), key, limit, window, now)
    {
      var composite := Composite(key, NowBucket(now, window));
      if composite !in attempts {
        attempts := attempts[composite := 0];
      }
      assert attempts == old(attempts)[composite := Count(old(attempts), composite)];
      if attempts[composite] >= limit {
        return false;
      }
      attempts := attempts[composite := attempts[composite] + 1];
      assert attempts == old(attempts)[composite := Count(old(attempts), composite) + 1];
      return true;
    }

    method ClearStalePairingAttempts(window: nat, now: Time)
      requires window > 0
      modifies this
      ensures attempts == ClearSpec(old(attempts), window, now)
    {
      var stale := set c | c in attempts && Stale(c, window, now);
      var rest := stale;
      while rest != {}
        invariant rest <= stale
        invariant attempts == map c | c in old(attempts) && c !in stale - rest :: old(attempts)[c]
        decreases rest
      {
        var c :| c in rest;
        attempts := attempts - {c};
        rest := rest - {c};
      }
    }
  }

  // ---------- Counter names ----------

  lemma CompositeBucket(key: string, bucket: nat)
    requires bucket <= I64_MAX
    ensures ParseI64(AfterLast(Composite(key, bucket), ':')) == Some(bucket)
  {
    DecimalIntHasNo(bucket, ':');
    AfterLastOfJoin(key, ':', Decimal(bucket));
    ParseDecimalInt(bucket);
  }

  lemma CompositeInjective(k1: string, b1: nat, k2: string, b2: nat)
    requires b1 <= I64_MAX && b2 <= I64_MAX
    ensures Composite(k1, b1) == Composite(k2, b2) <==> k1 == k2 && b1 == b2
  {
    CompositeBucket(k1, b1);
    CompositeBucket(k2, b2);
    if Composite(k1, b1) == Composite(k2, b2) {
      assert k1 == Composite(k1, b1)[..|k1|];
      assert k2 == Composite(k2, b2)[..|k2|];
    }
  }

  /** A cleanup drops exactly the counters of past buckets, and keeps the others' counts. */
  lemma CleanupExact(attempts: map<string, int>, key: string, bucket: nat, window: nat, now: Time)
    requires window > 0 && bucket <= I64_MAX
    ensures var c, next := Composite(key, bucket), ClearSpec(attempts, window, now);
      && (c in next <==> c in attempts && bucket >= now / window)
      && (c in next ==> next[c] == attempts[c])
  {
    hide Composite;
    CompositeBucket(key, bucket);
  }

  /** A name whose last field is no number is kept. */
  lemma CleanupKeepsOthers(attempts: map<string, int>, name: string, window: nat, now: Time)
    requires window > 0 && name in attempts && ParseI64(AfterLast(name, ':')).None?
    ensures var next := ClearSpec(attempts, window, now); name in next && next[name] == attempts[name]
  {
  }

  // ---------- Runs ----------

  datatype Op = Attempt(key: string, now: Time) | Clear(now: Time)

  function Apply(attempts: map<string, int>, op: Op, limit: nat, window: nat): map<string, int>
    requires window > 0
  {
    match op
    case Attempt(key, now) => AllowSpec(attempts, key, limit, window, now).0
    case Clear(now) => ClearSpec(attempts, window, now)
  }

  function CountersAt(ops: seq<Op>, i: nat, limit: nat, window: nat): map<string, int>
    requires window > 0 && i <= |ops|
  {
    if i == 0 then map[] else Apply(CountersAt(ops, i - 1, limit, window), ops[i - 1], limit, window)
  }

  predicate Allowed(ops: seq<Op>, i: nat, limit: nat, window: nat)
    requires window > 0 && i < |ops| && ops[i].Attempt?
  {
    AllowSpec(CountersAt(ops, i, limit, window), ops[i].key, limit, window, ops[i].now).1
  }

  ghost predicate ClockMonotone(ops: seq<Op>) {
    forall i, j :: 0 <= i <= j < |ops| ==> ops[i].now <= ops[j].now
  }

  predicate Hits(op: Op, key: string, bucket: nat, window: nat)
    requires window > 0
  {
    op.Attempt? && op.key == key && NowBucket(op.now, window) == bucket
  }

  /** How many of the operations `a..b` were attempts with this key in this bucket. */
  function Hit(ops: seq<Op>, a: nat, b: nat, key: string, bucket: nat, window: nat): nat
    requires window > 0 && a <= b <= |ops|
  {
    if a == b then 0 else
      Hit(ops, a, b - 1, key, bucket, window) + (if Hits(ops[b - 1], key, bucket, window) then 1 else 0)
  }

  /** The counter of the current or a later bucket holds the attempts made in it, up to the limit. */
  ghost predicate Counts(ops: seq<Op>, i: nat, limit: nat, window: nat, key: string, bucket: nat)
    requires window > 0 && i <= |ops|
  {
    Count(CountersAt(ops, i, limit, window), Composite(key, bucket)) == Min(Hit(ops, 0, i, key, bucket, window), limit)
  }

  lemma {:induction false} CountersHold(ops: seq<Op>, i: nat, limit: nat, window: nat, key: string, bucket: nat)
    requires window > 0 && i <= |ops| && ClockMonotone(ops)
    requires bucket <= I64_MAX
    requires forall j :: 0 <= j < i ==> NowBucket(ops[j].now, window) <= bucket
    ensures Counts(ops, i, limit, window, key, bucket)
  {
    hide NowBucket;
    if i > 0 {
      CountersHold(ops, i - 1, limit, window, key, bucket);
      match ops[i - 1]
      case Attempt(k, now) =>
        CompositeInjective(k, NowBucket(now, window), key, bucket);
      case Clear(now) =>
        CompositeBucket(key, bucket);
    }
  }

  lemma BucketMonotone(t: Time, u: Time, window: nat)
    requires window > 0 && t <= u
    ensures NowBucket(t, window) <= NowBucket(u, window)
    ensures u - t <= window ==> NowBucket(u, window) <= NowBucket(t, window) + 1
  {
    hide NowBucket;
    var q, r := NowBucket(t, window), NowBucket(u, window);
    MultipleAtLeast(q - r, window);
    assert (q - r) * window == q * window - r * window;
    MultipleAtLeast(r - q - 1, window);
    assert (r - q - 1) * window == r * window - q * window - window;
  }

  /** An attempt is allowed exactly when fewer than `limit` earlier attempts had the same key in the same
      bucket. The cleanups in the run do not occur in the answer, so they never change it. */
  lemma AnswerExact(ops: seq<Op>, i: nat, limit: nat, window: nat)
    requires window > 0 && i < |ops| && ClockMonotone(ops) && ops[i].Attempt?
    ensures Allowed(ops, i, limit, window) <==> Hit(ops, 0, i, ops[i].key, NowBucket(ops[i].now, window), window) < limit
  {
    forall j | 0 <= j < i ensures NowBucket(ops[j].now, window) <= NowBucket(ops[i].now, window) {
      BucketMonotone(ops[j].now, ops[i].now, window);
    }
    CountersHold(ops, i, limit, window, ops[i].key, NowBucket(ops[i].now, window));
  }

  /** A cleanup slipped in anywhere leaves every later answer as it was. */
  lemma CleanupChangesNothing(ops: seq<Op>, j: nat, at: Time, i: nat, limit: nat, window: nat)
    requires window > 0 && j <= i < |ops| && ops[i].Attempt?
    requires ClockMonotone(ops) && ClockMonotone(ops[..j] + [Clear(at)] + ops[j..])
    ensures Allowed(ops[..j] + [Clear(at)] + ops[j..], i + 1, limit, window) == Allowed(ops, i, limit, window)
  {
    hide AllowSpec, NowBucket, CountersAt;
    var more := ops[..j] + [Clear(at)] + ops[j..];
    AnswerExact(ops, i, limit, window);
    AnswerExact(more, i + 1, limit, window);
    HitsUnmoved(ops, more, j, i, ops[i].key, NowBucket(ops[i].now, window), window);
  }

  lemma {:induction false} HitsUnmoved(ops: seq<Op>, more: seq<Op>, j: nat, i: nat, key: string, bucket: nat, window: nat)
    requires window > 0 && j <= |ops| && i <= |ops| < |more| && more[j].Clear?
    requires forall k :: 0 <= k < j ==> more[k] == ops[k]
    requires forall k :: j <= k < |ops| ==> more[k + 1] == ops[k]
    ensures Hit(more, 0, if i < j then i else i + 1, key, bucket, window) == Hit(ops, 0, i, key, bucket, window)
  {
    if i > 0 {
      HitsUnmoved(ops, more, j, i - 1, key, bucket, window);
    }
  }

  // ---------- How many attempts get through ----------

  /** How many of the operations `a..b` were attempts with this key that were allowed. */
  function Passed(ops: seq<Op>, a: nat, b: nat, limit: nat, window: nat, key: string): nat
    requires window > 0 && a <= b <= |ops|
  {
    if a == b then 0 else
      Passed(ops, a, b - 1, limit, window, key) +
      (if ops[b - 1].Attempt? && ops[b - 1].key == key && Allowed(ops, b - 1, limit, window) then 1 else 0)
  }

  lemma {:induction false} HitSplit(ops: seq<Op>, a: nat, b: nat, key: string, bucket: nat, window: nat)
    requires window > 0 && a <= b <= |ops|
    ensures Hit(ops, 0, b, key, bucket, window) == Hit(ops, 0, a, key, bucket, window) + Hit(ops, a, b, key, bucket, window)
  {
    if a < b {
      HitSplit(ops, a, b - 1, key, bucket, window);
    }
  }

  /** The room left under the limit in a bucket when operation `a` is reached. */
  function Room(ops: seq<Op>, a: nat, limit: nat, key: string, bucket: nat, window: nat): nat
    requires window > 0 && a <= |ops|
  {
    Max(0, limit - Hit(ops, 0, a, key, bucket, window))
  }

  /** Of the attempts `a..b`, all in one bucket or the next, those let through fill the room there was. */
  lemma {:induction false} PassedFillsRoom(ops: seq<Op>, a: nat, b: nat, limit: nat, window: nat, key: string, bucket: nat)
    requires window > 0 && a <= b <= |ops| && ClockMonotone(ops)
    requires forall j :: a <= j < b ==> NowBucket(ops[j].now, window) == bucket || NowBucket(ops[j].now, window) == bucket + 1
    ensures Passed(ops, a, b, limit, window, key)
      == Min(Hit(ops, a, b, key, bucket, window), Room(ops, a, limit, key, bucket, window))
         + Min(Hit(ops, a, b, key, bucket + 1, window), Room(ops, a, limit, key, bucket + 1, window))
  {
    hide NowBucket, AllowSpec, CountersAt, Allowed;
    if a < b {
      PassedFillsRoom(ops, a, b - 1, limit, window, key, bucket);
      if ops[b - 1].Attempt? {
        AnswerExact(ops, b - 1, limit, window);
        HitSplit(ops, a, b - 1, key, bucket, window);
        HitSplit(ops, a, b - 1, key, bucket + 1, window);
      }
    }
  }

  /** In one bucket a key gets at most `limit` attempts through, in any stretch of time no longer than the
      window at most twice that. */
  lemma PassedBounded(ops: seq<Op>, a: nat, b: nat, limit: nat, window: nat, key: string)
    requires window > 0 && a < b <= |ops| && ClockMonotone(ops)
    ensures NowBucket(ops[b - 1].now, window) == NowBucket(ops[a].now, window) ==> Passed(ops, a, b, limit, window, key) <= limit
    ensures ops[b - 1].now - ops[a].now <= window ==> Passed(ops, a, b, limit, window, key) <= 2 * limit
  {
    hide NowBucket, AllowSpec;
    var bucket := NowBucket(ops[a].now, window);
    BucketMonotone(ops[a].now, ops[b - 1].now, window);
    if NowBucket(ops[b - 1].now, window) == bucket || ops[b - 1].now - ops[a].now <= window {
      forall j | a <= j < b
        ensures bucket <= NowBucket(ops[j].now, window) <= NowBucket(ops[b - 1].now, window)
      {
        BucketMonotone(ops[a].now, ops[j].now, window);
        BucketMonotone(ops[j].now, ops[b - 1].now, window);
      }
      PassedFillsRoom(ops, a, b, limit, window, key, bucket);
      if NowBucket(ops[b - 1].now, window) == bucket {
        NoHits(ops, a, b, key, bucket + 1, window);
      }
    }
  }

  lemma {:induction false} NoHits(ops: seq<Op>, a: nat, b: nat, key: string, bucket: nat, window: nat)
    requires window > 0 && a <= b <= |ops|
    requires forall j :: a <= j < b ==> NowBucket(ops[j].now, window) != bucket
    ensures Hit(ops, a, b, key, bucket, window) == 0
  {
    if a < b {
      NoHits(ops, a, b - 1, key, bucket, window);
    }
  }
}
