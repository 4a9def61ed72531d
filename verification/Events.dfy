/** The event bus with its snapshot for late subscribers (`agent/src/events.rs`).

    `send` updates the snapshot under its lock and then broadcasts, two steps that may interleave with those
    of other senders and with a subscriber's `subscribe` and `snapshot`. Subscribers are taken to keep up
    with the broadcast.
 */
module Events {
  import opened Common

  datatype AgentEvent =
    | TunnelUrlChanged(url: string)
    | TunnelStepChanged(step: string)
    | TunnelDown(reason: string)
    | OtherEvent(name: string)

  datatype TunnelSnapshot = TunnelSnapshot(url: Option<string>, latestStep: Option<string>, downReason: Option<string>)

  const NO_TUNNEL: TunnelSnapshot := TunnelSnapshot(None, None, None)

  /** What one event does to the snapshot; a subscriber that follows the tunnel does the same to its copy. */
  function Mirrored(snap: TunnelSnapshot, event: AgentEvent): TunnelSnapshot {
    match event
    case TunnelUrlChanged(url) => snap.(url := Some(url), downReason := None)
    case TunnelStepChanged(step) => snap.(latestStep := Some(step))
    case TunnelDown(reason) => snap.(downReason := Some(reason))
    case OtherEvent(_) => snap
  }

  function Fold(snap: TunnelSnapshot, events: seq<AgentEvent>): TunnelSnapshot {
    if events == [] then snap else Mirrored(Fold(snap, events[..|events| - 1]), events[|events| - 1])
  }

  // ---------- Interleaved senders and one subscriber ----------

  /** `mirrored` and `sent` list the sends, by number, in the order of their two halves. */
  datatype State = State(
    mirrored: seq<nat>, sent: seq<nat>, events: map<nat, AgentEvent>, snap: TunnelSnapshot,
    receiver: Option<nat>, readAt: Option<nat>, copy: TunnelSnapshot)

  const START: State := State([], [], map[], NO_TUNNEL, None, None, NO_TUNNEL)

  datatype Step =
    | Mirror(id: nat, event: AgentEvent)   // the locked half of a send
    | Cast(id: nat)                        // the broadcasting half
    | DoSubscribe
    | DoRead

  predicate Enabled(s: State, step: Step) {
    match step
    case Mirror(id, _) => id !in s.mirrored && id !in s.events
    case Cast(id) => id in s.mirrored && id !in s.sent
    case DoSubscribe => s.receiver.None?
    case DoRead => s.readAt.None?
  }

  function Next(s: State, step: Step): State {
    match step
    case Mirror(id, event) =>
      s.(mirrored := s.mirrored + [id], events := s.events[id := event], snap := Mirrored(s.snap, event))
    case Cast(id) => s.(sent := s.sent + [id])
    case DoSubscribe => s.(receiver := Some(|s.sent|))
    case DoRead => s.(readAt := Some(|s.mirrored|), copy := s.snap)
  }

  function After(s: State, steps: seq<Step>): State {
    if steps == [] then s else Next(After(s, steps[..|steps| - 1]), steps[|steps| - 1])
  }

  ghost predicate Run(steps: seq<Step>) {
    steps != [] ==> Run(steps[..|steps| - 1]) && Enabled(After(START, steps[..|steps| - 1]), steps[|steps| - 1])
  }

  /** The snapshot is not read before the subscription is in place. */
  ghost predicate SubscribesFirst(steps: seq<Step>) {
    forall j :: 0 <= j < |steps| && steps[j].DoRead? ==> exists i :: 0 <= i < j && steps[i].DoSubscribe?
  }

  function EventsOf(events: map<nat, AgentEvent>, ids: seq<nat>): (r: seq<AgentEvent>)
    ensures |r| == |ids|
  {
    seq(|ids|, i requires 0 <= i < |ids| => if ids[i] in events then events[ids[i]] else OtherEvent(""))
  }

  /** What the subscriber has been sent. */
  function Delivered(s: State): seq<AgentEvent> {
    if s.receiver.Some? && s.receiver.value <= |s.sent| then EventsOf(s.events, s.sent[s.receiver.value..]) else []
  }

  ghost predicate Inv(s: State) {
    && (forall id :: id in s.sent ==> id in s.mirrored)
    && (forall id :: id in s.mirrored <==> id in s.events)
    && (forall i, j :: 0 <= i < j < |s.mirrored| ==> s.mirrored[i] != s.mirrored[j])
    && (s.readAt.Some? ==> s.readAt.value <= |s.mirrored|)
    && (s.receiver.Some? ==> s.receiver.value <= |s.sent|)
    && s.snap == Fold(NO_TUNNEL, EventsOf(s.events, s.mirrored))
    && (s.readAt.Some? ==> s.copy == Fold(NO_TUNNEL, EventsOf(s.events, s.mirrored[..s.readAt.value])))
  }

  lemma EventsOfMore(events: map<nat, AgentEvent>, ids: seq<nat>, id: nat, event: AgentEvent)
    requires id !in ids
    ensures EventsOf(events[id := event], ids) == EventsOf(events, ids)
    ensures EventsOf(events[id := event], ids + [id]) == EventsOf(events, ids) + [event]
  {
  }

  lemma MirrorKeepsInv(s: State, id: nat, event: AgentEvent)
    requires Inv(s) && Enabled(s, Mirror(id, event))
    ensures Inv(Next(s, Mirror(id, event)))
  {
    hide EventsOf;
    EventsOfMore(s.events, s.mirrored, id, event);
    var history := EventsOf(s.events, s.mirrored);
    assert (history + [event])[..|history|] == history;
    if s.readAt.Some? {
      EventsOfMore(s.events, s.mirrored[..s.readAt.value], id, event);
      assert (s.mirrored + [id])[..s.readAt.value] == s.mirrored[..s.readAt.value];
    }
  }

  lemma InvStep(s: State, step: Step)
    requires Inv(s) && Enabled(s, step)
    ensures Inv(Next(s, step))
  {
    hide EventsOf, Fold;
    if step.Mirror? {
      MirrorKeepsInv(s, step.id, step.event);
    } else if step.DoRead? {
      assert s.mirrored[..|s.mirrored|] == s.mirrored;
    }
  }

  lemma {:induction false} InvAlways(steps: seq<Step>)
    requires Run(steps)
    ensures Inv(After(START, steps))
  {
    if steps != [] {
      InvAlways(steps[..|steps| - 1]);
      InvStep(After(START, steps[..|steps| - 1]), steps[|steps| - 1]);
    }
  }

  lemma {:induction false} RunPrefix(steps: seq<Step>, i: nat)
    requires Run(steps) && i <= |steps|
    ensures Run(steps[..i])
  {
    if i < |steps| {
      RunPrefix(steps[..|steps| - 1], i);
      assert steps[..|steps| - 1][..i] == steps[..i];
    } else {
      assert steps[..i] == steps;
    }
  }

  /** One step further in a run, and what it broadcasts. */
  lemma StepOn(steps: seq<Step>, i: nat)
    requires Run(steps) && i < |steps|
    ensures var s, next := After(START, steps[..i]), After(START, steps[..i + 1]);
      && next == Next(s, steps[i]) && Enabled(s, steps[i])
      && |EventsOf(s.events, s.sent)| == |s.sent|
      && (steps[i].Cast? ==> steps[i].id in s.events)
      && EventsOf(next.events, next.sent)
         == EventsOf(s.events, s.sent) + (if steps[i].Cast? then [s.events[steps[i].id]] else [])
  {
    hide Fold, Mirrored, EventsOf;
    RunPrefix(steps, i);
    RunPrefix(steps, i + 1);
    InvAlways(steps[..i]);
    assert steps[..i + 1][..i] == steps[..i];
    var s := After(START, steps[..i]);
    match steps[i]
    case Mirror(id, event) =>
      EventsOfMore(s.events, s.sent, id, event);
    case Cast(id) =>
      EventsOfMore(s.events, s.sent, id, s.events[id]);
      assert s.events[id := s.events[id]] == s.events;
    case DoSubscribe =>
    case DoRead =>
  }

  lemma NothingYet(steps: seq<Step>)
    ensures After(START, steps[..0]) == START && EventsOf(START.events, START.sent) == []
  {
  }

  lemma DeliveredFrom(steps: seq<Step>)
    requires Run(steps)
    ensures var s := After(START, steps);
      s.receiver.Some? ==>
        && s.receiver.value <= |s.sent| && |EventsOf(s.events, s.sent)| == |s.sent|
        && EventsOf(s.events, s.sent)[s.receiver.value..] == Delivered(s)
  {
    InvAlways(steps);
  }

  // ---------- The bus ----------

  class EventBus {
    var snap: TunnelSnapshot
    var broadcast: seq<AgentEvent>

    constructor ()
      ensures snap == NO_TUNNEL && broadcast == []
    {
      snap, broadcast := NO_TUNNEL, [];
    }

    /** The locked half of `send`. */
    method MirrorIntoSnapshot(event: AgentEvent)
      modifies this`snap
      ensures snap == Mirrored(old(snap), event)
    {
      match event
      case TunnelUrlChanged(url) =>
        snap := snap.(url := Some(url));
        snap := snap.(downReason := None);
      case TunnelStepChanged(step) =>
        snap := snap.(latestStep := Some(step));
      case TunnelDown(reason) =>
        snap := snap.(downReason := Some(reason));
      case OtherEvent(_) =>
    }

    /** The other half. */
    method Broadcast(event: AgentEvent)
      modifies this`broadcast
      ensures broadcast == old(broadcast) + [event]
    {
      broadcast := broadcast + [event];
    }

    /** `send` with no other sender in between. */
    method Send(event: AgentEvent)
      modifies this
      ensures broadcast == old(broadcast) + [event]
      ensures forall start, history :: old(snap) == Fold(start, history) ==> snap == Fold(start, history + [event])
    {
      MirrorIntoSnapshot(event);
      Broadcast(event);
      forall start, history | old(snap) == Fold(start, history) ensures snap == Fold(start, history + [event]) {
        assert (history + [event])[..|history|] == history;
      }
    }

    /** A receiver is a place in the broadcast: it gets what is sent from then on. */
    method Subscribe() returns (receiver: nat)
      ensures receiver == |broadcast|
    {
      receiver := |broadcast|;
    }

    method Snapshot() returns (s: TunnelSnapshot)
      ensures s == snap
    {
      s := snap;
    }

    /** Any interleaving of the halves of sends with one subscription and one read of the snapshot, on a new bus. */
    method Execute(steps: seq<Step>) returns (receiver: Option<nat>, copy: Option<TunnelSnapshot>)
      requires Run(steps) && snap == NO_TUNNEL && broadcast == []
      modifies this
      ensures var s := After(START, steps);
        && snap == s.snap && broadcast == EventsOf(s.events, s.sent)
        && receiver == s.receiver
        && copy == (if s.readAt.Some? then Some(s.copy) else None)
        && (receiver.Some? ==> receiver.value <= |broadcast| && broadcast[receiver.value..] == Delivered(s))
    {
      hide Run, After, EventsOf, Mirrored, Delivered;
      receiver, copy := None, None;
      var sending: map<nat, AgentEvent> := map[];
      NothingYet(steps);
      for i := 0 to |steps|
        invariant var s := After(START, steps[..i]);
          && snap == s.snap && sending == s.events && broadcast == EventsOf(s.events, s.sent)
          && receiver == s.receiver && copy == (if s.readAt.Some? then Some(s.copy) else None)
      {
        StepOn(steps, i);
        match steps[i] {
          case Mirror(id, event) =>
            MirrorIntoSnapshot(event);
            sending := sending[id := event];
          case Cast(id) =>
            Broadcast(sending[id]);
          case DoSubscribe =>
            var r := Subscribe();
            receiver := Some(r);
          case DoRead =>
            var c := Snapshot();
            copy := Some(c);
        }
      }
      assert steps[..|steps|] == steps;
      DeliveredFrom(steps);
    }
  }

  // ---------- What a subscriber misses ----------

  lemma {:induction false} MirroredSince(steps: seq<Step>, m: nat)
    requires m < |steps| && steps[m].Mirror?
    ensures steps[m].id in After(START, steps).mirrored
  {
    if m < |steps| - 1 {
      MirroredSince(steps[..|steps| - 1], m);
    }
  }

  lemma {:induction false} SentSince(steps: seq<Step>, c: nat)
    requires c < |steps| && steps[c].Cast?
    ensures steps[c].id in After(START, steps).sent
  {
    if c < |steps| - 1 {
      SentSince(steps[..|steps| - 1], c);
    }
  }

  /** The snapshot that was read holds exactly the events mirrored before the read. */
  lemma {:induction false} ReadHolds(steps: seq<Step>, r: nat, m: nat)
    requires Run(steps) && r < |steps| && m < |steps| && steps[r].DoRead? && steps[m].Mirror?
    ensures var s := After(START, steps);
      && s.readAt.Some? && s.readAt.value <= |s.mirrored|
      && (steps[m].id in s.mirrored[..s.readAt.value] <==> m < r)
  {
    hide Inv, EventsOf, Mirrored;
    var init := steps[..|steps| - 1];
    var s, next := After(START, init), After(START, steps);
    if r == |steps| - 1 {
      MirroredSince(init, m);
      assert s.mirrored[..|s.mirrored|] == s.mirrored;
    } else {
      var w := EarlierRead(init, r);
      assert next.mirrored[..w] == s.mirrored[..w];
      if m < |steps| - 1 {
        ReadHolds(init, r, m);
      }
    }
  }

  lemma EarlierRead(steps: seq<Step>, r: nat) returns (w: nat)
    requires Run(steps) && r < |steps| && steps[r].DoRead?
    ensures var s := After(START, steps); s.readAt == Some(w) && w <= |s.mirrored|
  {
    ReadOnce(steps, r);
    InvAlways(steps);
    w := After(START, steps).readAt.value;
  }

  lemma {:induction false} ReadOnce(steps: seq<Step>, r: nat)
    requires r < |steps| && steps[r].DoRead?
    ensures After(START, steps).readAt.Some?
  {
    if r < |steps| - 1 {
      ReadOnce(steps[..|steps| - 1], r);
    }
  }

  lemma {:induction false} SubscribedOnce(steps: seq<Step>, u: nat)
    requires u < |steps| && steps[u].DoSubscribe?
    ensures After(START, steps).receiver.Some?
  {
    if u < |steps| - 1 {
      SubscribedOnce(steps[..|steps| - 1], u);
    }
  }

  /** The subscriber is sent exactly the events broadcast after the subscription. */
  lemma {:induction false} DeliveryHolds(steps: seq<Step>, u: nat, c: nat)
    requires Run(steps) && u < |steps| && c < |steps| && steps[u].DoSubscribe? && steps[c].Cast?
    ensures var s := After(START, steps);
      && s.receiver.Some? && s.receiver.value <= |s.sent|
      && (steps[c].id in s.sent[s.receiver.value..] <==> u < c)
  {
    hide Inv, EventsOf, Mirrored;
    var init := steps[..|steps| - 1];
    var s, next := After(START, init), After(START, steps);
    if u < |steps| - 1 {
      var p := EarlierSubscription(init, u);
      if c < |steps| - 1 {
        DeliveryHolds(init, u, c);
        SentSince(init, c);
        if steps[|steps| - 1].Cast? {
          assert next.sent[p..] == s.sent[p..] + [steps[|steps| - 1].id];
        }
      } else {
        assert next.sent[p..][|s.sent| - p] == steps[c].id;
      }
    }
  }

  lemma EarlierSubscription(steps: seq<Step>, u: nat) returns (p: nat)
    requires Run(steps) && u < |steps| && steps[u].DoSubscribe?
    ensures var s := After(START, steps); s.receiver == Some(p) && p <= |s.sent|
  {
    SubscribedOnce(steps, u);
    InvAlways(steps);
    p := After(START, steps).receiver.value;
  }

  ghost predicate Missed(s: State, id: nat) {
    && s.readAt.Some? && s.readAt.value <= |s.mirrored| && s.receiver.Some? && s.receiver.value <= |s.sent|
    && id !in s.mirrored[..s.readAt.value] && id !in s.sent[s.receiver.value..]
  }

  /** Whatever the order of read and subscription, and with any other sends in between: a send is missed exactly
      if it is mirrored after the read and broadcast before the subscription. */
  lemma MissedExactly(steps: seq<Step>, r: nat, u: nat, m: nat, c: nat)
    requires Run(steps) && r < |steps| && u < |steps| && m < |steps| && c < |steps|
    requires steps[r].DoRead? && steps[u].DoSubscribe? && steps[m].Mirror? && steps[c] == Cast(steps[m].id)
    ensures Missed(After(START, steps), steps[m].id) <==> r < m && c < u
  {
    hide Run, After;
    ReadHolds(steps, r, m);
    DeliveryHolds(steps, u, c);
  }

  /** A broadcast has its two steps in the run, the mirroring first. */
  lemma {:induction false} SendSteps(steps: seq<Step>, id: nat) returns (m: nat, c: nat)
    requires Run(steps) && id in After(START, steps).sent
    ensures m < c < |steps| && steps[m].Mirror? && steps[m].id == id && steps[c] == Cast(id)
  {
    var init, last := steps[..|steps| - 1], steps[|steps| - 1];
    if last == Cast(id) {
      c := |steps| - 1;
      m := MirrorStep(init, id);
    } else {
      m, c := SendSteps(init, id);
    }
  }

  lemma {:induction false} MirrorStep(steps: seq<Step>, id: nat) returns (m: nat)
    requires id in After(START, steps).mirrored
    ensures m < |steps| && steps[m].Mirror? && steps[m].id == id
  {
    var last := steps[|steps| - 1];
    if last.Mirror? && last.id == id {
      m := |steps| - 1;
    } else {
      m := MirrorStep(steps[..|steps| - 1], id);
    }
  }

  lemma {:induction false} ReadStep(steps: seq<Step>) returns (r: nat)
    requires After(START, steps).readAt.Some?
    ensures r < |steps| && steps[r].DoRead?
  {
    if steps[|steps| - 1].DoRead? {
      r := |steps| - 1;
    } else {
      r := ReadStep(steps[..|steps| - 1]);
    }
  }

  lemma SubscribedByRead(steps: seq<Step>)
    requires Run(steps) && SubscribesFirst(steps)
    ensures var s := After(START, steps);
      s.readAt.Some? ==> s.readAt.value <= |s.mirrored| && s.receiver.Some? && s.receiver.value <= |s.sent|
  {
    hide Run, After;
    if After(START, steps).readAt.Some? {
      var r := ReadStep(steps);
      var u :| 0 <= u < r && steps[u].DoSubscribe?;
      var w := EarlierRead(steps, r);
      var p := EarlierSubscription(steps, u);
    }
  }

  /** Subscribing first, no send is missed in any interleaving: each one that has been broadcast is in the
      snapshot that was read, or was delivered, or both. */
  lemma NothingMissed(steps: seq<Step>, id: nat)
    requires Run(steps) && SubscribesFirst(steps)
    ensures var s := After(START, steps);
      s.readAt.Some? && id in s.sent ==>
        && s.receiver.Some? && s.receiver.value <= |s.sent| && s.readAt.value <= |s.mirrored|
        && (id in s.mirrored[..s.readAt.value] || id in s.sent[s.receiver.value..])
  {
    hide Run, After;
    if After(START, steps).readAt.Some? && id in After(START, steps).sent {
      var r := ReadStep(steps);
      var u :| 0 <= u < r && steps[u].DoSubscribe?;
      var m, c := SendSteps(steps, id);
      SubscribedByRead(steps);
      MissedExactly(steps, r, u, m, c);
    }
  }

  lemma RunMore(steps: seq<Step>, step: Step)
    requires Run(steps) && Enabled(After(START, steps), step)
    ensures Run(steps + [step]) && After(START, steps + [step]) == Next(After(START, steps), step)
  {
    assert (steps + [step])[..|steps|] == steps;
  }

  /** Reading first can miss an event altogether: here a whole send falls between the read and the subscription. */
  lemma ReadingFirstMisses()
    ensures var steps := [DoRead, Mirror(0, TunnelDown("exit")), Cast(0), DoSubscribe];
      var s := After(START, steps);
      && Run(steps)
      && s.sent == [0] && s.receiver == Some(1) && s.readAt == Some(0)
      && s.copy.downReason.None? && s.snap.downReason == Some("exit")
  {
    var r0: seq<Step> := [];
    assert Run(r0) && After(START, r0) == START;
    var r1 := r0 + [DoRead];
    RunMore(r0, DoRead);
    var r2 := r1 + [Mirror(0, TunnelDown("exit"))];
    RunMore(r1, Mirror(0, TunnelDown("exit")));
    var r3 := r2 + [Cast(0)];
    RunMore(r2, Cast(0));
    var r4 := r3 + [DoSubscribe];
    RunMore(r3, DoSubscribe);
    assert r4 == [DoRead, Mirror(0, TunnelDown("exit")), Cast(0), DoSubscribe];
  }

  // ---------- What a subscriber ends up with ----------

  datatype Field = Url | LatestStep | DownReason

  function Get(snap: TunnelSnapshot, f: Field): Option<string> {
    match f
    case Url => snap.url
    case LatestStep => snap.latestStep
    case DownReason => snap.downReason
  }

  /** What an event sets the field to, if it touches it at all. */
  function Said(event: AgentEvent, f: Field): Option<Option<string>> {
    match event
    case TunnelUrlChanged(url) => if f.Url? then Some(Some(url)) else if f.DownReason? then Some(None) else None
    case TunnelStepChanged(step) => if f.LatestStep? then Some(Some(step)) else None
    case TunnelDown(reason) => if f.DownReason? then Some(Some(reason)) else None
    case OtherEvent(_) => None
  }

  /** What the last of the events that touch the field sets it to. */
  function LastSaid(events: seq<AgentEvent>, f: Field): Option<Option<string>> {
    if events == [] then None
    else if Said(events[|events| - 1], f).Some? then Said(events[|events| - 1], f)
    else LastSaid(events[..|events| - 1], f)
  }

  lemma {:induction false} FoldIsOverlay(snap: TunnelSnapshot, events: seq<AgentEvent>, f: Field)
    ensures Get(Fold(snap, events), f) == LastSaid(events, f).GetOr(Get(snap, f))
  {
    if events != [] {
      FoldIsOverlay(snap, events[..|events| - 1], f);
    }
  }

  lemma {:induction false} LastSaidConcat(a: seq<AgentEvent>, b: seq<AgentEvent>, f: Field)
    ensures LastSaid(a + b, f) == if LastSaid(b, f).Some? then LastSaid(b, f) else LastSaid(a, f)
  {
    if b == [] {
      assert a + b == a;
    } else {
      LastSaidConcat(a, b[..|b| - 1], f);
      assert (a + b)[..|a + b| - 1] == a + b[..|b| - 1];
    }
  }

  lemma {:induction false} SomeoneSaid(events: seq<AgentEvent>, f: Field)
    ensures LastSaid(events, f).Some? <==> exists i :: 0 <= i < |events| && Said(events[i], f).Some?
  {
    if events != [] {
      var init := events[..|events| - 1];
      SomeoneSaid(init, f);
      if i :| 0 <= i < |events| && Said(events[i], f).Some? {
        assert i < |init| ==> Said(init[i], f).Some?;
      }
      if i :| 0 <= i < |init| && Said(init[i], f).Some? {
        assert Said(events[i], f).Some?;
      }
    }
  }

  lemma SameFields(a: TunnelSnapshot, b: TunnelSnapshot)
    ensures a == b <==> forall f :: Get(a, f) == Get(b, f)
  {
    if forall f :: Get(a, f) == Get(b, f) {
      assert Get(a, Url) == Get(b, Url) && Get(a, LatestStep) == Get(b, LatestStep) && Get(a, DownReason) == Get(b, DownReason);
    }
  }

  /** A tail that starts before the snapshot's end may be folded over it as it is. */
  lemma OverlapHarmless(history: seq<AgentEvent>, p: nat, w: nat)
    requires p <= w <= |history|
    ensures Fold(Fold(NO_TUNNEL, history[..w]), history[p..]) == Fold(NO_TUNNEL, history)
  {
    hide Fold, LastSaid;
    var x, y, z := history[..p], history[p..w], history[w..];
    assert history[..w] == x + y && history[p..] == y + z && history == (x + y) + z;
    forall f ensures Get(Fold(Fold(NO_TUNNEL, history[..w]), history[p..]), f) == Get(Fold(NO_TUNNEL, history), f) {
      FoldIsOverlay(Fold(NO_TUNNEL, history[..w]), history[p..], f);
      FoldIsOverlay(NO_TUNNEL, history[..w], f);
      FoldIsOverlay(NO_TUNNEL, history, f);
      LastSaidConcat(x, y, f);
      LastSaidConcat(y, z, f);
      LastSaidConcat(x + y, z, f);
    }
    SameFields(Fold(Fold(NO_TUNNEL, history[..w]), history[p..]), Fold(NO_TUNNEL, history));
  }

  /** Every send that has been mirrored has been broadcast too. */
  ghost predicate Complete(s: State) {
    forall id :: id in s.mirrored ==> id in s.sent
  }

  /** The last of the delivered events that touch a field agrees with the last of all the events that do. */
  ghost predicate TailAgrees(s: State, f: Field) {
    LastSaid(Delivered(s), f).Some? ==> LastSaid(Delivered(s), f) == LastSaid(EventsOf(s.events, s.mirrored), f)
  }

  /** With all sends complete, in whatever order their halves came, a subscriber that subscribed first and folds
      what it was sent over what it read has the current tunnel state exactly if, for each field that what it was
      sent touches, the last event to touch it is, by what it says, also the last in the order of mirroring. */
  lemma {:induction false} AgreesExactly(steps: seq<Step>)
    requires Run(steps) && SubscribesFirst(steps)
    ensures var s := After(START, steps);
      s.readAt.Some? && Complete(s) ==> (Fold(s.copy, Delivered(s)) == s.snap <==> forall f :: TailAgrees(s, f))
  {
    hide Run, After, SubscribesFirst, Fold, LastSaid, EventsOf, Delivered, TailAgrees, Get;
    var s := After(START, steps);
    InvAlways(steps);
    if s.readAt.Some? && Complete(s) {
      SubscribedByRead(steps);
      forall id | id in s.sent ensures id in s.mirrored[..s.readAt.value] || id in s.sent[s.receiver.value..] {
        NothingMissed(steps, id);
      }
      forall f ensures TailAgrees(s, f) <==> Get(Fold(s.copy, Delivered(s)), f) == Get(s.snap, f) {
        FieldAgrees(s, f);
      }
      SameFields(Fold(s.copy, Delivered(s)), s.snap);
    }
  }

  ghost predicate AllSeen(s: State) {
    && s.readAt.Some? && s.readAt.value <= |s.mirrored| && s.receiver.Some? && s.receiver.value <= |s.sent|
    && forall id :: id in s.sent ==> id in s.mirrored[..s.readAt.value] || id in s.sent[s.receiver.value..]
  }

  lemma FieldAgrees(s: State, f: Field)
    requires Inv(s) && Complete(s) && AllSeen(s)
    ensures TailAgrees(s, f) <==> Get(Fold(s.copy, Delivered(s)), f) == Get(s.snap, f)
  {
    hide Fold, LastSaid, EventsOf, Get;
    var w := s.readAt.value;
    var all, tail := EventsOf(s.events, s.mirrored), Delivered(s);
    var front, back := EventsOf(s.events, s.mirrored[..w]), EventsOf(s.events, s.mirrored[w..]);
    FoldIsOverlay(s.copy, tail, f);
    FoldIsOverlay(NO_TUNNEL, front, f);
    FoldIsOverlay(NO_TUNNEL, all, f);
    EventsSplit(s.events, s.mirrored, w);
    LastSaidConcat(front, back, f);
    if LastSaid(tail, f).None? {
      NothingNew(s, f);
    } else {
      SomethingOld(s, f);
    }
  }

  lemma EventsSplit(events: map<nat, AgentEvent>, ids: seq<nat>, w: nat)
    requires w <= |ids|
    ensures EventsOf(events, ids) == EventsOf(events, ids[..w]) + EventsOf(events, ids[w..])
  {
  }

  /** If nothing delivered touches the field, nothing mirrored after the read does. */
  lemma NothingNew(s: State, f: Field)
    requires Inv(s) && Complete(s) && AllSeen(s) && LastSaid(Delivered(s), f).None?
    ensures LastSaid(EventsOf(s.events, s.mirrored[s.readAt.value..]), f).None?
  {
    hide Fold, LastSaid, Said;
    var w, tail := s.readAt.value, Delivered(s);
    var back := EventsOf(s.events, s.mirrored[w..]);
    SomeoneSaid(tail, f);
    SomeoneSaid(back, f);
    forall i | 0 <= i < |back| ensures Said(back[i], f).None? {
      var id := s.mirrored[w + i];
      assert id in s.sent;
      assert id !in s.mirrored[..w];
      var j :| 0 <= j < |s.sent| - s.receiver.value && s.sent[s.receiver.value..][j] == id;
      assert tail[j] == back[i];
    }
  }

  /** If something delivered touches the field, something mirrored does. */
  lemma SomethingOld(s: State, f: Field)
    requires Inv(s) && LastSaid(Delivered(s), f).Some?
    ensures LastSaid(EventsOf(s.events, s.mirrored), f).Some?
  {
    hide Fold, LastSaid, Said;
    var tail, all := Delivered(s), EventsOf(s.events, s.mirrored);
    SomeoneSaid(tail, f);
    SomeoneSaid(all, f);
    var j :| 0 <= j < |tail| && Said(tail[j], f).Some?;
    var id := s.sent[s.receiver.value + j];
    assert id in s.mirrored;
    var i :| 0 <= i < |s.mirrored| && s.mirrored[i] == id;
    assert all[i] == tail[j];
  }

  /** In particular it has the current state if the two halves of the sends came in the same order, although it
      may have folded some events twice. */
  lemma SubscriberAgrees(steps: seq<Step>)
    requires Run(steps) && SubscribesFirst(steps)
    ensures var s := After(START, steps);
      s.readAt.Some? && s.sent == s.mirrored ==>
        && s.receiver.Some? && s.receiver.value <= |s.sent|
        && Delivered(s) == EventsOf(s.events, s.sent[s.receiver.value..])
        && Fold(s.copy, Delivered(s)) == s.snap
  {
    hide Run, After, SubscribesFirst, Fold, LastSaid, EventsOf, Get;
    var s := After(START, steps);
    AgreesExactly(steps);
    if s.readAt.Some? && s.sent == s.mirrored {
      SubscribedByRead(steps);
      forall f ensures TailAgrees(s, f) {
        EventsSplit(s.events, s.mirrored, s.receiver.value);
        LastSaidConcat(EventsOf(s.events, s.mirrored[..s.receiver.value]), Delivered(s), f);
      }
    }
  }

  /** Out of order, it need not: here two senders mirror in one order and broadcast in the other, and the
      subscriber, who subscribed before it read, ends up with the older URL. */
  lemma OutOfOrderDisagrees()
    ensures var steps := [
        DoSubscribe, Mirror(0, TunnelUrlChanged("a")), Mirror(1, TunnelUrlChanged("b")), DoRead, Cast(1), Cast(0)];
      var s := After(START, steps);
      && Run(steps) && SubscribesFirst(steps)
      && s.mirrored == [0, 1] && s.sent == [1, 0] && s.receiver == Some(0)
      && s.snap.url == Some("b")
      && Fold(s.copy, Delivered(s)).url == Some("a")
  {
    var r0: seq<Step> := [];
    assert Run(r0) && After(START, r0) == START;
    var r1 := r0 + [DoSubscribe];
    RunMore(r0, DoSubscribe);
    var r2 := r1 + [Mirror(0, TunnelUrlChanged("a"))];
    RunMore(r1, Mirror(0, TunnelUrlChanged("a")));
    var r3 := r2 + [Mirror(1, TunnelUrlChanged("b"))];
    RunMore(r2, Mirror(1, TunnelUrlChanged("b")));
    var r4 := r3 + [DoRead];
    RunMore(r3, DoRead);
    var r5 := r4 + [Cast(1)];
    RunMore(r4, Cast(1));
    var r6 := r5 + [Cast(0)];
    RunMore(r5, Cast(0));
    assert r6 == [DoSubscribe, Mirror(0, TunnelUrlChanged("a")), Mirror(1, TunnelUrlChanged("b")), DoRead, Cast(1), Cast(0)];
    assert r6[0].DoSubscribe?;
    FoldedBackwards(After(START, r6));
  }

  lemma FoldedBackwards(s: State)
    requires s.receiver == Some(0) && s.events == map[0 := TunnelUrlChanged("a"), 1 := TunnelUrlChanged("b")] && s.sent == [1, 0]
    ensures Fold(s.copy, Delivered(s)).url == Some("a")
  {
    var c, d := TunnelUrlChanged("a"), TunnelUrlChanged("b");
    assert EventsOf(s.events, s.sent[0..]) == [d, c];
    assert [d, c][..1] == [d] && [d][..0] == [];
  }
}
