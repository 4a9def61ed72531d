/** The single-viewer session registry (`agent/src/desktop_service.rs`) and the life of a desktop session
    around it (`agent/src/desktop_ws.rs`).

    Each access to the concurrent map is one step, so registration is two, and a run is any interleaving of
    the steps of any number of sessions. A session is told to close when its sender fires and also when
    its sender is dropped: either way its receiver resolves, and every loop that waits on it ends.
 */
module DesktopRegistry {
  import opened Common

  type Device = string
  type Session = nat

  datatype Phase = Registering | Running | Ended

  datatype State = State(
    handles: map<Device, Session>, told: set<Session>, device: map<Session, Device>, phase: map<Session, Phase>)

  const EMPTY: State := State(map[], {}, map[], map[])

  // ---------- The registry ----------

  /** The map's entry for a device is taken away and its handle is used up or dropped. */
  function TakeSpec(handles: map<Device, Session>, told: set<Session>, d: Device): (map<Device, Session>, set<Session>) {
    (handles - {d}, if d in handles then told + {handles[d]} else told)
  }

  /** A handle is put in the map; a handle that was there is dropped. */
  function PutSpec(handles: map<Device, Session>, told: set<Session>, d: Device, s: Session): (map<Device, Session>, set<Session>) {
    (handles[d := s], if d in handles then told + {handles[d]} else told)
  }

  class DesktopService {
    var handles: map<Device, Session>
    var told: set<Session>

    constructor ()
      ensures handles == map[] && told == {}
    {
      handles, told := map[], {};
    }

    /** The first half of `register`. */
    method EvictOld(d: Device)
      modifies this
      ensures (handles, told) == TakeSpec(old(handles), old(told), d)
    {
      if d in handles {
        told := told + {handles[d]};
      }
      handles := handles - {d};
    }

    /** The second half of `register`. */
    method InsertNew(d: Device, s: Session)
      modifies this
      ensures (handles, told) == PutSpec(old(handles), old(told), d, s)
    {
      if d in handles {
        told := told + {handles[d]};
      }
      handles := handles[d := s];
    }

    /** `register` with nothing in between: whoever held the device is told, the new session is not. */
    method Register(d: Device, s: Session)
      requires s !in told && s !in handles.Values
      modifies this
      ensures handles == old(handles)[d := s] && s !in told
      ensures told == old(told) + if d in old(handles) then {old(handles)[d]} else {}
    {
      EvictOld(d);
      InsertNew(d, s);
    }

    method Remove(d: Device)
      modifies this
      ensures (handles, told) == TakeSpec(old(handles), old(told), d)
    {
      EvictOld(d);
    }

    method Kick(d: Device) returns (kicked: bool)
      modifies this
      ensures (handles, told) == TakeSpec(old(handles), old(told), d)
      ensures kicked <==> d in old(handles)
    {
      kicked := d in handles;
      if kicked {
        told := told + {handles[d]};
      }
      handles := handles - {d};
    }
  }

  // ---------- Sessions as interleaved steps ----------

  datatype Step =
    | Begin(s: Session, d: Device)   // `register`, up to the removal of the old entry
    | Finish(s: Session)             // the rest of `register`
    | KickDevice(d: Device)
    | End(s: Session)                // the session's loop is over and its trailing `remove` runs

  predicate Enabled(st: State, step: Step) {
    match step
    case Begin(s, _) => s !in st.phase
    case Finish(s) => s in st.phase && s in st.device && st.phase[s].Registering?
    case KickDevice(_) => true
    case End(s) => s in st.phase && s in st.device && st.phase[s].Running?
  }

  function Next(st: State, step: Step): State
    requires Enabled(st, step)
  {
    match step
    case Begin(s, d) =>
      var (handles, told) := TakeSpec(st.handles, st.told, d);
      State(handles, told, st.device[s := d], st.phase[s := Registering])
    case Finish(s) =>
      var (handles, told) := PutSpec(st.handles, st.told, st.device[s], s);
      State(handles, told, st.device, st.phase[s := Running])
    case KickDevice(d) =>
      var (handles, told) := TakeSpec(st.handles, st.told, d);
      st.(handles := handles, told := told)
    case End(s) =>
      var (handles, told) := TakeSpec(st.handles, st.told, st.device[s]);
      State(handles, told, st.device, st.phase[s := Ended])
  }

  ghost predicate Run(st: State, steps: seq<Step>, last: State)
    decreases |steps|
  {
    if steps == [] then last == st
    else Enabled(st, steps[0]) && Run(Next(st, steps[0]), steps[1..], last)
  }

  /** Starting to register on a device, or kicking it, frees it at once: whoever held it is told, and nobody else. */
  lemma Freed(st: State, step: Step, d: Device)
    requires Enabled(st, step) && (step.Begin? || step.KickDevice?) && d == step.d
    ensures var next := Next(st, step);
      && next.handles == (map e | e in st.handles && e != d :: st.handles[e])
      && next.told == st.told + (if d in st.handles then {st.handles[d]} else {})
      && (forall s :: s in st.phase ==>
            s in next.phase && next.phase[s] == st.phase[s] && (s in st.device ==> next.device[s] == st.device[s]))
  {
  }

  /** The second half of registering makes the session the device's holder; one that came in between is told. */
  lemma Held(st: State, s: Session)
    requires Enabled(st, Finish(s))
    ensures var next, d := Next(st, Finish(s)), st.device[s];
      && next.handles == st.handles[d := s] && next.phase == st.phase[s := Running] && next.device == st.device
      && next.told == st.told + (if d in st.handles then {st.handles[d]} else {})
  {
  }

  /** Registered and not told to close. */
  predicate Live(st: State, s: Session) {
    s in st.phase && st.phase[s].Running? && s !in st.told
  }

  ghost predicate Inv(st: State) {
    && st.device.Keys == st.phase.Keys
    && (forall d :: d in st.handles ==> Live(st, st.handles[d]) && st.device[st.handles[d]] == d)
    && (forall s :: Live(st, s) ==> st.device[s] in st.handles && st.handles[st.device[s]] == s)
    && (forall s :: s in st.told ==> s in st.phase && !st.phase[s].Registering?)
    && (forall s :: s in st.phase && st.phase[s].Ended? ==> s in st.told)
  }

  lemma InvStep(st: State, step: Step)
    requires Inv(st) && Enabled(st, step)
    ensures Inv(Next(st, step))
  {
  }

  lemma {:induction false} InvAlways(st: State, steps: seq<Step>, last: State)
    requires Inv(st) && Run(st, steps, last)
    ensures Inv(last)
    decreases |steps|
  {
    if steps != [] {
      InvStep(st, steps[0]);
      InvAlways(Next(st, steps[0]), steps[1..], last);
    }
  }

  /** In every interleaving, at most one registered session per device has not been told to close, and the map
      holds the handles of exactly those sessions. */
  lemma SingleViewer(steps: seq<Step>, st: State)
    requires Run(EMPTY, steps, st)
    ensures forall s, d :: Live(st, s) && s in st.device && st.device[s] == d <==> d in st.handles && st.handles[d] == s
    ensures forall s, t :: Live(st, s) && Live(st, t) && s in st.device && t in st.device && st.device[s] == st.device[t] ==> s == t
  {
    InvAlways(EMPTY, steps, st);
  }

  /** Once no registration is under way, any session at all that has not been told is one of those. */
  lemma QuiescentViewer(steps: seq<Step>, st: State)
    requires Run(EMPTY, steps, st)
    requires forall s :: s in st.phase ==> !st.phase[s].Registering?
    ensures forall s :: s in st.phase && s !in st.told ==>
      s in st.device && st.device[s] in st.handles && st.handles[st.device[s]] == s
    ensures (forall s :: s in st.phase ==> st.phase[s].Ended?) ==> st.handles == map[]
  {
    InvAlways(EMPTY, steps, st);
  }

  /** The trailing `remove` of a session that ends goes by device. It closes another session exactly when the
      one that ends had been told to close and the device has been taken over since. */
  lemma TrailingRemove(steps: seq<Step>, st: State, s: Session)
    requires Run(EMPTY, steps, st) && Enabled(st, End(s))
    ensures (exists t :: t != s && t in Next(st, End(s)).told && t !in st.told)
      <==> s in st.told && st.device[s] in st.handles
    ensures s !in st.told ==>
      st.device[s] in st.handles && st.handles[st.device[s]] == s && Next(st, End(s)).handles == st.handles - {st.device[s]}
  {
    InvAlways(EMPTY, steps, st);
    if s in st.told && st.device[s] in st.handles {
      var t := st.handles[st.device[s]];
      assert t != s && t in Next(st, End(s)).told && t !in st.told;
    }
  }

  /** So the newest session need not survive: the second viewer evicts the first, and the first, on its way out,
      closes the second. */
  lemma NewestNeedNotSurvive()
    ensures exists st ::
      && Run(EMPTY, [Begin(1, "d"), Finish(1), Begin(2, "d"), Finish(2), End(1)], st)
      && st.handles == map[] && 2 in st.told && 2 in st.phase && st.phase[2].Running?
  {
    var s1 := Next(EMPTY, Begin(1, "d"));
    var s2 := Next(s1, Finish(1));
    var s3 := Next(s2, Begin(2, "d"));
    var s4 := Next(s3, Finish(2));
    var s5 := Next(s4, End(1));
    assert Run(s5, [], s5);
    RunThen(s4, End(1), [], s5);
    RunThen(s3, Finish(2), [End(1)], s5);
    RunThen(s2, Begin(2, "d"), [Finish(2), End(1)], s5);
    RunThen(s1, Finish(1), [Begin(2, "d"), Finish(2), End(1)], s5);
    RunThen(EMPTY, Begin(1, "d"), [Finish(1), Begin(2, "d"), Finish(2), End(1)], s5);
  }

  lemma RunThen(st: State, step: Step, rest: seq<Step>, last: State)
    requires Enabled(st, step) && Run(Next(st, step), rest, last)
    ensures Run(st, [step] + rest, last)
  {
    assert ([step] + rest)[1..] == rest;
  }
}
