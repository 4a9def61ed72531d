/** The encoder thread of the AV1 pipeline (`agent/src/av1_pipeline.rs`).

    One `Round` is one turn of the thread's loop with everything it finds: the keyframe requests (PLIs) and
    the bitrate waiting for it, the frames in the capture queue, and what the encoder answers. All of that is
    arbitrary. Times are milliseconds.
 */
module Av1Pipeline {
  import opened Common

  const PLI_MIN_INTERVAL: nat := 1_000

  datatype Frame = Frame(width: u32, height: u32, forceIdr: bool, content: nat)

  datatype EncodeResult = Encoded(isKeyframe: bool) | Skipped | Failed

  datatype Round = Round(
    plis: nat, newBitrate: Option<u32>, setOk: bool, queue: seq<Frame>, buildOk: bool, now: int, result: EncodeResult)

  /** The encoder as it is configured, whoever configured it. */
  datatype Encoder = Encoder(width: u32, height: u32, bitrate: u32)

  /** One call of `encode`. */
  datatype EncodeCall = EncodeCall(encoder: Encoder, frame: Frame, forceIdr: bool, pliHonored: bool)

  datatype State = State(
    encoder: Encoder, width: u32, height: u32, lastBitrate: u32, pliPending: bool, lastIdrAt: Option<int>)

  function PliForceAllowed(lastIdrAt: Option<int>, now: int): (ok: bool)
    ensures ok <==> forall t :: lastIdrAt == Some(t) ==> t <= now - PLI_MIN_INTERVAL
  {
    match lastIdrAt
    case None => true
    case Some(t) => Since(now, t) >= PLI_MIN_INTERVAL
  }

  // ---------- What one round does ----------

  function Start(width: u32, height: u32, bitrate: u32): State {
    State(Encoder(width, height, bitrate), width, height, bitrate, false, None)
  }

  function WithRequests(s: State, r: Round): State {
    var pending := s.pliPending || r.plis > 0;
    if r.newBitrate.Some? && r.newBitrate.value != s.lastBitrate && r.setOk then
      s.(pliPending := pending, encoder := s.encoder.(bitrate := r.newBitrate.value), lastBitrate := r.newBitrate.value)
    else s.(pliPending := pending)
  }

  predicate Drops(s: State, r: Round) {
    r.queue == [] ||
    (var f := r.queue[|r.queue| - 1]; (f.width != s.width || f.height != s.height) && !r.buildOk)
  }

  /** The state in which `encode` is called. */
  function Fitted(s: State, r: Round): State
    requires r.queue != []
  {
    var t := WithRequests(s, r);
    var f := r.queue[|r.queue| - 1];
    if f.width == s.width && f.height == s.height then t
    else t.(encoder := Encoder(f.width, f.height, t.lastBitrate), width := f.width, height := f.height)
  }

  function Call(s: State, r: Round): EncodeCall
    requires !Drops(s, r)
  {
    var t := Fitted(s, r);
    var honored := t.pliPending && PliForceAllowed(t.lastIdrAt, r.now);
    EncodeCall(t.encoder, r.queue[|r.queue| - 1], (exists k :: 0 <= k < |r.queue| && r.queue[k].forceIdr) || honored, honored)
  }

  function Next(s: State, r: Round): State {
    if Drops(s, r) then WithRequests(s, r)
    else
      var t, call := Fitted(s, r), Call(s, r);
      if !r.result.Encoded? then t
      else t.(pliPending := t.pliPending && !call.pliHonored,
              lastIdrAt := if r.result.isKeyframe then Some(r.now) else t.lastIdrAt)
  }

  // ---------- The thread ----------

  class Av1Thread {
    var encoder: Encoder
    var encoderW: u32
    var encoderH: u32
    var lastBitrate: u32
    var pliPending: bool
    var lastIdrAt: Option<int>

    function View(): State
      reads this
    {
      State(encoder, encoderW, encoderH, lastBitrate, pliPending, lastIdrAt)
    }

    constructor (width: u32, height: u32, bitrate: u32)
      ensures View() == Start(width, height, bitrate)
    {
      encoder := Encoder(width, height, bitrate);
      encoderW, encoderH, lastBitrate := width, height, bitrate;
      pliPending, lastIdrAt := false, None;
    }

    /** Takes everything that is queued behind the first frame; only the newest frame is kept, with the forced
        keyframe of any that were passed over. */
    static method DrainToNewest(queue: seq<Frame>) returns (frame: Frame, force: bool)
      requires queue != []
      ensures frame == queue[|queue| - 1]
      ensures force <==> exists k :: 0 <= k < |queue| && queue[k].forceIdr
    {
      frame := queue[0];
      force := frame.forceIdr;
      var i := 1;
      while i < |queue|
        invariant 1 <= i <= |queue|
        invariant frame == queue[i - 1]
        invariant force <==> exists k :: 0 <= k < i && queue[k].forceIdr
      {
        var newer := queue[i];
        force := force || newer.forceIdr;
        frame := newer;
        i := i + 1;
      }
    }

    /** The first half of a turn: the keyframe requests are drained and the new bitrate, if any, is applied. */
    method TakeRequests(plis: nat, newBitrate: Option<u32>, setOk: bool)
      modifies this`pliPending, this`encoder, this`lastBitrate
      ensures pliPending <==> old(pliPending) || plis > 0
      ensures var applied := if newBitrate.Some? && newBitrate.value != old(lastBitrate) && setOk then newBitrate else None;
        && lastBitrate == applied.GetOr(old(lastBitrate))
        && encoder == if applied.Some? then old(encoder).(bitrate := applied.value) else old(encoder)
    {
      var left := plis;
      while left > 0
        modifies this`pliPending
        invariant 0 <= left <= plis
        invariant pliPending <==> old(pliPending) || left < plis
      {
        pliPending := true;
        left := left - 1;
      }
      if newBitrate.Some? {
        var newBps := newBitrate.value;
        if newBps != lastBitrate && setOk {
          encoder := encoder.(bitrate := newBps);
          lastBitrate := newBps;
        }
      }
    }

    method Turn(r: Round) returns (call: Option<EncodeCall>)
      modifies this
      ensures View() == Next(old(View()), r)
      ensures call == if Drops(old(View()), r) then None else Some(Call(old(View()), r))
    {
      hide PliForceAllowed;
      TakeRequests(r.plis, r.newBitrate, r.setOk);
      assert View() == WithRequests(old(View()), r);
      if r.queue == [] {
        return None;
      }
      var frame, drainedForceIdr := DrainToNewest(r.queue);
      if frame.width != encoderW || frame.height != encoderH {
        if !r.buildOk {
          return None;
        }
        encoder := Encoder(frame.width, frame.height, lastBitrate);
        encoderW := frame.width;
        encoderH := frame.height;
      }
      assert View() == Fitted(old(View()), r);
      var pliHonored := pliPending && PliForceAllowed(lastIdrAt, r.now);
      call := Some(EncodeCall(encoder, frame, drainedForceIdr || pliHonored, pliHonored));
      match r.result
      case Encoded(isKeyframe) =>
        if pliHonored {
          pliPending := false;
        }
        if isKeyframe {
          lastIdrAt := Some(r.now);
        }
      case Skipped =>
      case Failed =>
    }
  }

  // ---------- Runs ----------

  function StateAt(s0: State, run: seq<Round>, i: nat): State
    requires i <= |run|
  {
    if i == 0 then s0 else Next(StateAt(s0, run, i - 1), run[i - 1])
  }

  predicate Calls(s0: State, run: seq<Round>, i: nat)
    requires i < |run|
  {
    !Drops(StateAt(s0, run, i), run[i])
  }

  /** The last bitrate the encoder accepted before round `i`, or the one it was built with. */
  function LastApplied(initial: u32, run: seq<Round>, i: nat): u32
    requires i <= |run|
  {
    if i == 0 then initial
    else if run[i - 1].newBitrate.Some? && run[i - 1].setOk then run[i - 1].newBitrate.value
    else LastApplied(initial, run, i - 1)
  }

  /** The dimensions of the last frame before round `i` that an encoder could be had for, or the initial ones. */
  function LastFitted(initial: (u32, u32), run: seq<Round>, i: nat): (u32, u32)
    requires i <= |run|
  {
    if i == 0 then initial
    else if run[i - 1].queue != [] && run[i - 1].buildOk then
      var f := run[i - 1].queue[|run[i - 1].queue| - 1];
      (f.width, f.height)
    else LastFitted(initial, run, i - 1)
  }

  lemma {:induction false} Configured(width: u32, height: u32, bitrate: u32, run: seq<Round>, i: nat)
    requires i <= |run|
    ensures var s := StateAt(Start(width, height, bitrate), run, i);
      && s.lastBitrate == LastApplied(bitrate, run, i)
      && (s.width, s.height) == LastFitted((width, height), run, i)
      && s.encoder == Encoder(s.width, s.height, s.lastBitrate)
  {
    if i > 0 {
      Configured(width, height, bitrate, run, i - 1);
    }
  }

  /** Every call of `encode` is on the newest frame of the queue, with an encoder of that frame's dimensions and
      of the bitrate last accepted, even if it was rebuilt since, and forces a keyframe exactly if a queued frame
      asked for one or pending requests are honoured. */
  lemma EncodeCallRight(width: u32, height: u32, bitrate: u32, run: seq<Round>, i: nat)
    requires i < |run|
    ensures var s0 := Start(width, height, bitrate);
      Calls(s0, run, i) ==>
        var call, queue := Call(StateAt(s0, run, i), run[i]), run[i].queue;
        && call.frame == queue[|queue| - 1]
        && call.encoder == Encoder(call.frame.width, call.frame.height, LastApplied(bitrate, run, i + 1))
        && (call.forceIdr <==> call.pliHonored || exists k :: 0 <= k < |queue| && queue[k].forceIdr)
  {
    Configured(width, height, bitrate, run, i);
  }

  /** `encode` is called exactly in the rounds that have a frame for which the encoder fits or can be rebuilt. */
  lemma CallsExactly(width: u32, height: u32, bitrate: u32, run: seq<Round>, i: nat)
    requires i < |run|
    ensures Calls(Start(width, height, bitrate), run, i) <==>
      && run[i].queue != []
      && var f := run[i].queue[|run[i].queue| - 1];
         (f.width, f.height) == LastFitted((width, height), run, i) || run[i].buildOk
  {
    Configured(width, height, bitrate, run, i);
  }

  // ---------- Keyframe requests ----------

  /** Round `i` encoded a frame with a keyframe forced on behalf of the pending requests. */
  predicate Satisfies(s0: State, run: seq<Round>, i: nat)
    requires i < |run|
  {
    Calls(s0, run, i) && Call(StateAt(s0, run, i), run[i]).pliHonored && run[i].result.Encoded?
  }

  /** A request drained in round `j` has not been answered by round `i`. */
  ghost predicate Unanswered(s0: State, run: seq<Round>, j: nat, i: nat)
    requires i <= |run|
  {
    j < i && run[j].plis > 0 && forall k :: j <= k < i ==> !Satisfies(s0, run, k)
  }

  lemma PendingStep(s0: State, run: seq<Round>, i: nat)
    requires i < |run|
    ensures StateAt(s0, run, i + 1).pliPending <==>
      (StateAt(s0, run, i).pliPending || run[i].plis > 0) && !Satisfies(s0, run, i)
  {
  }

  /** A request is pending exactly when one was drained and no encode forced for it has succeeded since. */
  lemma {:induction false} PliNeverLost(width: u32, height: u32, bitrate: u32, run: seq<Round>, i: nat)
    requires i <= |run|
    ensures var s0 := Start(width, height, bitrate);
      StateAt(s0, run, i).pliPending <==> exists j: nat :: Unanswered(s0, run, j, i)
  {
    var s0 := Start(width, height, bitrate);
    if i > 0 {
      hide Satisfies, Next;
      var p: nat := i - 1;
      PliNeverLost(width, height, bitrate, run, p);
      PendingStep(s0, run, p);
      if j: nat :| Unanswered(s0, run, j, i) {
        assert !Satisfies(s0, run, p);
        assert j < p ==> Unanswered(s0, run, j, p);
      }
      if StateAt(s0, run, i).pliPending {
        if run[p].plis > 0 {
          assert Unanswered(s0, run, p, i);
        } else {
          var j: nat :| Unanswered(s0, run, j, p);
          assert Unanswered(s0, run, j, i);
        }
      }
    }
  }

  // ---------- A frame's own demand for a keyframe ----------

  /** Round `i` encoded a frame with a keyframe forced, for whatever reason. */
  predicate ForcedEncode(s0: State, run: seq<Round>, i: nat)
    requires i < |run|
  {
    Calls(s0, run, i) && Call(StateAt(s0, run, i), run[i]).forceIdr && run[i].result.Encoded?
  }

  /** The same round, but no frame in its queue asks for a keyframe. */
  function WithoutDemands(r: Round): Round {
    r.(queue := seq(|r.queue|, k requires 0 <= k < |r.queue| => r.queue[k].(forceIdr := false)))
  }

  lemma DemandLeavesNoTrace(s: State, r: Round)
    ensures Next(s, WithoutDemands(r)) == Next(s, r)
  {
    hide PliForceAllowed;
    assert Drops(s, WithoutDemands(r)) == Drops(s, r);
  }

  lemma {:induction false} DemandsForgotten(s0: State, run: seq<Round>, i: nat, j: nat)
    requires i < |run| && j <= |run|
    ensures StateAt(s0, run[i := WithoutDemands(run[i])], j) == StateAt(s0, run, j)
  {
    hide Next, WithoutDemands;
    DemandLeavesNoTrace(StateAt(s0, run, i), run[i]);
    if j > 0 {
      DemandsForgotten(s0, run, i, j - 1);
    }
  }

  /** Unlike a request, which stays pending, a frame's own demand lasts one round: it is met there exactly if any
      rebuild that is needed works and the encode succeeds. If not, it is lost: the state and the call of every
      other round are what they would be without it. */
  lemma DemandLastsOneRound(s0: State, run: seq<Round>, i: nat, k: nat, j: nat)
    requires i < |run| && k < |run[i].queue| && run[i].queue[k].forceIdr
    requires j < |run| && j != i
    ensures var s, newest := StateAt(s0, run, i), run[i].queue[|run[i].queue| - 1];
      ForcedEncode(s0, run, i) <==>
        ((newest.width == s.width && newest.height == s.height) || run[i].buildOk) && run[i].result.Encoded?
    ensures var without := run[i := WithoutDemands(run[i])];
      && Calls(s0, without, j) == Calls(s0, run, j)
      && (Calls(s0, run, j) ==> Call(StateAt(s0, without, j), without[j]) == Call(StateAt(s0, run, j), run[j]))
  {
    DemandsForgotten(s0, run, i, j);
  }

  /** So a keyframe that was asked for may never be forced: here the first encode fails and the second succeeds. */
  lemma DemandLost()
    ensures var run := [Round(0, None, true, [Frame(8, 8, true, 1)], true, 0, Failed),
                        Round(0, None, true, [Frame(8, 8, false, 2)], true, 33, Encoded(false))];
      var s0 := Start(8, 8, 1000);
      Calls(s0, run, 1) && !ForcedEncode(s0, run, 0) && !ForcedEncode(s0, run, 1) && run[1].result.Encoded?
  {
    var run := [Round(0, None, true, [Frame(8, 8, true, 1)], true, 0, Failed),
                Round(0, None, true, [Frame(8, 8, false, 2)], true, 33, Encoded(false))];
    var s0 := Start(8, 8, 1000);
    assert StateAt(s0, run, 0) == s0 && StateAt(s0, run, 1) == s0;
  }

  ghost predicate ClockMonotone(run: seq<Round>) {
    forall i, j :: 0 <= i <= j < |run| ==> run[i].now <= run[j].now
  }

  predicate Keyframe(s0: State, run: seq<Round>, i: nat)
    requires i < |run|
  {
    Calls(s0, run, i) && run[i].result.Encoded? && run[i].result.isKeyframe
  }

  lemma {:induction false} LastKeyframe(width: u32, height: u32, bitrate: u32, run: seq<Round>, i: nat)
    requires i <= |run| && ClockMonotone(run)
    ensures var s0 := Start(width, height, bitrate); var last := StateAt(s0, run, i).lastIdrAt;
      forall k :: 0 <= k < i && Keyframe(s0, run, k) ==> last.Some? && run[k].now <= last.value
    ensures var s0 := Start(width, height, bitrate); var last := StateAt(s0, run, i).lastIdrAt;
      last.Some? ==> exists k :: 0 <= k < i && Keyframe(s0, run, k) && last.value == run[k].now
  {
    if i > 0 {
      LastKeyframe(width, height, bitrate, run, i - 1);
    }
  }

  /** A keyframe forced on behalf of requests comes at least a second after every keyframe before it; and once
      a second has passed, a pending request is not held back. */
  lemma PliThrottle(width: u32, height: u32, bitrate: u32, run: seq<Round>, i: nat)
    requires i < |run| && ClockMonotone(run)
    ensures var s0 := Start(width, height, bitrate); var s := StateAt(s0, run, i);
      Calls(s0, run, i) && (s.pliPending || run[i].plis > 0) ==>
        (Call(s, run[i]).pliHonored <==>
          forall k :: 0 <= k < i && Keyframe(s0, run, k) ==> run[i].now - run[k].now >= 1_000)
    ensures var s0 := Start(width, height, bitrate); var s := StateAt(s0, run, i);
      Calls(s0, run, i) && Call(s, run[i]).pliHonored ==> s.pliPending || run[i].plis > 0
  {
    LastKeyframe(width, height, bitrate, run, i);
  }
}
