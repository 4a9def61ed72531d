/** The race for the video sink of a JPEG session (`agent/src/desktop_ws.rs`): the data channel's on-open
    callback, the five-second timer and the main loop, interleaved access by access to the shared
    `sink_chosen` flag, the one-shot signal and the channel.
 */
module SinkRace {

  datatype Choice = Racing | DataChannel | WebSocket

  datatype ChannelEvent = Opened | Closed

  /** Where the callback is: not called, about to read the flag, about to do what it decided, finished. */
  datatype Callback = Idle | Entered | WillSignal | WillClose | Returned

  /** Where the main loop is; `Fallback` is after the timer's store and before its close. */
  datatype MainLoop = Selecting | Fallback | GotDataChannel | GotWebSocket | Aborted

  datatype State = State(chosen: Choice, signalled: bool, callback: Callback, main: MainLoop, channel: seq<ChannelEvent>)

  const INITIAL: State := State(Racing, false, Idle, Selecting, [])

  datatype Step =
    | ChannelOpens | CallbackReadsFlag | CallbackSignals | CallbackCloses
    | MainTakesSignal | TimerFires | MainCloses | SessionAborts

  predicate Enabled(s: State, step: Step) {
    match step
    case ChannelOpens => s.callback.Idle?
    case CallbackReadsFlag => s.callback.Entered?
    case CallbackSignals => s.callback.WillSignal?
    case CallbackCloses => s.callback.WillClose?
    case MainTakesSignal => s.main.Selecting? && s.signalled
    case TimerFires => s.main.Selecting?
    case MainCloses => s.main.Fallback?
    case SessionAborts => s.main.Selecting?
  }

  function Next(s: State, step: Step): State
    requires Enabled(s, step)
  {
    match step
    case ChannelOpens => s.(callback := Entered, channel := s.channel + [Opened])
    case CallbackReadsFlag => s.(callback := if s.chosen.WebSocket? then WillClose else WillSignal)
    case CallbackSignals => s.(callback := Returned, signalled := true)
    case CallbackCloses => s.(callback := Returned, channel := s.channel + [Closed])
    case MainTakesSignal => s.(main := GotDataChannel, chosen := DataChannel)
    case TimerFires => s.(main := Fallback, chosen := WebSocket)
    case MainCloses => s.(main := GotWebSocket, channel := s.channel + [Closed])
    case SessionAborts => s.(main := Aborted)
  }

  ghost predicate Run(s: State, steps: seq<Step>, last: State)
    decreases |steps|
  {
    if steps == [] then last == s
    else Enabled(s, steps[0]) && Run(Next(s, steps[0]), steps[1..], last)
  }

  /** Some closing of the channel came after its opening `i`. */
  predicate ClosedAfter(channel: seq<ChannelEvent>, i: nat) {
    exists j :: i < j < |channel| && channel[j].Closed?
  }

  ghost predicate Inv(s: State) {
    && (s.chosen.DataChannel? <==> s.main.GotDataChannel?)
    && (s.chosen.WebSocket? <==> s.main.Fallback? || s.main.GotWebSocket?)
    && (s.signalled ==> s.callback.Returned?)
    && (s.callback.Idle? <==> Opened !in s.channel)
    && (forall i, j :: 0 <= i < j < |s.channel| && s.channel[i].Opened? ==> s.channel[j].Closed?)
    && (s.callback.WillClose? ==> s.chosen.WebSocket?)
    && (s.main.GotDataChannel? ==> s.signalled)
    && (!s.chosen.WebSocket? ==> s.channel == if s.callback.Idle? then [] else [Opened])
    // An open channel is either closed again, or someone still on the way will close it, or it is in use.
    && (forall i: nat :: i < |s.channel| && s.channel[i].Opened? ==>
          || ClosedAfter(s.channel, i) || !s.main.GotWebSocket? || s.callback.Entered? || s.callback.WillClose?)
  }

  lemma InvStep(s: State, step: Step)
    requires Inv(s) && Enabled(s, step)
    ensures Inv(Next(s, step))
  {
    var next := Next(s, step);
    forall i: nat | i < |next.channel| && next.channel[i].Opened?
      ensures || ClosedAfter(next.channel, i) || !next.main.GotWebSocket? || next.callback.Entered? || next.callback.WillClose?
    {
      if step.CallbackCloses? || step.MainCloses? {
        assert next.channel[|s.channel|].Closed?;
      } else if i < |s.channel| {
        assert s.channel[i].Opened?;
        assert ClosedAfter(s.channel, i) ==> ClosedAfter(next.channel, i) by {
          if j :| i < j < |s.channel| && s.channel[j].Closed? {
            assert next.channel[j].Closed?;
          }
        }
      }
    }
  }

  lemma {:induction false} InvAlways(s: State, steps: seq<Step>, last: State)
    requires Inv(s) && Run(s, steps, last)
    ensures Inv(last)
    ensures !s.chosen.Racing? ==> last.chosen == s.chosen
    decreases |steps|
  {
    if steps != [] {
      InvStep(s, steps[0]);
      InvAlways(Next(s, steps[0]), steps[1..], last);
    }
  }

  /** The callback's signal is pending or taken exactly if the callback sent it, which it does if it read the flag
      before the timer had stored it; and while the main loop still selects, it can take the signal. */
  lemma {:induction false} SignalSent(s: State, steps: seq<Step>, last: State)
    requires Run(s, steps, last)
    ensures last.signalled <==> s.signalled || CallbackSignals in steps
    ensures last.signalled && last.main.Selecting? ==>
      Enabled(last, MainTakesSignal) && Next(last, MainTakesSignal).main.GotDataChannel?
    decreases |steps|
  {
    if steps != [] {
      SignalSent(Next(s, steps[0]), steps[1..], last);
      assert steps == [steps[0]] + steps[1..];
    }
  }

  /** What the callback decides when it reads the flag, and that the signal leads to the data channel unless the timer
      or an abort comes first. */
  lemma CallbackDecides(steps: seq<Step>, s: State)
    requires Run(INITIAL, steps, s)
    ensures s.callback.Entered? ==>
      && Enabled(s, CallbackReadsFlag)
      && Next(s, CallbackReadsFlag).callback == if s.main.Fallback? || s.main.GotWebSocket? then WillClose else WillSignal
    ensures s.callback.WillSignal? && s.main.Selecting? ==>
      && Enabled(s, CallbackSignals)
      && Enabled(Next(s, CallbackSignals), MainTakesSignal)
      && Next(Next(s, CallbackSignals), MainTakesSignal).main.GotDataChannel?
    ensures s.main.GotDataChannel? ==> CallbackSignals in steps
  {
    InvAlways(INITIAL, steps, s);
    SignalSent(INITIAL, steps, s);
  }

  /** On a normal exit exactly one sink has been chosen, the flag says which, and no further step changes it. */
  lemma OneSink(steps: seq<Step>, s: State, more: seq<Step>, later: State)
    requires Run(INITIAL, steps, s) && Run(s, more, later)
    ensures s.main.GotDataChannel? <==> s.chosen.DataChannel?
    ensures s.main.GotWebSocket? ==> s.chosen.WebSocket?
    ensures s.main.GotDataChannel? || s.main.GotWebSocket? ==> later.chosen == s.chosen
  {
    InvAlways(INITIAL, steps, s);
    InvAlways(s, more, later);
  }

  /** With the WebSocket chosen, a channel that has opened is closed again after its opening, once the callback
      and the main loop are through, whichever came first. */
  lemma OrphanIsClosed(steps: seq<Step>, s: State)
    requires Run(INITIAL, steps, s)
    ensures s.main.GotWebSocket? && (s.callback.Idle? || s.callback.Returned? || s.callback.WillSignal?) ==>
      forall i: nat :: i < |s.channel| && s.channel[i].Opened? ==> ClosedAfter(s.channel, i)
  {
    InvAlways(INITIAL, steps, s);
  }

  /** With the data channel chosen, the channel did open, and nobody ever closes it in this race. */
  lemma ChosenChannelStaysOpen(steps: seq<Step>, s: State)
    requires Run(INITIAL, steps, s)
    ensures s.main.GotDataChannel? ==> s.channel == [Opened]
  {
    InvAlways(INITIAL, steps, s);
  }
}
