/**
 Polling for a GitHub sign-in (frontend/js/github.js:465-609). The poll is an async function, so its
 activations are listed explicitly; so are the browser's timers.
*/
module DeviceFlow {

  const MAX_FAILURES: nat := 40

  /** Where an activation of `pollDeviceFlow` is suspended: on the request, or on `await this.load()`. */
  datatype Frame = Requesting | Reloading

  datatype TimerRef = NoTimer | Timer(id: nat)

  datatype State = State(active: bool, timer: TimerRef, armed: set<nat>, nextId: nat,
                         inFlight: bool, frames: seq<Frame>, failures: nat)

  const INITIAL: State := State(false, NoTimer, {}, 1, false, [], 0)

  datatype Event =
    | Show                                  // a sign-in card comes up, fresh or found by a status load
    | Wake                                  // visibilitychange, focus or pageshow
    | Cancel                                // the button, or a status that shows no flow
    | Fire(id: nat)                         // the browser runs a timer
    | Pending(frame: nat)                   // the poll answers: not yet
    | Expired(frame: nat)
    | Complete(frame: nat)
    | Loaded(frame: nat)                    // the reload after completion is done
    | Failed(frame: nat, gone: bool)        // the poll or that reload throws; gone: no sign-in in progress

  // ---- the methods as functions -----------------------------------------------------

  /** `scheduleDevicePoll`. */
  function Schedule(s: State): State {
    if !s.active then s
    else
      var armed := if s.timer.Timer? then s.armed - {s.timer.id} else s.armed;
      s.(timer := Timer(s.nextId), armed := armed + {s.nextId}, nextId := s.nextId + 1)
  }

  /** `cancelDeviceFlow`. */
  function Stop(s: State): State {
    s.(active := false, failures := 0, timer := NoTimer,
       armed := if s.timer.Timer? then s.armed - {s.timer.id} else s.armed)
  }

  /** `pollDeviceFlow` up to its first await. */
  function Poll(s: State): State {
    if !s.active || s.inFlight then s
    else s.(inFlight := true, frames := s.frames + [Requesting])
  }

  function Drop(frames: seq<Frame>, i: nat): seq<Frame>
    requires i < |frames|
  {
    frames[..i] + frames[i + 1..]
  }

  /** The `finally` block, which ends the activation. */
  function Settle(s: State, frame: nat): State
    requires frame < |s.frames|
  {
    Schedule(s.(inFlight := false, frames := Drop(s.frames, frame)))
  }

  /** The `catch` block. */
  function Catch(s: State, gone: bool): State {
    if gone then Stop(s)
    else
      var t := s.(failures := s.failures + 1);
      if t.failures > MAX_FAILURES then Stop(t) else t
  }

  predicate Enabled(s: State, e: Event) {
    match e
    case Fire(id) => id in s.armed
    case Pending(f) => f < |s.frames| && s.frames[f] == Requesting
    case Expired(f) => f < |s.frames| && s.frames[f] == Requesting
    case Complete(f) => f < |s.frames| && s.frames[f] == Requesting
    case Loaded(f) => f < |s.frames| && s.frames[f] == Reloading
    case Failed(f, _) => f < |s.frames|
    case _ => true
  }

  function Step(s: State, e: Event): State
    requires Enabled(s, e)
  {
    match e
    case Show => Schedule(s.(active := true, failures := 0))
    case Wake => Schedule(s)
    case Cancel => Stop(s)
    case Fire(id) => Poll(s.(armed := s.armed - {id}, timer := NoTimer))
    case Pending(f) => Settle(s.(failures := 0), f)
    case Expired(f) => Settle(Stop(s), f)
    case Complete(f) => Stop(s).(frames := s.frames[f := Reloading])
    case Loaded(f) => Settle(s, f)
    case Failed(f, gone) => Settle(Catch(s, gone), f)
  }

  // ---- the object as the code keeps it --------------------------------------------------

  class GithubPane {
    var deviceFlowActive: bool
    var devicePollTimer: TimerRef
    var devicePollInFlight: bool
    var devicePollFailures: nat
    /** The browser's side: armed timers, the next id, and suspended activations. */
    var armed: set<nat>
    var nextId: nat
    var frames: seq<Frame>

    ghost function TheState(): State
      reads this
    {
      State(deviceFlowActive, devicePollTimer, armed, nextId, devicePollInFlight, frames, devicePollFailures)
    }

    constructor ()
      ensures TheState() == INITIAL
    {
      deviceFlowActive, devicePollTimer, devicePollInFlight, devicePollFailures := false, NoTimer, false, 0;
      armed, nextId, frames := {}, 1, [];
    }

    method ClearTimeout()
      modifies this`armed
      ensures armed == if devicePollTimer.Timer? then old(armed) - {devicePollTimer.id} else old(armed)
    {
      if devicePollTimer.Timer? { armed := armed - {devicePollTimer.id}; }
    }

    method ScheduleDevicePoll()
      modifies this
      ensures TheState() == Schedule(old(TheState()))
    {
      if !deviceFlowActive { return; }
      ClearTimeout();
      armed := armed + {nextId};
      devicePollTimer := Timer(nextId);
      nextId := nextId + 1;
    }

    method CancelDeviceFlow()
      modifies this
      ensures TheState() == Stop(old(TheState()))
    {
      deviceFlowActive := false;
      devicePollFailures := 0;
      ClearTimeout();
      devicePollTimer := NoTimer;
    }

    method ShowDeviceFlow()
      modifies this
      ensures TheState() == Step(old(TheState()), Show)
    {
      deviceFlowActive := true;
      devicePollFailures := 0;
      ScheduleDevicePoll();
    }

    /** The wake-up listeners. */
    method WakeUp()
      modifies this
      ensures TheState() == Step(old(TheState()), Wake)
    {
      if !deviceFlowActive { return; }
      ScheduleDevicePoll();
    }

    method TimerFired(id: nat)
      requires id in armed
      modifies this
      ensures TheState() == Step(old(TheState()), Fire(id))
    {
      armed := armed - {id};
      devicePollTimer := NoTimer;
      if !deviceFlowActive || devicePollInFlight { return; }
      devicePollInFlight := true;
      frames := frames + [Requesting];
    }

    method Finally(frame: nat)
      requires frame < |frames|
      modifies this
      ensures TheState() == Settle(old(TheState()), frame)
    {
      devicePollInFlight := false;
      frames := Drop(frames, frame);
      ScheduleDevicePoll();
    }

    /** The poll's answer, branch by branch. */
    method PollAnswered(e: Event)
      requires (e.Pending? || e.Expired? || e.Complete?) && Enabled(TheState(), e)
      modifies this
      ensures TheState() == Step(old(TheState()), e)
    {
      if e.Complete? {
        CancelDeviceFlow();
        frames := frames[e.frame := Reloading];
        return;
      }
      if e.Expired? {
        CancelDeviceFlow();
        Finally(e.frame);
        return;
      }
      devicePollFailures := 0;
      Finally(e.frame);
    }

    method ReloadDone(frame: nat)
      requires frame < |frames| && frames[frame] == Reloading
      modifies this
      ensures TheState() == Step(old(TheState()), Loaded(frame))
    {
      Finally(frame);
    }

    method PollFailed(frame: nat, gone: bool)
      requires frame < |frames|
      modifies this
      ensures TheState() == Step(old(TheState()), Failed(frame, gone))
    {
      if gone {
        CancelDeviceFlow();
      } else {
        devicePollFailures := devicePollFailures + 1;
        if devicePollFailures > MAX_FAILURES {
          CancelDeviceFlow();
        }
      }
      Finally(frame);
    }
  }

  // ---- runs --------------------------------------------------------------------------------

  ghost predicate IsRun(events: seq<Event>)
    decreases |events|, 0
  {
    |events| == 0 ||
    (IsRun(events[..|events| - 1]) && Enabled(After(events[..|events| - 1]), events[|events| - 1]))
  }

  ghost function After(events: seq<Event>): State
    requires IsRun(events)
    decreases |events|, 1
  {
    if |events| == 0 then INITIAL
    else Step(After(events[..|events| - 1]), events[|events| - 1])
  }

  /** Failures in a row: transient ones count, anything that restarts or ends the flow does not. */
  function Streak(events: seq<Event>): nat {
    if |events| == 0 then 0
    else
      var before := Streak(events[..|events| - 1]);
      match events[|events| - 1]
      case Failed(_, gone) => if gone then 0 else before + 1
      case Wake => before
      case Fire(_) => before
      case Loaded(_) => before
      case _ => 0
  }

  /** An active flow always has its next poll coming, and never two of anything. */
  ghost predicate Sound(s: State, streak: nat) {
    && s.armed == (if s.timer.Timer? then {s.timer.id} else {})
    && (s.timer.Timer? ==> s.active)
    && |s.frames| <= 1 && (s.inFlight <==> |s.frames| == 1)
    && (s.active ==> s.timer.Timer? || s.inFlight)
    && (s.active ==> s.failures == streak <= 40)
  }

  lemma ScheduleSound(s: State, streak: nat)
    requires s.armed == (if s.timer.Timer? then {s.timer.id} else {})
    requires (s.timer.Timer? ==> s.active) && |s.frames| <= 1 && (s.inFlight <==> |s.frames| == 1)
    requires s.active ==> s.failures == streak <= 40
    ensures Sound(Schedule(s), streak)
  {
  }

  lemma StepSound(s: State, streak: nat, e: Event, next: nat)
    requires Sound(s, streak) && Enabled(s, e)
    requires next == match e
               case Failed(_, gone) => if gone then 0 else streak + 1
               case Wake => streak
               case Fire(_) => streak
               case Loaded(_) => streak
               case _ => 0
    ensures Sound(Step(s, e), next)
  {
    match e
    case Show => ScheduleSound(s.(active := true, failures := 0), 0);
    case Wake => ScheduleSound(s, streak);
    case Cancel =>
    case Fire(id) =>
    case Pending(f) => ScheduleSound(s.(failures := 0, inFlight := false, frames := Drop(s.frames, f)), 0);
    case Expired(f) => ScheduleSound(Stop(s).(inFlight := false, frames := Drop(s.frames, f)), 0);
    case Complete(f) =>
    case Loaded(f) => ScheduleSound(s.(inFlight := false, frames := Drop(s.frames, f)), streak);
    case Failed(f, gone) => ScheduleSound(Catch(s, gone).(inFlight := false, frames := Drop(s.frames, f)), next);
  }

  lemma {:induction false} RunsAreSound(events: seq<Event>)
    requires IsRun(events)
    ensures Sound(After(events), Streak(events))
  {
    if |events| > 0 {
      var before := events[..|events| - 1];
      RunsAreSound(before);
      StepSound(After(before), Streak(before), events[|events| - 1], Streak(events));
    }
  }

  /**
   In every run: at most one timer and one poll; while the flow is active one of them is there; and
   41 failures in a row have ended it.
  */
  lemma FlowKeepsPolling(events: seq<Event>)
    requires IsRun(events)
    ensures var s := After(events);
            && |s.armed| <= 1 && |s.frames| <= 1
            && (s.active ==> |s.armed| == 1 || |s.frames| == 1)
            && (Streak(events) > 40 ==> !s.active && s.armed == {})
  {
    RunsAreSound(events);
  }

  /** Fewer failures do not end a flow: it goes on with a fresh timer. */
  lemma TransientFailureContinues(events: seq<Event>, frame: nat)
    requires IsRun(events) && After(events).active && frame < |After(events).frames|
    requires Streak(events) < 40
    ensures var s := Step(After(events), Failed(frame, false));
            s.active && s.timer.Timer? && s.frames == [] && s.failures == Streak(events) + 1
  {
    RunsAreSound(events);
  }

  // ---- when a flow is on ------------------------------------------------------------------

  /**
   A flow is on from the moment its card is shown until it is cancelled, completed, expired or gone, or
   fails for the forty-first time in a row.
  */
  function Ongoing(events: seq<Event>): bool {
    if |events| == 0 then false
    else
      var before := events[..|events| - 1];
      match events[|events| - 1]
      case Show => true
      case Cancel => false
      case Complete(_) => false
      case Expired(_) => false
      case Failed(_, gone) => Ongoing(before) && !gone && Streak(before) < 40
      case _ => Ongoing(before)
  }

  lemma {:induction false} ActiveIsOngoing(events: seq<Event>)
    requires IsRun(events)
    ensures After(events).active <==> Ongoing(events)
  {
    if |events| > 0 {
      ActiveIsOngoing(events[..|events| - 1]);
      RunsAreSound(events[..|events| - 1]);
    }
  }

  /**
   What each event does in a run: which polls are under way, whether a timer is set, and whether it is a new
   one. Showing a card and waking up set a new one; a poll or its answer sets one again while the flow is on.
  */
  lemma EventDoes(events: seq<Event>, e: Event)
    requires IsRun(events) && Enabled(After(events), e)
    ensures var s, t := After(events), Step(After(events), e);
            && (t.timer.Timer? <==> t.armed != {})
            && match e
               case Show => t.active && t.timer == Timer(s.nextId) && t.frames == s.frames && t.failures == 0
               case Wake =>
                 && t.active == s.active && t.frames == s.frames && t.failures == s.failures
                 && t.timer == if s.active then Timer(s.nextId) else s.timer
               case Cancel => !t.active && t.timer == NoTimer && t.frames == s.frames
               case Fire(_) =>
                 && t.active == s.active && t.timer == NoTimer && t.failures == s.failures
                 && t.frames == if s.active && s.frames == [] then [Requesting] else s.frames
               case Pending(_) =>
                 && t.active == s.active && t.frames == [] && t.failures == 0
                 && t.timer == if s.active then Timer(s.nextId) else NoTimer
               case Complete(_) => !t.active && t.timer == NoTimer && t.frames == [Reloading]
               case Expired(_) => !t.active && t.timer == NoTimer && t.frames == []
               case Loaded(_) =>
                 && t.active == s.active && t.frames == [] && t.failures == s.failures
                 && t.timer == if s.active then Timer(s.nextId) else NoTimer
               case Failed(_, gone) =>
                 && t.frames == [] && (t.active <==> s.active && !gone && s.failures < 40)
                 && t.timer == (if t.active then Timer(s.nextId) else NoTimer)
                 && (t.active ==> t.failures == s.failures + 1)
  {
    RunsAreSound(events);
  }
}
