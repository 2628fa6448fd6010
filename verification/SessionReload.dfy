/**
 Coalesced session loads (frontend/js/app.js:617-640, 824-840): calls arrive in bursts, at most one load
 runs, and a call that finds one running or one just finished is remembered. Time is the clock reading
 `Date.now()`, handed in with each event.
*/
module SessionReload {

  /** The gap between loads, which is also the timer's delay. */
  const MIN_GAP: nat := 400

  /** What happens: a caller asks, the running load settles, the reload timer goes off. */
  datatype Event = Call(now: nat) | Settle(now: nat) | Fire(now: nat)

  datatype Mark = Started(at: nat) | Ended(at: nat)

  /**
   The four flags of the code, and what a run has done so far: when the timer was armed, how many calls
   were made, how many of them a load has been started for, the first moment one of the others was made,
   and the log of loads.
  */
  datatype State = State(inFlight: bool, pending: bool, timer: bool, loadedAt: nat,
                         armedAt: nat, calls: nat, served: nat, since: nat, log: seq<Mark>)

  const INITIAL: State := State(false, false, false, 0, 0, 0, 0, 0, [])

  // ---- one event -------------------------------------------------------------------

  /** `scheduleSessionsReload`. */
  function Schedule(s: State, now: nat): State { if s.timer then s else s.(timer := true, armedAt := now) }

  /** `loadSessions` up to its first await. */
  function Load(s: State, now: nat): State {
    if s.inFlight then s.(pending := true)
    else if s.loadedAt != 0 && now - s.loadedAt < MIN_GAP then Schedule(s, now)
    else s.(inFlight := true, served := s.calls, log := s.log + [Started(now)])
  }

  /** The `finally` block of `loadSessions`. */
  function Finish(s: State, now: nat): State {
    var t := s.(inFlight := false, loadedAt := now, log := s.log + [Ended(now)]);
    if t.pending then Schedule(t.(pending := false), now) else t
  }

  /** Only a running load settles, and only an armed timer fires, once its delay is over. */
  predicate Enabled(s: State, e: Event) {
    match e
    case Call(_) => true
    case Settle(_) => s.inFlight
    case Fire(now) => s.timer && s.armedAt + 400 <= now
  }

  /** One more call, the first one waiting if none was. */
  function Asked(s: State, now: nat): State {
    s.(calls := s.calls + 1, since := if s.served < s.calls then s.since else now)
  }

  function Step(s: State, e: Event): State
    requires Enabled(s, e)
  {
    match e
    case Call(now) => Load(Asked(s, now), now)
    case Settle(now) => Finish(s, now)
    case Fire(now) => Load(s.(timer := false), now)
  }

  // ---- the flags as the code keeps them ------------------------------------------------

  class SessionList {
    var inFlight: bool
    var reloadPending: bool
    var reloadTimer: bool
    var loadedAt: nat
    ghost var armedAt: nat
    ghost var calls: nat
    ghost var served: nat
    ghost var since: nat
    ghost var log: seq<Mark>

    ghost function TheState(): State
      reads this
    {
      State(inFlight, reloadPending, reloadTimer, loadedAt, armedAt, calls, served, since, log)
    }

    constructor ()
      ensures TheState() == INITIAL
    {
      inFlight, reloadPending, reloadTimer, loadedAt := false, false, false, 0;
      armedAt, calls, served, since, log := 0, 0, 0, 0, [];
    }

    method ScheduleReload(ghost now: nat)
      modifies this`reloadTimer, this`armedAt
      ensures TheState() == Schedule(old(TheState()), now)
    {
      if reloadTimer { return; }
      reloadTimer, armedAt := true, now;
    }

    method LoadSessions(now: nat)
      modifies this
      ensures TheState() == Load(old(TheState()), now)
    {
      if inFlight {
        reloadPending := true;
        return;
      }
      if loadedAt != 0 && now - loadedAt < MIN_GAP {
        ScheduleReload(now);
        return;
      }
      inFlight := true;
      served, log := calls, log + [Started(now)];
    }

    /** A caller's `loadSessions()`. */
    method Request(now: nat)
      modifies this
      ensures TheState() == Step(old(TheState()), Call(now))
    {
      since := if served < calls then since else now;
      calls := calls + 1;
      LoadSessions(now);
    }

    /** The load is over, whether it succeeded or not. */
    method LoadSettled(now: nat)
      requires inFlight
      modifies this
      ensures TheState() == Step(old(TheState()), Settle(now))
    {
      inFlight := false;
      loadedAt := now;
      log := log + [Ended(now)];
      if reloadPending {
        reloadPending := false;
        ScheduleReload(now);
      }
    }

    /** The timer's callback. */
    method TimerFired(now: nat)
      requires reloadTimer && armedAt + 400 <= now
      modifies this
      ensures TheState() == Step(old(TheState()), Fire(now))
    {
      reloadTimer := false;
      LoadSessions(now);
    }
  }

  // ---- runs --------------------------------------------------------------------------------

  /** Events in the order of their clock readings, each possible when it happens. */
  ghost predicate IsRun(events: seq<Event>)
    decreases |events|, 0
  {
    |events| == 0 ||
    var before := events[..|events| - 1];
    var e := events[|events| - 1];
    && IsRun(before) && Enabled(After(before), e)
    && e.now > 0 && (|before| > 0 ==> before[|before| - 1].now <= e.now)
  }

  ghost function After(events: seq<Event>): State
    requires IsRun(events)
    decreases |events|, 1
  {
    if |events| == 0 then INITIAL
    else Step(After(events[..|events| - 1]), events[|events| - 1])
  }

  ghost function Clock(events: seq<Event>): nat {
    if |events| == 0 then 0 else events[|events| - 1].now
  }

  /** Loads never overlap: starts and ends alternate, beginning with a start. */
  ghost predicate Alternates(log: seq<Mark>) {
    forall i :: 0 <= i < |log| ==> (log[i].Started? <==> i % 2 == 0)
  }

  /** No load starts within the gap after any earlier load ended. */
  ghost predicate Spaced(log: seq<Mark>) {
    forall i, j :: 0 <= i < j < |log| && log[i].Ended? && log[j].Started? ==> log[i].at + 400 <= log[j].at
  }

  /** What the flags mean for the log and for the calls still waiting. */
  ghost predicate Sound(s: State, clock: nat) {
    && Alternates(s.log) && Spaced(s.log)
    && (s.inFlight <==> |s.log| % 2 == 1)
    && (if |s.log| < 2 then s.loadedAt == 0 else s.loadedAt == s.log[LastEnd(s.log)].at > 0)
    && (forall i :: 0 <= i < |s.log| && s.log[i].Ended? ==> s.log[i].at <= s.loadedAt)
    && s.loadedAt <= clock
    && (s.pending ==> s.inFlight)
    && s.served <= s.calls
    && (s.served < s.calls ==> (s.inFlight && s.pending) || s.timer)
    && (s.timer ==> s.armedAt < s.loadedAt + 400)
  }

  /** Position of the latest end in an alternating log. */
  function LastEnd(log: seq<Mark>): nat
    requires |log| >= 2
  {
    if |log| % 2 == 0 then |log| - 1 else |log| - 2
  }

  lemma LoadSound(s: State, clock: nat, now: nat)
    requires s.served <= s.calls && clock <= now
    requires Sound(s.(served := s.calls), clock)
    ensures Sound(Load(s, now), now)
  {
    var r := Load(s, now);
    if !s.inFlight && !(s.loadedAt != 0 && now - s.loadedAt < MIN_GAP) {
      forall i, j | 0 <= i < j < |r.log| && r.log[i].Ended? && r.log[j].Started?
        ensures r.log[i].at + 400 <= r.log[j].at
      {
        if j < |s.log| {
          assert s.log[i].at + 400 <= s.log[j].at;
        }
      }
    }
  }

  lemma FinishSound(s: State, clock: nat, now: nat)
    requires Sound(s, clock) && clock <= now && now > 0 && s.inFlight
    ensures Sound(Finish(s, now), now)
  {
  }

  lemma StepSound(s: State, clock: nat, e: Event)
    requires Sound(s, clock) && clock <= e.now && e.now > 0 && Enabled(s, e)
    ensures Sound(Step(s, e), e.now)
  {
    match e
    case Call(now) => LoadSound(Asked(s, now), clock, now);
    case Settle(now) => FinishSound(s, clock, now);
    case Fire(now) => LoadSound(s.(timer := false), clock, now);
  }

  /**
   After any interleaving of calls, settlements and timer firings: loads never overlap, none starts
   within 400 ms of an earlier one's end, and a call no load was started for is remembered, by the
   pending flag under a running load or by an armed timer.
  */
  lemma {:induction false} RunsAreSound(events: seq<Event>)
    requires IsRun(events)
    ensures Sound(After(events), Clock(events))
  {
    if |events| > 0 {
      var before := events[..|events| - 1];
      RunsAreSound(before);
      StepSound(After(before), Clock(before), events[|events| - 1]);
    }
  }

  // ---- how long a call waits -------------------------------------------------------------------

  /** When a due timer fires, every call is served, unless a load is running or has ended since it was armed. */
  lemma FiringServes(events: seq<Event>, now: nat)
    requires IsRun(events) && Enabled(After(events), Fire(now))
    ensures var s := After(events); var t := Step(s, Fire(now));
            if s.inFlight then t.pending
            else s.loadedAt <= s.armedAt ==> t.inFlight && t.served == t.calls
  {
  }

  /** Nothing happens while a load has been running for longer than `longest`, or a timer is later than `late`. */
  predicate InTime(s: State, now: nat, longest: nat, late: nat)
    requires s.inFlight ==> |s.log| > 0
  {
    && (s.inFlight ==> now <= s.log[|s.log| - 1].at + longest)
    && (s.timer ==> now <= s.armedAt + 400 + late)
  }

  /** Runs in which loads settle and timers fire in time. */
  ghost predicate IsTimelyRun(events: seq<Event>, longest: nat, late: nat)
    decreases |events|
  {
    && IsRun(events)
    && (|events| > 0 ==>
          && IsTimelyRun(events[..|events| - 1], longest, late)
          && (After(events[..|events| - 1]).inFlight ==> |After(events[..|events| - 1]).log| > 0)
          && InTime(After(events[..|events| - 1]), Clock(events), longest, late))
  }

  /** A call still waiting was made during the running load, or not long before the last one ended. */
  ghost predicate Waits(s: State, clock: nat, longest: nat, late: nat) {
    && Sound(s, clock) && s.since <= clock
    && (s.inFlight ==> s.log[|s.log| - 1].at <= clock)
    && (s.served < s.calls ==>
          && (s.inFlight ==> s.log[|s.log| - 1].at <= s.since)
          && (!s.inFlight ==> s.loadedAt <= s.since + longest)
          && clock <= s.since + longest + 800 + late)
  }

  lemma StepWaits(s: State, clock: nat, e: Event, longest: nat, late: nat)
    requires Waits(s, clock, longest, late) && clock <= e.now && e.now > 0 && Enabled(s, e)
    requires InTime(s, e.now, longest, late)
    ensures Waits(Step(s, e), e.now, longest, late)
  {
    StepSound(s, clock, e);
  }

  /**
   No call waits longer than a load may take plus two gaps, and whatever a timer is late: in a timely run,
   at every moment, each unserved call was made at most that long ago.
  */
  lemma {:induction false} WaitingCallsAreServed(events: seq<Event>, longest: nat, late: nat)
    requires IsTimelyRun(events, longest, late)
    ensures Waits(After(events), Clock(events), longest, late)
    ensures var s := After(events);
            s.served < s.calls ==> Clock(events) <= s.since + longest + 800 + late
  {
    if |events| > 0 {
      var before := events[..|events| - 1];
      WaitingCallsAreServed(before, longest, late);
      StepWaits(After(before), Clock(before), events[|events| - 1], longest, late);
    }
  }

  // ---- event by event ------------------------------------------------------------------------

  /** The last load ended less than 400 ms ago. */
  ghost predicate JustLoaded(log: seq<Mark>, now: nat) {
    |log| > 0 && log[|log| - 1].Ended? && now < log[|log| - 1].at + 400
  }

  /** A call, or the timer when it goes off, asks for a load: now, behind the running one, or after the gap. */
  ghost predicate Asks(s: State, t: State, now: nat, timer: bool) {
    if s.inFlight then t.inFlight && t.pending && t.log == s.log && t.timer == timer
    else if JustLoaded(s.log, now) then !t.inFlight && !t.pending && t.log == s.log && t.timer
    else t.inFlight && !t.pending && t.log == s.log + [Started(now)] && t.served == t.calls && t.timer == timer
  }

  /** What each event does in a run, told by the log of loads. */
  lemma EventDoes(events: seq<Event>, e: Event)
    requires IsRun(events) && Enabled(After(events), e) && Clock(events) <= e.now && e.now > 0
    ensures var s, t := After(events), Step(After(events), e);
            match e
            case Call(now) => t.calls == s.calls + 1 && Asks(s, t, now, s.timer)
            case Settle(now) =>
              && !t.inFlight && !t.pending && t.log == s.log + [Ended(now)] && t.calls == s.calls
              && t.timer == (s.timer || s.pending) && (t.timer && !s.timer ==> t.armedAt == now)
            case Fire(now) => t.calls == s.calls && Asks(s, t, now, false)
  {
    hide Sound, IsRun;
    RunsAreSound(events);
    LastEnded(After(events), Clock(events), e.now);
  }

  lemma LastEnded(s: State, clock: nat, now: nat)
    requires Sound(s, clock) && clock <= now
    ensures s.pending ==> s.inFlight
    ensures !s.inFlight ==> (JustLoaded(s.log, now) <==> s.loadedAt != 0 && now - s.loadedAt < 400)
  {
    hide Spaced;
    if !s.inFlight && |s.log| > 0 {
      assert s.log[|s.log| - 1].Ended?;
      assert |s.log| >= 2 && LastEnd(s.log) == |s.log| - 1;
    }
  }
}
