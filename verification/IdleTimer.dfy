/** The idle timer: a goroutine that samples, on every heartbeat, whether an attempt has gone on too long. */
module IdleTimer {
  import opened Options

  const FACTOR := 10

  /** Why a timeout was raised: the attempt's start, when it was sampled, and the limit then in force. */
  datatype Reason = Reason(start: int, sampled: int, dur: int)

  /** `lastStart` is not positive while no attempt was begun since the duration was last set. */
  datatype Timer = Timer(dur: int, heartbeat: bool, lastStart: int, lastOK: int, raised: Option<Reason>,
                         callbacks: nat, panicked: bool)

  /** A ticker needs a positive interval; making one without is a panic. */
  function NewTicker(t: Timer): Timer
  {
    if t.dur / FACTOR <= 0 then t.(panicked := true) else t.(heartbeat := true)
  }

  function New(dur: int, callbacks: nat): Timer
  {
    var t := Timer(dur, false, 0, 0, None, callbacks, false);
    if dur > 0 then NewTicker(t) else t
  }

  /** Setting a duration, up to the second reset of `lastStart`. */
  function ApplySet(t: Timer, d: int): Timer
  {
    var cleared := t.(raised := None, lastStart := -1);
    if t.dur > 0 then
      if d == t.dur then cleared
      else if d <= 0 then cleared.(dur := d, heartbeat := false)
      else NewTicker(cleared.(dur := d, heartbeat := false))
    else if d <= 0 then cleared.(dur := 0)
    else NewTicker(cleared.(dur := d))
  }

  /** Whether the second reset follows. */
  predicate ResetsTwice(t: Timer, d: int)
  {
    d > 0 && d != t.dur
  }

  predicate TimedOut(dur: int, lastStart: int, lastOK: int, mnow: int)
  {
    !(dur <= 0 || lastStart <= 0 || lastOK >= lastStart) && mnow - lastStart > dur
  }

  /** The end of a heartbeat, with the clock and the last success as sampled. */
  function Decide(t: Timer, mnow: int, ok: int): Timer
  {
    if !TimedOut(t.dur, t.lastStart, ok, mnow) then t
    else
      var fired := t.(raised := Some(Reason(t.lastStart, mnow, t.dur)), heartbeat := false);
      if t.callbacks == 0 then fired.(panicked := true) else fired
  }

  // ---- The object ----

  class Idle {
    var dur: int
    var heartbeat: bool
    var lastStart: int
    var lastOK: int
    var raised: Option<Reason>
    var callbacks: nat
    var panicked: bool

    ghost function View(): Timer
      reads this
    {
      Timer(dur, heartbeat, lastStart, lastOK, raised, callbacks, panicked)
    }

    constructor (d: int, known: nat)
      ensures View() == New(d, known)
    {
      dur, lastStart, lastOK, raised, callbacks := d, 0, 0, None, known;
      heartbeat := d > 0 && d / FACTOR > 0;
      panicked := d > 0 && d / FACTOR <= 0;
    }

    method StartTicker()
      modifies this`heartbeat, this`panicked
      ensures View() == NewTicker(old(View()))
    {
      if dur / FACTOR <= 0 {
        panicked := true;
      } else {
        heartbeat := true;
      }
    }

    /** One set request, with nothing in between its two resets. */
    method SetIdleTimeout(newdur: int)
      requires !panicked
      modifies this
      ensures View() == ApplySet(old(View()), newdur)
    {
      raised := None;
      lastStart := -1;
      if dur > 0 {
        if newdur == dur {
          return;
        }
        if newdur <= 0 {
          dur := newdur;
          heartbeat := false;
          return;
        }
        heartbeat := false;
        dur := newdur;
        StartTicker();
        lastStart := -1;
      } else {
        if newdur <= 0 {
          dur := 0;
          return;
        }
        dur := newdur;
        StartTicker();
        lastStart := -1;
      }
    }

    method IdleStatus(mnow: int) returns (timedout: bool)
      ensures timedout == TimedOut(dur, lastStart, lastOK, mnow)
    {
      if dur <= 0 || lastStart <= 0 || lastOK >= lastStart {
        return false;
      }
      var since := mnow - lastStart;
      timedout := since > dur;
    }

    /** One heartbeat, with nothing in between its readings. */
    method Heartbeat(mnow: int)
      requires !panicked && heartbeat
      modifies this
      ensures View() == Decide(old(View()), mnow, old(lastOK))
    {
      var isTimeout := IdleStatus(mnow);
      if isTimeout {
        raised := Some(Reason(lastStart, mnow, dur));
        heartbeat := false;
        if callbacks == 0 {
          panicked := true;
        }
      }
    }
  }

  // ---- The timer among other goroutines ----

  /** What was stored in `lastStart` and `lastOK`, in order. */
  datatype Event = Begun(at: int) | Succeeded(at: int) | Reset

  /** A goroutine in BeginAttempt or AttemptOK that has read the clock and not yet stored it. */
  datatype Call = Beginning(at: int) | Succeeding(at: int)

  /** Where the goroutine stands between its atomic accesses. */
  datatype Phase = Ready | Resetting | Sampled(mnow: int) | SampledOK(mnow: int, ok: int) | Stopped

  /** `seen` is history: how much was stored when `lastOK` was last sampled. */
  datatype State = State(t: Timer, now: int, phase: Phase, calls: seq<Call>, log: seq<Event>, seen: nat)

  datatype Step = Advance(span: nat) | BeginAttempt | AttemptOK | Store(i: nat) | AddCallback | SetCallback
                | Set(d: int) | FinishSet | Tick | ReadOK | FinishTick | Stop

  function Init(dur: int, callbacks: nat, now: int): State
  {
    State(New(dur, callbacks), now, Ready, [], [], 0)
  }

  function Note(s: State, t: Timer, phase: Phase, e: Event): State
  {
    s.(t := t, phase := phase, log := s.log + [e])
  }

  function StoreCall(s: State, c: Call): State
  {
    match c
    case Beginning(at) => Note(s, s.t.(lastStart := at), s.phase, Begun(at))
    case Succeeding(at) => Note(s, s.t.(lastOK := at), s.phase, Succeeded(at))
  }

  /** A step that does not apply changes nothing, and nothing follows a panic. */
  function Next(s: State, step: Step): State
  {
    if s.t.panicked then s
    else
      match step
      case Advance(k) => s.(now := s.now + k)
      case BeginAttempt => s.(calls := s.calls + [Beginning(s.now)])
      case AttemptOK => s.(calls := s.calls + [Succeeding(s.now)])
      case Store(i) =>
        if i < |s.calls| then StoreCall(s.(calls := s.calls[..i] + s.calls[i + 1..]), s.calls[i]) else s
      case AddCallback => if s.phase.Ready? then s.(t := s.t.(callbacks := s.t.callbacks + 1)) else s
      case SetCallback => if s.phase.Ready? then s.(t := s.t.(callbacks := 1)) else s
      case Set(d) =>
        if s.phase.Ready? then Note(s, ApplySet(s.t, d), if ResetsTwice(s.t, d) then Resetting else Ready, Reset) else s
      case FinishSet => if s.phase.Resetting? then Note(s, s.t.(lastStart := -1), Ready, Reset) else s
      case Tick => if s.phase.Ready? && s.t.heartbeat then s.(phase := Sampled(s.now)) else s
      case ReadOK => if s.phase.Sampled? then s.(phase := SampledOK(s.phase.mnow, s.t.lastOK), seen := |s.log|) else s
      case FinishTick => if s.phase.SampledOK? then s.(t := Decide(s.t, s.phase.mnow, s.phase.ok), phase := Ready) else s
      case Stop => if s.phase.Ready? then s.(phase := Stopped) else s
  }

  function Run(s: State, steps: seq<Step>): State
    decreases |steps|
  {
    if steps == [] then s else Next(Run(s, steps[..|steps| - 1]), steps[|steps| - 1])
  }

  // ---- What the log says ----

  /** The latest attempt stored since the last reset. */
  function OpenAttempt(log: seq<Event>): Option<int>
  {
    if log == [] then None
    else
      match log[|log| - 1]
      case Begun(at) => Some(at)
      case Reset => None
      case Succeeded(_) => OpenAttempt(log[..|log| - 1])
  }

  /** An attempt begun at `b` was stored and there was no reset since. */
  predicate BegunSinceReset(log: seq<Event>, b: int)
  {
    log != []
    && match log[|log| - 1]
       case Begun(at) => at == b || BegunSinceReset(log[..|log| - 1], b)
       case Reset => false
       case Succeeded(_) => BegunSinceReset(log[..|log| - 1], b)
  }

  /** The success stored last. */
  function LatestSuccess(log: seq<Event>): int
  {
    if log == [] then 0
    else if log[|log| - 1].Succeeded? then log[|log| - 1].at
    else LatestSuccess(log[..|log| - 1])
  }

  /** The success with the latest time. */
  function NewestSuccess(log: seq<Event>): int
  {
    if log == [] then 0
    else
      var before := NewestSuccess(log[..|log| - 1]);
      if log[|log| - 1].Succeeded? && log[|log| - 1].at > before then log[|log| - 1].at else before
  }

  lemma {:induction false} NewestIsNewest(log: seq<Event>, t: int)
    ensures Succeeded(t) in log ==> t <= NewestSuccess(log)
    ensures NewestSuccess(log) > 0 ==> Succeeded(NewestSuccess(log)) in log
  {
    if log != [] {
      NewestIsNewest(log[..|log| - 1], t);
      assert log == log[..|log| - 1] + [log[|log| - 1]];
    }
  }

  /** No older success was stored after a newer one. */
  ghost predicate InOrder(log: seq<Event>)
  {
    forall i, j :: 0 <= i < j < |log| && log[i].Succeeded? && log[j].Succeeded? ==> log[i].at <= log[j].at
  }

  lemma {:induction false} OrderedNewest(log: seq<Event>)
    requires InOrder(log) && forall t: int :: Succeeded(t) in log ==> t >= 1
    ensures NewestSuccess(log) == LatestSuccess(log)
  {
    if log != [] {
      var init := log[..|log| - 1];
      OrderedNewest(init);
      if log[|log| - 1].Succeeded? && NewestSuccess(init) > 0 {
        NewestIsNewest(init, 0);
        var i :| 0 <= i < |init| && init[i] == Succeeded(NewestSuccess(init));
        assert log[i] == init[i];
      }
    }
  }

  // ---- The invariant ----

  ghost predicate Timely(s: State)
  {
    && s.now >= 1 && 0 <= s.t.lastOK <= s.now && -1 <= s.t.lastStart <= s.now
    && (forall t: int :: Succeeded(t) in s.log ==> 1 <= t <= s.now)
    && (forall i :: 0 <= i < |s.calls| ==> 1 <= s.calls[i].at <= s.now)
    && LatestSuccess(s.log) == s.t.lastOK
    && (if s.t.lastStart > 0 then OpenAttempt(s.log) == Some(s.t.lastStart) else OpenAttempt(s.log) == None)
  }

  predicate Armed(t: Timer)
  {
    t.heartbeat ==> t.dur >= FACTOR && t.raised.None?
  }

  ghost predicate Sampling(s: State)
  {
    && s.seen <= |s.log|
    && match s.phase
       case Sampled(m) => s.t.heartbeat && 1 <= m <= s.now
       case SampledOK(m, ok) => s.t.heartbeat && 1 <= m <= s.now && ok == LatestSuccess(s.log[..s.seen])
       case _ => true
  }

  /** A raised timeout names an attempt begun since the last reset that went on for longer than the limit in force;
      the success stored last when the goroutine looked was older. */
  ghost predicate Raised(s: State, r: Reason)
  {
    && 0 < r.dur == s.t.dur && 0 < r.start
    && r.sampled - r.start > r.dur && r.sampled <= s.now
    && BegunSinceReset(s.log, r.start)
    && s.seen <= |s.log| && LatestSuccess(s.log[..s.seen]) < r.start
  }

  /** It is earned if every success stored by then was. */
  ghost predicate Earned(s: State, r: Reason)
  {
    Raised(s, r) && forall t: int :: Succeeded(t) in s.log[..s.seen] ==> t < r.start
  }

  ghost predicate Inv(s: State)
  {
    Timely(s) && Armed(s.t) && Sampling(s) && (s.t.raised.Some? ==> Raised(s, s.t.raised.value))
  }

  lemma Appended(log: seq<Event>, e: Event)
    ensures (log + [e])[..|log + [e]| - 1] == log
    ensures OpenAttempt(log + [e]) == match e case Begun(at) => Some(at) case Reset => None case Succeeded(_) => OpenAttempt(log)
    ensures LatestSuccess(log + [e]) == if e.Succeeded? then e.at else LatestSuccess(log)
    ensures forall b :: BegunSinceReset(log, b) && !e.Reset? ==> BegunSinceReset(log + [e], b)
    ensures forall n: nat {:trigger (log + [e])[..n]} :: n <= |log| ==> (log + [e])[..n] == log[..n]
  {
    assert (log + [e])[..|log + [e]| - 1] == log;
  }

  lemma {:induction false} OpenIsBegun(log: seq<Event>)
    ensures OpenAttempt(log).Some? ==> BegunSinceReset(log, OpenAttempt(log).value)
  {
    if log != [] && log[|log| - 1].Succeeded? {
      OpenIsBegun(log[..|log| - 1]);
    }
  }

  lemma InitKeeps(dur: int, callbacks: nat, now: int)
    requires now >= 1
    ensures Inv(Init(dur, callbacks, now))
  {
  }

  lemma StoreKeeps(s: State, c: Call)
    requires Inv(s) && 1 <= c.at <= s.now
    ensures Inv(StoreCall(s, c))
  {
    hide OpenAttempt, LatestSuccess, BegunSinceReset;
    Appended(s.log, if c.Beginning? then Begun(c.at) else Succeeded(c.at));
  }

  lemma ResetKeeps(s: State, t: Timer, phase: Phase)
    requires Inv(s) && t.lastStart == -1 && t.lastOK == s.t.lastOK && t.raised.None? && Armed(t)
    requires phase.Ready? || phase.Resetting?
    ensures Inv(Note(s, t, phase, Reset))
  {
    hide OpenAttempt, LatestSuccess, BegunSinceReset;
    Appended(s.log, Reset);
  }

  lemma ReadOKKeeps(s: State)
    requires Inv(s) && s.phase.Sampled?
    ensures Inv(s.(phase := SampledOK(s.phase.mnow, s.t.lastOK), seen := |s.log|))
  {
    hide OpenAttempt, LatestSuccess, BegunSinceReset;
    assert s.log[..|s.log|] == s.log;
  }

  lemma DecideKeeps(s: State)
    requires Inv(s) && s.phase.SampledOK?
    ensures Inv(s.(t := Decide(s.t, s.phase.mnow, s.phase.ok), phase := Ready))
  {
    hide LatestSuccess, BegunSinceReset;
    OpenIsBegun(s.log);
  }

  /** While a duration is being set no timeout can be raised. */
  predicate Unraised(s: State)
  {
    s.phase.Resetting? ==> s.t.raised.None?
  }

  lemma NextKeeps(s: State, step: Step)
    requires Inv(s) && Unraised(s)
    ensures Inv(Next(s, step)) && Unraised(Next(s, step))
  {
    hide OpenAttempt, LatestSuccess, BegunSinceReset;
    if !s.t.panicked {
      match step
      case Store(i) =>
        if i < |s.calls| {
          StoreKeeps(s.(calls := s.calls[..i] + s.calls[i + 1..]), s.calls[i]);
        }
      case Set(d) =>
        if s.phase.Ready? {
          ResetKeeps(s, ApplySet(s.t, d), if ResetsTwice(s.t, d) then Resetting else Ready);
        }
      case FinishSet =>
        if s.phase.Resetting? {
          ResetKeeps(s, s.t.(lastStart := -1), Ready);
        }
      case ReadOK =>
        if s.phase.Sampled? {
          ReadOKKeeps(s);
        }
      case FinishTick =>
        if s.phase.SampledOK? {
          DecideKeeps(s);
        }
      case _ =>
    }
  }

  lemma {:induction false} RunKeeps(s: State, steps: seq<Step>)
    requires Inv(s) && Unraised(s)
    ensures Inv(Run(s, steps)) && Unraised(Run(s, steps))
    decreases |steps|
  {
    hide Inv, Next, Unraised;
    if steps != [] {
      RunKeeps(s, steps[..|steps| - 1]);
      NextKeeps(Run(s, steps[..|steps| - 1]), steps[|steps| - 1]);
    }
  }

  // ---- The results ----

  lemma EarnedWhenOrdered(s: State)
    requires Inv(s) && s.t.raised.Some? && InOrder(s.log[..s.seen])
    ensures Earned(s, s.t.raised.value)
  {
    hide OpenAttempt, LatestSuccess, BegunSinceReset;
    var log := s.log[..s.seen];
    OrderedNewest(log);
    forall t: int | Succeeded(t) in log
      ensures t < s.t.raised.value.start
    {
      NewestIsNewest(log, t);
    }
  }

  /** In every run in which no older success is stored after a newer one, a raised timeout is earned. In every run
      at all the heartbeat only runs with a positive duration and no timeout raised. */
  lemma RaisedIsEarned(dur: int, callbacks: nat, now: int, steps: seq<Step>)
    requires now >= 1
    ensures var s := Run(Init(dur, callbacks, now), steps);
            && (s.t.raised.Some? && InOrder(s.log) ==> Earned(s, s.t.raised.value))
            && (s.t.heartbeat ==> s.t.dur > 0 && s.t.raised.None?)
  {
    hide Run, Earned;
    InitKeeps(dur, callbacks, now);
    RunKeeps(Init(dur, callbacks, now), steps);
    var s := Run(Init(dur, callbacks, now), steps);
    if s.t.raised.Some? && InOrder(s.log) {
      EarnedWhenOrdered(s);
    }
  }

  /** One heartbeat after `k` nanoseconds, with nothing in between. */
  function Beat(s: State, k: nat): State
  {
    Next(Next(Next(Next(s, Advance(k)), Tick), ReadOK), FinishTick)
  }

  ghost predicate RaisesFalsely(s: State)
  {
    s.t.raised.Some? && !Earned(s, s.t.raised.value)
  }

  lemma BeatRaises(s: State, k: nat)
    requires Inv(s) && s.phase.Ready? && s.t.heartbeat && !s.t.panicked
    ensures var r := Beat(s, k);
            && r.log == s.log && (r.t.raised.Some? ==> r.seen == |s.log| && r.t.raised.value.start == s.t.lastStart)
            && (r.t.raised.Some? <==> s.t.lastStart > 0 && s.t.lastOK < s.t.lastStart && s.now + k - s.t.lastStart > s.t.dur)
  {
    hide OpenAttempt, LatestSuccess, BegunSinceReset;
  }

  lemma BeatFalselyIff(s: State)
    requires Inv(s) && Unraised(s) && s.phase.Ready? && s.t.heartbeat && !s.t.panicked
    ensures (exists k: nat :: RaisesFalsely(Beat(s, k))) <==> s.t.lastOK < s.t.lastStart <= NewestSuccess(s.log)
  {
    hide OpenAttempt, BegunSinceReset, Beat, Next;
    assert s.log[..|s.log|] == s.log;
    if s.t.lastOK < s.t.lastStart <= NewestSuccess(s.log) {
      var k: nat := s.t.dur + 1;
      BeatRaises(s, k);
      NewestIsNewest(s.log, 0);
      assert RaisesFalsely(Beat(s, k));
    }
    if k: nat :| RaisesFalsely(Beat(s, k)) {
      BeatRaises(s, k);
      BeatKeeps(s, k);
      if NewestSuccess(s.log) < s.t.lastStart {
        forall t: int | Succeeded(t) in s.log
          ensures t < s.t.lastStart
        {
          NewestIsNewest(s.log, t);
        }
      }
    }
  }

  lemma BeatKeeps(s: State, k: nat)
    requires Inv(s) && Unraised(s)
    ensures Inv(Beat(s, k))
  {
    hide Inv, Next, Unraised;
    NextKeeps(s, Advance(k));
    NextKeeps(Next(s, Advance(k)), Tick);
    NextKeeps(Next(Next(s, Advance(k)), Tick), ReadOK);
    NextKeeps(Next(Next(Next(s, Advance(k)), Tick), ReadOK), FinishTick);
  }

  /** The exact condition, in every run: a timer at rest can raise a timeout that is not earned if and only if an older
      success was stored over one that is not older than the attempt. */
  lemma FalseTimeoutIff(dur: int, callbacks: nat, now: int, steps: seq<Step>)
    requires now >= 1
    ensures var s := Run(Init(dur, callbacks, now), steps);
            s.phase.Ready? && s.t.heartbeat && !s.t.panicked ==>
              ((exists k: nat :: RaisesFalsely(Beat(s, k))) <==> s.t.lastOK < s.t.lastStart <= NewestSuccess(s.log))
  {
    hide Run, Inv, Unraised, RaisesFalsely, Beat;
    InitKeeps(dur, callbacks, now);
    assert Unraised(Init(dur, callbacks, now)) by { Rested(dur, callbacks, now); }
    RunKeeps(Init(dur, callbacks, now), steps);
    var s := Run(Init(dur, callbacks, now), steps);
    if s.phase.Ready? && s.t.heartbeat && !s.t.panicked {
      BeatFalselyIff(s);
    }
  }

  lemma Rested(dur: int, callbacks: nat, now: int)
    ensures Unraised(Init(dur, callbacks, now))
  {
  }

  lemma RunStep(s: State, steps: seq<Step>, step: Step)
    ensures Run(s, steps + [step]) == Next(Run(s, steps), step)
  {
    assert (steps + [step])[..|steps|] == steps;
  }

  lemma LogOfRun()
    ensures NewestSuccess([Begun(150), Succeeded(160), Succeeded(100)]) == 160
  {
    var log := [Begun(150), Succeeded(160), Succeeded(100)];
    assert log[..2] == [Begun(150), Succeeded(160)];
    assert [Begun(150), Succeeded(160)][..1] == [Begun(150)];
    assert [Begun(150)][..0] == [];
    assert NewestSuccess([]) == 0;
    assert NewestSuccess([Begun(150)]) == 0;
    assert NewestSuccess([Begun(150), Succeeded(160)]) == 160;
  }

  /** It does happen: one goroutine reads the clock at 100 and stores it after another's attempt from 150 to 160. */
  lemma FalseTimeout() returns (steps: seq<Step>)
    ensures var s := Run(Init(10, 1, 100), steps);
            && s.phase.Ready? && s.t.heartbeat && !s.t.panicked
            && s.t.lastStart == 150 && s.t.lastOK == 100 && NewestSuccess(s.log) == 160
            && exists k: nat :: RaisesFalsely(Beat(s, k))
  {
    hide Run, RaisesFalsely, Beat;
    var s0 := Init(10, 1, 100);
    steps := [];
    assert Run(s0, steps) == s0 by { RunNone(s0); }
    RunStep(s0, [], AttemptOK);
    steps := [] + [AttemptOK];
    RunStep(s0, steps, Advance(50));
    steps := steps + [Advance(50)];
    RunStep(s0, steps, BeginAttempt);
    steps := steps + [BeginAttempt];
    RunStep(s0, steps, Store(1));
    steps := steps + [Store(1)];
    assert Run(s0, steps) == s0.(now := 150, t := s0.t.(lastStart := 150), calls := [Succeeding(100)], log := [Begun(150)]);
    RunStep(s0, steps, Advance(10));
    steps := steps + [Advance(10)];
    RunStep(s0, steps, AttemptOK);
    steps := steps + [AttemptOK];
    RunStep(s0, steps, Store(1));
    steps := steps + [Store(1)];
    RunStep(s0, steps, Store(0));
    steps := steps + [Store(0)];
    var s := Run(s0, steps);
    assert s.log == [Begun(150), Succeeded(160), Succeeded(100)];
    LogOfRun();
    FalseTimeoutIff(10, 1, 100, steps);
  }

  lemma RunNone(s: State)
    ensures Run(s, []) == s
  {
  }

  /** A heartbeat without interference raises a timeout exactly when the attempt stored last since the last reset
      is older than the limit and the success stored last is older still. */
  lemma HeartbeatExact(dur: int, callbacks: nat, now: int, steps: seq<Step>)
    requires now >= 1
    ensures var s := Run(Init(dur, callbacks, now), steps);
            var after := Next(Next(Next(s, Tick), ReadOK), FinishTick);
            s.phase.Ready? && s.t.heartbeat && !s.t.panicked ==>
              (after.t.raised.Some? <==>
                 && OpenAttempt(s.log).Some?
                 && LatestSuccess(s.log) < OpenAttempt(s.log).value
                 && s.now - OpenAttempt(s.log).value > s.t.dur)
  {
    hide Run, OpenAttempt, LatestSuccess, Earned;
    InitKeeps(dur, callbacks, now);
    RunKeeps(Init(dur, callbacks, now), steps);
  }

  lemma RaisedStep(s: State, step: Step)
    requires Inv(s) && Unraised(s) && s.t.raised.Some? && !step.Set?
    ensures Next(s, step).t.raised == s.t.raised
  {
  }

  /** However a run goes on, a raised timeout stays until a duration is set. */
  lemma {:induction false} RaisedStays(s: State, more: seq<Step>)
    requires Inv(s) && Unraised(s) && s.t.raised.Some? && forall i :: 0 <= i < |more| ==> !more[i].Set?
    ensures Run(s, more).t.raised == s.t.raised
    decreases |more|
  {
    hide Inv, Next, Unraised;
    if more != [] {
      var init := more[..|more| - 1];
      RaisedStays(s, init);
      RunKeeps(s, init);
      RaisedStep(Run(s, init), more[|more| - 1]);
    }
  }

  /** In every run, setting a duration arms the timer exactly when it is positive and long enough for a ticker,
      and not the duration already set on a timer that has fired. Turning off an inactive timer reads back as 0,
      an active one as the value given. */
  lemma SetArmsIff(dur: int, callbacks: nat, now: int, steps: seq<Step>, d: int)
    requires now >= 1
    ensures var s := Run(Init(dur, callbacks, now), steps);
            var r := Next(s, Set(d)).t;
            s.phase.Ready? && !s.t.panicked ==>
              && (r.heartbeat && !r.panicked <==> d >= FACTOR && !(d == s.t.dur && !s.t.heartbeat))
              && r.raised.None?
              && (d <= 0 ==> r.dur == if s.t.dur > 0 then d else 0)
              && (d > 0 ==> r.dur == d)
              && (Next(s, Set(d)).phase.Resetting? <==> d > 0 && d != s.t.dur)
  {
    hide Run, Timely, Earned;
    InitKeeps(dur, callbacks, now);
    RunKeeps(Init(dur, callbacks, now), steps);
  }

  predicate Fired(t: Timer)
  {
    t.dur > 0 && !t.heartbeat
  }

  /** Steps that set only the duration `d`. */
  predicate SetsOnly(steps: seq<Step>, d: int)
  {
    forall i :: 0 <= i < |steps| && steps[i].Set? ==> steps[i].d == d
  }

  /** After it has fired, setting the same duration any number of times never gets it to fire again, however
      long an attempt goes on. */
  lemma {:induction false} FiredStaysDisarmed(s: State, steps: seq<Step>)
    requires Fired(s.t) && (s.phase.Ready? || s.phase.Stopped?) && SetsOnly(steps, s.t.dur)
    ensures var r := Run(s, steps);
            && Fired(r.t) && r.t.dur == s.t.dur && (r.phase.Ready? || r.phase.Stopped?)
            && (r.t.raised.Some? ==> r.t.raised == s.t.raised)
    decreases |steps|
  {
    if steps != [] {
      var init := steps[..|steps| - 1];
      FiredStaysDisarmed(s, init);
      assert SetsOnly(init, s.t.dur);
      FiredStep(Run(s, init), steps[|steps| - 1]);
    }
  }

  lemma FiredStep(s: State, step: Step)
    requires Fired(s.t) && (s.phase.Ready? || s.phase.Stopped?) && (step.Set? ==> step.d == s.t.dur)
    ensures var r := Next(s, step);
            && Fired(r.t) && r.t.dur == s.t.dur && (r.phase.Ready? || r.phase.Stopped?)
            && (r.t.raised == s.t.raised || r.t.raised.None?)
  {
  }

  /** A run in which that happens: an attempt of eleven nanoseconds under a limit of ten. */
  lemma SameDurationDoesNotRearm()
    ensures var s0 := Init(10, 1, 1);
            var s1 := Next(Next(Next(s0, BeginAttempt), Store(0)), Advance(11));
            var s2 := Next(Next(Next(s1, Tick), ReadOK), FinishTick);
            var s3 := Next(s2, Set(10));
            s0.t.heartbeat && s2.t.raised.Some? && s3.t.raised.None? && Fired(s3.t)
  {
  }

  /** The goroutine takes a callback, a duration or a stop only between heartbeats; adding a callback keeps the others,
      setting one forgets them. */
  lemma CallbacksKnown(s: State, step: Step)
    requires !s.t.panicked && (step.AddCallback? || step.SetCallback? || step.Stop?)
    ensures !s.phase.Ready? ==> Next(s, step) == s
    ensures s.phase.Ready? && step.AddCallback? ==> Next(s, step) == s.(t := s.t.(callbacks := s.t.callbacks + 1))
    ensures s.phase.Ready? && step.SetCallback? ==> Next(s, step) == s.(t := s.t.(callbacks := 1))
  {
  }

  /** A call stores its own time, once, and leaves the other calls alone. */
  lemma StoreTakesOne(s: State, i: nat)
    requires !s.t.panicked && i < |s.calls|
    ensures var r, c := Next(s, Store(i)), s.calls[i];
            && multiset(r.calls) == multiset(s.calls) - multiset{c}
            && (c.Beginning? ==> r.t == s.t.(lastStart := c.at)) && (c.Succeeding? ==> r.t == s.t.(lastOK := c.at))
  {
    assert s.calls == s.calls[..i] + [s.calls[i]] + s.calls[i + 1..];
  }

  /** A new duration forgets every attempt stored before it is in force: also those between its two resets. */
  lemma SetForgets(s: State, d: int, calls: nat)
    requires s.phase.Ready? && !s.t.panicked && d >= FACTOR && d != s.t.dur
    ensures var begun := Next(s, Set(d));
            var r := Next(Next(begun, Store(calls)), FinishSet);
            r.phase.Ready? && r.t.dur == d && r.t.lastStart == -1 && OpenAttempt(r.log).None?
  {
    var begun := Next(s, Set(d));
    Appended(s.log, Reset);
    var stored := Next(begun, Store(calls));
    Appended(stored.log, Reset);
  }

  /** After Stop the goroutine does nothing more: whatever others do, no timeout is raised or withdrawn. */
  lemma {:induction false} StoppedStays(s: State, steps: seq<Step>)
    requires s.phase.Ready? && !s.t.panicked
    ensures var r := Run(Next(s, Stop), steps); r.phase.Stopped? && r.t.raised == s.t.raised && !r.t.panicked
    decreases |steps|
  {
    if steps != [] {
      StoppedStays(s, steps[..|steps| - 1]);
    }
  }

  /** The timer panics exactly where a ticker is made for less than ten nanoseconds, or a timeout is raised
      with no callback known. */
  lemma PanicIff(s: State, step: Step)
    requires Inv(s) && !s.t.panicked
    ensures Next(s, step).t.panicked <==>
            || (step.Set? && s.phase.Ready? && 0 < step.d < FACTOR && step.d != s.t.dur)
            || (step.FinishTick? && s.phase.SampledOK? && s.t.callbacks == 0
                && TimedOut(s.t.dur, s.t.lastStart, s.phase.ok, s.phase.mnow))
  {
  }
}
