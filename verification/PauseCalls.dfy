/** The calls of the main thread as a whole: what open, pause, resume and close leave behind when they return, that they
    return, and how thoroughly the polling thread runs its runnables. */
module PauseCalls {
  import opened Bytes
  import opened PauseHandshake

  // ----- what a caller may expect -----

  /** What the calls made so far come to, as long as none is still under way. */
  datatype Expected = Expected(running: bool, paused: bool, enabled: bool)

  function Expecting(e: Expected, a: Action): Expected
  {
    match a
    case Open => if e.running then e else e.(running := true, paused := false)
    case Pause => e.(paused := e.running)
    case Resume => e.(paused := false)
    case Close => e.(running := false, paused := false)
    case Enable(on) => e.(enabled := on)
    case _ => e
  }

  /** A call counts when the main thread makes it, which it can only between calls. */
  function Called(runnables: nat, actions: seq<Action>): Expected
  {
    if actions == [] then Expected(true, false, true)
    else
      var pre := actions[..|actions| - 1];
      if After(runnables, pre).main.Idle? then Expecting(Called(runnables, pre), Last(actions))
      else Called(runnables, pre)
  }

  /** A call under way is the one that was made last, and has yet to bring about what is expected. */
  ghost predicate Underway(s: State, e: Expected)
  {
    && s.enabled == e.enabled
    && match s.main
       case Idle => s.running == e.running && s.paused == e.paused
       case PauseEnter | PauseHold | PauseNotify | PauseAwait => s.running && e.running && e.paused
       case ResumeEnter | ResumeHold | ResumeNotify => s.running && e.running && !e.paused
       case CloseEnter | CloseHold | CloseNotify | CloseJoin => s.running && !e.running && !e.paused
  }

  lemma CallUnderway(s: State, e: Expected, a: Action)
    requires Inv(s) && s.main.Idle? && Underway(s, e)
    ensures Underway(Call(s, a), Expecting(e, a))
  {
  }

  lemma MainUnderway(s: State, e: Expected)
    requires Inv(s) && Underway(s, e) && MainNext(s).Some?
    ensures Underway(MainNext(s).value, e) && !s.main.Idle?
  {
  }

  lemma WorkerUnderway(s: State, e: Expected, work: bool, spurious: bool)
    requires Underway(s, e) && WorkerNext(s, work, spurious).Some?
    ensures Underway(WorkerNext(s, work, spurious).value, e)
  {
    hide WorkerNext;
  }

  lemma StepUnderway(s: State, e: Expected, a: Action)
    requires Inv(s) && Underway(s, e)
    ensures Underway(Next(s, a), if s.main.Idle? then Expecting(e, a) else e)
  {
    hide Inv, Underway, Call, MainNext, WorkerNext;
    match a {
      case MainStep => if MainNext(s).Some? { MainUnderway(s, e); }
      case WorkerStep(work, spurious) =>
        if WorkerNext(s, work, spurious).Some? { WorkerUnderway(s, e, work, spurious); }
      case _ => if s.main.Idle? { CallUnderway(s, e, a); }
    }
  }

  lemma {:induction false} AlwaysUnderway(runnables: nat, actions: seq<Action>)
    ensures Underway(After(runnables, actions), Called(runnables, actions))
    decreases |actions|
  {
    if actions != [] {
      hide Inv, Underway, Next, Expecting;
      var pre := actions[..|actions| - 1];
      AlwaysUnderway(runnables, pre);
      Reachable(runnables, pre);
      StepUnderway(After(runnables, pre), Called(runnables, pre), Last(actions));
    }
  }

  /** In every interleaving, whenever the main thread is between calls, the polling thread is open, paused and enabled
      exactly as the calls made so far say. */
  lemma CallsTakeEffect(runnables: nat, actions: seq<Action>)
    requires After(runnables, actions).main.Idle?
    ensures var s, e := After(runnables, actions), Called(runnables, actions);
            && s.running == e.running
            && s.paused == e.paused
            && s.enabled == e.enabled
            && (e.running ==> !s.stop && (e.paused ==> PauseInEffect(s)))
            && (!e.running ==> s.worker.Done?)
  {
    AlwaysUnderway(runnables, actions);
    Reachable(runnables, actions);
  }

  // ----- calls return -----

  /** Steps left until the call returns. */
  function StepsLeft(pc: MainPc): nat
  {
    match pc
    case Idle => 0
    case PauseAwait | ResumeNotify | CloseJoin => 1
    case PauseNotify | ResumeHold | CloseNotify => 2
    case PauseHold | ResumeEnter | CloseHold => 3
    case PauseEnter | CloseEnter => 4
  }

  lemma GivesBack(s: State, work: bool, spurious: bool)
    requires MutexHeld(s) && s.mutex.Worker?
    ensures var u := WorkerNext(s, work, spurious); u.Some? && u.value.mutex.Nobody? && u.value.main == s.main
  {
    hide RunNext;
  }

  lemma Blocked(s: State)
    requires Inv(s) && !s.main.Idle? && MainNext(s).None?
    ensures s.main.PauseAwait? ==> s.pendingAck
    ensures s.main.CloseJoin? ==> !s.worker.Done?
    ensures !s.main.PauseAwait? && !s.main.CloseJoin? ==>
              s.mutex.Worker? && (s.main.PauseEnter? || s.main.ResumeEnter? || s.main.CloseEnter?)
  {
  }

  lemma Comes(s: State)
    requires MainNext(s).Some?
    ensures StepsLeft(MainNext(s).value.main) == StepsLeft(s.main) - 1
  {
    hide Notified;
    match s.main {
      case PauseEnter | ResumeEnter | CloseEnter =>
      case PauseHold | ResumeHold | CloseHold =>
      case PauseNotify | ResumeNotify | CloseNotify =>
      case PauseAwait | CloseJoin =>
    }
  }

  /** Every step of the main thread brings its call nearer to its return. It is kept from one only by a polling thread
      that gives the mutex back with its next step, by a pause not yet acknowledged, and by a thread not yet at its
      end. */
  lemma CallGoesOn(runnables: nat, actions: seq<Action>, work: bool, spurious: bool)
    requires !After(runnables, actions).main.Idle?
    ensures var s := After(runnables, actions);
            var u := Next(s, WorkerStep(work, spurious));
            || StepsLeft(Next(s, MainStep).main) == StepsLeft(s.main) - 1
            || (s.mutex.Worker? && StepsLeft(Next(u, MainStep).main) == StepsLeft(s.main) - 1)
            || (s.main.PauseAwait? && s.pendingAck)
            || (s.main.CloseJoin? && !s.worker.Done?)
  {
    hide WorkerNext, MainNext, StepsLeft, NotForgotten, Lifetime;
    Reachable(runnables, actions);
    var s := After(runnables, actions);
    if MainNext(s).Some? {
      Comes(s);
    } else {
      Blocked(s);
      if s.mutex.Worker? {
        GivesBack(s, work, spurious);
        var u := Next(s, WorkerStep(work, spurious));
        if !s.main.PauseAwait? && !s.main.CloseJoin? {
          Unblocked(u);
          Comes(u);
        }
      }
    }
  }

  lemma Unblocked(s: State)
    requires s.mutex.Nobody? && (s.main.PauseEnter? || s.main.ResumeEnter? || s.main.CloseEnter?)
    ensures MainNext(s).Some?
  {
  }

  /** The polling thread can step, but for a main thread that gives the mutex back with its next step, a pause, a
      notification that comes with the next step of the main thread, and its end. */
  lemma ThreadGoesOn(runnables: nat, actions: seq<Action>, work: bool)
    requires var s := After(runnables, actions); WorkerNext(s, work, false).None?
    ensures var s := After(runnables, actions); var t := Next(s, MainStep);
            || (s.mutex.Main? && t.mutex.Nobody?)
            || (s.worker == Waiting(false) && (PauseInEffect(s) || t.worker == Waiting(true)))
            || s.worker.Done?
  {
    hide RunNext;
    Reachable(runnables, actions);
  }

  // ----- close() ends -----

  predicate InRun(s: State)
  {
    s.worker.Run? || s.worker.Flush?
  }

  /** Steps left inside run_ when no more items come: of this pass, and of the next ones if this one or this call has
      done work. */
  function InRunLeft(runnables: nat, w: WorkerPc, hand: Hand): nat
    requires (w.Run? || w.Flush?) && (hand.Free? || w.left > 0)
  {
    var pass := 2 * w.left + 1 - if hand.Free? then 0 else 1;
    var busy := w.processed || hand.Full?;
    if w.Run? then pass + (if busy then 4 * runnables + 5 else 2 * runnables + 4)
    else pass + if busy then 4 * runnables + 2 else if w.worked then 2 * runnables + 1 else 0
  }

  /** How far a thread that is to stop can be from its end without any more items. */
  function ToEnd(runnables: nat, w: WorkerPc, hand: Hand): nat
    requires !hand.Free? ==> (w.Run? || w.Flush?) && w.left > 0
  {
    var pass := 2 * runnables + 1;
    match w
    case Done => 0
    case Top | Hold => pass + 1
    case Enter | Wake | SleepHold(_) => pass + 2
    case Waiting(_) | SleepEnter | SleepWake(_) => pass + 3
    case Sleeping => pass + 4
    case Run(_, _, _) | Flush(_, _, _) => InRunLeft(runnables, w, hand)
  }

  function Left(s: State): nat
    requires HandInRun(s)
  {
    ToEnd(s.runnables, s.worker, s.hand)
  }

  /** What an item popped on the way costs. */
  function PopPrice(s: State, a: Action): nat
  {
    if Pops(s, a) then 4 * s.runnables + 3 else 0
  }

  /** Stop is requested and no pause can come any more. */
  predicate Stopping(s: State)
  {
    s.main.CloseJoin? && s.stop && !s.paused && s.worker != Waiting(false)
  }

  lemma StopsNow(s: State)
    requires Inv(s) && s.main.CloseJoin?
    ensures Stopping(s) && (s.mutex.Nobody? || s.worker.Hold? || s.worker.SleepHold?)
  {
  }

  lemma LeftNearer(runnables: nat, w: WorkerPc, hand: Hand, enabled: bool, work: bool)
    requires (w.Run? || w.Flush?) && w.left > 0
    ensures var t := PassNext(runnables, w, hand, enabled, work);
            && (t.0.Run? || t.0.Flush?) && (t.1.Free? || t.0.left > 0)
            && InRunLeft(runnables, t.0, t.1) <
                 InRunLeft(runnables, w, hand) + if work && hand.Chosen? then 4 * runnables + 3 else 0
  {
  }

  lemma PassEndsNearer(runnables: nat, w: WorkerPc, enabled: bool, work: bool)
    requires (w.Run? || w.Flush?) && w.left == 0
    ensures var t := PassNext(runnables, w, Free, enabled, work);
            t.1.Free? && ToEnd(runnables, t.0, Free) < ToEnd(runnables, w, Free)
  {
  }

  lemma PassNearer(s: State, work: bool, spurious: bool)
    requires HandInRun(s) && InRun(s)
    ensures var t := RunNext(s, work);
            HandInRun(t) && Left(t) < Left(s) + PopPrice(s, WorkerStep(work, spurious))
  {
    hide PassNext, InRunLeft;
    if s.worker.left > 0 {
      LeftNearer(s.runnables, s.worker, s.hand, s.enabled, work);
    } else {
      PassEndsNearer(s.runnables, s.worker, s.enabled, work);
    }
  }

  lemma OtherEndsNearer(s: State, work: bool, spurious: bool)
    requires HandInRun(s) && Stopping(s) && (s.mutex.Nobody? || s.worker.Hold? || s.worker.SleepHold?)
    requires !s.worker.Flush? && !s.worker.Run? && !s.worker.Done?
    ensures var t := WorkerNext(s, work, spurious);
            && t.Some? && HandInRun(t.value)
            && Left(t.value) < Left(s)
  {
    hide RunNext;
  }

  lemma EndNearer(s: State, work: bool, spurious: bool)
    requires Inv(s) && s.main.CloseJoin? && !s.worker.Done? && Within(s.worker, s.runnables)
    ensures var t := WorkerNext(s, work, spurious);
            && t.Some? && HandInRun(t.value) && t.value.main == s.main
            && Left(t.value) < Left(s) + PopPrice(s, WorkerStep(work, spurious))
  {
    hide RunNext, ParkNext, SleepNext, Left, Within, Stopping, MutexHeld, Acknowledged, NotForgotten, Lifetime;
    StopsNow(s);
    if InRun(s) {
      PassNearer(s, work, spurious);
    } else {
      OtherEndsNearer(s, work, spurious);
    }
  }

  function PopsPrice(s: State, actions: seq<Action>): nat
    decreases |actions|
  {
    if actions == [] then 0 else PopPrice(s, actions[0]) + PopsPrice(Next(s, actions[0]), actions[1..])
  }

  /** Every item popped is paid for, wherever it stands, and nothing else. */
  lemma {:induction false} PopsPriceCount(s: State, before: seq<Action>, a: Action, after: seq<Action>)
    ensures var t := From(s, before);
            PopsPrice(s, before + [a] + after) ==
              PopsPrice(s, before) + PopPrice(t, a) + PopsPrice(Next(t, a), after)
    decreases |before|
  {
    hide Next, PopPrice;
    if before == [] {
      assert ([a] + after)[1..] == after && [] + [a] + after == [a] + after;
    } else {
      assert (before + [a] + after)[1..] == before[1..] + [a] + after;
      PopsPriceCount(Next(s, before[0]), before[1..], a, after);
    }
  }

  /** While close() joins, nothing but the polling thread moves. */
  lemma OnlyToEnd(s: State, a: Action)
    requires Inv(s) && s.main.CloseJoin? && !s.worker.Done? && !a.WorkerStep?
    ensures Next(s, a) == s && !CanStep(s, a) && PopPrice(s, a) == 0
  {
  }

  lemma {:induction false} EndsFrom(s: State, more: seq<Action>) returns (n: nat)
    requires Inv(s) && s.main.CloseJoin? && Within(s.worker, s.runnables)
    requires WorkerSteps(s, more) >= Left(s) + PopsPrice(s, more)
    ensures n <= |more| && From(s, more[..n]).worker.Done?
    decreases |more|
  {
    n := 0;
    if !s.worker.Done? {
      NotYet(s);
      hide Inv, WorkerNext, CanStep, Left, PopPrice, Within, HandInRun;
      var a := more[0];
      NextKeeps(s, a);
      LeftOn(s, a);
      NextHand(s, a);
      StepToEnd(s, a);
      var m := EndsFrom(Next(s, a), more[1..]);
      n := m + 1;
      assert more[..n][0] == a && more[..n][1..] == more[1..][..m];
    }
  }

  lemma NextHand(s: State, a: Action)
    requires Inv(s)
    ensures HandInRun(s) && HandInRun(Next(s, a))
  {
    hide Next;
    NextKeeps(s, a);
  }

  lemma StepToEnd(s: State, a: Action)
    requires Inv(s) && s.main.CloseJoin? && !s.worker.Done? && Within(s.worker, s.runnables) && HandInRun(Next(s, a))
    ensures Next(s, a).main == s.main
    ensures Left(Next(s, a)) + (if CanStep(s, a) then 1 else 0) <= Left(s) + PopPrice(s, a)
  {
    hide WorkerNext, Left, Within;
    if a.WorkerStep? {
      hide PopPrice;
      EndNearer(s, a.work, a.spurious);
      assert a == WorkerStep(a.work, a.spurious);
    } else {
      OnlyToEnd(s, a);
    }
  }

  lemma NotYet(s: State)
    requires HandInRun(s) && !s.worker.Done?
    ensures Left(s) > 0
  {
  }

  /** Closing ends: so many steps of the polling thread, and 4r + 3 more for each item that it pops on the way to pass
      it on, bring it to its end, whatever else happens in between, and close() then returns with its next step. */
  lemma CloseIsJoinedSoon(runnables: nat, actions: seq<Action>, more: seq<Action>) returns (n: nat)
    requires var s := After(runnables, actions);
             && s.main.CloseJoin?
             && WorkerSteps(s, more) >= 6 * runnables + 7 + PopsPrice(s, more)
    ensures n <= |more|
    ensures var t := After(runnables, actions + more[..n]);
            t.worker.Done? && (t.main.CloseJoin? ==> MainNext(t) == Some(t.(running := false, main := Idle)))
  {
    hide Inv, From, WorkerSteps, PopsPrice, Left, After, Within;
    var s := After(runnables, actions);
    Reachable(runnables, actions);
    AlwaysWithin(runnables, actions);
    AtMostToEnd(s);
    n := EndsFrom(s, more);
    FromIs(runnables, actions, more[..n]);
  }

  lemma AtMostToEnd(s: State)
    requires Inv(s) && Within(s.worker, s.runnables)
    ensures HandInRun(s) && Left(s) <= 6 * s.runnables + 7
  {
  }

  // ----- waiting -----

  /** The condition variable: unnotified, only a spurious wake-up ends the wait. */
  lemma WaitsForNotice(s: State, work: bool, spurious: bool)
    requires s.worker == Waiting(false)
    ensures WorkerNext(s, work, spurious) == if spurious then Some(s.(worker := Wake)) else None
  {
  }

  /** The timed wait leads back to the loop exactly if a pause or the stop is asked for or the time is up, and it is up
      only after a wait that ended unspuriously. */
  lemma SleepsOutItsTime(s: State, work: bool, spurious: bool)
    requires s.worker.SleepEnter? || s.worker.SleepHold? || s.worker.Sleeping? || s.worker.SleepWake?
    ensures var t := WorkerNext(s, work, spurious);
            && (s.worker.SleepHold? ==>
                  t.Some? && t.value.worker == if s.paused || s.stop || s.worker.timedOut then Top else Sleeping)
            && (s.worker.Sleeping? ==> t.Some? && t.value.worker == SleepWake(!spurious))
            && (s.worker.SleepWake? && t.Some? ==> t.value.worker == SleepHold(s.worker.timedOut))
            && (s.worker.SleepEnter? && t.Some? ==> t.value.worker == SleepHold(false))
  {
  }

  // ----- run_ is thorough -----

  /** What the polling thread did in its current pass and its current call of run_. */
  datatype Tally = Tally(looked: nat, gave: nat, gaveInCall: nat)

  const NOTHING := Tally(0, 0, 0)

  /** A pass has been through its runnables and the thread goes on. */
  predicate PassOver(s: State, a: Action)
  {
    a.WorkerStep? && InRun(s) && s.worker.left == 0
  }

  predicate Looks(s: State, a: Action)
  {
    a.WorkerStep? && AtRunnable(s) && s.hand.Free?
  }

  function TallyOf(runnables: nat, actions: seq<Action>): Tally
  {
    if actions == [] then NOTHING
    else
      var pre, a := actions[..|actions| - 1], Last(actions);
      var s, d := After(runnables, pre), TallyOf(runnables, pre);
      Tallying(d, s, a)
  }

  function Tallying(d: Tally, s: State, a: Action): Tally
  {
    if !InRun(s) then NOTHING
    else if PassOver(s, a) then if d.gave > 0 then d.(looked := 0, gave := 0) else NOTHING
    else if Looks(s, a) then d.(looked := d.looked + 1)
    else if Gives(s, a) then d.(gave := d.gave + 1, gaveInCall := d.gaveInCall + 1)
    else d
  }

  ghost predicate Tallied(s: State, d: Tally)
  {
    InRun(s) ==>
      && d.looked == s.runnables - s.worker.left + (if s.hand.Free? then 0 else 1)
      && (d.gave > 0 <==> s.worker.processed)
      && (d.gaveInCall > 0 <==> s.worker.processed || s.worker.worked)
  }

  lemma WorkerTallies(s: State, d: Tally, a: Action)
    requires InRun(s) && HandInRun(s) && Tallied(s, d) && a.WorkerStep?
    ensures Tallied(RunNext(s, a.work), Tallying(d, s, a))
  {
  }

  lemma OtherTallies(s: State, d: Tally, a: Action)
    requires Inv(s) && Tallied(s, d) && !(InRun(s) && a.WorkerStep?)
    ensures Tallied(Next(s, a), Tallying(d, s, a))
  {
    hide RunNext, Acknowledged, NotForgotten, MutexHeld;
    if CanStep(s, a) { StartsAnew(s, a.work, a.spurious); }
  }

  lemma StartsAnew(s: State, work: bool, spurious: bool)
    requires HandInRun(s) && !InRun(s) && WorkerNext(s, work, spurious).Some?
    ensures Tallied(WorkerNext(s, work, spurious).value, NOTHING)
  {
    hide RunNext, ParkNext, SleepNext;
  }

  lemma {:induction false} AlwaysTallied(runnables: nat, actions: seq<Action>)
    ensures Tallied(After(runnables, actions), TallyOf(runnables, actions))
    decreases |actions|
  {
    if actions != [] {
      hide Inv, Tallied, Tallying, Next, HandInRun;
      var pre, a := actions[..|actions| - 1], Last(actions);
      AlwaysTallied(runnables, pre);
      Reachable(runnables, pre);
      StepTallies(After(runnables, pre), TallyOf(runnables, pre), a);
    } else {
      assert !InRun(Start(runnables));
    }
  }

  lemma StepTallies(s: State, d: Tally, a: Action)
    requires Inv(s) && Tallied(s, d)
    ensures Tallied(Next(s, a), Tallying(d, s, a))
  {
    hide RunNext, Tallied, Tallying, MutexHeld, Acknowledged, NotForgotten, Lifetime;
    if InRun(s) && a.WorkerStep? { WorkerTallies(s, d, a); } else { OtherTallies(s, d, a); }
  }

  /** A pass looks at each runnable once. After a pass that gave anything on another one follows; a call of run_ ends
      with a pass that did not, the thread sleeps only after a call that gave on nothing at all, and is done only
      after a forced call of that kind. */
  lemma RunIsThorough(runnables: nat, actions: seq<Action>, work: bool, spurious: bool)
    requires PassOver(After(runnables, actions), WorkerStep(work, spurious))
    ensures var s, d := After(runnables, actions), TallyOf(runnables, actions);
            var w := Next(s, WorkerStep(work, spurious)).worker;
            && d.looked == runnables
            && (d.gave > 0 ==>
                  (if s.worker.Run? then w.Run? else w.Flush?) && w.left == runnables)
            && (d.gave == 0 && s.worker.Run? ==> w == if d.gaveInCall > 0 then Top else SleepEnter)
            && (d.gave == 0 && s.worker.Flush? && d.gaveInCall == 0 ==> w.Done?)
            && (d.gave == 0 && s.worker.Flush? && d.gaveInCall > 0 ==> w == Flush(runnables, false, false))
  {
    hide TallyOf, After;
    AlwaysTallied(runnables, actions);
    AlwaysWithin(runnables, actions);
    Reachable(runnables, actions);
  }
}
