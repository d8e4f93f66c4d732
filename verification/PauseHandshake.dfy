/** The pause, resume and close handshake between the main thread and a polling thread, as interleaved atomic
    steps with explicit program counters. The condition variable forgets a notification that nobody waits for. */
module PauseHandshake {
  import opened Bytes

  datatype Owner = Nobody | Main | Worker

  /** Where the main thread is. Waiting for the mutex, holding it, about to notify, waiting for the other thread. */
  datatype MainPc =
    | Idle
    | PauseEnter | PauseHold | PauseNotify | PauseAwait
    | ResumeEnter | ResumeHold | ResumeNotify
    | CloseEnter | CloseHold | CloseNotify | CloseJoin

  /** Where the polling thread is. left: runnables still to look at in this pass; processed: one of this pass did
      work; worked: one of this call of run_ did. */
  datatype WorkerPc =
    | Top
    | Enter
    | Hold
    | Waiting(notified: bool)
    | Wake
    | Run(left: nat, processed: bool, worked: bool)
    | SleepEnter
    | SleepHold(timedOut: bool)
    | Sleeping
    | SleepWake(timedOut: bool)
    | Flush(left: nat, processed: bool, worked: bool)
    | Done

  /** The runnable looked at: not yet found enabled, found enabled and about to pop an item, or with one in hand. */
  datatype Hand = Free | Chosen | Full

  datatype State = State(
    running: bool, paused: bool, stop: bool, pendingAck: bool, promised: nat,
    mutex: Owner, main: MainPc, worker: WorkerPc, hand: Hand, enabled: bool, runnables: nat)

  /** What may happen next. work: the queue of the runnable looked at has an item; spurious: a wait ends unnotified, a
      timed one without its time being up. */
  datatype Action =
    | Open | Pause | Resume | Close | Enable(on: bool)
    | MainStep
    | WorkerStep(work: bool, spurious: bool)

  function Start(runnables: nat): State
  {
    State(true, false, false, false, 0, Nobody, Idle, Top, Free, true, runnables)
  }

  function Notified(s: State): (t: State)
    ensures t == s.(worker := t.worker) && (t.worker == s.worker || t.worker == Waiting(true))
  {
    if s.worker.Waiting? then s.(worker := Waiting(true)) else s
  }

  // ----- the main thread -----

  /** The calls, up to and including their unlocked checks. */
  function Call(s: State, a: Action): State
    requires s.main.Idle?
  {
    match a
    case Open =>
      if s.running then s
      else s.(running := true, paused := false, stop := false, worker := Top)
    case Pause => if !s.running || s.paused then s else s.(main := PauseEnter)
    case Resume => if !s.running || !s.paused then s else s.(main := ResumeEnter)
    case Close => if !s.running then s else s.(main := CloseEnter)
    case Enable(on) => s.(enabled := on)
    case _ => s
  }

  /** The rest of a call; None where the thread is blocked. */
  function MainNext(s: State): (t: Option<State>)
    ensures t.Some? ==> t.value.runnables == s.runnables
    ensures t.Some? ==> t.value.worker == s.worker || t.value.worker == Waiting(true)
  {
    match s.main
    case Idle => None
    case PauseEnter => if s.mutex.Nobody? then Some(s.(mutex := Main, main := PauseHold)) else None
    case PauseHold => Some(s.(paused := true, promised := 0, pendingAck := true, mutex := Nobody, main := PauseNotify))
    case PauseNotify => Some(Notified(s).(main := PauseAwait))
    case PauseAwait => if s.promised > 0 then Some(s.(main := Idle)) else None
    case ResumeEnter => if s.mutex.Nobody? then Some(s.(mutex := Main, main := ResumeHold)) else None
    case ResumeHold => Some(s.(paused := false, mutex := Nobody, main := ResumeNotify))
    case ResumeNotify => Some(Notified(s).(main := Idle))
    case CloseEnter => if s.mutex.Nobody? then Some(s.(mutex := Main, main := CloseHold)) else None
    case CloseHold => Some(s.(stop := true, paused := false, mutex := Nobody, main := CloseNotify))
    case CloseNotify => Some(Notified(s).(main := CloseJoin))
    case CloseJoin => if s.worker.Done? then Some(s.(running := false, main := Idle)) else None
  }

  // ----- the polling thread -----

  /** Where a call of run_ leads after a pass without work. */
  function Leaving(w: WorkerPc, runnables: nat): (r: WorkerPc)
    requires w.Run? || w.Flush?
    ensures w.Run? ==> r.Top? || r.SleepEnter?
    ensures w.Flush? ==> r.Done? || r == Flush(runnables, false, false)
  {
    match w
    case Run(_, _, worked) => if worked then Top else SleepEnter
    case Flush(_, _, worked) => if worked then Flush(runnables, false, false) else Done
  }

  /** One step inside run_. A runnable found enabled pops an item if there is one, and gives it on in a step of its own;
      after a pass with work it starts over. */
  function PassNext(runnables: nat, w: WorkerPc, hand: Hand, enabled: bool, work: bool): (t: (WorkerPc, Hand))
    requires w.Run? || w.Flush?
    ensures t.0.Run? || t.0.Flush? || t.0 == Leaving(w, runnables)
    ensures Within(w, runnables) ==> Within(t.0, runnables)
  {
    if w.left == 0 then
      var again := w.(left := runnables, processed := false, worked := true);
      (if w.processed then again else Leaving(w, runnables), hand)
    else
      var skipped := w.(left := w.left - 1);
      match hand
      case Free => if enabled then (w, Chosen) else (skipped, Free)
      case Chosen => if work then (w, Full) else (skipped, Free)
      case Full => (skipped.(processed := true), Free)
  }

  function RunNext(s: State, work: bool): (t: State)
    requires s.worker.Run? || s.worker.Flush?
  {
    var (w, hand) := PassNext(s.runnables, s.worker, s.hand, s.enabled, work);
    s.(worker := w, hand := hand)
  }

  /** No more runnables are left in the pass than there are. */
  predicate Within(w: WorkerPc, runnables: nat)
  {
    w.Run? || w.Flush? ==> w.left <= runnables
  }

  /** A call of run_ starts with its first pass. */
  predicate AtStart(w: WorkerPc, runnables: nat)
  {
    w.Run? || w.Flush? ==> w.left == runnables && !w.processed && !w.worked
  }

  /** Pause handling at the head of the loop. */
  function ParkNext(s: State, spurious: bool): (t: Option<State>)
    requires s.worker.Enter? || s.worker.Hold? || s.worker.Waiting? || s.worker.Wake?
    ensures t.Some? ==>
              t.value == s.(worker := t.value.worker, mutex := t.value.mutex, promised := t.value.promised,
                            pendingAck := t.value.pendingAck)
    ensures t.Some? ==> AtStart(t.value.worker, s.runnables)
  {
    match s.worker
    case Hold =>
      if s.paused && !s.stop then
        var acked := if s.pendingAck then s.(promised := s.promised + 1, pendingAck := false) else s;
        Some(acked.(mutex := Nobody, worker := Waiting(false)))
      else if s.stop then Some(s.(mutex := Nobody, worker := Flush(s.runnables, false, false)))
      else Some(s.(mutex := Nobody, worker := Run(s.runnables, false, false)))
    case Waiting(notified) => if notified || spurious then Some(s.(worker := Wake)) else None
    case _ => if s.mutex.Nobody? then Some(s.(mutex := Worker, worker := Hold)) else None
  }

  /** The timed wait after a call of run_ without work. */
  function SleepNext(s: State, spurious: bool): (t: Option<State>)
    requires s.worker.SleepEnter? || s.worker.SleepHold? || s.worker.Sleeping? || s.worker.SleepWake?
    ensures t.Some? ==> t.value == s.(worker := t.value.worker, mutex := t.value.mutex)
    ensures t.Some? ==> AtStart(t.value.worker, s.runnables)
  {
    match s.worker
    case SleepEnter => if s.mutex.Nobody? then Some(s.(mutex := Worker, worker := SleepHold(false))) else None
    case SleepHold(timedOut) =>
      Some(s.(mutex := Nobody, worker := if s.paused || s.stop || timedOut then Top else Sleeping))
    case Sleeping => Some(s.(worker := SleepWake(!spurious)))
    case SleepWake(timedOut) =>
      if s.mutex.Nobody? then Some(s.(mutex := Worker, worker := SleepHold(timedOut))) else None
  }

  /** One step of the polling thread; None where it is blocked. */
  function WorkerNext(s: State, work: bool, spurious: bool): (t: Option<State>)
    ensures t.Some? ==>
              t.value == s.(worker := t.value.worker, mutex := t.value.mutex, promised := t.value.promised,
                            pendingAck := t.value.pendingAck, hand := t.value.hand)
    ensures t.Some? && Within(s.worker, s.runnables) ==> Within(t.value.worker, s.runnables)
  {
    match s.worker
    case Top => Some(s.(worker := if s.stop then Flush(s.runnables, false, false) else Enter))
    case Run(_, _, _) | Flush(_, _, _) => Some(RunNext(s, work))
    case Done => None
    case Enter | Hold | Waiting(_) | Wake => ParkNext(s, spurious)
    case SleepEnter | SleepHold(_) | Sleeping | SleepWake(_) => SleepNext(s, spurious)
  }

  /** A runnable is being looked at. */
  predicate AtRunnable(s: State)
  {
    (s.worker.Run? || s.worker.Flush?) && s.worker.left > 0
  }

  /** An item is popped, or given on, in this step. */
  predicate Pops(s: State, a: Action)
  {
    a.WorkerStep? && a.work && AtRunnable(s) && s.hand.Chosen?
  }

  predicate Gives(s: State, a: Action)
  {
    a.WorkerStep? && AtRunnable(s) && s.hand.Full?
  }

  /** A runnable executes in this step. */
  predicate Executes(s: State, a: Action)
  {
    Pops(s, a) || Gives(s, a)
  }

  /** A step that cannot be taken leaves the state as it is. */
  function Next(s: State, a: Action): State
  {
    match a
    case MainStep => if MainNext(s).Some? then MainNext(s).value else s
    case WorkerStep(work, spurious) =>
      if WorkerNext(s, work, spurious).Some? then WorkerNext(s, work, spurious).value else s
    case _ => if s.main.Idle? then Call(s, a) else s
  }

  function After(runnables: nat, actions: seq<Action>): State
  {
    if actions == [] then Start(runnables)
    else Next(After(runnables, actions[..|actions| - 1]), actions[|actions| - 1])
  }

  // ----- the invariant -----

  predicate Parked(w: WorkerPc)
  {
    w.Hold? || w.Waiting? || w.Wake?
  }

  predicate MutexHeld(s: State)
  {
    && (s.mutex.Worker? <==> s.worker.Hold? || s.worker.SleepHold?)
    && (s.mutex.Main? <==> s.main.PauseHold? || s.main.ResumeHold? || s.main.CloseHold?)
  }

  predicate Acknowledged(s: State)
  {
    && s.promised <= 1
    && (s.pendingAck ==> s.promised == 0 && s.paused && (s.main.PauseNotify? || s.main.PauseAwait?))
    && (s.paused && !s.pendingAck ==> Parked(s.worker) && s.promised == 1)
    && (s.main.PauseNotify? || s.main.PauseAwait? ==> s.paused && s.running && !s.stop)
    && (s.main.PauseEnter? || s.main.PauseHold? ==> !s.paused && s.running && !s.stop)
    && (s.main.ResumeEnter? || s.main.ResumeHold? ==> s.paused && s.running && !s.stop)
    && (s.main.ResumeNotify? ==> !s.paused)
  }

  /** A waiter that has not been notified is either paused and acknowledged, or about to be notified. */
  predicate NotForgotten(s: State)
  {
    s.worker == Waiting(false) ==>
      (s.paused && !s.pendingAck) || s.main.PauseNotify? || s.main.ResumeNotify? || s.main.CloseNotify?
  }

  predicate Lifetime(s: State)
  {
    && (s.stop ==> s.running ==> s.main.CloseNotify? || s.main.CloseJoin?)
    && (s.main.CloseNotify? || s.main.CloseJoin? ==> s.stop && s.running)
    && (s.main.CloseEnter? || s.main.CloseHold? || s.main.ResumeNotify? ==> s.running && !s.stop)
    && (!s.running ==> s.worker.Done? && s.stop && s.main.Idle?)
    && (s.stop ==> !s.paused)
    && (s.worker.Flush? || s.worker.Done? ==> s.stop)
  }

  /** Only inside run_ is there anything in hand. */
  predicate HandInRun(s: State)
  {
    !s.hand.Free? ==> AtRunnable(s)
  }

  predicate Inv(s: State)
  {
    MutexHeld(s) && Acknowledged(s) && NotForgotten(s) && Lifetime(s) && HandInRun(s)
  }

  lemma CallKeeps(s: State, a: Action)
    requires Inv(s) && s.main.Idle?
    ensures Inv(Call(s, a))
  {
  }

  lemma MainKeeps(s: State)
    requires Inv(s) && MainNext(s).Some?
    ensures Inv(MainNext(s).value)
  {
    match s.main {
      case PauseHold =>
      case PauseNotify =>
      case _ =>
    }
  }

  lemma HoldKeeps(s: State, work: bool, spurious: bool)
    requires Inv(s) && (s.worker.Hold? || s.worker.Enter? || s.worker.Wake? || s.worker.Waiting?)
    requires WorkerNext(s, work, spurious).Some?
    ensures Inv(WorkerNext(s, work, spurious).value)
  {
  }

  lemma RunKeeps(s: State, work: bool, spurious: bool)
    requires Inv(s) && (s.worker.Run? || s.worker.Flush? || s.worker.Top?)
    ensures Inv(WorkerNext(s, work, spurious).value)
  {
  }

  lemma SleepKeeps(s: State, work: bool, spurious: bool)
    requires Inv(s) && (s.worker.SleepEnter? || s.worker.SleepHold? || s.worker.Sleeping? || s.worker.SleepWake?)
    requires WorkerNext(s, work, spurious).Some?
    ensures Inv(WorkerNext(s, work, spurious).value)
  {
  }

  lemma WorkerKeeps(s: State, work: bool, spurious: bool)
    requires Inv(s) && WorkerNext(s, work, spurious).Some?
    ensures Inv(WorkerNext(s, work, spurious).value)
  {
    hide Inv;
    if s.worker.Run? || s.worker.Flush? || s.worker.Top? {
      RunKeeps(s, work, spurious);
    } else if s.worker.Hold? || s.worker.Enter? || s.worker.Wake? || s.worker.Waiting? {
      HoldKeeps(s, work, spurious);
    } else {
      SleepKeeps(s, work, spurious);
    }
  }

  lemma NextKeeps(s: State, a: Action)
    requires Inv(s)
    ensures Inv(Next(s, a))
  {
    hide Inv, Call, MainNext, WorkerNext;
    match a {
      case MainStep => if MainNext(s).Some? { MainKeeps(s); }
      case WorkerStep(work, spurious) => if WorkerNext(s, work, spurious).Some? { WorkerKeeps(s, work, spurious); }
      case _ => if s.main.Idle? { CallKeeps(s, a); }
    }
  }

  lemma {:induction false} Reachable(runnables: nat, actions: seq<Action>)
    ensures Inv(After(runnables, actions))
    decreases |actions|
  {
    if actions != [] {
      hide Inv, Next;
      Reachable(runnables, actions[..|actions| - 1]);
      NextKeeps(After(runnables, actions[..|actions| - 1]), actions[|actions| - 1]);
    } else {
      assert Inv(Start(runnables));
    }
  }

  // ----- safety -----

  /** From the return of pause() until the next resume or close takes effect: paused, and no call of pause pending. */
  predicate PauseInEffect(s: State)
  {
    s.paused && !s.pendingAck
  }

  /** In every interleaving: no runnable executes or has an item in hand while a pause is in effect, no promise is ever
      set twice, pause() only returns with the pause in effect, and a pause stays in effect until resume or close ends
      it. */
  lemma PauseIsSafe(runnables: nat, actions: seq<Action>, a: Action)
    ensures var s := After(runnables, actions);
            && (PauseInEffect(s) ==> s.hand.Free? && !Executes(s, a))
            && Next(s, a).promised <= 1
            && (s.main.PauseAwait? && Next(s, a).main.Idle? ==> PauseInEffect(Next(s, a)))
            && (PauseInEffect(s) && !PauseInEffect(Next(s, a)) ==> s.main.ResumeHold? || s.main.CloseHold?)
  {
    var s := After(runnables, actions);
    Reachable(runnables, actions);
    Reachable(runnables, actions + [a]);
    assert (actions + [a])[..|actions|] == actions;
  }

  // ----- progress -----

  /** How far the polling thread can still be from the acknowledgement, with every runnable disabled. */
  function Distance(s: State): nat
  {
    match s.worker
    case Hold => 1
    case Enter => 2
    case Wake => 2
    case Top => 3
    case Waiting(_) => 3
    case SleepHold(_) => 4
    case SleepEnter => 5
    case SleepWake(_) => 5
    case Sleeping => 6
    case Run(left, processed, _) =>
      7 + left + (if processed || !s.hand.Free? then s.runnables + 1 else 0) + if s.hand.Chosen? then 1 else 0
    case Flush(_, _, _) => 0
    case Done => 0
  }

  lemma WorkerNearer(s: State, work: bool, spurious: bool)
    requires Inv(s) && s.main.PauseAwait? && s.pendingAck && !s.enabled && WorkerNext(s, work, spurious).Some?
    ensures var t := WorkerNext(s, work, spurious).value;
            t.main == s.main && t.enabled == s.enabled && (t.pendingAck ==> Distance(t) < Distance(s))
  {
  }

  /** A pause() that is waiting: with the runnables disabled, the polling thread always has a step, without any
      spurious wake-up, and every step it can take brings the acknowledgement nearer until it is given. */
  lemma PauseIsAnswered(runnables: nat, actions: seq<Action>, work: bool, spurious: bool)
    requires var s := After(runnables, actions); s.main.PauseAwait? && s.pendingAck && !s.enabled
    ensures var s := After(runnables, actions);
            && WorkerNext(s, work, false).Some?
            && (WorkerNext(s, work, spurious).Some? ==>
                  var t := WorkerNext(s, work, spurious).value;
                  t.main == s.main && t.enabled == s.enabled && (t.pendingAck ==> Distance(t) < Distance(s)))
  {
    hide Distance;
    var s := After(runnables, actions);
    Reachable(runnables, actions);
    if WorkerNext(s, work, spurious).Some? { WorkerNearer(s, work, spurious); }
  }

  /** How many of the actions are steps that the polling thread can take when they come. */
  function WorkerSteps(s: State, actions: seq<Action>): nat
    decreases |actions|
  {
    if actions == [] then 0
    else
      var a := actions[0];
      var one := if CanStep(s, a) then 1 else 0;
      one + WorkerSteps(Next(s, a), actions[1..])
  }

  function From(s: State, actions: seq<Action>): State
    decreases |actions|
  {
    if actions == [] then s else From(Next(s, actions[0]), actions[1..])
  }

  lemma {:induction false} FromIs(runnables: nat, actions: seq<Action>, more: seq<Action>)
    ensures After(runnables, actions + more) == From(After(runnables, actions), more)
    decreases |more|
  {
    hide Next;
    if more == [] {
      assert actions + more == actions;
    } else {
      var a := more[0];
      assert (actions + [a])[..|actions|] == actions && (actions + [a])[|actions|] == a;
      assert actions + more == (actions + [a]) + more[1..];
      FromIs(runnables, actions + [a], more[1..]);
    }
  }

  /** Every step that the polling thread can take counts, wherever it stands, and no other. */
  lemma {:induction false} WorkerStepsCount(s: State, before: seq<Action>, a: Action, after: seq<Action>)
    ensures var t := From(s, before);
            WorkerSteps(s, before + [a] + after) ==
              WorkerSteps(s, before) + (if CanStep(t, a) then 1 else 0) + WorkerSteps(Next(t, a), after)
    decreases |before|
  {
    hide Next, CanStep;
    if before == [] {
      assert ([a] + after)[1..] == after && [] + [a] + after == [a] + after;
    } else {
      assert (before + [a] + after)[1..] == before[1..] + [a] + after;
      WorkerStepsCount(Next(s, before[0]), before[1..], a, after);
    }
  }

  predicate CanStep(s: State, a: Action)
  {
    a.WorkerStep? && WorkerNext(s, a.work, a.spurious).Some?
  }

  /** While pause() waits, nothing but the polling thread moves. */
  lemma OnlyWorker(s: State, a: Action)
    requires Inv(s) && s.main.PauseAwait? && s.pendingAck && !CanStep(s, a)
    ensures Next(s, a) == s
  {
  }

  /** Whatever happens while pause() waits: the acknowledgement comes, or is no farther than before, and nearer after a
      step of the polling thread. */
  lemma Nearer(s: State, a: Action)
    requires Inv(s) && s.main.PauseAwait? && s.pendingAck && !s.enabled
    ensures var t := Next(s, a);
            && Inv(t)
            && (t.pendingAck ==> t.main.PauseAwait? && !t.enabled
                                 && Distance(t) + (if CanStep(s, a) then 1 else 0) <= Distance(s))
  {
    NextKeeps(s, a);
    if CanStep(s, a) {
      hide Inv;
      WorkerNearer(s, a.work, a.spurious);
    } else {
      OnlyWorker(s, a);
    }
  }

  lemma {:induction false} AnsweredFrom(s: State, more: seq<Action>) returns (n: nat)
    requires Inv(s) && s.main.PauseAwait? && !s.enabled && WorkerSteps(s, more) >= Distance(s)
    ensures n <= |more| && !From(s, more[..n]).pendingAck
    decreases |more|
  {
    n := 0;
    if s.pendingAck {
      Near(s);
      hide Inv, Next, CanStep, Distance;
      Nearer(s, more[0]);
      if Next(s, more[0]).pendingAck {
        var m := AnsweredFrom(Next(s, more[0]), more[1..]);
        n := m + 1;
        assert more[..n][0] == more[0] && more[..n][1..] == more[1..][..m];
      } else {
        n := 1;
        assert more[..1][0] == more[0] && more[..1][1..] == [];
      }
    }
  }

  /** 2r + 9 steps of the polling thread are enough, whatever else happens in between, with and without spurious
      wake-ups, and whatever the r runnables would have had to do. */
  lemma PauseIsAnsweredSoon(runnables: nat, actions: seq<Action>, more: seq<Action>) returns (n: nat)
    requires var s := After(runnables, actions);
             s.main.PauseAwait? && !s.enabled && WorkerSteps(s, more) >= 2 * runnables + 9
    ensures n <= |more| && !After(runnables, actions + more[..n]).pendingAck
  {
    hide Inv, From, WorkerSteps, Distance, After;
    Reachable(runnables, actions);
    AlwaysWithin(runnables, actions);
    NotFar(After(runnables, actions));
    n := AnsweredFrom(After(runnables, actions), more);
    FromIs(runnables, actions, more[..n]);
  }

  lemma NotFar(s: State)
    requires Within(s.worker, s.runnables)
    ensures Distance(s) <= 2 * s.runnables + 9
  {
  }

  lemma Near(s: State)
    requires Inv(s) && s.pendingAck
    ensures Distance(s) > 0
  {
  }

  /** Once acknowledged, pause() returns with its next step. */
  lemma AcknowledgedReturns(runnables: nat, actions: seq<Action>)
    requires After(runnables, actions).main.PauseAwait? && !After(runnables, actions).pendingAck
    ensures MainNext(After(runnables, actions)) == Some(After(runnables, actions).(main := Idle))
  {
    Reachable(runnables, actions);
  }

  /** Nobody is left behind: between calls, a thread that is neither paused nor done is not stuck in an unnotified
      wait, and while close() joins, the thread still has a step. */
  lemma NobodySleepsOn(runnables: nat, actions: seq<Action>, work: bool)
    ensures var s := After(runnables, actions);
            && (s.main.Idle? && !s.paused ==> s.worker != Waiting(false))
            && (s.main.CloseJoin? && !s.worker.Done? ==> WorkerNext(s, work, false).Some?)
  {
    Reachable(runnables, actions);
  }

  /** resume() returns only with the pause ended, and close() only with the thread at its end. */
  lemma CallsReturn(runnables: nat, actions: seq<Action>, a: Action)
    ensures var s := After(runnables, actions); var t := Next(s, a);
            && (s.main.ResumeNotify? ==> !s.paused)
            && (s.main.ResumeNotify? && t.main.Idle? ==> !t.paused && t.running && !t.stop)
            && (s.main.CloseJoin? && t.main.Idle? ==> !t.running && t.worker.Done? && t.hand.Free?)
  {
    Reachable(runnables, actions);
  }

  // ----- polling goes on -----

  /** Opened and not closed, not paused, and the main thread between calls. */
  predicate Polls(s: State)
  {
    s.running && !s.stop && !s.paused && s.main.Idle?
  }

  /** Inside run_, about to look at the runnable with that many left. */
  predicate LooksAt(s: State, left: nat)
  {
    s.worker.Run? && s.worker.left == left && s.hand.Free?
  }

  /** How far the polling thread can still be from looking at that runnable. */
  function Farness(s: State, left: nat): nat
    requires 0 < left <= s.runnables && Within(s.worker, s.runnables)
  {
    var rest := 3 * (s.runnables - left);
    match s.worker
    case Hold => rest + 1
    case Enter => rest + 2
    case Wake => rest + 2
    case Top => rest + 3
    case Waiting(_) => rest + 3
    case SleepHold(timedOut) => rest + if timedOut then 4 else 7
    case SleepWake(timedOut) => rest + if timedOut then 5 else 8
    case Sleeping => rest + 6
    case SleepEnter => rest + 8
    case Run(l, _, _) =>
      if l > left then 3 * (l - left) - Taken(s.hand)
      else if l == left && s.hand.Free? then 0
      else if l > 0 then rest + 9 + 3 * l - Taken(s.hand)
      else rest + 9
    case Flush(_, _, _) => 0
    case Done => 0
  }

  /** Steps already taken with a runnable. */
  function Taken(h: Hand): nat
  {
    match h
    case Free => 0
    case Chosen => 1
    case Full => 2
  }

  /** A spurious wake-up costs at most two steps. */
  function Price(spurious: bool): nat
  {
    if spurious then 3 else 0
  }

  lemma RunsOn(s: State, left: nat, work: bool, spurious: bool)
    requires Inv(s) && Polls(s) && 0 < left <= s.runnables && Within(s.worker, s.runnables) && !LooksAt(s, left)
    requires s.worker.Run?
    ensures var t := WorkerNext(s, work, spurious);
            && t.Some? && Polls(t.value) && t.value.runnables == s.runnables && Within(t.value.worker, s.runnables)
            && Farness(t.value, left) < Farness(s, left)
  {
    hide MutexHeld, Acknowledged, NotForgotten, Lifetime;
  }

  lemma SleepsOn(s: State, left: nat, work: bool, spurious: bool)
    requires Inv(s) && Polls(s) && 0 < left <= s.runnables && !s.worker.Run?
    ensures var t := WorkerNext(s, work, spurious);
            && t.Some? && Polls(t.value) && t.value.runnables == s.runnables && Within(t.value.worker, s.runnables)
            && Farness(t.value, left) + 1 <= Farness(s, left) + Price(spurious)
  {
  }

  /** The polling thread can always step, and gets nearer, but for the price of a spurious wake-up. */
  lemma PollsOn(s: State, left: nat, work: bool, spurious: bool)
    requires Inv(s) && Polls(s) && 0 < left <= s.runnables && Within(s.worker, s.runnables) && !LooksAt(s, left)
    ensures var t := WorkerNext(s, work, spurious);
            && t.Some? && Polls(t.value) && t.value.runnables == s.runnables && Within(t.value.worker, s.runnables)
            && Farness(t.value, left) + 1 <= Farness(s, left) + Price(spurious)
  {
    hide Inv, WorkerNext, Farness, Polls, Within;
    if s.worker.Run? { RunsOn(s, left, work, spurious); } else { SleepsOn(s, left, work, spurious); }
  }

  /** Steps of the polling thread only. */
  predicate WorkerOnly(actions: seq<Action>)
  {
    forall i :: 0 <= i < |actions| ==> actions[i].WorkerStep?
  }

  function SpuriousIn(actions: seq<Action>): nat
  {
    if actions == [] then 0
    else (if actions[0].WorkerStep? && actions[0].spurious then 1 else 0) + SpuriousIn(actions[1..])
  }

  /** Every spurious wake-up counts, wherever it stands, and nothing else. */
  lemma {:induction false} SpuriousInCount(before: seq<Action>, a: Action, after: seq<Action>)
    ensures SpuriousIn(before + [a] + after) ==
            SpuriousIn(before) + SpuriousIn(after) + if a.WorkerStep? && a.spurious then 1 else 0
  {
    if before == [] {
      assert ([a] + after)[1..] == after && [] + [a] + after == [a] + after;
    } else {
      assert (before + [a] + after)[1..] == before[1..] + [a] + after;
      SpuriousInCount(before[1..], a, after);
    }
  }

  lemma {:induction false} LooksSoon(s: State, left: nat, more: seq<Action>) returns (n: nat)
    requires Inv(s) && Polls(s) && 0 < left <= s.runnables && Within(s.worker, s.runnables) && WorkerOnly(more)
    requires |more| >= Farness(s, left) + 3 * SpuriousIn(more)
    ensures n <= |more| && LooksAt(From(s, more[..n]), left) && Polls(From(s, more[..n]))
    ensures From(s, more[..n]).enabled == s.enabled
    decreases |more|
  {
    n := 0;
    if !LooksAt(s, left) {
      FarAway(s, left);
      hide Inv, WorkerNext, Farness, Polls, LooksAt;
      var a := more[0];
      PollsOn(s, left, a.work, a.spurious);
      NextKeeps(s, a);
      SameSwitch(s, a);
      var m := LooksSoon(Next(s, a), left, more[1..]);
      n := m + 1;
      assert more[..n][0] == a && more[..n][1..] == more[1..][..m];
    }
  }

  lemma SameSwitch(s: State, a: Action)
    requires a.WorkerStep?
    ensures Next(s, a).enabled == s.enabled
  {
    hide WorkerNext;
  }

  lemma FarAway(s: State, left: nat)
    requires Inv(s) && Polls(s) && 0 < left <= s.runnables && Within(s.worker, s.runnables) && !LooksAt(s, left)
    ensures Farness(s, left) > 0
  {
  }

  /** A runnable that is looked at while enabled, and has an item, executes in the step after next. */
  lemma ThenExecutes(s: State, left: nat, a: Action, b: Action)
    requires LooksAt(s, left) && left > 0 && s.enabled && a.WorkerStep? && b.WorkerStep? && b.work
    ensures Executes(Next(s, a), b)
  {
  }

  /** A thread that is open, not paused and not closed runs, as after open() and resume(): so many of its steps, and
      three more for each spurious wake-up, bring it to any of its runnables, and if that is enabled then and has an
      item, it executes. */
  lemma PollingGoesOn(runnables: nat, actions: seq<Action>, left: nat, more: seq<Action>) returns (n: nat)
    requires var s := After(runnables, actions);
             && s.running && !s.paused && s.main.Idle? && 0 < left <= runnables
             && WorkerOnly(more) && |more| >= 6 * runnables + 9 + 3 * SpuriousIn(more)
    ensures n <= |more|
    ensures var t := After(runnables, actions + more[..n]);
            && LooksAt(t, left) && t.enabled == After(runnables, actions).enabled
            && forall a: Action, b: Action ::
                 t.enabled && a.WorkerStep? && b.WorkerStep? && b.work ==> Executes(Next(t, a), b)
  {
    hide Inv, From, Farness, After, Next, Executes;
    var s := After(runnables, actions);
    Reachable(runnables, actions);
    OpenPolls(s);
    AlwaysWithin(runnables, actions);
    Bounded(s, left);
    n := LooksSoon(s, left, more);
    FromIs(runnables, actions, more[..n]);
    var t := After(runnables, actions + more[..n]);
    forall a: Action, b: Action | t.enabled && a.WorkerStep? && b.WorkerStep? && b.work
      ensures Executes(Next(t, a), b)
    {
      ThenExecutes(t, left, a, b);
    }
  }

  lemma OpenPolls(s: State)
    requires Inv(s) && s.running && !s.paused && s.main.Idle?
    ensures Polls(s)
  {
  }

  lemma Bounded(s: State, left: nat)
    requires 0 < left <= s.runnables && Within(s.worker, s.runnables)
    ensures Farness(s, left) <= 6 * s.runnables + 9
  {
  }

  lemma {:induction false} AlwaysWithin(runnables: nat, actions: seq<Action>)
    ensures var s := After(runnables, actions); s.runnables == runnables && Within(s.worker, runnables)
    decreases |actions|
  {
    if actions != [] {
      hide Next;
      AlwaysWithin(runnables, actions[..|actions| - 1]);
      LeftOn(After(runnables, actions[..|actions| - 1]), actions[|actions| - 1]);
    }
  }

  lemma LeftOn(s: State, a: Action)
    requires Within(s.worker, s.runnables)
    ensures Next(s, a).runnables == s.runnables && Within(Next(s, a).worker, s.runnables)
  {
    hide Within, Call, MainNext, WorkerNext;
    match a {
      case MainStep => if MainNext(s).Some? { LeftMain(s); }
      case WorkerStep(work, spurious) =>
      case _ => if s.main.Idle? { LeftCall(s, a); }
    }
  }

  lemma LeftCall(s: State, a: Action)
    requires Within(s.worker, s.runnables) && s.main.Idle?
    ensures Call(s, a).runnables == s.runnables && Within(Call(s, a).worker, s.runnables)
  {
  }

  lemma LeftMain(s: State)
    requires Within(s.worker, s.runnables) && MainNext(s).Some?
    ensures MainNext(s).value.runnables == s.runnables && Within(MainNext(s).value.worker, s.runnables)
  {
    hide Within, MainNext;
    assert Within(Waiting(true), s.runnables) by { NotRunning(s.runnables); }
  }

  lemma NotRunning(runnables: nat)
    ensures Within(Waiting(true), runnables)
  {
  }
}
