/** Polling threads with their pause handshake, the items they pop and give on, and a flush: once all threads are
    paused, nothing is in their hands and the flush leaves the table complete and in order. */
module PausedFlush {
  import opened Bytes
  import opened PipelineFlow
  import opened FlushRace
  import H = PauseHandshake

  /** threads: the handshakes; race: the queues, the hands and the flusher. */
  datatype Joint<T> = Joint(threads: seq<H.State>, race: Race<T>)

  /** A step in the handshake of one thread, of a producer, or of the flusher. */
  datatype Deed<T> = On(thread: nat, action: H.Action) | Arrives(item: T) | Flushes

  /** plan[t] lists the stages of thread t. */
  type Plan = seq<seq<nat>>

  /** The stage that a thread looks at inside run_. */
  function StageAt(plan: Plan, t: nat, s: H.State): Option<nat>
    requires t < |plan|
  {
    if H.AtRunnable(s) && s.worker.left <= |plan[t]| then Some(plan[t][|plan[t]| - s.worker.left]) else None
  }

  ghost predicate Sound<T>(stages: seq<T -> Option<T>>, plan: Plan, order: seq<nat>, j: Joint<T>)
  {
    |j.threads| == |plan| && Proper(stages, order, j.race)
  }

  /** What a thread finds when it is about to pop. */
  function Finds<T>(f: Flow<T>, stage: Option<nat>): bool
  {
    stage.Some? && stage.value < |f.queues| && f.queues[stage.value] != []
  }

  function Thread<T>(plan: Plan, j: Joint<T>, t: nat, a: H.Action): H.Action
    requires t < |plan| == |j.threads|
  {
    if a.WorkerStep? then H.WorkerStep(Finds(j.race.flow, StageAt(plan, t, j.threads[t])), a.spurious) else a
  }

  function Step<T>(stages: seq<T -> Option<T>>, plan: Plan, order: seq<nat>, j: Joint<T>, d: Deed<T>): (k: Joint<T>)
    requires Sound(stages, plan, order, j)
    ensures Sound(stages, plan, order, k)
  {
    match d
    case Flushes => j.(race := FlusherStep(stages, order, j.race))
    case Arrives(x) => j.(race := j.race.(flow := Next(stages, j.race.flow, Produce(x))))
    case On(t, a) =>
      if t >= |plan| then j
      else
        var s, b, stage := j.threads[t], Thread(plan, j, t, a), StageAt(plan, t, j.threads[t]);
        var race :=
          if stage.Some? && H.Pops(s, b) then Apply(stages, order, j.race, Takes(stage.value))
          else if stage.Some? && H.Gives(s, b) then Apply(stages, order, j.race, Gives(stage.value))
          else j.race;
        Joint(j.threads[t := H.Next(s, b)], race)
  }

  function Run<T>(stages: seq<T -> Option<T>>, plan: Plan, order: seq<nat>, j: Joint<T>, deeds: seq<Deed<T>>)
    : (k: Joint<T>)
    requires Sound(stages, plan, order, j)
    ensures Sound(stages, plan, order, k)
    decreases |deeds|
  {
    if deeds == [] then j else Run(stages, plan, order, Step(stages, plan, order, j, deeds[0]), deeds[1..])
  }

  /** All threads started, all queues empty, no flush begun. */
  function Started<T>(stages: seq<T -> Option<T>>, plan: Plan): Joint<T>
  {
    Joint(seq(|plan|, t requires 0 <= t < |plan| => H.Start(|plan[t]|)), Begin(Empty(stages)))
  }

  ghost predicate StagesIn(order: seq<nat>, n: nat)
  {
    forall k :: 0 <= k < |order| ==> order[k] < n
  }

  function Reached<T>(stages: seq<T -> Option<T>>, plan: Plan, order: seq<nat>, deeds: seq<Deed<T>>): (j: Joint<T>)
    requires StagesIn(order, |stages|)
    ensures Sound(stages, plan, order, j)
  {
    if deeds == [] then Started(stages, plan)
    else Step(stages, plan, order, Reached(stages, plan, order, deeds[..|deeds| - 1]), Last(deeds))
  }

  // ----- who has what in hand -----

  predicate Grips<T>(plan: Plan, j: Joint<T>, t: nat, i: nat)
  {
    t < |plan| && t < |j.threads| && j.threads[t].hand.Full? && StageAt(plan, t, j.threads[t]) == Some(i)
  }

  ghost predicate FitsPlan(plan: Plan, t: nat, s: H.State)
    requires t < |plan|
  {
    H.Inv(s) && s.runnables == |plan[t]| && H.Within(s.worker, |plan[t]|)
  }

  /** What is in the hand of a stage is in the hand of a thread that looks at it. */
  ghost predicate Accounted<T>(stages: seq<T -> Option<T>>, plan: Plan, order: seq<nat>, j: Joint<T>)
  {
    && Sound(stages, plan, order, j)
    && (forall t :: 0 <= t < |plan| ==> FitsPlan(plan, t, j.threads[t]))
    && (forall i: nat :: i < |stages| && j.race.flow.hands[i].Some? ==> exists t: nat :: Grips(plan, j, t, i))
  }

  lemma FitsOn(plan: Plan, t: nat, s: H.State, a: H.Action)
    requires t < |plan| && FitsPlan(plan, t, s)
    ensures FitsPlan(plan, t, H.Next(s, a))
  {
    hide H.Inv;
    H.NextKeeps(s, a);
    H.LeftOn(s, a);
  }

  /** A step of a thread that neither pops nor gives leaves the hands as they are. */
  lemma HandOn(s: H.State, a: H.Action)
    requires H.Inv(s) && s.hand.Full? && !H.Gives(s, a)
    ensures H.Next(s, a).hand.Full? && H.Next(s, a).worker == s.worker
  {
  }

  lemma PopOn(s: H.State, a: H.Action)
    ensures H.Pops(s, a) ==> H.Next(s, a).hand.Full? && H.Next(s, a).worker == s.worker
  {
  }

  /** Whoever grips something else still does. */
  lemma GripStays<T>(stages: seq<T -> Option<T>>, plan: Plan, order: seq<nat>, j: Joint<T>,
                     t: nat, a: H.Action, u: nat, i: nat)
    requires Accounted(stages, plan, order, j) && t < |plan| && Grips(plan, j, u, i)
    requires u == t ==> !H.Gives(j.threads[t], Thread(plan, j, t, a))
    ensures Grips(plan, Step(stages, plan, order, j, On(t, a)), u, i)
  {
    hide H.Inv, H.Next, H.Gives, H.Pops, FlusherStep;
    if u == t {
      assert FitsPlan(plan, t, j.threads[t]);
      HandOn(j.threads[t], Thread(plan, j, t, a));
    }
  }

  lemma HeldOn<T>(stages: seq<T -> Option<T>>, plan: Plan, order: seq<nat>, j: Joint<T>, t: nat, a: H.Action)
    requires Accounted(stages, plan, order, j) && t < |plan|
    ensures Accounted(stages, plan, order, Step(stages, plan, order, j, On(t, a)))
  {
    hide H.Inv, H.Next, FlusherStep, Grips, FitsPlan;
    var k, s, b := Step(stages, plan, order, j, On(t, a)), j.threads[t], Thread(plan, j, t, a);
    FitsOn(plan, t, s, b);
    forall i: nat | i < |stages| && k.race.flow.hands[i].Some? ensures exists u: nat :: Grips(plan, k, u, i) {
      if j.race.flow.hands[i].Some? {
        var u: nat :| Grips(plan, j, u, i);
        if u == t && H.Gives(s, b) {
          GripIs(plan, j, t, i);
        } else {
          GripStays(stages, plan, order, j, t, a, u, i);
        }
      } else {
        Popped(stages, plan, order, j, t, a, i);
      }
    }
  }

  lemma GripIs<T>(plan: Plan, j: Joint<T>, t: nat, i: nat)
    requires Grips(plan, j, t, i)
    ensures t < |plan| && t < |j.threads| && StageAt(plan, t, j.threads[t]) == Some(i) && j.threads[t].hand.Full?
  {
  }

  lemma Popped<T>(stages: seq<T -> Option<T>>, plan: Plan, order: seq<nat>, j: Joint<T>, t: nat, a: H.Action, i: nat)
    requires Sound(stages, plan, order, j) && t < |plan| && i < |stages| && j.race.flow.hands[i].None?
    requires Step(stages, plan, order, j, On(t, a)).race.flow.hands[i].Some?
    ensures Grips(plan, Step(stages, plan, order, j, On(t, a)), t, i)
  {
    hide H.Inv, H.Next, FlusherStep;
    var s, b, k := j.threads[t], Thread(plan, j, t, a), Step(stages, plan, order, j, On(t, a));
    PopOn(s, b);
    assert StageAt(plan, t, s) == Some(i) && H.Pops(s, b);
    assert k.threads[t] == H.Next(s, b);
  }

  /** In every interleaving, whatever is in the hand of a stage is in the hand of a thread. */
  lemma {:induction false} AllAccounted<T>(stages: seq<T -> Option<T>>, plan: Plan, order: seq<nat>,
                                           deeds: seq<Deed<T>>)
    requires StagesIn(order, |stages|)
    ensures Accounted(stages, plan, order, Reached(stages, plan, order, deeds))
    decreases |deeds|
  {
    if deeds == [] {
      StartsFit(plan);
    } else {
      hide Accounted, Step;
      var pre, d := deeds[..|deeds| - 1], Last(deeds);
      AllAccounted(stages, plan, order, pre);
      OneAccounted(stages, plan, order, Reached(stages, plan, order, pre), d);
    }
  }

  lemma StartsFit(plan: Plan)
    ensures forall t :: 0 <= t < |plan| ==> FitsPlan(plan, t, H.Start(|plan[t]|))
  {
  }

  lemma OneAccounted<T>(stages: seq<T -> Option<T>>, plan: Plan, order: seq<nat>, j: Joint<T>, d: Deed<T>)
    requires Accounted(stages, plan, order, j)
    ensures Accounted(stages, plan, order, Step(stages, plan, order, j, d))
  {
    hide H.Inv, H.Next, FitsPlan;
    match d {
      case On(t, a) => if t < |plan| { HeldOn(stages, plan, order, j, t, a); }
      case _ =>
        var k := Step(stages, plan, order, j, d);
        forall i: nat | i < |stages| && k.race.flow.hands[i].Some? ensures exists u: nat :: Grips(plan, k, u, i) {
          var u: nat :| Grips(plan, j, u, i);
          assert Grips(plan, k, u, i);
        }
    }
  }

  // ----- nothing gets lost on the way to the flush -----

  /** What arrived, in order. */
  function Arrived<T>(deeds: seq<Deed<T>>): seq<T>
  {
    if deeds == [] then []
    else Arrived(deeds[..|deeds| - 1]) + if Last(deeds).Arrives? then [Last(deeds).item] else []
  }

  ghost predicate NoFlush<T>(deeds: seq<Deed<T>>)
  {
    forall k :: 0 <= k < |deeds| ==> !deeds[k].Flushes?
  }

  lemma StepOn<T>(stages: seq<T -> Option<T>>, steps: seq<PipelineFlow.Step<T>>, s: PipelineFlow.Step<T>)
    ensures PipelineFlow.Run(stages, steps + [s]) == Next(stages, PipelineFlow.Run(stages, steps), s)
    ensures Produced(steps + [s]) == Produced(steps) + if s.Produce? then [s.item] else []
  {
    assert (steps + [s])[..|steps|] == steps;
  }

  /** Without a flush, the threads' deeds are the pops and pushes of the pipeline. */
  lemma {:induction false} DeedsAreSteps<T>(stages: seq<T -> Option<T>>, plan: Plan, order: seq<nat>,
                                            deeds: seq<Deed<T>>)
    returns (steps: seq<PipelineFlow.Step<T>>)
    requires StagesIn(order, |stages|) && NoFlush(deeds)
    ensures var r := Reached(stages, plan, order, deeds).race;
            r == Begin(r.flow) && r.flow == PipelineFlow.Run(stages, steps) && Produced(steps) == Arrived(deeds)
    decreases |deeds|
  {
    steps := [];
    if deeds != [] {
      hide H.Next, H.Pops, H.Gives, Next, PipelineFlow.Run, Produced;
      var pre, d := deeds[..|deeds| - 1], Last(deeds);
      steps := DeedsAreSteps(stages, plan, order, pre);
      var j := Reached(stages, plan, order, pre);
      match d {
        case Arrives(x) =>
          StepOn(stages, steps, Produce(x));
          steps := steps + [Produce(x)];
        case On(t, a) =>
          if t < |plan| && StageAt(plan, t, j.threads[t]).Some? {
            var i := StageAt(plan, t, j.threads[t]).value;
            if H.Pops(j.threads[t], Thread(plan, j, t, a)) {
              StepOn(stages, steps, Pop(i));
              steps := steps + [Pop(i)];
            } else if H.Gives(j.threads[t], Thread(plan, j, t, a)) {
              StepOn(stages, steps, Push(i));
              steps := steps + [Push(i)];
            }
          }
      }
    }
  }

  /** What the step of a polling thread does to the queues: one that has found a stage enabled takes the oldest item in
      front of it, if there is one, and otherwise goes on to the next stage; one with an item in hand passes on what the
      stage makes of it; whatever else threads do leaves the queues alone. */
  lemma ThreadMovesItems<T>(stages: seq<T -> Option<T>>, plan: Plan, order: seq<nat>, j: Joint<T>, t: nat, a: H.Action)
    requires Sound(stages, plan, order, j) && t < |plan|
    ensures var s, f := j.threads[t], j.race.flow;
            var k := Step(stages, plan, order, j, On(t, a));
            var s', g := k.threads[t], k.race.flow;
            if a.WorkerStep? && H.AtRunnable(s) && s.worker.left <= |plan[t]| && !s.hand.Free? then
              var i := plan[t][|plan[t]| - s.worker.left];
              i < |stages| ==>
                && (s.hand.Chosen? && f.queues[i] != [] && f.hands[i].None? ==>
                      s'.hand.Full? && g == Flow(f.queues[i := f.queues[i][1..]], f.hands[i := Some(f.queues[i][0])]))
                && (s.hand.Chosen? && f.queues[i] == [] ==>
                      s'.hand.Free? && s'.worker.left == s.worker.left - 1 && g == f)
                && (s.hand.Full? && f.hands[i].Some? ==>
                      && s'.hand.Free?
                      && g.hands == f.hands[i := None]
                      && g.queues == f.queues[i + 1 := f.queues[i + 1] + Held(stages[i](f.hands[i].value))])
            else g == f
  {
    var s := j.threads[t];
    if a.WorkerStep? && H.AtRunnable(s) && s.worker.left <= |plan[t]| && !s.hand.Free? {
      hide H.Next, Next;
      RunsThen(s, Thread(plan, j, t, a));
      assert !H.Executes(s, Thread(plan, j, t, a)) ==> Step(stages, plan, order, j, On(t, a)).race == j.race;
    } else {
      hide H.Next;
    }
  }

  lemma RunsThen(s: H.State, a: H.Action)
    requires a.WorkerStep? && H.AtRunnable(s)
    ensures H.Next(s, a) == H.RunNext(s, a.work)
  {
    hide H.RunNext;
  }

  // ----- the flush -----

  ghost predicate AllPaused(threads: seq<H.State>)
  {
    forall t :: 0 <= t < |threads| ==> H.PauseInEffect(threads[t])
  }

  /** While the main thread flushes: its steps, and whatever the polling threads do. */
  ghost predicate MainFlushes<T>(deeds: seq<Deed<T>>)
  {
    forall k :: 0 <= k < |deeds| ==> deeds[k].Flushes? || (deeds[k].On? && deeds[k].action.WorkerStep?)
  }

  /** With all threads paused there is nothing in any hand. */
  lemma PausedHandsEmpty<T>(stages: seq<T -> Option<T>>, plan: Plan, order: seq<nat>, j: Joint<T>)
    requires Accounted(stages, plan, order, j) && AllPaused(j.threads)
    ensures HeldRows(stages, j.race.flow.hands, 0) == []
  {
    hide H.Inv, MapThrough;
    HeldRowsEmpty(stages, j.race.flow.hands, 0);
    forall i: nat | i < |stages| ensures MapThrough(stages, i, PipelineFlow.Held(j.race.flow.hands[i])) == [] {
      MapNone(stages, i);
      if j.race.flow.hands[i].Some? {
        var t: nat :| Grips(plan, j, t, i);
        assert FitsPlan(plan, t, j.threads[t]);
        ParkedHand(j.threads[t]);
      }
    }
  }

  lemma ParkedHand(s: H.State)
    requires H.Inv(s) && H.PauseInEffect(s)
    ensures s.hand.Free? && !H.AtRunnable(s)
  {
  }

  lemma StillPaused(s: H.State, work: bool, spurious: bool)
    requires H.Inv(s) && H.PauseInEffect(s)
    ensures H.PauseInEffect(H.Next(s, H.WorkerStep(work, spurious)))
  {
  }

  lemma PausedStep<T>(stages: seq<T -> Option<T>>, plan: Plan, order: seq<nat>, j: Joint<T>, d: Deed<T>)
    requires Accounted(stages, plan, order, j) && AllPaused(j.threads)
    requires d.Flushes? || (d.On? && d.action.WorkerStep?)
    ensures var k := Step(stages, plan, order, j, d);
            && Accounted(stages, plan, order, k) && AllPaused(k.threads)
            && k.race == if d.Flushes? then Apply(stages, order, j.race, Flusher) else j.race
  {
    OneAccounted(stages, plan, order, j, d);
    hide H.Inv, H.Next, FlusherStep, H.PauseInEffect;
    if d.On? && d.thread < |plan| {
      var s := j.threads[d.thread];
      assert FitsPlan(plan, d.thread, s);
      ParkedHand(s);
      StillPaused(s, Finds(j.race.flow, StageAt(plan, d.thread, s)), d.action.spurious);
    }
  }

  function MovesOf<T>(deeds: seq<Deed<T>>): (moves: seq<Move>)
    ensures |moves| <= |deeds| && Alone(moves)
  {
    if deeds == [] then []
    else if deeds[0].Flushes? then [Flusher] + MovesOf(deeds[1..])
    else MovesOf(deeds[1..])
  }

  lemma {:induction false} PausedRun<T>(stages: seq<T -> Option<T>>, plan: Plan, order: seq<nat>, j: Joint<T>,
                                        deeds: seq<Deed<T>>)
    requires Accounted(stages, plan, order, j) && AllPaused(j.threads) && MainFlushes(deeds)
    ensures Run(stages, plan, order, j, deeds).race == FlushRace.After(stages, order, j.race, MovesOf(deeds))
    decreases |deeds|
  {
    if deeds != [] {
      hide Accounted, AllPaused, Step, FlusherStep;
      PausedStep(stages, plan, order, j, deeds[0]);
      var k := Step(stages, plan, order, j, deeds[0]);
      PausedRun(stages, plan, order, k, deeds[1..]);
      if deeds[0].Flushes? {
        assert MovesOf(deeds)[0] == Flusher && MovesOf(deeds)[1..] == MovesOf(deeds[1..]);
      }
    }
  }

  lemma {:induction false} CountMoves<T>(deeds: seq<Deed<T>>)
    ensures FlusherMoves(MovesOf(deeds)) == |MovesOf(deeds)|
  {
    if deeds != [] {
      CountMoves(deeds[1..]);
      if deeds[0].Flushes? { assert MovesOf(deeds)[1..] == MovesOf(deeds[1..]); }
    }
  }

  /** Whatever producers and polling threads did before: when the pauses of all threads are in effect, a flush of all
      stages comes to its end, and then the table holds exactly what arrived, sent through the stages, in order. */
  lemma PausedFlushIsRight<T>(stages: seq<T -> Option<T>>, plan: Plan, order: seq<nat>,
                              before: seq<Deed<T>>, during: seq<Deed<T>>)
    requires StagesIn(order, |stages|) && Covers(order, |stages|) && NoFlush(before) && MainFlushes(during)
    requires AllPaused(Reached(stages, plan, order, before).threads)
    ensures var j := Reached(stages, plan, order, before);
            var k := Run(stages, plan, order, j, during);
            && (k.race.done ==> Rows(k.race.flow) == MapThrough(stages, 0, Arrived(before)))
            && (|MovesOf(during)| >= Budget(stages, order, j.race) ==> k.race.done)
  {
    hide Accounted, AllPaused, HeldRows, MapThrough, Total, Budget, FlushRace.After;
    var j := Reached(stages, plan, order, before);
    AllAccounted(stages, plan, order, before);
    var steps := DeedsAreSteps(stages, plan, order, before);
    Conservation(stages, steps);
    PausedHandsEmpty(stages, plan, order, j);
    QuietFlushExact(stages, order, j.race.flow);
    PausedRun(stages, plan, order, j, during);
    CountMoves(during);
    assert NoTakes(MovesOf(during)) && Complete(stages, order, j.race.flow, MovesOf(during));
    if |MovesOf(during)| >= Budget(stages, order, j.race) { FlushEnds(stages, order, j.race, MovesOf(during)); }
  }
}
