/** Draining a pipeline: the loops of stages, flusher, polling threads and teardown, with no producer running.
    Whenever a method of one thread has done an atomic step, the threads that are still polling may do any number of
    theirs. */
module Runtime {
  import opened Bytes
  import opened PipelineFlow
  import Loads

  predicate OnThread(threads: seq<seq<nat>>, t: nat, i: nat)
  {
    t < |threads| && i in threads[t]
  }

  /** Every stage is enabled and on some thread. */
  ghost predicate Served(threads: seq<seq<nat>>, enabled: set<nat>, n: nat)
  {
    forall i: nat :: i < n ==> i in enabled && exists t: nat :: OnThread(threads, t, i)
  }

  /** A turn of a stage's polling thread, if it is live: it passes on what it has in hand, or takes an item. */
  function Turn<T>(stages: seq<T -> Option<T>>, live: set<nat>, f: Flow<T>, i: nat): (g: Flow<T>)
    requires Shaped(stages, f)
    ensures Shaped(stages, g)
  {
    if i !in live || i >= |stages| then f
    else if f.hands[i].Some? then Next(stages, f, Push(i))
    else Next(stages, f, Pop(i))
  }

  function Turns<T>(stages: seq<T -> Option<T>>, live: set<nat>, f: Flow<T>, schedule: seq<nat>): (g: Flow<T>)
    requires Shaped(stages, f)
    ensures Shaped(stages, g)
  {
    if schedule == [] then f
    else Turn(stages, live, Turns(stages, live, f, schedule[..|schedule| - 1]), Last(schedule))
  }

  lemma NotLive<T>(stages: seq<T -> Option<T>>, live: set<nat>, f: Flow<T>, i: nat)
    requires Shaped(stages, f) && i !in live
    ensures Turn(stages, live, f, i) == f
  {
  }

  class Pipeline<T> {
    const stages: seq<T -> Option<T>>
    var queues: seq<seq<T>>
    /** What the thread of each stage has taken from its queue and not yet passed on. */
    var hands: seq<Option<T>>
    var enabled: set<nat>
    /** The stages whose threads are polling and not joined. */
    var live: set<nat>

    ghost predicate Valid()
      reads this
    {
      |queues| == |stages| + 1 && |hands| == |stages| && forall i :: i in live ==> i < |stages|
    }

    ghost function Now(): Flow<T>
      reads this
    {
      Flow(queues, hands)
    }

    /** The rows, followed by everything queued or in hand, as the rows it will become. */
    ghost function Everything(): seq<T>
      reads this
      requires Valid()
    {
      Total(stages, Now())
    }

    ghost function Load(): nat
      reads this
      requires Valid()
    {
      Loads.Load(queues, Loads.InHand(hands))
    }

    /** Nobody touched the hands of the threads that are not polling. */
    ghost predicate OthersOnly(was: seq<Option<T>>)
      reads this
    {
      |hands| == |was| && forall i :: 0 <= i < |hands| && i !in live ==> hands[i] == was[i]
    }

    /** From no queue in front of any other stage was anything taken. */
    ghost predicate OnlyFrom(was: seq<seq<T>>, some: set<nat>)
      reads this
    {
      |queues| == |was| == |stages| + 1 && forall i :: 0 <= i < |stages| && i !in some ==> was[i] <= queues[i]
    }

    /** No other thread is polling, and none has an item in hand. */
    ghost predicate Quiet()
      reads this
    {
      live == {} && forall i :: 0 <= i < |hands| ==> hands[i].None?
    }

    constructor (stages: seq<T -> Option<T>>)
      ensures Valid() && Quiet() && enabled == {}
      ensures this.stages == stages && queues == seq(|stages| + 1, _ => [])
    {
      this.stages := stages;
      queues := seq(|stages| + 1, _ => []);
      hands := seq(|stages|, _ => None);
      enabled, live := {}, {};
    }

    // ----- atomic steps -----

    /** try_pop. */
    method Take(i: nat)
      requires Valid() && i < |stages| && hands[i].None? && queues[i] != []
      modifies `queues, `hands
      ensures Valid() && Everything() == old(Everything()) && Load() < old(Load())
      ensures queues == old(queues)[i := old(queues)[i][1..]] && hands == old(hands)[i := Some(old(queues)[i][0])]
    {
      hide Total, Loads.Load;
      PopKeeps(stages, Now(), i);
      Loads.TakeLightens(queues, Loads.InHand(hands), i);
      Loads.OneHand(hands, i, Some(queues[i][0]));
      hands := hands[i := Some(queues[i][0])];
      queues := queues[i := queues[i][1..]];
    }

    /** The stage's work on the item, and push or emplace of what comes out. */
    method Give(i: nat)
      requires Valid() && i < |stages| && hands[i].Some?
      modifies `queues, `hands
      ensures Valid() && Everything() == old(Everything()) && Load() < old(Load())
      ensures queues == old(queues)[i + 1 := old(queues)[i + 1] + Held(stages[i](old(hands)[i].value))]
      ensures hands == old(hands)[i := None]
    {
      hide Total, Loads.Load;
      PushKeeps(stages, Now(), i);
      var out := stages[i](hands[i].value);
      Loads.GiveLightens(queues, Loads.InHand(hands), i, out);
      Loads.OneHand(hands, i, None);
      hands := hands[i := None];
      queues := queues[i + 1 := queues[i + 1] + if out.Some? then [out.value] else []];
    }

    /** One step of a polling thread. */
    method OtherTurn(i: nat)
      requires Valid() && i in live
      modifies `queues, `hands
      ensures Valid() && Everything() == old(Everything()) && Load() <= old(Load())
      ensures OthersOnly(old(hands)) && OnlyFrom(old(queues), live)
      ensures Now() == Turn(stages, live, old(Now()), i)
    {
      hide Total, Loads.Load;
      if hands[i].Some? {
        Give(i);
      } else if queues[i] != [] {
        Take(i);
      }
    }

    /** Steps of the polling threads in the order of the schedule, which names whose turn it is. */
    method OthersRun(schedule: seq<nat>)
      requires Valid()
      modifies `queues, `hands
      ensures Valid() && Everything() == old(Everything()) && Load() <= old(Load())
      ensures OthersOnly(old(hands)) && (live == {} ==> queues == old(queues))
      ensures OnlyFrom(old(queues), live)
      ensures Now() == Turns(stages, live, old(Now()), schedule)
    {
      hide Total, Loads.Load, Turn;
      for n := 0 to |schedule|
        invariant Valid() && Everything() == old(Everything()) && Load() <= old(Load())
        invariant OthersOnly(old(hands)) && (live == {} ==> queues == old(queues))
        invariant OnlyFrom(old(queues), live)
        invariant Now() == Turns(stages, live, old(Now()), schedule[..n])
      {
        assert schedule[..n + 1][..n] == schedule[..n];
        if schedule[n] in live { OtherTurn(schedule[n]); } else { NotLive(stages, live, Now(), schedule[n]); }
      }
      assert schedule[..|schedule|] == schedule;
    }

    // ----- stages -----

    /** A stage's run_: one item popped, transformed and passed on, or dropped. The schedules are those of the other
        threads before the pop and between the pop and the push. */
    method ProcessOne(i: nat, before: seq<nat>, between: seq<nat>) returns (proceed: bool)
      requires Valid() && i < |stages| && i !in live && hands[i].None?
      modifies `queues, `hands
      ensures Valid() && Everything() == old(Everything()) && Load() <= old(Load())
      ensures proceed ==> Load() < old(Load())
      ensures OthersOnly(old(hands)) && OnlyFrom(old(queues), live + {i})
      ensures live == {} ==> (proceed <==> old(queues)[i] != []) && (!proceed ==> queues == old(queues))
      ensures var f := Turns(stages, live, old(Now()), before);
              && (proceed <==> f.queues[i] != [])
              && Now() == if !proceed then f
                          else Next(stages, Turns(stages, live, Next(stages, f, Pop(i)), between), Push(i))
    {
      hide Total, Loads.Load, Turns;
      OthersRun(before);
      if queues[i] == [] { return false; }
      Take(i);
      Finish(i, between);
      proceed := true;
    }

    /** The second half of it. */
    method Finish(i: nat, between: seq<nat>)
      requires Valid() && i < |stages| && i !in live && hands[i].Some?
      modifies `queues, `hands
      ensures Valid() && Everything() == old(Everything()) && Load() < old(Load()) && OnlyFrom(old(queues), live)
      ensures OthersOnly(old(hands)[i := None])
      ensures Now() == Next(stages, Turns(stages, live, old(Now()), between), Push(i))
    {
      hide Total, Loads.Load, Turns;
      OthersRun(between);
      Give(i);
    }

    method ProcessAll(i: nat) returns (outcome: bool)
      requires Valid() && Quiet() && i < |stages|
      modifies `queues, `hands
      ensures Valid() && Quiet() && Everything() == old(Everything()) && Load() <= old(Load())
      ensures queues[i] == [] && (outcome <==> old(queues)[i] != [])
      ensures outcome ==> Load() < old(Load())
      ensures !outcome ==> queues == old(queues)
      ensures OnlyFrom(old(queues), {i})
    {
      hide Total, Loads.Load;
      outcome := false;
      var result := true;
      while result
        invariant Valid() && Quiet() && Everything() == old(Everything()) && Load() <= old(Load())
        invariant OnlyFrom(old(queues), {i}) && (!result ==> queues[i] == [])
        invariant if outcome then old(queues)[i] != [] && Load() < old(Load()) else queues == old(queues)
        decreases Load(), result
      {
        result := ProcessOne(i, [], []);
        if result { outcome := true; }
      }
    }

    /** The stages of a list. */
    ghost function Named(order: seq<nat>): set<nat>
    {
      set k | 0 <= k < |order| :: order[k]
    }

    /** One pass of processAll over some stages in the given order. */
    method Pass(order: seq<nat>, check: bool) returns (worked: bool)
      requires Valid() && Quiet() && forall k :: 0 <= k < |order| ==> order[k] < |stages|
      modifies `queues, `hands
      ensures Valid() && Quiet() && Everything() == old(Everything()) && Load() <= old(Load())
      ensures worked ==> Load() < old(Load())
      ensures !worked ==> queues == old(queues)
      ensures !worked <==> forall k :: 0 <= k < |order| && (check ==> order[k] in enabled) ==>
                old(queues)[order[k]] == []
      ensures OnlyFrom(old(queues), Named(order)) && (check ==> OnlyFrom(old(queues), enabled))
    {
      hide Total, Loads.Load;
      worked := false;
      var k := 0;
      while k < |order|
        invariant k <= |order| && Valid() && Quiet() && Everything() == old(Everything()) && Load() <= old(Load())
        invariant worked ==> Load() < old(Load())
        invariant !worked ==> queues == old(queues)
        invariant OnlyFrom(old(queues), Named(order)) && (check ==> OnlyFrom(old(queues), enabled))
        invariant worked ==>
                    exists m :: 0 <= m < |order| && (check ==> order[m] in enabled) && old(queues)[order[m]] != []
        invariant !worked ==> forall m :: 0 <= m < k && (check ==> order[m] in enabled) ==> old(queues)[order[m]] == []
      {
        if !check || order[k] in enabled {
          var result := ProcessAll(order[k]);
          if result {
            assert !worked ==> old(queues)[order[k]] != [];
            worked := true;
          }
        }
        k := k + 1;
      }
    }

    /** Flusher.flush, while all polling threads are paused or joined: passes until one finds nothing to do. It ends for
        every order of the stages, whichever and however often they are named, and then the named stages' queues are
        all empty at once. FlushRace tells exactly when it may run beside polling threads. */
    method Flush(order: seq<nat>) returns (outcome: bool)
      requires Valid() && Quiet() && forall k :: 0 <= k < |order| ==> order[k] < |stages|
      modifies `queues, `hands
      ensures Valid() && Quiet() && Everything() == old(Everything())
      ensures forall k :: 0 <= k < |order| ==> queues[order[k]] == []
      ensures outcome <==> exists k :: 0 <= k < |order| && old(queues)[order[k]] != []
      ensures Covers(order, |stages|) ==> Last(queues) == old(Everything())
      ensures OnlyFrom(old(queues), Named(order))
    {
      hide Total, Loads.Load;
      outcome := false;
      var continueWhile := true;
      while continueWhile
        invariant Valid() && Quiet() && Everything() == old(Everything())
        invariant outcome ==> exists k :: 0 <= k < |order| && old(queues)[order[k]] != []
        invariant !outcome ==> queues == old(queues)
        invariant OnlyFrom(old(queues), Named(order))
        invariant !continueWhile ==> forall k :: 0 <= k < |order| ==> queues[order[k]] == []
        decreases Load(), continueWhile
      {
        continueWhile := Pass(order, false);
        if continueWhile { outcome := true; }
      }
      if Covers(order, |stages|) {
        forall i: nat | i < |stages| ensures queues[i] == [] {
          assert i in order;
        }
        Drained();
      }
    }

    /** With every stage's queue empty and nothing in hand, everything is in the table. */
    lemma Drained()
      requires Valid() && Quiet() && forall i :: 0 <= i < |stages| ==> queues[i] == []
      ensures Last(queues) == Everything()
    {
      EmptyTotal(stages, Now(), 0);
    }

    // ----- threads -----

    /** These stages are not polled by any other thread, and nothing of theirs is in hand. */
    ghost predicate Mine(runnables: seq<nat>)
      reads this
      requires Valid()
    {
      forall k :: 0 <= k < |runnables| ==> runnables[k] < |stages| && runnables[k] !in live && hands[runnables[k]].None?
    }

    /** A polling thread's run_: rounds of processOne over its enabled runnables until a round finds nothing. */
    method RunThread(runnables: seq<nat>) returns (didWork: bool)
      requires Valid() && Mine(runnables)
      modifies `queues, `hands
      ensures Valid() && Mine(runnables) && Everything() == old(Everything()) && Load() <= old(Load())
      ensures didWork ==> Load() < old(Load())
      ensures !didWork && live == {} ==> queues == old(queues)
      ensures OthersOnly(old(hands)) && OnlyFrom(old(queues), live + enabled)
      ensures live == {} ==> forall k :: 0 <= k < |runnables| && runnables[k] in enabled ==> queues[runnables[k]] == []
    {
      hide Total, Loads.Load;
      didWork := false;
      var processed := true;
      while processed
        invariant Valid() && Mine(runnables) && Everything() == old(Everything()) && Load() <= old(Load())
        invariant didWork ==> Load() < old(Load())
        invariant !didWork && live == {} ==> queues == old(queues)
        invariant OthersOnly(old(hands)) && OnlyFrom(old(queues), live + enabled)
        invariant !processed && live == {} ==>
                    forall k :: 0 <= k < |runnables| && runnables[k] in enabled ==> queues[runnables[k]] == []
        decreases Load(), processed
      {
        processed := Round(runnables);
        if processed { didWork := true; }
      }
    }

    method Round(runnables: seq<nat>) returns (processed: bool)
      requires Valid() && Mine(runnables)
      modifies `queues, `hands
      ensures Valid() && Mine(runnables) && Everything() == old(Everything()) && Load() <= old(Load())
      ensures processed ==> Load() < old(Load())
      ensures OthersOnly(old(hands)) && OnlyFrom(old(queues), live + enabled)
      ensures !processed && live == {} ==>
                queues == old(queues) && forall k :: 0 <= k < |runnables| && runnables[k] in enabled ==>
                    queues[runnables[k]] == []
    {
      hide Total, Loads.Load;
      processed := false;
      var k := 0;
      while k < |runnables|
        invariant k <= |runnables| && Valid() && Mine(runnables)
        invariant Everything() == old(Everything()) && Load() <= old(Load())
        invariant processed ==> Load() < old(Load())
        invariant OthersOnly(old(hands)) && OnlyFrom(old(queues), live + enabled)
        invariant !processed && live == {} ==> queues == old(queues)
        invariant !processed && live == {} ==> forall m :: 0 <= m < k && runnables[m] in enabled ==>
                    queues[runnables[m]] == []
      {
        if runnables[k] in enabled {
          var before: seq<nat>, between: seq<nat> := *, *;
          var result := ProcessOne(runnables[k], before, between);
          if result { processed := true; }
        }
        k := k + 1;
      }
    }

    /** close: the thread is asked to stop, finishes the item in hand, leaves its loop and runs until it finds nothing;
        meanwhile the threads that are not asked go on. */
    method CloseThread(runnables: seq<nat>)
      requires Valid() && forall k :: 0 <= k < |runnables| ==> runnables[k] < |stages|
      modifies `queues, `hands, `live
      ensures Valid() && Everything() == old(Everything())
      ensures live == old(live) - (set k | 0 <= k < |runnables| :: runnables[k])
      ensures (forall i :: 0 <= i < |stages| && i !in old(live) ==> old(hands)[i].None?) ==>
                forall i :: 0 <= i < |stages| && i !in live ==> hands[i].None?
      ensures live == {} ==> forall k :: 0 <= k < |runnables| && runnables[k] in enabled ==> queues[runnables[k]] == []
      ensures OnlyFrom(old(queues), old(live) + enabled)
    {
      hide Total, Loads.Load;
      var schedule: seq<nat> := *;
      OthersRun(schedule);
      live := live - (set k | 0 <= k < |runnables| :: runnables[k]);
      FinishHands(runnables);
      ghost var atEnd, rest := hands, live;
      var didWork := true;
      while didWork
        invariant Valid() && live == rest && Mine(runnables) && Everything() == old(Everything()) && OthersOnly(atEnd)
        invariant OnlyFrom(old(queues), old(live) + enabled)
        invariant !didWork && live == {} ==>
                    forall k :: 0 <= k < |runnables| && runnables[k] in enabled ==> queues[runnables[k]] == []
        decreases Load(), didWork
      {
        didWork := RunThread(runnables);
      }
    }

    method PassOn(i: nat, schedule: seq<nat>)
      requires Valid() && i < |stages| && i !in live && hands[i].Some?
      modifies `queues, `hands
      ensures Valid() && Everything() == old(Everything()) && Load() <= old(Load()) && OnlyFrom(old(queues), live)
      ensures OthersOnly(old(hands)[i := None])
      ensures Now() == Turns(stages, live, Next(stages, old(Now()), Push(i)), schedule)
    {
      hide Total, Loads.Load, Turns;
      Give(i);
      OthersRun(schedule);
    }

    /** The thread passes on what it has in hand. */
    method FinishHands(runnables: seq<nat>)
      requires Valid() && forall k :: 0 <= k < |runnables| ==> runnables[k] < |stages| && runnables[k] !in live
      modifies `queues, `hands
      ensures Valid() && Mine(runnables) && Everything() == old(Everything()) && OnlyFrom(old(queues), live)
      ensures forall i :: 0 <= i < |stages| && i !in live ==> hands[i] == old(hands)[i] || hands[i].None?
    {
      hide Total, Loads.Load, Turns;
      var k := 0;
      while k < |runnables|
        invariant k <= |runnables| && Valid() && Everything() == old(Everything()) && OnlyFrom(old(queues), live)
        invariant forall i :: 0 <= i < |stages| && i !in live ==> hands[i] == old(hands)[i] || hands[i].None?
        invariant forall m :: 0 <= m < k ==> hands[runnables[m]].None?
      {
        if hands[runnables[k]].Some? {
          var schedule: seq<nat> := *;
          PassOn(runnables[k], schedule);
        }
        k := k + 1;
      }
    }

    /** postSimLoopTeardown: the threads are closed one after the other while those not yet closed go on polling, and
        then flushRunnables runs over all threads until nobody finds work. In every interleaving, with every stage
        enabled and on some thread, every item ends up in the table, once and in order, however the stages are spread
        over the threads. */
    method PostSimLoopTeardown(threads: seq<seq<nat>>)
      requires Valid() && forall t, k :: 0 <= t < |threads| && 0 <= k < |threads[t]| ==> threads[t][k] < |stages|
      requires forall i :: i in live ==> exists t: nat :: OnThread(threads, t, i)
      requires forall i :: 0 <= i < |stages| && i !in live ==> hands[i].None?
      modifies `queues, `hands, `live
      ensures Valid() && Quiet() && Everything() == old(Everything())
      ensures forall t, k :: 0 <= t < |threads| && 0 <= k < |threads[t]| && threads[t][k] in enabled ==>
                queues[threads[t][k]] == []
      ensures Served(threads, enabled, |stages|) ==> Last(queues) == old(Everything())
      ensures OnlyFrom(old(queues), old(live) + enabled)
    {
      hide Total, Loads.Load;
      var t := 0;
      while t < |threads|
        invariant t <= |threads| && Valid() && Everything() == old(Everything())
        invariant OnlyFrom(old(queues), old(live) + enabled)
        invariant live <= old(live) && forall u :: 0 <= u < t ==> forall i :: i in threads[u] ==> i !in live
        invariant forall i :: 0 <= i < |stages| && i !in live ==> hands[i].None?
      {
        CloseThread(threads[t]);
        t := t + 1;
      }
      forall i | i in old(live) ensures i !in live {
        var u: nat :| OnThread(threads, u, i);
        assert i in threads[u];
      }
      assert live == {};
      FlushThreads(threads);
      if Served(threads, enabled, |stages|) {
        forall i: nat | i < |stages| ensures queues[i] == [] {
          assert i in enabled;
          var u: nat :| OnThread(threads, u, i);
          assert i in threads[u];
        }
        Drained();
      }
    }

    /** The second half of the teardown, with all threads joined. */
    method FlushThreads(threads: seq<seq<nat>>)
      requires Valid() && Quiet() && forall t, k :: 0 <= t < |threads| && 0 <= k < |threads[t]| ==>
                 threads[t][k] < |stages|
      modifies `queues, `hands
      ensures Valid() && Quiet() && Everything() == old(Everything())
      ensures forall t, k :: 0 <= t < |threads| && 0 <= k < |threads[t]| && threads[t][k] in enabled ==>
                queues[threads[t][k]] == []
      ensures OnlyFrom(old(queues), enabled)
    {
      hide Total, Loads.Load;
      var continueWhile := true;
      while continueWhile
        invariant Valid() && Quiet() && Everything() == old(Everything()) && OnlyFrom(old(queues), enabled)
        invariant !continueWhile ==>
                    forall t, k :: 0 <= t < |threads| && 0 <= k < |threads[t]| && threads[t][k] in enabled ==>
                        queues[threads[t][k]] == []
        decreases Load(), continueWhile
      {
        continueWhile := FlushAll(threads);
      }
    }

    /** flushRunnables of every thread, once. */
    method FlushAll(threads: seq<seq<nat>>) returns (worked: bool)
      requires Valid() && Quiet() && forall t, k :: 0 <= t < |threads| && 0 <= k < |threads[t]| ==>
                 threads[t][k] < |stages|
      modifies `queues, `hands
      ensures Valid() && Quiet() && Everything() == old(Everything()) && Load() <= old(Load())
      ensures worked ==> Load() < old(Load())
      ensures !worked ==> forall t, k :: 0 <= t < |threads| && 0 <= k < |threads[t]| && threads[t][k] in enabled ==>
                            queues[threads[t][k]] == []
      ensures OnlyFrom(old(queues), enabled)
    {
      hide Total, Loads.Load;
      worked := false;
      var t := 0;
      while t < |threads|
        invariant t <= |threads| && Valid() && Quiet() && Everything() == old(Everything()) && Load() <= old(Load())
        invariant if worked then Load() < old(Load()) else queues == old(queues)
        invariant OnlyFrom(old(queues), enabled)
        invariant !worked ==> forall u, k :: 0 <= u < t && 0 <= k < |threads[u]| && threads[u][k] in enabled ==>
                                queues[threads[u][k]] == []
      {
        var result := Pass(threads[t], true);
        if result { worked := true; }
        t := t + 1;
      }
    }
  }
}
