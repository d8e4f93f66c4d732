/** Merging the threads of all apps: stages are dealt round-robin to as many threads as the largest app needs. */
module ThreadMerger {
  import opened Bytes

  /** interval: how long the stage's thread sleeps between two rounds. */
  datatype Stage = Stage(id: nat, database: bool, interval: nat)
  datatype Pipeline = Pipeline(app: nat, stages: seq<Stage>)

  /** The interval of a polling thread for which none is given. */
  const DEFAULT_INTERVAL := 100

  /** A merged thread: what it sleeps between two rounds, and its stages. */
  datatype Thread = Thread(interval: nat, stages: seq<nat>)

  /** The stages that need a polling thread. */
  function Polling(stages: seq<Stage>): (ids: seq<nat>)
    ensures forall x :: x in ids <==> exists k :: 0 <= k < |stages| && !stages[k].database && stages[k].id == x
    ensures |ids| <= |stages|
  {
    if stages == [] then []
    else (if stages[0].database then [] else [stages[0].id]) + Polling(stages[1..])
  }

  /** The intervals of the stages that need a polling thread. */
  function IntervalsIn(stages: seq<Stage>): set<nat>
  {
    if stages == [] then {}
    else IntervalsIn(stages[..|stages| - 1]) + if Last(stages).database then {} else {Last(stages).interval}
  }

  function Intervals(pipelines: seq<Pipeline>): set<nat>
  {
    if pipelines == [] then {} else Intervals(pipelines[..|pipelines| - 1]) + IntervalsIn(Last(pipelines).stages)
  }

  /** pipelines_by_app: a later pipeline of an app replaces an earlier one. */
  function PipelineOf(pipelines: seq<Pipeline>, app: nat): seq<Stage>
  {
    if pipelines == [] then []
    else if Last(pipelines).app == app then Last(pipelines).stages
    else PipelineOf(pipelines[..|pipelines| - 1], app)
  }

  /** polling_threads_by_app: here all pipelines of an app add up. */
  function ThreadsOf(pipelines: seq<Pipeline>, app: nat): nat
  {
    if pipelines == [] then 0
    else ThreadsOf(pipelines[..|pipelines| - 1], app) + if Last(pipelines).app == app
        then |Polling(Last(pipelines).stages)| else 0
  }

  function MaxThreads(pipelines: seq<Pipeline>, apps: seq<nat>): (m: nat)
    ensures forall k :: 0 <= k < |apps| ==> ThreadsOf(pipelines, apps[k]) <= m
    ensures apps != [] ==> exists k :: 0 <= k < |apps| && ThreadsOf(pipelines, apps[k]) == m
  {
    if apps == [] then 0
    else
      var m := MaxThreads(pipelines, apps[..|apps| - 1]);
      if ThreadsOf(pipelines, Last(apps)) > m then ThreadsOf(pipelines, Last(apps)) else m
  }

  /** The stages in the order in which they are dealt. */
  function Deal(pipelines: seq<Pipeline>, apps: seq<nat>): seq<nat>
  {
    if apps == [] then []
    else Deal(pipelines, apps[..|apps| - 1]) + Polling(PipelineOf(pipelines, Last(apps)))
  }

  /** thread_idx after n stages. */
  function Turn(n: nat, width: nat): (t: nat)
    requires width > 0
    ensures t < width
  {
    if n == 0 then 0
    else if Turn(n - 1, width) + 1 == width then 0
    else Turn(n - 1, width) + 1
  }

  /** Times that thread_idx has wrapped. */
  function Rounds(n: nat, width: nat): nat
    requires width > 0
  {
    if n == 0 then 0 else Rounds(n - 1, width) + if Turn(n - 1, width) + 1 == width then 1 else 0
  }

  /** What thread t is dealt. */
  function Hand(q: seq<nat>, width: nat, t: nat): seq<nat>
    requires width > 0
  {
    if q == [] then []
    else Hand(q[..|q| - 1], width, t) + if Turn(|q| - 1, width) == t then [Last(q)] else []
  }

  ghost predicate Dealt(threads: seq<seq<nat>>, q: seq<nat>)
  {
    forall t :: 0 <= t < |threads| ==> threads[t] == Hand(q, |threads|, t)
  }

  /** The inner loop: one app's stages, each to the next thread. */
  method DealStages(threads: seq<seq<nat>>, threadIdx: nat, stages: seq<nat>, ghost q: seq<nat>)
    returns (threads': seq<seq<nat>>, threadIdx': nat)
    requires |stages| <= |threads| && Dealt(threads, q) && (|threads| > 0 ==> threadIdx == Turn(|q|, |threads|))
    ensures |threads'| == |threads| && Dealt(threads', q + stages)
    ensures |threads| > 0 ==> threadIdx' == Turn(|q + stages|, |threads|)
  {
    threads', threadIdx' := threads, threadIdx;
    var k := 0;
    assert q + stages[..0] == q;
    while k < |stages|
      invariant k <= |stages| && |threads'| == |threads| && Dealt(threads', q + stages[..k])
      invariant |threads| > 0 ==> threadIdx' == Turn(|q + stages[..k]|, |threads|)
    {
      assert (q + stages[..k + 1])[..|q| + k] == q + stages[..k];
      threads' := threads'[threadIdx' := threads'[threadIdx'] + [stages[k]]];
      threadIdx' := threadIdx' + 1;
      if threadIdx' == |threads'| { threadIdx' := 0; }
      k := k + 1;
    }
    assert stages[..|stages|] == stages;
  }

  /** The polling intervals in use. */
  method CollectIntervals(pipelines: seq<Pipeline>) returns (intervals: set<nat>)
    ensures intervals == Intervals(pipelines)
  {
    intervals := {};
    for i := 0 to |pipelines|
      invariant intervals == Intervals(pipelines[..i])
    {
      var stages := pipelines[i].stages;
      for k := 0 to |stages|
        invariant intervals == Intervals(pipelines[..i]) + IntervalsIn(stages[..k])
      {
        assert stages[..k + 1][..k] == stages[..k];
        if !stages[k].database { intervals := intervals + {stages[k].interval}; }
      }
      assert stages[..|stages|] == stages && pipelines[..i + 1][..i] == pipelines[..i];
    }
    assert pipelines[..|pipelines|] == pipelines;
  }

  /** createThreadsAndMergeAll_; apps lists the owning apps in the order of the map. None is the failed assertion that
      there is one polling interval. */
  method CreateThreadsAndMergeAll(pipelines: seq<Pipeline>, apps: seq<nat>) returns (merged: Option<seq<seq<nat>>>)
    ensures merged.Some? <==> |Intervals(pipelines)| == 1
    ensures merged.Some? ==> |merged.value| == MaxThreads(pipelines, apps) && Dealt(merged.value, Deal(pipelines, apps))
    ensures merged.Some? ==> forall k :: 0 <= k < |apps| ==> ThreadsOf(pipelines, apps[k]) <= |merged.value|
    ensures merged.Some? && apps != [] ==>
              exists k :: 0 <= k < |apps| && ThreadsOf(pipelines, apps[k]) == |merged.value|
  {
    hide Dealt, Turn, Intervals;
    var intervals := CollectIntervals(pipelines);
    if |intervals| != 1 { return None; }
    var width := MaxThreads(pipelines, apps);
    var threads: seq<seq<nat>> := seq(width, _ => []);
    var threadIdx, a := 0, 0;
    assert Dealt(threads, []) && (width > 0 ==> Turn(0, width) == 0) by { NothingDealt(width); }
    while a < |apps|
      invariant a <= |apps| && |threads| == width && Dealt(threads, Deal(pipelines, apps[..a]))
      invariant width > 0 ==> threadIdx == Turn(|Deal(pipelines, apps[..a])|, width)
    {
      var stages := Polling(PipelineOf(pipelines, apps[a]));
      FitsWidth(pipelines, apps, a);
      assert apps[..a + 1][..a] == apps[..a];
      threads, threadIdx := DealStages(threads, threadIdx, stages, Deal(pipelines, apps[..a]));
      a := a + 1;
    }
    assert apps[..|apps|] == apps;
    merged := Some(threads);
  }

  lemma NothingDealt(width: nat)
    ensures Dealt(seq(width, _ => []), [])
    ensures width > 0 ==> Turn(0, width) == 0
  {
  }

  lemma {:induction false} OwnPipeline(pipelines: seq<Pipeline>, app: nat)
    ensures |Polling(PipelineOf(pipelines, app))| <= ThreadsOf(pipelines, app)
    decreases |pipelines|
  {
    if pipelines != [] { OwnPipeline(pipelines[..|pipelines| - 1], app); }
  }

  lemma FitsWidth(pipelines: seq<Pipeline>, apps: seq<nat>, a: nat)
    requires a < |apps|
    ensures |Polling(PipelineOf(pipelines, apps[a]))| <= MaxThreads(pipelines, apps)
  {
    OwnPipeline(pipelines, apps[a]);
  }

  // ----- what the deal promises -----

  lemma {:induction false} LoadIs(q: seq<nat>, width: nat, t: nat)
    requires width > 0 && t < width
    ensures |Hand(q, width, t)| == Rounds(|q|, width) + if t < Turn(|q|, width) then 1 else 0
    decreases |q|
  {
    if q != [] { LoadIs(q[..|q| - 1], width, t); }
  }

  /** No thread is dealt more than one stage more than another. */
  lemma LoadsAreLevel(q: seq<nat>, width: nat, t: nat, u: nat)
    requires width > 0 && t < width && u < width
    ensures |Hand(q, width, t)| <= |Hand(q, width, u)| + 1
  {
    LoadIs(q, width, t);
    LoadIs(q, width, u);
  }

  lemma {:induction false} TurnAfter(i: nat, d: nat, width: nat)
    requires 0 < d < width
    ensures Turn(i + d, width) != Turn(i, width)
    ensures Turn(i + d, width) == Turn(i, width) + d || Turn(i + d, width) == Turn(i, width) + d - width
    decreases d
  {
    if d > 1 { TurnAfter(i, d - 1, width); }
  }

  lemma {:induction false} HandHolds(q: seq<nat>, width: nat, t: nat, x: nat)
    requires width > 0
    ensures x in Hand(q, width, t) <==> exists j :: 0 <= j < |q| && q[j] == x && Turn(j, width) == t
    decreases |q|
  {
    if q != [] {
      var pre, m := q[..|q| - 1], |q| - 1;
      HandHolds(pre, width, t, x);
      assert forall j :: 0 <= j < m ==> pre[j] == q[j];
      if x == q[m] && Turn(m, width) == t { assert q[m] == x; }
    }
  }

  ghost predicate Distinct(q: seq<nat>)
  {
    forall i, j :: 0 <= i < j < |q| ==> q[i] != q[j]
  }

  /** Every stage that is dealt lands on exactly one thread. */
  lemma OneThreadEach(q: seq<nat>, width: nat, j: nat, t: nat)
    requires width > 0 && Distinct(q) && j < |q|
    ensures q[j] in Hand(q, width, t) <==> t == Turn(j, width)
  {
    HandHolds(q, width, t, q[j]);
  }

  lemma {:induction false} DealHas(pipelines: seq<Pipeline>, apps: seq<nat>, a: nat) returns (from: nat)
    requires a < |apps|
    ensures from + |Polling(PipelineOf(pipelines, apps[a]))| <= |Deal(pipelines, apps)|
    ensures Deal(pipelines, apps)[from..from + |Polling(PipelineOf(pipelines, apps[a]))|] ==
              Polling(PipelineOf(pipelines, apps[a]))
    decreases |apps|
  {
    var pre := apps[..|apps| - 1];
    if a == |apps| - 1 {
      from := |Deal(pipelines, pre)|;
    } else {
      from := DealHas(pipelines, pre, a);
      var n := |Polling(PipelineOf(pipelines, apps[a]))|;
      assert Deal(pipelines, apps)[from..from + n] == Deal(pipelines, pre)[from..from + n];
    }
  }

  lemma NearStagesApart(q: seq<nat>, width: nat, i: nat, k: nat, t: nat)
    requires Distinct(q) && i < k < |q| && k - i < width
    ensures !(q[i] in Hand(q, width, t) && q[k] in Hand(q, width, t))
  {
    hide Turn, Hand, Distinct;
    OneThreadEach(q, width, i, t);
    OneThreadEach(q, width, k, t);
    TurnAfter(i, k - i, width);
  }

  /** No two stages of one app share a thread. */
  lemma AppIsSpread(pipelines: seq<Pipeline>, apps: seq<nat>, a: nat, j: nat, k: nat, t: nat)
    requires a < |apps| && StagesOnce(pipelines) && Distinct(apps)
    requires j < k < |Polling(PipelineOf(pipelines, apps[a]))|
    requires MaxThreads(pipelines, apps) > 0
    ensures var mine, width := Polling(PipelineOf(pipelines, apps[a])), MaxThreads(pipelines, apps);
            !(mine[j] in Hand(Deal(pipelines, apps), width, t) && mine[k] in Hand(Deal(pipelines, apps), width, t))
  {
    hide Turn, Hand, Distinct, Deal, Polling, PipelineOf, MaxThreads;
    var mine, width, q := Polling(PipelineOf(pipelines, apps[a])), MaxThreads(pipelines, apps), Deal(pipelines, apps);
    var from := DealHas(pipelines, apps, a);
    DealtOnce(pipelines, apps);
    FitsWidth(pipelines, apps, a);
    assert q[from + j] == q[from..from + |mine|][j] && q[from + k] == q[from..from + |mine|][k];
    NearStagesApart(q, width, from + j, from + k, t);
  }

  /** A pipeline before the end that a later one of its app replaces. */
  ghost predicate Replaced(pipelines: seq<Pipeline>, i: nat)
    requires i < |pipelines|
  {
    exists j :: i < j < |pipelines| && pipelines[j].app == pipelines[i].app
  }

  lemma {:induction false} PipelineIs(pipelines: seq<Pipeline>, i: nat)
    requires i < |pipelines|
    ensures !Replaced(pipelines, i) ==> PipelineOf(pipelines, pipelines[i].app) == pipelines[i].stages
    ensures Replaced(pipelines, i) ==>
              exists j :: i < j < |pipelines| && pipelines[j].app == pipelines[i].app
                  && PipelineOf(pipelines, pipelines[i].app) == pipelines[j].stages
    decreases |pipelines|
  {
    var n := |pipelines| - 1;
    var pre := pipelines[..n];
    if pipelines[n].app == pipelines[i].app {
    } else {
      PipelineIs(pre, i);
      assert Replaced(pipelines, i) <==> Replaced(pre, i) by {
        if Replaced(pipelines, i) {
          var j :| i < j < |pipelines| && pipelines[j].app == pipelines[i].app;
          assert pre[j].app == pre[i].app;
        }
        if Replaced(pre, i) {
          var j :| i < j < |pre| && pre[j].app == pre[i].app;
          assert pipelines[j].app == pipelines[i].app;
        }
      }
      if Replaced(pre, i) {
        var j :| i < j < |pre| && pre[j].app == pre[i].app && PipelineOf(pre, pre[i].app) == pre[j].stages;
        assert pipelines[j].app == pipelines[i].app && PipelineOf(pipelines, pipelines[i].app) == pipelines[j].stages;
      }
    }
  }

  lemma {:induction false} DealtFrom(pipelines: seq<Pipeline>, apps: seq<nat>, x: nat) returns (a: nat)
    requires x in Deal(pipelines, apps)
    ensures a < |apps| && x in Polling(PipelineOf(pipelines, apps[a]))
    decreases |apps|
  {
    hide Polling, PipelineOf;
    var pre, m := apps[..|apps| - 1], |apps| - 1;
    if x in Deal(pipelines, pre) { a := DealtFrom(pipelines, pre, x); } else { a := m; }
  }

  lemma DealtTo(pipelines: seq<Pipeline>, apps: seq<nat>, a: nat, x: nat)
    requires a < |apps| && x in Polling(PipelineOf(pipelines, apps[a]))
    ensures x in Deal(pipelines, apps)
  {
    hide Polling, PipelineOf, Deal;
    var from := DealHas(pipelines, apps, a);
    var mine := Polling(PipelineOf(pipelines, apps[a]));
    var k :| 0 <= k < |mine| && mine[k] == x;
    assert Deal(pipelines, apps)[from..from + |mine|][k] == Deal(pipelines, apps)[from + k];
  }

  lemma {:induction false} SomePipeline(pipelines: seq<Pipeline>, app: nat)
    ensures PipelineOf(pipelines, app) == [] ||
            exists j :: 0 <= j < |pipelines| && pipelines[j].app == app
                && PipelineOf(pipelines, app) == pipelines[j].stages
    decreases |pipelines|
  {
    if pipelines != [] {
      var pre, n := pipelines[..|pipelines| - 1], |pipelines| - 1;
      SomePipeline(pre, app);
      if pipelines[n].app != app && PipelineOf(pre, app) != [] {
        var j :| 0 <= j < |pre| && pre[j].app == app && PipelineOf(pre, app) == pre[j].stages;
        assert pipelines[j] == pre[j];
      }
    }
  }

  /** A stage is in one pipeline only. */
  ghost predicate OwnStages(pipelines: seq<Pipeline>)
  {
    forall i, j, x :: 0 <= i < j < |pipelines| && x in Polling(pipelines[i].stages) ==>
        x !in Polling(pipelines[j].stages)
  }

  /** A stage gets a thread exactly if its pipeline is its app's last: with one pipeline an app all do, and otherwise
      the stages of the earlier ones are never polled. */
  lemma ServedExactly(pipelines: seq<Pipeline>, apps: seq<nat>, i: nat, x: nat)
    requires OwnStages(pipelines) && i < |pipelines| && pipelines[i].app in apps && x in Polling(pipelines[i].stages)
    ensures x in Deal(pipelines, apps) <==> !Replaced(pipelines, i)
  {
    PipelineIs(pipelines, i);
    if x in Deal(pipelines, apps) {
      var a := DealtFrom(pipelines, apps, x);
      SomePipeline(pipelines, apps[a]);
    } else if !Replaced(pipelines, i) {
      var a :| 0 <= a < |apps| && apps[a] == pipelines[i].app;
      DealtTo(pipelines, apps, a, x);
    }
  }

  /** The keys of the map: every app with a pipeline, once. */
  ghost predicate Owners(pipelines: seq<Pipeline>, apps: seq<nat>)
  {
    Distinct(apps) && forall app :: app in apps <==> exists i :: 0 <= i < |pipelines| && pipelines[i].app == app
  }

  /** Every stage is in one pipeline, once. */
  ghost predicate StagesOnce(pipelines: seq<Pipeline>)
  {
    OwnStages(pipelines) && forall i :: 0 <= i < |pipelines| ==> Distinct(Polling(pipelines[i].stages))
  }

  lemma AppsApart(pipelines: seq<Pipeline>, a: nat, b: nat, x: nat)
    requires OwnStages(pipelines) && a != b
    ensures !(x in Polling(PipelineOf(pipelines, a)) && x in Polling(PipelineOf(pipelines, b)))
  {
    hide Polling;
    SomePipeline(pipelines, a);
    SomePipeline(pipelines, b);
    NothingPolled();
  }

  lemma NothingPolled()
    ensures Polling([]) == []
  {
  }

  lemma PolledOnce(pipelines: seq<Pipeline>, app: nat)
    requires StagesOnce(pipelines)
    ensures Distinct(Polling(PipelineOf(pipelines, app)))
  {
    hide Polling;
    SomePipeline(pipelines, app);
    NothingPolled();
  }

  /** No stage is dealt twice. */
  lemma {:induction false} DealtOnce(pipelines: seq<Pipeline>, apps: seq<nat>)
    requires StagesOnce(pipelines) && Distinct(apps)
    ensures Distinct(Deal(pipelines, apps))
    decreases |apps|
  {
    if apps != [] {
      hide Polling, PipelineOf;
      var pre, m := apps[..|apps| - 1], |apps| - 1;
      DealtOnce(pipelines, pre);
      PolledOnce(pipelines, apps[m]);
      var before, mine := Deal(pipelines, pre), Polling(PipelineOf(pipelines, apps[m]));
      forall i, j | 0 <= i < |before| && 0 <= j < |mine| ensures before[i] != mine[j] {
        var a := DealtFrom(pipelines, pre, before[i]);
        AppsApart(pipelines, apps[a], apps[m], before[i]);
      }
    }
  }

  lemma {:induction false} HandDistinct(q: seq<nat>, width: nat, t: nat)
    requires width > 0 && Distinct(q)
    ensures Distinct(Hand(q, width, t))
    decreases |q|
  {
    if q != [] {
      hide Turn;
      var pre := q[..|q| - 1];
      HandDistinct(pre, width, t);
      HandHolds(pre, width, t, Last(q));
    }
  }

  lemma {:induction false} SomeInterval(stages: seq<Stage>)
    ensures IntervalsIn(stages) != {} <==> Polling(stages) != []
    decreases |stages|
  {
    if stages != [] {
      SomeInterval(stages[..|stages| - 1]);
      PollingOn(stages[..|stages| - 1], Last(stages));
      assert stages == stages[..|stages| - 1] + [Last(stages)];
    }
  }

  lemma {:induction false} PollingOn(stages: seq<Stage>, s: Stage)
    ensures Polling(stages + [s]) == Polling(stages) + if s.database then [] else [s.id]
  {
    if stages == [] {
      assert [s][1..] == [];
    } else {
      PollingOn(stages[1..], s);
      assert (stages + [s])[1..] == stages[1..] + [s] && (stages + [s])[0] == stages[0];
      var first, last := if stages[0].database then [] else [stages[0].id], if s.database then [] else [s.id];
      assert first + (Polling(stages[1..]) + last) == first + Polling(stages[1..]) + last;
    }
  }

  lemma {:induction false} SomePolled(pipelines: seq<Pipeline>) returns (i: nat)
    requires Intervals(pipelines) != {}
    ensures i < |pipelines| && Polling(pipelines[i].stages) != []
    decreases |pipelines|
  {
    var n := |pipelines| - 1;
    SomeInterval(pipelines[n].stages);
    if Polling(pipelines[n].stages) != [] { i := n; } else { i := SomePolled(pipelines[..n]); }
  }

  lemma {:induction false} OneThreadAtLeast(pipelines: seq<Pipeline>, i: nat)
    requires i < |pipelines| && Polling(pipelines[i].stages) != []
    ensures ThreadsOf(pipelines, pipelines[i].app) > 0
    decreases |pipelines|
  {
    hide Polling;
    if i < |pipelines| - 1 { OneThreadAtLeast(pipelines[..|pipelines| - 1], i); }
  }

  /** When merging gets past its assertion there is at least one thread. */
  lemma ThreadsNeeded(pipelines: seq<Pipeline>, apps: seq<nat>)
    requires Owners(pipelines, apps) && Intervals(pipelines) != {}
    ensures MaxThreads(pipelines, apps) > 0
  {
    hide Polling, ThreadsOf, Intervals;
    var i := SomePolled(pipelines);
    OneThreadAtLeast(pipelines, i);
    assert pipelines[i].app in apps;
    var k :| 0 <= k < |apps| && apps[k] == pipelines[i].app;
  }

  lemma {:induction false} EachIntervalIn(stages: seq<Stage>)
    ensures forall v :: v in IntervalsIn(stages) <==>
              exists k :: 0 <= k < |stages| && !stages[k].database && stages[k].interval == v
    decreases |stages|
  {
    if stages != [] {
      var pre, n := stages[..|stages| - 1], |stages| - 1;
      EachIntervalIn(pre);
      assert forall k :: 0 <= k < n ==> pre[k] == stages[k];
    }
  }

  /** A stage that is polled, in a pipeline. */
  predicate PolledAt(pipelines: seq<Pipeline>, i: nat, k: nat, v: nat)
  {
    i < |pipelines| && k < |pipelines[i].stages| && !pipelines[i].stages[k].database
        && pipelines[i].stages[k].interval == v
  }

  ghost predicate InUse(pipelines: seq<Pipeline>, v: nat)
  {
    exists i: nat, k: nat :: PolledAt(pipelines, i, k, v)
  }

  lemma {:induction false} EachInterval(pipelines: seq<Pipeline>)
    ensures forall v :: v in Intervals(pipelines) <==> InUse(pipelines, v)
    decreases |pipelines|
  {
    if pipelines != [] {
      var pre, n := pipelines[..|pipelines| - 1], |pipelines| - 1;
      EachInterval(pre);
      EachIntervalIn(pipelines[n].stages);
      forall v ensures v in Intervals(pipelines) <==> InUse(pipelines, v) {
        if v in IntervalsIn(pipelines[n].stages) {
          var k: nat :| k < |pipelines[n].stages| && !pipelines[n].stages[k].database
              && pipelines[n].stages[k].interval == v;
          assert PolledAt(pipelines, n, k, v);
        } else if v in Intervals(pre) {
          var i: nat, k: nat :| PolledAt(pre, i, k, v);
          assert PolledAt(pipelines, i, k, v);
        } else if InUse(pipelines, v) {
          var i: nat, k: nat :| PolledAt(pipelines, i, k, v);
          assert i < n ==> PolledAt(pre, i, k, v);
        }
      }
    }
  }

  /** The assertion on intervals holds exactly if some stage is polled and all polled stages agree: it also fails when
      every stage is a database stage. */
  lemma IntervalsExact(pipelines: seq<Pipeline>)
    ensures |Intervals(pipelines)| == 1 <==>
              exists v: nat :: InUse(pipelines, v) && forall w: nat :: InUse(pipelines, w) ==> w == v
  {
    hide Intervals, InUse;
    EachInterval(pipelines);
    var s := Intervals(pipelines);
    if |s| == 1 {
      var v :| v in s;
      assert |s - {v}| == 0;
      forall w | w in s ensures w == v { assert w != v ==> w in s - {v}; }
    }
    if exists v: nat :: InUse(pipelines, v) && forall w: nat :: InUse(pipelines, w) ==> w == v {
      var v: nat :| InUse(pipelines, v) && forall w: nat :: InUse(pipelines, w) ==> w == v;
      assert s == {v};
    }
  }

  ghost predicate AsAsked(pipelines: seq<Pipeline>, interval: nat)
  {
    forall v: nat :: InUse(pipelines, v) ==> v == interval
  }

  /** Merged threads are made with the default interval: where merging succeeds, every stage is polled as often as it
      asked exactly if the interval on which all agree is that one. */
  lemma MergedIntervalExact(pipelines: seq<Pipeline>)
    requires |Intervals(pipelines)| == 1
    ensures AsAsked(pipelines, DEFAULT_INTERVAL) <==> Intervals(pipelines) == {DEFAULT_INTERVAL}
  {
    hide Intervals, InUse;
    EachInterval(pipelines);
    var v :| v in Intervals(pipelines);
    if AsAsked(pipelines, DEFAULT_INTERVAL) {
      assert forall w :: w in Intervals(pipelines) ==> w == DEFAULT_INTERVAL;
      assert Intervals(pipelines) == {DEFAULT_INTERVAL};
    }
  }

  /** A stage that asked for another interval, alone: it is merged, and polled at the default one. */
  lemma IntervalIsLost(id: nat, interval: nat)
    requires interval != DEFAULT_INTERVAL
    ensures var ps := [Pipeline(0, [Stage(id, false, interval)])];
            |Intervals(ps)| == 1 && !AsAsked(ps, DEFAULT_INTERVAL)
  {
    var s := [Stage(id, false, interval)];
    var ps := [Pipeline(0, s)];
    assert s[..0] == [] && ps[..0] == [];
    assert IntervalsIn(s) == {interval} && Intervals(ps) == Intervals([]) + IntervalsIn(s) == {interval};
    MergedIntervalExact(ps);
  }

  /** A database stage alone: merging fails on the interval assertion. */
  lemma OnlyDatabaseFails(id: nat, interval: nat)
    ensures |Intervals([Pipeline(0, [Stage(id, true, interval)])])| == 0
  {
    var s := [Stage(id, true, interval)];
    var ps := [Pipeline(0, s)];
    assert s[..0] == [] && ps[..0] == [];
    assert IntervalsIn(s) == {} && Intervals(ps) == Intervals([]) + IntervalsIn(s);
  }

  /** An app with two pipelines: the stage of the first gets no thread. */
  lemma FirstPipelineUnserved(x: nat, y: nat, interval: nat)
    requires x != y
    ensures var ps := [Pipeline(0, [Stage(x, false, interval)]), Pipeline(0, [Stage(y, false, interval)])];
            Owners(ps, [0]) && StagesOnce(ps) && Deal(ps, [0]) == [y]
  {
    var a, b := [Stage(x, false, interval)], [Stage(y, false, interval)];
    assert a[1..] == [] && b[1..] == [] && Polling(a) == [x] && Polling(b) == [y];
    var ps := [Pipeline(0, a), Pipeline(0, b)];
    assert ps[0].app == 0 && [0][..0] == [];
    assert Deal(ps, []) == [] && PipelineOf(ps, 0) == b;
  }

  ghost predicate OnExactlyOne(threads: seq<seq<nat>>, x: nat)
  {
    exists t :: 0 <= t < |threads| && x in threads[t] && forall u :: 0 <= u < |threads| && x in threads[u] ==> u == t
  }

  ghost predicate OnNone(threads: seq<seq<nat>>, x: nat)
  {
    forall t :: 0 <= t < |threads| ==> x !in threads[t]
  }

  lemma DealtLands(threads: seq<seq<nat>>, q: seq<nat>, x: nat)
    requires |threads| > 0 && Dealt(threads, q) && Distinct(q)
    ensures if x in q then OnExactlyOne(threads, x) else OnNone(threads, x)
  {
    hide Hand, Turn, Distinct;
    if x in q {
      var j :| 0 <= j < |q| && q[j] == x;
      var width := |threads|;
      forall t | 0 <= t < width ensures x in threads[t] <==> t == Turn(j, width) { OneThreadEach(q, width, j, t); }
      assert x in threads[Turn(j, width)];
    } else {
      forall t | 0 <= t < |threads| ensures x !in threads[t] { HandHolds(q, |threads|, t, x); }
    }
  }

  /** What merging gives: no thread has more than one stage more than another or a stage twice; a polled stage is on
      exactly one thread if its pipeline is the last of its app and on none otherwise; and no two stages of one app
      share a thread. */
  lemma MergeCorrect(pipelines: seq<Pipeline>, apps: seq<nat>, threads: seq<seq<nat>>)
    requires Owners(pipelines, apps) && StagesOnce(pipelines) && |Intervals(pipelines)| == 1
    requires |threads| == MaxThreads(pipelines, apps) && Dealt(threads, Deal(pipelines, apps))
    ensures |threads| > 0
    ensures forall t, u :: 0 <= t < |threads| && 0 <= u < |threads| ==> |threads[t]| <= |threads[u]| + 1
    ensures forall t :: 0 <= t < |threads| ==> Distinct(threads[t])
    ensures forall i, x :: 0 <= i < |pipelines| && x in Polling(pipelines[i].stages) ==>
              if Replaced(pipelines, i) then OnNone(threads, x) else OnExactlyOne(threads, x)
    ensures forall a, j, k, t ::
              0 <= a < |apps| && 0 <= j < k < |Polling(PipelineOf(pipelines, apps[a]))| && 0 <= t < |threads| ==>
              var mine := Polling(PipelineOf(pipelines, apps[a])); !(mine[j] in threads[t] && mine[k] in threads[t])
  {
    hide Hand, Turn, Polling, PipelineOf, Deal, Intervals, MaxThreads, Distinct, Replaced, OwnStages, OnExactlyOne,
        OnNone;
    var q, width := Deal(pipelines, apps), |threads|;
    ThreadsNeeded(pipelines, apps);
    DealtOnce(pipelines, apps);
    forall t, u | 0 <= t < width && 0 <= u < width ensures |threads[t]| <= |threads[u]| + 1 {
      LoadsAreLevel(q, width, t, u);
    }
    forall t | 0 <= t < width ensures Distinct(threads[t]) { HandDistinct(q, width, t); }
    forall i, x | 0 <= i < |pipelines| && x in Polling(pipelines[i].stages)
      ensures if Replaced(pipelines, i) then OnNone(threads, x) else OnExactlyOne(threads, x)
    {
      ServedExactly(pipelines, apps, i, x);
      DealtLands(threads, q, x);
    }
    forall a, j, k, t | 0 <= a < |apps| && 0 <= j < k < |Polling(PipelineOf(pipelines, apps[a]))| && 0 <= t < width
      ensures var mine := Polling(PipelineOf(pipelines, apps[a])); !(mine[j] in threads[t] && mine[k] in threads[t])
    {
      AppIsSpread(pipelines, apps, a, j, k, t);
    }
  }

  // ----- the order within a thread -----

  function Keep(order: seq<nat>, mine: seq<nat>): seq<nat>
  {
    if order == [] then []
    else Keep(order[..|order| - 1], mine) + if Last(order) in mine then [Last(order)] else []
  }

  method EnsureRelativeOrder(mine: seq<nat>, order: seq<nat>) returns (ordered: seq<nat>)
    ensures ordered == Keep(order, mine)
  {
    ordered := [];
    var i := 0;
    while i < |order|
      invariant i <= |order| && ordered == Keep(order[..i], mine)
    {
      assert order[..i + 1][..i] == order[..i];
      if order[i] in mine { ordered := ordered + [order[i]]; }
      i := i + 1;
    }
    assert order[..|order|] == order;
  }

  ghost predicate Precedes(order: seq<nat>, x: nat, y: nat)
  {
    exists i, j :: 0 <= i < j < |order| && order[i] == x && order[j] == y
  }

  lemma {:induction false} KeepHolds(order: seq<nat>, mine: seq<nat>)
    ensures forall x :: x in Keep(order, mine) <==> x in order && x in mine
    ensures Distinct(order) ==> Distinct(Keep(order, mine))
    ensures forall a, b :: 0 <= a < b < |Keep(order, mine)| ==>
              Precedes(order, Keep(order, mine)[a], Keep(order, mine)[b])
    decreases |order|
  {
    if order != [] {
      var pre, kept, n := order[..|order| - 1], Keep(order, mine), |order| - 1;
      var before := Keep(pre, mine);
      KeepHolds(pre, mine);
      assert order == pre + [order[n]];
      forall a, b | 0 <= a < b < |kept| ensures Precedes(order, kept[a], kept[b]) {
        if b < |before| {
          assert Precedes(pre, before[a], before[b]);
          var i, j :| 0 <= i < j < |pre| && pre[i] == before[a] && pre[j] == before[b];
          assert order[i] == kept[a] && order[j] == kept[b];
        } else {
          assert before[a] in before;
          var i :| 0 <= i < |pre| && pre[i] == before[a];
          assert order[i] == kept[a] && order[n] == kept[b];
        }
      }
      if Distinct(order) {
        assert Distinct(pre);
        forall a | 0 <= a < |before| ensures before[a] != order[n] {
          assert before[a] in before;
          var i :| 0 <= i < |pre| && pre[i] == before[a];
          assert order[i] == before[a];
        }
      }
    }
  }

  /** Reordering keeps exactly the thread's stages, each once, in the order in which they were defined. */
  lemma ReorderIsPermutation(order: seq<nat>, mine: seq<nat>)
    requires Distinct(order) && forall x :: x in mine ==> x in order
    ensures var kept := Keep(order, mine);
            && Distinct(kept) && (forall x :: x in kept <==> x in mine)
            && forall a, b :: 0 <= a < b < |kept| ==> Precedes(order, kept[a], kept[b])
  {
    KeepHolds(order, mine);
  }

  // ----- how many threads there are -----

  /** No app has two pipelines. */
  ghost predicate OneEach(pipelines: seq<Pipeline>)
  {
    forall i, j :: 0 <= i < j < |pipelines| ==> pipelines[i].app != pipelines[j].app
  }

  /** The number of stages that are not database stages. */
  ghost function PolledCount(stages: seq<Stage>): nat
  {
    |set k: nat | k < |stages| && !stages[k].database|
  }

  lemma {:induction false} PollingCounts(stages: seq<Stage>)
    ensures |Polling(stages)| == PolledCount(stages)
    decreases |stages|
  {
    var all := set k: nat | k < |stages| && !stages[k].database;
    if stages == [] {
      assert all == {};
    } else {
      var pre, n := stages[..|stages| - 1], |stages| - 1;
      PollingCounts(pre);
      PollingOn(pre, stages[n]);
      assert stages == pre + [stages[n]];
      var before := set k: nat | k < |pre| && !pre[k].database;
      assert all == if stages[n].database then before else before + {n};
      assert n !in before;
    }
  }

  lemma {:induction false} NoThreads(pipelines: seq<Pipeline>, app: nat)
    requires forall i :: 0 <= i < |pipelines| ==> pipelines[i].app != app
    ensures ThreadsOf(pipelines, app) == 0
    decreases |pipelines|
  {
    hide Polling;
    if pipelines != [] { NoThreads(pipelines[..|pipelines| - 1], app); }
  }

  lemma {:induction false} ThreadsAre(pipelines: seq<Pipeline>, i: nat)
    requires OneEach(pipelines) && i < |pipelines|
    ensures ThreadsOf(pipelines, pipelines[i].app) == PolledCount(pipelines[i].stages)
    decreases |pipelines|
  {
    hide Polling, PolledCount;
    var pre, n := pipelines[..|pipelines| - 1], |pipelines| - 1;
    PollingCounts(pipelines[n].stages);
    if i < n { ThreadsAre(pre, i); } else { NoThreads(pre, pipelines[n].app); }
  }

  /** With one pipeline an app, there are as many threads as the pipeline with most polled stages has of them. */
  lemma WidthIsLargest(pipelines: seq<Pipeline>, apps: seq<nat>)
    requires Owners(pipelines, apps) && OneEach(pipelines) && MaxThreads(pipelines, apps) > 0
    ensures forall i :: 0 <= i < |pipelines| ==> PolledCount(pipelines[i].stages) <= MaxThreads(pipelines, apps)
    ensures exists i :: 0 <= i < |pipelines| && PolledCount(pipelines[i].stages) == MaxThreads(pipelines, apps)
  {
    hide Polling, PolledCount, ThreadsOf;
    forall i | 0 <= i < |pipelines| ensures PolledCount(pipelines[i].stages) <= MaxThreads(pipelines, apps) {
      ThreadsAre(pipelines, i);
      assert pipelines[i].app in apps;
      var k :| 0 <= k < |apps| && apps[k] == pipelines[i].app;
    }
    var k :| 0 <= k < |apps| && ThreadsOf(pipelines, apps[k]) == MaxThreads(pipelines, apps);
    assert apps[k] in apps;
    var i :| 0 <= i < |pipelines| && pipelines[i].app == apps[k];
    ThreadsAre(pipelines, i);
  }

  // ----- the whole merge -----

  function Ids(stages: seq<Stage>): (ids: seq<nat>)
    ensures |ids| == |stages|
  {
    if stages == [] then [] else [stages[0].id] + Ids(stages[1..])
  }

  /** All stages in the order of their definition. */
  function OrderOf(pipelines: seq<Pipeline>): seq<nat>
  {
    if pipelines == [] then [] else OrderOf(pipelines[..|pipelines| - 1]) + Ids(Last(pipelines).stages)
  }

  lemma {:induction false} PolledIds(stages: seq<Stage>)
    ensures forall x :: x in Polling(stages) ==> x in Ids(stages)
    ensures Distinct(Ids(stages)) ==> Distinct(Polling(stages))
  {
    if stages != [] {
      PolledIds(stages[1..]);
      if Distinct(Ids(stages)) {
        var id, rest := stages[0].id, Polling(stages[1..]);
        DistinctParts([id], Ids(stages[1..]));
        assert id in [id];
        forall k | 0 <= k < |rest| ensures rest[k] != id {
          assert rest[k] in Ids(stages[1..]);
        }
      }
    }
  }

  lemma DistinctParts(a: seq<nat>, b: seq<nat>)
    requires Distinct(a + b)
    ensures Distinct(a) && Distinct(b) && forall x :: x in a ==> x !in b
  {
    var c := a + b;
    assert forall i :: 0 <= i < |a| ==> c[i] == a[i];
    assert forall i :: 0 <= i < |b| ==> c[|a| + i] == b[i];
  }

  lemma {:induction false} OrderHas(pipelines: seq<Pipeline>, i: nat, x: nat)
    requires i < |pipelines| && x in Ids(pipelines[i].stages)
    ensures x in OrderOf(pipelines)
    decreases |pipelines|
  {
    hide Ids;
    if i < |pipelines| - 1 { OrderHas(pipelines[..|pipelines| - 1], i, x); }
  }

  /** Different stages everywhere: no pipeline shares one or has one twice. */
  lemma {:induction false} StagesApart(pipelines: seq<Pipeline>)
    requires Distinct(OrderOf(pipelines))
    ensures StagesOnce(pipelines)
    decreases |pipelines|
  {
    if pipelines != [] {
      hide Ids, Polling, Distinct;
      var pre, n := pipelines[..|pipelines| - 1], |pipelines| - 1;
      DistinctParts(OrderOf(pre), Ids(pipelines[n].stages));
      StagesApart(pre);
      PolledIds(pipelines[n].stages);
      forall i, x | 0 <= i < n && x in Polling(pipelines[i].stages) ensures x !in Polling(pipelines[n].stages) {
        PolledIds(pre[i].stages);
        OrderHas(pre, i, x);
      }
    }
  }

  lemma {:induction false} DealtIsDefined(pipelines: seq<Pipeline>, apps: seq<nat>, x: nat)
    requires x in Deal(pipelines, apps)
    ensures x in OrderOf(pipelines)
  {
    hide Ids, Polling, PipelineOf;
    var a := DealtFrom(pipelines, apps, x);
    SomePipeline(pipelines, apps[a]);
    NothingPolled();
    var j :| 0 <= j < |pipelines| && PipelineOf(pipelines, apps[a]) == pipelines[j].stages;
    PolledIds(pipelines[j].stages);
    OrderHas(pipelines, j, x);
  }

  /** A thread's stages in the order of their definition. */
  ghost predicate Sorted(order: seq<nat>, thread: seq<nat>, dealt: seq<nat>)
  {
    && Distinct(thread) && (forall x :: x in thread <==> x in dealt)
    && forall a, b :: 0 <= a < b < |thread| ==> Precedes(order, thread[a], thread[b])
  }

  /** performMerge for all apps: what MergeCorrect says of the dealt threads, with every thread sorted. The assertion
      that no stage is on two threads holds by MergeCorrect. */
  method PerformMerge(pipelines: seq<Pipeline>, apps: seq<nat>, order: seq<nat>) returns (merged: Option<seq<Thread>>)
    requires Owners(pipelines, apps) && order == OrderOf(pipelines) && Distinct(order)
    ensures merged.Some? <==> |Intervals(pipelines)| == 1
    ensures merged.Some? ==> |merged.value| == MaxThreads(pipelines, apps) > 0
    ensures merged.Some? && OneEach(pipelines) ==>
              && (forall i :: 0 <= i < |pipelines| ==> PolledCount(pipelines[i].stages) <= |merged.value|)
              && exists i :: 0 <= i < |pipelines| && PolledCount(pipelines[i].stages) == |merged.value|
    ensures merged.Some? ==> forall t :: 0 <= t < |merged.value| ==>
              && merged.value[t].interval == DEFAULT_INTERVAL
              && Sorted(order, merged.value[t].stages, Hand(Deal(pipelines, apps), |merged.value|, t))
  {
    hide Distinct, Deal, Hand, OrderOf, MaxThreads, Intervals, Precedes;
    var created := CreateThreadsAndMergeAll(pipelines, apps);
    if created.None? { return None; }
    var dealt := created.value;
    ghost var q := Deal(pipelines, apps);
    StagesApart(pipelines);
    MergeCorrect(pipelines, apps, dealt);
    if OneEach(pipelines) { WidthIsLargest(pipelines, apps); }
    var threads: seq<Thread> := [];
    for t := 0 to |dealt|
      invariant |threads| == t
      invariant forall u :: 0 <= u < t ==>
                  threads[u].interval == DEFAULT_INTERVAL && Sorted(order, threads[u].stages, dealt[u])
    {
      var sorted := EnsureRelativeOrder(dealt[t], order);
      forall x | x in dealt[t] ensures x in order {
        HandHolds(q, |dealt|, t, x);
        DealtIsDefined(pipelines, apps, x);
      }
      ReorderIsPermutation(order, dealt[t]);
      threads := threads + [Thread(DEFAULT_INTERVAL, sorted)];
    }
    merged := Some(threads);
  }
}
