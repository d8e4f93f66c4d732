/** How much is left to do in a pipeline: what makes every drain end. */
module Loads {
  import opened Bytes
  import opened PipelineFlow

  /** Items in the places before the n-th. */
  function Ahead(counts: seq<nat>, n: nat): nat
    requires n <= |counts|
  {
    if n == 0 then 0 else Ahead(counts, n - 1) + counts[n - 1]
  }

  /** Every item counted once for each place that it still has to leave. */
  function Weight(counts: seq<nat>, n: nat): nat
    requires n <= |counts|
  {
    if n == 0 then 0 else Weight(counts, n - 1) + Ahead(counts, n)
  }

  /** One item goes from place i to the next, or is dropped. */
  function Moved(counts: seq<nat>, i: nat, kept: bool): seq<nat>
    requires i + 1 < |counts| && counts[i] > 0
  {
    counts[i := counts[i] - 1][i + 1 := counts[i + 1] + if kept then 1 else 0]
  }

  lemma {:induction false} AheadMoves(counts: seq<nat>, i: nat, kept: bool, n: nat)
    requires i + 1 < |counts| && counts[i] > 0 && n <= |counts|
    ensures Ahead(Moved(counts, i, kept), n) == Ahead(counts, n) - if n == i + 1 || (n > i && !kept) then 1 else 0
  {
    if n > 0 { AheadMoves(counts, i, kept, n - 1); }
  }

  /** Moving an item takes at least one off the weight. */
  lemma {:induction false} WeightMoves(counts: seq<nat>, i: nat, kept: bool, n: nat)
    requires i + 1 < |counts| && counts[i] > 0 && n <= |counts|
    ensures Weight(Moved(counts, i, kept), n) <= Weight(counts, n) - if n > i then 1 else 0
  {
    if n > 0 {
      WeightMoves(counts, i, kept, n - 1);
      AheadMoves(counts, i, kept, n);
    }
  }

  lemma {:induction false} AheadOneLess(counts: seq<nat>, i: nat, n: nat)
    requires i < |counts| && counts[i] > 0 && n <= |counts|
    ensures Ahead(counts[i := counts[i] - 1], n) == Ahead(counts, n) - if i < n then 1 else 0
  {
    if n > 0 { AheadOneLess(counts, i, n - 1); }
  }

  lemma {:induction false} AheadMore(counts: seq<nat>, i: nat, more: nat, n: nat)
    requires i < |counts| && n <= |counts|
    ensures Ahead(counts[i := counts[i] + more], n) == Ahead(counts, n) + if i < n then more else 0
  {
    if n > 0 { AheadMore(counts, i, more, n - 1); }
  }

  /** What is queued in front of each stage and, last, in the table. */
  function Queued<T>(queues: seq<seq<T>>): (counts: seq<nat>)
    ensures |counts| == |queues| && forall k :: 0 <= k < |counts| ==> counts[k] == |queues[k]|
  {
    seq(|queues|, k requires 0 <= k < |queues| => |queues[k]|)
  }

  /** The same with what each stage has taken and not yet passed on. */
  function AtStage<T>(queues: seq<seq<T>>, held: seq<nat>): (counts: seq<nat>)
    requires |queues| == |held| + 1
    ensures |counts| == |queues|
    ensures forall k :: 0 <= k < |counts| ==> counts[k] == |queues[k]| + if k < |held| then held[k] else 0
  {
    seq(|queues|, k requires 0 <= k < |queues| => |queues[k]| + if k < |held| then held[k] else 0)
  }

  /** Passing an item on counts for two, and taking it for one. */
  function Load<T>(queues: seq<seq<T>>, held: seq<nat>): nat
    requires |queues| == |held| + 1
  {
    2 * Weight(AtStage(queues, held), |held|) + Ahead(Queued(queues), |held|)
  }

  lemma TakeLightens<T>(queues: seq<seq<T>>, held: seq<nat>, i: nat)
    requires |queues| == |held| + 1 && i < |held| && queues[i] != []
    ensures Load(queues[i := queues[i][1..]], held[i := held[i] + 1]) < Load(queues, held)
  {
    var rest := queues[i := queues[i][1..]];
    AheadOneLess(Queued(queues), i, |held|);
    assert Queued(rest) == Queued(queues)[i := Queued(queues)[i] - 1];
    assert AtStage(rest, held[i := held[i] + 1]) == AtStage(queues, held);
  }

  lemma GiveLightens<T>(queues: seq<seq<T>>, held: seq<nat>, i: nat, out: Option<T>)
    requires |queues| == |held| + 1 && i < |held| && held[i] > 0
    ensures Load(queues[i + 1 := queues[i + 1] + Held(out)], held[i := held[i] - 1]) < Load(queues, held)
  {
    hide Ahead, Weight;
    var after, more := queues[i + 1 := queues[i + 1] + Held(out)], if out.Some? then 1 else 0;
    WeightMoves(AtStage(queues, held), i, out.Some?, |held|);
    assert AtStage(after, held[i := held[i] - 1]) == Moved(AtStage(queues, held), i, out.Some?);
    AheadMore(Queued(queues), i + 1, more, |held|);
    assert Queued(after) == Queued(queues)[i + 1 := Queued(queues)[i + 1] + more];
  }

  /** Number of items in each hand. */
  function InHand<T>(hands: seq<Option<T>>): (held: seq<nat>)
    ensures |held| == |hands| && forall i :: 0 <= i < |held| ==> held[i] == |Held(hands[i])|
  {
    seq(|hands|, i requires 0 <= i < |hands| => |Held(hands[i])|)
  }

  lemma OneHand<T>(hands: seq<Option<T>>, i: nat, h: Option<T>)
    requires i < |hands|
    ensures InHand(hands[i := h]) == InHand(hands)[i := |Held(h)|]
  {
  }

  /** Steps of the stages only. */
  ghost predicate NothingNew<T>(steps: seq<Step<T>>)
  {
    forall i :: 0 <= i < |steps| ==> !steps[i].Produce?
  }

  ghost predicate AllThrough<T>(f: Flow<T>, n: nat)
    requires |f.queues| == |f.hands| + 1 && n == |f.hands|
  {
    forall k :: 0 <= k < n ==> f.queues[k] == [] && f.hands[k].None?
  }

  lemma StepsOn<T>(stages: seq<T -> Option<T>>, steps: seq<Step<T>>, s: Step<T>)
    ensures Run(stages, steps + [s]) == Next(stages, Run(stages, steps), s)
  {
    assert (steps + [s])[..|steps|] == steps;
  }

  /** A step that some stage can take, as long as anything is on its way, and less to do after it. */
  lemma SomeStep<T>(stages: seq<T -> Option<T>>, f: Flow<T>) returns (s: Step<T>)
    requires Shaped(stages, f) && !AllThrough(f, |stages|)
    ensures !s.Produce? && Load(Next(stages, f, s).queues, InHand(Next(stages, f, s).hands))
                           < Load(f.queues, InHand(f.hands))
  {
    hide Load;
    var k :| 0 <= k < |stages| && (f.queues[k] != [] || f.hands[k].Some?);
    if f.hands[k].Some? {
      s := Push(k);
      OneHand(f.hands, k, None);
      GiveLightens(f.queues, InHand(f.hands), k, stages[k](f.hands[k].value));
    } else {
      s := Pop(k);
      OneHand(f.hands, k, Some(f.queues[k][0]));
      TakeLightens(f.queues, InHand(f.hands), k);
    }
  }

  /** From wherever any interleaving has led, the stages can bring everything through: then the table holds all that was
      produced, sent through the stages, in order. */
  lemma {:induction false} Drains<T>(stages: seq<T -> Option<T>>, steps: seq<Step<T>>) returns (more: seq<Step<T>>)
    ensures NothingNew(more)
    ensures var f := Run(stages, steps + more);
            AllThrough(f, |stages|) && Rows(f) == MapThrough(stages, 0, Produced(steps))
    decreases Load(Run(stages, steps).queues, InHand(Run(stages, steps).hands))
  {
    hide Load, Run, MapThrough;
    var f := Run(stages, steps);
    if AllThrough(f, |stages|) {
      more := [];
      assert steps + more == steps;
      EmptyTotal(stages, f, 0);
      Conservation(stages, steps);
    } else {
      var s := SomeStep(stages, f);
      StepsOn(stages, steps, s);
      var rest := Drains(stages, steps + [s]);
      more := [s] + rest;
      assert steps + more == steps + [s] + rest;
      assert Produced(steps + [s]) == Produced(steps) by { assert (steps + [s])[..|steps|] == steps; }
    }
  }
}
