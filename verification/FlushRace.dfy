/** Flusher.flush beside polling threads: its own steps and theirs in any interleaving, and exactly when the rows are
    complete and in order on its return. */
module FlushRace {
  import opened Bytes
  import opened PipelineFlow
  import Loads

  /** flow.hands are those of the polling threads; own is what the flusher has taken at stage order[at]. */
  datatype Race<T> = Race(flow: Flow<T>, own: Option<T>, at: nat, worked: bool, done: bool)

  /** A step of the flusher, or of the polling thread of a stage. */
  datatype Move = Flusher | Takes(stage: nat) | Gives(stage: nat)

  ghost predicate Proper<T>(stages: seq<T -> Option<T>>, order: seq<nat>, r: Race<T>)
  {
    && Shaped(stages, r.flow) && (forall k :: 0 <= k < |order| ==> order[k] < |stages|)
    && r.at <= |order| && (r.own.Some? ==> r.at < |order| && !r.done)
    && (r.done ==> r.at == |order| && !r.worked)
  }

  /** do { for all stages processAll } while something was done, one atomic step at a time. */
  function FlusherStep<T>(stages: seq<T -> Option<T>>, order: seq<nat>, r: Race<T>): (r': Race<T>)
    requires Proper(stages, order, r)
    ensures Proper(stages, order, r') && r'.flow.hands == r.flow.hands
  {
    var f := r.flow;
    if r.done then r
    else if r.own.Some? then
      var i := order[r.at];
      r.(flow := f.(queues := f.queues[i + 1 := f.queues[i + 1] + Held(stages[i](r.own.value))]), own := None,
          worked := true)
    else if r.at == |order| then
      if r.worked then r.(at := 0, worked := false) else r.(done := true)
    else
      var i := order[r.at];
      if f.queues[i] == [] then r.(at := r.at + 1)
      else r.(flow := f.(queues := f.queues[i := f.queues[i][1..]]), own := Some(f.queues[i][0]))
  }

  function Apply<T>(stages: seq<T -> Option<T>>, order: seq<nat>, r: Race<T>, m: Move): (r': Race<T>)
    requires Proper(stages, order, r)
    ensures Proper(stages, order, r')
  {
    match m
    case Flusher => FlusherStep(stages, order, r)
    case Takes(i) => r.(flow := Next(stages, r.flow, Pop(i)))
    case Gives(i) => r.(flow := Next(stages, r.flow, Push(i)))
  }

  function After<T>(stages: seq<T -> Option<T>>, order: seq<nat>, r: Race<T>, moves: seq<Move>): (r': Race<T>)
    requires Proper(stages, order, r)
    ensures Proper(stages, order, r')
    decreases |moves|
  {
    if moves == [] then r else After(stages, order, Apply(stages, order, r, moves[0]), moves[1..])
  }

  function Begin<T>(f: Flow<T>): Race<T>
  {
    Race(f, None, 0, false, false)
  }

  /** The flow with the flusher's hand in place of the polling threads'. */
  function OwnFlow<T>(order: seq<nat>, r: Race<T>): Flow<T>
    requires r.own.Some? ==> r.at < |order|
  {
    Flow(r.flow.queues, seq(|r.flow.hands|, i => if r.own.Some? && order[r.at] == i then r.own else None))
  }

  // ----- what is on its way -----

  /** The rows that the items in the hands become. */
  function HeldRows<T>(stages: seq<T -> Option<T>>, hands: seq<Option<T>>, n: nat): seq<T>
    requires |hands| == |stages| && n <= |stages|
    decreases |stages| - n
  {
    if n == |stages| then [] else HeldRows(stages, hands, n + 1) + MapThrough(stages, n, Held(hands[n]))
  }

  /** Nothing in the hands from stage n on becomes a row. */
  ghost predicate IdleFrom<T>(stages: seq<T -> Option<T>>, hands: seq<Option<T>>, n: nat)
    requires |hands| == |stages|
  {
    forall i :: n <= i < |stages| ==> MapThrough(stages, i, Held(hands[i])) == []
  }

  ghost predicate IdleHands<T>(stages: seq<T -> Option<T>>, hands: seq<Option<T>>)
    requires |hands| == |stages|
  {
    IdleFrom(stages, hands, 0)
  }

  ghost predicate IdleQueues<T>(stages: seq<T -> Option<T>>, queues: seq<seq<T>>)
    requires |queues| == |stages| + 1
  {
    forall i :: 0 <= i < |stages| ==> MapThrough(stages, i, queues[i]) == []
  }

  lemma {:induction false} HeldRowsEmpty<T>(stages: seq<T -> Option<T>>, hands: seq<Option<T>>, n: nat)
    requires |hands| == |stages| && n <= |stages|
    ensures HeldRows(stages, hands, n) == [] <==> IdleFrom(stages, hands, n)
    decreases |stages| - n
  {
    hide MapThrough, Held;
    if n < |stages| {
      HeldRowsEmpty(stages, hands, n + 1);
      assert IdleFrom(stages, hands, n) <==>
             MapThrough(stages, n, Held(hands[n])) == [] && IdleFrom(stages, hands, n + 1);
    }
  }

  /** The hands' rows are what the total has more than without them. */
  lemma {:induction false} HandsAdd<T>(stages: seq<T -> Option<T>>, f: Flow<T>, g: Flow<T>, n: nat)
    requires Shaped(stages, f) && Shaped(stages, g) && n <= |stages|
    requires f.queues == g.queues && forall i :: 0 <= i < |stages| ==> g.hands[i].None?
    ensures |From(stages, f, n)| == |From(stages, g, n)| + |HeldRows(stages, f.hands, n)|
    ensures HeldRows(stages, f.hands, n) == [] ==> From(stages, f, n) == From(stages, g, n)
    decreases |stages| - n
  {
    hide MapThrough;
    if n < |stages| {
      HandsAdd(stages, f, g, n + 1);
      MapNone(stages, n);
      assert Held(g.hands[n]) == [];
    }
  }

  /** With nothing on its way that becomes a row, the total is the table; and only then. */
  lemma {:induction false} IdleTotal<T>(stages: seq<T -> Option<T>>, f: Flow<T>, n: nat)
    requires Shaped(stages, f) && n <= |stages|
    ensures |From(stages, f, n)| >= |Rows(f)|
    ensures |From(stages, f, n)| == |Rows(f)| <==>
              forall i :: n <= i < |stages| ==>
                  MapThrough(stages, i, Held(f.hands[i])) == [] == MapThrough(stages, i, f.queues[i])
    ensures |From(stages, f, n)| == |Rows(f)| ==> From(stages, f, n) == Rows(f)
    decreases |stages| - n
  {
    hide MapThrough;
    if n < |stages| { IdleTotal(stages, f, n + 1); }
  }

  // ----- what the flusher keeps -----

  /** The stages checked in a pass without work so far have nothing queued that becomes a row. */
  ghost predicate Checked<T>(stages: seq<T -> Option<T>>, order: seq<nat>, r: Race<T>)
    requires Proper(stages, order, r)
  {
    !r.worked && r.own.None? ==> forall k :: 0 <= k < r.at ==>
        MapThrough(stages, order[k], r.flow.queues[order[k]]) == []
  }

  /** Its own steps keep what is on its way, the hands of the others apart. */
  lemma FlusherKeeps<T>(stages: seq<T -> Option<T>>, order: seq<nat>, r: Race<T>)
    requires Proper(stages, order, r)
    ensures Total(stages, OwnFlow(order, FlusherStep(stages, order, r))) == Total(stages, OwnFlow(order, r))
  {
    hide Total, MapThrough;
    var f, g := OwnFlow(order, r), OwnFlow(order, FlusherStep(stages, order, r));
    if !r.done && r.at < |order| {
      var i := order[r.at];
      if r.own.Some? {
        PushKeeps(stages, f, i);
        assert g == Next(stages, f, Push(i));
      } else if r.flow.queues[i] != [] {
        PopKeeps(stages, f, i);
        assert g == Next(stages, f, Pop(i));
      } else {
        assert g == f;
      }
    } else {
      assert g == f;
    }
  }

  lemma FlusherChecks<T>(stages: seq<T -> Option<T>>, order: seq<nat>, r: Race<T>)
    requires Proper(stages, order, r) && Checked(stages, order, r)
    ensures Checked(stages, order, FlusherStep(stages, order, r))
  {
    hide MapThrough;
    if !r.done && r.own.None? && r.at < |order| { MapNone(stages, order[r.at]); }
  }

  lemma GiveTotal<T>(stages: seq<T -> Option<T>>, order: seq<nat>, r: Race<T>, i: nat)
    requires Proper(stages, order, r) && i < |stages| && r.flow.hands[i].Some?
    requires MapThrough(stages, i, Held(r.flow.hands[i])) == []
    ensures Total(stages, OwnFlow(order, Apply(stages, order, r, Gives(i)))) == Total(stages, OwnFlow(order, r))
  {
    hide MapThrough, From;
    var v := r.flow.hands[i].value;
    var f, out := OwnFlow(order, r), Held(stages[i](v));
    PassedOn(stages, i, v);
    Received(stages, f, i + 1, out);
    var g := OwnFlow(order, Apply(stages, order, r, Gives(i)));
    assert g == f.(queues := f.queues[i + 1 := f.queues[i + 1] + out]);
    SameBelow(stages, f, g, 0, i + 1);
  }

  lemma GiveChecked<T>(stages: seq<T -> Option<T>>, order: seq<nat>, r: Race<T>, i: nat)
    requires Proper(stages, order, r) && i < |stages| && r.flow.hands[i].Some? && Checked(stages, order, r)
    requires MapThrough(stages, i, Held(r.flow.hands[i])) == []
    ensures Checked(stages, order, Apply(stages, order, r, Gives(i)))
  {
    hide MapThrough;
    var v := r.flow.hands[i].value;
    var out := Held(stages[i](v));
    PassedOn(stages, i, v);
    if i + 1 < |stages| { MapConcat(stages, i + 1, r.flow.queues[i + 1], out); }
  }

  /** So does a polling thread that gives on an item which becomes no row. */
  lemma GiveKeeps<T>(stages: seq<T -> Option<T>>, order: seq<nat>, r: Race<T>, i: nat)
    requires Proper(stages, order, r) && IdleHands(stages, r.flow.hands) && Checked(stages, order, r)
    ensures var r' := Apply(stages, order, r, Gives(i));
            && IdleHands(stages, r'.flow.hands) && Checked(stages, order, r')
            && Total(stages, OwnFlow(order, r')) == Total(stages, OwnFlow(order, r))
  {
    hide MapThrough, Total, OwnFlow, Checked;
    if i < |stages| && r.flow.hands[i].Some? {
      GiveTotal(stages, order, r, i);
      GiveChecked(stages, order, r, i);
      MapNone(stages, i);
    } else {
      assert Apply(stages, order, r, Gives(i)) == r;
    }
  }

  // ----- the flusher gets through -----

  /** What the flusher holds counts at its stage, beside what the polling thread holds. */
  function AllHeld<T>(order: seq<nat>, r: Race<T>): (held: seq<nat>)
    requires r.own.Some? ==> r.at < |order|
    ensures |held| == |r.flow.hands|
    ensures forall i :: 0 <= i < |held| ==>
                          held[i] == |Held(r.flow.hands[i])| + if r.own.Some? && order[r.at] == i then 1 else 0
  {
    seq(|r.flow.hands|, i requires 0 <= i < |r.flow.hands| =>
                          |Held(r.flow.hands[i])| + if r.own.Some? && order[r.at] == i then 1 else 0)
  }

  function Left<T>(stages: seq<T -> Option<T>>, order: seq<nat>, r: Race<T>): nat
    requires Proper(stages, order, r)
  {
    Loads.Load(r.flow.queues, AllHeld(order, r))
  }

  /** Stages to go in the pass, and one for the end. */
  function ToGo<T>(stages: seq<T -> Option<T>>, order: seq<nat>, r: Race<T>): nat
    requires Proper(stages, order, r)
  {
    if r.done then 0 else |order| - r.at + 1
  }

  /** A step of the flusher leaves less work, or the same after a pass that did some, or is one on in a pass. */
  ghost predicate Nearer<T>(stages: seq<T -> Option<T>>, order: seq<nat>, r': Race<T>, r: Race<T>)
    requires Proper(stages, order, r) && Proper(stages, order, r')
  {
    || Left(stages, order, r') < Left(stages, order, r)
    || (Left(stages, order, r') == Left(stages, order, r) && r.worked && !r'.worked)
    || (Left(stages, order, r') == Left(stages, order, r) && r.worked == r'.worked
        && ToGo(stages, order, r') < ToGo(stages, order, r))
  }

  lemma TakeCosts<T>(stages: seq<T -> Option<T>>, order: seq<nat>, r: Race<T>, r': Race<T>, i: nat)
    requires Proper(stages, order, r) && Proper(stages, order, r') && i < |stages| && r.flow.queues[i] != []
    requires r'.flow.queues == r.flow.queues[i := r.flow.queues[i][1..]]
    requires AllHeld(order, r') == AllHeld(order, r)[i := AllHeld(order, r)[i] + 1]
    ensures Left(stages, order, r') < Left(stages, order, r)
  {
    hide AllHeld, Loads.Load;
    Loads.TakeLightens(r.flow.queues, AllHeld(order, r), i);
  }

  lemma GiveCosts<T>(stages: seq<T -> Option<T>>, order: seq<nat>, r: Race<T>, r': Race<T>, i: nat, out: Option<T>)
    requires Proper(stages, order, r) && Proper(stages, order, r') && i < |stages| && AllHeld(order, r)[i] > 0
    requires r'.flow.queues == r.flow.queues[i + 1 := r.flow.queues[i + 1] + Held(out)]
    requires AllHeld(order, r') == AllHeld(order, r)[i := AllHeld(order, r)[i] - 1]
    ensures Left(stages, order, r') < Left(stages, order, r)
  {
    hide AllHeld, Loads.Load;
    Loads.GiveLightens(r.flow.queues, AllHeld(order, r), i, out);
  }

  lemma PollCosts<T>(stages: seq<T -> Option<T>>, order: seq<nat>, r: Race<T>, m: Move)
    requires Proper(stages, order, r) && !m.Flusher? && Apply(stages, order, r, m).flow.hands != r.flow.hands
    ensures Left(stages, order, Apply(stages, order, r, m)) < Left(stages, order, r)
  {
    hide Loads.Load, Left, FlusherStep;
    var r' := Apply(stages, order, r, m);
    match m {
      case Takes(i) => TakeCosts(stages, order, r, r', i);
      case Gives(i) => GiveCosts(stages, order, r, r', i, stages[i](r.flow.hands[i].value));
    }
  }

  lemma FlusherCosts<T>(stages: seq<T -> Option<T>>, order: seq<nat>, r: Race<T>)
    requires Proper(stages, order, r) && !r.done && r.at < |order|
    requires r.own.Some? || r.flow.queues[order[r.at]] != []
    ensures Left(stages, order, FlusherStep(stages, order, r)) < Left(stages, order, r)
  {
    hide Loads.Load, Left;
    var r', i := FlusherStep(stages, order, r), order[r.at];
    if r.own.Some? {
      GiveCosts(stages, order, r, r', i, stages[i](r.own.value));
    } else {
      TakeCosts(stages, order, r, r', i);
    }
  }

  lemma SameLoad<T>(stages: seq<T -> Option<T>>, order: seq<nat>, r: Race<T>)
    requires Proper(stages, order, r) && FlusherStep(stages, order, r).flow == r.flow && r.own.None?
    requires FlusherStep(stages, order, r).own.None?
    ensures Left(stages, order, FlusherStep(stages, order, r)) == Left(stages, order, r)
  {
    assert AllHeld(order, FlusherStep(stages, order, r)) == AllHeld(order, r);
  }

  /** In every interleaving the flusher ends: each of its steps brings it nearer, and those of the polling threads never
      add work. */
  lemma FlushProgresses<T>(stages: seq<T -> Option<T>>, order: seq<nat>, r: Race<T>, m: Move)
    requires Proper(stages, order, r)
    ensures var r' := Apply(stages, order, r, m);
            && Left(stages, order, r') <= Left(stages, order, r)
            && (m.Flusher? && !r.done ==> Nearer(stages, order, r', r))
            && (!m.Flusher? ==> r'.worked == r.worked && ToGo(stages, order, r') == ToGo(stages, order, r))
  {
    hide Left;
    if !m.Flusher? {
      if Apply(stages, order, r, m).flow.hands != r.flow.hands {
        PollCosts(stages, order, r, m);
      } else {
        assert Apply(stages, order, r, m) == r;
      }
    } else if !r.done && r.at < |order| && (r.own.Some? || r.flow.queues[order[r.at]] != []) {
      FlusherCosts(stages, order, r);
    } else {
      SameLoad(stages, order, r);
    }
  }

  /** Left alone, it is done after some steps. */
  lemma {:induction false} FlusherFinishes<T>(stages: seq<T -> Option<T>>, order: seq<nat>, r: Race<T>)
      returns (moves: seq<Move>)
    requires Proper(stages, order, r)
    ensures After(stages, order, r, moves).done && forall k :: 0 <= k < |moves| ==> moves[k].Flusher?
    decreases Left(stages, order, r), r.worked, ToGo(stages, order, r)
  {
    if r.done {
      moves := [];
    } else {
      hide Left, ToGo;
      FlushProgresses(stages, order, r, Flusher);
      var rest := FlusherFinishes(stages, order, FlusherStep(stages, order, r));
      moves := [Flusher] + rest;
      assert moves[1..] == rest;
    }
  }

  /** So many steps of its own bring the flusher to its end in every interleaving. */
  function Budget<T>(stages: seq<T -> Option<T>>, order: seq<nat>, r: Race<T>): nat
    requires Proper(stages, order, r)
  {
    Times(2 * Left(stages, order, r) + if r.worked then 1 else 0, |order| + 2) + ToGo(stages, order, r)
  }

  function Times(n: nat, k: nat): nat
  {
    if n == 0 then 0 else Times(n - 1, k) + k
  }

  lemma {:induction false} TimesMore(a: nat, b: nat, k: nat)
    requires a < b
    ensures Times(a, k) + k <= Times(b, k)
  {
    if a < b - 1 { TimesMore(a, b - 1, k); }
  }

  /** Each step of the flusher costs some of it, and no step of a polling thread adds any. */
  lemma BudgetShrinks<T>(stages: seq<T -> Option<T>>, order: seq<nat>, r: Race<T>, m: Move)
    requires Proper(stages, order, r)
    ensures var r' := Apply(stages, order, r, m);
            && (m.Flusher? && !r.done ==> Budget(stages, order, r') < Budget(stages, order, r))
            && (!m.Flusher? ==> Budget(stages, order, r') <= Budget(stages, order, r) && r'.done == r.done)
  {
    hide Left;
    FlushProgresses(stages, order, r, m);
    var r' := Apply(stages, order, r, m);
    var a := 2 * Left(stages, order, r') + if r'.worked then 1 else 0;
    var b := 2 * Left(stages, order, r) + if r.worked then 1 else 0;
    if a < b { TimesMore(a, b, |order| + 2); }
  }

  function FlusherMoves(moves: seq<Move>): nat
  {
    if moves == [] then 0 else (if moves[0].Flusher? then 1 else 0) + FlusherMoves(moves[1..])
  }

  /** Every move of the flusher counts, wherever it stands, and no other. */
  lemma {:induction false} FlusherMovesCount(a: seq<Move>, m: Move, b: seq<Move>)
    ensures FlusherMoves(a + [m] + b) == FlusherMoves(a) + FlusherMoves(b) + if m.Flusher? then 1 else 0
  {
    if a == [] {
      assert ([m] + b)[1..] == b && [] + [m] + b == [m] + b;
    } else {
      assert (a + [m] + b)[1..] == a[1..] + [m] + b;
      FlusherMovesCount(a[1..], m, b);
    }
  }

  /** Whatever the polling threads do in between, the flusher is done after so many steps of its own. */
  lemma {:induction false} FlushEnds<T>(stages: seq<T -> Option<T>>, order: seq<nat>, r: Race<T>, moves: seq<Move>)
    requires Proper(stages, order, r) && (r.done || FlusherMoves(moves) >= Budget(stages, order, r))
    ensures After(stages, order, r, moves).done
    decreases |moves|
  {
    hide Budget, FlusherStep;
    if moves != [] {
      BudgetShrinks(stages, order, r, moves[0]);
      DoneStays(stages, order, r, moves[0]);
      FlushEnds(stages, order, Apply(stages, order, r, moves[0]), moves[1..]);
    } else if !r.done {
      SomeBudget(stages, order, r);
    }
  }

  lemma DoneStays<T>(stages: seq<T -> Option<T>>, order: seq<nat>, r: Race<T>, m: Move)
    requires Proper(stages, order, r)
    ensures r.done ==> Apply(stages, order, r, m).done
  {
  }

  lemma SomeBudget<T>(stages: seq<T -> Option<T>>, order: seq<nat>, r: Race<T>)
    requires Proper(stages, order, r) && !r.done
    ensures Budget(stages, order, r) > 0
  {
    hide Left, Times;
  }

  // ----- when the rows are right -----

  ghost predicate Alone(moves: seq<Move>)
  {
    forall k :: 0 <= k < |moves| ==> moves[k].Flusher?
  }

  /** No polling thread takes another item. */
  ghost predicate NoTakes(moves: seq<Move>)
  {
    forall k :: 0 <= k < |moves| ==> !moves[k].Takes?
  }

  lemma {:induction false} AfterConcat<T>(stages: seq<T -> Option<T>>, order: seq<nat>, r: Race<T>, a: seq<Move>,
      b: seq<Move>)
    requires Proper(stages, order, r)
    ensures After(stages, order, r, a + b) == After(stages, order, After(stages, order, r, a), b)
    decreases |a|
  {
    if a == [] {
      assert a + b == b;
    } else {
      assert (a + b)[0] == a[0] && (a + b)[1..] == a[1..] + b;
      AfterConcat(stages, order, Apply(stages, order, r, a[0]), a[1..], b);
    }
  }

  lemma {:induction false} AloneKeeps<T>(stages: seq<T -> Option<T>>, order: seq<nat>, r: Race<T>, moves: seq<Move>)
    requires Proper(stages, order, r) && Checked(stages, order, r) && Alone(moves)
    ensures var r' := After(stages, order, r, moves);
            Checked(stages, order, r') && Total(stages, OwnFlow(order, r')) == Total(stages, OwnFlow(order, r))
    decreases |moves|
  {
    hide Checked, Total, OwnFlow, FlusherStep;
    if moves != [] {
      FlusherKeeps(stages, order, r);
      FlusherChecks(stages, order, r);
      AloneKeeps(stages, order, Apply(stages, order, r, moves[0]), moves[1..]);
    }
  }

  lemma {:induction false} QuietKeeps<T>(stages: seq<T -> Option<T>>, order: seq<nat>, r: Race<T>, moves: seq<Move>)
    requires Proper(stages, order, r) && Checked(stages, order, r) && IdleHands(stages, r.flow.hands) && NoTakes(moves)
    ensures var r' := After(stages, order, r, moves);
            Checked(stages, order, r') && Total(stages, OwnFlow(order, r')) == Total(stages, OwnFlow(order, r))
    decreases |moves|
  {
    hide Checked, Total, OwnFlow, FlusherStep, IdleHands, Next;
    if moves != [] {
      match moves[0] {
        case Flusher =>
          FlusherKeeps(stages, order, r);
          FlusherChecks(stages, order, r);
        case Gives(i) => GiveKeeps(stages, order, r, i);
      }
      QuietKeeps(stages, order, Apply(stages, order, r, moves[0]), moves[1..]);
    }
  }

  /** On return the rows are all that was on its way, the hands of the polling threads apart. */
  lemma DoneIs<T>(stages: seq<T -> Option<T>>, order: seq<nat>, r: Race<T>)
    requires Proper(stages, order, r) && Checked(stages, order, r) && r.done && Covers(order, |stages|)
    ensures Rows(r.flow) == Total(stages, OwnFlow(order, r))
  {
    hide MapThrough;
    var f := OwnFlow(order, r);
    forall i: nat | i < |stages|
      ensures MapThrough(stages, i, Held(f.hands[i])) == [] == MapThrough(stages, i, f.queues[i])
    {
      MapNone(stages, i);
      assert i in order;
    }
    IdleTotal(stages, f, 0);
  }

  lemma Begins<T>(stages: seq<T -> Option<T>>, order: seq<nat>, f: Flow<T>)
    requires Shaped(stages, f) && forall k :: 0 <= k < |order| ==> order[k] < |stages|
    ensures Proper(stages, order, Begin(f)) && Checked(stages, order, Begin(f))
    ensures var held, own := HeldRows(stages, f.hands, 0), OwnFlow(order, Begin(f));
            && |Total(stages, f)| == |Total(stages, own)| + |held|
            && (held == [] ==> Total(stages, f) == Total(stages, own))
  {
    HandsAdd(stages, f, OwnFlow(order, Begin(f)), 0);
  }

  /** A flush on its own, whatever the paused threads have in hand, misses what that becomes. */
  lemma AloneMisses<T>(stages: seq<T -> Option<T>>, order: seq<nat>, f: Flow<T>) returns (moves: seq<Move>)
    requires Shaped(stages, f) && (forall k :: 0 <= k < |order| ==> order[k] < |stages|) && Covers(order, |stages|)
    requires HeldRows(stages, f.hands, 0) != []
    ensures Proper(stages, order, Begin(f)) && Alone(moves)
    ensures var r := After(stages, order, Begin(f), moves); r.done && |Rows(r.flow)| < |Total(stages, f)|
  {
    hide Checked, OwnFlow, HeldRows, Total;
    Begins(stages, order, f);
    moves := FlusherFinishes(stages, order, Begin(f));
    AloneKeeps(stages, order, Begin(f), moves);
    DoneIs(stages, order, After(stages, order, Begin(f), moves));
  }

  /** The rows are complete and in order on return. */
  ghost predicate Complete<T>(stages: seq<T -> Option<T>>, order: seq<nat>, f: Flow<T>, moves: seq<Move>)
    requires Proper(stages, order, Begin(f))
  {
    var r := After(stages, order, Begin(f), moves);
    r.done ==> Rows(r.flow) == Total(stages, f)
  }

  /** When the polling threads take nothing during a flush of all stages: the table then holds everything, in order,
      in all interleavings exactly if nothing they had in hand would become a row. */
  lemma QuietFlushExact<T>(stages: seq<T -> Option<T>>, order: seq<nat>, f: Flow<T>)
    requires Shaped(stages, f) && (forall k :: 0 <= k < |order| ==> order[k] < |stages|) && Covers(order, |stages|)
    ensures Proper(stages, order, Begin(f))
    ensures (forall moves :: NoTakes(moves) ==> Complete(stages, order, f, moves)) <==>
              HeldRows(stages, f.hands, 0) == []
  {
    hide Checked, OwnFlow, HeldRows, Total, After, MapThrough;
    Begins(stages, order, f);
    HeldRowsEmpty(stages, f.hands, 0);
    if HeldRows(stages, f.hands, 0) == [] {
      forall moves | NoTakes(moves) ensures Complete(stages, order, f, moves) {
        QuietKeeps(stages, order, Begin(f), moves);
        var r := After(stages, order, Begin(f), moves);
        if r.done { DoneIs(stages, order, r); }
      }
    } else {
      var moves := AloneMisses(stages, order, f);
      assert NoTakes(moves) && !Complete(stages, order, f, moves);
    }
  }

  // ----- polling threads that go on -----

  ghost predicate NothingComing<T>(stages: seq<T -> Option<T>>, order: seq<nat>, r: Race<T>)
    requires Proper(stages, order, r)
  {
    && IdleHands(stages, r.flow.hands) && IdleQueues(stages, r.flow.queues)
    && (r.own.Some? ==> MapThrough(stages, order[r.at], [r.own.value]) == [])
  }

  lemma TakenIdle<T>(stages: seq<T -> Option<T>>, i: nat, q: seq<T>)
    requires i <= |stages| && q != [] && MapThrough(stages, i, q) == []
    ensures MapThrough(stages, i, [q[0]]) == [] == MapThrough(stages, i, q[1..])
  {
    assert q == [q[0]] + q[1..];
    MapConcat(stages, i, [q[0]], q[1..]);
  }

  lemma GivenIdle<T>(stages: seq<T -> Option<T>>, queues: seq<seq<T>>, i: nat, v: T)
    requires |queues| == |stages| + 1 && i < |stages| && IdleQueues(stages, queues) && MapThrough(stages, i, [v]) == []
    ensures var after := queues[i + 1 := queues[i + 1] + Held(stages[i](v))];
            IdleQueues(stages, after) && Last(after) == Last(queues)
  {
    hide MapThrough;
    var out := Held(stages[i](v));
    PassedOn(stages, i, v);
    if i + 1 < |stages| {
      MapConcat(stages, i + 1, queues[i + 1], out);
    } else {
      assert queues[i + 1] + [] == queues[i + 1];
    }
  }

  lemma NothingStill<T>(stages: seq<T -> Option<T>>, order: seq<nat>, r: Race<T>, m: Move)
    requires Proper(stages, order, r) && NothingComing(stages, order, r)
    ensures var r' := Apply(stages, order, r, m); NothingComing(stages, order, r') && Rows(r'.flow) == Rows(r.flow)
  {
    hide MapThrough;
    match m {
      case Flusher =>
        if !r.done && r.at < |order| {
          var i := order[r.at];
          if r.own.Some? {
            GivenIdle(stages, r.flow.queues, i, r.own.value);
          } else if r.flow.queues[i] != [] {
            TakenIdle(stages, i, r.flow.queues[i]);
          }
        }
      case Takes(i) =>
        if i < |stages| && r.flow.hands[i].None? && r.flow.queues[i] != [] { TakenIdle(stages, i, r.flow.queues[i]); }
      case Gives(i) =>
        if i < |stages| && r.flow.hands[i].Some? {
          GivenIdle(stages, r.flow.queues, i, r.flow.hands[i].value);
          MapNone(stages, i);
        }
    }
  }

  lemma {:induction false} NothingEver<T>(stages: seq<T -> Option<T>>, order: seq<nat>, r: Race<T>, moves: seq<Move>)
    requires Proper(stages, order, r) && NothingComing(stages, order, r)
    ensures Rows(After(stages, order, r, moves).flow) == Rows(r.flow)
    decreases |moves|
  {
    hide NothingComing, Apply;
    if moves != [] {
      NothingStill(stages, order, r, moves[0]);
      NothingEver(stages, order, Apply(stages, order, r, moves[0]), moves[1..]);
    }
  }

  /** A stage with something queued that becomes a row, when nothing in hand does. */
  lemma Waiting<T>(stages: seq<T -> Option<T>>, f: Flow<T>) returns (i: nat)
    requires Shaped(stages, f) && Total(stages, f) != Rows(f) && IdleHands(stages, f.hands)
    ensures i < |stages| && f.queues[i] != []
  {
    hide MapThrough;
    IdleTotal(stages, f, 0);
    var k: int :| 0 <= k < |stages| && MapThrough(stages, k, f.queues[k]) != [];
    i := k;
    MapNone(stages, i);
  }

  lemma GiveIdleRows<T>(stages: seq<T -> Option<T>>, f: Flow<T>, i: nat)
    requires Shaped(stages, f) && i < |stages| && f.hands[i].Some? && MapThrough(stages, i, Held(f.hands[i])) == []
    ensures Rows(Next(stages, f, Push(i))) == Rows(f)
  {
    hide MapThrough;
    PassedOn(stages, i, f.hands[i].value);
    if i + 1 == |stages| { assert f.queues[i + 1] + [] == f.queues[i + 1]; }
  }

  /** The polling threads can get into a state in which they have something in hand that becomes a row. */
  lemma {:induction false} SomethingInHand<T>(stages: seq<T -> Option<T>>, order: seq<nat>, f: Flow<T>)
      returns (moves: seq<Move>)
    requires Proper(stages, order, Begin(f)) && Total(stages, f) != Rows(f)
    ensures var r := After(stages, order, Begin(f), moves);
            r == Begin(r.flow) && Total(stages, r.flow) == Total(stages, f) && HeldRows(stages, r.flow.hands, 0) != []
    decreases Left(stages, order, Begin(f))
  {
    hide Total, Left, MapThrough, HeldRows;
    HeldRowsEmpty(stages, f.hands, 0);
    if HeldRows(stages, f.hands, 0) != [] {
      moves := [];
    } else {
      var i := Waiting(stages, f);
      var m := if f.hands[i].Some? then Gives(i) else Takes(i);
      if f.hands[i].Some? {
        PushKeeps(stages, f, i);
        GiveIdleRows(stages, f, i);
      } else {
        PopKeeps(stages, f, i);
      }
      PollCosts(stages, order, Begin(f), m);
      var rest := SomethingInHand(stages, order, Apply(stages, order, Begin(f), m).flow);
      moves := [m] + rest;
      assert moves[1..] == rest;
    }
  }

  /** When the polling threads go on taking items: a flush of all stages leaves the table complete and in order in all
      interleavings exactly if there was nothing to flush. */
  lemma FreeFlushExact<T>(stages: seq<T -> Option<T>>, order: seq<nat>, f: Flow<T>)
    requires Shaped(stages, f) && (forall k :: 0 <= k < |order| ==> order[k] < |stages|) && Covers(order, |stages|)
    ensures Proper(stages, order, Begin(f))
    ensures (forall moves :: Complete(stages, order, f, moves)) <==> Total(stages, f) == Rows(f)
  {
    hide OwnFlow, HeldRows, Total, After, MapThrough, Checked;
    Begins(stages, order, f);
    if Total(stages, f) == Rows(f) {
      NothingBegins(stages, order, f);
      forall moves ensures Complete(stages, order, f, moves) {
        NothingEver(stages, order, Begin(f), moves);
      }
    } else {
      var first := SomethingInHand(stages, order, f);
      var g := After(stages, order, Begin(f), first).flow;
      var second := AloneMisses(stages, order, g);
      AfterConcat(stages, order, Begin(f), first, second);
      assert !Complete(stages, order, f, first + second);
    }
  }

  lemma NothingBegins<T>(stages: seq<T -> Option<T>>, order: seq<nat>, f: Flow<T>)
    requires Proper(stages, order, Begin(f)) && Total(stages, f) == Rows(f)
    ensures NothingComing(stages, order, Begin(f))
  {
    hide MapThrough;
    IdleTotal(stages, f, 0);
  }

  lemma AfterTwo<T>(stages: seq<T -> Option<T>>, order: seq<nat>, r: Race<T>, m: Move, n: Move)
    requires Proper(stages, order, r)
    ensures After(stages, order, r, [m, n]) == Apply(stages, order, Apply(stages, order, r, m), n)
  {
    var x := Apply(stages, order, r, m);
    assert [m, n][1..] == [n] && [n][1..] == [];
    assert After(stages, order, x, [n]) == After(stages, order, Apply(stages, order, x, n), []);
  }

  /** A polling thread has taken the first of two items when the flusher takes the second, and gives it on later: the
      rows come out in the wrong order. */
  lemma Overtaken<T>(pass: T -> Option<T>, a: T, b: T)
    requires a != b && pass(a) == Some(a) && pass(b) == Some(b)
    ensures var f := Flow([[a, b], []], [None]);
            var moves := [Takes(0), Flusher] + ([Flusher, Gives(0)] + ([Flusher, Flusher] + [Flusher, Flusher]));
            && Proper([pass], [0], Begin(f)) && After([pass], [0], Begin(f), moves).done
            && Rows(After([pass], [0], Begin(f), moves).flow) == [b, a]
            && Total([pass], f) == [a, b]
  {
    var s, order, f := [pass], [0], Flow([[a, b], []], [None]);
    var r0 := Begin(f);
    assert Proper(s, order, r0);
    var r2 := Race(Flow([[], []], [Some(a)]), Some(b), 0, false, false);
    var r4 := Race(Flow([[], [b, a]], [None]), None, 0, true, false);
    var r6, r8 := r4.(worked := false), r4.(worked := false, at := 1, done := true);
    FirstTwo(pass, a, b);
    NextTwo(pass, a, b);
    AfterTwo(s, order, r4, Flusher, Flusher);
    AfterTwo(s, order, r6, Flusher, Flusher);
    assert Apply(s, order, Apply(s, order, r4, Flusher), Flusher) == r6;
    assert Apply(s, order, Apply(s, order, r6, Flusher), Flusher) == r8;
    AfterConcat(s, order, r4, [Flusher, Flusher], [Flusher, Flusher]);
    AfterConcat(s, order, r2, [Flusher, Gives(0)], [Flusher, Flusher] + [Flusher, Flusher]);
    AfterConcat(s, order, r0, [Takes(0), Flusher], [Flusher, Gives(0)] + ([Flusher, Flusher] + [Flusher, Flusher]));
    TotalOfTwo(pass, a, b);
  }

  lemma FirstTwo<T>(pass: T -> Option<T>, a: T, b: T)
    ensures var r := Begin(Flow([[a, b], []], [None]));
            && Proper([pass], [0], r)
            && After([pass], [0], r, [Takes(0), Flusher]) == Race(Flow([[], []], [Some(a)]), Some(b), 0, false, false)
  {
    var r := Begin(Flow([[a, b], []], [None]));
    AfterTwo([pass], [0], r, Takes(0), Flusher);
    var r1 := Race(Flow([[b], []], [Some(a)]), None, 0, false, false);
    assert [a, b][1..] == [b] && [b][1..] == [];
    assert Apply([pass], [0], r, Takes(0)) == r1;
    assert r1.flow.queues[0 := []] == [[], []];
  }

  lemma NextTwo<T>(pass: T -> Option<T>, a: T, b: T)
    requires pass(a) == Some(a) && pass(b) == Some(b)
    ensures var r := Race(Flow([[], []], [Some(a)]), Some(b), 0, false, false);
            && Proper([pass], [0], r)
            && After([pass], [0], r, [Flusher, Gives(0)]) == Race(Flow([[], [b, a]], [None]), None, 0, true, false)
  {
    var r := Race(Flow([[], []], [Some(a)]), Some(b), 0, false, false);
    AfterTwo([pass], [0], r, Flusher, Gives(0));
    var r1 := Race(Flow([[], [b]], [Some(a)]), None, 0, true, false);
    var none: seq<T> := [];
    assert none + [b] == [b] && [b] + [a] == [b, a];
    assert Apply([pass], [0], r, Flusher) == r1;
    assert r1.flow.queues[1 := [b, a]] == [[], [b, a]];
  }

  lemma TotalOfTwo<T>(pass: T -> Option<T>, a: T, b: T)
    requires pass(a) == Some(a) && pass(b) == Some(b)
    ensures Total([pass], Flow([[a, b], []], [None])) == [a, b]
  {
    var s, f := [pass], Flow([[a, b], []], [None]);
    MapOne(s, 0, a);
    MapOne(s, 0, b);
    MapConcat(s, 0, [a], [b]);
    MapNone(s, 0);
    assert [a] + [b] == [a, b];
    assert Through(s, 1, a) == Some(a) && Through(s, 1, b) == Some(b);
    hide MapThrough;
    assert From(s, f, 1) == [];
  }
}
