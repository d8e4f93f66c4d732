/** Items flowing through a linear pipeline: a FIFO queue in front of every stage, and the database behind the last.
    A stage turns each item into one for the next stage, or into none. */
module PipelineFlow {
  import opened Bytes

  /** queues[i] feeds stage i; the last one is the table. hands[i] is what stage i has popped and not yet passed on. */
  datatype Flow<T> = Flow(queues: seq<seq<T>>, hands: seq<Option<T>>)

  ghost predicate Shaped<T>(stages: seq<T -> Option<T>>, f: Flow<T>)
  {
    |f.queues| == |stages| + 1 && |f.hands| == |stages|
  }

  function Rows<T>(f: Flow<T>): seq<T>
    requires f.queues != []
  {
    Last(f.queues)
  }

  /** An item sent through the stages from i on, unless one of them drops it. */
  function Through<T>(stages: seq<T -> Option<T>>, i: nat, v: T): Option<T>
    requires i <= |stages|
    decreases |stages| - i
  {
    if i == |stages| then Some(v)
    else
      match stages[i](v)
      case None => None
      case Some(w) => Through(stages, i + 1, w)
  }

  /** The rows that a sequence of items in front of stage i becomes. */
  function MapThrough<T>(stages: seq<T -> Option<T>>, i: nat, vs: seq<T>): seq<T>
    requires i <= |stages|
  {
    if vs == [] then [] else MapThrough(stages, i, vs[..|vs| - 1]) + Held(Through(stages, i, Last(vs)))
  }

  function Held<T>(h: Option<T>): seq<T>
  {
    if h.Some? then [h.value] else []
  }

  /** Everything from queue n on and what is in front of it. */
  function From<T>(stages: seq<T -> Option<T>>, f: Flow<T>, n: nat): seq<T>
    requires Shaped(stages, f) && n <= |stages|
    decreases |stages| - n
  {
    if n == |stages| then Rows(f)
    else From(stages, f, n + 1) + MapThrough(stages, n, Held(f.hands[n])) + MapThrough(stages, n, f.queues[n])
  }

  /** The rows, followed by everything still on its way, as the rows it will become. */
  function Total<T>(stages: seq<T -> Option<T>>, f: Flow<T>): seq<T>
    requires Shaped(stages, f)
  {
    From(stages, f, 0)
  }

  /** The order names every stage. */
  ghost predicate Covers(order: seq<nat>, n: nat)
  {
    forall i: nat :: i < n ==> i in order
  }

  // ----- steps -----

  /** try_pop, push and emplace are atomic; a stage's pop and push are separate steps. */
  datatype Step<T> = Produce(item: T) | Pop(stage: nat) | Push(stage: nat)

  function Next<T>(stages: seq<T -> Option<T>>, f: Flow<T>, s: Step<T>): (g: Flow<T>)
    requires Shaped(stages, f)
    ensures Shaped(stages, g)
  {
    match s
    case Produce(x) => f.(queues := f.queues[0 := f.queues[0] + [x]])
    case Pop(i) =>
      if i < |stages| && f.hands[i].None? && f.queues[i] != [] then
        Flow(f.queues[i := f.queues[i][1..]], f.hands[i := Some(f.queues[i][0])])
      else f
    case Push(i) =>
      if i < |stages| && f.hands[i].Some? then
        Flow(f.queues[i + 1 := f.queues[i + 1] + Held(stages[i](f.hands[i].value))], f.hands[i := None])
      else f
  }

  function Empty<T>(stages: seq<T -> Option<T>>): (f: Flow<T>)
    ensures Shaped(stages, f)
  {
    Flow(seq(|stages| + 1, _ => []), seq(|stages|, _ => None))
  }

  function Run<T>(stages: seq<T -> Option<T>>, steps: seq<Step<T>>): (f: Flow<T>)
    ensures Shaped(stages, f)
  {
    if steps == [] then Empty(stages) else Next(stages, Run(stages, steps[..|steps| - 1]), Last(steps))
  }

  /** What was produced, in order. */
  function Produced<T>(steps: seq<Step<T>>): seq<T>
  {
    if steps == [] then []
    else Produced(steps[..|steps| - 1]) + if Last(steps).Produce? then [Last(steps).item] else []
  }

  // ----- conservation and order -----

  lemma MapOne<T>(stages: seq<T -> Option<T>>, i: nat, v: T)
    requires i <= |stages|
    ensures MapThrough(stages, i, [v]) == Held(Through(stages, i, v)) && MapThrough(stages, i, []) == []
  {
    assert [v][..0] == [];
  }

  lemma {:induction false} MapConcat<T>(stages: seq<T -> Option<T>>, i: nat, a: seq<T>, b: seq<T>)
    requires i <= |stages|
    ensures MapThrough(stages, i, a + b) == MapThrough(stages, i, a) + MapThrough(stages, i, b)
    decreases |b|
  {
    if b == [] {
      assert a + b == a;
    } else {
      hide Held, Through;
      var pre, row := b[..|b| - 1], Held(Through(stages, i, Last(b)));
      MapConcat(stages, i, a, pre);
      WithoutLast(a, b);
      Grouped(MapThrough(stages, i, a), MapThrough(stages, i, pre), row);
    }
  }

  lemma WithoutLast<T>(a: seq<T>, b: seq<T>)
    requires b != []
    ensures (a + b)[..|a + b| - 1] == a + b[..|b| - 1] && Last(a + b) == Last(b)
  {
  }

  lemma Grouped<T>(a: seq<T>, b: seq<T>, c: seq<T>)
    ensures (a + b) + c == a + (b + c)
  {
  }

  /** Changes in front of queue n do not show from n on. */
  lemma {:induction false} SameFrom<T>(stages: seq<T -> Option<T>>, f: Flow<T>, g: Flow<T>, n: nat)
    requires Shaped(stages, f) && Shaped(stages, g) && n <= |stages|
    requires forall k :: n <= k <= |stages| ==> f.queues[k] == g.queues[k]
    requires forall k :: n <= k < |stages| ==> f.hands[k] == g.hands[k]
    ensures From(stages, f, n) == From(stages, g, n)
    decreases |stages| - n
  {
    hide MapThrough;
    if n < |stages| { SameFrom(stages, f, g, n + 1); }
  }

  /** Changes that leave everything from queue m on the same sequence leave it so from an earlier queue on. */
  lemma {:induction false} SameBelow<T>(stages: seq<T -> Option<T>>, f: Flow<T>, g: Flow<T>, n: nat, m: nat)
    requires Shaped(stages, f) && Shaped(stages, g) && n <= m <= |stages|
    requires From(stages, f, m) == From(stages, g, m)
    requires forall k :: n <= k < m ==> f.queues[k] == g.queues[k] && f.hands[k] == g.hands[k]
    ensures From(stages, f, n) == From(stages, g, n)
    decreases m - n
  {
    hide MapThrough;
    if n < m { SameBelow(stages, f, g, n + 1, m); }
  }

  lemma PopKeeps<T>(stages: seq<T -> Option<T>>, f: Flow<T>, i: nat)
    requires Shaped(stages, f) && i < |stages| && f.hands[i].None? && f.queues[i] != []
    ensures Total(stages, Next(stages, f, Pop(i))) == Total(stages, f)
  {
    hide MapThrough;
    var g, q := Next(stages, f, Pop(i)), f.queues[i];
    SameFrom(stages, f, g, i + 1);
    MapOne(stages, i, q[0]);
    MapConcat(stages, i, [q[0]], q[1..]);
    assert q == [q[0]] + q[1..];
    SameBelow(stages, f, g, 0, i);
  }

  /** What arrives in queue i shows from there on as the rows it becomes. */
  lemma Received<T>(stages: seq<T -> Option<T>>, f: Flow<T>, i: nat, vs: seq<T>)
    requires Shaped(stages, f) && i <= |stages|
    ensures var g := f.(queues := f.queues[i := f.queues[i] + vs]);
            From(stages, g, i) == From(stages, f, i) + if i == |stages| then vs else MapThrough(stages, i, vs)
  {
    hide MapThrough;
    var g := f.(queues := f.queues[i := f.queues[i] + vs]);
    if i < |stages| {
      SameFrom(stages, f, g, i + 1);
      MapConcat(stages, i, f.queues[i], vs);
    }
  }

  lemma PassedOn<T>(stages: seq<T -> Option<T>>, i: nat, v: T)
    requires i < |stages|
    ensures MapThrough(stages, i, [v]) ==
            if i + 1 == |stages| then Held(stages[i](v)) else MapThrough(stages, i + 1, Held(stages[i](v)))
  {
    MapOne(stages, i, v);
    if stages[i](v).Some? {
      MapOne(stages, i + 1, stages[i](v).value);
    }
  }

  lemma PushKeeps<T>(stages: seq<T -> Option<T>>, f: Flow<T>, i: nat)
    requires Shaped(stages, f) && i < |stages| && f.hands[i].Some?
    ensures Total(stages, Next(stages, f, Push(i))) == Total(stages, f)
  {
    hide MapThrough;
    var g, v := Next(stages, f, Push(i)), f.hands[i].value;
    var h := f.(queues := f.queues[i + 1 := f.queues[i + 1] + Held(stages[i](v))]);
    Received(stages, f, i + 1, Held(stages[i](v)));
    SameFrom(stages, h, g, i + 1);
    PassedOn(stages, i, v);
    MapOne(stages, i, v);
    assert From(stages, g, i) == From(stages, f, i);
    SameBelow(stages, f, g, 0, i);
  }

  lemma {:induction false} EmptyTotal<T>(stages: seq<T -> Option<T>>, f: Flow<T>, n: nat)
    requires Shaped(stages, f) && n <= |stages|
    requires forall k :: n <= k < |stages| ==> f.queues[k] == [] && f.hands[k].None?
    ensures From(stages, f, n) == Rows(f)
    decreases |stages| - n
  {
    if n < |stages| { EmptyTotal(stages, f, n + 1); }
  }

  /** In every interleaving of producers and stages, the rows followed by everything still on its way are exactly
      what was produced, in order, sent through all stages: nothing is lost, doubled or reordered. */
  lemma {:induction false} Conservation<T>(stages: seq<T -> Option<T>>, steps: seq<Step<T>>)
    ensures Total(stages, Run(stages, steps)) == MapThrough(stages, 0, Produced(steps))
    decreases |steps|
  {
    hide MapThrough, From;
    if steps == [] {
      EmptyTotal(stages, Empty(stages), 0);
      assert MapThrough(stages, 0, Produced(steps)) == [] by { MapNone(stages, 0); }
    } else {
      var before, s := steps[..|steps| - 1], Last(steps);
      Conservation(stages, before);
      var f := Run(stages, before);
      assert !s.Produce? ==> Produced(steps) == Produced(before);
      match s {
        case Produce(x) =>
          Received(stages, f, 0, [x]);
          if stages == [] { NoStages(stages, [x]); }
          MapConcat(stages, 0, Produced(before), [x]);
        case Pop(i) => if i < |stages| && f.hands[i].None? && f.queues[i] != [] { PopKeeps(stages, f, i); }
        case Push(i) => if i < |stages| && f.hands[i].Some? { PushKeeps(stages, f, i); }
      }
    }
  }

  lemma {:induction false} NoStages<T>(stages: seq<T -> Option<T>>, vs: seq<T>)
    requires stages == []
    ensures MapThrough(stages, 0, vs) == vs
  {
    if vs != [] { NoStages(stages, vs[..|vs| - 1]); }
  }

  lemma MapNone<T>(stages: seq<T -> Option<T>>, i: nat)
    requires i <= |stages|
    ensures MapThrough(stages, i, []) == []
  {
  }

  lemma {:induction false} RowsFirst<T>(stages: seq<T -> Option<T>>, f: Flow<T>, n: nat)
    requires Shaped(stages, f) && n <= |stages|
    ensures Rows(f) <= From(stages, f, n)
    decreases |stages| - n
  {
    hide MapThrough;
    if n < |stages| { RowsFirst(stages, f, n + 1); }
  }

  /** The table is at all times a prefix of the produced items, sent through all stages. */
  lemma RowsArePrefix<T>(stages: seq<T -> Option<T>>, steps: seq<Step<T>>)
    ensures Rows(Run(stages, steps)) <= MapThrough(stages, 0, Produced(steps))
  {
    Conservation(stages, steps);
    RowsFirst(stages, Run(stages, steps), 0);
  }
}
