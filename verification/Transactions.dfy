/** safeTransaction: nesting, rollback and retry. One thread holds the recursive mutex; the rest wait. */
module Transactions {
  import opened Bytes

  /** A transaction body: writes, nested calls of safeTransaction, and exceptions of its own. It has no effects but
      those on the database and lets exceptions through. */
  datatype Body = End | Then(op: Op, rest: Body)
  datatype Op = Write(row: int) | Nested(body: Body, numRetries: Option<nat>) | Throw

  /** What the database answers to a command; Busy stands for BUSY, LOCKED and READONLY. */
  datatype Fate = Fine | Busy | Broken

  /** Silent is SafeTransactionSilentException, Thrown any other. */
  datatype Outcome = Returned | Silent | Thrown

  /** The rows that a body writes when nothing goes wrong, nested bodies included. */
  function Effect(b: Body): seq<int>
  {
    match b
    case End => []
    case Then(Write(row), rest) => [row] + Effect(rest)
    case Then(Nested(body, _), rest) => Effect(body) + Effect(rest)
    case Then(Throw, rest) => Effect(rest)
  }

  /** The body throws no exception of its own, nor does any body nested in it. */
  predicate NeverThrows(b: Body)
  {
    match b
    case End => true
    case Then(Write(_), rest) => NeverThrows(rest)
    case Then(Nested(body, _), rest) => NeverThrows(body) && NeverThrows(rest)
    case Then(Throw, _) => false
  }

  // ----- the answers that were used up -----

  /** Answers are used up from the front. */
  ghost predicate Later(was: seq<Fate>, now: seq<Fate>)
  {
    |now| <= |was| && was[|was| - |now|..] == now
  }

  ghost function Used(was: seq<Fate>, now: seq<Fate>): (used: seq<Fate>)
    requires |now| <= |was|
  {
    was[..|was| - |now|]
  }

  ghost predicate AllFine(used: seq<Fate>)
  {
    forall i :: 0 <= i < |used| ==> used[i].Fine?
  }

  /** Everything was fine up to the last answer. */
  ghost predicate EndsIn(used: seq<Fate>, f: Fate)
  {
    used != [] && Last(used) == f && AllFine(used[..|used| - 1])
  }

  function Count(f: Fate, fates: seq<Fate>): nat
  {
    if fates == [] then 0 else (if fates[0] == f then 1 else 0) + Count(f, fates[1..])
  }

  /** Why a body came to an end in an open transaction, and with BEGIN and COMMIT around it: a return takes a body that
      never throws and fine answers only, a silent exception a busy database, and any other a broken one or a body
      that throws. */
  ghost predicate Explains(o: Outcome, never: bool, was: seq<Fate>, now: seq<Fate>)
  {
    && Later(was, now)
    && match o
       case Returned => never && AllFine(Used(was, now))
       case Silent => EndsIn(Used(was, now), Busy)
       case Thrown => EndsIn(Used(was, now), Broken) || (!never && AllFine(Used(was, now)))
  }

  lemma UsedOn(a: seq<Fate>, b: seq<Fate>, c: seq<Fate>)
    requires Later(a, b) && Later(b, c)
    ensures Later(a, c) && Used(a, c) == Used(a, b) + Used(b, c)
  {
    var n := |a| - |b|;
    assert forall i :: 0 <= i < |b| ==> b[i] == a[n + i];
  }

  /** What a command's answer makes of a body that ends with it. */
  function Outcomes(f: Fate): Outcome
  {
    match f
    case Fine => Returned
    case Busy => Silent
    case Broken => Thrown
  }

  lemma NothingUsed(o: Outcome, never: bool, fates: seq<Fate>)
    requires if never then o.Returned? else o.Thrown?
    ensures Explains(o, never, fates, fates)
  {
  }

  /** What goes wrong in a part goes wrong in the whole. */
  lemma PartOf(o: Outcome, part: bool, whole: bool, was: seq<Fate>, now: seq<Fate>)
    requires Explains(o, part, was, now) && !o.Returned? && (whole ==> part)
    ensures Explains(o, whole, was, now)
  {
  }

  /** First a part that returned, then the rest. */
  lemma ExplainsOn(o: Outcome, first: bool, rest: bool, a: seq<Fate>, b: seq<Fate>, c: seq<Fate>)
    requires Explains(Returned, first, a, b) && Explains(o, rest, b, c)
    ensures Explains(o, first && rest, a, c)
  {
    UsedOn(a, b, c);
    var u, v := Used(a, b), Used(b, c);
    if v != [] { assert (u + v)[..|u + v| - 1] == u + v[..|v| - 1]; }
  }

  lemma {:induction false} CountConcat(f: Fate, a: seq<Fate>, b: seq<Fate>)
    ensures Count(f, a + b) == Count(f, a) + Count(f, b)
    decreases |a|
  {
    if a == [] {
      assert a + b == b;
    } else {
      assert (a + b)[0] == a[0] && (a + b)[1..] == a[1..] + b;
      CountConcat(f, a[1..], b);
    }
  }

  lemma {:induction false} NoneCounted(f: Fate, fates: seq<Fate>)
    requires f !in fates
    ensures Count(f, fates) == 0
  {
    if fates != [] { NoneCounted(f, fates[1..]); }
  }

  /** What an attempt that ended in f adds to the counts. */
  lemma CountsOn(f: Fate, a: seq<Fate>, b: seq<Fate>, c: seq<Fate>)
    requires Later(a, b) && Later(b, c) && (EndsIn(Used(b, c), f) || (f.Fine? && AllFine(Used(b, c))))
    ensures Later(a, c)
    ensures Count(Busy, Used(a, c)) == Count(Busy, Used(a, b)) + if f.Busy? then 1 else 0
    ensures Count(Broken, Used(a, c)) == Count(Broken, Used(a, b)) + if f.Broken? then 1 else 0
  {
    UsedOn(a, b, c);
    var u := Used(b, c);
    CountConcat(Busy, Used(a, b), u);
    CountConcat(Broken, Used(a, b), u);
    if AllFine(u) {
      NoneCounted(Busy, u);
      NoneCounted(Broken, u);
    } else {
      var pre := u[..|u| - 1];
      assert u == pre + [f];
      assert [f][1..] == [];
      CountConcat(Busy, pre, [f]);
      CountConcat(Broken, pre, [f]);
      NoneCounted(Busy, pre);
      NoneCounted(Broken, pre);
      assert Count(Busy, [f]) == if f.Busy? then 1 else 0;
      assert Count(Broken, [f]) == if f.Broken? then 1 else 0;
    }
  }

  lemma CountUsed(f: Fate, a: seq<Fate>, b: seq<Fate>)
    requires Later(a, b)
    ensures Count(f, Used(a, b)) <= Count(f, a)
  {
    assert a == Used(a, b) + b;
    CountConcat(f, Used(a, b), b);
  }

  class Connection {
    /** The database file, and the rows of the open transaction on top of it. */
    var committed: seq<int>
    var open: Option<seq<int>>
    var inTransaction: bool
    /** Commands issued so far. */
    var begins: nat
    var commits: nat
    var rollbacks: nat
    /** The answers still to come; after them every command succeeds. */
    var fates: seq<Fate>

    ghost predicate Valid()
      reads this
    {
      inTransaction <==> open.Some?
    }

    method Answer() returns (f: Fate)
      modifies `fates
      ensures if old(fates) == [] then f.Fine? && fates == [] else f == old(fates)[0] && fates == old(fates)[1..]
      ensures f.Fine? ==> Explains(Returned, true, old(fates), fates)
      ensures f.Busy? ==> forall never :: Explains(Silent, never, old(fates), fates)
      ensures f.Broken? ==> forall never :: Explains(Thrown, never, old(fates), fates)
    {
      if fates == [] { return Fine; }
      f := fates[0];
      fates := fates[1..];
    }

    method ExecuteBody(b: Body) returns (o: Outcome)
      requires Valid() && inTransaction
      modifies this
      ensures Valid() && inTransaction && committed == old(committed)
      ensures begins == old(begins) && commits == old(commits) && rollbacks == old(rollbacks)
      ensures o.Returned? ==> open.value == old(open).value + Effect(b)
      ensures Explains(o, NeverThrows(b), old(fates), fates)
      ensures |fates| <= |old(fates)| && (o.Silent? ==> |fates| < |old(fates)|)
      decreases b, 0
    {
      hide Explains;
      ghost var was := fates;
      match b {
        case End =>
          assert open.value + [] == open.value;
          NothingUsed(Returned, true, fates);
          o := Returned;
        case Then(Write(row), rest) =>
          var f := Answer();
          if f.Busy? { return Silent; }
          if f.Broken? { return Thrown; }
          ghost var before, now := open.value, fates;
          open := Some(open.value + [row]);
          o := ExecuteBody(rest);
          ExplainsOn(o, true, NeverThrows(rest), was, now, fates);
          assert before + [row] + Effect(rest) == before + ([row] + Effect(rest));
        case Then(Nested(body, numRetries), rest) =>
          ghost var before := open.value;
          o := SafeTransaction(body, numRetries);
          if !o.Returned? {
            PartOf(o, NeverThrows(body), NeverThrows(b), was, fates);
            return;
          }
          ghost var now := fates;
          o := ExecuteBody(rest);
          ExplainsOn(o, NeverThrows(body), NeverThrows(rest), was, now, fates);
          assert before + Effect(body) + Effect(rest) == before + (Effect(body) + Effect(rest));
        case Then(Throw, rest) =>
          NothingUsed(Thrown, false, fates);
          o := Thrown;
      }
    }

    /** BEGIN, the body and COMMIT; on any exception the transaction is left as it is. */
    method Attempt(b: Body) returns (o: Outcome)
      requires inTransaction && open.None?
      modifies this
      ensures begins == old(begins) + 1 && rollbacks == old(rollbacks) && inTransaction
      ensures if o.Returned? then committed == old(committed) + Effect(b) && open.None? && commits == old(commits) + 1
              else committed == old(committed)
      ensures !o.Returned? ==> commits <= old(commits) + 1
      ensures Explains(o, NeverThrows(b), old(fates), fates)
      ensures |fates| <= |old(fates)| && (o.Silent? ==> |fates| < |old(fates)|)
      decreases b, 1
    {
      hide Explains, NeverThrows;
      ghost var was := fates;
      begins := begins + 1;
      var f := Answer();
      if f.Busy? { return Silent; }
      if f.Broken? { return Thrown; }
      open := Some([]);
      ghost var begun := fates;
      o := ExecuteBody(b);
      ExplainsOn(o, true, NeverThrows(b), was, begun, fates);
      if !o.Returned? { return; }
      assert [] + Effect(b) == Effect(b);
      ghost var executed := fates;
      commits := commits + 1;
      f := Answer();
      ExplainsOn(Outcomes(f), NeverThrows(b), true, was, executed, fates);
      if f.Busy? { return Silent; }
      if f.Broken? { return Thrown; }
      committed := committed + open.value;
      open := None;
    }

    /** rollbackSilently_; without an open transaction it fails, which is ignored. */
    method RollbackSilently()
      modifies `open, `rollbacks
      ensures open.None? && rollbacks == old(rollbacks) + 1
    {
      rollbacks := rollbacks + 1;
      open := None;
    }

    /** safeTransaction; None retries without end. A normal return means the body took effect exactly once, anything
        else that it took none; the flag is down again either way; a nested call issues no command of its own and takes
        effect inside the outer transaction; and at most numRetries + 1 attempts are made, one more than the database
        was busy. It returns unless the body throws, an answer is Broken, or the database is busy in every one of
        numRetries + 1 attempts; a nested call never retries. */
    method SafeTransaction(b: Body, numRetries: Option<nat>) returns (o: Outcome)
      requires Valid()
      modifies this
      ensures Valid() && inTransaction == old(inTransaction)
      ensures old(inTransaction) ==>
                && committed == old(committed) && begins == old(begins) && commits == old(commits)
                && rollbacks == old(rollbacks)
                && (o.Returned? ==> open.value == old(open).value + Effect(b))
                && Explains(o, NeverThrows(b), old(fates), fates)
      ensures !old(inTransaction) ==>
                && !o.Silent?
                && committed == (if o.Returned? then old(committed) + Effect(b) else old(committed))
                && old(begins) < begins
                && rollbacks - old(rollbacks) == begins - old(begins) - (if o.Returned? then 1 else 0)
                && (numRetries.Some? ==> begins - old(begins) <= numRetries.value + 1)
                && Ends(o, NeverThrows(b), numRetries, begins - old(begins), old(fates), fates)
      ensures NeverThrows(b) && old(AllFine(fates)) ==> o.Returned?
      ensures && !old(inTransaction) && NeverThrows(b) && Count(Broken, old(fates)) == 0
              && (numRetries.None? || Count(Busy, old(fates)) <= numRetries.value)
              ==> o.Returned?
      ensures |fates| <= |old(fates)| && (o.Silent? ==> |fates| < |old(fates)|)
      decreases b, 2
    {
      hide Explains, Effect, NeverThrows, AllFine;
      ghost var was := fates;
      var numTries := 0;
      NoneUsed(fates);
      while true
        invariant Valid() && inTransaction == old(inTransaction) && |fates| <= |old(fates)|
        invariant old(inTransaction) ==>
                    && committed == old(committed) && open == old(open) && fates == old(fates)
                    && begins == old(begins) && commits == old(commits) && rollbacks == old(rollbacks)
        invariant !old(inTransaction) ==>
                    && committed == old(committed)
                    && begins - old(begins) == rollbacks - old(rollbacks) == numTries
                    && Busied(was, fates, numTries)
        invariant numRetries.Some? ==> numTries <= numRetries.value
        decreases |fates|
      {
        ghost var now := fates;
        if inTransaction {
          o := ExecuteBody(b);
          FineReturns(o, NeverThrows(b), was, fates);
          return;
        }
        inTransaction := true;
        o := Attempt(b);
        inTransaction := false;
        TryEnds(o, NeverThrows(b), numRetries, numTries, was, now, fates);
        if o.Returned? { return; }
        RollbackSilently();
        if o.Thrown? { return; }
        numTries := numTries + 1;
        if numRetries.Some? && numTries > numRetries.value {
          OutOfTries(NeverThrows(b), numRetries, numTries, was, fates);
          return Thrown;
        }
      }
    }
  }

  /** All that was used up are that many busy answers and fine ones. */
  ghost predicate Busied(was: seq<Fate>, now: seq<Fate>, n: nat)
  {
    Later(was, now) && Count(Busy, Used(was, now)) == n && Count(Broken, Used(was, now)) == 0
  }

  /** Why an outermost call came to an end after that many attempts. */
  ghost predicate Ends(o: Outcome, never: bool, numRetries: Option<nat>, attempts: int, was: seq<Fate>, now: seq<Fate>)
  {
    && Later(was, now)
    && (o.Returned? ==> never && attempts >= 1 && Busied(was, now, attempts - 1))
    && (o.Thrown? ==> !never || Count(Broken, Used(was, now)) == 1
                      || (numRetries.Some? && attempts == numRetries.value + 1 && Busied(was, now, attempts)))
  }

  lemma NoneUsed(fates: seq<Fate>)
    ensures Busied(fates, fates, 0)
  {
    assert Used(fates, fates) == [];
  }

  lemma FineReturns(o: Outcome, never: bool, was: seq<Fate>, now: seq<Fate>)
    requires Explains(o, never, was, now)
    ensures never && AllFine(was) ==> o.Returned?
  {
  }

  /** After numTries attempts on a busy database, one more. */
  lemma TryEnds(o: Outcome, never: bool, numRetries: Option<nat>, numTries: nat,
                was: seq<Fate>, now: seq<Fate>, after: seq<Fate>)
    requires Busied(was, now, numTries) && Explains(o, never, now, after)
    ensures !o.Silent? ==> Ends(o, never, numRetries, numTries + 1, was, after)
    ensures o.Silent? ==> Busied(was, after, numTries + 1) && !AllFine(was)
    ensures o.Thrown? && never ==> Count(Broken, was) > 0 && !AllFine(was)
  {
    hide Count;
    if o.Returned? || (o.Thrown? && AllFine(Used(now, after))) {
      CountsOn(Fine, was, now, after);
    } else {
      CountsOn(if o.Silent? then Busy else Broken, was, now, after);
      LastUsed(was, now, after);
      CountUsed(Broken, was, after);
    }
  }

  lemma LastUsed(was: seq<Fate>, now: seq<Fate>, after: seq<Fate>)
    requires Later(was, now) && Later(now, after)
    requires EndsIn(Used(now, after), Busy) || EndsIn(Used(now, after), Broken)
    ensures !AllFine(was)
  {
    var i := |now| - |after| - 1;
    assert Used(now, after)[i] == now[i] == was[|was| - |now| + i];
  }

  lemma OutOfTries(never: bool, numRetries: Option<nat>, numTries: nat, was: seq<Fate>, now: seq<Fate>)
    requires Busied(was, now, numTries) && numRetries.Some? && numTries == numRetries.value + 1
    ensures Ends(Thrown, never, numRetries, numTries, was, now) && Count(Busy, was) > numRetries.value
  {
    CountUsed(Busy, was, now);
  }
}
