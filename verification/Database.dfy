/** A single-clock database: every collectable's records of a window go into one row, and the viewer replays rows. */
module Database {
  import opened Bytes
  import opened Records
  import opened Wire
  import opened Runs

  /** One collection window of all collectables; order is the (arbitrary) order in which they are encoded. */
  datatype Tick = Tick(time: nat, events: map<u16, Event>, order: seq<u16>)

  datatype Row = Row(time: nat, blob: Bytes)

  function EventOf(x: Tick, cid: u16): Event
  {
    if cid in x.events then x.events[cid] else Idle
  }

  /** The run of one collectable. */
  function RunOf(ticks: seq<Tick>, cid: u16): (run: seq<Window>)
    ensures |run| == |ticks|
    ensures forall i :: 0 <= i < |run| ==> run[i] == Window(ticks[i].time, EventOf(ticks[i], cid))
  {
    seq(|ticks|, i requires 0 <= i < |ticks| => Window(ticks[i].time, EventOf(ticks[i], cid)))
  }

  function TagAll(cid: u16, rs: seq<Record>): (ts: seq<Tagged>)
    ensures |ts| == |rs| && forall i :: 0 <= i < |ts| ==> ts[i] == Tagged(cid, rs[i])
  {
    seq(|rs|, i requires 0 <= i < |rs| => Tagged(cid, rs[i]))
  }

  /** The records that the last window sends for the collectables in `order`. */
  function Gather(hb: nat, ticks: seq<Tick>, order: seq<u16>): seq<Tagged>
    requires ticks != []
  {
    if order == [] then [] else TagAll(order[0], Sends(hb, RunOf(ticks, order[0]))) + Gather(hb, ticks, order[1..])
  }

  function TickRecords(hb: nat, ticks: seq<Tick>): seq<Tagged>
    requires ticks != []
  {
    Gather(hb, ticks, Last(ticks).order)
  }

  /** The last window's row; a window that sends nothing leaves none. */
  function NewRows(hb: nat, ticks: seq<Tick>): (rows: seq<Row>)
    requires ticks != []
    ensures |rows| <= 1 && (rows != [] ==> rows[0].time == Last(ticks).time)
  {
    var ts := TickRecords(hb, ticks);
    if ts == [] then [] else [Row(Last(ticks).time, PrintAll(ts))]
  }

  /** The table. */
  function Rows(hb: nat, ticks: seq<Tick>): seq<Row>
  {
    if ticks == [] then [] else Rows(hb, Init(ticks)) + NewRows(hb, ticks)
  }

  // ----- the viewer -----

  type Values = map<u16, Cell>

  function CellOf(vals: Values, cid: u16): Cell
  {
    if cid in vals then vals[cid] else Absent
  }

  function PutCell(vals: Values, cid: u16, c: Cell): Values
  {
    if c.Absent? then vals else vals[cid := c]
  }

  /** One record; one for an unknown collectable changes nothing. */
  function ApplyTagged(env: Env, vals: Values, t: Tagged): Option<Values>
  {
    if t.cid !in env then Some(vals)
    else
      match Apply(env[t.cid], CellOf(vals, t.cid), t.rec)
      case None => None
      case Some(c) => Some(PutCell(vals, t.cid, c))
  }

  function ApplyAll(env: Env, vals: Values, ts: seq<Tagged>): Option<Values>
    decreases |ts|
  {
    if ts == [] then Some(vals)
    else
      match ApplyTagged(env, vals, ts[0])
      case None => None
      case Some(vals') => ApplyAll(env, vals', ts[1..])
  }

  function ShowBlob(env: Env, vals: Values, blob: Bytes): Option<Values>
  {
    match ReadAll(env, blob)
    case None => None
    case Some(ts) => ApplyAll(env, vals, ts)
  }

  function ReplayRows(env: Env, vals: Values, rows: seq<Row>): Option<Values>
    decreases |rows|
  {
    if rows == [] then Some(vals)
    else
      match ReplayRows(env, vals, Init(rows))
      case None => None
      case Some(vals') => ShowBlob(env, vals', Last(rows).blob)
  }

  // ----- one collectable among many -----

  function Only(ts: seq<Tagged>, cid: u16): seq<Record>
  {
    if ts == [] then [] else (if ts[0].cid == cid then [ts[0].rec] else []) + Only(ts[1..], cid)
  }

  lemma {:induction false} OnlyConcat(a: seq<Tagged>, b: seq<Tagged>, cid: u16)
    ensures Only(a + b, cid) == Only(a, cid) + Only(b, cid)
  {
    if a == [] {
      assert a + b == b;
    } else {
      OnlyConcat(a[1..], b, cid);
      FirstOf(a, b);
      Grouped(if a[0].cid == cid then [a[0].rec] else [], Only(a[1..], cid), Only(b, cid));
    }
  }

  lemma FirstOf(a: seq<Tagged>, b: seq<Tagged>)
    requires a != []
    ensures (a + b)[0] == a[0] && (a + b)[1..] == a[1..] + b
  {
  }

  lemma Grouped(a: seq<Record>, b: seq<Record>, c: seq<Record>)
    ensures (a + b) + c == a + (b + c)
  {
  }

  lemma {:induction false} OnlyTagged(c: u16, rs: seq<Record>, cid: u16)
    ensures Only(TagAll(c, rs), cid) == if c == cid then rs else []
  {
    if rs != [] {
      OnlyTagged(c, rs[1..], cid);
      assert TagAll(c, rs)[1..] == TagAll(c, rs[1..]);
      assert rs == [rs[0]] + rs[1..];
    }
  }

  ghost predicate Distinct(order: seq<u16>)
  {
    forall i, j :: 0 <= i < j < |order| ==> order[i] != order[j]
  }

  lemma {:induction false} OnlyGathered(hb: nat, ticks: seq<Tick>, order: seq<u16>, cid: u16)
    requires ticks != [] && Distinct(order)
    ensures Only(Gather(hb, ticks, order), cid) == if cid in order then Sends(hb, RunOf(ticks, cid)) else []
  {
    if order != [] {
      var rs := Sends(hb, RunOf(ticks, order[0]));
      OnlyConcat(TagAll(order[0], rs), Gather(hb, ticks, order[1..]), cid);
      OnlyTagged(order[0], rs, cid);
      OnlyGathered(hb, ticks, order[1..], cid);
      assert forall i :: 0 < i < |order| ==> order[i] == order[1..][i - 1];
    }
  }

  /** If every collectable's own records can be replayed, the mixed stream can, and each cell is the same. */
  lemma {:induction false} ApplyAllProjects(env: Env, vals: Values, ts: seq<Tagged>)
    requires forall cid :: cid in env ==> Replay(env[cid], CellOf(vals, cid), Only(ts, cid)).Some?
    ensures ApplyAll(env, vals, ts).Some?
    ensures forall cid :: cid in env ==>
              CellOf(ApplyAll(env, vals, ts).value, cid) == Replay(env[cid], CellOf(vals, cid), Only(ts, cid)).value
    decreases |ts|
  {
    if ts != [] {
      var t := ts[0];
      assert t.cid in env ==> Only(ts, t.cid)[0] == t.rec && Only(ts, t.cid)[1..] == Only(ts[1..], t.cid);
      var vals' := ApplyTagged(env, vals, t).value;
      forall cid | cid in env
        ensures Replay(env[cid], CellOf(vals', cid), Only(ts[1..], cid)) ==
                  Replay(env[cid], CellOf(vals, cid), Only(ts, cid))
      {
        if cid == t.cid {
          KnownStaysKnown(env[cid], CellOf(vals, cid), t.rec);
        } else {
          assert Only(ts, cid) == Only(ts[1..], cid);
        }
      }
      ApplyAllProjects(env, vals', ts[1..]);
    }
  }

  lemma KnownStaysKnown(kind: Kind, c: Cell, r: Record)
    requires Apply(kind, c, r).Some?
    ensures Apply(kind, c, r).value.Absent? ==> c.Absent?
  {
    LateRecord(kind, c, r);
  }
}
