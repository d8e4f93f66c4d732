/** Tables as objects that are built call by call, and the two ends of the schema in the database file. */
module SchemaStore {
  import opened Bytes
  import opened SchemaText
  import opened SchemaRows

  class Table {
    const name: string
    var columns: seq<Column>
    var commands: seq<string>
    var primaryKey: string
    ghost var indexes: seq<seq<string>>

    ghost function Contents(): TableDef
      reads this
    {
      TableDef(name, columns, indexes, primaryKey)
    }

    ghost predicate Valid()
      reads this
    {
      Built(Contents()) && |commands| == |indexes|
      && forall i :: 0 <= i < |commands| ==> commands[i] == Command(name, i + 1, indexes[i])
    }

    constructor (tableName: string)
      ensures Valid() && Contents() == TableDef(tableName, [], [], "Id")
    {
      name := tableName;
      columns, commands, primaryKey, indexes := [], [], "Id", [];
    }

    /** false is a failed assertion, here and below. */
    method AddColumn(column: string, sqlType: SqlType) returns (ok: bool)
      requires Valid()
      modifies this
      ensures Valid() && ok == CanAdd(old(columns), column)
      ensures ok <==> column != "Id" && forall k :: 0 <= k < |old(columns)| ==> old(columns)[k].name != column
      ensures Contents() == if ok then old(Contents()).(columns := old(columns) + [Column(column, sqlType, "", false)])
                            else old(Contents())
    {
      var i := IndexOf(column);
      ok := i == |columns| && column != "Id";
      if ok {
        KeepsBuilt(Contents(), Column(column, sqlType, "", false));
        columns := columns + [Column(column, sqlType, "", false)];
      }
    }

    method IndexOf(column: string) returns (i: nat)
      ensures i <= |columns| && (i < |columns| <==> HasColumn(columns, column))
      ensures i < |columns| ==> columns[i].name == column
    {
      i := 0;
      while i < |columns| && columns[i].name != column
        invariant i <= |columns| && forall k :: 0 <= k < i ==> columns[k].name != column
      {
        i := i + 1;
      }
    }

    /** Gives the column of that name a default value. */
    method SetDefaultValueStr(column: string, value: string) returns (ok: bool)
      requires Valid()
      modifies this
      ensures Valid() && ok == HasColumn(old(columns), column)
      ensures Contents() == old(Contents()).(columns := columns) && |columns| == |old(columns)|
      ensures forall k :: 0 <= k < |columns| ==>
                            columns[k] == if old(columns)[k].name == column then old(columns)[k].(defaultValue := value)
                                          else old(columns)[k]
    {
      var i := IndexOf(column);
      ok := i < |columns|;
      if ok {
        var changed := columns[i := columns[i].(defaultValue := value)];
        OneOfEachName(columns, i);
        SameNamesBuilt(Contents(), changed);
        columns := changed;
      }
    }

    /** Marks the column of that name UNIQUE; one with a default value cannot be. */
    method EnsureUnique(column: string) returns (ok: bool)
      requires Valid()
      modifies this
      ensures Valid() && Contents() == old(Contents()).(columns := columns) && |columns| == |old(columns)|
      ensures ok <==> exists k :: 0 <= k < |old(columns)|
                                  && old(columns)[k].name == column && old(columns)[k].defaultValue == ""
      ensures forall k :: 0 <= k < |columns| ==>
                            columns[k] == if ok && old(columns)[k].name == column then old(columns)[k].(unique := true)
                                          else old(columns)[k]
    {
      var i := IndexOf(column);
      ok := i < |columns| && columns[i].defaultValue == "";
      if i < |columns| { OneOfEachName(columns, i); }
      if ok {
        var changed := columns[i := columns[i].(unique := true)];
        SameNamesBuilt(Contents(), changed);
        columns := changed;
      }
    }

    method CreateCompoundIndexOn(names: seq<string>) returns (ok: bool)
      requires Valid()
      modifies this
      ensures Valid() && columns == old(columns) && ok == AllColumns(columns, names)
      ensures ok <==> forall n :: n in names ==> exists k :: 0 <= k < |columns| && columns[k].name == n
      ensures Contents() == if ok then old(Contents()).(indexes := old(indexes) + [names]) else old(Contents())
    {
      for i := 0 to |names|
        invariant unchanged(this) && AllColumns(columns, names[..i])
      {
        var at := IndexOf(names[i]);
        if at == |columns| {
          assert names[i] in names && !HasColumn(columns, names[i]);
          return false;
        }
      }
      assert names[..|names|] == names;
      var list := CommaSepStringList(names);
      commands := commands + [CommandHead(name, |commands| + 1) + "(" + list + ")"];
      indexes := indexes + [names];
      ok := true;
    }

    method GetTableIndexes() returns (lists: seq<seq<string>>)
      requires Valid()
      ensures lists == TableIndexes(indexes)
    {
      hide Built, Command, LastIndex, Split, TrimAll, Listed;
      lists := [];
      for i := 0 to |commands|
        invariant |lists| == i && forall k :: 0 <= k < i ==> lists[k] == Listed(indexes[k])
      {
        CommandParses(name, i + 1, indexes[i]);
        var names := NamesIn(commands[i]);
        lists := lists + [names];
      }
    }

    method SetPrimaryKey(key: string) returns (ok: bool)
      requires Valid()
      modifies this
      ensures Valid() && columns == old(columns) && ok == ValidKey(columns, key)
      ensures ok <==> key == "" || key == "Id" || exists k :: 0 <= k < |columns| && columns[k].name == key
      ensures Contents() == if ok then old(Contents()).(primaryKey := key) else old(Contents())
    {
      var i := IndexOf(key);
      ok := key == "" || key == "Id" || i < |columns|;
      if ok { primaryKey := key; }
    }

    /** operator== */
    method Equals(that: Table) returns (same: bool)
      requires Valid() && that.Valid()
      ensures same == SameTable(Contents(), that.Contents())
      ensures same ==> name == that.name && primaryKey == that.primaryKey && |columns| == |that.columns|
      ensures same ==> forall i :: 0 <= i < |columns| ==>
                         && columns[i].name == that.columns[i].name && columns[i].sqlType == that.columns[i].sqlType
                         && columns[i].defaultValue == that.columns[i].defaultValue
    {
      SameTableIs(Contents(), that.Contents());
      if name != that.name || |columns| != |that.columns| { return false; }
      for i := 0 to |columns|
        invariant forall k :: 0 <= k < i ==> SameColumn(columns[k], that.columns[k])
      {
        if !SameColumn(columns[i], that.columns[i]) { return false; }
      }
      var mine := GetTableIndexes();
      var theirs := that.GetTableIndexes();
      same := mine == theirs && primaryKey == that.primaryKey;
    }
  }

  lemma KeepsBuilt(d: TableDef, c: Column)
    requires Built(d) && CanAdd(d.columns, c.name)
    ensures Built(d.(columns := d.columns + [c]))
  {
    var columns := d.columns + [c];
    forall i | 0 <= i < |columns| ensures CanAdd(columns[..i], columns[i].name) {
      assert columns[..i] == d.columns[..i];
    }
    assert forall n :: HasColumn(d.columns, n) ==> HasColumn(columns, n) by {
      forall n | HasColumn(d.columns, n) ensures HasColumn(columns, n) {
        var i :| 0 <= i < |d.columns| && d.columns[i].name == n;
        assert columns[i].name == n;
      }
    }
  }

  lemma OneOfEachName(columns: seq<Column>, i: nat)
    requires i < |columns| && Addable(columns)
    ensures forall k :: 0 <= k < |columns| && columns[k].name == columns[i].name ==> k == i
  {
    forall k | 0 <= k < |columns| && k != i ensures columns[k].name != columns[i].name {
      var late, early := if k < i then i else k, if k < i then k else i;
      assert CanAdd(columns[..late], columns[late].name);
      assert columns[..late][early] == columns[early];
    }
  }

  lemma SameNamesBuilt(d: TableDef, columns: seq<Column>)
    requires Built(d) && |columns| == |d.columns|
    requires forall i :: 0 <= i < |columns| ==> columns[i].name == d.columns[i].name
    ensures Built(d.(columns := columns))
  {
    forall i | 0 <= i < |columns| ensures CanAdd(columns[..i], columns[i].name) {
      assert CanAdd(d.columns[..i], d.columns[i].name);
      assert forall k :: 0 <= k < i ==> columns[..i][k].name == d.columns[..i][k].name;
    }
    assert forall n :: HasColumn(d.columns, n) ==> HasColumn(columns, n) by {
      forall n | HasColumn(d.columns, n) ensures HasColumn(columns, n) {
        var i :| 0 <= i < |d.columns| && d.columns[i].name == n;
        assert columns[i].name == n;
      }
    }
  }

  /** The trimmed names between the last parentheses of a command. */
  method NamesIn(cmd: string) returns (names: seq<string>)
    requires var l, r := LastIndex(cmd, '('), LastIndex(cmd, ')');
             l.Some? && r.Some? && l.value < r.value
    ensures names == TrimAll(Split(cmd[LastIndex(cmd, '(').value + 1..LastIndex(cmd, ')').value], ','))
  {
    var l, r := LastIndex(cmd, '('), LastIndex(cmd, ')');
    names := Split(cmd[l.value + 1..r.value], ',');
    ghost var before := names;
    for k := 0 to |names|
      invariant |names| == |before|
      invariant forall j :: 0 <= j < |names| ==> names[j] == if j < k then Trim(before[j]) else before[j]
    {
      names := names[k := Trim(names[k])];
    }
  }

  method CommaSepStringList(strings: seq<string>) returns (text: string)
    ensures text == Join(strings, ',')
  {
    text := "";
    for i := 0 to |strings|
      invariant Join(strings, ',') == text + Join(strings[i..], ',')
    {
      assert strings[i..][1..] == strings[i + 1..];
      text := text + strings[i];
      if i != |strings| - 1 { text := text + ","; }
    }
  }

  ghost predicate AllValid(tables: seq<Table>)
    reads set t | t in tables
  {
    forall i :: 0 <= i < |tables| ==> tables[i].Valid()
  }

  ghost function Defs(tables: seq<Table>): (ds: seq<TableDef>)
    reads set t | t in tables
    ensures |ds| == |tables| && forall i :: 0 <= i < |tables| ==> ds[i] == tables[i].Contents()
  {
    seq(|tables|, i requires 0 <= i < |tables| reads set t | t in tables => tables[i].Contents())
  }

  // ----- writing -----

  lemma {:induction false} JoinOneMore(ss: seq<string>, last: string, sep: char)
    ensures Join(ss + [last], sep) == if ss == [] then last else Join(ss, sep) + [sep] + last
  {
    if |ss| > 1 {
      JoinOneMore(ss[1..], last, sep);
      assert (ss + [last])[1..] == ss[1..] + [last];
    }
  }

  lemma JoinPrefix(ss: seq<string>, i: nat, sep: char)
    requires i < |ss|
    ensures Join(ss[..i + 1], sep) == if i == 0 then ss[0] else Join(ss[..i], sep) + [sep] + ss[i]
  {
    assert ss[..i + 1] == ss[..i] + [ss[i]];
    JoinOneMore(ss[..i], ss[i], sep);
  }

  /** The index lists of a table as one text, each closed with a bar and the last bar taken off. */
  method IndexText(table: Table) returns (text: string)
    requires table.Valid()
    ensures text == IndexedColumns(table.Contents())
  {
    hide Built, Listed, TableIndexes, Join, JoinAll;
    var lists := table.GetTableIndexes();
    ghost var js := JoinAll(lists);
    text := "";
    for i := 0 to |lists|
      invariant text == if i == 0 then "" else Join(js[..i], '|') + "|"
    {
      var list := CommaSepStringList(lists[i]);
      JoinPrefix(js, i, '|');
      text := text + list + "|";
    }
    assert js[..|lists|] == js;
    JoinEmpty(js, '|');
    if text != "" { text := text[..|text| - 1]; }
  }

  method WriteColumns(table: Table) returns (rows: seq<ColumnRow>)
    ensures rows == ColumnRowsOf(table.name, table.columns)
  {
    rows := [];
    for k := 0 to |table.columns|
      invariant rows == ColumnRowsOf(table.name, table.columns[..k])
    {
      var c := table.columns[k];
      assert table.columns[..k + 1][..k] == table.columns[..k];
      rows := rows + [ColumnRow(table.name, c.name, TypeName(c.sqlType), c.defaultValue)];
    }
    assert table.columns[..|table.columns|] == table.columns;
  }

  method SerializeSchema(tables: seq<Table>) returns (rows: seq<TableRow>, columnRows: seq<ColumnRow>)
    requires AllValid(tables)
    ensures rows == TableRows(Defs(tables)) && columnRows == ColumnRows(Defs(tables))
  {
    hide Built, IndexedColumns, ColumnRowsOf;
    rows, columnRows := [], [];
    ghost var ds := Defs(tables);
    for i := 0 to |tables|
      invariant rows == TableRows(ds[..i]) && columnRows == ColumnRows(ds[..i])
    {
      var table := tables[i];
      var indexed := IndexText(table);
      assert ds[..i + 1][..i] == ds[..i] && Last(ds[..i + 1]) == table.Contents();
      rows := rows + [TableRow(table.name, indexed, table.primaryKey)];
      var added := WriteColumns(table);
      columnRows := columnRows + added;
    }
    assert ds[..|tables|] == ds;
  }

  // ----- reading -----

  lemma {:induction false} ColumnFailureStays(rows: seq<ColumnRow>, n: nat)
    requires n <= |rows| && ReadColumns(rows[..n]).None?
    ensures ReadColumns(rows).None?
    decreases |rows|
  {
    if n == |rows| {
      assert rows[..n] == rows;
    } else {
      assert rows[..|rows| - 1][..n] == rows[..n];
      ColumnFailureStays(rows[..|rows| - 1], n);
    }
  }

  lemma {:induction false} TableFailureStays(rows: seq<TableRow>, columnRows: seq<ColumnRow>, n: nat)
    requires n <= |rows| && ReadSchema(rows[..n], columnRows).None?
    ensures ReadSchema(rows, columnRows).None?
    decreases |rows|
  {
    if n == |rows| {
      assert rows[..n] == rows;
    } else {
      assert rows[..|rows| - 1][..n] == rows[..n];
      TableFailureStays(rows[..|rows| - 1], columnRows, n);
    }
  }

  method AddRow(table: Table, row: ColumnRow) returns (ok: bool)
    requires table.Valid()
    modifies table
    ensures table.Valid() && table.Contents() == old(table.Contents()).(columns := table.columns)
    ensures ok == (TypeOf(row.typeName).Some? && CanAdd(old(table.columns), row.name))
    ensures ok ==> table.columns == old(table.columns)
                                    + [Column(row.name, TypeOf(row.typeName).value, row.defaultValue, false)]
  {
    hide Built, CanAdd;
    var t, n := TypeOf(row.typeName), |table.columns|;
    if t.None? { return false; }
    ok := table.AddColumn(row.name, t.value);
    if ok && row.defaultValue != "" {
      DistinctNames(table.Contents(), n);
      var _ := table.SetDefaultValueStr(row.name, row.defaultValue);
    }
  }

  lemma DistinctNames(d: TableDef, i: nat)
    requires Built(d) && i < |d.columns|
    ensures forall k :: 0 <= k < |d.columns| && d.columns[k].name == d.columns[i].name ==> k == i
  {
    OneOfEachName(d.columns, i);
  }

  method AddColumns(table: Table, rows: seq<ColumnRow>) returns (ok: bool)
    requires table.Valid() && table.columns == []
    modifies table
    ensures table.Valid() && table.Contents() == old(table.Contents()).(columns := table.columns)
    ensures if ok then ReadColumns(rows) == Some(table.columns) else ReadColumns(rows) == None
  {
    hide Built, CanAdd, TypeOf;
    for i := 0 to |rows|
      invariant table.Valid() && table.Contents() == old(table.Contents()).(columns := table.columns)
      invariant ReadColumns(rows[..i]) == Some(table.columns)
    {
      assert rows[..i + 1][..i] == rows[..i] && Last(rows[..i + 1]) == rows[i];
      var added := AddRow(table, rows[i]);
      if !added {
        ColumnFailureStays(rows, i + 1);
        return false;
      }
    }
    assert rows[..|rows|] == rows;
    ok := true;
  }

  method AddIndexes(table: Table, indexed: string) returns (ok: bool)
    requires table.Valid() && table.indexes == []
    modifies table
    ensures table.Valid() && ok == AllIn(old(table.columns), ReadIndexes(indexed))
    ensures ok ==> table.Contents() == old(table.Contents()).(indexes := ReadIndexes(indexed))
  {
    hide Built, AllColumns;
    if indexed == "" { return true; }
    var texts := Split(indexed, '|');
    ghost var lists := ReadIndexes(indexed);
    for i := 0 to |texts|
      invariant table.Valid() && table.Contents() == old(table.Contents()).(indexes := lists[..i])
      invariant AllIn(old(table.columns), lists[..i])
    {
      assert lists[..i + 1] == lists[..i] + [lists[i]];
      ok := table.CreateCompoundIndexOn(Split(texts[i], ','));
      if !ok { return; }
    }
    assert lists[..|texts|] == lists;
    ok := true;
  }

  method ReadTableBack(row: TableRow, columnRows: seq<ColumnRow>) returns (ok: bool, table: Table)
    ensures fresh(table) && table.name == row.name
    ensures if ok then table.Valid() && ReadTable(row, columnRows) == Some(table.Contents())
            else ReadTable(row, columnRows) == None
  {
    hide Built, AllIn, ReadIndexes, ReadColumns, ValidKey;
    table := new Table(row.name);
    ok := AddColumns(table, Where(columnRows, row.name));
    if ok { ok := AddIndexes(table, row.indexed); }
    if ok { ok := table.SetPrimaryKey(row.primaryKey); }
  }

  /** hasTable */
  predicate Named(tables: seq<Table>, name: string)
  {
    exists i :: 0 <= i < |tables| && tables[i].name == name
  }

  method ReconstituteSchema(rows: seq<TableRow>, columnRows: seq<ColumnRow>) returns (ok: bool, tables: seq<Table>)
    ensures forall t :: t in tables ==> fresh(t)
    ensures ok ==> AllValid(tables) && ReadSchema(rows, columnRows) == Some(Defs(tables))
    ensures !ok ==> ReadSchema(rows, columnRows) == None
  {
    hide Built, ReadTable;
    tables := [];
    for i := 0 to |rows|
      invariant forall t :: t in tables ==> fresh(t)
      invariant AllValid(tables) && ReadSchema(rows[..i], columnRows) == Some(Defs(tables))
    {
      assert rows[..i + 1][..i] == rows[..i] && Last(rows[..i + 1]) == rows[i];
      ghost var ds := Defs(tables);
      var added, table := ReadTableBack(rows[i], columnRows);
      assert Defs(tables) == ds;
      if !added || Named(tables, table.name) {
        TableFailureStays(rows, columnRows, i + 1);
        return false, tables;
      }
      tables := tables + [table];
      assert Defs(tables) == ds + [table.Contents()];
    }
    assert rows[..|rows|] == rows;
    ok := true;
  }

  /** Writing a schema and opening the file again. */
  method Reopen(tables: seq<Table>) returns (ok: bool, again: seq<Table>)
    requires AllValid(tables) && Distinct(Defs(tables))
    ensures ok ==> AllValid(again)
    ensures ok && SameTables(Defs(again), Defs(tables)) <==> AllSurvive(Defs(tables))
  {
    var rows, columnRows := SerializeSchema(tables);
    SchemaRoundTrip(Defs(tables));
    ok, again := ReconstituteSchema(rows, columnRows);
  }

  // ----- appending -----

  /** One table: appended if new by name, and otherwise compared with the one of its name. */
  method AppendTable(tables: seq<Table>, table: Table) returns (ok: bool, all: seq<Table>)
    requires AllValid(tables) && table.Valid() && Distinct(Defs(tables))
    ensures AllValid(all) && Distinct(Defs(all)) && (all == tables || all == tables + [table])
    ensures ok <==> Holds(Defs(all), table.Contents())
    ensures ok <==> forall i :: 0 <= i < |tables| && tables[i].name == table.name ==>
                                  SameTable(tables[i].Contents(), table.Contents())
    ensures forall d :: Holds(Defs(tables), d) ==> Holds(Defs(all), d)
  {
    hide Built, SameTable, Distinct;
    all := tables;
    var at := Find(tables, table.name);
    if at < |tables| {
      ok := tables[at].Equals(table);
      assert Defs(tables)[at] == tables[at].Contents();
      forall i | 0 <= i < |tables| && tables[i].name == table.name ensures i == at { OneOfName(Defs(tables), i, at); }
      if !ok { NotHeld(Defs(tables), at, table.Contents()); }
    } else {
      GrowsBy(Defs(tables), table.Contents());
      assert Defs(tables + [table]) == Defs(tables) + [table.Contents()];
      ok, all := true, tables + [table];
    }
  }

  /** Appends the tables that are new by name; fails exactly if one differs from the table of its name. */
  method AppendSchema(tables: seq<Table>, more: seq<Table>) returns (ok: bool, all: seq<Table>)
    requires AllValid(tables) && AllValid(more) && Distinct(Defs(tables))
    ensures AllValid(all) && Distinct(Defs(all))
    ensures tables <= all && forall t :: t in all ==> t in tables || t in more
    ensures ok <==> forall i :: 0 <= i < |more| ==> Holds(Defs(all), more[i].Contents())
  {
    hide Built, SameTable, Distinct, Holds;
    all := tables;
    for i := 0 to |more|
      invariant AllValid(all) && Distinct(Defs(all))
      invariant tables <= all && forall t :: t in all ==> t in tables || t in more
      invariant forall k :: 0 <= k < i ==> Holds(Defs(all), more[k].Contents())
    {
      ok, all := AppendTable(all, more[i]);
      if !ok { return; }
    }
    ok := true;
  }

  /** The tables have one that is equal. */
  predicate Holds(tables: seq<TableDef>, d: TableDef)
  {
    exists i :: 0 <= i < |tables| && SameTable(tables[i], d)
  }

  lemma OneOfName(tables: seq<TableDef>, i: nat, j: nat)
    requires Distinct(tables) && i < |tables| && j < |tables| && tables[i].name == tables[j].name
    ensures i == j
  {
  }

  lemma NotHeld(tables: seq<TableDef>, i: nat, d: TableDef)
    requires Distinct(tables) && i < |tables| && tables[i].name == d.name && !SameTable(tables[i], d)
    ensures !Holds(tables, d)
  {
  }

  lemma GrowsBy(tables: seq<TableDef>, d: TableDef)
    requires Distinct(tables) && !HasTable(tables, d.name)
    ensures Distinct(tables + [d]) && Holds(tables + [d], d)
    ensures forall x :: Holds(tables, x) ==> Holds(tables + [d], x)
  {
    var all := tables + [d];
    assert all[|tables|] == d;
    forall x | Holds(tables, x) ensures Holds(all, x) {
      var i :| 0 <= i < |tables| && SameTable(tables[i], x);
      assert SameTable(all[i], x);
    }
  }

  method Find(tables: seq<Table>, name: string) returns (i: nat)
    ensures i <= |tables| && (i < |tables| ==> tables[i].name == name)
    ensures i == |tables| ==> !Named(tables, name)
  {
    i := 0;
    while i < |tables| && tables[i].name != name
      invariant i <= |tables| && forall k :: 0 <= k < i ==> tables[k].name != name
    {
      i := i + 1;
    }
  }
}
