/** Table definitions, the rows that keep them in a database, and when reading the rows gives the definitions back. */
module SchemaRows {
  import opened Bytes
  import opened SchemaText

  datatype SqlType = Int32 | UInt32 | Int64 | UInt64 | Double | Text | Blob

  datatype Column = Column(name: string, sqlType: SqlType, defaultValue: string, unique: bool)

  /** A table; indexes holds the column lists that createCompoundIndexOn was called with. */
  datatype TableDef = TableDef(name: string, columns: seq<Column>, indexes: seq<seq<string>>, primaryKey: string)

  datatype TableRow = TableRow(name: string, indexed: string, primaryKey: string)

  datatype ColumnRow = ColumnRow(table: string, name: string, typeName: string, defaultValue: string)

  function TypeName(t: SqlType): string
  {
    match t
    case Int32 => "int32_t"
    case UInt32 => "uint32_t"
    case Int64 => "int64_t"
    case UInt64 => "uint64_t"
    case Double => "double_t"
    case Text => "string_t"
    case Blob => "blob_t"
  }

  function TypeOf(name: string): (t: Option<SqlType>)
    ensures t.Some? ==> TypeName(t.value) == name
  {
    if name == "int32_t" then Some(Int32)
    else if name == "uint32_t" then Some(UInt32)
    else if name == "int64_t" then Some(Int64)
    else if name == "uint64_t" then Some(UInt64)
    else if name == "double_t" then Some(Double)
    else if name == "string_t" then Some(Text)
    else if name == "blob_t" then Some(Blob)
    else None
  }

  predicate HasColumn(columns: seq<Column>, name: string)
  {
    exists i :: 0 <= i < |columns| && columns[i].name == name
  }

  predicate AllColumns(columns: seq<Column>, names: seq<string>)
  {
    forall i :: 0 <= i < |names| ==> HasColumn(columns, names[i])
  }

  predicate AllIn(columns: seq<Column>, lists: seq<seq<string>>)
  {
    forall i :: 0 <= i < |lists| ==> AllColumns(columns, lists[i])
  }

  predicate ValidKey(columns: seq<Column>, primaryKey: string)
  {
    primaryKey == "" || primaryKey == "Id" || HasColumn(columns, primaryKey)
  }

  predicate CanAdd(columns: seq<Column>, name: string)
  {
    !HasColumn(columns, name) && name != "Id"
  }

  predicate Addable(columns: seq<Column>)
  {
    forall i :: 0 <= i < |columns| ==> CanAdd(columns[..i], columns[i].name)
  }

  /** What the assertions of Table let through. */
  predicate Built(d: TableDef)
  {
    Addable(d.columns) && AllIn(d.columns, d.indexes) && ValidKey(d.columns, d.primaryKey)
  }

  /** getTableIndexes. */
  function TableIndexes(lists: seq<seq<string>>): (r: seq<seq<string>>)
    ensures |r| == |lists| && forall i :: 0 <= i < |lists| ==> r[i] == Listed(lists[i])
  {
    if lists == [] then [] else [Listed(lists[0])] + TableIndexes(lists[1..])
  }

  predicate SameColumn(a: Column, b: Column)
  {
    a.name == b.name && a.sqlType == b.sqlType && a.defaultValue == b.defaultValue
  }

  predicate SameColumns(a: seq<Column>, b: seq<Column>)
  {
    |a| == |b| && forall i :: 0 <= i < |a| ==> SameColumn(a[i], b[i])
  }

  /** operator== of Table. */
  predicate SameTable(a: TableDef, b: TableDef)
  {
    a.name == b.name && SameColumns(a.columns, b.columns) && TableIndexes(a.indexes) == TableIndexes(b.indexes)
    && a.primaryKey == b.primaryKey
  }

  /** operator== by fields: tables that differ in the primary key, or in name, type or default value of a column, are
      not equal. */
  lemma SameTableIs(a: TableDef, b: TableDef)
    ensures SameTable(a, b) <==>
            && a.name == b.name && a.primaryKey == b.primaryKey && |a.columns| == |b.columns|
            && (forall i :: 0 <= i < |a.columns| ==>
                  && a.columns[i].name == b.columns[i].name
                  && a.columns[i].sqlType == b.columns[i].sqlType
                  && a.columns[i].defaultValue == b.columns[i].defaultValue)
            && |a.indexes| == |b.indexes|
            && (forall i :: 0 <= i < |a.indexes| ==> Listed(a.indexes[i]) == Listed(b.indexes[i]))
  {
    hide Listed;
  }

  // ----- writing -----

  function IndexedColumns(d: TableDef): string
  {
    Join(JoinAll(TableIndexes(d.indexes)), '|')
  }

  function TableRowOf(d: TableDef): TableRow
  {
    TableRow(d.name, IndexedColumns(d), d.primaryKey)
  }

  function ColumnRowsOf(table: string, columns: seq<Column>): (rows: seq<ColumnRow>)
    ensures |rows| == |columns|
  {
    if columns == [] then []
    else
      var c := Last(columns);
      ColumnRowsOf(table, columns[..|columns| - 1]) + [ColumnRow(table, c.name, TypeName(c.sqlType), c.defaultValue)]
  }

  function TableRows(tables: seq<TableDef>): (rows: seq<TableRow>)
    ensures |rows| == |tables| && forall i :: 0 <= i < |tables| ==> rows[i] == TableRowOf(tables[i])
  {
    if tables == [] then [] else TableRows(tables[..|tables| - 1]) + [TableRowOf(Last(tables))]
  }

  function ColumnRows(tables: seq<TableDef>): seq<ColumnRow>
  {
    if tables == [] then []
    else ColumnRows(tables[..|tables| - 1]) + ColumnRowsOf(Last(tables).name, Last(tables).columns)
  }

  // ----- reading; None is an exception -----

  /** SELECT ... WHERE TableName = table. */
  function Where(rows: seq<ColumnRow>, table: string): seq<ColumnRow>
  {
    if rows == [] then []
    else Where(rows[..|rows| - 1], table) + if Last(rows).table == table then [Last(rows)] else []
  }

  function ReadColumns(rows: seq<ColumnRow>): (columns: Option<seq<Column>>)
    ensures columns.Some? ==> |columns.value| == |rows|
  {
    if rows == [] then Some([])
    else
      var cs, row := ReadColumns(rows[..|rows| - 1]), Last(rows);
      if cs.Some? && TypeOf(row.typeName).Some? && CanAdd(cs.value, row.name)
      then Some(cs.value + [Column(row.name, TypeOf(row.typeName).value, row.defaultValue, false)])
      else None
  }

  function ReadIndexes(indexed: string): seq<seq<string>>
  {
    if indexed == "" then [] else SplitAll(Split(indexed, '|'))
  }

  function ReadTable(row: TableRow, columnRows: seq<ColumnRow>): Option<TableDef>
  {
    var cs, lists := ReadColumns(Where(columnRows, row.name)), ReadIndexes(row.indexed);
    if cs.Some? && AllIn(cs.value, lists) && ValidKey(cs.value, row.primaryKey)
    then Some(TableDef(row.name, cs.value, lists, row.primaryKey))
    else None
  }

  predicate HasTable(tables: seq<TableDef>, name: string)
  {
    exists i :: 0 <= i < |tables| && tables[i].name == name
  }

  function Extend(tables: Option<seq<TableDef>>, table: Option<TableDef>): Option<seq<TableDef>>
  {
    if tables.None? || table.None? || HasTable(tables.value, table.value.name) then None
    else Some(tables.value + [table.value])
  }

  function ReadSchema(rows: seq<TableRow>, columnRows: seq<ColumnRow>): Option<seq<TableDef>>
  {
    if rows == [] then Some([])
    else Extend(ReadSchema(rows[..|rows| - 1], columnRows), ReadTable(Last(rows), columnRows))
  }

  // ----- the columns come back -----

  /** The columns without UNIQUE, which no row keeps and operator== does not compare. */
  function Plain(columns: seq<Column>): (r: seq<Column>)
    ensures |r| == |columns| && forall i :: 0 <= i < |r| ==> r[i] == columns[i].(unique := false)
  {
    if columns == [] then [] else Plain(columns[..|columns| - 1]) + [Last(columns).(unique := false)]
  }

  lemma TypeComesBack(t: SqlType)
    ensures TypeOf(TypeName(t)) == Some(t)
  {
  }

  lemma {:induction false} ColumnsComeBack(table: string, columns: seq<Column>)
    requires Addable(columns)
    ensures ReadColumns(ColumnRowsOf(table, columns)) == Some(Plain(columns))
  {
    hide TypeOf, TypeName, HasColumn;
    if columns != [] {
      var front := columns[..|columns| - 1];
      TypeComesBack(Last(columns).sqlType);
      assert Addable(front) by {
        assert forall i :: 0 <= i < |front| ==> front[..i] == columns[..i] && front[i] == columns[i];
      }
      ColumnsComeBack(table, front);
      PlainHas(front, Last(columns).name);
      assert ColumnRowsOf(table, columns)[..|front|] == ColumnRowsOf(table, front);
    }
  }

  lemma PlainHas(columns: seq<Column>, name: string)
    ensures HasColumn(Plain(columns), name) <==> HasColumn(columns, name)
  {
    if HasColumn(columns, name) {
      var i :| 0 <= i < |columns| && columns[i].name == name;
      assert Plain(columns)[i].name == name;
    }
  }

  lemma PlainHasAll(columns: seq<Column>, lists: seq<seq<string>>)
    ensures AllIn(Plain(columns), lists) <==> AllIn(columns, lists)
  {
    forall i, k | 0 <= i < |lists| && 0 <= k < |lists[i]|
      ensures HasColumn(Plain(columns), lists[i][k]) <==> HasColumn(columns, lists[i][k])
    {
      PlainHas(columns, lists[i][k]);
    }
  }

  // ----- the indexes -----

  predicate BarFree(lists: seq<seq<string>>)
  {
    forall i :: 0 <= i < |lists| ==> Free(lists[i], '|')
  }

  /** When the index lists survive: a caller sees it from getTableIndexes and the column names. */
  predicate IndexesSurvive(d: TableDef)
  {
    var p := TableIndexes(d.indexes);
    p != [[""]] && BarFree(p) && AllIn(d.columns, p)
  }

  lemma JoinAllFree(lists: seq<seq<string>>)
    ensures Free(JoinAll(lists), '|') <==> BarFree(lists)
  {
    forall i | 0 <= i < |lists| ensures '|' in JoinAll(lists)[i] <==> !Free(lists[i], '|') {
      InJoin(lists[i], ',', '|');
    }
  }

  lemma IndexesComeBack(lists: seq<seq<string>>)
    ensures var p := TableIndexes(lists);
            var r := ReadIndexes(Join(JoinAll(p), '|'));
            if p != [[""]] && BarFree(p) then r == p && TableIndexes(r) == p else TableIndexes(r) != p
  {
    var p := TableIndexes(lists);
    var js := JoinAll(p);
    var text := Join(js, '|');
    JoinEmpty(js, '|');
    if |p| > 0 { JoinEmpty(p[0], ','); }
    assert text == "" <==> p == [] || p == [[""]];
    JoinAllFree(p);
    if text != "" {
      SplitJoin(js, '|');
      ListsComeBack(lists);
    }
  }

  lemma ListsComeBack(lists: seq<seq<string>>)
    ensures var p := TableIndexes(lists);
            SplitAll(JoinAll(p)) == p && TableIndexes(p) == p
  {
    var p := TableIndexes(lists);
    forall i | 0 <= i < |p| ensures Split(Join(p[i], ','), ',') == p[i] && Listed(p[i]) == p[i] {
      ListedIsPlain(lists[i]);
      SplitJoin(p[i], ',');
      ListedExact(p[i]);
    }
  }

  // ----- a whole schema -----

  /** The tables have different names, as addTable and appendSchema see to. */
  predicate Distinct(tables: seq<TableDef>)
  {
    forall i, j :: 0 <= i < j < |tables| ==> tables[i].name != tables[j].name
  }

  lemma {:induction false} WhereConcat(a: seq<ColumnRow>, b: seq<ColumnRow>, name: string)
    ensures Where(a + b, name) == Where(a, name) + Where(b, name)
  {
    if b == [] {
      assert a + b == a;
    } else {
      WhereConcat(a, b[..|b| - 1], name);
      assert (a + b)[..|a + b| - 1] == a + b[..|b| - 1];
    }
  }

  lemma {:induction false} WhereOne(table: string, columns: seq<Column>, name: string)
    ensures Where(ColumnRowsOf(table, columns), name) == if table == name then ColumnRowsOf(table, columns) else []
  {
    if columns != [] {
      var front := columns[..|columns| - 1];
      WhereOne(table, front, name);
      assert ColumnRowsOf(table, columns)[..|front|] == ColumnRowsOf(table, front);
    }
  }

  lemma {:induction false} WhereNone(tables: seq<TableDef>, name: string)
    requires !HasTable(tables, name)
    ensures Where(ColumnRows(tables), name) == []
  {
    if tables != [] {
      var front, d := tables[..|tables| - 1], Last(tables);
      assert tables[|tables| - 1].name == d.name;
      WhereNone(front, name);
      WhereConcat(ColumnRows(front), ColumnRowsOf(d.name, d.columns), name);
      WhereOne(d.name, d.columns, name);
    }
  }

  /** Each table finds its own column rows, in order. */
  lemma {:induction false} WhereOwn(tables: seq<TableDef>, i: nat)
    requires i < |tables| && Distinct(tables)
    ensures Where(ColumnRows(tables), tables[i].name) == ColumnRowsOf(tables[i].name, tables[i].columns)
  {
    hide Where, ColumnRowsOf, Distinct, HasTable;
    var front, d, name := tables[..|tables| - 1], Last(tables), tables[i].name;
    LastIsNew(tables);
    WhereConcat(ColumnRows(front), ColumnRowsOf(d.name, d.columns), name);
    WhereOne(d.name, d.columns, name);
    if i < |front| {
      WhereOwn(front, i);
    } else {
      WhereNone(front, name);
    }
  }

  lemma LastIsNew(tables: seq<TableDef>)
    requires tables != [] && Distinct(tables)
    ensures var front, d := tables[..|tables| - 1], Last(tables);
            && Distinct(front) && !HasTable(front, d.name)
            && forall i :: 0 <= i < |front| ==> front[i] == tables[i] && tables[i].name != d.name
  {
  }

  /** Reading one table back succeeds with an equal table exactly if its index lists survive. */
  lemma TableComesBack(d: TableDef, columnRows: seq<ColumnRow>)
    requires Built(d)
    requires Where(columnRows, d.name) == ColumnRowsOf(d.name, d.columns)
    ensures var r := ReadTable(TableRowOf(d), columnRows);
            && (r.Some? && SameTable(r.value, d) <==> IndexesSurvive(d))
            && (r.Some? ==> r.value.name == d.name)
  {
    ColumnsComeBack(d.name, d.columns);
    IndexesComeBack(d.indexes);
    PlainHas(d.columns, d.primaryKey);
    PlainHasAll(d.columns, TableIndexes(d.indexes));
    hide TableIndexes, ReadIndexes, BarFree, AllIn, HasColumn;
  }

  predicate AllBuilt(tables: seq<TableDef>)
  {
    forall i :: 0 <= i < |tables| ==> Built(tables[i])
  }

  predicate AllSurvive(tables: seq<TableDef>)
  {
    forall i :: 0 <= i < |tables| ==> IndexesSurvive(tables[i])
  }

  predicate SameTables(a: seq<TableDef>, b: seq<TableDef>)
  {
    |a| == |b| && forall i :: 0 <= i < |a| ==> SameTable(a[i], b[i])
  }

  predicate SameNames(a: seq<TableDef>, b: seq<TableDef>)
  {
    |a| == |b| && forall i :: 0 <= i < |a| ==> a[i].name == b[i].name
  }

  lemma Append(a: seq<TableDef>, x: TableDef, b: seq<TableDef>, y: TableDef)
    requires |a| == |b|
    ensures SameTables(a + [x], b + [y]) <==> SameTables(a, b) && SameTable(x, y)
    ensures AllSurvive(b + [y]) <==> AllSurvive(b) && IndexesSurvive(y)
    ensures SameNames(a, b) && Distinct(b + [y]) ==> !HasTable(a, y.name)
  {
    hide SameTable, IndexesSurvive;
    var c, d := a + [x], b + [y];
    assert forall i :: 0 <= i < |a| ==> c[i] == a[i] && d[i] == b[i];
    assert c[|a|] == x && d[|a|] == y;
  }

  /** The rows of these tables are read as r: the right tables, and equal ones exactly if all indexes survive. */
  predicate ReadAs(r: Option<seq<TableDef>>, tables: seq<TableDef>)
  {
    && (r.Some? ==> SameNames(r.value, tables))
    && (r.Some? && SameTables(r.value, tables) <==> AllSurvive(tables))
  }

  lemma ReadStep(r: Option<seq<TableDef>>, t: Option<TableDef>, tables: seq<TableDef>, d: TableDef)
    requires Distinct(tables + [d]) && ReadAs(r, tables)
    requires t.Some? ==> t.value.name == d.name
    requires t.Some? && SameTable(t.value, d) <==> IndexesSurvive(d)
    ensures ReadAs(Extend(r, t), tables + [d])
  {
    hide IndexesSurvive, SameTable, HasTable, SameTables, AllSurvive;
    Append(tables, d, tables, d);
    if r.Some? && t.Some? { Append(r.value, t.value, tables, d); }
  }

  /** Every table finds its own rows among these. */
  predicate Own(tables: seq<TableDef>, rows: seq<ColumnRow>)
  {
    forall i :: 0 <= i < |tables| ==> Where(rows, tables[i].name) == ColumnRowsOf(tables[i].name, tables[i].columns)
  }

  lemma {:induction false} ReadAll(tables: seq<TableDef>, rows: seq<ColumnRow>)
    requires Distinct(tables) && AllBuilt(tables) && Own(tables, rows)
    ensures ReadAs(ReadSchema(TableRows(tables), rows), tables)
  {
    hide IndexesSurvive, SameTable, AllBuilt, Built, Own, Distinct, ColumnRowsOf, Where;
    hide ReadTable, ReadAs, Extend, TableRowOf;
    if tables == [] {
      NothingSurvives();
    } else {
      var front, d := tables[..|tables| - 1], Last(tables);
      FrontIsFine(tables, rows);
      ReadAll(front, rows);
      TableComesBack(d, rows);
      assert tables == front + [d];
      ReadStep(ReadSchema(TableRows(front), rows), ReadTable(TableRowOf(d), rows), front, d);
    }
  }

  lemma FrontIsFine(tables: seq<TableDef>, rows: seq<ColumnRow>)
    requires tables != [] && Distinct(tables) && AllBuilt(tables) && Own(tables, rows)
    ensures var front, d := tables[..|tables| - 1], Last(tables);
            Distinct(front) && AllBuilt(front) && Own(front, rows) && Built(d)
            && Where(rows, d.name) == ColumnRowsOf(d.name, d.columns)
  {
    hide Built, Where, ColumnRowsOf;
  }

  lemma NothingSurvives()
    ensures ReadAs(Some([]), [])
  {
  }

  /** The round trip: reconstituting the rows of a schema gives equal tables, in order, exactly if for every table
      getTableIndexes lists only columns of the table without a vertical bar, and is not just one empty name. */
  lemma SchemaRoundTrip(tables: seq<TableDef>)
    requires Distinct(tables) && AllBuilt(tables)
    ensures var r := ReadSchema(TableRows(tables), ColumnRows(tables));
            r.Some? && SameTables(r.value, tables) <==> AllSurvive(tables)
  {
    forall i | 0 <= i < |tables|
      ensures Where(ColumnRows(tables), tables[i].name) == ColumnRowsOf(tables[i].name, tables[i].columns)
    {
      WhereOwn(tables, i);
    }
    ReadAll(tables, ColumnRows(tables));
  }

  // ----- names as one would choose them -----

  /** Nothing in the name that the texts use: no separator, no opening parenthesis, no space at either end. */
  predicate PlainName(name: string)
  {
    name != "" && ',' !in name && '(' !in name && '|' !in name && Trim(name) == name
  }

  predicate PlainNames(columns: seq<Column>)
  {
    forall i :: 0 <= i < |columns| ==> PlainName(columns[i].name)
  }

  /** With plain column names getTableIndexes gives every non-empty list back as it was passed in, and the indexes
      survive exactly if no list was empty. */
  lemma PlainNamesExact(d: TableDef)
    requires Built(d) && PlainNames(d.columns)
    ensures forall i :: 0 <= i < |d.indexes| && d.indexes[i] != [] ==> TableIndexes(d.indexes)[i] == d.indexes[i]
    ensures IndexesSurvive(d) <==> forall i :: 0 <= i < |d.indexes| ==> d.indexes[i] != []
  {
    var p := TableIndexes(d.indexes);
    forall i | 0 <= i < |d.indexes|
      ensures if d.indexes[i] == [] then p[i] == [""] && !AllColumns(d.columns, p[i])
              else p[i] == d.indexes[i] && p[i] != [""] && AllColumns(d.columns, p[i]) && Free(p[i], '|')
    {
      ListSurvives(d.columns, d.indexes[i]);
    }
  }

  lemma ListSurvives(columns: seq<Column>, names: seq<string>)
    requires PlainNames(columns) && AllColumns(columns, names)
    ensures names == [] ==> Listed(names) == [""] && !AllColumns(columns, [""])
    ensures names != [] ==> Listed(names) == names && names != [""] && Free(names, '|')
  {
    if names == [] {
      assert !HasColumn(columns, [""][0]);
    } else {
      forall i | 0 <= i < |names| ensures PlainName(names[i]) {
        assert HasColumn(columns, names[i]);
      }
      ListedExact(names);
      assert PlainName(names[0]);
    }
  }

  /** A table that the assertions of Table let through and its rows would not give back: an index on no column. Its
      rows are never written, though: SQLite refuses the command that creates such an index, which comes first. */
  lemma EmptyIndexIsLost()
    ensures var t := TableDef("T", [Column("a", Int32, "", false)], [[]], "Id");
            Built(t) && !IndexesSurvive(t)
  {
    var t := TableDef("T", [Column("a", Int32, "", false)], [[]], "Id");
    PlainNamesExact(t);
  }

  /** And others: an index on a column with a vertical bar in its name. */
  lemma BarIsLost(name: string)
    requires '|' in name && ',' !in name && '(' !in name && Trim(name) == name
    ensures var t := TableDef("T", [Column(name, Int32, "", false)], [[name]], "Id");
            Built(t) && !IndexesSurvive(t)
  {
    var t := TableDef("T", [Column(name, Int32, "", false)], [[name]], "Id");
    assert t.columns[0].name == name;
    ListedExact([name]);
    assert TableIndexes(t.indexes)[0] == [name];
    assert !Free([name], '|') by { assert '|' in [name][0]; }
  }

  /** A name that SQLite takes, as it is in brackets. */
  lemma BracketsAreLost()
    ensures var t := TableDef("T", [Column("[a|b]", Int32, "", false)], [["[a|b]"]], "Id");
            Built(t) && !IndexesSurvive(t)
  {
    var name := "[a|b]";
    assert name[2] == '|';
    BarIsLost(name);
  }
}
