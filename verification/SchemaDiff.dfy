/** From a DDL event to the schema diff it stands for. */
module SchemaDiff {
  import opened Text
  import opened Regex
  import Decimal

  datatype Column = Column(attnum: int, name: string, typ: string, nullable: bool, default: Option<string>,
                           generated: bool, identity: Option<string>, unique: bool)

  /** A column of which only the name is known. */
  function NamedColumn(name: string): (c: Column)
    ensures c.name == name && c.typ == "" && !c.nullable && c.default == None
  {
    Column(0, name, "", false, None, false, None, false)
  }

  datatype Object = Object(typ: string, identity: string, schema: string, oid: string, pgstreamID: string,
                           columns: seq<Column>, primaryKeyColumns: seq<string>)

  datatype Event = Event(ddl: string, schemaName: string, commandTag: string, objects: seq<Object>)

  datatype ValueChange<T> = ValueChange(old_: T, new_: T)

  datatype ColumnDiff = ColumnDiff(columnName: string, columnPgstreamID: string,
                                   nameChange: Option<ValueChange<string>>, typeChange: Option<ValueChange<string>>)

  datatype TableDiff = TableDiff(tableName: string, tablePgstreamID: string,
                                 tableNameChange: Option<ValueChange<string>>,
                                 tablePrimaryKeyChange: Option<ValueChange<seq<string>>>,
                                 columnsAdded: seq<Column>, columnsRemoved: seq<Column>,
                                 columnsChanged: seq<ColumnDiff>) {
    predicate IsEmpty() {
      columnsAdded == [] && columnsRemoved == [] && columnsChanged == []
      && tableNameChange == None && tablePrimaryKeyChange == None
    }
  }

  datatype Diff = Diff(schemaName: string, schemaDropped: bool, tablesAdded: seq<Object>, tablesRemoved: seq<Object>,
                       tablesChanged: seq<TableDiff>)

  // ---------- objects and columns of an event ----------

  function ObjectsByType(objects: seq<Object>, typ: string): seq<Object> {
    if objects == [] then []
    else ObjectsByType(objects[..|objects| - 1], typ)
         + if objects[|objects| - 1].typ == typ then [objects[|objects| - 1]] else []
  }

  /** `at` lists the positions of the objects of the type in increasing order, and `objs` what is there. */
  predicate Positions(objects: seq<Object>, typ: string, objs: seq<Object>, at: seq<nat>) {
    && |at| == |objs|
    && (forall k :: 0 <= k < |at| ==> at[k] < |objects| && objs[k] == objects[at[k]])
    && (forall j, k :: 0 <= j < k < |at| ==> at[j] < at[k])
    && (forall i :: 0 <= i < |objects| ==> (objects[i].typ == typ <==> i in at))
  }

  lemma PositionsNext(init: seq<Object>, last: Object, typ: string, objs: seq<Object>, at: seq<nat>)
    requires Positions(init, typ, objs, at)
    ensures last.typ == typ ==> Positions(init + [last], typ, objs + [last], at + [|init|])
    ensures last.typ != typ ==> Positions(init + [last], typ, objs, at)
  {
    assert forall i :: i in at + [|init|] <==> i in at || i == |init|;
  }

  /** Exactly the objects of the type, each as often as it occurs and in the order of the event. */
  lemma {:induction false} ObjectsOfType(objects: seq<Object>, typ: string) returns (at: seq<nat>)
    ensures Positions(objects, typ, ObjectsByType(objects, typ), at)
  {
    if objects == [] {
      at := [];
    } else {
      var n := |objects| - 1;
      var objs := ObjectsByType(objects[..n], typ);
      at := ObjectsOfType(objects[..n], typ);
      PositionsNext(objects[..n], objects[n], typ, objs, at);
      assert objects == objects[..n] + [objects[n]] && objs + [] == objs;
      if objects[n].typ == typ {
        at := at + [n];
      }
    }
  }

  method GetObjectsByType(e: Event, typ: string) returns (objs: seq<Object>)
    ensures objs == ObjectsByType(e.objects, typ)
  {
    objs := [];
    for i := 0 to |e.objects|
      invariant objs == ObjectsByType(e.objects[..i], typ)
    {
      assert e.objects[..i + 1][..i] == e.objects[..i];
      if e.objects[i].typ == typ {
        objs := objs + [e.objects[i]];
      }
    }
    assert e.objects[..|e.objects|] == e.objects;
  }

  /** The part after the last dot, or everything. */
  function LastPart(identity: string): (name: string)
    ensures |name| <= |identity| && identity[|identity| - |name|..] == name && '.' !in name
    ensures |name| < |identity| ==> identity[|identity| - |name| - 1] == '.'
  {
    if identity == "" || identity[|identity| - 1] == '.' then ""
    else LastPart(identity[..|identity| - 1]) + [identity[|identity| - 1]]
  }

  /** The only suffix without a dot that has a dot, or nothing, in front of it. */
  lemma LastPartUnique(identity: string, k: nat)
    requires k <= |identity| && '.' !in identity[k..] && (k > 0 ==> identity[k - 1] == '.')
    ensures LastPart(identity) == identity[k..]
  {
    assert identity[|identity| - |LastPart(identity)|..] == LastPart(identity);
  }

  method GetName(identity: string) returns (name: string)
    ensures name == LastPart(identity)
  {
    var i := |identity| - 1;
    while i >= 0
      invariant -1 <= i < |identity|
      invariant '.' !in identity[i + 1..]
    {
      if identity[i] == '.' {
        LastPartUnique(identity, i + 1);
        return identity[i + 1..];
      }
      i := i - 1;
    }
    LastPartUnique(identity, 0);
    return identity;
  }

  function TableOf(o: Object): string {
    var parts := Split(o.identity, '.');
    if |parts| == 2 || |parts| == 3 then parts[1] else LastPart(o.identity)
  }

  function ColumnByName(columns: seq<Column>, name: string): Option<Column> {
    if columns == [] then None
    else if columns[0].name == name then Some(columns[0])
    else ColumnByName(columns[1..], name)
  }

  /** The identity of the table, or of one of its columns, in some schema; or its bare name. */
  ghost predicate Identifies(identity: string, table: string) {
    '.' !in table
    && (identity == table
        || exists schema :: '.' !in schema
             && (identity == schema + "." + table
                 || exists column :: '.' !in column && identity == schema + "." + table + "." + column))
  }

  lemma BareTable(o: Object)
    requires '.' !in o.identity
    ensures TableOf(o) == o.identity
  {
    SplitFree(o.identity, '.');
    LastPartUnique(o.identity, 0);
  }

  lemma TableInSchema(o: Object, schema: string, table: string)
    requires '.' !in schema && '.' !in table && o.identity == schema + "." + table
    ensures TableOf(o) == table
  {
    SplitFree(table, '.');
    SplitCons(schema, table, '.');
  }

  lemma TableOfColumn(o: Object, schema: string, table: string, column: string)
    requires '.' !in schema && '.' !in table && '.' !in column && o.identity == schema + "." + table + "." + column
    ensures TableOf(o) == table
  {
    ThreeParts(schema, table, column);
  }

  lemma ThreeParts(a: string, b: string, c: string)
    requires '.' !in a && '.' !in b && '.' !in c
    ensures Split(a + "." + b + "." + c, '.') == [a, b, c]
  {
    SplitFree(c, '.');
    SplitCons(b, c, '.');
    SplitCons(a, b + "." + c, '.');
    assert a + "." + b + "." + c == a + "." + (b + "." + c);
  }

  /** Then it is the object's table. */
  lemma TableOfIdentity(o: Object, table: string)
    requires Identifies(o.identity, table)
    ensures TableOf(o) == table
  {
    if o.identity == table {
      BareTable(o);
    } else {
      var schema :| '.' !in schema
                    && (o.identity == schema + "." + table
                        || exists column :: '.' !in column && o.identity == schema + "." + table + "." + column);
      if o.identity == schema + "." + table {
        TableInSchema(o, schema, table);
      } else {
        var column :| '.' !in column && o.identity == schema + "." + table + "." + column;
        TableOfColumn(o, schema, table, column);
      }
    }
  }

  /** With more dots it is what follows the last one. */
  lemma TableOfLongIdentity(o: Object, front: string, name: string)
    requires '.' !in name && Count(front, '.') >= 2 && o.identity == front + "." + name
    ensures TableOf(o) == name
  {
    JoinSplit(o.identity, '.');
    CountAppend(front + ".", name, '.');
    CountAppend(front, ".", '.');
    assert Count(".", '.') == 1;
    assert o.identity[|front| + 1..] == name;
    LastPartUnique(o.identity, |front| + 1);
  }

  /** A column with that name, if there is any. */
  lemma {:induction false} ColumnHasName(columns: seq<Column>, name: string)
    ensures ColumnByName(columns, name).Some? ==>
              ColumnByName(columns, name).value in columns && ColumnByName(columns, name).value.name == name
    ensures ColumnByName(columns, name).Some? <==> exists c :: c in columns && c.name == name
  {
    if columns == [] || columns[0].name == name {
    } else {
      ColumnHasName(columns[1..], name);
      assert columns == [columns[0]] + columns[1..];
    }
  }

  function ColumnID(c: Column, tableID: string): string {
    tableID + "-" + Decimal.FormatInt(c.attnum)
  }

  /** The table's id and the column's number, which reads back from behind the dash. */
  lemma ColumnIDParts(c: Column, tableID: string)
    requires -0x8000_0000_0000_0000 <= c.attnum < 0x8000_0000_0000_0000
    ensures var id := ColumnID(c, tableID);
            tableID + "-" <= id && Decimal.Atoi(id[|tableID| + 1..]) == Some(c.attnum)
  {
    Decimal.AtoiFormat(c.attnum);
    assert ColumnID(c, tableID)[|tableID| + 1..] == Decimal.FormatInt(c.attnum);
  }

  // ---------- the extractors ----------

  /** `(?:"([^"]+)"|(\S+))` */
  function NameRe(quoted: nat, plain: nat): Re {
    Or(Then(Lit("\""), Then(Group(quoted, Plus(NotQuote)), Lit("\""))), Group(plain, Plus(NonSpace)))
  }

  /** A keyword and the white space behind it. */
  function KeywordRe(word: string, rest: Re): Re {
    Then(Lit(word), Then(Plus(Space), rest))
  }

  function AddColumnRe(): Re {
    KeywordRe("add", KeywordRe("column",
      Then(Opt(KeywordRe("if", KeywordRe("not", Then(Lit("exists"), Plus(Space))))), NameRe(1, 2))))
  }

  function AlterColumnRe(): Re {
    KeywordRe("alter", KeywordRe("column", NameRe(1, 2)))
  }

  function DropColumnRe(): Re {
    KeywordRe("drop", KeywordRe("column",
      Then(Opt(KeywordRe("if", Then(Lit("exists"), Plus(Space)))), NameRe(1, 2))))
  }

  function RenameColumnRe(): Re {
    KeywordRe("rename", KeywordRe("column",
      Then(NameRe(1, 2), Then(Plus(Space), KeywordRe("to", NameRe(3, 4))))))
  }

  function RenameTableRe(): Re {
    KeywordRe("alter", KeywordRe("table",
      Then(Opt(KeywordRe("if", Then(Lit("exists"), Plus(Space)))),
      Then(Opt(Then(Group(1, Plus(Word)), Lit("."))),
      Then(NameRe(2, 3), Then(Plus(Space), KeywordRe("rename", KeywordRe("to", NameRe(4, 5)))))))))
  }

  /** The quoted name if that group is set, the plain one otherwise. */
  function EitherGroup(f: Found, quoted: nat, plain: nat): string {
    if GroupText(f, quoted) != "" then GroupText(f, quoted) else GroupText(f, plain)
  }

  function ExtractName(re: Re, ddl: string, quoted: nat, plain: nat): string {
    match Find(re, ddl, 0)
    case Some(f) => EitherGroup(f, quoted, plain)
    case None => ""
  }

  function ExtractRenamedColumnNames(ddl: string): (string, string) {
    (ExtractName(RenameColumnRe(), ddl, 1, 2), ExtractName(RenameColumnRe(), ddl, 3, 4))
  }

  // ---------- the diff ----------

  /** The diff of an object with nothing in it yet. */
  function Unchanged(o: Object): TableDiff {
    TableDiff(TableOf(o), o.pgstreamID, None, None, [], [], [])
  }

  /** Filed under the object's own table. */
  predicate FiledUnder(d: TableDiff, o: Object) {
    d.tableName == TableOf(o) && d.tablePgstreamID == o.pgstreamID
  }

  function KeyAdded(o: Object): (d: TableDiff)
    ensures FiledUnder(d, o)
  {
    if o.primaryKeyColumns == [] then Unchanged(o)
    else Unchanged(o).(tablePrimaryKeyChange := Some(ValueChange([], o.primaryKeyColumns)))
  }

  function TableRenamed(o: Object, oldName: string): (d: TableDiff)
    ensures FiledUnder(d, o)
  {
    if oldName == "" then Unchanged(o)
    else Unchanged(o).(tableNameChange := Some(ValueChange(oldName, TableOf(o))))
  }

  function ColumnAdded(o: Object, name: string): (d: TableDiff)
    ensures FiledUnder(d, o)
  {
    var col := ColumnByName(o.columns, name);
    if name != "" && col.Some? then Unchanged(o).(columnsAdded := [col.value]) else Unchanged(o)
  }

  function ColumnAltered(o: Object, name: string): (d: TableDiff)
    ensures FiledUnder(d, o)
  {
    var col := ColumnByName(o.columns, name);
    if name != "" && col.Some?
    then Unchanged(o).(columnsChanged := [ColumnDiff(col.value.name, "", None, Some(ValueChange("", col.value.typ)))])
    else Unchanged(o)
  }

  function ColumnDropped(o: Object, name: string): (d: TableDiff)
    ensures FiledUnder(d, o)
  {
    if name != "" then Unchanged(o).(columnsRemoved := [NamedColumn(name)]) else Unchanged(o)
  }

  function ColumnRenamed(o: Object, oldName: string, newName: string): (d: TableDiff)
    ensures FiledUnder(d, o)
  {
    var col := ColumnByName(o.columns, newName);
    if oldName != "" && newName != "" && col.Some?
    then Unchanged(o).(columnsChanged := [ColumnDiff(col.value.name, ColumnID(col.value, o.pgstreamID),
                                                     Some(ValueChange(oldName, newName)), None)])
    else Unchanged(o)
  }

  /** The switch over the phrases of an ALTER TABLE statement. */
  function DiffOfObject(ddl: string, o: Object): (d: TableDiff)
    ensures FiledUnder(d, o)
  {
    var low := Lower(ddl);
    if Contains(low, "add constraint") && Contains(low, "primary key") then KeyAdded(o)
    else if Contains(low, "rename to") then TableRenamed(o, ExtractName(RenameTableRe(), ddl, 2, 3))
    else if Contains(low, "add column") then ColumnAdded(o, ExtractName(AddColumnRe(), ddl, 1, 2))
    else if Contains(low, "alter column") then ColumnAltered(o, ExtractName(AlterColumnRe(), ddl, 1, 2))
    else if Contains(low, "drop column") then ColumnDropped(o, ExtractName(DropColumnRe(), ddl, 1, 2))
    else if Contains(low, "rename column") then
      var (oldName, newName) := ExtractRenamedColumnNames(ddl);
      ColumnRenamed(o, oldName, newName)
    else Unchanged(o)
  }

  /** Nothing is recorded of an object without changes. */
  function RecordedOf(ddl: string, o: Object): seq<TableDiff> {
    var d := DiffOfObject(ddl, o);
    if d.IsEmpty() then [] else [d]
  }

  function DiffsOfObjects(ddl: string, objects: seq<Object>): seq<TableDiff> {
    if objects == [] then []
    else
      var n := |objects| - 1;
      DiffsOfObjects(ddl, objects[..n]) + RecordedOf(ddl, objects[n])
  }

  lemma DiffsAppend(ddl: string, objects: seq<Object>, i: nat)
    requires i < |objects|
    ensures DiffsOfObjects(ddl, objects[..i + 1]) == DiffsOfObjects(ddl, objects[..i]) + RecordedOf(ddl, objects[i])
  {
    assert objects[..i + 1][..i] == objects[..i];
  }

  function Altered(e: Event): seq<Object> {
    ObjectsByType(e.objects, "table") + ObjectsByType(e.objects, "table column")
  }

  lemma {:induction false} ByTypeMember(objects: seq<Object>, typ: string, o: Object)
    ensures o in ObjectsByType(objects, typ) <==> o in objects && o.typ == typ
  {
    if objects == [] {
    } else {
      var n := |objects| - 1;
      ByTypeMember(objects[..n], typ, o);
      assert objects == objects[..n] + [objects[n]];
    }
  }

  /** The diff is that of one of the objects. */
  ghost predicate IsOfOne(ddl: string, objects: seq<Object>, d: TableDiff) {
    exists o :: o in objects && d in RecordedOf(ddl, o)
  }

  lemma OfOneSnoc(ddl: string, init: seq<Object>, o: Object, d: TableDiff)
    ensures IsOfOne(ddl, init + [o], d) <==> IsOfOne(ddl, init, d) || d in RecordedOf(ddl, o)
  {
    var all := init + [o];
    assert o in all && forall x :: x in init ==> x in all;
  }

  lemma {:induction false} DiffsMember(ddl: string, objects: seq<Object>, d: TableDiff)
    ensures d in DiffsOfObjects(ddl, objects) <==> IsOfOne(ddl, objects, d)
  {
    if objects == [] {
    } else {
      var init, o := objects[..|objects| - 1], objects[|objects| - 1];
      assert objects == init + [o];
      DiffsMember(ddl, init, d);
      DiffsSnoc(ddl, init, o);
      OfOneSnoc(ddl, init, o, d);
    }
  }

  lemma DiffsSnoc(ddl: string, objects: seq<Object>, o: Object)
    ensures DiffsOfObjects(ddl, objects + [o]) == DiffsOfObjects(ddl, objects) + RecordedOf(ddl, o)
  {
    assert (objects + [o])[..|objects|] == objects;
  }

  /** The diffs keep the order of their objects. */
  lemma {:induction false} DiffsInOrder(ddl: string, a: seq<Object>, b: seq<Object>)
    ensures DiffsOfObjects(ddl, a + b) == DiffsOfObjects(ddl, a) + DiffsOfObjects(ddl, b)
    decreases |b|
  {
    if b == [] {
      assert a + b == a;
    } else {
      var init, o := b[..|b| - 1], b[|b| - 1];
      assert b == init + [o] && a + b == (a + init) + [o];
      DiffsInOrder(ddl, a, init);
      DiffsSnoc(ddl, a + init, o);
      DiffsSnoc(ddl, init, o);
      Assoc(DiffsOfObjects(ddl, a), DiffsOfObjects(ddl, init), RecordedOf(ddl, o));
    }
  }

  /** The changes of an ALTER TABLE are looked for in exactly the tables and table columns. */
  lemma AlteredMember(e: Event, o: Object)
    ensures o in Altered(e) <==> o in e.objects && (o.typ == "table" || o.typ == "table column")
  {
    ByTypeMember(e.objects, "table", o);
    ByTypeMember(e.objects, "table column", o);
  }

  /** Tables come before table columns. */
  lemma TablesFirst(e: Event, i: nat, j: nat)
    requires i < |Altered(e)| && j < |Altered(e)| && Altered(e)[i].typ == "table" && Altered(e)[j].typ == "table column"
    ensures i < j
  {
    var tables, columns := ObjectsByType(e.objects, "table"), ObjectsByType(e.objects, "table column");
    forall o ensures (o in tables ==> o.typ == "table") && (o in columns ==> o.typ == "table column") {
      ByTypeMember(e.objects, "table", o);
      ByTypeMember(e.objects, "table column", o);
    }
    var all := tables + columns;
    assert forall k :: 0 <= k < |tables| ==> all[k] in tables;
    assert forall k :: |tables| <= k < |all| ==> all[k] in columns;
  }

  /** The diff is filed under the name and the id of the object's table. */
  ghost predicate NamesTable(d: TableDiff, o: Object) {
    d.tablePgstreamID == o.pgstreamID && forall table :: Identifies(o.identity, table) ==> d.tableName == table
  }

  lemma RecordedNames(ddl: string, o: Object, d: TableDiff)
    requires d in RecordedOf(ddl, o)
    ensures NamesTable(d, o)
  {
    forall table | Identifies(o.identity, table) ensures d.tableName == table {
      TableOfIdentity(o, table);
    }
  }

  /** Every diff is filed under the name and the id of one of the event's tables or table columns. */
  lemma DiffNamesTable(e: Event, d: TableDiff)
    requires d in DiffsOfObjects(e.ddl, Altered(e))
    ensures exists o :: o in e.objects && (o.typ == "table" || o.typ == "table column") && NamesTable(d, o)
  {
    DiffsMember(e.ddl, Altered(e), d);
    var o :| o in Altered(e) && d in RecordedOf(e.ddl, o);
    AlteredMember(e, o);
    RecordedNames(e.ddl, o, d);
  }

  method DdlEventToTableDiff(e: Event) returns (diffs: seq<TableDiff>)
    ensures diffs == DiffsOfObjects(e.ddl, Altered(e))
  {
    var tables := GetObjectsByType(e, "table");
    var columns := GetObjectsByType(e, "table column");
    var objects := tables + columns;
    diffs := [];
    for i := 0 to |objects|
      invariant diffs == DiffsOfObjects(e.ddl, objects[..i])
    {
      DiffsAppend(e.ddl, objects, i);
      var d := DiffOfObject(e.ddl, objects[i]);
      if !d.IsEmpty() {
        diffs := diffs + [d];
      }
    }
    assert objects[..|objects|] == objects;
  }

  method DDLEventToSchemaDiff(event: Option<Event>) returns (diff: Diff)
    ensures event == None ==> diff == Diff("", false, [], [], [])
    ensures event.Some? ==>
              var e := event.value;
              diff == Diff(e.schemaName, e.commandTag == "DROP SCHEMA",
                           if e.commandTag in ["CREATE TABLE", "CREATE TABLE AS", "SELECT INTO"]
                           then ObjectsByType(e.objects, "table") else [],
                           if e.commandTag == "DROP TABLE" then ObjectsByType(e.objects, "table") else [],
                           if e.commandTag == "ALTER TABLE" then DiffsOfObjects(e.ddl, Altered(e)) else [])
  {
    if event == None {
      return Diff("", false, [], [], []);
    }
    var e := event.value;
    diff := Diff(e.schemaName, false, [], [], []);
    match e.commandTag {
      case "DROP SCHEMA" =>
        diff := diff.(schemaDropped := true);
      case "DROP TABLE" =>
        var objs := GetObjectsByType(e, "table");
        diff := diff.(tablesRemoved := diff.tablesRemoved + objs);
      case "CREATE TABLE" =>
        var objs := GetObjectsByType(e, "table");
        diff := diff.(tablesAdded := diff.tablesAdded + objs);
      case "CREATE TABLE AS" =>
        var objs := GetObjectsByType(e, "table");
        diff := diff.(tablesAdded := diff.tablesAdded + objs);
      case "SELECT INTO" =>
        var objs := GetObjectsByType(e, "table");
        diff := diff.(tablesAdded := diff.tablesAdded + objs);
      case "ALTER TABLE" =>
        var diffs := DdlEventToTableDiff(e);
        diff := diff.(tablesChanged := diffs);
      case _ =>
    }
  }
}
