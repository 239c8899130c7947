/** The schema-to-tables map with wildcards, whose lookups write into it. */
module SchemaTableMap {
  import opened Text

  const WILDCARD := "*"
  const PUBLIC_SCHEMA := "public"

  datatype Pattern = Pattern(schema: string, table: string)

  /** `schema.table`, or a bare table of the public schema. */
  function ParseTableName(name: string): Option<Pattern> {
    var parts := Split(name, '.');
    if |parts| == 1 then Some(Pattern(PUBLIC_SCHEMA, parts[0]))
    else if |parts| == 2 then Some(Pattern(parts[0], parts[1]))
    else None
  }

  /** What a map stands for: some added pattern has the schema or the wildcard, and the table or
      the wildcard. */
  ghost predicate Covers(added: set<Pattern>, schema: string, table: string) {
    exists p :: p in added && (p.schema == schema || p.schema == WILDCARD) && (p.table == table || p.table == WILDCARD)
  }

  /** The inner map of one schema. */
  class TableSet {
    var names: set<string>

    constructor ()
      ensures names == {}
    {
      names := {};
    }
  }

  class SchemaTableMap {
    var schemas: map<string, TableSet>
    ghost var added: set<Pattern>

    ghost function Sets(): set<TableSet>
      reads this
    {
      schemas.Values
    }

    /** Each schema has its own inner map, holding the tables added for it and possibly copies of
        those added for the wildcard schema, but nothing else. */
    ghost predicate Valid()
      reads this, Sets()
    {
      Separate() && forall s :: s in schemas ==> exists p :: p in added && p.schema == s
    }

    ghost predicate Separate()
      reads this, Sets()
    {
      && (forall s, t :: s in schemas && t in schemas && s != t ==> schemas[s] != schemas[t])
      && (forall p :: p in added ==> p.schema in schemas && p.table in schemas[p.schema].names)
      && (forall s, t :: s in schemas && t in schemas[s].names ==>
            Pattern(s, t) in added || Pattern(WILDCARD, t) in added)
    }

    constructor ()
      ensures Valid() && added == {} && fresh(Sets())
    {
      schemas := map[];
      added := {};
    }

    /** The schema's inner map, made if there is none. */
    method InnerOf(schema: string) returns (inner: TableSet)
      requires Separate()
      modifies this`schemas
      ensures Separate() && fresh(Sets() - old(Sets()))
      ensures schemas == old(schemas)[schema := inner]
    {
      if schema !in schemas {
        inner := new TableSet();
        ghost var before := schemas;
        schemas := schemas[schema := inner];
        assert forall s :: s in before ==> schemas[s] == before[s];
        assert forall o :: o in Sets() ==> o == inner || o in before.Values;
      } else {
        inner := schemas[schema];
        assert schemas == schemas[schema := inner];
      }
    }

    /** Insert a parsed pattern. */
    method Insert(p: Pattern)
      requires Valid()
      modifies this, Sets()
      ensures Valid() && added == old(added) + {p} && fresh(Sets() - old(Sets()))
    {
      var inner := InnerOf(p.schema);
      inner.names := inner.names + {p.table};
      added := added + {p};
    }

    method Add(name: string) returns (ok: bool)
      requires Valid()
      modifies this, Sets()
      ensures Valid() && fresh(Sets() - old(Sets()))
      ensures ok == ParseTableName(name).Some?
      ensures added == old(added) + if ok then {ParseTableName(name).value} else {}
    {
      var p := ParseTableName(name);
      if p.None? {
        return false;
      }
      Insert(p.value);
      return true;
    }

    /** The inner map itself, with the wildcard schema's tables merged in as a side effect. */
    method GetSchemaTables(schema: string) returns (tables: TableSet?)
      requires Valid()
      modifies Sets()
      ensures Valid() && added == old(added) && schemas == old(schemas)
      ensures forall t :: (tables != null && t in tables.names) <==>
                          Pattern(schema, t) in added || Pattern(WILDCARD, t) in added
    {
      if schema !in schemas {
        if WILDCARD in schemas {
          return schemas[WILDCARD];
        }
        return null;
      }
      var inner := schemas[schema];
      if WILDCARD in schemas {
        var left := schemas[WILDCARD].names;
        ghost var wild := left;
        while left != {}
          invariant left <= wild
          invariant inner.names == old(inner.names) + (wild - left)
          invariant forall s :: s in schemas && s != schema ==> schemas[s].names == old(schemas[s].names)
          decreases left
        {
          var t :| t in left;
          inner.names := inner.names + {t};
          left := left - {t};
        }
      }
      return inner;
    }

    method ContainsSchemaTable(schema: string, table: string) returns (found: bool)
      requires Valid()
      modifies Sets()
      ensures Valid() && added == old(added) && schemas == old(schemas)
      ensures found == Covers(added, schema, table)
    {
      if |schemas| == 0 {
        return false;
      }
      var tables := GetSchemaTables(schema);
      if tables == null || |tables.names| == 0 {
        NothingCovered(added, schema, table);
        return false;
      }
      found := table in tables.names || WILDCARD in tables.names;
      CoversByTable(added, schema, table);
    }
  }

  lemma CoversByTable(added: set<Pattern>, schema: string, table: string)
    ensures Covers(added, schema, table) <==>
            || Pattern(schema, table) in added || Pattern(WILDCARD, table) in added
            || Pattern(schema, WILDCARD) in added || Pattern(WILDCARD, WILDCARD) in added
  {
    if Covers(added, schema, table) {
      var p :| p in added && (p.schema == schema || p.schema == WILDCARD) && (p.table == table || p.table == WILDCARD);
      assert p == Pattern(p.schema, p.table);
    }
  }

  lemma NothingCovered(added: set<Pattern>, schema: string, table: string)
    requires forall t :: !(Pattern(schema, t) in added || Pattern(WILDCARD, t) in added)
    ensures !Covers(added, schema, table)
  {
    CoversByTable(added, schema, table);
  }

  /** The patterns of a list of names, if all of them parse. */
  function Parsed(names: seq<string>): Option<set<Pattern>> {
    if names == [] then Some({})
    else
      match (Parsed(names[..|names| - 1]), ParseTableName(names[|names| - 1]))
      case (Some(ps), Some(p)) => Some(ps + {p})
      case _ => None
  }

  lemma {:induction false} ParsedMeans(names: seq<string>)
    ensures Parsed(names).Some? <==> forall name :: name in names ==> ParseTableName(name).Some?
    ensures Parsed(names).Some? ==>
              forall p :: p in Parsed(names).value <==> exists name :: name in names && ParseTableName(name) == Some(p)
  {
    if names == [] {
    } else {
      ParsedMeans(names[..|names| - 1]);
      assert names == names[..|names| - 1] + [names[|names| - 1]];
    }
  }

  lemma ParsedNext(names: seq<string>, i: nat)
    requires i < |names|
    ensures Parsed(names[..i + 1]) ==
            match (Parsed(names[..i]), ParseTableName(names[i]))
            case (Some(ps), Some(p)) => Some(ps + {p})
            case _ => None
  {
    var init := names[..i + 1];
    assert init[..i] == names[..i] && init[i] == names[i];
  }

  lemma ParsedStops(names: seq<string>, i: nat)
    requires i < |names| && ParseTableName(names[i]).None?
    ensures Parsed(names).None?
  {
    ParsedMeans(names);
    assert names[i] in names;
  }

  method NewSchemaTableMap(names: seq<string>) returns (m: SchemaTableMap?)
    ensures m == null <==> Parsed(names).None?
    ensures m != null ==> fresh(m) && fresh(m.Sets()) && m.Valid() && m.added == Parsed(names).value
  {
    var built := new SchemaTableMap();
    for i := 0 to |names|
      invariant fresh(built.Sets()) && built.Valid()
      invariant Parsed(names[..i]) == Some(built.added)
    {
      ParsedNext(names, i);
      var p := ParseTableName(names[i]);
      if p.None? {
        ParsedStops(names, i);
        return null;
      }
      built.Insert(p.value);
    }
    assert names[..|names|] == names;
    return built;
  }

  // ---------- names ----------

  /** A dot separates schema and table; a bare table is one of the public schema. */
  lemma ParsedName(schema: string, table: string)
    requires '.' !in schema && '.' !in table
    ensures ParseTableName(schema + "." + table) == Some(Pattern(schema, table))
    ensures ParseTableName(table) == Some(Pattern("public", table))
  {
    SplitFree(table, '.');
    SplitCons(schema, table, '.');
  }

  /** A name is refused exactly if it has more than one dot. */
  lemma RefusedName(name: string)
    ensures ParseTableName(name) == None <==> Count(name, '.') > 1
  {
    JoinSplit(name, '.');
  }

  lemma OneParsed(name: string, p: Pattern)
    requires ParseTableName(name) == Some(p)
    ensures Parsed([name]) == Some({p})
  {
    var none: set<Pattern> := {};
    assert [name][..0] == [] && Parsed([]) == Some(none) && none + {p} == {p};
  }

  /** A map built from one qualified name contains exactly the tables that its two parts, each a name or
      the wildcard, allow, and one built from a bare name those of the public schema. */
  lemma BuiltFromOne(schema: string, table: string, s: string, t: string)
    requires '.' !in schema && '.' !in table
    ensures Parsed([schema + "." + table]).Some? && Parsed([table]).Some?
    ensures Covers(Parsed([schema + "." + table]).value, s, t) <==>
            (s == schema || schema == "*") && (t == table || table == "*")
    ensures Covers(Parsed([table]).value, s, t) <==> s == "public" && (t == table || table == "*")
  {
    ParsedName(schema, table);
    OneParsed(schema + "." + table, Pattern(schema, table));
    OneParsed(table, Pattern("public", table));
    assert Pattern(schema, table) in {Pattern(schema, table)};
    assert Pattern("public", table) in {Pattern("public", table)};
  }

  // ---------- histories ----------

  datatype Op = AddName(name: string) | Lookup(schema: string, table: string)

  function After(added: set<Pattern>, op: Op): set<Pattern> {
    match op
    case AddName(name) => (match ParseTableName(name) case Some(p) => added + {p} case None => added)
    case Lookup(_, _) => added
  }

  /** The patterns a history has added. */
  function AddedBy(init: set<Pattern>, ops: seq<Op>): set<Pattern> {
    if ops == [] then init else After(AddedBy(init, ops[..|ops| - 1]), ops[|ops| - 1])
  }

  method Perform(m: SchemaTableMap, op: Op) returns (answer: bool)
    requires m.Valid()
    modifies m, m.Sets()
    ensures m.Valid() && fresh(m.Sets() - old(m.Sets())) && m.added == After(old(m.added), op)
    ensures op.Lookup? ==> answer == Covers(old(m.added), op.schema, op.table)
  {
    match op {
      case AddName(name) =>
        answer := m.Add(name);
      case Lookup(schema, table) =>
        answer := m.ContainsSchemaTable(schema, table);
    }
  }

  /** Every lookup has been answered for exactly the patterns added before it. */
  ghost predicate Answered(init: set<Pattern>, ops: seq<Op>, answers: seq<bool>) {
    |answers| <= |ops|
    && forall i :: 0 <= i < |answers| && ops[i].Lookup? ==>
         answers[i] == Covers(AddedBy(init, ops[..i]), ops[i].schema, ops[i].table)
  }

  lemma AnsweredNext(init: set<Pattern>, ops: seq<Op>, answers: seq<bool>, answer: bool)
    requires Answered(init, ops, answers) && |answers| < |ops|
    requires var op := ops[|answers|];
             op.Lookup? ==> answer == Covers(AddedBy(init, ops[..|answers|]), op.schema, op.table)
    ensures Answered(init, ops, answers + [answer])
    ensures AddedBy(init, ops[..|answers| + 1]) == After(AddedBy(init, ops[..|answers|]), ops[|answers|])
  {
    var n := |answers|;
    AddedByNext(init, ops, n);
    forall i | 0 <= i < n + 1 && ops[i].Lookup?
      ensures (answers + [answer])[i] == Covers(AddedBy(init, ops[..i]), ops[i].schema, ops[i].table)
    {
      if i < n {
        assert (answers + [answer])[i] == answers[i];
      }
    }
  }

  lemma AddedByNext(init: set<Pattern>, ops: seq<Op>, n: nat)
    requires n < |ops|
    ensures AddedBy(init, ops[..n + 1]) == After(AddedBy(init, ops[..n]), ops[n])
  {
    assert ops[..n + 1][..n] == ops[..n];
  }

  /** Any history of adds and lookups on a map just built: the entries that lookups copy around
      never show in a later answer. */
  method Replay(names: seq<string>, ops: seq<Op>) returns (answers: seq<bool>)
    requires Parsed(names).Some?
    ensures |answers| == |ops| && Answered(Parsed(names).value, ops, answers)
  {
    var m := NewSchemaTableMap(names);
    ghost var init := m.added;
    answers := [];
    for i := 0 to |ops|
      invariant |answers| == i && Answered(init, ops, answers)
      invariant m.Valid() && fresh(m) && fresh(m.Sets())
      invariant m.added == AddedBy(init, ops[..i])
    {
      var answer := Perform(m, ops[i]);
      AnsweredNext(init, ops, answers, answer);
      answers := answers + [answer];
    }
  }
}
