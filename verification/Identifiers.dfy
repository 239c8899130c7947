/** Quoting of identifiers and qualified names, and the wildcard expansion built on it. */
module Identifiers {
  import opened Text

  const NUL := '\0'

  /** `""` for every `"`. */
  function Double(s: string): string {
    if s == "" then "" else (if s[0] == '"' then "\"\"" else [s[0]]) + Double(s[1..])
  }

  /** `strings.ReplaceAll` of `""` by `"`, from left to right. */
  function Collapse(s: string): (r: string)
    ensures |r| <= |s|
  {
    if s == "" then ""
    else if |s| >= 2 && s[0] == '"' && s[1] == '"' then "\"" + Collapse(s[2..])
    else [s[0]] + Collapse(s[1..])
  }

  function UpToNul(s: string): (r: string)
    ensures |r| <= |s| && r == s[..|r|] && NUL !in r
    ensures |r| < |s| ==> s[|r|] == NUL
  {
    if s == "" || s[0] == NUL then "" else [s[0]] + UpToNul(s[1..])
  }

  predicate IsQuotedIdentifier(s: string) {
    |s| > 2 && s[0] == '"' && s[|s| - 1] == '"'
  }

  function QuoteIdentifier(s: string): string {
    if IsQuotedIdentifier(s) then s else "\"" + Double(UpToNul(s)) + "\""
  }

  function UnquoteIdentifier(s: string): string {
    if !IsQuotedIdentifier(s) then s else Collapse(s[1..|s| - 1])
  }

  function QuoteQualifiedIdentifier(schema: string, table: string): string {
    QuoteIdentifier(schema) + "." + QuoteIdentifier(table)
  }

  /** A name as Postgres stores it, not one that is already in quotes. */
  predicate IsBareName(s: string) {
    s != "" && NUL !in s && !IsQuotedIdentifier(s)
  }

  lemma {:induction false} CollapseDouble(s: string)
    ensures Collapse(Double(s)) == s
  {
    if s == "" {
    } else {
      CollapseDouble(s[1..]);
      var d := Double(s);
      if s[0] == '"' {
        assert d[0] == '"' && d[1] == '"' && d[2..] == Double(s[1..]);
      } else {
        assert d[0] == s[0] && d[1..] == Double(s[1..]);
      }
      assert s == [s[0]] + s[1..];
    }
  }

  lemma {:induction false} DoubleKeeps(s: string, c: char)
    requires c != '"'
    ensures c in Double(s) <==> c in s
    ensures |Double(s)| >= |s|
  {
    if s == "" {
    } else {
      DoubleKeeps(s[1..], c);
      assert s == [s[0]] + s[1..];
    }
  }

  /** What unquoting a freshly quoted name gives: the name up to a NUL, if anything is left of it. */
  lemma UnquoteFresh(s: string)
    requires !IsQuotedIdentifier(s)
    ensures UnquoteIdentifier(QuoteIdentifier(s)) == if UpToNul(s) == "" then "\"\"" else UpToNul(s)
  {
    var inner := Double(UpToNul(s));
    var q := "\"" + inner + "\"";
    DoubleKeeps(UpToNul(s), NUL);
    CollapseDouble(UpToNul(s));
    assert q[1..|q| - 1] == inner;
  }

  /** Unquoting inverts quoting for exactly the bare names. */
  lemma QuoteRoundTrip(s: string)
    ensures UnquoteIdentifier(QuoteIdentifier(s)) == s <==> IsBareName(s)
  {
    if !IsQuotedIdentifier(s) {
      UnquoteFresh(s);
      assert "\"\""[0] == '"' != NUL && "\"\""[1] == '"' != NUL;
      assert NUL in s ==> UpToNul(s) != s;
    }
  }

  /** Quoting again changes nothing, unless there was nothing to quote. */
  lemma QuoteIdempotent(s: string)
    ensures QuoteIdentifier(QuoteIdentifier(s)) == QuoteIdentifier(s) <==> IsQuotedIdentifier(s) || UpToNul(s) != ""
  {
    DoubleKeeps(UpToNul(s), NUL);
    if !IsQuotedIdentifier(s) && UpToNul(s) == "" {
      assert QuoteIdentifier(s) == "\"\"";
      assert UpToNul("\"\"") == "\"\"";
      assert |Double("\"\"")| >= 2 by { DoubleKeeps("\"\"", NUL); }
    }
  }

  // ---------- qualified names ----------

  datatype NameError = InvalidTableName(name: string)

  function SplitQualifiedTableName(name: string): Result<(string, string), NameError> {
    var parts := Split(name, '.');
    if |parts| == 1 then Ok(("public", UnquoteIdentifier(parts[0])))
    else if |parts| == 2 then Ok((UnquoteIdentifier(parts[0]), UnquoteIdentifier(parts[1])))
    else Err(InvalidTableName(name))
  }

  lemma SplitQuoted(schema: string, table: string)
    ensures var qs, qt := QuoteIdentifier(schema), QuoteIdentifier(table);
            SplitQualifiedTableName(QuoteQualifiedIdentifier(schema, table)) ==
            if '.' in qs || '.' in qt then Err(InvalidTableName(QuoteQualifiedIdentifier(schema, table)))
            else Ok((UnquoteIdentifier(qs), UnquoteIdentifier(qt)))
  {
    var qs, qt := QuoteIdentifier(schema), QuoteIdentifier(table);
    var name := qs + "." + qt;
    JoinSplit(name, '.');
    CountAppend(qs + ".", qt, '.');
    CountAppend(qs, ".", '.');
    CountZero(qs, '.');
    CountZero(qt, '.');
    assert Count(".", '.') == 1;
    if '.' !in qs && '.' !in qt {
      SplitCons(qs, qt, '.');
      SplitFree(qt, '.');
    }
  }

  lemma DotsShow(s: string)
    requires IsBareName(s)
    ensures '.' in QuoteIdentifier(s) <==> '.' in s
  {
    assert UpToNul(s) == s;
    DoubleKeeps(s, '.');
  }

  /** Splitting a quoted qualified name gives the original pair back for exactly the pairs of bare
      names without dots; with a dot in a bare name it is an error, never another pair. */
  lemma SplitQualifiedRoundTrip(schema: string, table: string)
    ensures SplitQualifiedTableName(QuoteQualifiedIdentifier(schema, table)) == Ok((schema, table))
            <==> IsBareName(schema) && IsBareName(table) && '.' !in schema && '.' !in table
    ensures IsBareName(schema) && IsBareName(table) && ('.' in schema || '.' in table) ==>
              SplitQualifiedTableName(QuoteQualifiedIdentifier(schema, table)).Err?
  {
    SplitQuoted(schema, table);
    QuoteRoundTrip(schema);
    QuoteRoundTrip(table);
    if IsBareName(schema) { DotsShow(schema); }
    if IsBareName(table) { DotsShow(table); }
  }

  // ---------- wildcard expansion ----------

  /** The catalog queries, each with its possible failure. */
  datatype Catalog = Catalog(schemas: Result<seq<string>, string>, tables: string -> Result<seq<string>, string>)

  datatype ExpandError = QueryFailed(cause: string) | BadName(error: NameError)

  type Names = Result<seq<string>, ExpandError>

  function Append(a: Names, b: Names): Names {
    if a.Err? then a else if b.Err? then b else Ok(a.value + b.value)
  }

  function QuoteAll(schema: string, tables: seq<string>): (r: seq<string>)
    ensures |r| == |tables|
    ensures forall i :: 0 <= i < |tables| ==> r[i] == QuoteQualifiedIdentifier(schema, tables[i])
  {
    seq(|tables|, i requires 0 <= i < |tables| => QuoteQualifiedIdentifier(schema, tables[i]))
  }

  function TablesOf(c: Catalog, schema: string): Names {
    match c.tables(schema)
    case Err(e) => Err(QueryFailed(e))
    case Ok(tables) => Ok(QuoteAll(schema, tables))
  }

  /** What `f` gives for each element, one after the other, or the first error. */
  function Collect(f: string -> Names, xs: seq<string>): Names {
    if xs == [] then Ok([]) else Append(Collect(f, xs[..|xs| - 1]), f(xs[|xs| - 1]))
  }

  lemma CollectNext(f: string -> Names, xs: seq<string>, i: nat)
    requires i < |xs|
    ensures Collect(f, xs[..i + 1]) == Append(Collect(f, xs[..i]), f(xs[i]))
  {
    assert xs[..i + 1][..i] == xs[..i];
  }

  lemma {:induction false} CollectStops(f: string -> Names, xs: seq<string>, i: nat)
    requires i < |xs| && Collect(f, xs[..i]).Ok? && f(xs[i]).Err?
    ensures Collect(f, xs) == f(xs[i])
  {
    var n := |xs| - 1;
    if i == n {
    } else {
      assert xs[..n][..i] == xs[..i];
      CollectStops(f, xs[..n], i);
    }
  }

  lemma {:induction false} CollectMember(f: string -> Names, xs: seq<string>, entry: string)
    requires Collect(f, xs).Ok?
    ensures forall x :: x in xs ==> f(x).Ok?
    ensures entry in Collect(f, xs).value <==> exists x :: x in xs && entry in f(x).value
  {
    if xs == [] {
    } else {
      var n := |xs| - 1;
      CollectMember(f, xs[..n], entry);
      assert xs == xs[..n] + [xs[n]];
    }
  }

  function TablesOfSchema(c: Catalog): string -> Names {
    schema => TablesOf(c, schema)
  }

  function Everything(c: Catalog): Names {
    match c.schemas
    case Err(e) => Err(QueryFailed(e))
    case Ok(schemas) => Collect(TablesOfSchema(c), schemas)
  }

  function ExpandOne(c: Catalog, name: string): Names {
    if name == "*" then Everything(c)
    else
      match SplitQualifiedTableName(name)
      case Err(e) => Err(BadName(e))
      case Ok((schema, table)) =>
        if schema == "*" then Everything(c)
        else if table == "*" then TablesOf(c, schema)
        else Ok([QuoteQualifiedIdentifier(schema, table)])
  }

  function ExpandName(c: Catalog): string -> Names {
    name => ExpandOne(c, name)
  }

  function Expand(c: Catalog, names: seq<string>): Names {
    Collect(ExpandName(c), names)
  }

  lemma QuoteAllNext(schema: string, tables: seq<string>, i: nat)
    requires i < |tables|
    ensures QuoteAll(schema, tables[..i + 1]) ==
            QuoteAll(schema, tables[..i]) + [QuoteQualifiedIdentifier(schema, tables[i])]
  {
  }

  /** The innermost loop: the quoted names of the discovered tables are appended. */
  method AppendTables(schema: string, tables: seq<string>, expanded: seq<string>) returns (out: seq<string>)
    ensures out == expanded + QuoteAll(schema, tables)
  {
    ghost var done: seq<string> := [];
    out := expanded;
    for i := 0 to |tables|
      invariant out == expanded + done && done == QuoteAll(schema, tables[..i])
    {
      var name := QuoteQualifiedIdentifier(schema, tables[i]);
      QuoteAllNext(schema, tables, i);
      Assoc(expanded, done, [name]);
      out, done := out + [name], done + [name];
    }
    assert tables[..|tables|] == tables;
  }

  /** The loop over all discovered schemas. */
  method AppendEverything(c: Catalog, expanded: seq<string>) returns (r: Names)
    ensures r == Append(Ok(expanded), Everything(c))
  {
    if c.schemas.Err? {
      return Err(QueryFailed(c.schemas.error));
    }
    var schemas := c.schemas.value;
    ghost var f, found := TablesOfSchema(c), [];
    var out := expanded;
    for i := 0 to |schemas|
      invariant Collect(f, schemas[..i]) == Ok(found) && out == expanded + found
    {
      CollectNext(f, schemas, i);
      var tables := c.tables(schemas[i]);
      if tables.Err? {
        CollectStops(f, schemas, i);
        return Err(QueryFailed(tables.error));
      }
      out := AppendTables(schemas[i], tables.value, out);
      ghost var more := QuoteAll(schemas[i], tables.value);
      Assoc(expanded, found, more);
      assert f(schemas[i]) == Ok(more);
      found := found + more;
    }
    assert schemas[..|schemas|] == schemas;
    return Ok(out);
  }

  method ExpandQualifiedTableNames(c: Catalog, names: seq<string>) returns (r: Names)
    ensures r == Expand(c, names)
  {
    var expanded: seq<string> := [];
    ghost var f := ExpandName(c);
    for i := 0 to |names|
      invariant Collect(f, names[..i]) == Ok(expanded)
    {
      CollectNext(f, names, i);
      var step := ExpandInto(c, names[i], expanded);
      if step.Err? {
        CollectStops(f, names, i);
        return step;
      }
      expanded := step.value;
    }
    assert names[..|names|] == names;
    return Ok(expanded);
  }

  /** The body of the loop over the requested names. */
  method ExpandInto(c: Catalog, name: string, expanded: seq<string>) returns (r: Names)
    ensures r == Append(Ok(expanded), ExpandOne(c, name))
  {
    if name == "*" {
      r := AppendEverything(c, expanded);
      return;
    }
    var split := SplitQualifiedTableName(name);
    if split.Err? {
      return Err(BadName(split.error));
    }
    var (schema, table) := split.value;
    if schema == "*" {
      r := AppendEverything(c, expanded);
    } else if table == "*" {
      var tables := c.tables(schema);
      if tables.Err? {
        return Err(QueryFailed(tables.error));
      }
      var out := AppendTables(schema, tables.value, expanded);
      return Ok(out);
    } else {
      return Ok(expanded + [QuoteQualifiedIdentifier(schema, table)]);
    }
  }

  /** A catalog of names as Postgres stores them. */
  ghost predicate BareCatalog(c: Catalog) {
    (c.schemas.Ok? ==> forall s :: s in c.schemas.value ==> IsBareName(s))
    && forall s, t :: c.tables(s).Ok? && t in c.tables(s).value ==> IsBareName(t)
  }

  /** The entry stands for a discovered table, and reads as that table or not at all. */
  ghost predicate Resolves(c: Catalog, entry: string) {
    exists s, t :: c.schemas.Ok? && s in c.schemas.value && c.tables(s).Ok? && t in c.tables(s).value
      && entry == QuoteQualifiedIdentifier(s, t)
      && (SplitQualifiedTableName(entry) == Ok((s, t))
          || (SplitQualifiedTableName(entry).Err? && ('.' in s || '.' in t)))
  }

  lemma QuoteAllMember(schema: string, tables: seq<string>, entry: string)
    ensures entry in QuoteAll(schema, tables) <==>
            exists t :: t in tables && entry == QuoteQualifiedIdentifier(schema, t)
  {
    if entry in QuoteAll(schema, tables) {
      var i :| 0 <= i < |tables| && QuoteAll(schema, tables)[i] == entry;
      assert tables[i] in tables;
    }
    if t :| t in tables && entry == QuoteQualifiedIdentifier(schema, t) {
      var i :| 0 <= i < |tables| && tables[i] == t;
      assert QuoteAll(schema, tables)[i] == entry;
    }
  }

  /** Which entries the wildcard expands to. */
  lemma EverythingMember(c: Catalog, entry: string)
    requires Everything(c).Ok?
    ensures entry in Everything(c).value <==>
            exists s, t :: s in c.schemas.value && c.tables(s).Ok? && t in c.tables(s).value
                           && entry == QuoteQualifiedIdentifier(s, t)
  {
    CollectMember(TablesOfSchema(c), c.schemas.value, entry);
    forall s | s in c.schemas.value
      ensures c.tables(s).Ok?
      ensures entry in TablesOf(c, s).value <==>
              exists t :: t in c.tables(s).value && entry == QuoteQualifiedIdentifier(s, t)
    {
      assert TablesOfSchema(c)(s).Ok?;
      QuoteAllMember(s, c.tables(s).value, entry);
    }
  }

  /** Expanding the wildcard lists every discovered table, and each entry later resolves to the
      table it was made from or is reported as invalid, never to another table. */
  lemma WildcardResolves(c: Catalog, entry: string)
    requires BareCatalog(c) && Expand(c, ["*"]).Ok?
    ensures c.schemas.Ok?
    ensures entry in Expand(c, ["*"]).value ==> Resolves(c, entry)
    ensures (exists s, t :: s in c.schemas.value && c.tables(s).Ok? && t in c.tables(s).value
                           && entry == QuoteQualifiedIdentifier(s, t)) ==> entry in Expand(c, ["*"]).value
  {
    CollectNext(ExpandName(c), ["*"], 0);
    assert ["*"][..1] == ["*"];
    assert Expand(c, ["*"]).value == [] + Everything(c).value;
    EverythingMember(c, entry);
    if s, t :| s in c.schemas.value && c.tables(s).Ok? && t in c.tables(s).value
               && entry == QuoteQualifiedIdentifier(s, t) {
      SplitQualifiedRoundTrip(s, t);
    }
  }

  /** A name that can stand in a qualified name and is no wildcard. */
  predicate IsPlain(s: string) {
    IsBareName(s) && '.' !in s && s != "*"
  }

  lemma ExpandEntry(c: Catalog, schema: string, table: string)
    requires IsPlain(schema) && IsPlain(table)
    ensures var entry := QuoteQualifiedIdentifier(schema, table); ExpandOne(c, entry) == Ok([entry])
  {
    SplitQualifiedRoundTrip(schema, table);
    assert QuoteQualifiedIdentifier(schema, table)[0] == '"';
  }

  ghost predicate IsEntry(entry: string) {
    exists s, t :: IsPlain(s) && IsPlain(t) && entry == QuoteQualifiedIdentifier(s, t)
  }

  lemma EntryStays(c: Catalog, entry: string)
    requires IsEntry(entry)
    ensures ExpandName(c)(entry) == Ok([entry])
  {
    var s, t :| IsPlain(s) && IsPlain(t) && entry == QuoteQualifiedIdentifier(s, t);
    ExpandEntry(c, s, t);
  }

  /** One more element that `f` leaves as it is. */
  lemma CollectSingle(f: string -> Names, xs: seq<string>, i: nat)
    requires i < |xs| && Collect(f, xs[..i]) == Ok(xs[..i]) && f(xs[i]) == Ok([xs[i]])
    ensures Collect(f, xs[..i + 1]) == Ok(xs[..i + 1])
  {
    CollectNext(f, xs, i);
    assert xs[..i + 1] == xs[..i] + [xs[i]];
  }

  lemma {:induction false} CollectSingles(f: string -> Names, xs: seq<string>, i: nat)
    requires i <= |xs| && forall x :: x in xs ==> f(x) == Ok([x])
    ensures Collect(f, xs[..i]) == Ok(xs[..i])
  {
    if i == 0 {
    } else {
      CollectSingles(f, xs, i - 1);
      CollectSingle(f, xs, i - 1);
    }
  }

  ghost predicate Discovered(c: Catalog, schema: string, table: string) {
    c.schemas.Ok? && schema in c.schemas.value && c.tables(schema).Ok? && table in c.tables(schema).value
  }

  /** No discovered name is itself a wildcard. */
  ghost predicate NoWildcards(c: Catalog) {
    forall s, t :: Discovered(c, s, t) ==> s != "*" && t != "*"
  }

  ghost predicate NoDots(c: Catalog) {
    forall s, t :: Discovered(c, s, t) ==> '.' !in s && '.' !in t
  }

  lemma PlainEntry(c: Catalog, entry: string)
    requires BareCatalog(c) && NoWildcards(c) && NoDots(c) && Resolves(c, entry)
    ensures IsEntry(entry)
  {
    var s, t :| Discovered(c, s, t) && entry == QuoteQualifiedIdentifier(s, t);
    assert IsPlain(s) && IsPlain(t);
  }

  lemma PlainStays(c: Catalog)
    requires BareCatalog(c) && NoWildcards(c) && NoDots(c) && Expand(c, ["*"]).Ok?
    ensures Expand(c, Expand(c, ["*"]).value) == Expand(c, ["*"])
  {
    var entries := Expand(c, ["*"]).value;
    forall e | e in entries ensures ExpandName(c)(e) == Ok([e]) {
      WildcardResolves(c, e);
      PlainEntry(c, e);
      EntryStays(c, e);
    }
    CollectSingles(ExpandName(c), entries, |entries|);
    assert entries[..|entries|] == entries;
  }

  lemma DottedFails(c: Catalog, schema: string, table: string)
    requires BareCatalog(c) && Expand(c, ["*"]).Ok?
    requires Discovered(c, schema, table) && ('.' in schema || '.' in table)
    ensures Expand(c, Expand(c, ["*"]).value).Err?
  {
    var entries, entry := Expand(c, ["*"]).value, QuoteQualifiedIdentifier(schema, table);
    WildcardResolves(c, entry);
    SplitQualifiedRoundTrip(schema, table);
    assert entry[0] == '"';
    assert ExpandName(c)(entry).Err?;
    if Expand(c, entries).Ok? {
      CollectMember(ExpandName(c), entries, entry);
    }
  }

  /** Expanding what the wildcard expanded to changes nothing, exactly if no discovered name has a
      dot; otherwise the second expansion is an error. */
  lemma ExpandTwice(c: Catalog)
    requires BareCatalog(c) && NoWildcards(c) && Expand(c, ["*"]).Ok?
    ensures Expand(c, Expand(c, ["*"]).value) == Expand(c, ["*"]) <==> NoDots(c)
    ensures Expand(c, Expand(c, ["*"]).value).Ok? <==> NoDots(c)
  {
    if NoDots(c) {
      PlainStays(c);
    } else {
      var s, t :| Discovered(c, s, t) && ('.' in s || '.' in t);
      DottedFails(c, s, t);
    }
  }

  /** A wildcard for the tables of one schema lists exactly that schema's. */
  lemma SchemaWildcard(c: Catalog, schema: string)
    requires IsPlain(schema)
    ensures ExpandOne(c, QuoteIdentifier(schema) + ".*") == TablesOf(c, schema)
  {
    var name := QuoteIdentifier(schema) + "." + "*";
    assert QuoteIdentifier(schema) + ".*" == name;
    DotsShow(schema);
    QuoteRoundTrip(schema);
    SplitCons(QuoteIdentifier(schema), "*", '.');
    SplitFree("*", '.');
    assert name[0] == '"';
  }

  // ---------- what the forms of a name mean ----------

  /** Quoting doubles each quote of a bare name and adds one at either end. */
  lemma {:induction false} DoubleAround(a: string, b: string)
    requires '"' !in a && '"' !in b
    ensures Double(a) == a && Double(a + "\"" + b) == a + "\"\"" + b
  {
    DoublePlain(b);
    if a == "" {
      assert (a + "\"" + b)[1..] == b;
    } else {
      assert (a + "\"" + b)[1..] == a[1..] + "\"" + b;
      DoubleAround(a[1..], b);
      assert a == [a[0]] + a[1..];
    }
  }

  lemma {:induction false} DoublePlain(s: string)
    requires '"' !in s
    ensures Double(s) == s
  {
    if s == "" {
    } else {
      DoublePlain(s[1..]);
      assert s == [s[0]] + s[1..];
    }
  }

  /** `ab` is written as `"ab"`. */
  lemma PlainText(s: string)
    requires s != "" && '"' !in s && NUL !in s
    ensures QuoteIdentifier(s) == "\"" + s + "\""
  {
    DoublePlain(s);
    assert UpToNul(s) == s;
  }

  /** `a"b` is written as `"a""b"`, and read back from that. */
  lemma QuotedText(a: string, b: string)
    requires a != "" && '"' !in a && '"' !in b && NUL !in a && NUL !in b
    ensures QuoteIdentifier(a + "\"" + b) == "\"" + (a + "\"\"" + b) + "\""
    ensures UnquoteIdentifier("\"" + (a + "\"\"" + b) + "\"") == a + "\"" + b
  {
    var name := a + "\"" + b;
    DoubleAround(a, b);
    assert name[0] == a[0] != '"' && UpToNul(name) == name;
    QuoteRoundTrip(name);
  }

  /** A bare name is one of the public schema; a wildcard schema stands for everything, whatever the
      table; and more than one dot is an error. */
  lemma ExpandForms(c: Catalog, schema: string, table: string)
    requires IsPlain(schema) && IsPlain(table)
    ensures ExpandOne(c, table) == Ok([QuoteQualifiedIdentifier("public", table)])
    ensures ExpandOne(c, schema + "." + table) == Ok([QuoteQualifiedIdentifier(schema, table)])
    ensures ExpandOne(c, "*") == Everything(c) && ExpandOne(c, "*" + "." + table) == Everything(c)
    ensures ExpandOne(c, schema + "." + "*") == TablesOf(c, schema)
  {
    SplitFree(table, '.');
    SplitCons(schema, table, '.');
    SplitCons("*", table, '.');
    SplitFree("*", '.');
    SplitCons(schema, "*", '.');
  }

  lemma TooManyDots(c: Catalog, name: string)
    requires Count(name, '.') > 1
    ensures ExpandOne(c, name) == Err(BadName(InvalidTableName(name)))
  {
    JoinSplit(name, '.');
    CountZero(name, '.');
  }
}
