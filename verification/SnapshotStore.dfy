/** The request store: rows in creation order, updated in place and never removed; and
    the recorder's filter over it. */
module SnapshotStore {
  import opened Text
  import opened SnapshotRequests

  type Store = seq<Row>
  type Tables = map<string, seq<string>>

  /** `UpdateSnapshotRequest`: completed rows are out of its reach. */
  function Updated(r: Row, row: Row): Row {
    if r.schema == row.schema && r.tables == row.tables && r.status != Completed
    then r.(status := row.status, errors := row.errors)
    else r
  }

  function Update(store: Store, row: Row): (out: Store)
    ensures |out| == |store|
    ensures forall i :: 0 <= i < |store| ==> out[i] == Updated(store[i], row)
  {
    seq(|store|, i requires 0 <= i < |store| => Updated(store[i], row))
  }

  /** `CreateSnapshotRequest`: the row starts out as requested and without errors. */
  function Inserted(req: Row): Row {
    req.(status := Requested, errors := None)
  }

  function RowsOf(store: Store, schema: string): Store {
    if store == [] then []
    else
      var last := store[|store| - 1];
      RowsOf(store[..|store| - 1], schema) + if last.schema == schema then [last] else []
  }

  /** The most recent request that names the table. */
  function Latest(store: Store, schema: string, table: string): Option<Row> {
    if store == [] then None
    else
      var last := store[|store| - 1];
      if last.schema == schema && table in last.tables then Some(last)
      else Latest(store[..|store| - 1], schema, table)
  }

  lemma LatestAppend(store: Store, row: Row, schema: string, table: string)
    ensures Latest(store + [row], schema, table) ==
            if row.schema == schema && table in row.tables then Some(row) else Latest(store, schema, table)
  {
    assert (store + [row])[..|store|] == store;
  }

  lemma {:induction false} LatestUpdate(store: Store, row: Row, schema: string, table: string)
    ensures Latest(Update(store, row), schema, table) ==
            match Latest(store, schema, table)
            case None => None
            case Some(r) => Some(Updated(r, row))
  {
    if store == [] {
    } else {
      LatestUpdate(store[..|store| - 1], row, schema, table);
      assert Update(store, row)[..|store| - 1] == Update(store[..|store| - 1], row);
    }
  }

  lemma {:induction false} LatestOfRows(store: Store, schema: string, table: string)
    ensures Latest(RowsOf(store, schema), schema, table) == Latest(store, schema, table)
    ensures forall r :: r in RowsOf(store, schema) ==> r.schema == schema && r in store
  {
    if store == [] {
    } else {
      var init, last := store[..|store| - 1], store[|store| - 1];
      LatestOfRows(init, schema, table);
      if last.schema == schema {
        LatestAppend(RowsOf(init, schema), last, schema, table);
      } else {
        assert RowsOf(init, schema) + [] == RowsOf(init, schema);
      }
    }
  }

  // ---------- what one read returns ----------

  /** The most requests that one read of the store returns. */
  const QUERY_LIMIT: nat := 1000

  /** `GetSnapshotRequestsBySchema`: the oldest requests of the schema, in creation order. */
  function Read(store: Store, schema: string): Store {
    var rows := RowsOf(store, schema);
    if |rows| <= QUERY_LIMIT then rows else rows[..QUERY_LIMIT]
  }

  /** The most recent request for the table among those that a read returns. */
  function Seen(store: Store, schema: string, table: string): Option<Row> {
    Latest(Read(store, schema), schema, table)
  }

  /** Up to the limit nothing is missed. */
  lemma SeenIsLatest(store: Store, schema: string, table: string)
    requires |RowsOf(store, schema)| <= QUERY_LIMIT
    ensures Seen(store, schema, table) == Latest(store, schema, table)
  {
    LatestOfRows(store, schema, table);
  }

  lemma RowsOfAppend(store: Store, row: Row, schema: string)
    ensures RowsOf(store + [row], schema) == RowsOf(store, schema) + if row.schema == schema then [row] else []
  {
    assert (store + [row])[..|store|] == store;
  }

  lemma {:induction false} RowsOfUpdate(store: Store, row: Row, schema: string)
    ensures RowsOf(Update(store, row), schema) == Update(RowsOf(store, schema), row)
  {
    if store == [] {
      assert Update(store, row) == [];
    } else {
      var n := |store| - 1;
      RowsOfUpdate(store[..n], row, schema);
      assert Update(store, row)[..n] == Update(store[..n], row);
    }
  }

  lemma FrontOfAppend(rows: Store, row: Row, n: nat)
    requires n <= |rows|
    ensures (rows + [row])[..n] == rows[..n]
  {
  }

  /** A new request is read as long as its schema has not reached the limit. */
  lemma ReadAppend(store: Store, row: Row, schema: string)
    ensures Read(store + [row], schema) ==
            if row.schema == schema && |RowsOf(store, schema)| < QUERY_LIMIT then Read(store, schema) + [row]
            else Read(store, schema)
  {
    var rows := RowsOf(store, schema);
    RowsOfAppend(store, row, schema);
    if row.schema == schema {
      if |rows| >= QUERY_LIMIT {
        FrontOfAppend(rows, row, QUERY_LIMIT);
      }
      assert |rows| == QUERY_LIMIT ==> rows[..QUERY_LIMIT] == rows;
    } else {
      assert rows + [] == rows;
    }
  }

  lemma SeenAppend(store: Store, row: Row, schema: string, table: string)
    ensures Seen(store + [row], schema, table) ==
            if row.schema == schema && table in row.tables && |RowsOf(store, schema)| < QUERY_LIMIT then Some(row)
            else Seen(store, schema, table)
  {
    ReadAppend(store, row, schema);
    LatestAppend(Read(store, schema), row, schema, table);
  }

  lemma ReadUpdate(store: Store, row: Row, schema: string)
    ensures Read(Update(store, row), schema) == Update(Read(store, schema), row)
  {
    RowsOfUpdate(store, row, schema);
  }

  lemma SeenUpdate(store: Store, row: Row, schema: string, table: string)
    ensures Seen(Update(store, row), schema, table) ==
            match Seen(store, schema, table)
            case None => None
            case Some(r) => Some(Updated(r, row))
  {
    ReadUpdate(store, row, schema);
    LatestUpdate(Read(store, schema), row, schema, table);
  }

  lemma {:induction false} RowsOfMember(store: Store, schema: string)
    ensures forall r :: r in RowsOf(store, schema) ==> r in store && r.schema == schema
  {
    if store == [] {
    } else {
      RowsOfMember(store[..|store| - 1], schema);
    }
  }

  lemma SeenNamesTable(store: Store, schema: string, table: string)
    ensures Seen(store, schema, table).Some? ==>
              var r := Seen(store, schema, table).value; r in store && r.schema == schema && table in r.tables
  {
    RowsOfMember(store, schema);
    LatestNamesTable(Read(store, schema), schema, table);
  }

  lemma {:induction false} LatestNamesTable(store: Store, schema: string, table: string)
    ensures Latest(store, schema, table).Some? ==>
              var r := Latest(store, schema, table).value; r in store && r.schema == schema && table in r.tables
    ensures Latest(store, schema, table).None? ==>
              forall r :: r in store && r.schema == schema ==> table !in r.tables
  {
    if store == [] {
    } else {
      LatestNamesTable(store[..|store| - 1], schema, table);
    }
  }

  // ---------- the filter ----------

  predicate FailedFor(r: Option<Row>, table: string) {
    r.Some? && r.value.HasFailedForTable(table)
  }

  /** Whether the filter lets a concrete table through. */
  predicate Keeps(store: Store, schema: string, table: string) {
    var own, wild := Seen(store, schema, table), Seen(store, schema, WILDCARD);
    FailedFor(own, table) || FailedFor(wild, table) || (own.None? && wild.None?)
  }

  /** What one requested entry contributes; the order of a wildcard's failed tables is open. */
  ghost predicate Contributes(store: Store, schema: string, table: string, out: seq<string>) {
    if table != WILDCARD then out == if Keeps(store, schema, table) then [table] else []
    else
      var wild := Seen(store, schema, WILDCARD);
      if wild.Some? && !IsGlobalError(wild.value.errors)
      then IsListingOf(out, FailedTables(wild.value.errors))
      else out == [table]
  }

  function Concat(chunks: seq<seq<string>>): seq<string> {
    if chunks == [] then [] else Concat(chunks[..|chunks| - 1]) + chunks[|chunks| - 1]
  }

  lemma ConcatAppend(chunks: seq<seq<string>>, chunk: seq<string>)
    ensures Concat(chunks + [chunk]) == Concat(chunks) + chunk
  {
    assert (chunks + [chunk])[..|chunks|] == chunks;
  }

  lemma {:induction false} ConcatMember(chunks: seq<seq<string>>, t: string)
    ensures t in Concat(chunks) <==> exists i :: 0 <= i < |chunks| && t in chunks[i]
  {
    if chunks == [] {
    } else {
      ConcatMember(chunks[..|chunks| - 1], t);
    }
  }

  ghost predicate ContributesAll(store: Store, schema: string, tables: seq<string>, chunks: seq<seq<string>>) {
    |chunks| == |tables| && forall i :: 0 <= i < |tables| ==> Contributes(store, schema, tables[i], chunks[i])
  }

  lemma ContributesNext(store: Store, schema: string, tables: seq<string>, chunks: seq<seq<string>>, i: nat,
                        more: seq<string>)
    requires i < |tables| && ContributesAll(store, schema, tables[..i], chunks)
    requires Contributes(store, schema, tables[i], more)
    ensures ContributesAll(store, schema, tables[..i + 1], chunks + [more])
  {
    forall j | 0 <= j < i + 1 ensures Contributes(store, schema, tables[..i + 1][j], (chunks + [more])[j]) {
      if j < i {
        assert Contributes(store, schema, tables[..i][j], chunks[j]);
      }
    }
  }

  /** `out` is what the entries of `tables` contribute, one after the other. */
  ghost predicate Filtered(store: Store, schema: string, tables: seq<string>, out: seq<string>) {
    exists chunks :: ContributesAll(store, schema, tables, chunks) && out == Concat(chunks)
  }

  lemma {:induction false} Singletons(tables: seq<string>)
    ensures Concat(seq(|tables|, i requires 0 <= i < |tables| => [tables[i]])) == tables
  {
    if tables == [] {
    } else {
      var n := |tables| - 1;
      var chunks := seq(|tables|, i requires 0 <= i < |tables| => [tables[i]]);
      assert chunks[..n] == seq(n, i requires 0 <= i < n => [tables[..n][i]]);
      Singletons(tables[..n]);
    }
  }

  lemma NothingRecorded(store: Store, schema: string, tables: seq<string>)
    requires Read(store, schema) == []
    ensures Filtered(store, schema, tables, tables)
  {
    var chunks := seq(|tables|, i requires 0 <= i < |tables| => [tables[i]]);
    Singletons(tables);
    assert ContributesAll(store, schema, tables, chunks);
  }

  /** The nested loops' map from each named table to its most recent request. */
  ghost predicate Indexed(existing: map<string, Row>, requests: Store, schema: string) {
    forall t :: Latest(requests, schema, t) == if t in existing then Some(existing[t]) else None
  }

  method IndexRequests(requests: Store, schema: string) returns (existing: map<string, Row>)
    requires forall r :: r in requests ==> r.schema == schema
    ensures Indexed(existing, requests, schema)
  {
    existing := map[];
    for i := 0 to |requests|
      invariant Indexed(existing, requests[..i], schema)
    {
      var req := requests[i];
      ghost var before := existing;
      for j := 0 to |req.tables|
        invariant forall t :: t in existing <==> t in before || t in req.tables[..j]
        invariant forall t :: t in existing ==> existing[t] == if t in req.tables[..j] then req else before[t]
      {
        existing := existing[req.tables[j] := req];
      }
      assert req.tables[..|req.tables|] == req.tables;
      assert requests[..i + 1] == requests[..i] + [req];
      forall t ensures Latest(requests[..i + 1], schema, t) == if t in existing then Some(existing[t]) else None {
        LatestAppend(requests[..i], req, schema, t);
      }
    }
    assert requests[..|requests|] == requests;
  }

  /** The switch in the body of the filter's loop. */
  method FilterOne(ghost store: Store, existing: map<string, Row>, schema: string, table: string)
    returns (more: seq<string>)
    requires Indexed(existing, Read(store, schema), schema)
    ensures Contributes(store, schema, table, more)
  {
    assert Seen(store, schema, table) == if table in existing then Some(existing[table]) else None;
    assert Seen(store, schema, WILDCARD) == if WILDCARD in existing then Some(existing[WILDCARD]) else None;
    if table == WILDCARD {
      if WILDCARD in existing && !IsGlobalError(existing[WILDCARD].errors) {
        more := ListKeys(FailedTables(existing[WILDCARD].errors));
      } else {
        more := [table];
      }
    } else {
      if (table in existing && existing[table].HasFailedForTable(table))
         || (WILDCARD in existing && existing[WILDCARD].HasFailedForTable(table))
         || (table !in existing && WILDCARD !in existing) {
        more := [table];
      } else {
        more := [];
      }
    }
  }

  /** `requests` is what the store returned for the schema. */
  method FilterOutExistingSchemaTables(ghost store: Store, requests: Store, schema: string, tables: seq<string>)
    returns (filtered: seq<string>)
    requires requests == Read(store, schema)
    ensures Filtered(store, schema, tables, filtered)
  {
    if |requests| == 0 {
      NothingRecorded(store, schema, tables);
      return tables;
    }
    RowsOfMember(store, schema);
    var existing := IndexRequests(requests, schema);
    filtered := [];
    ghost var chunks: seq<seq<string>> := [];
    for i := 0 to |tables|
      invariant filtered == Concat(chunks) && ContributesAll(store, schema, tables[..i], chunks)
    {
      var more := FilterOne(store, existing, schema, tables[i]);
      ConcatAppend(chunks, more);
      ContributesNext(store, schema, tables, chunks, i, more);
      filtered, chunks := filtered + more, chunks + [more];
    }
    assert tables[..|tables|] == tables;
  }

  /** The snapshot that is left of `asked`; schemas with nothing left are dropped. */
  ghost predicate IsPlan(repeatable: bool, store: Store, asked: Tables, plan: Tables) {
    if repeatable then plan == asked
    else
      && plan.Keys <= asked.Keys
      && forall s :: s in asked ==>
           Filtered(store, s, asked[s], if s in plan then plan[s] else []) && (s in plan ==> plan[s] != [])
  }

  /** `filterOutExistingSnapshots`; `readError` says for which schemas reading the store fails. */
  method FilterOutExistingSnapshots(repeatable: bool, store: Store, readError: map<string, string>, asked: Tables)
    returns (r: Result<Tables, (string, string)>)
    ensures r.Ok? ==> IsPlan(repeatable, store, asked, r.value)
    ensures r.Err? <==> !repeatable && asked.Keys * readError.Keys != {}
    ensures r.Err? ==> r.error.0 in asked && r.error.0 in readError && readError[r.error.0] == r.error.1
  {
    if repeatable {
      return Ok(asked);
    }
    var plan: Tables := map[];
    var left := asked.Keys;
    while left != {}
      invariant left <= asked.Keys && plan.Keys <= asked.Keys - left
      invariant forall s :: s in asked.Keys - left ==>
                  s !in readError
                  && Filtered(store, s, asked[s], if s in plan then plan[s] else [])
                  && (s in plan ==> plan[s] != [])
      decreases left
    {
      var s :| s in left;
      if s in readError {
        assert s in asked.Keys * readError.Keys;
        return Err((s, readError[s]));
      }
      var requests := Read(store, s);
      var kept := FilterOutExistingSchemaTables(store, requests, s, asked[s]);
      if |kept| > 0 {
        plan := plan[s := kept];
      }
      left := left - {s};
    }
    return Ok(plan);
  }

  ghost predicate Concrete(tables: Tables) {
    forall s :: s in tables ==> WILDCARD !in tables[s]
  }

  ghost predicate NoWildcardRow(store: Store) {
    forall r :: r in store ==> WILDCARD !in r.tables
  }

  /** Whether one requested entry puts the table into the plan: a concrete table itself, and a
      wildcard the tables that failed in the most recent wildcard request read, or only itself if
      there is none or it failed as a whole. */
  predicate Yields(store: Store, schema: string, entry: string, table: string) {
    if entry != WILDCARD then table == entry && Keeps(store, schema, entry)
    else
      var wild := Seen(store, schema, WILDCARD);
      if wild.Some? && !IsGlobalError(wild.value.errors) then table in FailedTables(wild.value.errors)
      else table == WILDCARD
  }

  lemma ContributesMember(store: Store, schema: string, entry: string, out: seq<string>, table: string)
    requires Contributes(store, schema, entry, out)
    ensures table in out <==> Yields(store, schema, entry, table)
  {
  }

  lemma FilteredMember(store: Store, schema: string, entries: seq<string>, out: seq<string>, table: string)
    requires Filtered(store, schema, entries, out)
    ensures table in out <==> exists i :: 0 <= i < |entries| && Yields(store, schema, entries[i], table)
  {
    var chunks :| ContributesAll(store, schema, entries, chunks) && out == Concat(chunks);
    ConcatMember(chunks, table);
    forall i | 0 <= i < |entries| ensures table in chunks[i] <==> Yields(store, schema, entries[i], table) {
      ContributesMember(store, schema, entries[i], chunks[i], table);
    }
  }

  /** Exactly what is in the plan of a run, whatever is requested and recorded. */
  lemma PlanMember(store: Store, asked: Tables, plan: Tables, schema: string, table: string)
    requires IsPlan(false, store, asked, plan)
    ensures (schema in plan && table in plan[schema]) <==>
            (schema in asked && exists i :: 0 <= i < |asked[schema]| && Yields(store, schema, asked[schema][i], table))
  {
    if schema in asked {
      FilteredMember(store, schema, asked[schema], if schema in plan then plan[schema] else [], table);
    }
  }

  lemma YieldsConcrete(store: Store, schema: string, entry: string, table: string)
    requires NoWildcardRow(store) && entry != WILDCARD
    ensures Yields(store, schema, entry, table) <==>
            table == entry && (Seen(store, schema, table).None? || FailedFor(Seen(store, schema, table), table))
  {
    SeenNamesTable(store, schema, WILDCARD);
  }

  /** For concrete tables and no recorded wildcard, exactly the requested tables are left for which
      a read returns no request, or whose most recent one that it returns has failed for them. */
  lemma PlanExact(store: Store, asked: Tables, plan: Tables, schema: string, table: string)
    requires IsPlan(false, store, asked, plan) && Concrete(asked) && NoWildcardRow(store)
    ensures (schema in plan && table in plan[schema]) <==>
            (schema in asked && table in asked[schema]
             && (Seen(store, schema, table).None? || FailedFor(Seen(store, schema, table), table)))
  {
    PlanMember(store, asked, plan, schema, table);
    if schema in asked {
      forall i | 0 <= i < |asked[schema]|
        ensures Yields(store, schema, asked[schema][i], table) <==>
                table == asked[schema][i]
                && (Seen(store, schema, table).None? || FailedFor(Seen(store, schema, table), table))
      {
        YieldsConcrete(store, schema, asked[schema][i], table);
      }
    }
  }

  // ---------- the plan, over the requests read ----------

  /** The last of the requests that names the table. */
  predicate LastNaming(rows: Store, k: nat, table: string) {
    k < |rows| && table in rows[k].tables && forall j :: k < j < |rows| ==> table !in rows[j].tables
  }

  /** The request completed with an error of the whole schema or of this table. */
  predicate RecordsFailure(r: Row, table: string) {
    r.status == Completed && r.errors.Some? && (r.errors.value.globals != [] || table in r.errors.value.tables)
  }

  /** The last request that names `name` records a failure of the table. */
  ghost predicate LastFails(rows: Store, name: string, table: string) {
    exists k: nat :: LastNaming(rows, k, name) && RecordsFailure(rows[k], table)
  }

  predicate NamesNone(rows: Store, table: string) {
    forall r :: r in rows ==> table !in r.tables
  }

  /** What a requested wildcard is replaced by: the tables that failed in the last wildcard request,
      or itself when there is none or that failed as a whole. */
  ghost predicate StandsFor(rows: Store, table: string) {
    || (table == WILDCARD && NamesNone(rows, WILDCARD))
    || exists k: nat :: LastNaming(rows, k, WILDCARD)
         && var e := rows[k].errors;
            if e.Some? && e.value.globals != [] then table == WILDCARD else e.Some? && table in e.value.tables
  }

  /** A request for other tables is the last for none of them. */
  lemma SameLast(init: Store, row: Row, table: string)
    requires table !in row.tables
    ensures forall k: nat :: LastNaming(init + [row], k, table) <==> LastNaming(init, k, table)
  {
    forall k: nat ensures LastNaming(init + [row], k, table) <==> LastNaming(init, k, table) {
      if LastNaming(init, k, table) {
        assert forall j :: k < j < |init| ==> (init + [row])[j] == init[j];
      }
      if LastNaming(init + [row], k, table) {
        assert forall j :: k < j < |init| ==> init[j] == (init + [row])[j];
      }
    }
  }

  lemma {:induction false} LatestNaming(rows: Store, schema: string, table: string)
    requires forall r :: r in rows ==> r.schema == schema
    ensures Latest(rows, schema, table) == None <==> NamesNone(rows, table)
    ensures forall k: nat :: LastNaming(rows, k, table) ==> Latest(rows, schema, table) == Some(rows[k])
    ensures Latest(rows, schema, table).Some? ==> exists k: nat :: LastNaming(rows, k, table)
  {
    if rows == [] {
    } else {
      var n := |rows| - 1;
      var init := rows[..n];
      LatestNaming(init, schema, table);
      assert rows == init + [rows[n]];
      if table in rows[n].tables {
        assert LastNaming(rows, n, table);
      } else {
        SameLast(init, rows[n], table);
      }
    }
  }

  lemma SeenNaming(store: Store, schema: string, table: string)
    ensures var rows := Read(store, schema);
            && (Seen(store, schema, table) == None <==> NamesNone(rows, table))
            && (forall k: nat :: LastNaming(rows, k, table) ==> Seen(store, schema, table) == Some(rows[k]))
            && (Seen(store, schema, table).Some? ==> exists k: nat :: LastNaming(rows, k, table))
  {
    RowsOfMember(store, schema);
    LatestNaming(Read(store, schema), schema, table);
  }

  /** A concrete table is left exactly if the last request for it or the last wildcard request
      records a failure of it, or there is neither. */
  lemma YieldsTable(store: Store, schema: string, entry: string, table: string)
    requires entry != WILDCARD
    ensures var rows := Read(store, schema);
            Yields(store, schema, entry, table) <==>
            table == entry
            && (LastFails(rows, table, table) || LastFails(rows, WILDCARD, table)
                || (NamesNone(rows, table) && NamesNone(rows, WILDCARD)))
  {
    SeenNaming(store, schema, entry);
    SeenNaming(store, schema, WILDCARD);
  }

  lemma YieldsWildcard(store: Store, schema: string, table: string)
    ensures Yields(store, schema, WILDCARD, table) <==> StandsFor(Read(store, schema), table)
  {
    SeenNaming(store, schema, WILDCARD);
  }

  /** Exactly what is in the plan, told by nothing but the requests that a read returns. A wildcard
      request that failed, as a whole or for the table, leaves the table whatever else is recorded;
      one that did not covers it, unless the table's own last request failed. */
  lemma PlanOverRows(store: Store, asked: Tables, plan: Tables, schema: string, table: string)
    requires IsPlan(false, store, asked, plan)
    ensures var rows := Read(store, schema);
            (schema in plan && table in plan[schema]) <==>
            schema in asked
            && ((WILDCARD in asked[schema] && StandsFor(rows, table))
                || (table in asked[schema] && table != WILDCARD
                    && (LastFails(rows, table, table) || LastFails(rows, WILDCARD, table)
                        || (NamesNone(rows, table) && NamesNone(rows, WILDCARD)))))
  {
    PlanMember(store, asked, plan, schema, table);
    if schema in asked {
      YieldsWildcard(store, schema, table);
      forall i | 0 <= i < |asked[schema]| && asked[schema][i] != WILDCARD
        ensures Yields(store, schema, asked[schema][i], table) ==> table == asked[schema][i] {
      }
      if table != WILDCARD {
        YieldsTable(store, schema, table, table);
      }
    }
  }

  /** After a run for `*` that failed as a whole, `users` is handed over; after a clean one it is not. */
  lemma AfterWildcardHere(clean: bool, plan: Tables)
    requires var errs := if clean then None else Some(Errs("public", ["boom"], map[]));
             IsPlan(false, [Row("public", [WILDCARD], Completed, errs)], map["public" := ["users"]], plan)
    ensures ("public" in plan && "users" in plan["public"]) <==> !clean
  {
    var errs := if clean then None else Some(Errs("public", ["boom"], map[]));
    var rows := [Row("public", [WILDCARD], Completed, errs)];
    AllOfSchema(rows, "public");
    assert LastNaming(rows, 0, WILDCARD);
    PlanOverRows(rows, map["public" := ["users"]], plan, "public", "users");
  }

  /** Beyond the limit a table is asked for again although its latest request completed without an
      error: `QUERY_LIMIT` older requests of the schema hide it. */
  lemma LimitHidesRequest(schema: string, other: string, table: string, plan: Tables)
    requires other != table && table != WILDCARD && other != WILDCARD
    ensures var old_ := seq(1000, i => Row(schema, [other], Completed, None));
            var store := old_ + [Row(schema, [table], Completed, None)];
            && Latest(store, schema, table) == Some(Row(schema, [table], Completed, None))
            && (IsPlan(false, store, map[schema := [table]], plan) ==> schema in plan && table in plan[schema])
  {
    var old_ := seq(1000, i => Row(schema, [other], Completed, None));
    var row := Row(schema, [table], Completed, None);
    LatestAppend(old_, row, schema, table);
    BehindLimit(old_, row, schema, table);
    if IsPlan(false, old_ + [row], map[schema := [table]], plan) {
      PlanExact(old_ + [row], map[schema := [table]], plan, schema, table);
    }
  }

  lemma BehindLimit(store: Store, row: Row, schema: string, table: string)
    requires |store| == QUERY_LIMIT && forall r :: r in store ==> r.schema == schema && table !in r.tables
    ensures Seen(store + [row], schema, table) == None
  {
    AllOfSchema(store, schema);
    SeenAppend(store, row, schema, table);
    LatestNamesTable(store, schema, table);
  }

  lemma {:induction false} AllOfSchema(store: Store, schema: string)
    requires forall r :: r in store ==> r.schema == schema
    ensures RowsOf(store, schema) == store
  {
    if store == [] {
    } else {
      AllOfSchema(store[..|store| - 1], schema);
      assert store == store[..|store| - 1] + [store[|store| - 1]];
    }
  }
}
