/** What becomes of the other ALTER TABLE statements: a column added, altered or dropped, whatever
    follows its name, a primary key added, a table renamed. */
module AlterTable {
  import opened Text
  import opened Regex
  import opened Words
  import opened SchemaDiff
  import opened Patterns

  // ---------- ADD, ALTER and DROP COLUMN ----------

  /** `words` is all that follows COLUMN. */
  function ColumnStatement(verb: string, t: string, words: seq<string>): seq<string> {
    ["ALTER", "TABLE", t, verb, "COLUMN"] + words
  }

  predicate IsVerb(verb: string) {
    verb == "ADD" || verb == "ALTER" || verb == "DROP"
  }

  /** How many of the words make up the optional clause in front of the column's name: IF NOT EXISTS
      behind ADD and IF EXISTS behind DROP, if a name follows. */
  function ClauseLength(verb: string, words: seq<string>): (n: nat)
    ensures words != [] ==> n < |words|
  {
    if verb == "ADD" && |words| > 3
       && Lower(words[0]) == "if" && Lower(words[1]) == "not" && Lower(words[2]) == "exists" then 3
    else if verb == "DROP" && |words| > 2 && Lower(words[0]) == "if" && Lower(words[1]) == "exists" then 2
    else 0
  }

  /** The column that the statement names. */
  function NamedBy(verb: string, words: seq<string>): string
    requires words != []
  {
    words[ClauseLength(verb, words)]
  }

  /** A statement about a plain column of a plain table, with anything behind the column's name. */
  predicate IsColumnStatement(verb: string, t: string, words: seq<string>) {
    IsVerb(verb) && PlainName(t) && AllWords(words) && words != [] && PlainName(NamedBy(verb, words))
  }

  lemma ColumnWords(verb: string, t: string, words: seq<string>)
    requires IsVerb(verb) && PlainName(t) && AllWords(words)
    ensures AllWords(ColumnStatement(verb, t, words))
  {
  }

  lemma LowerVerbs()
    ensures Lower("ALTER") == "alter" && Lower("TABLE") == "table" && Lower("COLUMN") == "column"
    ensures Lower("ADD") == "add" && Lower("DROP") == "drop" && Lower("RENAME") == "rename" && Lower("TO") == "to"
    ensures Lower("CONSTRAINT") == "constraint" && Lower("PRIMARY") == "primary" && Lower("KEY") == "key"
    ensures Lower("IF") == "if" && Lower("EXISTS") == "exists"
  {
  }

  /** The verb's phrase stands at its place first. */
  lemma VerbFirst(verb: string, t: string, words: seq<string>, j: nat)
    requires IsVerb(verb) && PlainName(t) && j <= 3
    ensures Across(LowerAll(ColumnStatement(verb, t, words)), j, Lower(verb), "column") <==> j == 3
  {
    var ws := LowerAll(ColumnStatement(verb, t, words));
    LowerVerbs();
    assert ws[0] == "alter" && ws[1] == "table" && ws[3] == Lower(verb) && ws[4] == "column";
    if j < 3 && Across(ws, j, Lower(verb), "column") {
      AcrossEnds(ws, j, Lower(verb), "column");
    }
  }

  lemma FindsColumn(verb: string, t: string, words: seq<string>, rest: Re, f: Found)
    requires IsColumnStatement(verb, t, words) && f.groups == map[2 := NamedBy(verb, words)]
    requires var ws := ColumnStatement(verb, t, words); Prefers(rest, Sentence(ws), Offset(ws, 5), f)
    ensures var ddl := Sentence(ColumnStatement(verb, t, words));
            ExtractName(KeywordRe(Lower(verb), KeywordRe("column", rest)), ddl, 1, 2) == NamedBy(verb, words)
  {
    var ws := ColumnStatement(verb, t, words);
    ColumnWords(verb, t, words);
    assert Lower(ws[3]) == Lower(verb) && Lower(ws[4]) == "column" by {
      LowerVerbs();
    }
    forall j: nat | j < 3 ensures !Across(LowerAll(ws), j, Lower(verb), "column") {
      VerbFirst(verb, t, words, j);
    }
    FindPhrase(ws, 3, Lower(verb), "column", rest, f);
  }

  // ---------- the optional clause ----------

  function ExistsRe(): Re {
    Then(Lit("exists"), Plus(Space))
  }

  function IfExistsRe(): Re {
    KeywordRe("if", ExistsRe())
  }

  function IfNotExistsRe(): Re {
    KeywordRe("if", KeywordRe("not", ExistsRe()))
  }

  lemma IfExistsTaken(ws: seq<string>, k: nat)
    requires AllWords(ws) && k + 2 < |ws| && Lower(ws[k]) == "if" && Lower(ws[k + 1]) == "exists"
    ensures Prefers(IfExistsRe(), Sentence(ws), Offset(ws, k), Moved(Offset(ws, k + 2)))
  {
    LastKeywordAt(ws, k + 1, "exists");
    KeywordAt(ws, k, "if", ExistsRe(), Moved(Offset(ws, k + 2)));
  }

  lemma IfNotExistsTaken(ws: seq<string>, k: nat)
    requires AllWords(ws) && k + 3 < |ws|
    requires Lower(ws[k]) == "if" && Lower(ws[k + 1]) == "not" && Lower(ws[k + 2]) == "exists"
    ensures Prefers(IfNotExistsRe(), Sentence(ws), Offset(ws, k), Moved(Offset(ws, k + 3)))
  {
    var f := Moved(Offset(ws, k + 3));
    LastKeywordAt(ws, k + 2, "exists");
    KeywordAt(ws, k + 1, "not", ExistsRe(), f);
    KeywordAt(ws, k, "if", KeywordRe("not", ExistsRe()), f);
  }

  lemma IfExistsAbsent(ws: seq<string>, k: nat)
    requires AllWords(ws) && k < |ws| && Offset(ws, k) <= |Sentence(ws)|
    requires !(k + 2 < |ws| && Lower(ws[k]) == "if" && Lower(ws[k + 1]) == "exists")
    ensures Matches(IfExistsRe(), Sentence(ws), Offset(ws, k)) == []
  {
    forall e: nat ensures !Spans(IfExistsRe(), Sentence(ws), Offset(ws, k), e) {
      if Spans(IfExistsRe(), Sentence(ws), Offset(ws, k), e) {
        KeywordSpanAt(ws, k, "if", ExistsRe(), e);
        LastKeywordSpanAt(ws, k + 1, "exists", e);
      }
    }
    NoSpanNoMatch(IfExistsRe(), Sentence(ws), Offset(ws, k));
  }

  lemma IfNotExistsAbsent(ws: seq<string>, k: nat)
    requires AllWords(ws) && k < |ws| && Offset(ws, k) <= |Sentence(ws)|
    requires !(k + 3 < |ws| && Lower(ws[k]) == "if" && Lower(ws[k + 1]) == "not" && Lower(ws[k + 2]) == "exists")
    ensures Matches(IfNotExistsRe(), Sentence(ws), Offset(ws, k)) == []
  {
    forall e: nat ensures !Spans(IfNotExistsRe(), Sentence(ws), Offset(ws, k), e) {
      if Spans(IfNotExistsRe(), Sentence(ws), Offset(ws, k), e) {
        KeywordSpanAt(ws, k, "if", KeywordRe("not", ExistsRe()), e);
        KeywordSpanAt(ws, k + 1, "not", ExistsRe(), e);
        LastKeywordSpanAt(ws, k + 2, "exists", e);
      }
    }
    NoSpanNoMatch(IfNotExistsRe(), Sentence(ws), Offset(ws, k));
  }

  /** With the clause or without it, the pattern goes on to the name. */
  lemma NameBehind(ws: seq<string>, k: nat, n: nat, clause: Re)
    requires AllWords(ws) && k + n < |ws| && PlainName(ws[k + n]) && Offset(ws, k) <= |Sentence(ws)|
    requires if n == 0 then Matches(clause, Sentence(ws), Offset(ws, k)) == []
             else Prefers(clause, Sentence(ws), Offset(ws, k), Moved(Offset(ws, k + n)))
    ensures Prefers(Then(Opt(clause), NameRe(1, 2)), Sentence(ws), Offset(ws, k),
                    NameFound(Offset(ws, k + n), ws[k + n], 2))
  {
    var g := NameFound(Offset(ws, k + n), ws[k + n], 2);
    NameAt(ws, k + n, 1, 2);
    if n == 0 {
      PrefersSkip(clause, NameRe(1, 2), Sentence(ws), Offset(ws, k), g);
    } else {
      PrefersOpt(clause, Sentence(ws), Offset(ws, k), Moved(Offset(ws, k + n)));
      PrefersThenPlain(Opt(clause), NameRe(1, 2), Sentence(ws), Offset(ws, k), Offset(ws, k + n), g);
    }
  }

  lemma WordWithin(ws: seq<string>, k: nat)
    requires k < |ws|
    ensures Offset(ws, k) <= |Sentence(ws)|
  {
    WordAt(ws, k);
  }

  lemma ExtractsAdded(t: string, words: seq<string>)
    requires IsColumnStatement("ADD", t, words)
    ensures ExtractName(AddColumnRe(), Sentence(ColumnStatement("ADD", t, words)), 1, 2) == NamedBy("ADD", words)
  {
    var ws, n := ColumnStatement("ADD", t, words), ClauseLength("ADD", words);
    ColumnWords("ADD", t, words);
    WordWithin(ws, 5);
    assert words == ws[5..];
    if n == 0 { IfNotExistsAbsent(ws, 5); } else { IfNotExistsTaken(ws, 5); }
    NameBehind(ws, 5, n, IfNotExistsRe());
    LowerVerbs();
    var f := NameFound(Offset(ws, 5 + n), ws[5 + n], 2);
    FindsColumn("ADD", t, words, Then(Opt(IfNotExistsRe()), NameRe(1, 2)), f);
  }

  lemma ExtractsDropped(t: string, words: seq<string>)
    requires IsColumnStatement("DROP", t, words)
    ensures ExtractName(DropColumnRe(), Sentence(ColumnStatement("DROP", t, words)), 1, 2) == NamedBy("DROP", words)
  {
    var ws, n := ColumnStatement("DROP", t, words), ClauseLength("DROP", words);
    ColumnWords("DROP", t, words);
    WordWithin(ws, 5);
    assert words == ws[5..];
    if n == 0 { IfExistsAbsent(ws, 5); } else { IfExistsTaken(ws, 5); }
    NameBehind(ws, 5, n, IfExistsRe());
    LowerVerbs();
    var f := NameFound(Offset(ws, 5 + n), ws[5 + n], 2);
    FindsColumn("DROP", t, words, Then(Opt(IfExistsRe()), NameRe(1, 2)), f);
  }

  lemma ExtractsAltered(t: string, words: seq<string>)
    requires IsColumnStatement("ALTER", t, words)
    ensures ExtractName(AlterColumnRe(), Sentence(ColumnStatement("ALTER", t, words)), 1, 2) == NamedBy("ALTER", words)
  {
    var ws := ColumnStatement("ALTER", t, words);
    ColumnWords("ALTER", t, words);
    NameAt(ws, 5, 1, 2);
    LowerVerbs();
    FindsColumn("ALTER", t, words, NameRe(1, 2), NameFound(Offset(ws, 5), words[0], 2));
  }

  /** Each extractor takes exactly the column's name, behind the optional clause if that is there and
      whatever follows. */
  lemma ExtractsColumn(verb: string, t: string, words: seq<string>)
    requires IsColumnStatement(verb, t, words)
    ensures var ddl := Sentence(ColumnStatement(verb, t, words));
            && (verb == "ADD" ==> ExtractName(AddColumnRe(), ddl, 1, 2) == NamedBy(verb, words))
            && (verb == "ALTER" ==> ExtractName(AlterColumnRe(), ddl, 1, 2) == NamedBy(verb, words))
            && (verb == "DROP" ==> ExtractName(DropColumnRe(), ddl, 1, 2) == NamedBy(verb, words))
  {
    if verb == "ADD" {
      ExtractsAdded(t, words);
    } else if verb == "ALTER" {
      ExtractsAltered(t, words);
    } else {
      ExtractsDropped(t, words);
    }
  }

  lemma SaysVerb(verb: string, t: string, words: seq<string>)
    requires IsVerb(verb) && PlainName(t) && AllWords(words) && words != []
    ensures var low := Lower(Sentence(ColumnStatement(verb, t, words)));
            && (verb == "ADD" ==> Contains(low, "add column"))
            && (verb == "ALTER" ==> Contains(low, "alter column"))
            && (verb == "DROP" ==> Contains(low, "drop column"))
  {
    var ws := ColumnStatement(verb, t, words);
    ColumnWords(verb, t, words);
    VerbFirst(verb, t, words, 3);
    LowerVerbs();
    assert Says(ws, Lower(verb), "column");
    SwitchPhrases(ws);
  }

  // ---------- what earlier cases of the switch look for ----------

  predicate SaysPrimaryKey(ddl: string) {
    Contains(Lower(ddl), "add constraint") && Contains(Lower(ddl), "primary key")
  }

  predicate SaysRename(ddl: string) {
    Contains(Lower(ddl), "rename to")
  }

  /** The cases in front of the one for added, altered and dropped columns. */
  predicate IsForAdd(ddl: string) {
    !SaysPrimaryKey(ddl) && !SaysRename(ddl)
  }

  predicate IsForAlter(ddl: string) {
    IsForAdd(ddl) && !Contains(Lower(ddl), "add column")
  }

  predicate IsForDrop(ddl: string) {
    IsForAlter(ddl) && !Contains(Lower(ddl), "alter column")
  }

  lemma OneObject(ddl: string, o: Object)
    ensures DiffsOfObjects(ddl, [o]) == if DiffOfObject(ddl, o).IsEmpty() then [] else [DiffOfObject(ddl, o)]
  {
    assert [o][..0] == [];
  }

  lemma AddCase(ddl: string, o: Object, col: Column, c: string)
    requires Contains(Lower(ddl), "add column") && c != ""
    requires ExtractName(AddColumnRe(), ddl, 1, 2) == c && ColumnByName(o.columns, c) == Some(col)
    ensures DiffOfObject(ddl, o).columnsAdded == if IsForAdd(ddl) then [col] else []
    ensures IsForAdd(ddl) ==> DiffOfObject(ddl, o) == Unchanged(o).(columnsAdded := [col])
  {
  }

  /** The new type of a column, of which the old one is not known. */
  function Retyped(col: Column): ColumnDiff {
    ColumnDiff(col.name, "", None, Some(ValueChange("", col.typ)))
  }

  lemma AlterCase(ddl: string, o: Object, col: Column, c: string)
    requires Contains(Lower(ddl), "alter column") && c != ""
    requires ExtractName(AlterColumnRe(), ddl, 1, 2) == c && ColumnByName(o.columns, c) == Some(col)
    ensures DiffOfObject(ddl, o).columnsChanged == if IsForAlter(ddl) then [Retyped(col)] else []
    ensures IsForAlter(ddl) ==> DiffOfObject(ddl, o) == Unchanged(o).(columnsChanged := [Retyped(col)])
  {
  }

  lemma DropCase(ddl: string, o: Object, c: string)
    requires Contains(Lower(ddl), "drop column") && c != "" && ExtractName(DropColumnRe(), ddl, 1, 2) == c
    ensures DiffOfObject(ddl, o).columnsRemoved == if IsForDrop(ddl) then [NamedColumn(c)] else []
    ensures IsForDrop(ddl) ==> DiffOfObject(ddl, o) == Unchanged(o).(columnsRemoved := [NamedColumn(c)])
  {
  }

  // ---------- what is recorded ----------

  /** An added column is recorded, and then nothing else is, exactly if the statement neither adds a
      primary key constraint nor contains `rename to`, both of which the switch looks for first. */
  lemma AddColumnDiff(e: Event, o: Object, col: Column, t: string, words: seq<string>)
    requires IsColumnStatement("ADD", t, words)
    requires e.ddl == Sentence(ColumnStatement("ADD", t, words)) && Altered(e) == [o]
    requires ColumnByName(o.columns, NamedBy("ADD", words)) == Some(col)
    ensures var diffs := DiffsOfObjects(e.ddl, Altered(e));
            && ((exists d :: d in diffs && col in d.columnsAdded) <==> IsForAdd(e.ddl))
            && (IsForAdd(e.ddl) ==> diffs == [Unchanged(o).(columnsAdded := [col])])
  {
    ExtractsColumn("ADD", t, words);
    SaysVerb("ADD", t, words);
    AddCase(e.ddl, o, col, NamedBy("ADD", words));
    OneObject(e.ddl, o);
    assert IsForAdd(e.ddl) ==> Unchanged(o).(columnsAdded := [col]) in DiffsOfObjects(e.ddl, [o]);
  }

  /** A changed column is recorded, with its new type, exactly if besides that nothing in the
      statement adds a column. */
  lemma AlterColumnDiff(e: Event, o: Object, col: Column, t: string, words: seq<string>)
    requires IsColumnStatement("ALTER", t, words)
    requires e.ddl == Sentence(ColumnStatement("ALTER", t, words)) && Altered(e) == [o]
    requires ColumnByName(o.columns, NamedBy("ALTER", words)) == Some(col)
    ensures col.name == NamedBy("ALTER", words)
    ensures var diffs := DiffsOfObjects(e.ddl, Altered(e));
            && ((exists d :: d in diffs && Retyped(col) in d.columnsChanged) <==> IsForAlter(e.ddl))
            && (IsForAlter(e.ddl) ==> diffs == [Unchanged(o).(columnsChanged := [Retyped(col)])])
  {
    ColumnHasName(o.columns, NamedBy("ALTER", words));
    ExtractsColumn("ALTER", t, words);
    SaysVerb("ALTER", t, words);
    AlterCase(e.ddl, o, col, NamedBy("ALTER", words));
    OneObject(e.ddl, o);
    assert IsForAlter(e.ddl) ==> Unchanged(o).(columnsChanged := [Retyped(col)]) in DiffsOfObjects(e.ddl, [o]);
  }

  /** A dropped column is recorded by its name exactly if the statement does nothing of that and
      alters no column. */
  lemma DropColumnDiff(e: Event, o: Object, t: string, words: seq<string>)
    requires IsColumnStatement("DROP", t, words)
    requires e.ddl == Sentence(ColumnStatement("DROP", t, words)) && Altered(e) == [o]
    ensures var diffs, c := DiffsOfObjects(e.ddl, Altered(e)), NamedColumn(NamedBy("DROP", words));
            && ((exists d :: d in diffs && c in d.columnsRemoved) <==> IsForDrop(e.ddl))
            && (IsForDrop(e.ddl) ==> diffs == [Unchanged(o).(columnsRemoved := [c])])
  {
    var c := NamedBy("DROP", words);
    ExtractsColumn("DROP", t, words);
    SaysVerb("DROP", t, words);
    DropCase(e.ddl, o, c);
    OneObject(e.ddl, o);
    assert IsForDrop(e.ddl) ==> Unchanged(o).(columnsRemoved := [NamedColumn(c)]) in DiffsOfObjects(e.ddl, [o]);
  }

  // ---------- a column dropped alone ----------

  /** The words behind DROP COLUMN. */
  function JustDropped(ifExists: bool, c: string): seq<string> {
    if ifExists then ["IF", "EXISTS", c] else [c]
  }

  function LowDrop(t: string, ifExists: bool, c: string): seq<string> {
    if ifExists then ["alter", "table", Lower(t), "drop", "column", "if", "exists", Lower(c)]
    else ["alter", "table", Lower(t), "drop", "column", Lower(c)]
  }

  lemma LoweredDrop(t: string, ifExists: bool, c: string)
    ensures LowerAll(ColumnStatement("DROP", t, JustDropped(ifExists, c))) == LowDrop(t, ifExists, c)
  {
    LowerVerbs();
  }

  lemma DropMisses(t: string, ifExists: bool, c: string, p: string, q: string)
    requires PlainName(t) && PlainName(c)
    requires (p, q) in {("add", "constraint"), ("add", "column"), ("rename", "to"), ("alter", "column")}
    ensures forall k: nat :: !Across(LowDrop(t, ifExists, c), k, p, q)
  {
    NoneAcross(LowDrop(t, ifExists, c), p, q);
  }

  lemma JustDrops(t: string, ifExists: bool, c: string)
    requires PlainName(t) && PlainName(c)
    ensures IsForDrop(Sentence(ColumnStatement("DROP", t, JustDropped(ifExists, c))))
  {
    ColumnWords("DROP", t, JustDropped(ifExists, c));
    LoweredDrop(t, ifExists, c);
    DropMisses(t, ifExists, c, "add", "constraint");
    DropMisses(t, ifExists, c, "add", "column");
    DropMisses(t, ifExists, c, "rename", "to");
    DropMisses(t, ifExists, c, "alter", "column");
    SwitchPhrases(ColumnStatement("DROP", t, JustDropped(ifExists, c)));
  }

  /** None of that can hide in two names: a column dropped alone, with IF EXISTS or without, is always
      recorded, whatever the names. */
  lemma DroppedAlone(e: Event, o: Object, t: string, ifExists: bool, c: string)
    requires PlainName(t) && PlainName(c)
    requires e.ddl == Sentence(ColumnStatement("DROP", t, JustDropped(ifExists, c))) && Altered(e) == [o]
    ensures DiffsOfObjects(e.ddl, Altered(e)) == [Unchanged(o).(columnsRemoved := [NamedColumn(c)])]
  {
    LowerVerbs();
    JustDrops(t, ifExists, c);
    DropColumnDiff(e, o, t, JustDropped(ifExists, c));
  }

  // ---------- a second action ----------

  /** A column added together with a primary key. */
  function AddedWithKey(c: string, typ: string, name: string, rest: seq<string>): seq<string> {
    [c, typ, "ADD", "CONSTRAINT", name, "PRIMARY", "KEY"] + rest
  }

  lemma LowerKey()
    ensures Lower("ADD") == "add" && Lower("CONSTRAINT") == "constraint"
    ensures Lower("PRIMARY") == "primary" && Lower("KEY") == "key"
  {
  }

  lemma SaysKeyAt(ws: seq<string>, k: nat, m: nat)
    requires AllWords(ws) && k + 1 < |ws| && m + 1 < |ws|
    requires ws[k] == "ADD" && ws[k + 1] == "CONSTRAINT" && ws[m] == "PRIMARY" && ws[m + 1] == "KEY"
    ensures SaysPrimaryKey(Sentence(ws))
  {
    LowerKey();
    SaysWords(ws, k, "add", "constraint");
    SaysWords(ws, m, "primary", "key");
    SaysAddConstraint(ws);
    HasPhrase(ws, "primary", "key", "primary key");
  }

  lemma AddedWithKeySays(t: string, c: string, typ: string, name: string, rest: seq<string>)
    requires PlainName(t) && PlainName(c) && IsWordText(typ) && PlainName(name) && AllWords(rest)
    ensures SaysPrimaryKey(Sentence(ColumnStatement("ADD", t, AddedWithKey(c, typ, name, rest))))
  {
    var ws := ColumnStatement("ADD", t, AddedWithKey(c, typ, name, rest));
    SaysKeyAt(ws, 7, 10);
  }

  lemma KeyRecorded(ddl: string, o: Object)
    requires SaysPrimaryKey(ddl)
    ensures DiffsOfObjects(ddl, [o]) ==
            if o.primaryKeyColumns == [] then []
            else [Unchanged(o).(tablePrimaryKeyChange := Some(ValueChange([], o.primaryKeyColumns)))]
  {
    OneObject(ddl, o);
  }

  /** The key is recorded and the column is not, though the table has it. */
  lemma KeyHidesColumn(e: Event, o: Object, t: string, c: string, typ: string, name: string, rest: seq<string>)
    requires PlainName(t) && PlainName(c) && IsWordText(typ) && PlainName(name) && AllWords(rest)
    requires e.ddl == Sentence(ColumnStatement("ADD", t, AddedWithKey(c, typ, name, rest))) && Altered(e) == [o]
    requires ColumnByName(o.columns, c).Some?
    ensures var diffs := DiffsOfObjects(e.ddl, Altered(e));
            && !(exists d :: d in diffs && ColumnByName(o.columns, c).value in d.columnsAdded)
            && (o.primaryKeyColumns != [] ==>
                  diffs == [Unchanged(o).(tablePrimaryKeyChange := Some(ValueChange([], o.primaryKeyColumns)))])
  {
    AddedWithKeySays(t, c, typ, name, rest);
    KeyRecorded(e.ddl, o);
  }

  lemma PlainHere()
    ensures PlainName("t") && PlainName("c") && PlainName("k") && IsWordText("int,") && AllWords(["(c)"])
  {
  }

  /** So it is with `ALTER TABLE t ADD COLUMN c int, ADD CONSTRAINT k PRIMARY KEY (c)`. */
  lemma KeyHidesColumnHere(e: Event, o: Object, col: Column)
    requires e.ddl == Sentence(ColumnStatement("ADD", "t", AddedWithKey("c", "int,", "k", ["(c)"])))
    requires Altered(e) == [o] && o.columns == [col] && col.name == "c" && o.primaryKeyColumns == ["c"]
    ensures DiffsOfObjects(e.ddl, Altered(e)) == [Unchanged(o).(tablePrimaryKeyChange := Some(ValueChange([], ["c"])))]
  {
    PlainHere();
    KeyHidesColumn(e, o, "t", "c", "int,", "k", ["(c)"]);
  }

  // ---------- ADD CONSTRAINT ... PRIMARY KEY ----------

  function KeyStatement(t: string, name: string, tail: seq<string>): seq<string> {
    ["ALTER", "TABLE", t, "ADD", "CONSTRAINT", name, "PRIMARY", "KEY"] + tail
  }

  /** An added primary key is recorded whatever else the statement says, unless the table has none
      by then; nothing else of the statement is. */
  lemma PrimaryKeyDiff(e: Event, o: Object, t: string, name: string, tail: seq<string>)
    requires PlainName(t) && PlainName(name) && AllWords(tail)
    requires e.ddl == Sentence(KeyStatement(t, name, tail)) && Altered(e) == [o]
    ensures DiffsOfObjects(e.ddl, Altered(e)) ==
            if o.primaryKeyColumns == [] then []
            else [Unchanged(o).(tablePrimaryKeyChange := Some(ValueChange([], o.primaryKeyColumns)))]
  {
    SaysKey(t, name, tail);
    KeyRecorded(e.ddl, o);
  }

  lemma SaysKey(t: string, name: string, tail: seq<string>)
    requires PlainName(t) && PlainName(name) && AllWords(tail)
    ensures SaysPrimaryKey(Sentence(KeyStatement(t, name, tail)))
  {
    var ws := KeyStatement(t, name, tail);
    SaysKeyAt(ws, 3, 6);
  }

  // ---------- RENAME TO ----------

  function RenameStatement(ifExists: bool, t: string, newName: string): seq<string> {
    ["ALTER", "TABLE"] + (if ifExists then ["IF", "EXISTS"] else []) + [t, "RENAME", "TO", newName]
  }

  function LowRename(ifExists: bool, t: string, newName: string): seq<string> {
    ["alter", "table"] + (if ifExists then ["if", "exists"] else []) + [Lower(t), "rename", "to", Lower(newName)]
  }

  lemma LoweredRename(ifExists: bool, t: string, newName: string)
    ensures LowerAll(RenameStatement(ifExists, t, newName)) == LowRename(ifExists, t, newName)
  {
    LowerVerbs();
  }

  /** Where the table's name stands in the statement. */
  function TablePlace(ifExists: bool): nat {
    if ifExists then 4 else 2
  }

  /** The table's name without a schema in front of it, if that is made of word characters. */
  function Unqualified(t: string): string {
    var n := RunLength(Word, t, 0);
    if 0 < n && n + 1 < |t| && t[n] == '.' then t[n + 1..] else t
  }

  function SchemaRe(): Re {
    Then(Group(1, Plus(Word)), Lit("."))
  }

  /** A run of word characters and a dot, where the word stands. */
  predicate DottedRun(s: string, o: nat, n: nat) {
    0 < n && o + n < |s| && s[o + n] == '.' && forall k :: o <= k < o + n ==> IsWord(s[k])
  }

  lemma RunHere(s: string, o: nat, w: string)
    requires At(s, o, w)
    requires var n := RunLength(Word, w, 0); 0 < n < |w| && w[n] == '.'
    ensures DottedRun(s, o, RunLength(Word, w, 0))
  {
    var n := RunLength(Word, w, 0);
    AtChars(s, o, w);
    assert forall k :: 0 <= k < n ==> Word.Has(w[k]) && w[k] == s[o + k];
  }

  /** The match of a schema and the dot behind it. */
  function SchemaFound(s: string, o: nat, n: nat): Found
    requires o + n <= |s|
  {
    Found(o + n + 1, map[1 := s[o..o + n]])
  }

  lemma RunTaken(s: string, o: nat, n: nat)
    requires DottedRun(s, o, n)
    ensures Prefers(Group(1, Plus(Word)), s, o, NameFound(o, s[o..o + n], 1))
  {
    PrefersGroupedPlus(1, Word, s, o, o + n);
  }

  lemma DotTaken(s: string, o: nat, f: Found)
    requires Prefers(Group(1, Plus(Word)), s, o, f) && f.end < |s| && s[f.end] == '.'
    ensures Prefers(Opt(SchemaRe()), s, o, Found(f.end + 1, f.groups))
  {
    assert At(Lower(s), f.end, ".") by {
      AtChars(Lower(s), f.end, ".");
    }
    PrefersLit(".", s, f.end);
    PrefersThen(Group(1, Plus(Word)), Lit("."), s, o, f, Moved(f.end + 1));
    assert f.groups + map[] == f.groups;
    PrefersOpt(SchemaRe(), s, o, Found(f.end + 1, f.groups));
  }

  /** The optional schema matches up to the dot behind a run of word characters. */
  lemma SchemaTaken(s: string, o: nat, n: nat)
    requires DottedRun(s, o, n)
    ensures Prefers(Opt(SchemaRe()), s, o, SchemaFound(s, o, n))
  {
    RunTaken(s, o, n);
    DotTaken(s, o, NameFound(o, s[o..o + n], 1));
  }

  lemma SchemaSkipped(s: string, o: nat, w: string)
    requires StandsAlone(s, o, w, false)
    requires var n := RunLength(Word, w, 0); n == 0 || n == |w| || w[n] != '.'
    ensures Matches(SchemaRe(), s, o) == []
  {
    forall e: nat ensures !Spans(SchemaRe(), s, o, e) {
      if Spans(SchemaRe(), s, o, e) {
        var m := ThenSpan(Group(1, Plus(Word)), Lit("."), s, o, e);
        DotBehindRun(s, o, w, m);
      }
    }
    NoSpanNoMatch(SchemaRe(), s, o);
  }

  lemma DotBehindRun(s: string, o: nat, w: string, m: nat)
    requires StandsAlone(s, o, w, false) && o < m <= |s| && (forall k :: o <= k < m ==> IsWord(s[k]))
    requires At(Lower(s), m, ".")
    ensures var n := RunLength(Word, w, 0); n == m - o && n < |w| && w[n] == '.'
  {
    AtChars(s, o, w);
    AtChars(Lower(s), m, ".");
    assert Lower(s)[m] == LowerChar(s[m]) == '.';
    assert !IsWord(s[o + |w|]);
    var n := RunLength(Word, w, 0);
    assert n < |w| ==> s[o + n] == w[n];
    assert forall k :: 0 <= k < n ==> Word.Has(w[k]) && w[k] == s[o + k];
  }

  /** Whether the name has a schema of word characters in front of it. */
  predicate HasSchema(t: string) {
    var n := RunLength(Word, t, 0);
    0 < n < |t| && t[n] == '.'
  }

  /** A match that leaves the groups of schema and name alone. */
  predicate LeavesTable(g: Found) {
    1 !in g.groups && 2 !in g.groups && 3 !in g.groups
  }

  /** A match that takes `name` as the plain name of the table. */
  predicate GivesTable(f: Found, name: string) {
    2 !in f.groups && 3 in f.groups && f.groups[3] == name
  }

  lemma JoinedGives(f: Found, h: Found, table: string)
    requires GivesTable(h, table) && 2 !in f.groups
    ensures GivesTable(Joined(f, h), table)
  {
  }

  /** A schema in front of a match at `p`. */
  lemma TakesSchema(s: string, o: nat, n: nat, p: nat, name: Re, h: Found, table: string) returns (f: Found)
    requires DottedRun(s, o, n) && p == o + n + 1 && Prefers(name, s, p, h) && GivesTable(h, table)
    ensures Prefers(Then(Opt(SchemaRe()), name), s, o, f) && GivesTable(f, table)
  {
    var g := SchemaFound(s, o, n);
    SchemaTaken(s, o, n);
    PrefersThen(Opt(SchemaRe()), name, s, o, g, h);
    JoinedGives(g, h, table);
    f := Joined(g, h);
  }

  lemma TakesQualified(s: string, o: nat, t: string, n: nat, rest: Re, g: Found) returns (f: Found)
    requires StandsAlone(s, o, t, false) && PlainName(t) && HasSchema(t) && n == RunLength(Word, t, 0) && n + 1 < |t|
    requires Prefers(rest, s, o + |t|, g) && LeavesTable(g)
    ensures Prefers(Then(Opt(SchemaRe()), Then(NameRe(2, 3), rest)), s, o, f) && GivesTable(f, t[n + 1..])
  {
    var p := o + (n + 1);
    var h := TakesName(s, o, t, n + 1, p, rest, g);
    RunHere(s, o, t);
    f := TakesSchema(s, o, n, p, Then(NameRe(2, 3), rest), h, t[n + 1..]);
  }

  /** The schema can only end behind the dot. */
  lemma SchemaSpanEnds(s: string, o: nat, t: string, e: nat)
    requires StandsAlone(s, o, t, false) && Spans(SchemaRe(), s, o, e)
    ensures e == o + RunLength(Word, t, 0) + 1
  {
    var m := ThenSpan(Group(1, Plus(Word)), Lit("."), s, o, e);
    DotBehindRun(s, o, t, m);
  }

  /** At white space there is no name. */
  lemma NoNameAtSpace(s: string, x: nat, rest: Re)
    requires x < |s| && IsSpace(s[x])
    ensures Matches(Then(NameRe(2, 3), rest), s, x) == []
  {
    assert Lower(s)[x] == LowerChar(s[x]) != '"';
    forall e: nat ensures !Spans(Then(NameRe(2, 3), rest), s, x, e) {
      if Spans(Then(NameRe(2, 3), rest), s, x, e) {
        var m := ThenSpan(NameRe(2, 3), rest, s, x, e);
        NameSpanStarts(s, x, m);
      }
    }
    NoSpanNoMatch(Then(NameRe(2, 3), rest), s, x);
  }

  lemma NameSpanStarts(s: string, x: nat, m: nat)
    requires x <= |s| && Spans(NameRe(2, 3), s, x, m)
    ensures x < |s| && (Lower(s)[x] == '"' || !IsSpace(s[x]))
  {
    var quoted := Then(Lit("\""), Then(Group(2, Plus(NotQuote)), Lit("\"")));
    if Spans(quoted, s, x, m) {
      var n := ThenSpan(Lit("\""), Then(Group(2, Plus(NotQuote)), Lit("\"")), s, x, m);
      AtChars(Lower(s), x, "\"");
    } else {
      assert Spans(Group(3, Plus(NonSpace)), s, x, m);
    }
  }

  lemma NothingBehindSchema(s: string, o: nat, t: string, rest: Re, e: nat)
    requires StandsAlone(s, o, t, false) && RunLength(Word, t, 0) + 1 == |t| && e <= |s| && Spans(SchemaRe(), s, o, e)
    ensures Matches(Then(NameRe(2, 3), rest), s, e) == []
  {
    SchemaSpanEnds(s, o, t, e);
    NoNameAtSpace(s, e, rest);
  }

  /** A schema that the word ends with is given up, and the name is the whole word. */
  lemma TakesDotted(s: string, o: nat, t: string, rest: Re, g: Found) returns (f: Found)
    requires StandsAlone(s, o, t, false) && PlainName(t) && RunLength(Word, t, 0) + 1 == |t|
    requires Prefers(rest, s, o + |t|, g) && LeavesTable(g)
    ensures Prefers(Then(Opt(SchemaRe()), Then(NameRe(2, 3), rest)), s, o, f) && GivesTable(f, t)
  {
    f := TakesName(s, o, t, 0, o, rest, g);
    GivesUpSchema(s, o, t, rest, f);
  }

  lemma GivesUpSchema(s: string, o: nat, t: string, rest: Re, f: Found)
    requires StandsAlone(s, o, t, false) && RunLength(Word, t, 0) + 1 == |t|
    requires Prefers(Then(NameRe(2, 3), rest), s, o, f)
    ensures Prefers(Then(Opt(SchemaRe()), Then(NameRe(2, 3), rest)), s, o, f)
  {
    var schema, name := SchemaRe(), Then(NameRe(2, 3), rest);
    forall e: nat | e <= |s| && Spans(schema, s, o, e) ensures Matches(name, s, e) == [] {
      NothingBehindSchema(s, o, t, rest, e);
    }
    PrefersWithout(schema, name, s, o, f);
  }

  lemma TakesUnqualified(s: string, o: nat, t: string, rest: Re, g: Found) returns (f: Found)
    requires StandsAlone(s, o, t, false) && PlainName(t) && !HasSchema(t)
    requires Prefers(rest, s, o + |t|, g) && LeavesTable(g)
    ensures Prefers(Then(Opt(SchemaRe()), Then(NameRe(2, 3), rest)), s, o, f) && GivesTable(f, t)
  {
    SchemaSkipped(s, o, t);
    f := TakesName(s, o, t, 0, o, rest, g);
    PrefersSkip(SchemaRe(), Then(NameRe(2, 3), rest), s, o, f);
  }

  /** The pattern for schema and name takes the whole word, and the name from behind the schema. */
  lemma TakesTable(s: string, o: nat, t: string, rest: Re, g: Found) returns (f: Found)
    requires StandsAlone(s, o, t, false) && PlainName(t)
    requires Prefers(rest, s, o + |t|, g) && LeavesTable(g)
    ensures Prefers(Then(Opt(SchemaRe()), Then(NameRe(2, 3), rest)), s, o, f) && GivesTable(f, Unqualified(t))
  {
    var n := RunLength(Word, t, 0);
    if HasSchema(t) && n + 1 < |t| {
      f := TakesQualified(s, o, t, n, rest, g);
    } else if HasSchema(t) {
      f := TakesDotted(s, o, t, rest, g);
    } else {
      f := TakesUnqualified(s, o, t, rest, g);
    }
  }

  lemma NamePart(s: string, o: nat, t: string, k: nat)
    requires StandsAlone(s, o, t, false) && PlainName(t) && k < |t|
    ensures Prefers(NameRe(2, 3), s, o + k, NameFound(o + k, t[k..], 3))
  {
    AtChars(s, o, t);
    assert s[o + k..o + |t|] == t[k..];
    PrefersName(2, 3, s, o + k, o + |t|);
  }

  lemma NameGives(p: nat, name: string, g: Found)
    requires LeavesTable(g)
    ensures GivesTable(Joined(NameFound(p, name, 3), g), name)
  {
  }

  /** The name pattern from position `k` of the word on, which is at `p`. */
  lemma TakesName(s: string, o: nat, t: string, k: nat, p: nat, rest: Re, g: Found) returns (f: Found)
    requires StandsAlone(s, o, t, false) && PlainName(t) && k < |t| && p == o + k
    requires Prefers(rest, s, o + |t|, g) && LeavesTable(g)
    ensures Prefers(Then(NameRe(2, 3), rest), s, p, f) && GivesTable(f, t[k..])
  {
    var h := NameFound(p, t[k..], 3);
    NamePart(s, o, t, k);
    PrefersThen(NameRe(2, 3), rest, s, p, h, g);
    NameGives(p, t[k..], g);
    f := Joined(h, g);
  }

  lemma RenameWords(ifExists: bool, t: string, newName: string)
    requires PlainName(t) && PlainName(newName)
    ensures var ws, k := RenameStatement(ifExists, t, newName), TablePlace(ifExists);
            && AllWords(ws) && |ws| == k + 4 && SingleSpaced(Sentence(ws))
            && ws[k] == t && ws[k + 1] == "RENAME" && ws[k + 2] == "TO" && ws[k + 3] == newName
  {
    SentenceSpaced(RenameStatement(ifExists, t, newName));
  }

  /** The optional clause is taken if it is there, and nothing is if it is not. */
  lemma ClauseTaken(ifExists: bool, t: string, newName: string, rest: Re, f: Found)
    requires PlainName(t) && PlainName(newName)
    requires var ws := RenameStatement(ifExists, t, newName);
             Prefers(rest, Sentence(ws), Offset(ws, TablePlace(ifExists)), f)
    ensures var ws := RenameStatement(ifExists, t, newName);
            Prefers(Then(Opt(IfExistsRe()), rest), Sentence(ws), Offset(ws, 2), f)
  {
    var ws := RenameStatement(ifExists, t, newName);
    RenameWords(ifExists, t, newName);
    LowerVerbs();
    WordWithin(ws, 2);
    if ifExists {
      IfExistsTaken(ws, 2);
      PrefersOpt(IfExistsRe(), Sentence(ws), Offset(ws, 2), Moved(Offset(ws, 4)));
      PrefersThenPlain(Opt(IfExistsRe()), rest, Sentence(ws), Offset(ws, 2), Offset(ws, 4), f);
    } else {
      IfExistsAbsent(ws, 2);
      PrefersSkip(IfExistsRe(), rest, Sentence(ws), Offset(ws, 2), f);
    }
  }

  function VerbRe(): Re {
    KeywordRe("rename", KeywordRe("to", NameRe(4, 5)))
  }

  /** RENAME TO and the new name, behind the table. */
  lemma VerbTaken(ws: seq<string>, k: nat)
    requires AllWords(ws) && |ws| == k + 4 && ws[k + 1] == "RENAME" && ws[k + 2] == "TO" && PlainName(ws[k + 3])
    ensures Prefers(Then(Plus(Space), VerbRe()), Sentence(ws), Offset(ws, k) + |ws[k]|,
                    NameFound(Offset(ws, k + 3), ws[k + 3], 5))
  {
    var g := NameFound(Offset(ws, k + 3), ws[k + 3], 5);
    LowerVerbs();
    NameAt(ws, k + 3, 4, 5);
    KeywordAt(ws, k + 2, "to", NameRe(4, 5), g);
    KeywordAt(ws, k + 1, "rename", KeywordRe("to", NameRe(4, 5)), g);
    GapAt(ws, k, VerbRe(), g);
  }

  /** The old name that is extracted is the table's name without its schema. */
  lemma ExtractsTable(ifExists: bool, t: string, newName: string)
    requires PlainName(t) && PlainName(newName)
    ensures ExtractName(RenameTableRe(), Sentence(RenameStatement(ifExists, t, newName)), 2, 3) == Unqualified(t)
  {
    var ws := RenameStatement(ifExists, t, newName);
    var f := TakesBehindTable(ifExists, t, newName);
    RenameWords(ifExists, t, newName);
    LowerVerbs();
    FindPhrase(ws, 0, "alter", "table", BehindTableRe(), f);
  }

  function BehindTableRe(): Re {
    Then(Opt(IfExistsRe()), Then(Opt(SchemaRe()), Then(NameRe(2, 3), Then(Plus(Space), VerbRe()))))
  }

  lemma TakesBehindTable(ifExists: bool, t: string, newName: string) returns (f: Found)
    requires PlainName(t) && PlainName(newName)
    ensures var ws := RenameStatement(ifExists, t, newName); Prefers(BehindTableRe(), Sentence(ws), Offset(ws, 2), f)
    ensures GivesTable(f, Unqualified(t))
  {
    var ws, k := RenameStatement(ifExists, t, newName), TablePlace(ifExists);
    var s, o := Sentence(ws), Offset(ws, k);
    RenameWords(ifExists, t, newName);
    assert StandsAlone(s, o, t, false) by {
      WordStands(ws, k);
    }
    VerbTaken(ws, k);
    f := TakesTable(s, o, t, Then(Plus(Space), VerbRe()), NameFound(Offset(ws, k + 3), newName, 5));
    ClauseTaken(ifExists, t, newName, Then(Opt(SchemaRe()), Then(NameRe(2, 3), Then(Plus(Space), VerbRe()))), f);
  }

  /** A renamed table is always recorded, with IF EXISTS or without: the old name from the statement,
      without its schema, the new one from the object. */
  lemma RenameTableDiff(e: Event, o: Object, ifExists: bool, t: string, newName: string)
    requires PlainName(t) && PlainName(newName)
    requires e.ddl == Sentence(RenameStatement(ifExists, t, newName)) && Altered(e) == [o]
    ensures DiffsOfObjects(e.ddl, Altered(e)) ==
            [Unchanged(o).(tableNameChange := Some(ValueChange(Unqualified(t), TableOf(o))))]
  {
    ExtractsTable(ifExists, t, newName);
    SaysRenameOnly(ifExists, t, newName);
    OneObject(e.ddl, o);
  }

  /** For the table `public.users`, that is, `users` is recorded as the new name. */
  lemma RenameTableFiled(e: Event, o: Object, table: string, ifExists: bool, t: string, newName: string)
    requires PlainName(t) && PlainName(newName) && Identifies(o.identity, table)
    requires e.ddl == Sentence(RenameStatement(ifExists, t, newName)) && Altered(e) == [o]
    ensures var diffs := DiffsOfObjects(e.ddl, Altered(e));
            |diffs| == 1 && diffs[0].tableName == table && diffs[0].tablePgstreamID == o.pgstreamID
            && diffs[0].tableNameChange == Some(ValueChange(Unqualified(t), table))
  {
    TableOfIdentity(o, table);
    RenameTableDiff(e, o, ifExists, t, newName);
  }

  lemma SaysRenameOnly(ifExists: bool, t: string, newName: string)
    requires PlainName(t) && PlainName(newName)
    ensures var low := Lower(Sentence(RenameStatement(ifExists, t, newName)));
            !Contains(low, "add constraint") && Contains(low, "rename to")
  {
    var ws, low := RenameStatement(ifExists, t, newName), LowRename(ifExists, t, newName);
    RenameWords(ifExists, t, newName);
    LoweredRename(ifExists, t, newName);
    NoneAcross(low, "add", "constraint");
    WholeWords(low, TablePlace(ifExists) + 1, "rename", "to");
    SaysAddConstraint(ws);
    SaysRenameTo(ws);
  }
}
