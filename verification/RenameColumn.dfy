/** What becomes of `ALTER TABLE t RENAME COLUMN old TO new`, for every three plain names. */
module RenameColumn {
  import opened Text
  import opened Regex
  import opened Words
  import opened SchemaDiff
  import opened Patterns
  import Decimal

  function Statement(t: string, oldName: string, newName: string): seq<string> {
    ["ALTER", "TABLE", t, "RENAME", "COLUMN", oldName, "TO", newName]
  }

  function LowStatement(t: string, oldName: string, newName: string): seq<string> {
    ["alter", "table", Lower(t), "rename", "column", Lower(oldName), "to", Lower(newName)]
  }

  lemma Lowered(t: string, oldName: string, newName: string)
    ensures LowerAll(Statement(t, oldName, newName)) == LowStatement(t, oldName, newName)
  {
    assert Lower("ALTER") == "alter" && Lower("TABLE") == "table" && Lower("RENAME") == "rename";
    assert Lower("COLUMN") == "column" && Lower("TO") == "to";
  }

  lemma PlainWords(t: string, oldName: string, newName: string)
    requires IsWordText(t) && IsWordText(oldName) && IsWordText(newName)
    ensures AllWords(Statement(t, oldName, newName))
  {
  }

  /** Phrases that cannot stand anywhere. */
  lemma NoPhrase(t: string, oldName: string, newName: string, p: string, q: string)
    requires IsWordText(t) && IsWordText(oldName) && IsWordText(newName)
    requires (p, q) in {("add", "constraint"), ("add", "column"), ("alter", "column"), ("drop", "column"),
                        ("if", "exists")}
    ensures forall k: nat :: !Across(LowStatement(t, oldName, newName), k, p, q)
  {
    NoneAcross(LowStatement(t, oldName, newName), p, q);
  }

  /** The one place where each other phrase can stand. */
  lemma Phrases(t: string, oldName: string, newName: string, k: nat)
    requires IsWordText(t) && IsWordText(oldName) && IsWordText(newName)
    ensures var ws := LowStatement(t, oldName, newName);
            && (Across(ws, k, "rename", "to") ==> k == 5)
            && (Across(ws, k, "rename", "column") ==> k == 3)
            && (Across(ws, k, "alter", "table") ==> k == 0 || !EndsWith(Lower(oldName), "rename"))
  {
    var ws := LowStatement(t, oldName, newName);
    if Across(ws, k, "rename", "to") { AcrossEnds(ws, k, "rename", "to"); }
    if Across(ws, k, "rename", "column") { AcrossEnds(ws, k, "rename", "column"); }
    if Across(ws, k, "alter", "table") { AcrossEnds(ws, k, "alter", "table"); }
  }

  /** The match behind RENAME COLUMN. */
  function NamesFound(ws: seq<string>): Found
    requires |ws| == 8
  {
    Joined(NameFound(Offset(ws, 5), ws[5], 2), NameFound(Offset(ws, 7), ws[7], 4))
  }

  function NamesRe(): Re {
    Then(NameRe(1, 2), Then(Plus(Space), KeywordRe("to", NameRe(3, 4))))
  }

  lemma TakesNames(ws: seq<string>)
    requires AllWords(ws) && |ws| == 8 && PlainName(ws[5]) && PlainName(ws[7]) && Lower(ws[6]) == "to"
    ensures Prefers(NamesRe(), Sentence(ws), Offset(ws, 5), NamesFound(ws))
  {
    var f, g := NameFound(Offset(ws, 5), ws[5], 2), NameFound(Offset(ws, 7), ws[7], 4);
    NameAt(ws, 5, 1, 2);
    NameAt(ws, 7, 3, 4);
    KeywordAt(ws, 6, "to", NameRe(3, 4), g);
    GapAt(ws, 5, KeywordRe("to", NameRe(3, 4)), g);
    PrefersThen(NameRe(1, 2), Then(Plus(Space), KeywordRe("to", NameRe(3, 4))), Sentence(ws), Offset(ws, 5), f, g);
  }

  lemma NamesInGroups(ws: seq<string>)
    requires |ws| == 8
    ensures var f := NamesFound(ws);
            GroupText(f, 1) == "" && GroupText(f, 2) == ws[5] && GroupText(f, 3) == "" && GroupText(f, 4) == ws[7]
  {
  }

  /** `extractRenamedColumnNames` finds its pattern first at RENAME, and takes the two names. */
  lemma ExtractsNames(t: string, oldName: string, newName: string)
    requires PlainName(t) && PlainName(oldName) && PlainName(newName)
    ensures ExtractRenamedColumnNames(Sentence(Statement(t, oldName, newName))) == (oldName, newName)
  {
    var ws := Statement(t, oldName, newName);
    PlainWords(t, oldName, newName);
    LowerWord(t, oldName, newName);
    forall j: nat | j < 3 ensures !Across(LowerAll(ws), j, "rename", "column") {
      Lowered(t, oldName, newName);
      Phrases(t, oldName, newName, j);
    }
    TakesNames(ws);
    FindPhrase(ws, 3, "rename", "column", NamesRe(), NamesFound(ws));
    NamesInGroups(ws);
  }

  lemma LowerWord(t: string, oldName: string, newName: string)
    ensures var ws := Statement(t, oldName, newName);
            Lower(ws[3]) == "rename" && Lower(ws[4]) == "column" && Lower(ws[6]) == "to"
  {
  }

  // ---------- an old name that ends in "rename" ----------

  /** The words that matter to the pattern of a table rename. */
  lemma Layout(t: string, oldName: string, newName: string)
    requires PlainName(t) && PlainName(oldName) && PlainName(newName)
    ensures var s := Sentence(Statement(t, oldName, newName));
            && SingleSpaced(s) && '"' !in s
            && WordSpan(s, 12, 12 + |t|) && At(Lower(s), 20 + |t|, "column")
  {
    var ws := Statement(t, oldName, newName);
    PlainWords(t, oldName, newName);
    SentenceSpaced(ws);
    NoQuotes(ws);
    StatementOffsets(t, oldName, newName);
    assert WordSpan(Sentence(ws), 12, 12 + |t|) by {
      WordStands(ws, 2);
    }
    assert At(Lower(Sentence(ws)), 20 + |t|, "column") by {
      WordStands(ws, 4);
      LowerAt(Sentence(ws), 20 + |t|, "COLUMN", false);
      Lowered(t, oldName, newName);
    }
  }

  lemma StatementOffsets(t: string, oldName: string, newName: string)
    ensures var ws := Statement(t, oldName, newName); Offset(ws, 2) == 12 && Offset(ws, 4) == 20 + |t|
  {
    var ws := Statement(t, oldName, newName);
    NextOffset(ws, 0);
    NextOffset(ws, 1);
    NextOffset(ws, 2);
    NextOffset(ws, 3);
  }

  lemma NoIfExists(t: string, oldName: string, newName: string, i: nat)
    requires PlainName(t) && PlainName(oldName) && PlainName(newName)
    ensures !At(Lower(Sentence(Statement(t, oldName, newName))), i, "if" + " " + "exists")
  {
    if At(Lower(Sentence(Statement(t, oldName, newName))), i, "if" + " " + "exists") {
      PlainWords(t, oldName, newName);
      Lowered(t, oldName, newName);
      var k := PhrasePlace(Statement(t, oldName, newName), i, "if", "exists");
      NoPhrase(t, oldName, newName, "if", "exists");
    }
  }

  lemma AlterTablePlace(t: string, oldName: string, newName: string, j: nat)
    requires PlainName(t) && PlainName(oldName) && PlainName(newName) && EndsWith(Lower(oldName), "rename")
    requires At(Lower(Sentence(Statement(t, oldName, newName))), j, "alter" + " " + "table")
    ensures j == 0
  {
    PlainWords(t, oldName, newName);
    Lowered(t, oldName, newName);
    var k := PhrasePlace(Statement(t, oldName, newName), j, "alter", "table");
    Phrases(t, oldName, newName, k);
  }

  /** The optional IF EXISTS matches nothing where the text does not say it. */
  lemma SkipsIfExists(s: string, i: nat, m: nat)
    requires SingleSpaced(s) && i <= |s| && !At(Lower(s), i, "if" + " " + "exists")
    requires Spans(Opt(KeywordRe("if", Then(Lit("exists"), Plus(Space)))), s, i, m)
    ensures m == i
  {
    if m != i {
      KeywordSpan("if", Then(Lit("exists"), Plus(Space)), s, i, m);
      var n := ThenSpan(Lit("exists"), Plus(Space), s, i + 3, m);
      assert Lower(s)[i + 2] == ' ';
      AtParts(Lower(s), i, "if", "exists");
    }
  }

  lemma NoQuoteMark(s: string, i: nat)
    requires '"' !in s
    ensures !At(Lower(s), i, "\"")
  {
    if i < |s| {
      assert Lower(s)[i..i + 1][0] == LowerChar(s[i]) != '"';
    }
  }

  /** The optional schema and the table name stay within one word. */
  lemma StaysInWord(index: nat, quoted: nat, plain: nat, s: string, i: nat, m: nat, n: nat)
    requires i <= |s| && m <= |s| && '"' !in s
    requires Spans(Opt(Then(Group(index, Plus(Word)), Lit("."))), s, i, m) && Spans(NameRe(quoted, plain), s, m, n)
    ensures i <= m < n <= |s| && forall k :: i <= k < n ==> !IsSpace(s[k])
  {
    if m != i {
      var x := ThenSpan(Group(index, Plus(Word)), Lit("."), s, i, m);
      AtChars(Lower(s), x, ".");
      assert Lower(s)[x] == LowerChar(s[x]) == '.';
    }
    NoQuoteMark(s, m);
    if Spans(Then(Lit("\""), Then(Group(quoted, Plus(NotQuote)), Lit("\""))), s, m, n) {
      var x := ThenSpan(Lit("\""), Then(Group(quoted, Plus(NotQuote)), Lit("\"")), s, m, n);
    } else {
      assert Spans(Plus(NonSpace), s, m, n);
    }
  }

  lemma WordEnd(s: string, o: nat, e: nat, c: nat)
    requires WordSpan(s, o, e) && o <= c < |s| && IsSpace(s[c]) && forall k :: o <= k < c ==> !IsSpace(s[k])
    ensures c == e
  {
    assert e < |s| ==> IsSpace(s[e]);
  }

  /** Behind the table name comes RENAME COLUMN, not RENAME TO. */
  lemma NotTo(s: string, t: string, last: Re, e: nat)
    requires SingleSpaced(s) && 13 + |t| <= |s| && At(Lower(s), 20 + |t|, "column")
    ensures !Spans(KeywordRe("rename", KeywordRe("to", last)), s, 13 + |t|, e)
  {
    var d := 13 + |t|;
    if Spans(KeywordRe("rename", KeywordRe("to", last)), s, d, e) {
      KeywordSpan("rename", KeywordRe("to", last), s, d, e);
      KeywordSpan("to", last, s, d + 7, e);
      AtChars(Lower(s), d + 7, "to");
      AtChars(Lower(s), d + 7, "column");
    }
  }

  /** The table name pattern takes all of its word. */
  lemma NameTakesWord(s: string, o: nat, x: nat, rest: Re, e: nat)
    requires SingleSpaced(s) && '"' !in s && WordSpan(s, o, x)
    requires Spans(Then(Opt(Then(Group(1, Plus(Word)), Lit("."))), Then(NameRe(2, 3), Then(Plus(Space), rest))),
                   s, o, e)
    ensures x < |s| && Spans(rest, s, x + 1, e)
  {
    var name := Then(NameRe(2, 3), Then(Plus(Space), rest));
    var b := ThenSpan(Opt(Then(Group(1, Plus(Word)), Lit("."))), name, s, o, e);
    var c := ThenSpan(NameRe(2, 3), Then(Plus(Space), rest), s, b, e);
    StaysInWord(1, 2, 3, s, o, b, c);
    var d := ThenSpan(Plus(Space), rest, s, c, e);
    GapSpan(s, c, d);
    WordEnd(s, o, x, c);
  }

  /** In this statement no table name is followed by RENAME TO. */
  lemma NoRenameTo(s: string, t: string, last: Re, e: nat)
    requires SingleSpaced(s) && '"' !in s && WordSpan(s, 12, 12 + |t|) && At(Lower(s), 20 + |t|, "column")
    requires !At(Lower(s), 12, "if" + " " + "exists")
    ensures !Spans(Then(Opt(KeywordRe("if", Then(Lit("exists"), Plus(Space)))),
                     Then(Opt(Then(Group(1, Plus(Word)), Lit("."))),
                     Then(NameRe(2, 3), Then(Plus(Space), KeywordRe("rename", KeywordRe("to", last)))))), s, 12, e)
  {
    var verb := KeywordRe("rename", KeywordRe("to", last));
    var qualified := Then(Opt(Then(Group(1, Plus(Word)), Lit("."))), Then(NameRe(2, 3), Then(Plus(Space), verb)));
    var ifExists := Opt(KeywordRe("if", Then(Lit("exists"), Plus(Space))));
    if Spans(Then(ifExists, qualified), s, 12, e) {
      var a := ThenSpan(ifExists, qualified, s, 12, e);
      SkipsIfExists(s, 12, a);
      NameTakesWord(s, 12, 12 + |t|, verb, e);
      NotTo(s, t, last, e);
    }
  }

  lemma ExtractsNoTable(t: string, oldName: string, newName: string)
    requires PlainName(t) && PlainName(oldName) && PlainName(newName) && EndsWith(Lower(oldName), "rename")
    ensures Find(RenameTableRe(), Sentence(Statement(t, oldName, newName)), 0) == None
  {
    var s := Sentence(Statement(t, oldName, newName));
    Layout(t, oldName, newName);
    NoIfExists(t, oldName, newName, 12);
    var last := NameRe(4, 5);
    var rest := Then(Opt(KeywordRe("if", Then(Lit("exists"), Plus(Space)))),
                  Then(Opt(Then(Group(1, Plus(Word)), Lit("."))),
                  Then(NameRe(2, 3), Then(Plus(Space), KeywordRe("rename", KeywordRe("to", last))))));
    forall j: nat | j <= |s| ensures Matches(RenameTableRe(), s, j) == [] {
      forall e: nat ensures !Spans(RenameTableRe(), s, j, e) {
        if Spans(RenameTableRe(), s, j, e) {
          TwoKeywords("alter", "table", rest, s, j, e);
          AlterTablePlace(t, oldName, newName, j);
          NoRenameTo(s, t, last, e);
        }
      }
      NoSpanNoMatch(RenameTableRe(), s, j);
    }
    FindNowhere(RenameTableRe(), s, 0);
  }

  // ---------- the main result ----------

  lemma SaysRenameTo(t: string, oldName: string, newName: string)
    requires IsWordText(t) && IsWordText(oldName) && IsWordText(newName)
    ensures (exists k: nat :: Across(LowStatement(t, oldName, newName), k, "rename", "to"))
            <==> EndsWith(Lower(oldName), "rename")
  {
    var low := LowStatement(t, oldName, newName);
    AcrossBefore(low, 5, "rename", "to");
    if k: nat :| Across(low, k, "rename", "to") {
      Phrases(t, oldName, newName, k);
    }
  }

  lemma SaysRenameColumn(t: string, oldName: string, newName: string)
    ensures exists k: nat :: Across(LowStatement(t, oldName, newName), k, "rename", "column")
  {
    WholeWords(LowStatement(t, oldName, newName), 3, "rename", "column");
  }

  lemma WhatItSays(t: string, oldName: string, newName: string)
    requires IsWordText(t) && IsWordText(oldName) && IsWordText(newName)
    ensures var ws := Statement(t, oldName, newName);
            && !Says(ws, "add", "constraint") && !Says(ws, "add", "column")
            && !Says(ws, "alter", "column") && !Says(ws, "drop", "column")
            && Says(ws, "rename", "column")
            && (Says(ws, "rename", "to") <==> EndsWith(Lower(oldName), "rename"))
  {
    Lowered(t, oldName, newName);
    NoPhrase(t, oldName, newName, "add", "constraint");
    NoPhrase(t, oldName, newName, "add", "column");
    NoPhrase(t, oldName, newName, "alter", "column");
    NoPhrase(t, oldName, newName, "drop", "column");
    SaysRenameColumn(t, oldName, newName);
    SaysRenameTo(t, oldName, newName);
  }

  /** Which phrases the switch sees. */
  lemma PhrasesSeen(t: string, oldName: string, newName: string)
    requires IsWordText(t) && IsWordText(oldName) && IsWordText(newName)
    ensures var low := Lower(Sentence(Statement(t, oldName, newName)));
            && !Contains(low, "add constraint") && !Contains(low, "add column")
            && !Contains(low, "alter column") && !Contains(low, "drop column")
            && Contains(low, "rename column")
            && (Contains(low, "rename to") <==> EndsWith(Lower(oldName), "rename"))
  {
    var ws := Statement(t, oldName, newName);
    PlainWords(t, oldName, newName);
    WhatItSays(t, oldName, newName);
    SwitchPhrases(ws);
  }

  /** The diff that a rename of column `oldName` to `newName` should give. */
  function Renamed(o: Object, col: Column, oldName: string, newName: string): TableDiff {
    TableDiff(TableOf(o), o.pgstreamID, None, None, [], [],
              [ColumnDiff(newName, ColumnID(col, o.pgstreamID), Some(ValueChange(oldName, newName)), None)])
  }

  /** An event for one table, or one column of it, that has the renamed column yields exactly one
      table diff with exactly that rename, if and only if the old name does not end in "rename";
      otherwise the statement reads as a table rename and nothing at all is recorded. */
  lemma RenameDiff(e: Event, o: Object, col: Column, t: string, oldName: string, newName: string)
    requires PlainName(t) && PlainName(oldName) && PlainName(newName)
    requires e.ddl == Sentence(Statement(t, oldName, newName)) && Altered(e) == [o]
    requires ColumnByName(o.columns, newName) == Some(col)
    ensures DiffsOfObjects(e.ddl, Altered(e)) == [Renamed(o, col, oldName, newName)]
            <==> !EndsWith(Lower(oldName), "rename")
    ensures EndsWith(Lower(oldName), "rename") ==> DiffsOfObjects(e.ddl, Altered(e)) == []
  {
    PhrasesSeen(t, oldName, newName);
    ColumnHasName(o.columns, newName);
    if EndsWith(Lower(oldName), "rename") {
      ExtractsNoTable(t, oldName, newName);
      assert DiffOfObject(e.ddl, o) == TableDiff(TableOf(o), o.pgstreamID, None, None, [], [], []);
    } else {
      ExtractsNames(t, oldName, newName);
      assert DiffOfObject(e.ddl, o) == Renamed(o, col, oldName, newName);
    }
    assert [o][..0] == [];
  }

  /** The same with nothing but names and numbers: for the table `public.users`, or one of its columns,
      the change is filed under `users`, and under the column's own id. */
  lemma RenameFiled(e: Event, o: Object, col: Column, table: string, t: string, oldName: string, newName: string)
    requires PlainName(t) && PlainName(oldName) && PlainName(newName) && !EndsWith(Lower(oldName), "rename")
    requires e.ddl == Sentence(Statement(t, oldName, newName)) && Altered(e) == [o]
    requires Identifies(o.identity, table) && col in o.columns && col.name == newName
    requires forall c :: c in o.columns && c.name == newName ==> c == col
    requires -0x8000_0000_0000_0000 <= col.attnum < 0x8000_0000_0000_0000
    ensures var diffs := DiffsOfObjects(e.ddl, Altered(e));
            |diffs| == 1 && diffs[0].tableName == table && diffs[0].tablePgstreamID == o.pgstreamID
            && |diffs[0].columnsChanged| == 1
            && var c := diffs[0].columnsChanged[0];
               c.columnName == newName && c.nameChange == Some(ValueChange(oldName, newName)) && c.typeChange == None
               && o.pgstreamID + "-" <= c.columnPgstreamID
               && Decimal.Atoi(c.columnPgstreamID[|o.pgstreamID| + 1..]) == Some(col.attnum)
  {
    TableOfIdentity(o, table);
    ColumnHasName(o.columns, newName);
    ColumnIDParts(col, o.pgstreamID);
    RenameDiff(e, o, col, t, oldName, newName);
  }

  /** So nothing is recorded of `ALTER TABLE t RENAME COLUMN rename TO x`. */
  lemma RenameLostHere(e: Event, o: Object, col: Column)
    requires e.ddl == Sentence(Statement("t", "rename", "x")) && Altered(e) == [o]
    requires o.columns == [col] && col.name == "x"
    ensures DiffsOfObjects(e.ddl, Altered(e)) == []
  {
    PlainHere();
    RenameDiff(e, o, col, "t", "rename", "x");
  }

  lemma PlainHere()
    ensures PlainName("t") && PlainName("rename") && PlainName("x") && EndsWith(Lower("rename"), "rename")
  {
    assert Lower("rename") == "rename";
  }
}
