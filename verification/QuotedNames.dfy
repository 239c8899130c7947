/** Names in double quotes: what the patterns take of them, and what becomes of the statement. */
module QuotedNames {
  import opened Text
  import opened Regex
  import opened Words
  import opened SchemaDiff
  import opened Patterns
  import opened RenameColumn
  import AlterTable

  /** What can stand between two quotes. */
  predicate IsInner(q: string) {
    q != "" && '"' !in q
  }

  function Quoted(q: string): string {
    "\"" + q + "\""
  }

  lemma QuoteMark(s: string, i: nat)
    requires i < |s| && s[i] == '"'
    ensures Prefers(Lit("\""), s, i, Moved(i + 1))
  {
    AtChars(Lower(s), i, "\"");
    PrefersLit("\"", s, i);
  }

  lemma PrefersLeft(a: Re, b: Re, s: string, i: nat, f: Found)
    requires Prefers(a, s, i, f)
    ensures Prefers(Or(a, b), s, i, f)
  {
  }

  /** The text between the quotes, and the quote behind it. */
  lemma InnerTaken(s: string, i: nat, q: string, n: nat)
    requires IsInner(q) && At(s, i, q) && i + |q| < |s| && s[i + |q|] == '"'
    ensures Prefers(Then(Group(n, Plus(NotQuote)), Lit("\"")), s, i, Found(i + |q| + 1, map[n := q]))
  {
    AtChars(s, i, q);
    var f := NameFound(i, s[i..i + |q|], n);
    PrefersGroupedPlus(n, NotQuote, s, i, i + |q|);
    QuoteMark(s, i + |q|);
    PrefersThen(Group(n, Plus(NotQuote)), Lit("\""), s, i, f, Moved(i + |q| + 1));
    assert f.groups + map[] == f.groups;
  }

  /** A name pattern takes what stands between two quotes, whatever that is and whatever follows. */
  lemma QuotedTaken(s: string, o: nat, q: string, quoted: nat, plain: nat)
    requires IsInner(q) && At(s, o, Quoted(q))
    ensures Prefers(NameRe(quoted, plain), s, o, Found(o + |q| + 2, map[quoted := q]))
  {
    var inner := Then(Group(quoted, Plus(NotQuote)), Lit("\""));
    var f := Found(o + |q| + 2, map[quoted := q]);
    AtChars(s, o, Quoted(q));
    AtChars(s, o + 1, q);
    QuoteMark(s, o);
    InnerTaken(s, o + 1, q, quoted);
    PrefersThenPlain(Lit("\""), inner, s, o, o + 1, f);
    PrefersLeft(Then(Lit("\""), inner), Group(plain, Plus(NonSpace)), s, o, f);
  }

  // ---------- ADD, ALTER and DROP COLUMN ----------

  /** What follows COLUMN starts with the quoted name, which may consist of several words. */
  predicate NamesQuoted(words: seq<string>, q: string) {
    IsInner(q) && AllWords(words) && words != [] && Quoted(q) <= Sentence(words)
  }

  lemma {:induction false} SentenceFrom(ws: seq<string>, k: nat, text: string)
    requires k < |ws| && text <= Sentence(ws[k..])
    ensures At(Sentence(ws), Offset(ws, k), text)
  {
    if k == 0 {
      assert ws[0..] == ws;
    } else {
      assert ws[1..][k - 1..] == ws[k..];
      SentenceFrom(ws[1..], k - 1, text);
      SentenceTail(ws);
      AtWhole(Sentence(ws), |ws[0]| + 1, Offset(ws[1..], k - 1), text);
    }
  }

  lemma StartsWithQuote(words: seq<string>, q: string)
    requires NamesQuoted(words, q)
    ensures Lower(words[0]) != "if"
  {
    WordAt(words, 0);
    AtChars(Sentence(words), 0, words[0]);
    assert words[0][0] == Sentence(words)[0] == Quoted(q)[0] == '"';
    assert Lower(words[0])[0] == '"';
  }

  lemma QuotedStands(ws: seq<string>, k: nat, q: string)
    requires k < |ws| && NamesQuoted(ws[k..], q)
    ensures At(Sentence(ws), Offset(ws, k), Quoted(q))
  {
    SentenceFrom(ws, k, Quoted(q));
  }

  /** The pattern behind COLUMN takes the quoted name. */
  lemma QuotedAt(ws: seq<string>, k: nat, o: nat, q: string)
    requires k < |ws| && NamesQuoted(ws[k..], q) && o == Offset(ws, k)
    ensures Prefers(NameRe(1, 2), Sentence(ws), o, Found(o + |q| + 2, map[1 := q]))
  {
    QuotedStands(ws, k, q);
    QuotedTaken(Sentence(ws), o, q, 1, 2);
  }

  /** A quote does not start an optional clause. */
  lemma NoClause(ws: seq<string>, k: nat, o: nat, q: string, clause: Re)
    requires AllWords(ws) && k < |ws| && NamesQuoted(ws[k..], q) && o == Offset(ws, k)
    requires clause == AlterTable.IfNotExistsRe() || clause == AlterTable.IfExistsRe()
    ensures o <= |Sentence(ws)| && Matches(clause, Sentence(ws), o) == []
  {
    StartsWithQuote(ws[k..], q);
    AlterTable.WordWithin(ws, k);
    if clause == AlterTable.IfNotExistsRe() {
      AlterTable.IfNotExistsAbsent(ws, k);
    } else {
      AlterTable.IfExistsAbsent(ws, k);
    }
  }

  lemma FindsQuoted(verb: string, t: string, words: seq<string>, rest: Re, q: string, e: nat)
    requires AlterTable.IsVerb(verb) && PlainName(t) && NamesQuoted(words, q)
    requires var ws := AlterTable.ColumnStatement(verb, t, words);
             Prefers(rest, Sentence(ws), Offset(ws, 5), Found(e, map[1 := q]))
    ensures var ddl := Sentence(AlterTable.ColumnStatement(verb, t, words));
            ExtractName(KeywordRe(Lower(verb), KeywordRe("column", rest)), ddl, 1, 2) == q
  {
    var ws := AlterTable.ColumnStatement(verb, t, words);
    AlterTable.ColumnWords(verb, t, words);
    assert Lower(ws[3]) == Lower(verb) && Lower(ws[4]) == "column" by {
      AlterTable.LowerVerbs();
    }
    forall j: nat | j < 3 ensures !Across(LowerAll(ws), j, Lower(verb), "column") {
      AlterTable.VerbFirst(verb, t, words, j);
    }
    FindPhrase(ws, 3, Lower(verb), "column", rest, Found(e, map[1 := q]));
  }

  /** Each extractor takes exactly what stands between the quotes, spaces and keywords included; what
      follows the second quote plays no part, so a doubled quote ends the name. */
  lemma ExtractsQuoted(verb: string, t: string, words: seq<string>, q: string)
    requires AlterTable.IsVerb(verb) && PlainName(t) && NamesQuoted(words, q)
    ensures var ddl := Sentence(AlterTable.ColumnStatement(verb, t, words));
            && (verb == "ADD" ==> ExtractName(AddColumnRe(), ddl, 1, 2) == q)
            && (verb == "ALTER" ==> ExtractName(AlterColumnRe(), ddl, 1, 2) == q)
            && (verb == "DROP" ==> ExtractName(DropColumnRe(), ddl, 1, 2) == q)
  {
    var ws := AlterTable.ColumnStatement(verb, t, words);
    var s, o := Sentence(ws), Offset(ws, 5);
    var f := Found(o + |q| + 2, map[1 := q]);
    AlterTable.ColumnWords(verb, t, words);
    assert ws[5..] == words;
    QuotedAt(ws, 5, o, q);
    AlterTable.LowerVerbs();
    if verb == "ADD" {
      NoClause(ws, 5, o, q, AlterTable.IfNotExistsRe());
      PrefersSkip(AlterTable.IfNotExistsRe(), NameRe(1, 2), s, o, f);
      FindsQuoted(verb, t, words, Then(Opt(AlterTable.IfNotExistsRe()), NameRe(1, 2)), q, f.end);
    } else if verb == "ALTER" {
      FindsQuoted(verb, t, words, NameRe(1, 2), q, f.end);
    } else {
      NoClause(ws, 5, o, q, AlterTable.IfExistsRe());
      PrefersSkip(AlterTable.IfExistsRe(), NameRe(1, 2), s, o, f);
      FindsQuoted(verb, t, words, Then(Opt(AlterTable.IfExistsRe()), NameRe(1, 2)), q, f.end);
    }
  }

  /** A quoted column is recorded under the same conditions as a plain one. */
  lemma QuotedColumnDiff(e: Event, o: Object, col: Column, verb: string, t: string, words: seq<string>, q: string)
    requires AlterTable.IsVerb(verb) && PlainName(t) && NamesQuoted(words, q) && Altered(e) == [o]
    requires e.ddl == Sentence(AlterTable.ColumnStatement(verb, t, words)) && ColumnByName(o.columns, q) == Some(col)
    ensures var diffs, same := DiffsOfObjects(e.ddl, Altered(e)), Unchanged(o);
            && (verb == "ADD" && AlterTable.IsForAdd(e.ddl) ==> diffs == [same.(columnsAdded := [col])])
            && (verb == "ALTER" && AlterTable.IsForAlter(e.ddl) ==>
                  diffs == [same.(columnsChanged := [AlterTable.Retyped(col)])])
            && (verb == "DROP" && AlterTable.IsForDrop(e.ddl) ==> diffs == [same.(columnsRemoved := [NamedColumn(q)])])
  {
    ExtractsQuoted(verb, t, words, q);
    AlterTable.SaysVerb(verb, t, words);
    AlterTable.OneObject(e.ddl, o);
    if verb == "ADD" {
      AlterTable.AddCase(e.ddl, o, col, q);
    } else if verb == "ALTER" {
      AlterTable.AlterCase(e.ddl, o, col, q);
    } else {
      AlterTable.DropCase(e.ddl, o, q);
    }
  }

  // ---------- RENAME COLUMN ----------

  /** The word stands for the name: the name itself, or the name between quotes. */
  predicate Writes(w: string, name: string) {
    IsWordText(w) && if PlainName(w) then name == w else IsInner(name) && w == Quoted(name)
  }

  /** A match that takes the name, quoted or not. */
  predicate Gives(f: Found, quoted: nat, plain: nat, name: string) {
    f.groups == map[plain := name] || f.groups == map[quoted := name]
  }

  lemma NameTaken(ws: seq<string>, k: nat, quoted: nat, plain: nat, name: string) returns (f: Found)
    requires AllWords(ws) && k < |ws| && Writes(ws[k], name)
    ensures Prefers(NameRe(quoted, plain), Sentence(ws), Offset(ws, k), f)
    ensures f.end == Offset(ws, k) + |ws[k]| && Gives(f, quoted, plain, name)
  {
    if PlainName(ws[k]) {
      NameAt(ws, k, quoted, plain);
      f := NameFound(Offset(ws, k), ws[k], plain);
    } else {
      WordAt(ws, k);
      QuotedTaken(Sentence(ws), Offset(ws, k), name, quoted, plain);
      f := Found(Offset(ws, k) + |name| + 2, map[quoted := name]);
    }
  }

  /** Both names, with TO between them. */
  lemma BothTaken(ws: seq<string>, oldName: string, newName: string) returns (f: Found, g: Found)
    requires AllWords(ws) && |ws| == 8 && Writes(ws[5], oldName) && Writes(ws[7], newName) && Lower(ws[6]) == "to"
    ensures Gives(f, 1, 2, oldName) && Gives(g, 3, 4, newName)
    ensures Prefers(NamesRe(), Sentence(ws), Offset(ws, 5), Joined(f, g))
  {
    f := NameTaken(ws, 5, 1, 2, oldName);
    g := NameTaken(ws, 7, 3, 4, newName);
    KeywordAt(ws, 6, "to", NameRe(3, 4), g);
    GapAt(ws, 5, KeywordRe("to", NameRe(3, 4)), g);
    PrefersThen(NameRe(1, 2), Then(Plus(Space), KeywordRe("to", NameRe(3, 4))), Sentence(ws), Offset(ws, 5), f, g);
  }

  lemma BothInGroups(f: Found, g: Found, oldName: string, newName: string)
    requires Gives(f, 1, 2, oldName) && Gives(g, 3, 4, newName) && oldName != "" && newName != ""
    ensures EitherGroup(Joined(f, g), 1, 2) == oldName && EitherGroup(Joined(f, g), 3, 4) == newName
  {
  }

  lemma ExtractsWritten(t: string, v: string, w: string, oldName: string, newName: string)
    requires PlainName(t) && Writes(v, oldName) && Writes(w, newName)
    ensures ExtractRenamedColumnNames(Sentence(Statement(t, v, w))) == (oldName, newName)
  {
    var ws := Statement(t, v, w);
    PlainWords(t, v, w);
    LowerWord(t, v, w);
    forall j: nat | j < 3 ensures !Across(LowerAll(ws), j, "rename", "column") {
      Lowered(t, v, w);
      Phrases(t, v, w, j);
    }
    var f, g := BothTaken(ws, oldName, newName);
    FindPhrase(ws, 3, "rename", "column", NamesRe(), Joined(f, g));
    BothInGroups(f, g, oldName, newName);
  }

  lemma LastChar(w: string, p: string)
    requires EndsWith(w, p) && p != ""
    ensures w[|w| - 1] == p[|p| - 1]
  {
  }

  lemma QuotedEnd(q: string)
    ensures !EndsWith(Lower(Quoted(q)), "rename")
  {
    if EndsWith(Lower(Quoted(q)), "rename") {
      LastChar(Lower(Quoted(q)), "rename");
    }
  }

  /** With either name in quotes the rename is recorded as with plain ones; the old name in quotes is
      always safe, whatever it ends in. */
  lemma QuotedRenameDiff(e: Event, o: Object, col: Column, t: string, v: string, w: string,
                         oldName: string, newName: string)
    requires PlainName(t) && Writes(v, oldName) && Writes(w, newName) && Altered(e) == [o]
    requires e.ddl == Sentence(Statement(t, v, w)) && ColumnByName(o.columns, newName) == Some(col)
    requires PlainName(v) ==> !EndsWith(Lower(v), "rename")
    ensures DiffsOfObjects(e.ddl, Altered(e)) == [Renamed(o, col, oldName, newName)]
  {
    if !PlainName(v) {
      QuotedEnd(oldName);
    }
    PhrasesSeen(t, v, w);
    ColumnHasName(o.columns, newName);
    ExtractsWritten(t, v, w, oldName, newName);
    assert DiffOfObject(e.ddl, o) == Renamed(o, col, oldName, newName);
    assert [o][..0] == [];
  }
}
