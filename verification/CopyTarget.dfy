/** The target of a COPY: its table and column names, from which quotes are trimmed. */
module CopyTarget {
  import opened Text
  import opened Identifiers

  function TrimFront(s: string): (r: string)
    ensures |r| <= |s| && r == s[|s| - |r|..]
    ensures r != "" ==> r[0] != '"'
    ensures (s == "" || s[0] != '"') ==> r == s
  {
    if s != "" && s[0] == '"' then TrimFront(s[1..]) else s
  }

  function TrimBack(s: string): (r: string)
    ensures |r| <= |s| && r == s[..|r|]
    ensures r != "" ==> r[|r| - 1] != '"'
    ensures (s == "" || s[|s| - 1] != '"') ==> r == s
  {
    if s != "" && s[|s| - 1] == '"' then TrimBack(s[..|s| - 1]) else s
  }

  /** `removeQuotes`: all quotes at both ends, doubled or not. */
  function RemoveQuotes(s: string): (r: string)
    ensures r != "" ==> r[0] != '"' && r[|r| - 1] != '"'
    ensures '"' !in s ==> r == s
  {
    TrimBack(TrimFront(s))
  }

  lemma RemoveQuotesTwice(s: string)
    ensures RemoveQuotes(RemoveQuotes(s)) == RemoveQuotes(s)
  {
  }

  lemma {:induction false} DoubleEnds(s: string)
    ensures |Double(s)| == |s| + Count(s, '"') && (Double(s) == "" <==> s == "")
    ensures s != "" ==> Double(s)[0] == s[0] && Double(s)[|Double(s)| - 1] == s[|s| - 1]
    ensures '"' !in s ==> Double(s) == s
  {
    if s == "" {
    } else {
      DoubleEnds(s[1..]);
      CountAppend([s[0]], s[1..], '"');
      assert s == [s[0]] + s[1..];
      assert Count([s[0]], '"') == if s[0] == '"' then 1 else 0;
    }
  }

  lemma FrontQuote(t: string)
    ensures TrimFront("\"" + t) == TrimFront(t)
  {
    assert ("\"" + t)[1..] == t;
  }

  lemma BackQuote(t: string)
    ensures TrimBack(t + "\"") == TrimBack(t)
  {
    assert (t + "\"")[..|t|] == t;
  }

  /** Only the quotes added go, if the text between them has none at its ends. */
  lemma TrimAdded(d: string)
    requires d != "" ==> d[0] != '"' && d[|d| - 1] != '"'
    ensures RemoveQuotes("\"" + d + "\"") == d
  {
    Assoc("\"", d, "\"");
    FrontQuote(d + "\"");
    BackQuote(d);
    if d == "" {
      FrontQuote("");
      assert "" + "\"" == "\"" + "";
    }
  }

  lemma OnlyOwnChars(s: string)
    ensures forall c :: c in RemoveQuotes(s) ==> c in s
  {
    var t := TrimFront(s);
    assert forall c :: c in t ==> c in s;
  }

  /** Nothing that was trimmed has a quote at an end. */
  lemma QuotedEndStays(s: string, t: string)
    requires s != "" && (s[0] == '"' || s[|s| - 1] == '"')
    ensures RemoveQuotes(t) != s
  {
  }

  lemma DoubleSame(s: string)
    ensures Double(s) == s <==> '"' !in s
  {
    DoubleEnds(s);
    CountZero(s, '"');
  }

  lemma RemoveFromInner(s: string)
    requires s != "" ==> s[0] != '"' && s[|s| - 1] != '"'
    ensures RemoveQuotes("\"" + Double(s) + "\"") == Double(s)
  {
    DoubleEnds(s);
    TrimAdded(Double(s));
  }

  lemma RemoveFromFresh(s: string)
    ensures RemoveQuotes("\"" + Double(s) + "\"") == s <==> '"' !in s
  {
    if s != "" && (s[0] == '"' || s[|s| - 1] == '"') {
      QuotedEndStays(s, "\"" + Double(s) + "\"");
    } else {
      RemoveFromInner(s);
      DoubleSame(s);
    }
  }

  /** A NUL does not come back. */
  lemma NulIsLost(s: string)
    requires NUL in s
    ensures RemoveQuotes("\"" + Double(UpToNul(s)) + "\"") != s
  {
    DoubleKeeps(UpToNul(s), NUL);
    OnlyOwnChars("\"" + Double(UpToNul(s)) + "\"");
  }

  lemma NoNulStays(s: string)
    requires NUL !in s
    ensures UpToNul(s) == s
  {
  }

  /** Trimming a quoted name gives the name back for exactly the names without NUL and quotes: a
      quote within the name was doubled, and trimming does not undo that. */
  lemma RemoveFromQuoted(s: string)
    ensures RemoveQuotes(QuoteIdentifier(s)) == s <==> NUL !in s && '"' !in s
  {
    if IsQuotedIdentifier(s) {
      QuotedEndStays(s, s);
    } else if NUL in s {
      NulIsLost(s);
    } else {
      NoNulStays(s);
      RemoveFromFresh(s);
    }
  }

  // ---------- column names, in place ----------

  function AllRemoved(columns: seq<string>): (r: seq<string>)
    ensures |r| == |columns| && forall i :: 0 <= i < |columns| ==> r[i] == RemoveQuotes(columns[i])
  {
    seq(|columns|, i requires 0 <= i < |columns| => RemoveQuotes(columns[i]))
  }

  /** The caller's own slice is rewritten. */
  method RemoveAllQuotes(columns: array<string>)
    modifies columns
    ensures columns[..] == AllRemoved(old(columns[..]))
  {
    for i := 0 to columns.Length
      invariant forall k :: 0 <= k < i ==> columns[k] == RemoveQuotes(old(columns[k]))
      invariant forall k :: i <= k < columns.Length ==> columns[k] == old(columns[k])
    {
      var name := RemoveQuotes(columns[i]);
      columns[i] := name;
    }
  }

  lemma AllRemovedTwice(columns: seq<string>)
    ensures AllRemoved(AllRemoved(columns)) == AllRemoved(columns)
  {
    forall i | 0 <= i < |columns| ensures AllRemoved(AllRemoved(columns))[i] == AllRemoved(columns)[i] {
      RemoveQuotesTwice(columns[i]);
    }
  }

  /** A COPY that is repeated with the slice it has rewritten names the same columns again. */
  method RepeatedCopy(columns: array<string>)
    modifies columns
    ensures columns[..] == AllRemoved(old(columns[..]))
  {
    AllRemovedTwice(columns[..]);
    RemoveAllQuotes(columns);
    RemoveAllQuotes(columns);
  }

  // ---------- the table ----------

  /** The parts of the target's name, quotes trimmed. */
  function IdentifierOf(tableName: string): Result<seq<string>, string> {
    var parts := Split(tableName, '.');
    if |parts| <= 2 then Ok(AllRemoved(parts)) else Err(tableName)
  }

  lemma OnePart(s: string)
    requires |Split(s, '.')| == 1
    ensures Split(s, '.') == [s]
  {
    JoinSplit(s, '.');
  }

  method NewIdentifier(tableName: string) returns (r: Result<seq<string>, string>)
    ensures r == IdentifierOf(tableName)
  {
    var qualified := Split(tableName, '.');
    var identifier: seq<string>;
    match |qualified| {
      case 1 =>
        OnePart(tableName);
        identifier := [tableName];
      case 2 => identifier := [qualified[0], qualified[1]];
      case _ => return Err(tableName);
    }
    assert identifier == qualified;
    identifier := RemoveFromParts(identifier);
    return Ok(identifier);
  }

  /** The loop over the parts of the identifier. */
  method RemoveFromParts(parts: seq<string>) returns (identifier: seq<string>)
    ensures identifier == AllRemoved(parts)
  {
    identifier := parts;
    for i := 0 to |parts|
      invariant |identifier| == |parts|
      invariant forall k :: 0 <= k < |parts| ==> identifier[k] == if k < i then RemoveQuotes(parts[k]) else parts[k]
    {
      var part := RemoveQuotes(identifier[i]);
      identifier := identifier[i := part];
    }
  }

  predicate Trims(s: string) {
    NUL !in s && '"' !in s && '.' !in s
  }

  lemma IdentifierOfQuoted(schema: string, table: string)
    ensures var qs, qt := QuoteIdentifier(schema), QuoteIdentifier(table);
            if '.' in qs || '.' in qt then IdentifierOf(QuoteQualifiedIdentifier(schema, table)).Err?
            else IdentifierOf(QuoteQualifiedIdentifier(schema, table)) == Ok([RemoveQuotes(qs), RemoveQuotes(qt)])
  {
    var qs, qt := QuoteIdentifier(schema), QuoteIdentifier(table);
    var name := qs + "." + qt;
    if '.' !in qs && '.' !in qt {
      SplitCons(qs, qt, '.');
      SplitFree(qt, '.');
      assert Split(name, '.') == [qs, qt];
      assert AllRemoved([qs, qt]) == [RemoveQuotes(qs), RemoveQuotes(qt)];
    } else {
      JoinSplit(name, '.');
      CountAppend(qs + ".", qt, '.');
      CountAppend(qs, ".", '.');
      CountZero(qs, '.');
      CountZero(qt, '.');
      assert Count(".", '.') == 1;
    }
  }

  lemma DotKept(s: string)
    requires NUL !in s && '"' !in s
    ensures '.' in QuoteIdentifier(s) <==> '.' in s
  {
    NoNulStays(s);
    DoubleKeeps(s, '.');
  }

  /** Which names keep their dots to themselves when quoted. */
  lemma TrimsPart(s: string)
    ensures Trims(s) <==> '.' !in QuoteIdentifier(s) && RemoveQuotes(QuoteIdentifier(s)) == s
  {
    RemoveFromQuoted(s);
    if NUL !in s && '"' !in s {
      DotKept(s);
    }
  }

  /** A quoted qualified name reaches the COPY as the same schema and table, for exactly the names
      without NUL, quotes and dots. */
  lemma IdentifierRoundTrip(schema: string, table: string)
    ensures IdentifierOf(QuoteQualifiedIdentifier(schema, table)) == Ok([schema, table])
            <==> Trims(schema) && Trims(table)
  {
    IdentifierOfQuoted(schema, table);
    TrimsPart(schema);
    TrimsPart(table);
  }

  // ---------- what is trimmed ----------

  predicate OnlyQuotes(s: string) {
    forall i :: 0 <= i < |s| ==> s[i] == '"'
  }

  lemma {:induction false} FrontIsQuotes(s: string)
    ensures OnlyQuotes(s[..|s| - |TrimFront(s)|])
  {
    if s != "" && s[0] == '"' {
      FrontIsQuotes(s[1..]);
      var n := |s| - |TrimFront(s)|;
      assert forall i :: 0 < i < n ==> s[i] == s[1..][..n - 1][i - 1];
    }
  }

  lemma {:induction false} BackIsQuotes(s: string)
    ensures OnlyQuotes(s[|TrimBack(s)|..])
  {
    if s != "" && s[|s| - 1] == '"' {
      var t := s[..|s| - 1];
      BackIsQuotes(t);
      var n := |TrimBack(t)|;
      assert s[n..] == t[n..] + ['"'];
    }
  }

  lemma TwoParts(s: string, n: nat)
    requires n <= |s|
    ensures s == s[..n] + s[n..]
  {
  }

  /** Nothing but quotes is taken off, at either end, and all of them are. */
  lemma TrimsQuotes(s: string) returns (front: string, back: string)
    ensures s == front + RemoveQuotes(s) + back && OnlyQuotes(front) && OnlyQuotes(back)
    ensures RemoveQuotes(s) != "" ==> RemoveQuotes(s)[0] != '"' && RemoveQuotes(s)[|RemoveQuotes(s)| - 1] != '"'
  {
    var t := TrimFront(s);
    FrontIsQuotes(s);
    BackIsQuotes(t);
    TwoParts(s, |s| - |t|);
    TwoParts(t, |RemoveQuotes(s)|);
    front, back := s[..|s| - |t|], t[|RemoveQuotes(s)|..];
    Assoc(front, RemoveQuotes(s), back);
  }

  /** One part without a dot, two with one, and an error with more. */
  lemma PartsOfName(tableName: string)
    ensures Count(tableName, '.') > 1 <==> IdentifierOf(tableName) == Err(tableName)
    ensures Count(tableName, '.') <= 1 ==> |IdentifierOf(tableName).value| == Count(tableName, '.') + 1
  {
    JoinSplit(tableName, '.');
  }
}
