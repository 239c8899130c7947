/** What pg_restore's output means: which errors it reports, and which of them may be ignored. */
module PgRestore {
  import opened Text

  /** The longest line a `bufio.Scanner` with its default buffer hands out. */
  const MAX_LINE: nat := 65535

  datatype Kind = AlreadyExists | ConstraintViolation | PermissionDenied | DoesNotExist | Unknown

  /** One reported error: its own line and the DETAIL lines wrapped around it. */
  datatype Entry = Entry(kind: Kind, line: string, details: seq<string>) {
    predicate Ignored() {
      kind != Unknown
    }
  }

  predicate IsErrorLine(line: string) {
    Contains(line, "pg_restore: error:") || Contains(line, "ERROR") || Contains(line, "psql: error:")
  }

  predicate IsDetailLine(line: string) {
    Contains(line, "DETAIL:")
  }

  function KindOf(line: string): Kind {
    if Contains(line, "already exists") || Contains(line, "already a partition")
       || Contains(line, "multiple primary keys for table") then AlreadyExists
    else if Contains(line, "cannot drop schema public because other objects depend on it") then ConstraintViolation
    else if Contains(line, "permission denied to grant privileges as role") then PermissionDenied
    else if Contains(line, "does not exist") then DoesNotExist
    else Unknown
  }

  function ParseErrorLine(line: string): Entry {
    Entry(KindOf(line), line, [])
  }

  // ---------- the scanner ----------

  function DropCR(line: string): string {
    if line != "" && line[|line| - 1] == '\r' then line[..|line| - 1] else line
  }

  /** The lines the scanner yields; it stops, without a word, at the first one that is too long. */
  function Lines(out: string): seq<string>
    decreases |out|
  {
    if out == "" then []
    else
      var k := IndexOf(out, '\n');
      if k > MAX_LINE then []
      else [DropCR(out[..k])] + if k == |out| then [] else Lines(out[k + 1..])
  }

  predicate AllLinesFit(out: string)
    decreases |out|
  {
    var k := IndexOf(out, '\n');
    k <= MAX_LINE && (k < |out| ==> AllLinesFit(out[k + 1..]))
  }

  // ---------- the meaning of the lines ----------

  /** The detail lines in front of the next error line. */
  function DetailsOf(rest: seq<string>): seq<string> {
    if rest == [] || IsErrorLine(rest[0]) then []
    else (if IsDetailLine(rest[0]) then [rest[0]] else []) + DetailsOf(rest[1..])
  }

  /** One entry for each error line, in order, with the details that follow it. */
  function Entries(lines: seq<string>): seq<Entry> {
    if lines == [] then []
    else if IsErrorLine(lines[0]) then
      [Entry(KindOf(lines[0]), lines[0], DetailsOf(lines[1..]))] + Entries(lines[1..])
    else Entries(lines[1..])
  }

  function Select(es: seq<Entry>, ignored: bool): seq<Entry> {
    if es == [] then []
    else Select(es[..|es| - 1], ignored)
         + if es[|es| - 1].Ignored() == ignored then [es[|es| - 1]] else []
  }

  class PGRestoreErrors {
    var ignoredErrs: seq<Entry>
    var criticalErrs: seq<Entry>

    constructor ()
      ensures ignoredErrs == [] && criticalErrs == []
    {
      ignoredErrs, criticalErrs := [], [];
    }

    /** Holds exactly these errors, each in its class and in order. */
    ghost predicate Holds(es: seq<Entry>)
      reads this
    {
      ignoredErrs == Select(es, true) && criticalErrs == Select(es, false)
    }

    method AddError(e: Entry, ghost es: seq<Entry>)
      requires Holds(es)
      modifies this
      ensures Holds(es + [e])
    {
      assert (es + [e])[..|es|] == es;
      if e.Ignored() {
        ignoredErrs := ignoredErrs + [e];
      } else {
        criticalErrs := criticalErrs + [e];
      }
    }
  }

  /** The entries still to come, given the one being collected. */
  ghost function Pending(current: Option<Entry>, rest: seq<string>): seq<Entry> {
    match current
    case None => Entries(rest)
    case Some(e) => [e.(details := e.details + DetailsOf(rest))] + Entries(rest)
  }

  lemma PendingError(current: Option<Entry>, rest: seq<string>)
    requires rest != [] && IsErrorLine(rest[0])
    ensures Pending(current, rest) ==
            (if current.Some? then [current.value] else []) + Pending(Some(ParseErrorLine(rest[0])), rest[1..])
  {
    assert forall ds: seq<string> :: [] + ds == ds && ds + [] == ds;
  }

  lemma PendingOther(current: Option<Entry>, rest: seq<string>)
    requires rest != [] && !IsErrorLine(rest[0])
    ensures Pending(current, rest) ==
            Pending(if IsDetailLine(rest[0]) && current.Some?
                    then Some(current.value.(details := current.value.details + [rest[0]])) else current, rest[1..])
  {
    if current.Some? {
      var ds, more := current.value.details, DetailsOf(rest[1..]);
      Assoc(ds, [rest[0]], more);
      assert [] + more == more;
    }
  }

  lemma PendingEnd(current: Option<Entry>)
    ensures Pending(current, []) == if current.Some? then [current.value] else []
  {
    if current.Some? {
      assert current.value.details + [] == current.value.details;
    }
  }

  /** The loop over the scanned lines. */
  method CollectErrors(lines: seq<string>) returns (found: PGRestoreErrors)
    ensures fresh(found) && found.Holds(Entries(lines))
  {
    ghost var all, done: seq<Entry> := Entries(lines), [];
    found := new PGRestoreErrors();
    var current: Option<Entry> := None;
    assert lines[0..] == lines;
    for i := 0 to |lines|
      invariant found.Holds(done) && fresh(found)
      invariant all == done + Pending(current, lines[i..])
    {
      var line := lines[i];
      ghost var rest := lines[i + 1..];
      assert lines[i..][1..] == rest;
      if IsErrorLine(line) {
        PendingError(current, lines[i..]);
        if current.Some? {
          found.AddError(current.value, done);
          Assoc(done, [current.value], Pending(Some(ParseErrorLine(line)), rest));
          done := done + [current.value];
        }
        current := Some(ParseErrorLine(line));
      } else {
        PendingOther(current, lines[i..]);
        if IsDetailLine(line) && current.Some? {
          current := Some(current.value.(details := current.value.details + [line]));
        }
      }
    }
    PendingEnd(current);
    if current.Some? {
      found.AddError(current.value, done);
      done := done + [current.value];
    }
    assert done == all;
  }

  method ParsePgRestoreOutputErrs(out: string) returns (errs: PGRestoreErrors?)
    ensures errs == null <==> Entries(Lines(out)) == []
    ensures errs != null ==> fresh(errs) && errs.Holds(Entries(Lines(out)))
  {
    if |out| == 0 {
      return null;
    }
    var found := CollectErrors(Lines(out));
    SelectEmpty(Entries(Lines(out)));
    if |found.criticalErrs| == 0 && |found.ignoredErrs| == 0 {
      return null;
    }
    return found;
  }

  lemma SelectEmpty(es: seq<Entry>)
    ensures Select(es, true) == [] && Select(es, false) == [] <==> es == []
  {
  }

  datatype Outcome = Nil | RestoreErrors(ignored: seq<Entry>, critical: seq<Entry>) | ExecError(cause: string)

  function Reported(out: string): Outcome {
    RestoreErrors(Select(Entries(Lines(out)), true), Select(Entries(Lines(out)), false))
  }

  method BuildRestoreError(out: string, execErr: Option<string>) returns (r: Outcome)
    ensures r == BuiltError(out, execErr)
  {
    if execErr == None && !Contains(out, "ERROR") {
      return Nil;
    }
    var errs := ParsePgRestoreOutputErrs(out);
    if errs != null {
      return RestoreErrors(errs.ignoredErrs, errs.criticalErrs);
    }
    if execErr.Some? {
      return ExecError(execErr.value);
    }
    return Nil;
  }

  function BuiltError(out: string, execErr: Option<string>): Outcome {
    if execErr == None && !Contains(out, "ERROR") then Nil
    else if Entries(Lines(out)) != [] then Reported(out)
    else if execErr.Some? then ExecError(execErr.value)
    else Nil
  }

  // ---------- main results ----------

  function ErrorLines(lines: seq<string>): seq<string> {
    if lines == [] then []
    else (if IsErrorLine(lines[0]) then [lines[0]] else []) + ErrorLines(lines[1..])
  }

  /** The entry is of the line, and its class is the one that the line alone decides. */
  predicate Tells(e: Entry, line: string) {
    e.line == line && e.kind == KindOf(line) && (e.Ignored() <==> KindOf(line) != Unknown)
  }

  /** Every error line yields exactly one entry, in order, and its class depends on that line alone. */
  lemma {:induction false} OneEntryPerErrorLine(lines: seq<string>)
    ensures Pairwise(Tells, Entries(lines), ErrorLines(lines))
  {
    if lines == [] {
    } else {
      var line, rest := lines[0], lines[1..];
      OneEntryPerErrorLine(rest);
      if IsErrorLine(line) {
        PairwiseCons(Tells, Entry(KindOf(line), line, DetailsOf(rest)), line, Entries(rest), ErrorLines(rest));
      } else {
        assert [] + ErrorLines(rest) == ErrorLines(rest);
      }
    }
  }

  /** The error lines of one class, by nothing but their own text. */
  function LinesOfClass(ls: seq<string>, ignored: bool): seq<string> {
    if ls == [] then []
    else LinesOfClass(ls[..|ls| - 1], ignored)
         + if (KindOf(ls[|ls| - 1]) != Unknown) == ignored then [ls[|ls| - 1]] else []
  }

  lemma {:induction false} SelectByLine(es: seq<Entry>, ls: seq<string>, ignored: bool)
    requires Pairwise(Tells, es, ls)
    ensures var got, want := Select(es, ignored), LinesOfClass(ls, ignored);
            |got| == |want| && forall i :: 0 <= i < |got| ==> got[i].line == want[i]
  {
    if es == [] {
    } else {
      var n := |es| - 1;
      assert Tells(es[n], ls[n]);
      SelectByLine(es[..n], ls[..n], ignored);
    }
  }

  /** Each class reports its error lines in the order of the output, whatever DETAIL lines follow. */
  lemma ClassesInOrder(lines: seq<string>, ignored: bool)
    ensures var got, want := Select(Entries(lines), ignored), LinesOfClass(ErrorLines(lines), ignored);
            |got| == |want| && forall i :: 0 <= i < |got| ==> got[i].line == want[i]
  {
    OneEntryPerErrorLine(lines);
    SelectByLine(Entries(lines), ErrorLines(lines), ignored);
  }

  /** The phrases of the errors that may be ignored; everything else is critical. */
  predicate MayBeIgnored(line: string) {
    || Contains(line, "already exists") || Contains(line, "already a partition")
    || Contains(line, "multiple primary keys for table") || Contains(line, "does not exist")
    || Contains(line, "cannot drop schema public because other objects depend on it")
    || Contains(line, "permission denied to grant privileges as role")
  }

  lemma IgnoredPhrases(line: string)
    ensures KindOf(line) != Unknown <==> MayBeIgnored(line)
  {
  }

  /** Exactly the lines with one of the three marks give an entry, and that is ignored exactly if the
      line has one of the six phrases. */
  lemma {:induction false} EntriesOfLines(lines: seq<string>, line: string)
    ensures (exists e :: e in Entries(lines) && e.line == line) <==>
            line in lines
            && (Contains(line, "ERROR") || Contains(line, "pg_restore: error:") || Contains(line, "psql: error:"))
    ensures forall e :: e in Entries(lines) && e.line == line ==> (e.Ignored() <==> MayBeIgnored(line))
  {
    if lines == [] {
    } else {
      var rest := lines[1..];
      EntriesOfLines(rest, line);
      IgnoredPhrases(line);
      InHeadOrTail(lines, line);
      if IsErrorLine(lines[0]) {
        InEntries(Entry(KindOf(lines[0]), lines[0], DetailsOf(rest)), Entries(rest), line);
      }
    }
  }

  lemma InHeadOrTail(lines: seq<string>, line: string)
    requires lines != []
    ensures line in lines <==> line == lines[0] || line in lines[1..]
  {
    assert lines == [lines[0]] + lines[1..];
  }

  lemma InEntries(e: Entry, es: seq<Entry>, line: string)
    ensures (exists x :: x in [e] + es && x.line == line) <==> e.line == line || exists x :: x in es && x.line == line
  {
    assert e in [e] + es;
    assert forall x :: x in es ==> x in [e] + es;
  }

  /** All details of the entries, one after the other. */
  function AllDetails(es: seq<Entry>): seq<string> {
    if es == [] then [] else es[0].details + AllDetails(es[1..])
  }

  /** The detail lines that are no error lines themselves. */
  function DetailLines(lines: seq<string>): seq<string> {
    if lines == [] then []
    else (if Contains(lines[0], "DETAIL:") && !IsErrorLine(lines[0]) then [lines[0]] else []) + DetailLines(lines[1..])
  }

  /** No detail line behind the first error is lost, doubled or moved to another error. */
  lemma {:induction false} DetailsKept(lines: seq<string>)
    ensures DetailsOf(lines) + AllDetails(Entries(lines)) == DetailLines(lines)
  {
    if lines == [] {
    } else {
      var rest := lines[1..];
      DetailsKept(rest);
      if IsErrorLine(lines[0]) {
        var e := Entry(KindOf(lines[0]), lines[0], DetailsOf(rest));
        assert ([e] + Entries(rest))[1..] == Entries(rest);
        assert [] + DetailLines(rest) == DetailLines(rest);
      } else {
        Assoc(if IsDetailLine(lines[0]) then [lines[0]] else [], DetailsOf(rest), AllDetails(Entries(rest)));
      }
    }
  }

  /** So the first error gets the details in front of the second, and so on. */
  lemma DetailsFollow(line: string, between: seq<string>, rest: seq<string>)
    requires IsErrorLine(line) && (forall l :: l in between ==> !IsErrorLine(l))
    requires rest != [] ==> IsErrorLine(rest[0])
    ensures Entries([line] + between + rest) == [Entry(KindOf(line), line, DetailLines(between))] + Entries(rest)
  {
    var lines := [line] + between + rest;
    assert lines[0] == line && lines[1..] == between + rest;
    BetweenErrors(between, rest);
  }

  lemma {:induction false} BetweenErrors(between: seq<string>, rest: seq<string>)
    requires (forall l :: l in between ==> !IsErrorLine(l)) && (rest != [] ==> IsErrorLine(rest[0]))
    ensures DetailsOf(between + rest) == DetailLines(between) && Entries(between + rest) == Entries(rest)
  {
    if between == [] {
      assert between + rest == rest;
    } else {
      assert (between + rest)[1..] == between[1..] + rest && (between + rest)[0] == between[0];
      BetweenErrors(between[1..], rest);
    }
  }

  // ---------- the text of the output ----------

  /** Lines as the command prints them, each with its end. */
  function Printed(lines: seq<string>, end: string): string {
    if lines == [] then "" else lines[0] + end + Printed(lines[1..], end)
  }

  predicate Prints(line: string, end: string) {
    '\n' !in line && |line + end| <= MAX_LINE + 1 && (line != "" ==> line[|line| - 1] != '\r')
  }

  predicate IsLineEnd(end: string) {
    end == "\n" || end == "\r\n"
  }

  lemma NoLines(rest: string)
    requires rest == "" || IndexOf(rest, '\n') > MAX_LINE
    ensures Lines(rest) == []
  {
  }

  /** The scanner gives back the lines that were printed, with either kind of line end, up to the
      first one that is too long; what stands behind that plays no part. */
  lemma {:induction false} LinesPrinted(lines: seq<string>, end: string, rest: string)
    requires IsLineEnd(end) && forall line :: line in lines ==> Prints(line, end)
    requires rest == "" || IndexOf(rest, '\n') > MAX_LINE
    ensures Lines(Printed(lines, end) + rest) == lines
    decreases |lines|
  {
    if lines == [] {
      NoLines(rest);
      assert Printed(lines, end) + rest == rest;
    } else {
      var more := Printed(lines[1..], end) + rest;
      PrintedNext(lines, end, rest);
      FirstPrinted(lines[0], end, more);
      LinesPrinted(lines[1..], end, rest);
      assert [lines[0]] + lines[1..] == lines;
    }
  }

  lemma PrintedNext(lines: seq<string>, end: string, rest: string)
    requires lines != []
    ensures Printed(lines, end) + rest == lines[0] + end + (Printed(lines[1..], end) + rest)
  {
    Assoc(lines[0] + end, Printed(lines[1..], end), rest);
  }

  lemma OneLine(text: string, more: string)
    requires '\n' !in text && |text| <= MAX_LINE
    ensures Lines(text + "\n" + more) == [DropCR(text)] + Lines(more)
  {
    IndexOfAppend(text, '\n', more);
    LinesUnfold(text + "\n" + more, |text|, more);
  }

  lemma FirstPrinted(line: string, end: string, more: string)
    requires IsLineEnd(end) && Prints(line, end)
    ensures Lines(line + end + more) == [line] + Lines(more)
  {
    if end == "\n" {
      OneLine(line, more);
    } else {
      assert "\r\n" == "\r" + "\n";
      Assoc(line, "\r", "\n");
      OneLine(line + "\r", more);
      assert (line + "\r")[..|line|] == line;
    }
  }

  lemma {:induction false} SelectedClass(es: seq<Entry>, ignored: bool)
    ensures forall e :: e in Select(es, ignored) ==> e.Ignored() == ignored
  {
    if es == [] {
    } else {
      SelectedClass(es[..|es| - 1], ignored);
    }
  }

  lemma SelectNext(init: seq<Entry>, last: Entry, ignored: bool)
    ensures Select(init + [last], ignored) == Select(init, ignored) + if last.Ignored() == ignored then [last] else []
  {
    assert (init + [last])[..|init|] == init;
  }

  /** Whichever of two bags one more entry goes to, together they have one more. */
  lemma OneMore(a: multiset<Entry>, b: multiset<Entry>, last: Entry)
    ensures (a + multiset{last}) + b == (a + b) + multiset{last} == a + (b + multiset{last})
  {
  }

  lemma {:induction false} SelectedAll(es: seq<Entry>)
    ensures multiset(Select(es, true)) + multiset(Select(es, false)) == multiset(es)
  {
    if es == [] {
    } else {
      var init, last := es[..|es| - 1], es[|es| - 1];
      var yes, no := Select(init, true), Select(init, false);
      SelectedAll(init);
      assert es == init + [last];
      SelectNext(init, last, true);
      SelectNext(init, last, false);
      OneMore(multiset(yes), multiset(no), last);
      if last.Ignored() {
        assert Select(es, true) == yes + [last] && Select(es, false) == no + [] == no;
      } else {
        assert Select(es, true) == yes + [] == yes && Select(es, false) == no + [last];
      }
    }
  }

  /** Sorting the entries into two classes loses none of them, adds none and mixes none. */
  lemma SelectPartitions(es: seq<Entry>)
    ensures |Select(es, true)| + |Select(es, false)| == |es|
    ensures multiset(Select(es, true)) + multiset(Select(es, false)) == multiset(es)
    ensures forall e :: e in Select(es, true) ==> e.Ignored()
    ensures forall e :: e in Select(es, false) ==> !e.Ignored()
  {
    SelectedAll(es);
    SelectedClass(es, true);
    SelectedClass(es, false);
    assert |multiset(es)| == |es|;
    assert |multiset(Select(es, true)) + multiset(Select(es, false))| == |Select(es, true)| + |Select(es, false)|;
  }

  lemma ContainsIn(s: string, i: nat, sub: string, from: nat, to: nat)
    requires At(s, i, sub) && from <= i && i + |sub| <= to <= |s|
    ensures Contains(s[from..to], sub)
  {
    AtChars(s, i, sub);
    AtChars(s[from..to], i - from, sub);
  }

  /** A word without line breaks in the output stands in one of its lines. */
  lemma {:induction false} WordInLine(out: string, i: nat, word: string)
    requires AllLinesFit(out) && At(out, i, word) && word != ""
    requires '\n' !in word && '\r' !in word
    ensures exists line :: line in Lines(out) && Contains(line, word)
    decreases |out|
  {
    var k := IndexOf(out, '\n');
    FitsNext(out, k);
    OutsideBreak(out, i, word, k);
    if i + |word| <= k {
      WordInFirst(out, i, word, k);
      LinesNext(out, k, if k == |out| then "" else out[k + 1..]);
    } else {
      var rest := out[k + 1..];
      WordInLine(rest, i - k - 1, word);
      LinesNext(out, k, rest);
      var line :| line in Lines(rest) && Contains(line, word);
      assert line in Lines(out);
    }
  }

  lemma FitsNext(out: string, k: nat)
    requires AllLinesFit(out) && k == IndexOf(out, '\n')
    ensures k <= MAX_LINE && (k < |out| ==> AllLinesFit(out[k + 1..]))
  {
  }

  /** The first line and what the scanner makes of the rest. */
  lemma LinesUnfold(out: string, k: nat, rest: string)
    requires out != "" && k == IndexOf(out, '\n') && k <= MAX_LINE && rest == if k == |out| then "" else out[k + 1..]
    ensures Lines(out) == [DropCR(out[..k])] + Lines(rest)
  {
  }

  lemma InEither(first: string, rest: seq<string>, lines: seq<string>)
    requires lines == [first] + rest
    ensures first in lines && forall line :: line in rest ==> line in lines
  {
    assert lines[0] == first;
  }

  lemma LinesNext(out: string, k: nat, rest: string)
    requires out != "" && k == IndexOf(out, '\n') && k <= MAX_LINE && rest == if k == |out| then "" else out[k + 1..]
    ensures DropCR(out[..k]) in Lines(out) && forall line :: line in Lines(rest) ==> line in Lines(out)
  {
    LinesUnfold(out, k, rest);
    InEither(DropCR(out[..k]), Lines(rest), Lines(out));
  }

  /** A word without line breaks ends before one or starts behind it. */
  lemma OutsideBreak(out: string, i: nat, word: string, k: nat)
    requires At(out, i, word) && '\n' !in word && (k < |out| ==> out[k] == '\n') && k <= |out| && word != ""
    ensures i + |word| <= k || (k < i && k < |out| && At(out[k + 1..], i - k - 1, word))
  {
    AtChars(out, i, word);
    assert forall m :: i <= m < i + |word| ==> out[m] == word[m - i] && out[m] != '\n';
    if k < i {
      AtChars(out[k + 1..], i - k - 1, word);
    }
  }

  lemma WordInFirst(out: string, i: nat, word: string, k: nat)
    requires At(out, i, word) && '\r' !in word && word != "" && i + |word| <= k <= |out|
    ensures Contains(DropCR(out[..k]), word)
  {
    var to := |DropCR(out[..k])|;
    AtChars(out, i, word);
    assert out[i + |word| - 1] == word[|word| - 1] != '\r';
    assert DropCR(out[..k]) == out[0..to];
    ContainsIn(out, i, word, 0, to);
  }

  lemma {:induction false} EntryForErrorLine(lines: seq<string>)
    ensures Entries(lines) != [] <==> exists line :: line in lines && IsErrorLine(line)
  {
    if lines == [] {
    } else {
      EntryForErrorLine(lines[1..]);
      assert lines == [lines[0]] + lines[1..];
    }
  }

  /** When every line fits the scanner, the restore succeeds iff the command did and its output
      does not say ERROR. */
  lemma NilIffClean(out: string, execErr: Option<string>)
    requires AllLinesFit(out)
    ensures BuiltError(out, execErr) == Nil <==> execErr == None && !Contains(out, "ERROR")
  {
    if Contains(out, "ERROR") {
      var i: nat :| i <= |out| && At(out, i, "ERROR");
      WordInLine(out, i, "ERROR");
      EntryForErrorLine(Lines(out));
    }
  }

  /** An error line that was read goes before the command's own error, which counts only without one. */
  lemma ErrorLinesFirst(out: string, cause: string)
    ensures (exists line :: line in Lines(out) && IsErrorLine(line)) ==>
              BuiltError(out, Some(cause)) == Reported(out)
              && (Contains(out, "ERROR") ==> BuiltError(out, None) == Reported(out))
    ensures !(exists line :: line in Lines(out) && IsErrorLine(line)) ==>
              BuiltError(out, Some(cause)) == ExecError(cause) && BuiltError(out, None) == Nil
  {
    EntryForErrorLine(Lines(out));
  }

  /** In general an ERROR in the output is passed over exactly when the command itself did not
      fail and no line read before the first overlong one is an error line. */
  lemma ErrorPassedOver(out: string, execErr: Option<string>)
    requires Contains(out, "ERROR")
    ensures BuiltError(out, execErr) == Nil
            <==> execErr == None && forall line :: line in Lines(out) ==> !IsErrorLine(line)
    ensures BuiltError(out, execErr) == Nil ==> !AllLinesFit(out)
  {
    EntryForErrorLine(Lines(out));
    if AllLinesFit(out) {
      NilIffClean(out, execErr);
    }
  }

  /** And it does happen: one overlong line hides the error behind it. */
  lemma OverlongLineHidesError()
    ensures var out := seq(0x1_0000, i => 'x') + "\nERROR";
            Contains(out, "ERROR") && BuiltError(out, None) == Nil
  {
    var long := seq(0x1_0000, i => 'x');
    var out := long + "\nERROR";
    assert out[MAX_LINE + 2..MAX_LINE + 7] == "ERROR";
    assert At(out, MAX_LINE + 2, "ERROR");
    assert forall j :: 0 <= j <= MAX_LINE ==> out[j] == long[j] == 'x';
    assert IndexOf(out, '\n') > MAX_LINE;
    assert Lines(out) == [];
  }
}
