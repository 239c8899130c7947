/** What becomes of `RENAME COLUMN` when the two keywords are not one space apart. The pattern for it
    takes any white space there, but the switch looks for the phrase with exactly one space. */
module RenameGaps {
  import opened Text
  import opened Regex
  import opened Words
  import opened SchemaDiff
  import opened Patterns
  import opened RenameColumn

  predicate IsGap(gap: string) {
    gap != "" && forall i :: 0 <= i < |gap| ==> IsSpace(gap[i])
  }

  function Front(t: string): seq<string> {
    ["ALTER", "TABLE", t, "RENAME"]
  }

  function Back(oldName: string, newName: string): seq<string> {
    ["COLUMN", oldName, "TO", newName]
  }

  /** The statement with any white space between RENAME and COLUMN. */
  function GapStatement(t: string, gap: string, oldName: string, newName: string): string {
    Sentence(Front(t)) + gap + Sentence(Back(oldName, newName))
  }

  lemma {:induction false} SentenceAppend(a: seq<string>, b: seq<string>)
    requires a != [] && b != []
    ensures Sentence(a + b) == Sentence(a) + " " + Sentence(b)
  {
    if |a| == 1 {
      assert (a + b)[1..] == b;
    } else {
      assert (a + b)[1..] == a[1..] + b;
      SentenceAppend(a[1..], b);
      var head := a[0] + " ";
      Assoc(head, Sentence(a[1..]), " ");
      Assoc(head, Sentence(a[1..]) + " ", Sentence(b));
    }
  }

  /** Where no white space is, a word lies on one side. */
  lemma WordBeside(s: string, i: nat, w: string, at: nat)
    requires At(s, i, w) && IsWordText(w) && at < |s| && IsSpace(s[at])
    ensures at < i || i + |w| <= at
  {
    AtChars(s, i, w);
  }

  /** One space with a word on each side is a gap of its own. */
  lemma GapIsSpace(s: string, x: nat, from: nat, to: nat)
    requires 0 < x && x + 1 < |s| && !IsSpace(s[x - 1]) && !IsSpace(s[x + 1])
    requires from < to <= |s| && forall k :: from <= k < to ==> IsSpace(s[k])
    ensures from <= x < to ==> from == x && to == x + 1
  {
  }

  /** A phrase in a text with a gap that is not one space lies in front of the gap or behind it. */
  lemma PhraseBeside(s: string, from: nat, to: nat, i: nat, p: string, q: string)
    requires from < to <= |s| && (forall k :: from <= k < to ==> IsSpace(s[k])) && s[from..to] != " "
    requires IsWordText(p) && IsWordText(q) && At(s, i, p + " " + q)
    ensures i + |p| + 1 + |q| <= from || to <= i
  {
    var x := i + |p|;
    AtParts(s, i, p, q);
    AtChars(s, i, p);
    AtChars(s, x + 1, q);
    assert !IsSpace(s[x - 1]) && !IsSpace(s[x + 1]) && s[x..x + 1] == " ";
    GapIsSpace(s, x, from, to);
    if x < from {
      WordBeside(s, x + 1, q, from);
    } else {
      WordBeside(s, i, p, to - 1);
    }
  }

  lemma PhraseInFront(a: string, gap: string, b: string, i: nat, phrase: string)
    requires At(a + gap + b, i, phrase) && i + |phrase| <= |a|
    ensures At(a, i, phrase)
  {
    assert (a + gap + b)[i..i + |phrase|] == a[i..i + |phrase|];
  }

  lemma PhraseBehind(a: string, gap: string, b: string, i: nat, phrase: string)
    requires At(a + gap + b, i, phrase) && |a| + |gap| <= i
    ensures At(b, i - |a| - |gap|, phrase)
  {
    var n := |a| + |gap|;
    assert (a + gap + b)[i..i + |phrase|] == b[i - n..i - n + |phrase|];
  }

  /** Neither part of the statement says RENAME COLUMN. */
  lemma NoPhraseInParts(t: string, oldName: string, newName: string)
    requires PlainName(t) && PlainName(oldName) && PlainName(newName)
    ensures !Says(Front(t), "rename", "column") && !Says(Back(oldName, newName), "rename", "column")
  {
    LowKeywords();
    assert LowerAll(Front(t)) == ["alter", "table", Lower(t), "rename"];
    NoneAcross(["alter", "table", Lower(t), "rename"], "rename", "column");
    assert LowerAll(Back(oldName, newName)) == ["column", Lower(oldName), "to", Lower(newName)];
    NoneAcross(["column", Lower(oldName), "to", Lower(newName)], "rename", "column");
  }

  lemma LowKeywords()
    ensures Lower("ALTER") == "alter" && Lower("TABLE") == "table" && Lower("RENAME") == "rename"
    ensures Lower("COLUMN") == "column" && Lower("TO") == "to"
  {
  }

  lemma PartWords(t: string, oldName: string, newName: string)
    requires PlainName(t) && PlainName(oldName) && PlainName(newName)
    ensures AllWords(Front(t)) && AllWords(Back(oldName, newName))
  {
  }

  lemma LowerParts(a: string, gap: string, b: string)
    requires IsGap(gap)
    ensures Lower(a + gap + b) == Lower(a) + gap + Lower(b)
  {
  }

  /** With another gap the phrase does not occur. */
  lemma GapHidesPhrase(t: string, gap: string, oldName: string, newName: string)
    requires PlainName(t) && PlainName(oldName) && PlainName(newName) && IsGap(gap) && gap != " "
    ensures !Contains(Lower(GapStatement(t, gap, oldName, newName)), "rename column")
  {
    var a, b := Lower(Sentence(Front(t))), Lower(Sentence(Back(oldName, newName)));
    LowerParts(Sentence(Front(t)), gap, Sentence(Back(oldName, newName)));
    NoPhraseInParts(t, oldName, newName);
    PartWords(t, oldName, newName);
    SwitchPhrases(Front(t));
    SwitchPhrases(Back(oldName, newName));
    if i: nat :| i <= |a + gap + b| && At(a + gap + b, i, "rename column") {
      InOnePart(a, gap, b, i);
    }
  }

  lemma InOnePart(a: string, gap: string, b: string, i: nat)
    requires IsGap(gap) && gap != " " && At(a + gap + b, i, "rename column")
    ensures Contains(a, "rename column") || Contains(b, "rename column")
  {
    var s, phrase := a + gap + b, "rename column";
    assert phrase == "rename" + " " + "column";
    assert s[|a|..|a| + |gap|] == gap;
    assert forall k :: |a| <= k < |a| + |gap| ==> s[k] == gap[k - |a|];
    PhraseBeside(s, |a|, |a| + |gap|, i, "rename", "column");
    if i + |phrase| <= |a| {
      PhraseInFront(a, gap, b, i, phrase);
    } else {
      PhraseBehind(a, gap, b, i, phrase);
    }
  }

  lemma OneSpace(t: string, oldName: string, newName: string)
    ensures GapStatement(t, " ", oldName, newName) == Sentence(Statement(t, oldName, newName))
  {
    SentenceAppend(Front(t), Back(oldName, newName));
    assert Front(t) + Back(oldName, newName) == Statement(t, oldName, newName);
  }

  /** The change that records the rename. */
  function RenameOf(o: Object, col: Column, oldName: string, newName: string): ColumnDiff {
    ColumnDiff(newName, ColumnID(col, o.pgstreamID), Some(ValueChange(oldName, newName)), None)
  }

  lemma OnlyByPhrase(ddl: string, o: Object, c: ColumnDiff)
    requires !Contains(Lower(ddl), "rename column") && c.nameChange.Some?
    ensures c !in DiffOfObject(ddl, o).columnsChanged
  {
  }

  /** The rename is recorded exactly if the two keywords are one space apart and the old name does not
      end in "rename". */
  lemma GapDiff(e: Event, o: Object, col: Column, t: string, gap: string, oldName: string, newName: string)
    requires PlainName(t) && PlainName(oldName) && PlainName(newName) && IsGap(gap)
    requires e.ddl == GapStatement(t, gap, oldName, newName) && Altered(e) == [o]
    requires ColumnByName(o.columns, newName) == Some(col)
    ensures (exists d :: d in DiffsOfObjects(e.ddl, Altered(e))
                         && RenameOf(o, col, oldName, newName) in d.columnsChanged)
            <==> gap == " " && !EndsWith(Lower(oldName), "rename")
  {
    if gap == " " {
      OneSpace(t, oldName, newName);
      RenameDiff(e, o, col, t, oldName, newName);
      if !EndsWith(Lower(oldName), "rename") {
        assert Renamed(o, col, oldName, newName) in DiffsOfObjects(e.ddl, Altered(e));
      }
    } else {
      GapHidesPhrase(t, gap, oldName, newName);
      OnlyByPhrase(e.ddl, o, RenameOf(o, col, oldName, newName));
      assert [o][..0] == [];
    }
  }
}
