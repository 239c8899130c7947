/** Statements made of words with one space between them, and the two-word phrases in them. */
module Words {
  import opened Text
  import opened Regex

  predicate IsWordText(w: string) {
    w != "" && forall i :: 0 <= i < |w| ==> !IsSpace(w[i])
  }

  predicate AllWords(ws: seq<string>) {
    forall i :: 0 <= i < |ws| ==> IsWordText(ws[i])
  }

  /** Where word `k` starts in the statement. */
  function Offset(ws: seq<string>, k: nat): nat
    requires k <= |ws|
  {
    if k == 0 then 0 else |ws[0]| + 1 + Offset(ws[1..], k - 1)
  }

  function Sentence(ws: seq<string>): string {
    Join(ws, ' ')
  }

  function LowerAll(ws: seq<string>): (r: seq<string>)
    ensures |r| == |ws| && forall i :: 0 <= i < |ws| ==> r[i] == Lower(ws[i])
  {
    seq(|ws|, i requires 0 <= i < |ws| => Lower(ws[i]))
  }

  lemma {:induction false} LowerSentence(ws: seq<string>)
    ensures Lower(Sentence(ws)) == Sentence(LowerAll(ws))
  {
    if |ws| <= 1 {
    } else {
      LowerSentence(ws[1..]);
      assert LowerAll(ws)[1..] == LowerAll(ws[1..]);
    }
  }

  lemma SentenceTail(ws: seq<string>)
    requires |ws| > 1
    ensures |ws[0]| < |Sentence(ws)| && Sentence(ws)[|ws[0]| + 1..] == Sentence(ws[1..])
    ensures At(Sentence(ws), 0, ws[0]) && Sentence(ws)[|ws[0]|] == ' '
  {
    assert Sentence(ws) == ws[0] + [' '] + Sentence(ws[1..]);
  }

  /** What stands in a remainder stands in the whole. */
  lemma AtWhole(s: string, n: nat, i: nat, sub: string)
    requires n <= |s| && At(s[n..], i, sub)
    ensures At(s, n + i, sub)
  {
    assert s[n + i..n + i + |sub|] == s[n..][i..i + |sub|];
  }

  /** Word `k` stands at its offset, with a space behind it unless it is the last. */
  lemma {:induction false} WordAt(ws: seq<string>, k: nat)
    requires k < |ws|
    ensures var s, o := Sentence(ws), Offset(ws, k);
            At(s, o, ws[k])
            && (if k == |ws| - 1 then |s| == o + |ws[k]| else o + |ws[k]| < |s| && s[o + |ws[k]|] == ' ')
  {
    if |ws| <= 1 {
    } else {
      SentenceTail(ws);
      if k > 0 {
        WordAt(ws[1..], k - 1);
        AtWhole(Sentence(ws), |ws[0]| + 1, Offset(ws[1..], k - 1), ws[k]);
      }
    }
  }

  predicate StartsWith(w: string, p: string) {
    |p| <= |w| && w[..|p|] == p
  }

  predicate EndsWith(w: string, p: string) {
    |p| <= |w| && w[|w| - |p|..] == p
  }

  /** The phrase `p q` stands across words `k` and `k + 1`. */
  predicate Across(ws: seq<string>, k: nat, p: string, q: string) {
    k + 1 < |ws| && EndsWith(ws[k], p) && StartsWith(ws[k + 1], q)
  }

  /** Two neighbouring words are themselves a phrase. */
  lemma WholeWords(ws: seq<string>, k: nat, p: string, q: string)
    requires k + 1 < |ws| && ws[k] == p && ws[k + 1] == q
    ensures Across(ws, k, p, q)
  {
  }

  /** A space-free text at the start of a statement is a prefix of its first word. */
  lemma HeadWord(ws: seq<string>, q: string)
    requires ws != [] && IsWordText(q) && At(Sentence(ws), 0, q)
    ensures StartsWith(ws[0], q)
  {
    WordAt(ws, 0);
    AtChars(Sentence(ws), 0, ws[0]);
    AtChars(Sentence(ws), 0, q);
  }

  /** Where a statement is known to continue with `sub`, so is its remainder. */
  lemma AtRest(s: string, n: nat, i: nat, sub: string)
    requires n <= i && At(s, i, sub)
    ensures At(s[n..], i - n, sub)
  {
    assert s[n..][i - n..i - n + |sub|] == s[i..i + |sub|];
  }

  lemma AtParts(s: string, i: nat, p: string, q: string)
    ensures At(s, i, p + " " + q) <==> i + |p| < |s| && At(s, i, p) && s[i + |p|] == ' ' && At(s, i + |p| + 1, q)
  {
    var phrase := p + " " + q;
    AtChars(s, i, phrase);
    AtChars(s, i, p);
    AtChars(s, i + |p| + 1, q);
    assert phrase[|p|] == ' ';
  }

  /** A phrase in a text with a first word `w` starts at its end, or lies behind it. */
  lemma PhraseSplit(s: string, w: string, i: nat, p: string, q: string)
    requires IsWordText(w) && IsWordText(p) && IsWordText(q)
    requires At(s, 0, w) && (|w| < |s| ==> s[|w|] == ' ') && At(s, i, p + " " + q)
    ensures |w| < |s|
    ensures i + |p| == |w| ==> EndsWith(w, p) && At(s[|w| + 1..], 0, q)
    ensures i + |p| != |w| ==> |w| < i && At(s[|w| + 1..], i - |w| - 1, p + " " + q)
  {
    AtParts(s, i, p, q);
    InWord(s, w, i + |p|);
    if i + |p| == |w| {
      assert w[i..] == s[i..|w|] == p;
      AtRest(s, |w| + 1, |w| + 1, q);
    } else {
      InPhrase(s, i, p, |w|);
      AtRest(s, |w| + 1, i, p + " " + q);
    }
  }

  /** A two-word phrase in a statement lies across two neighbouring words. */
  lemma {:induction false} PhraseAt(ws: seq<string>, i: nat, p: string, q: string) returns (k: nat)
    requires AllWords(ws) && ws != [] && IsWordText(p) && IsWordText(q)
    requires At(Sentence(ws), i, p + " " + q)
    ensures Across(ws, k, p, q) && i + |p| == Offset(ws, k) + |ws[k]|
  {
    WordAt(ws, 0);
    PhraseSplit(Sentence(ws), ws[0], i, p, q);
    SentenceTail(ws);
    if i + |p| == |ws[0]| {
      k := 0;
      HeadWord(ws[1..], q);
    } else {
      var m := PhraseAt(ws[1..], i - |ws[0]| - 1, p, q);
      k := m + 1;
    }
  }

  /** A space lies behind the first word or further on. */
  lemma InWord(s: string, w: string, i: nat)
    requires At(s, 0, w) && IsWordText(w) && i < |s| && s[i] == ' '
    ensures |w| <= i
  {
    AtChars(s, 0, w);
  }

  /** A word that reaches behind the space at `n` starts behind it. */
  lemma InPhrase(s: string, i: nat, p: string, n: nat)
    requires At(s, i, p) && IsWordText(p) && n < |s| && s[n] == ' ' && n < i + |p|
    ensures n < i
  {
    AtChars(s, i, p);
  }

  lemma SuffixAt(s: string, o: nat, w: string, p: string)
    requires At(s, o, w) && EndsWith(w, p)
    ensures At(s, o + |w| - |p|, p)
  {
    assert s[o + |w| - |p|..o + |w|] == s[o..o + |w|][|w| - |p|..];
  }

  lemma PrefixAt(s: string, o: nat, w: string, p: string)
    requires At(s, o, w) && StartsWith(w, p)
    ensures At(s, o, p)
  {
    assert s[o..o + |p|] == s[o..o + |w|][..|p|];
  }

  /** The end of one word, a space and the start of the next make a phrase. */
  lemma AcrossText(s: string, o: nat, w: string, v: string, p: string, q: string)
    requires At(s, o, w) && o + |w| < |s| && s[o + |w|] == ' ' && At(s, o + |w| + 1, v)
    requires EndsWith(w, p) && StartsWith(v, q)
    ensures At(s, o + |w| - |p|, p + " " + q)
  {
    SuffixAt(s, o, w, p);
    PrefixAt(s, o + |w| + 1, v, q);
    AtParts(s, o + |w| - |p|, p, q);
  }

  /** Two neighbouring words stand with a space between them. */
  lemma TwoWords(ws: seq<string>, k: nat)
    requires k + 1 < |ws|
    ensures var s, o := Sentence(ws), Offset(ws, k) + |ws[k]|;
            At(s, Offset(ws, k), ws[k]) && o < |s| && s[o] == ' ' && At(s, o + 1, ws[k + 1])
  {
    NextOffset(ws, k);
    WordAt(ws, k);
    WordAt(ws, k + 1);
  }

  /** A phrase across two words stands in the statement. */
  lemma AcrossAt(ws: seq<string>, k: nat, p: string, q: string) returns (i: nat)
    requires Across(ws, k, p, q)
    ensures At(Sentence(ws), i, p + " " + q)
  {
    var o := Offset(ws, k);
    TwoWords(ws, k);
    AcrossText(Sentence(ws), o, ws[k], ws[k + 1], p, q);
    i := o + |ws[k]| - |p|;
  }

  /** Which phrases a statement contains. */
  lemma PhraseIn(ws: seq<string>, p: string, q: string)
    requires AllWords(ws) && ws != [] && IsWordText(p) && IsWordText(q)
    ensures Contains(Sentence(ws), p + " " + q) <==> exists k: nat :: Across(ws, k, p, q)
  {
    var s := Sentence(ws);
    if Contains(s, p + " " + q) {
      var i: nat :| i <= |s| && At(s, i, p + " " + q);
      var k := PhraseAt(ws, i, p, q);
    }
    if k: nat :| Across(ws, k, p, q) {
      var i := AcrossAt(ws, k, p, q);
    }
  }

  lemma {:induction false} NextOffset(ws: seq<string>, k: nat)
    requires k < |ws|
    ensures Offset(ws, k + 1) == Offset(ws, k) + |ws[k]| + 1
  {
    if k == 0 {
    } else {
      NextOffset(ws[1..], k - 1);
    }
  }

  /** White space stands alone: every run of it is one space. */
  lemma {:induction false} SingleSpaces(ws: seq<string>, i: nat)
    requires AllWords(ws) && i < |Sentence(ws)| && IsSpace(Sentence(ws)[i])
    ensures Sentence(ws)[i] == ' ' && 0 < i && i + 1 < |Sentence(ws)|
    ensures !IsSpace(Sentence(ws)[i + 1])
  {
    if |ws| <= 1 {
    } else {
      var n, rest := |ws[0]|, Sentence(ws[1..]);
      var s := ws[0] + [' '] + rest;
      assert Sentence(ws) == s;
      if i > n {
        assert s[i] == rest[i - n - 1];
        SingleSpaces(ws[1..], i - n - 1);
        assert s[i + 1] == rest[i - n];
      } else if i == n {
        WordAt(ws[1..], 0);
        assert s[i + 1] == rest[0] == rest[0..|ws[1]|][0] == ws[1][0];
      }
    }
  }
}
