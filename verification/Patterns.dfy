/** How the patterns of the DDL extractors meet a statement made of words: keywords, names and
    the first place where a phrase stands. */
module Patterns {
  import opened Text
  import opened Regex
  import opened Words
  import opened SchemaDiff

  /** An unquoted name: ASCII, without white space or quotes. */
  predicate PlainName(w: string) {
    IsWordText(w) && forall i :: 0 <= i < |w| ==> w[i] < '\U{0080}' && w[i] != '"'
  }

  /** A word that stands alone, from `o` to `e`. */
  predicate WordSpan(s: string, o: nat, e: nat) {
    o < e <= |s| && (forall k :: o <= k < e ==> !IsSpace(s[k])) && (e < |s| ==> IsSpace(s[e]))
  }

  lemma PrefersName(quoted: nat, plain: nat, s: string, o: nat, e: nat)
    requires WordSpan(s, o, e) && s[o] != '"'
    ensures Prefers(NameRe(quoted, plain), s, o, NameFound(o, s[o..e], plain))
  {
    var quotedRe := Then(Lit("\""), Then(Group(quoted, Plus(NotQuote)), Lit("\"")));
    assert Lower(s)[o] == LowerChar(s[o]) != '"';
    assert Matches(Lit("\""), s, o) == [] && Matches(quotedRe, s, o) == [] by {
      AtChars(Lower(s), o, "\"");
    }
    PrefersGroupedPlus(plain, NonSpace, s, o, e);
    PrefersRight(quotedRe, Group(plain, Plus(NonSpace)), s, o, NameFound(o, s[o..e], plain));
  }

  /** A first part without groups only moves on. */
  lemma PrefersThenPlain(a: Re, b: Re, s: string, i: nat, m: nat, g: Found)
    requires Prefers(a, s, i, Moved(m)) && Prefers(b, s, m, g)
    ensures Prefers(Then(a, b), s, i, g)
  {
    PrefersThen(a, b, s, i, Moved(m), g);
    assert map[] + g.groups == g.groups;
  }

  /** A space that stands alone. */
  predicate Gap(s: string, i: nat) {
    i + 1 < |s| && IsSpace(s[i]) && !IsSpace(s[i + 1])
  }

  /** A whole run of a class, and from its end on the rest. */
  lemma PrefersRunThen(cls: Class, rest: Re, s: string, i: nat, next: nat, g: Found)
    requires i < next <= |s| && (forall k :: i <= k < next ==> cls.Has(s[k])) && (next < |s| ==> !cls.Has(s[next]))
    requires Prefers(rest, s, next, g)
    ensures Prefers(Then(Plus(cls), rest), s, i, g)
  {
    PrefersPlus(cls, s, i, next);
    PrefersThenPlain(Plus(cls), rest, s, i, next, g);
  }

  lemma PrefersGap(rest: Re, s: string, i: nat, next: nat, g: Found)
    requires Gap(s, i) && next == i + 1 && Prefers(rest, s, next, g)
    ensures Prefers(Then(Plus(Space), rest), s, i, g)
  {
    PrefersRunThen(Space, rest, s, i, next, g);
  }

  /** A literal, and from its end at `m` on the rest. */
  lemma PrefersLitThen(word: string, tail: Re, s: string, o: nat, m: nat, g: Found)
    requires At(Lower(s), o, word) && m == o + |word| && Prefers(tail, s, m, g)
    ensures Prefers(Then(Lit(word), tail), s, o, g)
  {
    PrefersLit(word, s, o);
    PrefersThenPlain(Lit(word), tail, s, o, m, g);
  }

  /** A keyword that ends at `m`, and from the next word at `next` on the rest. */
  lemma PrefersKeyword(word: string, rest: Re, s: string, o: nat, m: nat, next: nat, g: Found)
    requires At(Lower(s), o, word) && m == o + |word| && Gap(s, m) && next == m + 1 && Prefers(rest, s, next, g)
    ensures Prefers(KeywordRe(word, rest), s, o, g)
  {
    PrefersGap(rest, s, m, next, g);
    PrefersLitThen(word, Then(Plus(Space), rest), s, o, m, g);
  }

  lemma ThenSpan(a: Re, b: Re, s: string, i: nat, e: nat) returns (m: nat)
    requires i <= |s| && Spans(Then(a, b), s, i, e)
    ensures m <= |s| && Spans(a, s, i, m) && Spans(b, s, m, e)
  {
    m :| m <= |s| && Spans(a, s, i, m) && Spans(b, s, m, e);
  }

  /** Every white space of the text is one space between two other characters. */
  ghost predicate SingleSpaced(s: string) {
    forall i :: 0 <= i < |s| && IsSpace(s[i]) ==> s[i] == ' ' && i + 1 < |s| && !IsSpace(s[i + 1])
  }

  lemma GapSpan(s: string, i: nat, m: nat)
    requires SingleSpaced(s) && i <= |s| && Spans(Plus(Space), s, i, m)
    ensures m == i + 1 && Gap(s, i) && s[i] == ' '
  {
    assert IsSpace(s[i]) && !IsSpace(s[i + 1]);
    assert forall k :: i <= k < m ==> IsSpace(s[k]);
  }

  lemma KeywordSpan(word: string, rest: Re, s: string, i: nat, e: nat)
    requires SingleSpaced(s) && i <= |s| && Spans(KeywordRe(word, rest), s, i, e)
    ensures At(Lower(s), i, word) && Gap(s, i + |word|) && s[i + |word|] == ' '
    ensures Spans(rest, s, i + |word| + 1, e)
  {
    var m := ThenSpan(Lit(word), Then(Plus(Space), rest), s, i, e);
    var n := ThenSpan(Plus(Space), rest, s, m, e);
    GapSpan(s, m, n);
  }

  /** A pattern that starts with two keywords only matches where they stand as a phrase. */
  lemma TwoKeywords(p: string, q: string, rest: Re, s: string, i: nat, e: nat)
    requires SingleSpaced(s) && i <= |s| && Spans(KeywordRe(p, KeywordRe(q, rest)), s, i, e)
    ensures At(Lower(s), i, p + " " + q) && Gap(s, i + |p| + 1 + |q|)
    ensures Spans(rest, s, i + |p| + |q| + 2, e)
  {
    KeywordSpan(p, KeywordRe(q, rest), s, i, e);
    KeywordSpan(q, rest, s, i + |p| + 1, e);
    assert Lower(s)[i + |p|] == ' ';
    AtParts(Lower(s), i, p, q);
  }

  /** An optional part is taken where it matches, and skipped where it does not. */
  lemma PrefersOpt(a: Re, s: string, i: nat, f: Found)
    requires Prefers(a, s, i, f)
    ensures Prefers(Opt(a), s, i, f)
  {
  }

  lemma PrefersSkip(a: Re, b: Re, s: string, i: nat, g: Found)
    requires i <= |s| && Matches(a, s, i) == [] && Prefers(b, s, i, g)
    ensures Prefers(Then(Opt(a), b), s, i, g)
  {
    assert Matches(Opt(a), s, i) == [Moved(i)];
    PrefersThenPlain(Opt(a), b, s, i, i, g);
  }

  // ---------- words of a statement ----------

  /** The word `w` stands alone at `o`; behind it the text ends or one space follows. */
  ghost predicate StandsAlone(s: string, o: nat, w: string, last: bool) {
    WordSpan(s, o, o + |w|) && s[o..o + |w|] == w && (if last then |s| == o + |w| else Gap(s, o + |w|))
  }

  lemma WordStands(ws: seq<string>, k: nat)
    requires AllWords(ws) && k < |ws|
    ensures StandsAlone(Sentence(ws), Offset(ws, k), ws[k], k == |ws| - 1)
  {
    var s, o := Sentence(ws), Offset(ws, k);
    WordAt(ws, k);
    TextStands(s, o, ws[k]);
    if k + 1 < |ws| {
      SingleSpaces(ws, o + |ws[k]|);
    }
  }

  lemma TextStands(s: string, o: nat, w: string)
    requires At(s, o, w) && IsWordText(w) && (o + |w| < |s| ==> IsSpace(s[o + |w|]))
    ensures WordSpan(s, o, o + |w|)
  {
    AtChars(s, o, w);
  }

  lemma LowerAt(s: string, o: nat, w: string, last: bool)
    requires StandsAlone(s, o, w, last)
    ensures At(Lower(s), o, Lower(w))
  {
    AtChars(s, o, w);
    AtChars(Lower(s), o, Lower(w));
  }

  lemma {:induction false} NoQuotes(ws: seq<string>)
    requires forall w :: w in ws ==> '"' !in w
    ensures '"' !in Sentence(ws)
  {
    if |ws| <= 1 {
    } else {
      NoQuotes(ws[1..]);
    }
  }

  lemma SentenceSpaced(ws: seq<string>)
    requires AllWords(ws)
    ensures SingleSpaced(Sentence(ws))
  {
    var s := Sentence(ws);
    forall i | 0 <= i < |s| && IsSpace(s[i]) ensures s[i] == ' ' && i + 1 < |s| && !IsSpace(s[i + 1]) {
      SingleSpaces(ws, i);
    }
  }

  /** Behind word `k` a pattern goes on with the next word. */
  lemma GapAt(ws: seq<string>, k: nat, rest: Re, g: Found)
    requires AllWords(ws) && k + 1 < |ws| && Prefers(rest, Sentence(ws), Offset(ws, k + 1), g)
    ensures Prefers(Then(Plus(Space), rest), Sentence(ws), Offset(ws, k) + |ws[k]|, g)
  {
    var s, o := Sentence(ws), Offset(ws, k) + |ws[k]|;
    assert Gap(s, o) by {
      WordStands(ws, k);
    }
    NextOffset(ws, k);
    PrefersGap(rest, s, o, Offset(ws, k + 1), g);
  }

  lemma KeywordAt(ws: seq<string>, k: nat, word: string, rest: Re, g: Found)
    requires AllWords(ws) && k + 1 < |ws| && Lower(ws[k]) == word
    requires Prefers(rest, Sentence(ws), Offset(ws, k + 1), g)
    ensures Prefers(KeywordRe(word, rest), Sentence(ws), Offset(ws, k), g)
  {
    var s, o := Sentence(ws), Offset(ws, k);
    assert At(Lower(s), o, word) && Gap(s, o + |word|) by {
      WordStands(ws, k);
      LowerAt(s, o, ws[k], false);
    }
    NextOffset(ws, k);
    PrefersKeyword(word, rest, s, o, o + |word|, Offset(ws, k + 1), g);
  }

  /** The word at a position is determined by where the space behind it stands. */
  lemma SameWord(s: string, o: nat, w: string, last: bool, word: string)
    requires StandsAlone(s, o, w, last) && IsWordText(word) && At(Lower(s), o, word)
    requires o + |word| < |s| && s[o + |word|] == ' '
    ensures Lower(w) == word
  {
    LowerAt(s, o, w, last);
    AtChars(Lower(s), o, word);
    assert o + |w| < |s| ==> Lower(s)[o + |w|] == LowerChar(s[o + |w|]);
  }

  /** A keyword matches at a word only if that is the keyword and another word follows. */
  lemma KeywordSpanAt(ws: seq<string>, k: nat, word: string, rest: Re, e: nat)
    requires AllWords(ws) && k < |ws| && IsWordText(word)
    requires Offset(ws, k) <= |Sentence(ws)| && Spans(KeywordRe(word, rest), Sentence(ws), Offset(ws, k), e)
    ensures k + 1 < |ws| && Lower(ws[k]) == word
    ensures Offset(ws, k + 1) <= |Sentence(ws)| && Spans(rest, Sentence(ws), Offset(ws, k + 1), e)
  {
    var s, o := Sentence(ws), Offset(ws, k);
    SentenceSpaced(ws);
    WordStands(ws, k);
    KeywordSpan(word, rest, s, o, e);
    SameWord(s, o, ws[k], k == |ws| - 1, word);
    NextOffset(ws, k);
  }

  lemma LastKeywordSpanAt(ws: seq<string>, k: nat, word: string, e: nat)
    requires AllWords(ws) && k < |ws| && IsWordText(word)
    requires Offset(ws, k) <= |Sentence(ws)| && Spans(Then(Lit(word), Plus(Space)), Sentence(ws), Offset(ws, k), e)
    ensures k + 1 < |ws| && Lower(ws[k]) == word
  {
    var s, o := Sentence(ws), Offset(ws, k);
    SentenceSpaced(ws);
    WordStands(ws, k);
    var m := ThenSpan(Lit(word), Plus(Space), s, o, e);
    GapSpan(s, m, e);
    SameWord(s, o, ws[k], k == |ws| - 1, word);
  }

  /** The last keyword of an optional clause takes the space behind it as well. */
  lemma LastKeywordAt(ws: seq<string>, k: nat, word: string)
    requires AllWords(ws) && k + 1 < |ws| && Lower(ws[k]) == word
    ensures Prefers(Then(Lit(word), Plus(Space)), Sentence(ws), Offset(ws, k), Moved(Offset(ws, k + 1)))
  {
    var s, o := Sentence(ws), Offset(ws, k);
    assert At(Lower(s), o, word) && Gap(s, o + |word|) by {
      WordStands(ws, k);
      LowerAt(s, o, ws[k], false);
    }
    NextOffset(ws, k);
    KeywordAndSpace(s, o, word);
  }

  lemma KeywordAndSpace(s: string, o: nat, word: string)
    requires At(Lower(s), o, word) && Gap(s, o + |word|)
    ensures Prefers(Then(Lit(word), Plus(Space)), s, o, Moved(o + |word| + 1))
  {
    PrefersLit(word, s, o);
    PrefersPlus(Space, s, o + |word|, o + |word| + 1);
    PrefersThenPlain(Lit(word), Plus(Space), s, o, o + |word|, Moved(o + |word| + 1));
  }

  lemma NameStands(s: string, o: nat, w: string, last: bool, quoted: nat, plain: nat)
    requires StandsAlone(s, o, w, last) && w[0] != '"'
    ensures Prefers(NameRe(quoted, plain), s, o, NameFound(o, w, plain))
  {
    assert s[o] == s[o..o + |w|][0];
    PrefersName(quoted, plain, s, o, o + |w|);
  }

  /** A name pattern takes the whole word, unless that starts with a quote. */
  lemma NameAt(ws: seq<string>, k: nat, quoted: nat, plain: nat)
    requires AllWords(ws) && k < |ws| && ws[k][0] != '"'
    ensures Prefers(NameRe(quoted, plain), Sentence(ws), Offset(ws, k), NameFound(Offset(ws, k), ws[k], plain))
  {
    WordStands(ws, k);
    NameStands(Sentence(ws), Offset(ws, k), ws[k], k == |ws| - 1, quoted, plain);
  }

  lemma {:induction false} LowerOffset(ws: seq<string>, k: nat)
    requires k <= |ws|
    ensures Offset(LowerAll(ws), k) == Offset(ws, k)
  {
    if k == 0 {
    } else {
      LowerOffset(ws[1..], k - 1);
      assert LowerAll(ws)[1..] == LowerAll(ws[1..]);
    }
  }

  lemma {:induction false} OffsetGrows(ws: seq<string>, j: nat, k: nat)
    requires j < k <= |ws|
    ensures Offset(ws, j) + |ws[j]| < Offset(ws, k)
    decreases k
  {
    NextOffset(ws, k - 1);
    if j == k - 1 {
    } else {
      OffsetGrows(ws, j, k - 1);
    }
  }

  lemma LowerWords(ws: seq<string>)
    requires AllWords(ws)
    ensures AllWords(LowerAll(ws))
  {
  }

  /** A phrase stands in the text of a statement only across two neighbouring words. */
  lemma PhrasePlace(ws: seq<string>, j: nat, p: string, q: string) returns (k: nat)
    requires AllWords(ws) && ws != [] && IsWordText(p) && IsWordText(q)
    requires At(Lower(Sentence(ws)), j, p + " " + q)
    ensures Across(LowerAll(ws), k, p, q) && |p| <= |ws[k]| && j + |p| == Offset(ws, k) + |ws[k]|
  {
    LowerSentence(ws);
    LowerWords(ws);
    k := PhraseAt(LowerAll(ws), j, p, q);
    LowerOffset(ws, k);
  }

  /** A pattern that starts with a phrase is found where that first stands across two words. */
  lemma FindPhrase(ws: seq<string>, k: nat, p: string, q: string, rest: Re, g: Found)
    requires AllWords(ws) && k + 2 < |ws| && Lower(ws[k]) == p && Lower(ws[k + 1]) == q
    requires forall j: nat :: j < k ==> !Across(LowerAll(ws), j, p, q)
    requires Prefers(rest, Sentence(ws), Offset(ws, k + 2), g)
    ensures Find(KeywordRe(p, KeywordRe(q, rest)), Sentence(ws), 0) == Some(g)
  {
    var re, s, o := KeywordRe(p, KeywordRe(q, rest)), Sentence(ws), Offset(ws, k);
    assert Prefers(re, s, o, g) by {
      KeywordAt(ws, k + 1, q, rest, g);
      KeywordAt(ws, k, p, KeywordRe(q, rest), g);
    }
    assert o <= |s| by {
      WordAt(ws, k);
    }
    NothingBefore(ws, k, p, q, rest);
    FindAt(re, s, 0, o, g);
  }

  lemma NothingBefore(ws: seq<string>, k: nat, p: string, q: string, rest: Re)
    requires AllWords(ws) && k + 1 < |ws| && Lower(ws[k]) == p && Lower(ws[k + 1]) == q
    requires (forall j: nat :: j < k ==> !Across(LowerAll(ws), j, p, q)) && Offset(ws, k) <= |Sentence(ws)|
    ensures forall j: nat :: j < Offset(ws, k) ==> Matches(KeywordRe(p, KeywordRe(q, rest)), Sentence(ws), j) == []
  {
    forall j: nat | j < Offset(ws, k) ensures Matches(KeywordRe(p, KeywordRe(q, rest)), Sentence(ws), j) == [] {
      SentenceSpaced(ws);
      NotBefore(ws, k, p, q, j);
      NoPhraseNoMatch(Sentence(ws), j, p, q, rest);
    }
  }

  /** Such a pattern matches nothing where the phrase does not stand. */
  lemma NoPhraseNoMatch(s: string, j: nat, p: string, q: string, rest: Re)
    requires SingleSpaced(s) && j <= |s| && !At(Lower(s), j, p + " " + q)
    ensures Matches(KeywordRe(p, KeywordRe(q, rest)), s, j) == []
  {
    var re := KeywordRe(p, KeywordRe(q, rest));
    forall e: nat ensures !Spans(re, s, j, e) {
      if Spans(re, s, j, e) {
        TwoKeywords(p, q, rest, s, j, e);
      }
    }
    NoSpanNoMatch(re, s, j);
  }

  lemma NotBefore(ws: seq<string>, k: nat, p: string, q: string, j: nat)
    requires AllWords(ws) && k < |ws| && IsWordText(p) && IsWordText(q) && Lower(ws[k]) == p
    requires forall i: nat :: i < k ==> !Across(LowerAll(ws), i, p, q)
    requires j < Offset(ws, k)
    ensures !At(Lower(Sentence(ws)), j, p + " " + q)
  {
    if At(Lower(Sentence(ws)), j, p + " " + q) {
      var m := PhrasePlace(ws, j, p, q);
      if k < m {
        OffsetGrows(ws, k, m);
      }
    }
  }

  /** Ends, starts and lengths decide most phrases. */
  lemma AcrossEnds(ws: seq<string>, k: nat, p: string, q: string)
    requires Across(ws, k, p, q) && p != "" && q != ""
    ensures |p| <= |ws[k]| && |q| <= |ws[k + 1]|
    ensures ws[k][|ws[k]| - 1] == p[|p| - 1] && ws[k + 1][0] == q[0]
  {
    assert ws[k][|ws[k]| - 1] == ws[k][|ws[k]| - |p|..][|p| - 1];
    assert ws[k + 1][0] == ws[k + 1][..|q|][0];
  }

  /** By length, last and first characters the phrase does not lie across the two words. */
  predicate Misses(w: string, v: string, p: string, q: string)
    requires w != "" && v != "" && p != "" && q != ""
  {
    |w| < |p| || w[|w| - 1] != p[|p| - 1] || v[0] != q[0]
  }

  lemma NoneAcross(ws: seq<string>, p: string, q: string)
    requires p != "" && q != "" && forall k :: 0 <= k < |ws| ==> ws[k] != ""
    requires forall k: nat :: k + 1 < |ws| ==> Misses(ws[k], ws[k + 1], p, q)
    ensures forall k: nat :: !Across(ws, k, p, q)
  {
    forall k: nat ensures !Across(ws, k, p, q) {
      if Across(ws, k, p, q) {
        AcrossEnds(ws, k, p, q);
      }
    }
  }

  /** Where the second word is the end of a phrase, the first decides. */
  lemma AcrossBefore(ws: seq<string>, k: nat, p: string, q: string)
    requires k + 1 < |ws| && ws[k + 1] == q
    ensures Across(ws, k, p, q) <==> EndsWith(ws[k], p)
  {
  }

  /** The phrase stands somewhere across two words, whatever their case. */
  ghost predicate Says(ws: seq<string>, p: string, q: string) {
    exists k: nat :: Across(LowerAll(ws), k, p, q)
  }

  lemma SaysWords(ws: seq<string>, k: nat, p: string, q: string)
    requires k + 1 < |ws| && Lower(ws[k]) == p && Lower(ws[k + 1]) == q
    ensures Says(ws, p, q)
  {
    WholeWords(LowerAll(ws), k, p, q);
  }

  /** Whether the text of a statement has a phrase. */
  lemma HasPhrase(ws: seq<string>, p: string, q: string, phrase: string)
    requires AllWords(ws) && ws != [] && IsWordText(p) && IsWordText(q) && phrase == p + " " + q
    ensures Contains(Lower(Sentence(ws)), phrase) <==> Says(ws, p, q)
  {
    LowerSentence(ws);
    LowerWords(ws);
    PhraseIn(LowerAll(ws), p, q);
  }

  lemma SaysAddConstraint(ws: seq<string>)
    requires AllWords(ws) && ws != []
    ensures Contains(Lower(Sentence(ws)), "add constraint") <==> Says(ws, "add", "constraint")
  {
    HasPhrase(ws, "add", "constraint", "add constraint");
  }

  lemma SaysRenameTo(ws: seq<string>)
    requires AllWords(ws) && ws != []
    ensures Contains(Lower(Sentence(ws)), "rename to") <==> Says(ws, "rename", "to")
  {
    HasPhrase(ws, "rename", "to", "rename to");
  }

  lemma SaysAddColumn(ws: seq<string>)
    requires AllWords(ws) && ws != []
    ensures Contains(Lower(Sentence(ws)), "add column") <==> Says(ws, "add", "column")
  {
    HasPhrase(ws, "add", "column", "add column");
  }

  lemma SaysAlterColumn(ws: seq<string>)
    requires AllWords(ws) && ws != []
    ensures Contains(Lower(Sentence(ws)), "alter column") <==> Says(ws, "alter", "column")
  {
    HasPhrase(ws, "alter", "column", "alter column");
  }

  lemma SaysDropColumn(ws: seq<string>)
    requires AllWords(ws) && ws != []
    ensures Contains(Lower(Sentence(ws)), "drop column") <==> Says(ws, "drop", "column")
  {
    HasPhrase(ws, "drop", "column", "drop column");
  }

  lemma SaysRenameColumn(ws: seq<string>)
    requires AllWords(ws) && ws != []
    ensures Contains(Lower(Sentence(ws)), "rename column") <==> Says(ws, "rename", "column")
  {
    HasPhrase(ws, "rename", "column", "rename column");
  }

  /** The phrases of the switch over ALTER TABLE statements, word by word. */
  lemma SwitchPhrases(ws: seq<string>)
    requires AllWords(ws) && ws != []
    ensures var low := Lower(Sentence(ws));
            && (Contains(low, "add constraint") <==> Says(ws, "add", "constraint"))
            && (Contains(low, "rename to") <==> Says(ws, "rename", "to"))
            && (Contains(low, "add column") <==> Says(ws, "add", "column"))
            && (Contains(low, "alter column") <==> Says(ws, "alter", "column"))
            && (Contains(low, "drop column") <==> Says(ws, "drop", "column"))
            && (Contains(low, "rename column") <==> Says(ws, "rename", "column"))
  {
    SaysAddConstraint(ws);
    SaysRenameTo(ws);
    SaysAddColumn(ws);
    SaysAlterColumn(ws);
    SaysDropColumn(ws);
    SaysRenameColumn(ws);
  }
}
