/** The part of Go's `regexp` that the DDL extractors use, as a backtracking matcher: all
    matches at a position in order of preference, and the leftmost-first match of a text. */
module Regex {
  import opened Text

  /** ASCII case folding, as `strings.ToLower` and the `(?i)` flag do it. */
  function LowerChar(c: char): char {
    if 'A' <= c <= 'Z' then (c as int + 32) as char else c
  }

  function Lower(s: string): (r: string)
    ensures |r| == |s|
    ensures forall i :: 0 <= i < |s| ==> r[i] == LowerChar(s[i])
  {
    seq(|s|, i requires 0 <= i < |s| => LowerChar(s[i]))
  }

  /** The class `\s`. */
  predicate IsSpace(c: char) {
    c == ' ' || c == '\t' || c == '\n' || c == '\r' || c == '\U{000C}'
  }

  /** The class `\w`. */
  predicate IsWord(c: char) {
    'a' <= c <= 'z' || 'A' <= c <= 'Z' || '0' <= c <= '9' || c == '_'
  }

  /** The repeated classes: `\s+`, `\S+`, `\w+` and `[^"]+`. */
  datatype Class = Space | NonSpace | Word | NotQuote {
    predicate Has(c: char) {
      match this
      case Space => IsSpace(c)
      case NonSpace => !IsSpace(c)
      case Word => IsWord(c)
      case NotQuote => c != '"'
    }
  }

  /** `Lit` is a lower-case literal matched without regard to case; `Plus` and `Opt` are greedy. */
  datatype Re =
    | Lit(text: string)
    | Plus(cls: Class)
    | Then(first: Re, second: Re)
    | Or(left: Re, right: Re)
    | Opt(body: Re)
    | Group(index: nat, body: Re)

  /** Where a match ends, and the text of the groups it set. */
  datatype Found = Found(end: nat, groups: map<nat, string>)

  /** A match that sets no group. */
  function Moved(end: nat): Found {
    Found(end, map[])
  }

  /** One match behind the other. */
  function Joined(f: Found, g: Found): Found {
    Found(g.end, f.groups + g.groups)
  }

  /** A match that sets group `n` besides. */
  function Grouped(f: Found, n: nat, text: string): Found {
    Found(f.end, f.groups[n := text])
  }

  /** The match of a name of which the word `w` at `o` is group `n`. */
  function NameFound(o: nat, w: string, n: nat): Found {
    Found(o + |w|, map[n := w])
  }

  function RunLength(cls: Class, s: string, i: nat): (n: nat)
    requires i <= |s|
    ensures i + n <= |s|
    ensures forall k :: i <= k < i + n ==> cls.Has(s[k])
    ensures i + n < |s| ==> !cls.Has(s[i + n])
    decreases |s| - i
  {
    if i == |s| || !cls.Has(s[i]) then 0 else 1 + RunLength(cls, s, i + 1)
  }

  /** The longest run first, then ever shorter ones. */
  function Shrinking(i: nat, n: nat): (fs: seq<Found>)
    ensures |fs| == n
    ensures forall k :: 0 <= k < n ==> fs[k] == Moved(i + n - k)
  {
    if n == 0 then [] else [Moved(i + n)] + Shrinking(i, n - 1)
  }

  function Matches(re: Re, s: string, i: nat): (fs: seq<Found>)
    requires i <= |s|
    ensures forall f :: f in fs ==> i <= f.end <= |s|
    decreases re, 0, s, i
  {
    match re
    case Lit(text) => if At(Lower(s), i, text) then [Moved(i + |text|)] else []
    case Plus(cls) => Shrinking(i, RunLength(cls, s, i))
    case Then(a, b) => Continue(b, s, i, Matches(a, s, i))
    case Or(a, b) => Matches(a, s, i) + Matches(b, s, i)
    case Opt(a) => OrNothing(Matches(a, s, i), i)
    case Group(n, a) => Captured(n, s, i, Matches(a, s, i))
  }

  /** The matches of an optional part, and last the one that takes nothing. */
  function OrNothing(fs: seq<Found>, i: nat): (out: seq<Found>)
    ensures |out| == |fs| + 1 && out[|fs|] == Moved(i) && forall k :: 0 <= k < |fs| ==> out[k] == fs[k]
  {
    fs + [Moved(i)]
  }

  function Continue(re: Re, s: string, i: nat, fs: seq<Found>): (out: seq<Found>)
    requires i <= |s| && forall f :: f in fs ==> i <= f.end <= |s|
    ensures forall f :: f in out ==> i <= f.end <= |s|
    decreases re, |fs|, s, i
  {
    if fs == [] then [] else Extended(fs[0], Matches(re, s, fs[0].end)) + Continue(re, s, i, fs[1..])
  }

  function Extended(f: Found, fs: seq<Found>): (out: seq<Found>)
    ensures |out| == |fs|
    ensures forall k :: 0 <= k < |fs| ==> out[k] == Joined(f, fs[k])
  {
    if fs == [] then [] else [Joined(f, fs[0])] + Extended(f, fs[1..])
  }

  function Captured(n: nat, s: string, i: nat, fs: seq<Found>): (out: seq<Found>)
    requires i <= |s| && forall f :: f in fs ==> i <= f.end <= |s|
    ensures |out| == |fs|
    ensures forall k :: 0 <= k < |fs| ==> out[k] == Grouped(fs[k], n, s[i..fs[k].end])
  {
    if fs == [] then [] else [Grouped(fs[0], n, s[i..fs[0].end])] + Captured(n, s, i, fs[1..])
  }

  /** `FindStringSubmatch`: the preferred match at the first position that has one. */
  function Find(re: Re, s: string, i: nat): Option<Found>
    requires i <= |s|
    decreases |s| - i
  {
    var fs := Matches(re, s, i);
    if fs != [] then Some(fs[0])
    else if i == |s| then None
    else Find(re, s, i + 1)
  }

  /** A group that took no part in the match is the empty string. */
  function GroupText(f: Found, n: nat): string {
    if n in f.groups then f.groups[n] else ""
  }

  // ---------- what can match at all ----------

  /** `re` can match `s` from `i` to `e`. */
  ghost predicate Spans(re: Re, s: string, i: nat, e: nat)
    requires i <= |s|
  {
    match re
    case Lit(text) => At(Lower(s), i, text) && e == i + |text|
    case Plus(cls) => i < e <= |s| && forall k :: i <= k < e ==> cls.Has(s[k])
    case Then(a, b) => exists m: nat :: m <= |s| && Spans(a, s, i, m) && Spans(b, s, m, e)
    case Or(a, b) => Spans(a, s, i, e) || Spans(b, s, i, e)
    case Opt(a) => Spans(a, s, i, e) || e == i
    case Group(_, a) => Spans(a, s, i, e)
  }

  lemma {:induction false} MatchesSpan(re: Re, s: string, i: nat, f: Found)
    requires i <= |s| && f in Matches(re, s, i)
    ensures Spans(re, s, i, f.end)
    decreases re, 0
  {
    match re
    case Lit(text) =>
    case Plus(cls) =>
    case Then(a, b) =>
      var m := ContinueSpans(b, s, i, Matches(a, s, i), f);
      MatchesSpan(a, s, i, m);
    case Or(a, b) =>
      if f in Matches(a, s, i) { MatchesSpan(a, s, i, f); } else { MatchesSpan(b, s, i, f); }
    case Opt(a) =>
      if f in Matches(a, s, i) { MatchesSpan(a, s, i, f); }
    case Group(n, a) =>
      var fs := Matches(a, s, i);
      var k :| 0 <= k < |fs| && Captured(n, s, i, fs)[k] == f;
      MatchesSpan(a, s, i, fs[k]);
  }

  lemma {:induction false} ContinueSpans(re: Re, s: string, i: nat, fs: seq<Found>, f: Found) returns (m: Found)
    requires i <= |s| && (forall g :: g in fs ==> i <= g.end <= |s|) && f in Continue(re, s, i, fs)
    ensures m in fs && Spans(re, s, m.end, f.end)
    decreases re, 1, |fs|
  {
    var here := Matches(re, s, fs[0].end);
    if f in Extended(fs[0], here) {
      var k :| 0 <= k < |here| && Extended(fs[0], here)[k] == f;
      MatchesSpan(re, s, fs[0].end, here[k]);
      m := fs[0];
    } else {
      m := ContinueSpans(re, s, i, fs[1..], f);
    }
  }

  /** And the other way round: every end that the pattern allows is listed. */
  lemma {:induction false} SpanMatches(re: Re, s: string, i: nat, e: nat) returns (f: Found)
    requires i <= |s| && Spans(re, s, i, e)
    ensures f in Matches(re, s, i) && f.end == e
    decreases re
  {
    match re
    case Lit(text) =>
      f := Moved(i + |text|);
    case Plus(cls) =>
      f := RunPart(cls, s, i, e);
    case Then(a, b) =>
      var m: nat :| m <= |s| && Spans(a, s, i, m) && Spans(b, s, m, e);
      var g := SpanMatches(a, s, i, m);
      var h := SpanMatches(b, s, m, e);
      f := Joined(g, h);
      ContinueMember(b, s, i, Matches(a, s, i), g, h);
    case Or(a, b) =>
      if Spans(a, s, i, e) { f := SpanMatches(a, s, i, e); } else { f := SpanMatches(b, s, i, e); }
    case Opt(a) =>
      if Spans(a, s, i, e) { f := SpanMatches(a, s, i, e); } else { f := Moved(i); }
    case Group(n, a) =>
      var g := SpanMatches(a, s, i, e);
      var fs := Matches(a, s, i);
      var k :| 0 <= k < |fs| && fs[k] == g;
      f := Captured(n, s, i, fs)[k];
  }

  /** Every part of a run is listed. */
  lemma RunPart(cls: Class, s: string, i: nat, e: nat) returns (f: Found)
    requires i < e <= |s| && forall k :: i <= k < e ==> cls.Has(s[k])
    ensures f in Matches(Plus(cls), s, i) && f.end == e
  {
    var n := RunLength(cls, s, i);
    assert e <= i + n;
    f := Shrinking(i, n)[i + n - e];
  }

  lemma {:induction false} ContinueMember(re: Re, s: string, i: nat, fs: seq<Found>, g: Found, h: Found)
    requires i <= |s| && (forall f :: f in fs ==> i <= f.end <= |s|) && g in fs && h in Matches(re, s, g.end)
    ensures Joined(g, h) in Continue(re, s, i, fs)
    decreases |fs|
  {
    if fs[0] == g {
      var here := Matches(re, s, g.end);
      var k :| 0 <= k < |here| && here[k] == h;
      assert Extended(g, here)[k] == Joined(g, h);
    } else {
      ContinueMember(re, s, i, fs[1..], g, h);
    }
  }

  lemma NoSpanNoMatch(re: Re, s: string, i: nat)
    requires i <= |s| && forall e :: !Spans(re, s, i, e)
    ensures Matches(re, s, i) == []
  {
    if Matches(re, s, i) != [] {
      MatchesSpan(re, s, i, Matches(re, s, i)[0]);
    }
  }

  /** `\s` is the blank, tab, line feed, carriage return and form feed, `\w` the ASCII letters, the digits
      and the underscore. */
  lemma CharClasses(c: char)
    ensures Space.Has(c) <==> c in " \t\n\r\U{000C}"
    ensures NonSpace.Has(c) <==> !Space.Has(c)
    ensures Word.Has(c) <==> 'a' <= LowerChar(c) <= 'z' || '0' <= c <= '9' || c == '_'
  {
  }

  // ---------- which match is preferred ----------

  /** The preferred match at `i`. */
  function Best(re: Re, s: string, i: nat): Option<Found> {
    if i <= |s| && Matches(re, s, i) != [] then Some(Matches(re, s, i)[0]) else None
  }

  predicate Prefers(re: Re, s: string, i: nat, f: Found) {
    Best(re, s, i) == Some(f)
  }

  lemma PrefersLit(text: string, s: string, i: nat)
    requires At(Lower(s), i, text)
    ensures Prefers(Lit(text), s, i, Moved(i + |text|))
  {
  }

  /** A greedy class takes the whole run. */
  lemma PrefersPlus(cls: Class, s: string, i: nat, e: nat)
    requires i < e <= |s| && (forall k :: i <= k < e ==> cls.Has(s[k])) && (e < |s| ==> !cls.Has(s[e]))
    ensures Prefers(Plus(cls), s, i, Moved(e))
  {
    var n := RunLength(cls, s, i);
    assert i + n == e;
  }

  lemma ContinueHead(re: Re, s: string, i: nat, fs: seq<Found>, g: Found)
    requires i <= |s| && (forall h :: h in fs ==> i <= h.end <= |s|)
    requires fs != [] && Prefers(re, s, fs[0].end, g)
    ensures Continue(re, s, i, fs) != []
    ensures Continue(re, s, i, fs)[0] == Joined(fs[0], g)
  {
    var here := Extended(fs[0], Matches(re, s, fs[0].end));
    assert Continue(re, s, i, fs) == here + Continue(re, s, i, fs[1..]);
  }

  lemma PrefersThen(a: Re, b: Re, s: string, i: nat, f: Found, g: Found)
    requires Prefers(a, s, i, f) && Prefers(b, s, f.end, g)
    ensures Prefers(Then(a, b), s, i, Joined(f, g))
  {
    ContinueHead(b, s, i, Matches(a, s, i), g);
  }

  /** Where nothing can follow any of the matches, nothing goes on. */
  lemma {:induction false} ContinueNowhere(re: Re, s: string, i: nat, fs: seq<Found>)
    requires i <= |s| && (forall f :: f in fs ==> i <= f.end <= |s| && Matches(re, s, f.end) == [])
    ensures Continue(re, s, i, fs) == []
    decreases |fs|
  {
    if fs == [] {
    } else {
      assert fs[0] in fs && Extended(fs[0], []) == [];
      ContinueNowhere(re, s, i, fs[1..]);
    }
  }

  lemma {:induction false} ContinueAppend(re: Re, s: string, i: nat, a: seq<Found>, b: seq<Found>)
    requires i <= |s| && forall f :: f in a + b ==> i <= f.end <= |s|
    requires (forall f :: f in a ==> i <= f.end <= |s|) && (forall f :: f in b ==> i <= f.end <= |s|)
    ensures Continue(re, s, i, a + b) == Continue(re, s, i, a) + Continue(re, s, i, b)
    decreases |a|
  {
    if a == [] {
      assert a + b == b;
    } else {
      assert (a + b)[1..] == a[1..] + b && (a + b)[0] == a[0];
      ContinueAppend(re, s, i, a[1..], b);
      var here := Extended(a[0], Matches(re, s, a[0].end));
      Assoc(here, Continue(re, s, i, a[1..]), Continue(re, s, i, b));
    }
  }

  lemma OptMatches(a: Re, s: string, i: nat)
    requires i <= |s|
    ensures Matches(Opt(a), s, i) == OrNothing(Matches(a, s, i), i)
  {
  }

  lemma ThenMatches(a: Re, b: Re, s: string, i: nat, fs: seq<Found>)
    requires i <= |s| && Matches(a, s, i) == fs
    ensures (forall f :: f in fs ==> i <= f.end <= |s|) && Matches(Then(a, b), s, i) == Continue(b, s, i, fs)
  {
  }

  lemma GivenUp(a: Re, b: Re, s: string, i: nat)
    requires i <= |s| && forall f :: f in Matches(a, s, i) ==> Matches(b, s, f.end) == []
    ensures Matches(Then(Opt(a), b), s, i) == Continue(b, s, i, [Moved(i)])
  {
    OptMatches(a, s, i);
    ThenMatches(Opt(a), b, s, i, OrNothing(Matches(a, s, i), i));
    NowhereFirst(b, s, i, Matches(a, s, i));
  }

  lemma NowhereFirst(re: Re, s: string, i: nat, fs: seq<Found>)
    requires i <= |s| && (forall f :: f in fs ==> i <= f.end <= |s| && Matches(re, s, f.end) == [])
    requires forall f :: f in OrNothing(fs, i) ==> i <= f.end <= |s|
    ensures Continue(re, s, i, OrNothing(fs, i)) == Continue(re, s, i, [Moved(i)])
  {
    assert OrNothing(fs, i) == fs + [Moved(i)];
    ContinueNowhere(re, s, i, fs);
    ContinueAppend(re, s, i, fs, [Moved(i)]);
  }

  lemma MovedFirst(b: Re, s: string, i: nat, g: Found)
    requires Prefers(b, s, i, g)
    ensures Continue(b, s, i, [Moved(i)]) != [] && Continue(b, s, i, [Moved(i)])[0] == g
  {
    ContinueHead(b, s, i, [Moved(i)], g);
    assert map[] + g.groups == g.groups;
  }

  lemma PrefersGivenUp(a: Re, b: Re, s: string, i: nat, g: Found)
    requires i <= |s| && (forall f :: f in Matches(a, s, i) ==> Matches(b, s, f.end) == []) && Prefers(b, s, i, g)
    ensures Prefers(Then(Opt(a), b), s, i, g)
  {
    GivenUp(a, b, s, i);
    MovedFirst(b, s, i, g);
  }

  /** Where nothing can follow any end of it, an optional part is given up. */
  lemma PrefersWithout(a: Re, b: Re, s: string, i: nat, g: Found)
    requires i <= |s| && Prefers(b, s, i, g)
    requires forall e: nat :: e <= |s| && Spans(a, s, i, e) ==> Matches(b, s, e) == []
    ensures Prefers(Then(Opt(a), b), s, i, g)
  {
    forall f | f in Matches(a, s, i) ensures Matches(b, s, f.end) == [] {
      MatchesSpan(a, s, i, f);
    }
    PrefersGivenUp(a, b, s, i, g);
  }

  lemma PrefersGroup(n: nat, a: Re, s: string, i: nat, f: Found)
    requires Prefers(a, s, i, f)
    ensures i <= f.end <= |s|
    ensures Prefers(Group(n, a), s, i, Grouped(f, n, s[i..f.end]))
  {
    assert f in Matches(a, s, i);
  }

  /** A greedy class as a group takes the whole run as its text. */
  lemma PrefersGroupedPlus(n: nat, cls: Class, s: string, i: nat, e: nat)
    requires i < e <= |s| && (forall k :: i <= k < e ==> cls.Has(s[k])) && (e < |s| ==> !cls.Has(s[e]))
    ensures Prefers(Group(n, Plus(cls)), s, i, NameFound(i, s[i..e], n))
  {
    PrefersPlus(cls, s, i, e);
    PrefersGroup(n, Plus(cls), s, i, Moved(e));
    GroupedMoved(n, i, s[i..e]);
  }

  lemma GroupedMoved(n: nat, i: nat, text: string)
    ensures Grouped(Moved(i + |text|), n, text) == NameFound(i, text, n)
  {
  }

  lemma PrefersRight(a: Re, b: Re, s: string, i: nat, f: Found)
    requires Prefers(b, s, i, f) && Matches(a, s, i) == []
    ensures Prefers(Or(a, b), s, i, f)
  {
  }

  lemma {:induction false} FindAt(re: Re, s: string, from: nat, i: nat, f: Found)
    requires from <= i && Prefers(re, s, i, f)
    requires forall j: nat :: from <= j < i ==> Matches(re, s, j) == []
    ensures Find(re, s, from) == Some(f)
    decreases i - from
  {
    if from == i {
    } else {
      assert Matches(re, s, from) == [];
      FindAt(re, s, from + 1, i, f);
    }
  }

  lemma {:induction false} FindNowhere(re: Re, s: string, from: nat)
    requires from <= |s| && forall j: nat :: from <= j <= |s| ==> Matches(re, s, j) == []
    ensures Find(re, s, from) == None
    decreases |s| - from
  {
    if from == |s| {
    } else {
      FindNowhere(re, s, from + 1);
    }
  }
}
