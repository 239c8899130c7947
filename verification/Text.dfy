/** Values and string helpers shared by the other modules.
    A Go string or byte slice is a `string` here, one character for each byte. */
module Text {

  datatype Option<+T> = None | Some(value: T)

  datatype Result<+T, +E> = Ok(value: T) | Err(error: E)

  /** `strings.Split` with a one-byte separator: never empty, keeps empty pieces. */
  function Split<T(==)>(s: seq<T>, sep: T): (parts: seq<seq<T>>)
    ensures |parts| >= 1
  {
    if s == [] then [[]]
    else
      var rest := Split(s[1..], sep);
      if s[0] == sep then [[]] + rest else [[s[0]] + rest[0]] + rest[1..]
  }

  /** `strings.Join` with a one-byte separator. */
  function Join<T>(parts: seq<seq<T>>, sep: T): seq<T> {
    if parts == [] then []
    else if |parts| == 1 then parts[0]
    else parts[0] + [sep] + Join(parts[1..], sep)
  }

  /** The number of places where `sep` occurs. */
  function Count<T(==)>(s: seq<T>, sep: T): nat {
    if s == [] then 0 else (if s[0] == sep then 1 else 0) + Count(s[1..], sep)
  }

  lemma {:induction false} SplitFree<T>(s: seq<T>, sep: T)
    requires sep !in s
    ensures Split(s, sep) == [s]
  {
    if s == [] {
    } else {
      SplitFree(s[1..], sep);
      assert s == [s[0]] + s[1..];
    }
  }

  /** A separator after a separator-free piece cuts that piece off. */
  lemma {:induction false} SplitCons<T>(a: seq<T>, b: seq<T>, sep: T)
    requires sep !in a
    ensures Split(a + [sep] + b, sep) == [a] + Split(b, sep)
  {
    var s := a + [sep] + b;
    if a == [] {
      assert s[1..] == b;
    } else {
      assert s[1..] == a[1..] + [sep] + b;
      SplitCons(a[1..], b, sep);
      assert a == [a[0]] + a[1..];
      assert ([a[1..]] + Split(b, sep))[1..] == Split(b, sep);
    }
  }

  lemma {:induction false} SplitJoin<T>(parts: seq<seq<T>>, sep: T)
    requires parts != [] && forall p :: p in parts ==> sep !in p
    ensures Split(Join(parts, sep), sep) == parts
  {
    if |parts| == 1 {
      SplitFree(parts[0], sep);
    } else {
      SplitJoin(parts[1..], sep);
      SplitCons(parts[0], Join(parts[1..], sep), sep);
    }
  }

  /** One more element in front of a text that is split. */
  lemma SplitNext<T>(s: seq<T>, sep: T)
    requires s != []
    ensures var parts, rest := Split(s, sep), Split(s[1..], sep);
            if s[0] == sep then parts[0] == [] && parts[1..] == rest
            else parts[0] == [s[0]] + rest[0] && parts[1..] == rest[1..]
  {
  }

  lemma JoinNext<T>(c: T, parts: seq<seq<T>>, rest: seq<seq<T>>, sep: T)
    requires parts != [] && rest != [] && parts[0] == [c] + rest[0] && parts[1..] == rest[1..]
    ensures Join(parts, sep) == [c] + Join(rest, sep)
  {
    if |parts| == 1 {
    } else {
      var tail := Join(rest[1..], sep);
      Assoc([c], rest[0], [sep]);
      Assoc([c], rest[0] + [sep], tail);
    }
  }

  lemma {:induction false} JoinOfSplit<T>(s: seq<T>, sep: T)
    ensures Join(Split(s, sep), sep) == s
  {
    if s == [] {
    } else {
      var parts, rest := Split(s, sep), Split(s[1..], sep);
      SplitNext(s, sep);
      JoinOfSplit(s[1..], sep);
      assert s == [s[0]] + s[1..];
      if s[0] == sep {
        assert parts[0] + [sep] == [sep];
      } else {
        JoinNext(s[0], parts, rest, sep);
      }
    }
  }

  /** The pieces have no separator, and nothing that is not in the text. */
  lemma {:induction false} SplitPieces<T>(s: seq<T>, sep: T)
    ensures |Split(s, sep)| == 1 + Count(s, sep)
    ensures forall p, x :: p in Split(s, sep) && x in p ==> x in s && x != sep
  {
    if s == [] {
    } else {
      var parts, rest := Split(s, sep), Split(s[1..], sep);
      SplitNext(s, sep);
      SplitPieces(s[1..], sep);
      assert |parts| == 1 + |parts[1..]|;
      forall p, x | p in parts && x in p ensures x in s && x != sep {
        if p in rest {
          assert x in s[1..];
        } else {
          assert p == parts[0];
        }
      }
    }
  }

  lemma JoinSplit<T>(s: seq<T>, sep: T)
    ensures Join(Split(s, sep), sep) == s
    ensures |Split(s, sep)| == 1 + Count(s, sep)
    ensures forall p :: p in Split(s, sep) ==> sep !in p
    ensures forall p, x :: p in Split(s, sep) && x in p ==> x in s
  {
    JoinOfSplit(s, sep);
    SplitPieces(s, sep);
  }

  lemma {:induction false} CountAppend<T>(a: seq<T>, b: seq<T>, sep: T)
    ensures Count(a + b, sep) == Count(a, sep) + Count(b, sep)
  {
    if a == [] {
      assert a + b == b;
    } else {
      assert (a + b)[1..] == a[1..] + b;
      CountAppend(a[1..], b, sep);
    }
  }

  lemma {:induction false} CountZero<T>(s: seq<T>, sep: T)
    ensures Count(s, sep) == 0 <==> sep !in s
  {
    if s == [] {
    } else {
      CountZero(s[1..], sep);
    }
  }

  /** The elements of two sequences belong together one by one. */
  predicate Pairwise<A, B>(p: (A, B) -> bool, xs: seq<A>, ys: seq<B>) {
    |xs| == |ys| && forall i :: 0 <= i < |xs| ==> p(xs[i], ys[i])
  }

  lemma PairwiseCons<A, B>(p: (A, B) -> bool, x: A, y: B, xs: seq<A>, ys: seq<B>)
    requires p(x, y) && Pairwise(p, xs, ys)
    ensures Pairwise(p, [x] + xs, [y] + ys)
  {
  }

  /** The first position of `c`, or the length. */
  function IndexOf<T(==)>(s: seq<T>, c: T): (k: nat)
    ensures k <= |s| && (k < |s| ==> s[k] == c) && forall j :: 0 <= j < k ==> s[j] != c
  {
    if s == [] || s[0] == c then 0 else 1 + IndexOf(s[1..], c)
  }

  lemma {:induction false} IndexOfAppend<T>(a: seq<T>, c: T, b: seq<T>)
    requires c !in a
    ensures IndexOf(a + [c] + b, c) == |a|
    ensures (a + [c] + b)[..|a|] == a && (a + [c] + b)[|a| + 1..] == b
  {
    var s := a + [c] + b;
    if a == [] {
      assert s[0] == c;
    } else {
      assert s[1..] == a[1..] + [c] + b;
      IndexOfAppend(a[1..], c, b);
    }
  }

  /** The value of a hexadecimal digit. */
  function HexValue(c: char): Option<nat> {
    if '0' <= c <= '9' then Some((c - '0') as nat)
    else if 'a' <= c <= 'f' then Some((c - 'a') as nat + 10)
    else if 'A' <= c <= 'F' then Some((c - 'A') as nat + 10)
    else None
  }

  lemma Assoc<T>(a: seq<T>, b: seq<T>, c: seq<T>)
    ensures (a + b) + c == a + (b + c)
  {
  }

  /** `strings.HasPrefix` at position `i`. */
  predicate At(s: string, i: nat, sub: string) {
    i + |sub| <= |s| && s[i..i + |sub|] == sub
  }

  /** `strings.Contains`. */
  predicate Contains(s: string, sub: string) {
    exists i: nat | i <= |s| :: At(s, i, sub)
  }

  lemma AtChars(s: string, i: nat, sub: string)
    ensures At(s, i, sub) <==> i + |sub| <= |s| && forall m :: i <= m < i + |sub| ==> s[m] == sub[m - i]
  {
    if At(s, i, sub) {
      forall m | i <= m < i + |sub| ensures s[m] == sub[m - i] {
        assert s[m] == s[i..i + |sub|][m - i];
      }
    }
  }
}
