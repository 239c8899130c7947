/** The email transformer: bytes scrambled in place while they are being read, and lists of
    addresses put together in a buffer of exactly computed length. */
module EmailScramble {
  import opened Text
  import opened Utf8

  type Digest = d: seq<Byte> | |d| == 32 witness seq(32, i => 0)

  /** SHA-256, of which only the length of its result matters here. */
  type Hash = seq<Byte> -> Digest

  const AT: Byte := 64
  const COMMA: Byte := 44
  const OPEN: Byte := 123
  const CLOSE: Byte := 125

  /** Bytes of an array literal that stay: `'`, `,`, `\`, `{` and `}`. */
  predicate IsKept(r: nat) {
    r == 39 || r == 44 || r == 92 || r == 123 || r == 125
  }

  /** The output alphabet 0-9, a-z, A-Z. */
  function Alphabet(k: nat): Byte
    requires k < 62
  {
    if k < 10 then 48 + k else if k < 36 then 97 + (k - 10) else 65 + (k - 36)
  }

  predicate IsArray(s: seq<Byte>) {
    |s| >= 2 && s[0] == OPEN && s[|s| - 1] == CLOSE
  }

  /** Byte arithmetic wraps around at 256. */
  function ByteSum(d: Byte, r: nat): Byte {
    (d + r % 256) % 256
  }

  function Scramble(d: Byte, r: nat): Byte {
    Alphabet(ByteSum(d, r) % 62)
  }

  /** The byte written for the `i`th rune. */
  function MapRune(digest: Digest, array_: bool, i: nat, r: nat): Byte {
    if !array_ || !IsKept(r) then Scramble(digest[i % 32], r) else r % 256
  }

  /** Rune by rune into fresh space. */
  function Mapped(digest: Digest, array_: bool, runes: seq<nat>): (out: seq<Byte>)
    ensures |out| == |runes|
    ensures forall i :: 0 <= i < |runes| ==> out[i] == MapRune(digest, array_, i, runes[i])
  {
    seq(|runes|, i requires 0 <= i < |runes| => MapRune(digest, array_, i, runes[i]))
  }

  /** Scrambling out of place: the mapped runes, then what was left of the input. */
  function Scrambled(s: seq<Byte>, salt: seq<Byte>, sha: Hash): (out: seq<Byte>)
    ensures |out| == |s|
  {
    Mapped(sha(salt + s), IsArray(s), Runes(s)) + s[|Runes(s)|..]
  }

  /** The reader over `a[..n]`: at `pos` the bytes are still those of `s`, and what it reads is
      the rune of `s` that starts there. */
  method ReadRune(a: array<Byte>, pos: nat, n: nat, ghost s: seq<Byte>) returns (r: nat, width: nat)
    requires pos < n <= a.Length && |s| == n && forall j :: pos <= j < n ==> a[j] == s[j]
    ensures DecodeRune(s[pos..]) == Rune(r, width)
  {
    assert a[pos..n] == s[pos..];
    var rune := DecodeRune(a[pos..n]);
    r, width := rune.value, rune.width;
  }

  /** What is written for one rune. */
  method WriteRune(a: array<Byte>, i: nat, array_: bool, digest: Digest, r: nat)
    requires i < a.Length
    modifies a
    ensures a[i] == MapRune(digest, array_, i, r)
    ensures forall j :: 0 <= j < a.Length && j != i ==> a[j] == old(a[j])
  {
    if !array_ || !IsKept(r) {
      a[i] := Scramble(digest[i % 32], r);
    } else {
      a[i] := r % 256;
    }
  }

  /** Rune `i` read at `pos`, where it starts, and its byte written at `i`, which is not behind that. */
  method OverwriteRune(a: array<Byte>, i: nat, pos: nat, n: nat, array_: bool, digest: Digest,
                       ghost s: seq<Byte>, ghost all: seq<nat>, ghost starts: seq<nat>) returns (width: nat)
    requires i <= pos < n <= a.Length && |s| == n && forall j :: pos <= j < n ==> a[j] == s[j]
    requires |starts| == |all| + 1 && StartsFrom(s, all, starts, 0) && i <= |all| && pos == starts[i]
    modifies a
    ensures i < |all| && 1 <= width && pos + width == starts[i + 1] <= n
    ensures a[i] == MapRune(digest, array_, i, all[i])
    ensures forall j :: 0 <= j < a.Length && j != i ==> a[j] == old(a[j])
  {
    StartsLater(s, all, starts, 0, i);
    var r;
    r, width := ReadRune(a, pos, n, s);
    WriteRune(a, i, array_, digest, r);
  }

  /** The writer never overtakes the reader, so every rune read is the original one. */
  method OverwriteRunes(a: array<Byte>, n: nat, array_: bool, digest: Digest, ghost s: seq<Byte>) returns (i: nat)
    requires n <= a.Length && a[..n] == s
    modifies a
    ensures i == |Runes(s)|
    ensures forall j :: 0 <= j < i ==> a[j] == MapRune(digest, array_, j, Runes(s)[j])
    ensures forall j :: i <= j < a.Length ==> a[j] == old(a[j])
  {
    ghost var all := Runes(s);
    assert all[0..] == all;
    ghost var starts := RunesStart(s, all, 0, 0);
    i := OverwriteFrom(a, n, array_, digest, s, all, starts);
  }

  /** The loop itself, along the positions where the runes start. */
  method OverwriteFrom(a: array<Byte>, n: nat, array_: bool, digest: Digest,
                       ghost s: seq<Byte>, ghost all: seq<nat>, ghost starts: seq<nat>) returns (i: nat)
    requires |s| == n <= a.Length && a[..n] == s
    requires |starts| == |all| + 1 && StartsFrom(s, all, starts, 0) && starts[0] == 0
    modifies a
    ensures i == |all| <= n
    ensures forall j :: 0 <= j < i ==> a[j] == MapRune(digest, array_, j, all[j])
    ensures forall j :: i <= j < a.Length ==> a[j] == old(a[j])
  {
    i := 0;
    var pos := 0;
    ghost var before := a[..];
    assert forall j :: 0 <= j < n ==> before[j] == s[j];
    while pos < n
      invariant i <= pos <= n && i <= |all| && pos == starts[i]
      invariant forall j :: 0 <= j < i ==> a[j] == MapRune(digest, array_, j, all[j])
      invariant forall j :: i <= j < a.Length ==> a[j] == before[j]
    {
      var width := OverwriteRune(a, i, pos, n, array_, digest, s, all, starts);
      i, pos := i + 1, pos + width;
    }
    StartsLater(s, all, starts, 0, i);
  }

  /** In place on the first `n` bytes, with the result of scrambling out of place. */
  method ScrambleBytes(a: array<Byte>, n: nat, salt: seq<Byte>, sha: Hash) returns (k: nat)
    requires n <= a.Length
    modifies a
    ensures k == |Runes(old(a[..n]))|
    ensures a[..n] == Scrambled(old(a[..n]), salt, sha)
    ensures a[n..] == old(a[n..])
  {
    ghost var s := a[..n];
    var array_ := n >= 2 && a[0] == OPEN && a[n - 1] == CLOSE;
    var digest := sha(salt + a[..n]);
    k := OverwriteRunes(a, n, array_, digest, s);
    Assemble(old(a[..]), a[..], n, Mapped(digest, array_, Runes(s)));
    assert old(a[..])[..n] == s && a[..][..n] == a[..n];
  }

  /** A buffer whose front was overwritten with `front` and whose rest is untouched. */
  lemma Assemble(before: seq<Byte>, after: seq<Byte>, n: nat, front: seq<Byte>)
    requires |before| == |after| && |front| <= n <= |before|
    requires forall j :: 0 <= j < |front| ==> after[j] == front[j]
    requires forall j :: |front| <= j < |after| ==> after[j] == before[j]
    ensures after[..n] == front + before[..n][|front|..] && after[n..] == before[n..]
  {
  }

  // ---------- one address ----------

  datatype Config = Config(excludeDomain: seq<Byte>, replacementDomain: seq<Byte>, salt: seq<Byte>)

  /** Mailbox and domain without the at sign; the salt stands in for a missing mailbox. */
  function Address(s: seq<Byte>, salt: seq<Byte>): (seq<Byte>, seq<Byte>) {
    var at := IndexOf(s, AT);
    if at == |s| then (salt, s) else (s[..at], s[at + 1..])
  }

  function ScrambledEmail(s: seq<Byte>, cfg: Config, sha: Hash): seq<Byte> {
    var (mailbox, domain) := Address(s, cfg.salt);
    if domain == cfg.excludeDomain then s
    else Scrambled(mailbox + domain, cfg.salt, sha) + cfg.replacementDomain
  }

  /** `copy` into an array from position `at` on. */
  method Copy(a: array<Byte>, at: nat, src: seq<Byte>)
    requires at + |src| <= a.Length
    modifies a
    ensures a[..] == old(a[..at]) + src + old(a[at + |src|..])
  {
    for i := 0 to |src|
      invariant a[..at] == old(a[..at])
      invariant a[at..at + i] == src[..i]
      invariant a[at + i..] == old(a[at + i..])
    {
      ghost var rest := a[at + i..];
      a[at + i] := src[i];
      assert a[at + i + 1..] == rest[1..];
    }
    assert src[..|src|] == src;
  }

  /** A buffer that starts with mailbox and domain, with `room` bytes behind them. */
  method FillAddress(mailbox: seq<Byte>, domain: seq<Byte>, room: nat) returns (a: array<Byte>)
    ensures fresh(a) && a.Length == |mailbox| + |domain| + room
    ensures a[..|mailbox| + |domain|] == mailbox + domain
  {
    a := new Byte[|mailbox| + |domain| + room];
    Copy(a, 0, mailbox);
    Copy(a, |mailbox|, domain);
  }

  method ScrambleOneEmail(s: seq<Byte>, cfg: Config, sha: Hash) returns (out: seq<Byte>)
    ensures out == ScrambledEmail(s, cfg, sha)
  {
    var at := IndexOf(s, AT);
    var mailbox := cfg.salt;
    var domain := s;
    if at < |s| {
      mailbox, domain := s[..at], s[at + 1..];
    }
    assert (mailbox, domain) == Address(s, cfg.salt);
    if domain == cfg.excludeDomain {
      return s;
    }
    var a := FillAddress(mailbox, domain, |cfg.replacementDomain|);
    out := ScrambleFront(a, mailbox + domain, cfg, sha);
  }

  /** Scrambling the front of the buffer, and the replacement domain behind it. */
  method ScrambleFront(a: array<Byte>, ghost address: seq<Byte>, cfg: Config, sha: Hash) returns (out: seq<Byte>)
    requires a.Length == |address| + |cfg.replacementDomain| && a[..|address|] == address
    modifies a
    ensures out == Scrambled(address, cfg.salt, sha) + cfg.replacementDomain
  {
    var n := a.Length - |cfg.replacementDomain|;
    var k := ScrambleBytes(a, n, cfg.salt, sha);
    Copy(a, n, cfg.replacementDomain);
    out := a[..];
  }

  predicate InAlphabet(b: Byte) {
    48 <= b <= 57 || 65 <= b <= 90 || 97 <= b <= 122
  }

  lemma {:induction false} AsciiRunes(s: seq<Byte>, pos: nat)
    requires pos <= |s| && forall i :: pos <= i < |s| ==> s[i] < 0x80
    ensures RunesFrom(s, pos) == s[pos..]
    decreases |s| - pos
  {
    if pos == |s| {
    } else {
      assert s[pos..][0] == s[pos];
      AsciiRunes(s, pos + 1);
    }
  }

  lemma ScrambleInAlphabet(d: Byte, r: nat)
    ensures InAlphabet(Scramble(d, r))
  {
  }

  /** The byte written for a rune: the rune itself if it is one of the kept ones of an array literal,
      and a byte of the alphabet otherwise. */
  predicate IsWritten(out: Byte, array_: bool, r: nat) {
    if array_ && IsKept(r) then out == r else InAlphabet(out)
  }

  lemma MapRuneWritten(digest: Digest, array_: bool, i: nat, r: nat)
    ensures IsWritten(MapRune(digest, array_, i, r), array_, r)
  {
    ScrambleInAlphabet(digest[i % 32], r);
  }

  lemma ScrambledFront(s: seq<Byte>, salt: seq<Byte>, sha: Hash)
    ensures forall i :: 0 <= i < |Runes(s)| ==> IsWritten(Scrambled(s, salt, sha)[i], IsArray(s), Runes(s)[i])
  {
    var runes, digest := Runes(s), sha(salt + s);
    var mapped := Mapped(digest, IsArray(s), runes);
    EndsIn(mapped, s[|runes|..]);
    forall i | 0 <= i < |runes| ensures IsWritten(Scrambled(s, salt, sha)[i], IsArray(s), runes[i]) {
      MapRuneWritten(digest, IsArray(s), i, runes[i]);
      assert Scrambled(s, salt, sha)[i] == mapped[i];
    }
  }

  lemma AsciiCount(s: seq<Byte>)
    requires forall b :: b in s ==> b < 0x80
    ensures |Runes(s)| == |s|
  {
    forall i | 0 <= i < |s| ensures s[i] < 0x80 {
      assert s[i] in s;
    }
    AsciiRunes(s, 0);
  }

  lemma EndsIn(a: seq<Byte>, b: seq<Byte>)
    ensures (a + b)[|a|..] == b && forall i :: 0 <= i < |a| ==> (a + b)[i] == a[i]
  {
  }

  /** Mailbox and domain as they are scrambled. */
  function Scrambles(s: seq<Byte>, salt: seq<Byte>): seq<Byte> {
    Address(s, salt).0 + Address(s, salt).1
  }

  /** An address that is not excluded ends in the replacement domain, and before that as many bytes
      are of the output alphabet as there are runes: all of them, if the address is ASCII. Only in an
      address that is itself in braces the five kept characters stay. */
  lemma AddressIsHidden(s: seq<Byte>, cfg: Config, sha: Hash)
    requires Address(s, cfg.salt).1 != cfg.excludeDomain
    ensures var address, out := Scrambles(s, cfg.salt), ScrambledEmail(s, cfg, sha);
            && |out| == |address| + |cfg.replacementDomain| && out[|address|..] == cfg.replacementDomain
            && (forall i :: 0 <= i < |Runes(address)| ==> IsWritten(out[i], IsArray(address), Runes(address)[i]))
            && ((forall b :: b in address ==> b < 0x80) ==> |Runes(address)| == |address|)
  {
    var address := Scrambles(s, cfg.salt);
    var scrambled := Scrambled(address, cfg.salt, sha);
    assert ScrambledEmail(s, cfg, sha) == scrambled + cfg.replacementDomain;
    EndsIn(scrambled, cfg.replacementDomain);
    ScrambledFront(address, cfg.salt, sha);
    if forall b :: b in address ==> b < 0x80 {
      AsciiCount(address);
    }
  }

  // ---------- what is written ----------

  /** The digits, then the small letters, then the capitals, each in their order. */
  lemma AlphabetOrder(k: nat)
    requires k < 62
    ensures Alphabet(0) == '0' as int && Alphabet(10) == 'a' as int && Alphabet(36) == 'A' as int
    ensures Alphabet(9) == '9' as int && Alphabet(35) == 'z' as int && Alphabet(61) == 'Z' as int
    ensures k !in {9, 35, 61} ==> Alphabet(k + 1) == Alphabet(k) + 1
  {
  }

  lemma AlphabetPlace(b: Byte) returns (k: nat)
    requires InAlphabet(b)
    ensures k < 62 && Alphabet(k) == b
  {
    k := if b <= 57 then b - 48 else if b <= 90 then b - 65 + 36 else b - 97 + 10;
  }

  lemma AlphabetInjective(j: nat, k: nat)
    requires j < 62 && k < 62 && j != k
    ensures Alphabet(j) != Alphabet(k)
  {
  }

  /** Numbers less than 62 apart are different modulo 62. */
  lemma NearModulo(a: nat, b: nat)
    requires a < b < a + 62
    ensures a % 62 != b % 62
  {
  }

  lemma SumFor(d: Byte, x: Byte, k: nat)
    requires k < 62 && d + x == (if x <= k then k else k + 256)
    ensures (d + x) % 256 == k
  {
  }

  /** As the digest byte varies, every character of the alphabet is reached for any rune. */
  lemma ScrambleReaches(r: nat, b: Byte) returns (d: Byte)
    requires InAlphabet(b)
    ensures Scramble(d, r) == b
  {
    var k := AlphabetPlace(b);
    var x := r % 256;
    d := if x <= k then k - x else k - x + 256;
    SumFor(d, x, k);
    assert ByteSum(d, r) == k;
  }

  /** A sum that does not wrap around. */
  lemma PlainSum(d: Byte, r: nat, sum: nat)
    requires sum == d + r % 256 && sum < 256
    ensures ByteSum(d, r) == sum
  {
  }

  lemma Letter(d: Byte, r: nat, sum: nat, k: nat, b: Byte)
    requires sum == d + r % 256 && sum < 256 && k == sum % 62 && Alphabet(k) == b
    ensures Scramble(d, r) == b
  {
    PlainSum(d, r, sum);
  }

  /** Sums of digest byte and rune that do not wrap around and are less than 62 apart give
      different characters. */
  lemma ScrambleSeparates(d: Byte, r: nat, e: Byte, q: nat)
    requires d + r % 256 < e + q % 256 < 256 && e + q % 256 < d + r % 256 + 62
    ensures Scramble(d, r) != Scramble(e, q)
  {
    PlainSum(d, r, d + r % 256);
    PlainSum(e, q, e + q % 256);
    NearModulo(ByteSum(d, r), ByteSum(e, q));
    AlphabetInjective(ByteSum(d, r) % 62, ByteSum(e, q) % 62);
  }

  /** The byte in place `i` of a scrambled text, for a rune that does not stay. */
  lemma ScrambledAt(s: seq<Byte>, salt: seq<Byte>, sha: Hash, i: nat)
    requires i < |Runes(s)| && !(IsArray(s) && IsKept(Runes(s)[i]))
    ensures Scrambled(s, salt, sha)[i] == Scramble(sha(salt + s)[i % 32], Runes(s)[i])
  {
    EndsIn(Mapped(sha(salt + s), IsArray(s), Runes(s)), s[|Runes(s)|..]);
  }

  /** It depends on the digest only by the digest's byte `i % 32`, but on that it does: every character
      of the alphabet comes out for some hash. */
  lemma DigestDecides(s: seq<Byte>, salt: seq<Byte>, i: nat)
    requires i < |Runes(s)| && !(IsArray(s) && IsKept(Runes(s)[i]))
    ensures forall f: Hash, g: Hash :: f(salt + s)[i % 32] == g(salt + s)[i % 32] ==>
              Scrambled(s, salt, f)[i] == Scrambled(s, salt, g)[i]
    ensures forall b: Byte :: InAlphabet(b) ==> exists f: Hash :: Scrambled(s, salt, f)[i] == b
  {
    forall f: Hash, g: Hash | f(salt + s)[i % 32] == g(salt + s)[i % 32]
      ensures Scrambled(s, salt, f)[i] == Scrambled(s, salt, g)[i]
    {
      ScrambledAt(s, salt, f, i);
      ScrambledAt(s, salt, g, i);
    }
    forall b: Byte | InAlphabet(b) ensures exists f: Hash :: Scrambled(s, salt, f)[i] == b {
      var d := ScrambleReaches(Runes(s)[i], b);
      var f := Always(d);
      ScrambledAt(s, salt, f, i);
      assert Scrambled(s, salt, f)[i] == b;
    }
  }

  /** A hash that gives the same byte everywhere. */
  function Always(d: Byte): Hash {
    x => seq(32, j => d)
  }

  /** A hash that tells one input from all others. */
  function Tells(input: seq<Byte>): Hash {
    x => if x == input then seq(32, j => 0) else seq(32, j => 1)
  }

  /** Two digest bytes that differ by less than 62 give different characters in place `i`, and so do
      two runes, as long as the sums do not wrap around. */
  lemma NeighboursDiffer(s: seq<Byte>, t: seq<Byte>, salt: seq<Byte>, f: Hash, g: Hash, i: nat)
    requires i < |Runes(s)| && i < |Runes(t)|
    requires !(IsArray(s) && IsKept(Runes(s)[i])) && !(IsArray(t) && IsKept(Runes(t)[i]))
    requires var a, b := f(salt + s)[i % 32] + Runes(s)[i] % 256, g(salt + t)[i % 32] + Runes(t)[i] % 256;
             a < b < 256 && b < a + 62
    ensures Scrambled(s, salt, f)[i] != Scrambled(t, salt, g)[i]
  {
    ScrambledAt(s, salt, f, i);
    ScrambledAt(t, salt, g, i);
    ScrambleSeparates(f(salt + s)[i % 32], Runes(s)[i], g(salt + t)[i % 32], Runes(t)[i]);
  }

  /** The salt matters: for any two different ones some hash scrambles the same text differently. */
  lemma SaltMatters(s: seq<Byte>, one: seq<Byte>, two: seq<Byte>)
    requires s != [] && s[0] < 0x80 && !IsArray(s) && one != two
    ensures exists f: Hash :: Scrambled(s, one, f) != Scrambled(s, two, f)
  {
    var f := Tells(one + s);
    if one + s == two + s {
      SameSalt(s, one, two);
    }
    assert s[0..] == s;
    assert Runes(s)[0] == s[0];
    ScrambledAt(s, one, f, 0);
    ScrambledAt(s, two, f, 0);
    ScrambleSeparates(0, s[0], 1, s[0]);
    assert Scrambled(s, one, f)[0] != Scrambled(s, two, f)[0];
  }

  lemma SameSalt(s: seq<Byte>, one: seq<Byte>, two: seq<Byte>)
    requires one + s == two + s
    ensures one == two
  {
    assert |one| == |two|;
    assert one == (one + s)[..|one|] && two == (two + s)[..|two|];
  }

  /** In a text that is not in braces every rune becomes a character of the alphabet. */
  lemma OnlyInBraces(s: seq<Byte>, salt: seq<Byte>, sha: Hash)
    requires |s| < 2 || s[0] != 123 || s[|s| - 1] != 125
    ensures forall i :: 0 <= i < |Runes(s)| ==> InAlphabet(Scrambled(s, salt, sha)[i])
  {
    ScrambledFront(s, salt, sha);
  }

  lemma AllAscii(s: seq<Byte>)
    requires forall b :: b in s ==> b < 0x80
    ensures Runes(s) == s
  {
    forall i | 0 <= i < |s| ensures s[i] < 0x80 {
      assert s[i] in s;
    }
    AsciiRunes(s, 0);
    assert s[0..] == s;
  }

  /** In an ASCII text in braces quotes, commas, backslashes and braces stay where they are, and only
      they do. */
  lemma StaysInBraces(s: seq<Byte>, salt: seq<Byte>, sha: Hash, i: nat)
    requires |s| >= 2 && s[0] == 123 && s[|s| - 1] == 125 && (forall b :: b in s ==> b < 0x80) && i < |s|
    ensures if s[i] in {39, 44, 92, 123, 125} then Scrambled(s, salt, sha)[i] == s[i]
            else InAlphabet(Scrambled(s, salt, sha)[i])
  {
    AllAscii(s);
    ScrambledFront(s, salt, sha);
  }

  /** Mailbox and domain are what stands before and behind the first at sign. */
  lemma AddressParts(mailbox: seq<Byte>, domain: seq<Byte>, salt: seq<Byte>)
    requires AT !in mailbox
    ensures Address(mailbox + [AT] + domain, salt) == (mailbox, domain)
    ensures Address(mailbox, salt) == (salt, mailbox)
  {
    IndexOfAppend(mailbox, AT, domain);
    assert forall i :: 0 <= i < |mailbox| ==> mailbox[i] in mailbox;
  }

  /** An address of the excluded domain stays as it is. */
  lemma ExcludedStays(mailbox: seq<Byte>, cfg: Config, sha: Hash)
    requires AT !in mailbox
    ensures ScrambledEmail(mailbox + [AT] + cfg.excludeDomain, cfg, sha) == mailbox + [AT] + cfg.excludeDomain
  {
    AddressParts(mailbox, cfg.excludeDomain, cfg.salt);
  }

  lemma ScrambledTwo(s: seq<Byte>, salt: seq<Byte>, sha: Hash)
    requires |s| == 2 && s[0] < 0x80 && s[1] < 0x80 && !IsArray(s)
    ensures Scrambled(s, salt, sha) == [Scramble(sha(salt + s)[0], s[0]), Scramble(sha(salt + s)[1], s[1])]
  {
    AsciiRunes(s, 0);
    assert s[0..] == s;
    ScrambledAt(s, salt, sha, 0);
    ScrambledAt(s, salt, sha, 1);
  }

  /** Any other address is scrambled as mailbox and domain, without the at sign. */
  lemma AddressScrambled(mailbox: seq<Byte>, domain: seq<Byte>, cfg: Config, sha: Hash)
    requires AT !in mailbox && domain != cfg.excludeDomain
    ensures ScrambledEmail(mailbox + [AT] + domain, cfg, sha) ==
            Scrambled(mailbox + domain, cfg.salt, sha) + cfg.replacementDomain
  {
    AddressParts(mailbox, domain, cfg.salt);
  }

  /** `a@b`, with a digest that starts with 3 and 0, becomes `CA` and the replacement domain. */
  lemma ScrambledHere(a: seq<Byte>, b: seq<Byte>, cfg: Config, sha: Hash)
    requires a == [97] && b == [98] && cfg.excludeDomain == []
    requires sha(cfg.salt + (a + b))[0] == 3 && sha(cfg.salt + (a + b))[1] == 0
    ensures ScrambledEmail(a + [AT] + b, cfg, sha) == [67, 65] + cfg.replacementDomain
  {
    AddressScrambled(a, b, cfg, sha);
    ScrambledTwo(a + b, cfg.salt, sha);
    Letter(3, 97, 100, 38, 67);
    Letter(0, 98, 98, 36, 65);
  }

  // ---------- lists ----------

  function ScrambledParts(parts: seq<seq<Byte>>, cfg: Config, sha: Hash): (out: seq<seq<Byte>>)
    ensures |out| == |parts| && forall i :: 0 <= i < |parts| ==> out[i] == ScrambledEmail(parts[i], cfg, sha)
  {
    seq(|parts|, i requires 0 <= i < |parts| => ScrambledEmail(parts[i], cfg, sha))
  }

  /** What `scrambleEmail` does with any input: short values stay, a value with neither brace is
      one address, and anything else is a list between its first and last byte. */
  function ScrambledValue(s: seq<Byte>, cfg: Config, sha: Hash): seq<Byte> {
    if |s| < 2 then s
    else if s[0] != OPEN && s[|s| - 1] != CLOSE then ScrambledEmail(s, cfg, sha)
    else [OPEN] + Join(ScrambledParts(Split(s[1..|s| - 1], COMMA), cfg, sha), COMMA) + [CLOSE]
  }

  function TotalLength(parts: seq<seq<Byte>>): nat {
    if parts == [] then 0 else TotalLength(parts[..|parts| - 1]) + |parts[|parts| - 1]|
  }

  lemma {:induction false} TotalLengthFront(parts: seq<seq<Byte>>)
    requires parts != []
    ensures TotalLength(parts) == |parts[0]| + TotalLength(parts[1..])
  {
    if |parts| <= 1 {
    } else {
      TotalLengthFront(parts[..|parts| - 1]);
      assert parts[..|parts| - 1][1..] == parts[1..][..|parts| - 2];
    }
  }

  lemma {:induction false} JoinLength(parts: seq<seq<Byte>>)
    requires parts != []
    ensures |Join(parts, COMMA)| == TotalLength(parts) + |parts| - 1
  {
    TotalLengthFront(parts);
    if |parts| <= 1 {
    } else {
      JoinLength(parts[1..]);
    }
  }

  /** The length computed up front is exact: the buffer is filled to its last byte. */
  method ScrambleEmail(s: seq<Byte>, cfg: Config, sha: Hash) returns (out: seq<Byte>)
    ensures out == ScrambledValue(s, cfg, sha)
  {
    if |s| < 2 {
      return s;
    }
    if s[0] != OPEN && s[|s| - 1] != CLOSE {
      out := ScrambleOneEmail(s, cfg, sha);
      return;
    }
    var parts := Split(s[1..|s| - 1], COMMA);
    var partsNew, outLength := ScrambleParts(parts, cfg, sha);
    JoinLength(partsNew);
    out := FillList(outLength, Join(partsNew, COMMA));
  }

  /** The loop over the elements, with the length that it adds up. */
  method ScrambleParts(parts: seq<seq<Byte>>, cfg: Config, sha: Hash)
    returns (partsNew: seq<seq<Byte>>, outLength: nat)
    requires parts != []
    ensures partsNew == ScrambledParts(parts, cfg, sha) && outLength == 1 + |parts| + TotalLength(partsNew)
  {
    partsNew := [];
    outLength := 2 + |parts| - 1;
    for i := 0 to |parts|
      invariant partsNew == ScrambledParts(parts[..i], cfg, sha)
      invariant outLength == 1 + |parts| + TotalLength(partsNew)
    {
      var part := ScrambleOneEmail(parts[i], cfg, sha);
      ScrambledNext(parts, i, cfg, sha);
      TotalLengthNext(partsNew, part);
      partsNew := partsNew + [part];
      outLength := outLength + |part|;
    }
    assert parts[..|parts|] == parts;
  }

  lemma ScrambledNext(parts: seq<seq<Byte>>, i: nat, cfg: Config, sha: Hash)
    requires i < |parts|
    ensures ScrambledParts(parts[..i + 1], cfg, sha) ==
            ScrambledParts(parts[..i], cfg, sha) + [ScrambledEmail(parts[i], cfg, sha)]
  {
  }

  lemma TotalLengthNext(parts: seq<seq<Byte>>, part: seq<Byte>)
    ensures TotalLength(parts + [part]) == TotalLength(parts) + |part|
  {
    assert (parts + [part])[..|parts|] == parts;
  }

  /** The buffer of the computed length, with the braces set before the list is copied in. */
  method FillList(length: nat, joined: seq<Byte>) returns (out: seq<Byte>)
    requires length == |joined| + 2
    ensures out == [OPEN] + joined + [CLOSE]
  {
    var a := new Byte[length];
    a[0] := OPEN;
    a[a.Length - 1] := CLOSE;
    Copy(a, 1, joined);
    out := a[..];
  }

  // ---------- lists keep their shape ----------

  /** A comma is only ever read from a comma byte. */
  lemma {:induction false} RunesHaveNoComma(s: seq<Byte>, pos: nat)
    requires COMMA !in s && pos <= |s|
    ensures COMMA !in RunesFrom(s, pos)
    decreases |s| - pos
  {
    if pos == |s| {
    } else {
      RunesHaveNoComma(s, pos + DecodeRune(s[pos..]).width);
    }
  }

  lemma ScrambledHasNoComma(s: seq<Byte>, salt: seq<Byte>, sha: Hash)
    requires COMMA !in s
    ensures COMMA !in Scrambled(s, salt, sha)
  {
    RunesHaveNoComma(s, 0);
    var runes := Runes(s);
    forall i | 0 <= i < |runes| ensures MapRune(sha(salt + s), IsArray(s), i, runes[i]) != COMMA {
      assert runes[i] in runes;
    }
  }

  lemma EmailHasNoComma(s: seq<Byte>, cfg: Config, sha: Hash)
    requires COMMA !in s && COMMA !in cfg.salt && COMMA !in cfg.replacementDomain
    ensures COMMA !in ScrambledEmail(s, cfg, sha)
  {
    var (mailbox, domain) := Address(s, cfg.salt);
    ScrambledHasNoComma(mailbox + domain, cfg.salt, sha);
  }

  /** A scrambled list splits into as many elements, in the same order, each of them scrambled
      on its own. One of the two braces is enough to make a list, and both are there afterwards. */
  lemma ListKeepsShape(first: Byte, body: seq<Byte>, last: Byte, cfg: Config, sha: Hash)
    requires first == OPEN || last == CLOSE
    requires COMMA !in cfg.salt && COMMA !in cfg.replacementDomain
    ensures var out := ScrambledValue([first] + body + [last], cfg, sha);
            |out| >= 2 && out[0] == OPEN && out[|out| - 1] == CLOSE
            && Split(out[1..|out| - 1], COMMA) == ScrambledParts(Split(body, COMMA), cfg, sha)
  {
    var s := [first] + body + [last];
    var out := ScrambledValue(s, cfg, sha);
    assert s[1..|s| - 1] == body;
    var parts := ScrambledParts(Split(body, COMMA), cfg, sha);
    JoinSplit(body, COMMA);
    forall p | p in parts ensures COMMA !in p {
      var i :| 0 <= i < |parts| && parts[i] == p;
      EmailHasNoComma(Split(body, COMMA)[i], cfg, sha);
    }
    SplitJoin(parts, COMMA);
    assert out[1..|out| - 1] == Join(parts, COMMA);
  }

  /** Without a brace at either end a value is one address, and one byte or none stays. */
  lemma NoList(s: seq<Byte>, cfg: Config, sha: Hash)
    requires |s| < 2 || (s[0] != OPEN && s[|s| - 1] != CLOSE)
    ensures ScrambledValue(s, cfg, sha) == if |s| < 2 then s else ScrambledEmail(s, cfg, sha)
  {
  }
}
