/** Escaping the password of a connection URL. A byte of the URL is a character below 256. */
module ConnectionUrl {
  import opened Text

  predicate IsBytes(s: string) {
    forall i :: 0 <= i < |s| ==> s[i] < '\U{0100}'
  }

  // ---------- percent-encoding ----------

  function HexDigit(d: nat): char
    requires d < 16
  {
    if d < 10 then '0' + d as char else 'A' + (d - 10) as char
  }

  /** The unreserved characters of section 2.3 of RFC 3986. */
  predicate IsUnreserved(c: char) {
    'a' <= c <= 'z' || 'A' <= c <= 'Z' || '0' <= c <= '9' || c == '-' || c == '_' || c == '.' || c == '~'
  }

  function EscapeByte(c: char): string
    requires c < '\U{0100}'
  {
    if IsUnreserved(c) then [c]
    else if c == ' ' then "+"
    else ['%', HexDigit(c as int / 16), HexDigit(c as int % 16)]
  }

  /** `url.QueryEscape`. */
  function QueryEscape(s: string): string
    requires IsBytes(s)
  {
    if s == "" then "" else EscapeByte(s[0]) + QueryEscape(s[1..])
  }

  /** `url.PathUnescape`: percent-decoding as in section 2.1 of RFC 3986; a plus sign stays. */
  function PathUnescape(s: string): Option<string> {
    if s == "" then Some("")
    else if s[0] != '%' then
      match PathUnescape(s[1..])
      case Some(rest) => Some([s[0]] + rest)
      case None => None
    else if |s| < 3 || HexValue(s[1]).None? || HexValue(s[2]).None? then None
    else
      match PathUnescape(s[3..])
      case Some(rest) => Some([(HexValue(s[1]).value * 16 + HexValue(s[2]).value) as char] + rest)
      case None => None
  }

  // ---------- the URL ----------

  datatype UrlError = InvalidURL

  datatype Parts = Parts(scheme: string, userInfo: string, hostAndPath: string)

  const LONG := "postgresql://"
  const SHORT := "postgres://"

  /** `^(postgres(?:ql)?://)([^@]+?)@(.+)$` */
  function MatchUrl(url: string): Option<Parts> {
    if !(LONG <= url) && !(SHORT <= url) then None
    else
      var scheme := if LONG <= url then LONG else SHORT;
      var rest := url[|scheme|..];
      var at := IndexOf(rest, '@');
      if at == 0 || at == |rest| || at + 1 == |rest| || '\n' in rest[at + 1..] then None
      else Some(Parts(scheme, rest[..at], rest[at + 1..]))
  }

  /** The password to encode: decoded if it carries escapes and all of them are well-formed. */
  function DecodedPassword(password: string): string {
    if '%' in password && PathUnescape(password).Some? then PathUnescape(password).value else password
  }

  function Assemble(scheme: string, user: string, password: string, host: string): string {
    scheme + Authority(user + ":" + password, host)
  }

  function Authority(userInfo: string, host: string): string {
    userInfo + "@" + host
  }

  function EscapeConnectionURL(url: string): Result<string, UrlError>
    requires IsBytes(url)
  {
    if !(LONG <= url) && !(SHORT <= url) then Ok(url)
    else
      var parts := MatchUrl(url);
      if parts == None then Err(InvalidURL)
      else
        var userInfo := parts.value.userInfo;
        var colon := IndexOf(userInfo, ':');
        if colon == |userInfo| then Ok(url)
        else if colon == 0 then Err(InvalidURL)
        else
          MatchedBytes(url);
          var decoded := DecodedPassword(userInfo[colon + 1..]);
          DecodedBytes(userInfo[colon + 1..]);
          Ok(Assemble(parts.value.scheme, userInfo[..colon], QueryEscape(decoded), parts.value.hostAndPath))
  }

  lemma MatchedBytes(url: string)
    requires IsBytes(url) && MatchUrl(url).Some?
    ensures IsBytes(MatchUrl(url).value.userInfo)
  {
  }

  lemma {:induction false} UnescapedBytes(s: string)
    requires IsBytes(s) && PathUnescape(s).Some?
    ensures IsBytes(PathUnescape(s).value)
  {
    if s == "" {
    } else {
      UnescapedBytes(if s[0] != '%' then s[1..] else s[3..]);
    }
  }

  lemma DecodedBytes(password: string)
    requires IsBytes(password)
    ensures IsBytes(DecodedPassword(password))
  {
    if PathUnescape(password).Some? {
      UnescapedBytes(password);
    }
  }

  // ---------- decoding what was encoded ----------

  /** The string with every space turned into a plus sign. */
  function SpacesToPlus(s: string): (r: string)
    ensures |r| == |s| && forall i :: 0 <= i < |s| ==> r[i] == if s[i] == ' ' then '+' else s[i]
  {
    seq(|s|, i requires 0 <= i < |s| => if s[i] == ' ' then '+' else s[i])
  }

  lemma HexPair(c: char)
    requires c < '\U{0100}'
    ensures HexValue(HexDigit(c as int / 16)) == Some(c as int / 16)
    ensures HexValue(HexDigit(c as int % 16)) == Some(c as int % 16)
  {
    HexDigitValue(c as int / 16);
    HexDigitValue(c as int % 16);
  }

  lemma HexDigitValue(d: nat)
    requires d < 16
    ensures HexValue(HexDigit(d)) == Some(d)
  {
  }

  lemma UnescapeHead(c: char, rest: string)
    requires c < '\U{0100}' && PathUnescape(rest).Some?
    ensures PathUnescape(EscapeByte(c) + rest) == Some([if c == ' ' then '+' else c] + PathUnescape(rest).value)
  {
    var s := EscapeByte(c) + rest;
    HexPair(c);
    if |EscapeByte(c)| == 1 {
      assert s[1..] == rest;
    } else {
      assert s[0] == '%' && s[1] == EscapeByte(c)[1] && s[2] == EscapeByte(c)[2] && s[3..] == rest;
    }
  }

  /** Percent-decoding an escaped string gives the string back, spaces excepted. */
  lemma {:induction false} UnescapeEscape(s: string)
    requires IsBytes(s)
    ensures PathUnescape(QueryEscape(s)) == Some(SpacesToPlus(s))
  {
    if s == "" {
      assert SpacesToPlus(s) == "";
    } else {
      UnescapeEscape(s[1..]);
      UnescapeHead(s[0], QueryEscape(s[1..]));
      assert SpacesToPlus(s) == [SpacesToPlus(s)[0]] + SpacesToPlus(s[1..]);
    }
  }

  lemma EscapedByteChars(c: char)
    requires c < '\U{0100}'
    ensures IsBytes(EscapeByte(c)) && '@' !in EscapeByte(c)
    ensures '+' in EscapeByte(c) <==> c == ' '
    ensures '%' !in EscapeByte(c) ==> EscapeByte(c) == [if c == ' ' then '+' else c]
  {
  }

  lemma {:induction false} EscapedChars(s: string)
    requires IsBytes(s)
    ensures IsBytes(QueryEscape(s)) && '@' !in QueryEscape(s)
    ensures '+' in QueryEscape(s) <==> ' ' in s
  {
    if s == "" {
    } else {
      EscapedChars(s[1..]);
      EscapedByteChars(s[0]);
      assert s == [s[0]] + s[1..];
    }
  }

  lemma {:induction false} EscapedPlainly(s: string)
    requires IsBytes(s) && '%' !in QueryEscape(s)
    ensures QueryEscape(s) == SpacesToPlus(s)
  {
    if s == "" {
    } else {
      var e, rest := EscapeByte(s[0]), s[1..];
      assert QueryEscape(s) == e + QueryEscape(rest);
      EscapedPlainly(rest);
      EscapedByteChars(s[0]);
      assert SpacesToPlus(s) == e + SpacesToPlus(rest);
    }
  }

  /** What the next run decodes an emitted password to. */
  lemma DecodeEmitted(s: string)
    requires IsBytes(s)
    ensures DecodedPassword(QueryEscape(s)) == SpacesToPlus(s)
  {
    UnescapeEscape(s);
    if '%' !in QueryEscape(s) {
      EscapedPlainly(s);
    }
  }

  lemma SpacesToPlusFixed(s: string)
    ensures SpacesToPlus(s) == s <==> ' ' !in s
    ensures ' ' !in SpacesToPlus(s) && (IsBytes(s) ==> IsBytes(SpacesToPlus(s)))
  {
  }

  // ---------- main results ----------

  predicate IsScheme(s: string) {
    s == LONG || s == SHORT
  }

  lemma SchemeOf(scheme: string, rest: string)
    requires IsScheme(scheme)
    ensures LONG <= scheme + rest <==> scheme == LONG
    ensures SHORT <= scheme + rest <==> scheme == SHORT
    ensures (scheme + rest)[|scheme|..] == rest
  {
    var url := scheme + rest;
    assert url[8] == scheme[8];
    assert SHORT[8] == ':' && LONG[8] == 'q';
    assert url[..|scheme|] == scheme;
  }

  lemma MatchAssembled(scheme: string, userInfo: string, host: string)
    requires IsScheme(scheme) && userInfo != "" && '@' !in userInfo && host != "" && '\n' !in host
    ensures MatchUrl(scheme + Authority(userInfo, host)) == Some(Parts(scheme, userInfo, host))
  {
    SchemeOf(scheme, Authority(userInfo, host));
    IndexOfAppend(userInfo, '@', host);
  }

  /** An accepted URL with a password, taken apart. */
  ghost predicate HasPassword(url: string, scheme: string, user: string, password: string, host: string) {
    MatchUrl(url) == Some(Parts(scheme, user + ":" + password, host)) && user != "" && ':' !in user
  }

  lemma PartsOfUrl(url: string, scheme: string, user: string, password: string, host: string)
    requires IsBytes(url) && HasPassword(url, scheme, user, password, host)
    ensures IsScheme(scheme) && '@' !in user && host != "" && '\n' !in host
    ensures IsBytes(scheme) && IsBytes(user) && IsBytes(password) && IsBytes(host)
    ensures IsBytes(DecodedPassword(password))
  {
    var userInfo := user + ":" + password;
    MatchedBytes(url);
    forall i | 0 <= i < |user| ensures user[i] < '\U{0100}' && user[i] != '@' {
      assert user[i] == userInfo[i];
    }
    forall i | 0 <= i < |password| ensures password[i] < '\U{0100}' {
      assert password[i] == userInfo[|user| + 1 + i];
    }
    DecodedBytes(password);
  }

  lemma EscapeWithPassword(url: string, scheme: string, user: string, password: string, host: string)
    requires IsBytes(url) && HasPassword(url, scheme, user, password, host)
    ensures IsBytes(DecodedPassword(password))
    ensures EscapeConnectionURL(url) == Ok(Assemble(scheme, user, QueryEscape(DecodedPassword(password)), host))
  {
    PartsOfUrl(url, scheme, user, password, host);
    IndexOfAppend(user, ':', password);
  }

  /** Scheme, user and host part are unchanged, and percent-decoding the emitted password gives the
      decoded one back (the raw one when it was malformed) exactly when that has no space. */
  lemma EscapeIsFaithful(url: string, scheme: string, user: string, password: string, host: string)
    requires IsBytes(url) && HasPassword(url, scheme, user, password, host)
    ensures EscapeConnectionURL(url).Ok? && IsBytes(DecodedPassword(password))
    ensures var emitted := QueryEscape(DecodedPassword(password));
            HasPassword(EscapeConnectionURL(url).value, scheme, user, emitted, host)
            && (PathUnescape(emitted) == Some(DecodedPassword(password)) <==> ' ' !in DecodedPassword(password))
  {
    EscapeWithPassword(url, scheme, user, password, host);
    PartsOfUrl(url, scheme, user, password, host);
    var decoded := DecodedPassword(password);
    EscapedChars(decoded);
    UnescapeEscape(decoded);
    SpacesToPlusFixed(decoded);
    MatchAssembled(scheme, user + ":" + QueryEscape(decoded), host);
  }

  lemma AssembledBytes(scheme: string, user: string, password: string, host: string)
    requires IsBytes(scheme) && IsBytes(user) && IsBytes(password) && IsBytes(host)
    ensures IsBytes(Assemble(scheme, user, password, host))
  {
  }

  lemma AssembleInjective(scheme: string, user: string, a: string, b: string, host: string)
    requires Assemble(scheme, user, a, host) == Assemble(scheme, user, b, host)
    ensures a == b
  {
    var front, back := |scheme| + |user| + 1, |host| + 1;
    var x, y := Assemble(scheme, user, a, host), Assemble(scheme, user, b, host);
    assert |x| == front + |a| + back && |y| == front + |b| + back;
    assert a == x[front..|x| - back] && b == y[front..|y| - back];
  }

  /** Escaping twice equals escaping once, exactly when the decoded password has no space. */
  lemma EscapeTwice(url: string, scheme: string, user: string, password: string, host: string)
    requires IsBytes(url) && HasPassword(url, scheme, user, password, host)
    ensures EscapeConnectionURL(url).Ok? && IsBytes(EscapeConnectionURL(url).value)
    ensures EscapeConnectionURL(EscapeConnectionURL(url).value) == EscapeConnectionURL(url)
            <==> ' ' !in DecodedPassword(password)
  {
    EscapeIsFaithful(url, scheme, user, password, host);
    EscapeWithPassword(url, scheme, user, password, host);
    PartsOfUrl(url, scheme, user, password, host);
    var decoded := DecodedPassword(password);
    var emitted, out := QueryEscape(decoded), EscapeConnectionURL(url).value;
    EscapedChars(decoded);
    AssembledBytes(scheme, user, emitted, host);
    EscapeWithPassword(out, scheme, user, emitted, host);
    DecodeEmitted(decoded);
    SpacesToPlusFixed(decoded);
    EscapedChars(SpacesToPlus(decoded));
    if EscapeConnectionURL(out) == EscapeConnectionURL(url) {
      AssembleInjective(scheme, user, QueryEscape(SpacesToPlus(decoded)), emitted, host);
    }
  }

  lemma AssembledHas(user: string, password: string, host: string)
    requires user != "" && ':' !in user && '@' !in user && '@' !in password && host != "" && '\n' !in host
    ensures HasPassword(Assemble(SHORT, user, password, host), SHORT, user, password, host)
  {
    var userInfo := user + ":" + password;
    assert '@' !in userInfo;
    MatchAssembled(SHORT, userInfo, host);
  }

  /** A password that carries no escapes is encoded as it stands. */
  lemma EscapesTo(url: string, user: string, password: string, host: string)
    requires IsBytes(url) && HasPassword(url, SHORT, user, password, host) && '%' !in password
    ensures IsBytes(password) && EscapeConnectionURL(url) == Ok(Assemble(SHORT, user, QueryEscape(password), host))
  {
    PartsOfUrl(url, SHORT, user, password, host);
    EscapeWithPassword(url, SHORT, user, password, host);
  }

  /** A URL put together from plain parts. */
  predicate PutTogether(url: string, user: string, password: string, host: string) {
    && IsBytes(user) && IsBytes(password) && IsBytes(host) && user != "" && host != "" && '\n' !in host
    && ':' !in user && '@' !in user && '@' !in password && '%' !in password
    && url == Assemble(SHORT, user, password, host)
  }

  lemma PutTogetherHas(url: string, user: string, password: string, host: string)
    requires PutTogether(url, user, password, host)
    ensures IsBytes(url) && HasPassword(url, SHORT, user, password, host)
  {
    AssembledBytes(SHORT, user, password, host);
    AssembledHas(user, password, host);
  }

  lemma EscapesShort(url: string, user: string, password: string, host: string)
    requires PutTogether(url, user, password, host)
    ensures IsBytes(url) && EscapeConnectionURL(url) == Ok(Assemble(SHORT, user, QueryEscape(password), host))
  {
    PutTogetherHas(url, user, password, host);
    EscapesTo(url, user, password, host);
  }

  /** So the password `a b` comes out as `a+b`, and the next run encodes that again. */
  lemma SpaceIsLostHere(url: string, once: string)
    requires url == Assemble(SHORT, "u", "a b", "h") && once == Assemble(SHORT, "u", "a+b", "h")
    ensures IsBytes(url) && EscapeConnectionURL(url) == Ok(once)
    ensures IsBytes(once) && EscapeConnectionURL(once) == Ok(Assemble(SHORT, "u", "a%2Bb", "h"))
  {
    EscapesHere();
    EscapesShort(url, "u", "a b", "h");
    EscapesShort(once, "u", "a+b", "h");
  }

  lemma EscapeStep(c: char, rest: string)
    requires c < '\U{0100}' && IsBytes(rest)
    ensures QueryEscape([c] + rest) == EscapeByte(c) + QueryEscape(rest)
  {
    assert ([c] + rest)[1..] == rest;
  }

  lemma EscapeThree(a: char, b: char, c: char)
    requires a < '\U{0100}' && b < '\U{0100}' && c < '\U{0100}'
    ensures QueryEscape([a, b, c]) == EscapeByte(a) + (EscapeByte(b) + EscapeByte(c))
  {
    EscapeStep(c, "");
    EscapeStep(b, [c]);
    EscapeStep(a, [b, c]);
    assert [c] + "" == [c] && [b] + [c] == [b, c] && [a] + [b, c] == [a, b, c];
  }

  lemma EscapesHere()
    ensures QueryEscape("a b") == "a+b" && QueryEscape("a+b") == "a%2Bb"
  {
    EscapeThree('a', ' ', 'b');
    EscapeThree('a', '+', 'b');
  }

  // ---------- which characters, and which URLs ----------

  lemma EscapedByteLength(c: char)
    requires c < '\U{0100}'
    ensures |EscapeByte(c)| >= 1 && (EscapeByte(c)[0] == c && |EscapeByte(c)| == 1 <==> IsUnreserved(c))
    ensures forall x :: x in EscapeByte(c) ==> IsUnreserved(x) || x == '%' || x == '+'
  {
  }

  /** Letters, digits and four marks stand for themselves, and a space is one plus sign. */
  lemma EscapedAsOne(c: char)
    requires c < '\U{0100}'
    ensures |EscapeByte(c)| == 1 <==> 'a' <= c <= 'z' || 'A' <= c <= 'Z' || '0' <= c <= '9' || c in "-_.~ "
  {
  }

  /** Only unreserved characters, percent signs and plus signs come out. */
  lemma {:induction false} EscapedAlphabet(s: string)
    requires IsBytes(s)
    ensures |QueryEscape(s)| >= |s|
    ensures forall c :: c in QueryEscape(s) ==> IsUnreserved(c) || c == '%' || c == '+'
  {
    if s == "" {
    } else {
      EscapedAlphabet(s[1..]);
      EscapedByteLength(s[0]);
    }
  }

  lemma EscapedFirst(s: string)
    requires IsBytes(s) && s != ""
    ensures QueryEscape(s) == s <==> IsUnreserved(s[0]) && QueryEscape(s[1..]) == s[1..]
  {
    EscapedByteLength(s[0]);
    EscapedAlphabet(s[1..]);
    var e, rest := EscapeByte(s[0]), QueryEscape(s[1..]);
    if e + rest == s {
      assert |e| == 1 && (e + rest)[0] == e[0] && (e + rest)[1..] == rest;
    }
    if IsUnreserved(s[0]) {
      assert s == [s[0]] + s[1..];
    }
  }

  /** Exactly the passwords made of unreserved characters alone come out as they are. */
  lemma {:induction false} UnreservedStays(s: string)
    requires IsBytes(s)
    ensures QueryEscape(s) == s <==> forall i :: 0 <= i < |s| ==> IsUnreserved(s[i])
  {
    if s == "" {
    } else {
      EscapedFirst(s);
      UnreservedStays(s[1..]);
      assert forall i :: 0 < i < |s| ==> s[i] == s[1..][i - 1];
      assert forall i :: 0 <= i < |s| - 1 ==> s[1..][i] == s[i + 1];
    }
  }

  lemma WellFormed(scheme: string, userInfo: string, host: string)
    requires IsScheme(scheme) && '@' !in userInfo
    ensures MatchUrl(scheme + Authority(userInfo, host)) ==
            if userInfo == "" || host == "" || '\n' in host then None else Some(Parts(scheme, userInfo, host))
  {
    SchemeOf(scheme, Authority(userInfo, host));
    IndexOfAppend(userInfo, '@', host);
  }

  /** A URL is refused if the user information in front of the first at sign is empty or starts with a
      colon, or if the rest is empty or breaks the line; without a colon it is left alone. */
  lemma RefusedUrl(scheme: string, userInfo: string, host: string)
    requires IsScheme(scheme) && '@' !in userInfo && IsBytes(scheme + Authority(userInfo, host))
    ensures var url := scheme + Authority(userInfo, host);
            && (EscapeConnectionURL(url) == Err(InvalidURL)
                <==> userInfo == "" || userInfo[0] == ':' || host == "" || '\n' in host)
            && (EscapeConnectionURL(url).Ok? && ':' !in userInfo ==> EscapeConnectionURL(url) == Ok(url))
  {
    SchemeOf(scheme, Authority(userInfo, host));
    WellFormed(scheme, userInfo, host);
    assert userInfo != "" ==> (userInfo[0] == ':' <==> IndexOf(userInfo, ':') == 0);
  }

  /** So is one without an at sign; and whatever has another scheme is left alone. */
  lemma OtherUrl(scheme: string, rest: string)
    requires '@' !in rest && IsBytes(scheme + rest)
    ensures IsScheme(scheme) ==> EscapeConnectionURL(scheme + rest) == Err(InvalidURL)
    ensures !(LONG <= scheme + rest) && !(SHORT <= scheme + rest) ==>
              EscapeConnectionURL(scheme + rest) == Ok(scheme + rest)
  {
    if IsScheme(scheme) {
      SchemeOf(scheme, rest);
      assert IndexOf(rest, '@') == |rest|;
    }
  }
}
