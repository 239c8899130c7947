/** Custom masking: a range of positions, given absolutely or in percent, is hidden or shown. */
module Masking {
  import opened Text
  import Decimal

  /** The four optional bounds of the configuration. */
  datatype Params = Params(maskBegin: Option<string>, maskEnd: Option<string>,
                           unmaskBegin: Option<string>, unmaskEnd: Option<string>)

  datatype Bound = Bound(value: Decimal.Int64, absolute: bool)

  /** What the masking function closes over. */
  datatype Custom = Custom(begin: Bound, end: Bound, mask: bool)

  datatype MaskError = UsedTogether | Unreadable(parameter: string)

  function GetMaskingIndex(s: string): Option<Bound> {
    var percent := s != "" && s[|s| - 1] == '%';
    match Decimal.Atoi(if percent then s[..|s| - 1] else s)
    case Some(index) => Some(Bound(index, !percent))
    case None => None
  }

  function GetIntegerInRange(v: int, min: int, max: int): (r: int)
    requires min <= max
    ensures min <= r <= max
    ensures min <= v <= max ==> r == v
  {
    if v < min then min else if v > max then max else v
  }

  /** The bound that is set, or the default. */
  function Chosen(s: Option<string>, default: Bound): Option<Bound> {
    match s
    case None => Some(default)
    case Some(text) => GetMaskingIndex(text)
  }

  const WHOLE_BEGIN := Bound(0, false)
  const WHOLE_END := Bound(100, false)

  /** The configuration read by hand: one pair of bounds, and whether it hides or shows. */
  function Configured(p: Params): Result<Custom, MaskError> {
    var shows := p.unmaskBegin.Some? || p.unmaskEnd.Some?;
    if shows && (p.maskBegin.Some? || p.maskEnd.Some?) then Err(UsedTogether)
    else
      var begin := Chosen(if shows then p.unmaskBegin else p.maskBegin, WHOLE_BEGIN);
      var end := Chosen(if shows then p.unmaskEnd else p.maskEnd, WHOLE_END);
      if begin == None then Err(Unreadable(if shows then "unmask_begin" else "mask_begin"))
      else if end == None then Err(Unreadable(if shows then "unmask_end" else "mask_end"))
      else Ok(Custom(begin.value, end.value, !shows))
  }

  method GetCustomMaskingFn(p: Params) returns (r: Result<Custom, MaskError>)
    ensures r == Configured(p)
  {
    if (p.unmaskBegin.Some? || p.unmaskEnd.Some?) && (p.maskBegin.Some? || p.maskEnd.Some?) {
      return Err(UsedTogether);
    }
    var begin, end, mask := WHOLE_BEGIN, WHOLE_END, true;
    if p.unmaskBegin.Some? {
      mask := false;
      var b := GetMaskingIndex(p.unmaskBegin.value);
      if b == None { return Err(Unreadable("unmask_begin")); }
      begin := b.value;
    }
    if p.unmaskEnd.Some? {
      mask := false;
      var b := GetMaskingIndex(p.unmaskEnd.value);
      if b == None { return Err(Unreadable("unmask_end")); }
      end := b.value;
    }
    if p.maskBegin.Some? {
      var b := GetMaskingIndex(p.maskBegin.value);
      if b == None { return Err(Unreadable("mask_begin")); }
      begin := b.value;
    }
    if p.maskEnd.Some? {
      var b := GetMaskingIndex(p.maskEnd.value);
      if b == None { return Err(Unreadable("mask_end")); }
      end := b.value;
    }
    return Ok(Custom(begin, end, mask));
  }

  /** The position a bound stands for in a value of length `n`. */
  function Position(b: Bound, n: nat): (k: nat)
    ensures k <= n
  {
    if b.absolute then GetIntegerInRange(b.value, 0, n) else PercentOf(n, GetIntegerInRange(b.value, 0, 100))
  }

  function PercentOf(n: nat, percent: nat): (k: nat)
    requires percent <= 100
    ensures k <= n && (percent == 0 ==> k == 0) && (percent == 100 ==> k == n)
  {
    PercentWithin(n, percent);
    n * percent / 100
  }

  lemma PercentWithin(n: nat, percent: nat)
    requires percent <= 100
    ensures n * percent <= n * 100
  {
  }

  /** Whether position `i` of a value of length `n` is hidden: inside the range when masking,
      outside of it when unmasking, the range running from the lesser bound to the greater. */
  predicate Hides(c: Custom, n: nat, i: nat) {
    var a, b := Position(c.begin, n), Position(c.end, n);
    var inside := (if a <= b then a else b) <= i < (if a <= b then b else a);
    inside == c.mask
  }

  function Stars(n: nat): (s: string)
    ensures |s| == n && forall i :: 0 <= i < n ==> s[i] == '*'
  {
    seq(n, _ => '*')
  }

  /** The masking function itself. Position by position: a star where the configuration hides, the
      original byte elsewhere; the length is kept. */
  method Mask(c: Custom, v: string) returns (out: string)
    ensures out == Masked(c, v)
  {
    var beginIndex, endIndex := Position(c.begin, |v|), Position(c.end, |v|);
    if beginIndex > endIndex {
      beginIndex, endIndex := endIndex, beginIndex;
    }
    if c.mask {
      out := v[..beginIndex] + Stars(endIndex - beginIndex) + v[endIndex..];
    } else {
      out := Stars(beginIndex) + v[beginIndex..endIndex] + Stars(|v| - endIndex);
    }
  }

  function Masked(c: Custom, v: string): (out: string)
    ensures |out| == |v|
    ensures forall i :: 0 <= i < |v| ==> out[i] == if Hides(c, |v|, i) then '*' else v[i]
  {
    seq(|v|, i requires 0 <= i < |v| => if Hides(c, |v|, i) then '*' else v[i])
  }

  /** Masking a masked value changes nothing. */
  lemma MaskIdempotent(c: Custom, v: string)
    ensures Masked(c, Masked(c, v)) == Masked(c, v)
  {
    var once := Masked(c, v);
    forall i | 0 <= i < |v| ensures Masked(c, once)[i] == once[i] {
      assert Hides(c, |once|, i) == Hides(c, |v|, i);
    }
  }

  /** Swapping the two bounds changes nothing. */
  lemma BoundsCommute(c: Custom, v: string)
    ensures Masked(Custom(c.end, c.begin, c.mask), v) == Masked(c, v)
  {
  }

  /** The same bounds given for masking and for unmasking are read alike, and hide exactly
      complementary positions of every value: laid over each other, the two results give the
      value back and nothing but stars. */
  lemma MaskUnmaskComplement(begin: Option<string>, end: Option<string>, v: string)
    requires begin.Some? || end.Some?
    ensures var m, u := Configured(Params(begin, end, None, None)), Configured(Params(None, None, begin, end));
            m.Ok? == u.Ok?
            && (m.Ok? ==>
                  && (forall i :: 0 <= i < |v| ==> Hides(m.value, |v|, i) != Hides(u.value, |v|, i))
                  && (forall i :: 0 <= i < |v| ==>
                        multiset{Masked(m.value, v)[i], Masked(u.value, v)[i]} == multiset{v[i], '*'}))
  {
    var m, u := Configured(Params(begin, end, None, None)), Configured(Params(None, None, begin, end));
    if m.Ok? {
      assert u.value == m.value.(mask := false) && m.value.mask;
    }
  }

  /** Without any bound everything is hidden. */
  lemma DefaultHidesAll(v: string)
    ensures Configured(Params(None, None, None, None)).Ok?
    ensures Masked(Configured(Params(None, None, None, None)).value, v) == Stars(|v|)
  {
    var c := Configured(Params(None, None, None, None)).value;
    assert Position(c.begin, |v|) == 0 && Position(c.end, |v|) == |v|;
  }

  // ---------- which positions the texts of the bounds hide ----------

  /** Percentages are rounded down. */
  lemma PercentRounds(n: nat, percent: nat)
    requires percent <= 100
    ensures var k := PercentOf(n, percent); 100 * k <= n * percent < 100 * (k + 1)
  {
  }

  /** A number is a position, a number with a percent sign a part of the value. */
  lemma BoundOf(x: Decimal.Int64)
    ensures GetMaskingIndex(Decimal.FormatInt(x)) == Some(Bound(x, true))
    ensures GetMaskingIndex(Decimal.FormatInt(x) + "%") == Some(Bound(x, false))
  {
    var s := Decimal.FormatInt(x);
    Decimal.AtoiFormat(x);
    Decimal.FormatHasNo(x, '%');
    assert (s + "%")[..|s|] == s;
  }

  function TextOf(x: Option<Decimal.Int64>): Option<string> {
    match x
    case None => None
    case Some(k) => Some(Decimal.FormatInt(k))
  }

  function PositionOr(x: Option<Decimal.Int64>, default: Bound): Bound {
    if x.Some? then Bound(x.value, true) else default
  }

  lemma PositionChosen(x: Option<Decimal.Int64>, default: Bound)
    ensures Chosen(TextOf(x), default) == Some(PositionOr(x, default))
  {
    if x.Some? { BoundOf(x.value); }
  }

  lemma PositionsRead(p: Params, begin: Bound, end: Bound)
    requires p.unmaskBegin == None && p.unmaskEnd == None
    requires Chosen(p.maskBegin, WHOLE_BEGIN) == Some(begin) && Chosen(p.maskEnd, WHOLE_END) == Some(end)
    ensures Configured(p) == Ok(Custom(begin, end, true))
  {
  }

  /** Bounds given as positions: hidden from the first up to the second, or from the start or up to the
      end of the value where one is missing. */
  lemma MaskedPositions(begin: Option<Decimal.Int64>, end: Option<Decimal.Int64>, v: string, i: nat)
    requires i < |v| && (begin.Some? && end.Some? ==> begin.value <= end.value)
    ensures var c := Configured(Params(TextOf(begin), TextOf(end), None, None));
            c.Ok? && Masked(c.value, v)[i] ==
            if (begin.Some? ==> begin.value <= i) && (end.Some? ==> i < end.value) then '*' else v[i]
  {
    PositionChosen(begin, WHOLE_BEGIN);
    PositionChosen(end, WHOLE_END);
    PositionsRead(Params(TextOf(begin), TextOf(end), None, None),
                  PositionOr(begin, WHOLE_BEGIN), PositionOr(end, WHOLE_END));
  }

  lemma PercentPosition(n: nat, percent: nat, i: nat)
    requires percent <= 100
    ensures PercentOf(n, percent) <= i <==> n * percent < 100 * (i + 1)
  {
    PercentRounds(n, percent);
  }

  lemma HidesPercent(begin: nat, end: nat, n: nat, i: nat)
    requires begin <= end <= 100
    ensures Hides(Custom(Bound(begin, false), Bound(end, false), true), n, i) <==>
            PercentOf(n, begin) <= i < PercentOf(n, end)
  {
    PercentGrows(n, begin, end);
  }

  /** Both bounds given in percent: a byte is hidden exactly if it lies wholly before the second bound
      and not wholly before the first. */
  lemma MaskedPercentages(begin: nat, end: nat, v: string, i: nat)
    requires begin <= end <= 100 && i < |v|
    ensures var c := Configured(Params(Some(Decimal.FormatInt(begin) + "%"), Some(Decimal.FormatInt(end) + "%"),
                                       None, None));
            c.Ok? && Masked(c.value, v)[i] ==
            if |v| * begin < 100 * (i + 1) <= |v| * end then '*' else v[i]
  {
    var p := Params(Some(Decimal.FormatInt(begin) + "%"), Some(Decimal.FormatInt(end) + "%"), None, None);
    BoundOf(begin);
    BoundOf(end);
    PositionsRead(p, Bound(begin, false), Bound(end, false));
    HidesPercent(begin, end, |v|, i);
    PercentPosition(|v|, begin, i);
    PercentPosition(|v|, end, i);
  }

  lemma ProductGrows(n: nat, a: nat, b: nat)
    requires a <= b
    ensures n * a <= n * b
  {
  }

  lemma PercentGrows(n: nat, a: nat, b: nat)
    requires a <= b <= 100
    ensures PercentOf(n, a) <= PercentOf(n, b)
  {
    PercentRounds(n, a);
    PercentRounds(n, b);
    ProductGrows(n, a, b);
  }

  /** A configuration is refused exactly if it sets bounds of both kinds or one that cannot be read. */
  lemma Refused(p: Params)
    ensures Configured(p) == Err(UsedTogether) <==>
            (p.maskBegin.Some? || p.maskEnd.Some?) && (p.unmaskBegin.Some? || p.unmaskEnd.Some?)
    ensures Configured(p).Ok? <==>
            && !((p.maskBegin.Some? || p.maskEnd.Some?) && (p.unmaskBegin.Some? || p.unmaskEnd.Some?))
            && forall s :: s in [p.maskBegin, p.maskEnd, p.unmaskBegin, p.unmaskEnd] && s.Some? ==>
                 GetMaskingIndex(s.value).Some?
  {
    var all := [p.maskBegin, p.maskEnd, p.unmaskBegin, p.unmaskEnd];
    assert all[0] in all && all[1] in all && all[2] in all && all[3] in all;
  }
}
