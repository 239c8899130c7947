/** Reading runes from bytes as Go's `utf8.DecodeRune` does: well-formed sequences as in
    sections 3 and 4 of RFC 3629, and the replacement rune for one byte of anything else. */
module Utf8 {

  type Byte = x: int | 0 <= x < 256

  const RUNE_ERROR: nat := 0xFFFD

  predicate IsTail(b: Byte) {
    0x80 <= b <= 0xBF
  }

  /** The allowed second bytes after a lead byte of a three- or four-byte sequence. */
  predicate SecondFits(lead: Byte, second: Byte) {
    if lead == 0xE0 then 0xA0 <= second <= 0xBF
    else if lead == 0xED then 0x80 <= second <= 0x9F
    else if lead == 0xF0 then 0x90 <= second <= 0xBF
    else if lead == 0xF4 then 0x80 <= second <= 0x8F
    else IsTail(second)
  }

  /** Six more bits from a continuation byte. */
  function Shift(high: nat, tail: Byte): nat
    requires IsTail(tail)
  {
    high * 64 + (tail as int - 0x80)
  }

  /** The continuation byte of a value's six lowest bits. */
  function Tail(v: nat): Byte {
    0x80 + v % 64
  }

  datatype Rune = Rune(value: nat, width: nat)

  function DecodeRune(s: seq<Byte>): (r: Rune)
    requires s != []
    ensures 1 <= r.width <= |s|
    ensures r.value < 0x80 <==> s[0] < 0x80
    ensures r.value < 0x80 ==> r == Rune(s[0], 1)
  {
    if s[0] < 0x80 then Rune(s[0], 1)
    else if 0xC2 <= s[0] <= 0xDF && |s| >= 2 && IsTail(s[1]) then
      Rune(Shift(s[0] as int - 0xC0, s[1]), 2)
    else if 0xE0 <= s[0] <= 0xEF && |s| >= 3 && SecondFits(s[0], s[1]) && IsTail(s[2]) then
      Rune(Shift(Shift(s[0] as int - 0xE0, s[1]), s[2]), 3)
    else if 0xF0 <= s[0] <= 0xF4 && |s| >= 4 && SecondFits(s[0], s[1]) && IsTail(s[2]) && IsTail(s[3]) then
      Rune(Shift(Shift(Shift(s[0] as int - 0xF0, s[1]), s[2]), s[3]), 4)
    else Rune(RUNE_ERROR, 1)
  }

  /** The runes read from position `pos` on. */
  function RunesFrom(s: seq<Byte>, pos: nat): (rs: seq<nat>)
    requires pos <= |s|
    ensures |rs| <= |s| - pos
    decreases |s| - pos
  {
    if pos == |s| then []
    else
      var r := DecodeRune(s[pos..]);
      [r.value] + RunesFrom(s, pos + r.width)
  }

  function Runes(s: seq<Byte>): (rs: seq<nat>)
    ensures |rs| <= |s|
  {
    RunesFrom(s, 0)
  }

  /** From index `k` on, `starts` says where the runes of `all` start in the text, and where it ends. */
  predicate StartsFrom(s: seq<Byte>, all: seq<nat>, starts: seq<nat>, k: nat)
    requires |starts| == |all| + 1
    decreases |all| - k
  {
    if k >= |all| then k == |all| && starts[k] == |s|
    else
      && starts[k] < |s| && starts[k] < starts[k + 1]
      && DecodeRune(s[starts[k]..]) == Rune(all[k], starts[k + 1] - starts[k])
      && StartsFrom(s, all, starts, k + 1)
  }

  lemma {:induction false} StartsLater(s: seq<Byte>, all: seq<nat>, starts: seq<nat>, k: nat, i: nat)
    requires |starts| == |all| + 1 && StartsFrom(s, all, starts, k) && k <= i <= |all|
    ensures StartsFrom(s, all, starts, i)
    decreases i - k
  {
    if k == i {
    } else {
      StartsLater(s, all, starts, k + 1, i);
    }
  }

  lemma {:induction false} RunesStart(s: seq<Byte>, all: seq<nat>, k: nat, pos: nat) returns (starts: seq<nat>)
    requires pos <= |s| && k <= |all| && all[k..] == RunesFrom(s, pos)
    ensures |starts| == |all| + 1 && starts[k] == pos && StartsFrom(s, all, starts, k)
    decreases |s| - pos
  {
    if pos == |s| {
      starts := seq(|all| + 1, i => pos);
    } else {
      assert all[k] == all[k..][0] && all[k + 1..] == all[k..][1..];
      starts := RunesStart(s, all, k + 1, pos + DecodeRune(s[pos..]).width);
      ghost var later := starts;
      starts := starts[k := pos];
      SameStarts(s, all, later, starts, k + 1);
    }
  }

  lemma {:induction false} SameStarts(s: seq<Byte>, all: seq<nat>, a: seq<nat>, b: seq<nat>, k: nat)
    requires |a| == |b| == |all| + 1 && k <= |all| && (forall i :: k <= i <= |all| ==> a[i] == b[i])
    requires StartsFrom(s, all, a, k)
    ensures StartsFrom(s, all, b, k)
    decreases |all| - k
  {
    if k == |all| {
    } else {
      SameStarts(s, all, a, b, k + 1);
    }
  }

  /** Unicode scalar values: everything up to U+10FFFF except the surrogates. */
  predicate IsScalar(v: nat) {
    v < 0xD800 || 0xE000 <= v < 0x110000
  }

  function EncodeRune(v: nat): seq<Byte>
    requires IsScalar(v)
  {
    var v1 := v / 64;
    var v2 := v1 / 64;
    if v < 0x80 then [v]
    else if v < 0x800 then [0xC0 + v1, Tail(v)]
    else if v < 0x10000 then [0xE0 + v2, Tail(v1), Tail(v)]
    else [0xF0 + v2 / 64, Tail(v2), Tail(v1), Tail(v)]
  }

  lemma ShiftTail(v: nat)
    ensures IsTail(Tail(v)) && Shift(v / 64, Tail(v)) == v
  {
  }

  lemma TailShift(high: nat, tail: Byte)
    requires IsTail(tail)
    ensures Shift(high, tail) / 64 == high && Tail(Shift(high, tail)) == tail
  {
  }

  /** The decoder reads back every encoded scalar value, whatever follows. */
  lemma DecodeEncode(v: nat, rest: seq<Byte>)
    requires IsScalar(v)
    ensures DecodeRune(EncodeRune(v) + rest) == Rune(v, |EncodeRune(v)|)
  {
    var e := EncodeRune(v);
    var s := e + rest;
    var v1 := v / 64;
    var v2 := v1 / 64;
    ShiftTail(v);
    ShiftTail(v1);
    ShiftTail(v2);
    if v < 0x80 {
      assert s[0] == e[0];
    } else if v < 0x800 {
      assert s[0] == 0xC0 + v1 && s[1] == Tail(v);
    } else if v < 0x10000 {
      assert s[0] == 0xE0 + v2 && s[1] == Tail(v1) && s[2] == Tail(v);
    } else {
      assert s[0] == 0xF0 + v2 / 64 && s[1] == Tail(v2) && s[2] == Tail(v1) && s[3] == Tail(v);
    }
  }

  lemma Encode2(a: Byte, b: Byte)
    requires 0xC2 <= a <= 0xDF && IsTail(b)
    ensures var v := Shift(a as int - 0xC0, b); IsScalar(v) && EncodeRune(v) == [a, b]
  {
    TailShift(a as int - 0xC0, b);
  }

  lemma Encode3(a: Byte, b: Byte, c: Byte)
    requires 0xE0 <= a <= 0xEF && SecondFits(a, b) && IsTail(c)
    ensures var v := Shift(Shift(a as int - 0xE0, b), c); IsScalar(v) && EncodeRune(v) == [a, b, c]
  {
    var v1 := Shift(a as int - 0xE0, b);
    TailShift(a as int - 0xE0, b);
    TailShift(v1, c);
  }

  /** A value above the shorter forms is encoded by its four digits to base 64. */
  lemma EncodeLong(v: nat, v1: nat, v2: nat, v3: nat)
    requires 0x10000 <= v < 0x110000 && v / 64 == v1 && v1 / 64 == v2 && v2 / 64 == v3
    ensures IsScalar(v) && v3 < 5 && EncodeRune(v) == [0xF0 + v3, Tail(v2), Tail(v1), Tail(v)]
  {
  }

  /** `v` is made of the digits `high` and `tail`. */
  predicate Made(v: nat, high: nat, tail: Byte) {
    v / 64 == high && Tail(v) == tail
  }

  lemma ShiftMade(high: nat, tail: Byte, low: nat, top: nat)
    requires IsTail(tail) && low <= high < top
    ensures Made(Shift(high, tail), high, tail) && low * 64 <= Shift(high, tail) < top * 64
  {
    TailShift(high, tail);
  }

  lemma EncodeMade(v: nat, v1: nat, v2: nat, v3: nat, b: Byte, c: Byte, d: Byte)
    requires 0x10000 <= v < 0x110000 && Made(v, v1, d) && Made(v1, v2, c) && Made(v2, v3, b)
    ensures IsScalar(v) && v3 < 5 && EncodeRune(v) == [0xF0 + v3, b, c, d]
  {
    EncodeLong(v, v1, v2, v3);
  }

  /** The last two digits, below a first part of a long value. */
  lemma EncodeLow(v3: nat, v2: nat, b: Byte, c: Byte, d: Byte)
    requires 16 <= v2 < 272 && Made(v2, v3, b) && IsTail(c) && IsTail(d)
    ensures var v := Shift(Shift(v2, c), d); IsScalar(v) && v3 < 5 && EncodeRune(v) == [0xF0 + v3, b, c, d]
  {
    ShiftMade(v2, c, 16, 272);
    EncodeLast(v3, v2, Shift(v2, c), b, c, d);
  }

  lemma EncodeLast(v3: nat, v2: nat, v1: nat, b: Byte, c: Byte, d: Byte)
    requires 0x400 <= v1 < 0x4400 && Made(v1, v2, c) && Made(v2, v3, b) && IsTail(d)
    ensures var v := Shift(v1, d); IsScalar(v) && v3 < 5 && EncodeRune(v) == [0xF0 + v3, b, c, d]
  {
    ShiftMade(v1, d, 0x400, 0x4400);
    EncodeMade(Shift(v1, d), v1, v2, v3, b, c, d);
  }

  lemma Encode4(v3: nat, b: Byte, c: Byte, d: Byte)
    requires v3 <= 4 && SecondFits(0xF0 + v3, b) && IsTail(b) && IsTail(c) && IsTail(d)
    ensures var v := Shift(Shift(Shift(v3, b), c), d); IsScalar(v) && EncodeRune(v) == [0xF0 + v3, b, c, d]
  {
    ShiftMade(v3, b, 0, 5);
    EncodeLow(v3, Shift(v3, b), b, c, d);
  }

  /** And everything it reads as more than a stray byte is what the encoder writes: exactly the
      well-formed sequences are taken whole. */
  lemma EncodeDecode(s: seq<Byte>)
    requires s != []
    ensures var r := DecodeRune(s);
            r.width > 1 || s[0] < 0x80 ==> IsScalar(r.value) && EncodeRune(r.value) == s[..r.width]
  {
    var w := DecodeRune(s).width;
    if w == 2 {
      Encode2(s[0], s[1]);
      assert s[..2] == [s[0], s[1]];
    } else if w == 3 {
      Encode3(s[0], s[1], s[2]);
      assert s[..3] == [s[0], s[1], s[2]];
    } else if w == 4 {
      Encode4(s[0] as int - 0xF0, s[1], s[2], s[3]);
      assert s[..4] == [s[0], s[1], s[2], s[3]];
    }
  }

  /** A byte that starts no encoded scalar value is read alone, as the replacement rune. */
  lemma StrayByte(s: seq<Byte>)
    requires s != []
    ensures (forall v: nat :: IsScalar(v) ==> !(EncodeRune(v) <= s)) ==> DecodeRune(s) == Rune(0xFFFD, 1)
  {
    var r := DecodeRune(s);
    EncodeDecode(s);
    if r.width > 1 || s[0] < 0x80 {
      assert IsScalar(r.value) && EncodeRune(r.value) <= s;
    }
  }
}
