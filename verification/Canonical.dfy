/**
 The canonical text of an action's arguments: canonical of
 dashboard/lib/confirm.js, with JSON.stringify on strings as code units, and the
 parser of section 7 of RFC 8259 that reads it back.
 */
module Canonical {
  import opened Wrappers

  /** A UTF-16 code unit. */
  type Unit = x: int | 0 <= x < 65536

  type Str = seq<Unit>

  const QUOTE: Unit := 34
  const COMMA: Unit := 44
  const COLON: Unit := 58
  const LBRACK: Unit := 91
  const BACKSLASH: Unit := 92
  const RBRACK: Unit := 93
  const SMALL_U: Unit := 117
  const LBRACE: Unit := 123
  const RBRACE: Unit := 125
  const NULL_TEXT: Str := [110, 117, 108, 108]
  const TRUE_TEXT: Str := [116, 114, 117, 101]
  const FALSE_TEXT: Str := [102, 97, 108, 115, 101]

  /**
   An argument as the daemon holds it. A finite number is given by the text it
   prints as; a number too large to be finite, and a missing value, print as null.
   An object's fields come in any order, no key twice.
   */
  datatype Json =
    | Null
    | Missing
    | NotFinite
    | Bool(b: bool)
    | Num(text: Str)
    | Text(s: Str)
    | Arr(items: seq<Json>)
    | Obj(fields: seq<Field>)

  datatype Field = Field(key: Str, value: Json)

  /** What an argument means: objects are maps. */
  datatype Value =
    | VNull
    | VBool(b: bool)
    | VNum(text: Str)
    | VText(s: Str)
    | VArr(items: seq<Value>)
    | VObj(fields: map<Str, Value>)

  predicate NumberUnit(c: Unit) {
    48 <= c <= 57 || c == 43 || c == 45 || c == 46 || c == 101
  }

  predicate NumberText(t: Str) {
    t != [] && forall c | c in t :: NumberUnit(c)
  }

  function KeysOf(fields: seq<Field>): (ks: seq<Str>)
    ensures |ks| == |fields|
  {
    seq(|fields|, i requires 0 <= i < |fields| => fields[i].key)
  }

  predicate Distinct(ks: seq<Str>) {
    forall i, j | 0 <= i < j < |ks| :: ks[i] != ks[j]
  }

  predicate WellFormed(j: Json) {
    match j
    case Num(t) => NumberText(t)
    case Arr(items) => forall i | 0 <= i < |items| :: WellFormed(items[i])
    case Obj(fields) => Distinct(KeysOf(fields)) && forall i | 0 <= i < |fields| :: WellFormed(fields[i].value)
    case _ => true
  }

  function IndexOf(ks: seq<Str>, k: Str): (i: nat)
    requires k in ks
    ensures i < |ks| && ks[i] == k
  {
    if ks[0] == k then 0 else 1 + IndexOf(ks[1..], k)
  }

  function Meaning(j: Json): Value {
    match j
    case Bool(b) => VBool(b)
    case Num(t) => VNum(t)
    case Text(s) => VText(s)
    case Arr(items) => VArr(seq(|items|, i requires 0 <= i < |items| => Meaning(items[i])))
    case Obj(fields) => VObj(map k | k in KeysOf(fields) :: Meaning(fields[IndexOf(KeysOf(fields), k)].value))
    case _ => VNull
  }

  // ---- strings ---------------------------------------------------------------------

  function HexDigit(d: nat): Unit
    requires d < 16
  {
    if d < 10 then 48 + d else 87 + d
  }

  function Hex(u: Unit): Str {
    [HexDigit(u / 4096), HexDigit(u / 256 % 16), HexDigit(u / 16 % 16), HexDigit(u % 16)]
  }

  predicate IsHigh(u: Unit) {
    0xD800 <= u < 0xDC00
  }

  predicate IsLow(u: Unit) {
    0xDC00 <= u < 0xE000
  }

  /** The letter after a backslash that stands for the unit, if it has one. */
  function Letter(u: Unit): Option<Unit> {
    if u == QUOTE || u == BACKSLASH then Some(u)
    else if u == 8 then Some(98)
    else if u == 9 then Some(116)
    else if u == 10 then Some(110)
    else if u == 12 then Some(102)
    else if u == 13 then Some(114)
    else None
  }

  function UnitOf(letter: Unit): Option<Unit> {
    if letter == QUOTE || letter == BACKSLASH || letter == 47 then Some(letter)
    else if letter == 98 then Some(8)
    else if letter == 116 then Some(9)
    else if letter == 110 then Some(10)
    else if letter == 102 then Some(12)
    else if letter == 114 then Some(13)
    else None
  }

  /** One unit by itself: control characters and halves of no pair are escaped. */
  function Escape(u: Unit): Str {
    if Letter(u).Some? then [BACKSLASH, Letter(u).value]
    else if u < 32 || IsHigh(u) || IsLow(u) then [BACKSLASH, SMALL_U] + Hex(u)
    else [u]
  }

  /** Written as itself is any unit but a quote, a backslash, a control character or half of a pair. */
  lemma EscapeMeans(u: Unit)
    ensures Escape(u) == [u] <==> u >= 32 && u != 34 && u != 92 && !(0xD800 <= u < 0xE000)
  {
  }

  function Escaped(s: Str): Str {
    if s == [] then []
    else if |s| > 1 && IsHigh(s[0]) && IsLow(s[1]) then [s[0], s[1]] + Escaped(s[2..])
    else Escape(s[0]) + Escaped(s[1..])
  }

  /** JSON.stringify of a string. */
  function Quoted(s: Str): Str {
    [QUOTE] + Escaped(s) + [QUOTE]
  }

  function HexValue(c: Unit): Option<nat> {
    if 48 <= c <= 57 then Some(c - 48) else if 97 <= c <= 102 then Some(c - 87)
      else if 65 <= c <= 70 then Some(c - 55) else None
  }

  function HexUnit(t: Str): (r: Option<Unit>)
    requires |t| == 4
  {
    var a, b, c, d := HexValue(t[0]), HexValue(t[1]), HexValue(t[2]), HexValue(t[3]);
    if a.Some? && b.Some? && c.Some? && d.Some? && a.value < 16 && b.value < 16 && c.value < 16 && d.value < 16
    then Some(a.value * 4096 + b.value * 256 + c.value * 16 + d.value) else None
  }

  /** The units of a string up to its closing quote, and what follows it. */
  function ReadUnits(t: Str): (r: Option<(Str, Str)>)
    ensures r.Some? ==> |r.value.1| < |t|
    decreases |t|
  {
    if t == [] then None
    else if t[0] == QUOTE then Some(([], t[1..]))
    else if t[0] != BACKSLASH then Then(t[0], ReadUnits(t[1..]))
    else if |t| < 2 then None
    else if UnitOf(t[1]).Some? then Then(UnitOf(t[1]).value, ReadUnits(t[2..]))
    else if t[1] == SMALL_U && |t| >= 6 && HexUnit(t[2..6]).Some? then Then(HexUnit(t[2..6]).value, ReadUnits(t[6..]))
    else None
  }

  function Then(u: Unit, r: Option<(Str, Str)>): Option<(Str, Str)> {
    if r.None? then None else Some(([u] + r.value.0, r.value.1))
  }

  lemma DigitReadsBack(d: nat)
    requires d < 16
    ensures HexValue(HexDigit(d)) == Some(d)
  {
  }

  lemma Nibbles(u: Unit)
    ensures u / 4096 < 16
    ensures u == u / 4096 * 4096 + u / 256 % 16 * 256 + u / 16 % 16 * 16 + u % 16
  {
    assert u / 256 == u / 4096 * 16 + u / 256 % 16;
    assert u / 16 == u / 256 * 16 + u / 16 % 16;
    assert u == u / 16 * 16 + u % 16;
  }

  lemma HexReadsBack(u: Unit)
    ensures HexUnit(Hex(u)) == Some(u)
  {
    Nibbles(u);
    DigitReadsBack(u / 4096);
    DigitReadsBack(u / 256 % 16);
    DigitReadsBack(u / 16 % 16);
    DigitReadsBack(u % 16);
  }

  lemma PlainReadsBack(u: Unit, rest: Str)
    requires u != QUOTE && u != BACKSLASH
    ensures ReadUnits([u] + rest) == Then(u, ReadUnits(rest))
  {
    assert ([u] + rest)[1..] == rest;
  }

  lemma LetterReadsBack(u: Unit, rest: Str)
    requires Letter(u).Some?
    ensures ReadUnits([BACKSLASH, Letter(u).value] + rest) == Then(u, ReadUnits(rest))
  {
    var t := [BACKSLASH, Letter(u).value] + rest;
    assert t[0] == BACKSLASH && t[1] == Letter(u).value && t[2..] == rest;
    assert UnitOf(t[1]) == Some(u);
  }

  lemma SixReadBack(u: Unit, rest: Str)
    ensures ReadUnits([BACKSLASH, SMALL_U] + Hex(u) + rest) == Then(u, ReadUnits(rest))
  {
    var t := [BACKSLASH, SMALL_U] + Hex(u) + rest;
    assert t[0] == BACKSLASH && t[1] == SMALL_U && UnitOf(t[1]).None?;
    assert t[2..6] == Hex(u) && t[6..] == rest;
    HexReadsBack(u);
  }

  lemma EscapeReadsBack(u: Unit, rest: Str)
    ensures ReadUnits(Escape(u) + rest) == Then(u, ReadUnits(rest))
  {
    if Letter(u).Some? {
      LetterReadsBack(u, rest);
    } else if u < 32 || IsHigh(u) || IsLow(u) {
      SixReadBack(u, rest);
    } else {
      PlainReadsBack(u, rest);
    }
  }

  lemma QuoteEnds(rest: Str)
    ensures ReadUnits([QUOTE] + rest) == Some(([], rest))
  {
    assert ([QUOTE] + rest)[1..] == rest;
  }

  lemma PairReadsBack(x: Unit, y: Unit, tail: Str, more: Str, rest: Str)
    requires IsHigh(x) && IsLow(y) && ReadUnits(more) == Some((tail, rest))
    ensures ReadUnits([x] + ([y] + more)) == Some(([x] + ([y] + tail), rest))
  {
    PlainReadsBack(y, more);
    PlainReadsBack(x, [y] + more);
  }

  lemma Assoc(a: Str, b: Str, c: Str)
    ensures a + b + c == a + (b + c)
  {
  }

  lemma TwoFirst(x: Unit, y: Unit, t: Str)
    ensures [x, y] + t == [x] + ([y] + t)
  {
  }

  lemma PairText(s: Str, end: Str)
    requires |s| > 1 && IsHigh(s[0]) && IsLow(s[1])
    ensures Escaped(s) + end == [s[0]] + ([s[1]] + (Escaped(s[2..]) + end)) && s == [s[0]] + ([s[1]] + s[2..])
  {
    PairParts(s);
    Assoc([s[0], s[1]], Escaped(s[2..]), end);
    TwoFirst(s[0], s[1], Escaped(s[2..]) + end);
  }

  lemma PairParts(s: Str)
    requires |s| > 1
    ensures s == [s[0]] + ([s[1]] + s[2..])
  {
  }

  lemma SingleText(s: Str, end: Str)
    requires s != [] && !(|s| > 1 && IsHigh(s[0]) && IsLow(s[1]))
    ensures Escaped(s) + end == Escape(s[0]) + (Escaped(s[1..]) + end) && s == [s[0]] + s[1..]
  {
    Assoc(Escape(s[0]), Escaped(s[1..]), end);
  }

  /** Any string, whole pairs and halves alike, is read back from its quoted form. */
  lemma {:induction false} StringReadsBack(s: Str, rest: Str)
    ensures ReadUnits(Escaped(s) + ([QUOTE] + rest)) == Some((s, rest))
    decreases |s|
  {
    var end := [QUOTE] + rest;
    if s == [] {
      assert Escaped(s) + end == end;
      QuoteEnds(rest);
    } else if |s| > 1 && IsHigh(s[0]) && IsLow(s[1]) {
      StringReadsBack(s[2..], rest);
      PairReadsBack(s[0], s[1], s[2..], Escaped(s[2..]) + end, rest);
      PairText(s, end);
    } else {
      StringReadsBack(s[1..], rest);
      EscapeReadsBack(s[0], Escaped(s[1..]) + end);
      SingleText(s, end);
    }
  }
}
