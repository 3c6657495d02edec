/**
 canonical of dashboard/lib/confirm.js on whole argument trees, and the reader
 that shows its text tells the tree's meaning, up to the order of object keys.
 */
module CanonicalText {
  import opened Wrappers
  import opened Canonical

  datatype Pair = Pair(key: Str, text: Str)

  /** Code unit order, as sort() has it. */
  predicate Before(a: Str, b: Str) {
    if a == [] then b != []
    else if b == [] then false
    else if a[0] != b[0] then a[0] < b[0]
    else Before(a[1..], b[1..])
  }

  function Insert(p: Pair, ps: seq<Pair>): (r: seq<Pair>)
    ensures |r| == |ps| + 1
  {
    if ps == [] || Before(p.key, ps[0].key) then [p] + ps else [ps[0]] + Insert(p, ps[1..])
  }

  function Sort(ps: seq<Pair>): (r: seq<Pair>)
    ensures |r| == |ps|
  {
    if ps == [] then [] else Insert(ps[0], Sort(ps[1..]))
  }

  function Joined(ts: seq<Str>): Str {
    if ts == [] then [] else if |ts| == 1 then ts[0] else ts[0] + ([COMMA] + Joined(ts[1..]))
  }

  function PairText(p: Pair): Str {
    Quoted(p.key) + ([COLON] + p.text)
  }

  function PairTexts(ps: seq<Pair>): (ts: seq<Str>)
    ensures |ts| == |ps|
  {
    seq(|ps|, i requires 0 <= i < |ps| => PairText(ps[i]))
  }

  function Canon(j: Json): Str {
    match j
    case Bool(b) => if b then TRUE_TEXT else FALSE_TEXT
    case Num(t) => t
    case Text(s) => Quoted(s)
    case Arr(items) => [LBRACK] + Joined(seq(|items|, i requires 0 <= i < |items| => Canon(items[i]))) + [RBRACK]
    case Obj(fields) =>
      var pairs := seq(|fields|, i requires 0 <= i < |fields| => Pair(fields[i].key, Canon(fields[i].value)));
      [LBRACE] + Joined(PairTexts(Sort(pairs))) + [RBRACE]
    case _ => NULL_TEXT
  }

  function ItemTexts(items: seq<Json>): (ts: seq<Str>)
    ensures |ts| == |items|
  {
    seq(|items|, i requires 0 <= i < |items| => Canon(items[i]))
  }

  function PairsOf(fields: seq<Field>): (ps: seq<Pair>)
    ensures |ps| == |fields|
  {
    seq(|fields|, i requires 0 <= i < |fields| => Pair(fields[i].key, Canon(fields[i].value)))
  }

  lemma CanonOfTrees(j: Json)
    ensures j.Arr? ==> Canon(j) == [LBRACK] + Joined(ItemTexts(j.items)) + [RBRACK]
    ensures j.Obj? ==> Canon(j) == [LBRACE] + Joined(PairTexts(Sort(PairsOf(j.fields)))) + [RBRACE]
  {
    match j
    case Arr(items) =>
      assert ItemTexts(items) == seq(|items|, i requires 0 <= i < |items| => Canon(items[i]));
    case Obj(fields) =>
      assert PairsOf(fields)
        == seq(|fields|, i requires 0 <= i < |fields| => Pair(fields[i].key, Canon(fields[i].value)));
    case _ =>
  }

  // ---- reading ---------------------------------------------------------------------

  predicate Starts(t: Str, prefix: Str) {
    |prefix| <= |t| && t[..|prefix|] == prefix
  }

  function NumberRun(t: Str): (n: nat)
    ensures n <= |t|
  {
    if t == [] || !NumberUnit(t[0]) then 0 else 1 + NumberRun(t[1..])
  }

  function ParseValue(t: Str): (r: Option<(Value, Str)>)
    ensures r.Some? ==> |r.value.1| < |t|
    decreases |t|, 0
  {
    if t == [] then None
    else if t[0] == QUOTE then
      var s := ReadUnits(t[1..]);
      if s.Some? then Some((VText(s.value.0), s.value.1)) else None
    else if t[0] == LBRACK then
      if |t| > 1 && t[1] == RBRACK then Some((VArr([]), t[2..]))
      else
        var items := ParseItems(t[1..]);
        if items.Some? then Some((VArr(items.value.0), items.value.1)) else None
    else if t[0] == LBRACE then
      if |t| > 1 && t[1] == RBRACE then Some((VObj(map[]), t[2..]))
      else
        var fields := ParseFields(t[1..]);
        if fields.Some? then Some((VObj(fields.value.0), fields.value.1)) else None
    else if Starts(t, NULL_TEXT) then Some((VNull, t[4..]))
    else if Starts(t, TRUE_TEXT) then Some((VBool(true), t[4..]))
    else if Starts(t, FALSE_TEXT) then Some((VBool(false), t[5..]))
    else if NumberRun(t) > 0 then Some((VNum(t[..NumberRun(t)]), t[NumberRun(t)..]))
    else None
  }

  function ParseItems(t: Str): (r: Option<(seq<Value>, Str)>)
    ensures r.Some? ==> |r.value.1| < |t|
    decreases |t|, 1
  {
    var v := ParseValue(t);
    if v.None? || v.value.1 == [] then None
    else if v.value.1[0] == RBRACK then Some(([v.value.0], v.value.1[1..]))
    else if v.value.1[0] != COMMA then None
    else
      var more := ParseItems(v.value.1[1..]);
      if more.Some? then Some(([v.value.0] + more.value.0, more.value.1)) else None
  }

  function ParseFields(t: Str): (r: Option<(map<Str, Value>, Str)>)
    ensures r.Some? ==> |r.value.1| < |t|
    decreases |t|, 1
  {
    if t == [] || t[0] != QUOTE then None
    else
      var key := ReadUnits(t[1..]);
      if key.None? || key.value.1 == [] || key.value.1[0] != COLON then None
      else
        var v := ParseValue(key.value.1[1..]);
        if v.None? || v.value.1 == [] then None
        else if v.value.1[0] == RBRACE then Some((map[key.value.0 := v.value.0], v.value.1[1..]))
        else if v.value.1[0] != COMMA then None
        else
          var more := ParseFields(v.value.1[1..]);
          if more.Some? then Some((more.value.0[key.value.0 := v.value.0], more.value.1)) else None
  }

  /** What may follow a value: nothing that could still belong to a number. */
  predicate Ended(rest: Str) {
    rest == [] || !NumberUnit(rest[0])
  }

  // ---- leaves ------------------------------------------------------------------------

  lemma {:induction false} RunOfNumber(t: Str, rest: Str)
    requires (forall c | c in t :: NumberUnit(c)) && Ended(rest)
    ensures NumberRun(t + rest) == |t|
  {
    if t == [] {
      assert t + rest == rest;
    } else {
      assert t[0] in t && (t + rest)[1..] == t[1..] + rest;
      RunOfNumber(t[1..], rest);
    }
  }

  lemma NumberReadsBack(t: Str, rest: Str)
    requires NumberText(t) && Ended(rest)
    ensures ParseValue(t + rest) == Some((VNum(t), rest))
  {
    var all := t + rest;
    assert t[0] in t && all[0] == t[0];
    RunOfNumber(t, rest);
    assert all[..|t|] == t && all[|t|..] == rest;
    assert all[0] != NULL_TEXT[0] && all[0] != TRUE_TEXT[0] && all[0] != FALSE_TEXT[0];
    assert !Starts(all, NULL_TEXT) by { StartsFirst(all, NULL_TEXT); }
    assert !Starts(all, TRUE_TEXT) by { StartsFirst(all, TRUE_TEXT); }
    assert !Starts(all, FALSE_TEXT) by { StartsFirst(all, FALSE_TEXT); }
  }

  lemma StartsFirst(t: Str, prefix: Str)
    requires prefix != []
    ensures Starts(t, prefix) ==> t != [] && t[0] == prefix[0]
  {
    if Starts(t, prefix) {
      assert t[..|prefix|][0] == t[0];
    }
  }

  lemma WordReadsBack(word: Str, rest: Str)
    requires word == NULL_TEXT || word == TRUE_TEXT || word == FALSE_TEXT
    ensures ParseValue(word + rest) ==
      Some((if word == NULL_TEXT then VNull else VBool(word == TRUE_TEXT), rest))
  {
    var t := word + rest;
    assert t[..|word|] == word && t[|word|..] == rest && t[0] == word[0];
    if word != NULL_TEXT {
      StartsFirst(t, NULL_TEXT);
    }
    if word == FALSE_TEXT {
      StartsFirst(t, TRUE_TEXT);
    }
  }

  lemma TextReadsBack(s: Str, rest: Str)
    ensures ParseValue(Quoted(s) + rest) == Some((VText(s), rest))
  {
    var t := Quoted(s) + rest;
    assert t[0] == QUOTE && t[1..] == Escaped(s) + ([QUOTE] + rest);
    StringReadsBack(s, rest);
  }

  /** A value's text begins with nothing that closes, and is not empty. */
  lemma FirstUnit(j: Json)
    requires WellFormed(j)
    ensures Canon(j) != [] && Canon(j)[0] != RBRACK && Canon(j)[0] != RBRACE
  {
    if j.Num? {
      assert j.text[0] in j.text;
    }
  }

  // ---- lists and objects, one element at a time ------------------------------------------

  lemma ItemsLast(v: Value, text: Str, rest: Str)
    requires ParseValue(text + ([RBRACK] + rest)) == Some((v, [RBRACK] + rest))
    ensures ParseItems(text + ([RBRACK] + rest)) == Some(([v], rest))
  {
    assert ([RBRACK] + rest)[1..] == rest;
  }

  lemma ItemsMore(v: Value, text: Str, vs: seq<Value>, more: Str, rest: Str)
    requires ParseValue(text + ([COMMA] + more)) == Some((v, [COMMA] + more))
    requires ParseItems(more) == Some((vs, rest))
    ensures ParseItems(text + ([COMMA] + more)) == Some(([v] + vs, rest))
  {
    assert ([COMMA] + more)[1..] == more;
  }

  /** The key of a field and its colon lead to its value. */
  lemma FieldOpens(p: Pair, next: Str)
    ensures var t := PairText(p) + next;
      t != [] && t[0] == QUOTE && ReadUnits(t[1..]) == Some((p.key, [COLON] + (p.text + next)))
  {
    var t := PairText(p) + next;
    assert t[1..] == Escaped(p.key) + ([QUOTE] + ([COLON] + (p.text + next)));
    StringReadsBack(p.key, [COLON] + (p.text + next));
  }

  lemma FieldsLast(p: Pair, v: Value, rest: Str)
    requires ParseValue(p.text + ([RBRACE] + rest)) == Some((v, [RBRACE] + rest))
    ensures ParseFields(PairText(p) + ([RBRACE] + rest)) == Some((map[p.key := v], rest))
  {
    var next := [RBRACE] + rest;
    FieldOpens(p, next);
    assert ([COLON] + (p.text + next))[1..] == p.text + next && next[1..] == rest;
  }

  lemma FieldsMore(p: Pair, v: Value, m: map<Str, Value>, more: Str, rest: Str)
    requires ParseValue(p.text + ([COMMA] + more)) == Some((v, [COMMA] + more))
    requires ParseFields(more) == Some((m, rest))
    ensures ParseFields(PairText(p) + ([COMMA] + more)) == Some((m[p.key := v], rest))
  {
    var next := [COMMA] + more;
    FieldOpens(p, next);
    assert ([COLON] + (p.text + next))[1..] == p.text + next && next[1..] == more;
  }

  lemma JoinedOne(ts: seq<Str>, end: Str)
    requires |ts| == 1
    ensures Joined(ts) + end == ts[0] + end
  {
  }

  lemma JoinedMore(ts: seq<Str>, end: Str)
    requires |ts| > 1
    ensures Joined(ts) + end == ts[0] + ([COMMA] + (Joined(ts[1..]) + end))
  {
    Assoc(ts[0], [COMMA] + Joined(ts[1..]), end);
    Assoc([COMMA], Joined(ts[1..]), end);
  }

  // ---- sorting the keys -------------------------------------------------------------------

  lemma {:induction false} InsertHolds(p: Pair, ps: seq<Pair>)
    ensures forall q :: q in Insert(p, ps) <==> q == p || q in ps
  {
    if ps != [] && !Before(p.key, ps[0].key) {
      assert ps == [ps[0]] + ps[1..];
      InsertHolds(p, ps[1..]);
    }
  }

  lemma {:induction false} SortHolds(ps: seq<Pair>)
    ensures forall q :: q in Sort(ps) <==> q in ps
  {
    if ps != [] {
      assert ps == [ps[0]] + ps[1..];
      SortHolds(ps[1..]);
      InsertHolds(ps[0], Sort(ps[1..]));
    }
  }

  lemma {:induction false} BeforeIsStrict(a: Str, b: Str)
    ensures Before(a, b) ==> !Before(b, a) && a != b
    ensures a != b ==> Before(a, b) || Before(b, a)
  {
    if a != [] && b != [] && a[0] == b[0] {
      BeforeIsStrict(a[1..], b[1..]);
      assert a == [a[0]] + a[1..] && b == [b[0]] + b[1..];
    }
  }

  lemma {:induction false} BeforeChains(a: Str, b: Str, c: Str)
    requires Before(a, b) && Before(b, c)
    ensures Before(a, c)
  {
    if a != [] && b != [] && c != [] && a[0] == b[0] == c[0] {
      BeforeChains(a[1..], b[1..], c[1..]);
    }
  }

  /** Every key comes before all keys after it. */
  ghost predicate Ascending(ps: seq<Pair>) {
    ps != [] ==> (forall q | q in ps[1..] :: Before(ps[0].key, q.key)) && Ascending(ps[1..])
  }

  lemma {:induction false} InsertAscends(p: Pair, ps: seq<Pair>)
    requires Ascending(ps) && forall q | q in ps :: q.key != p.key
    ensures Ascending(Insert(p, ps))
  {
    if ps != [] {
      assert ps == [ps[0]] + ps[1..] && ps[0] in ps;
      if Before(p.key, ps[0].key) {
        forall q | q in ps ensures Before(p.key, q.key) {
          if q != ps[0] {
            BeforeChains(p.key, ps[0].key, q.key);
          }
        }
        assert ([p] + ps)[1..] == ps;
      } else {
        BeforeIsStrict(p.key, ps[0].key);
        InsertAscends(p, ps[1..]);
        InsertHolds(p, ps[1..]);
        assert Insert(p, ps)[1..] == Insert(p, ps[1..]);
      }
    }
  }

  /** No key twice. */
  ghost predicate KeysApart(ps: seq<Pair>) {
    ps != [] ==> (forall q | q in ps[1..] :: q.key != ps[0].key) && KeysApart(ps[1..])
  }

  lemma {:induction false} SortAscends(ps: seq<Pair>)
    requires KeysApart(ps)
    ensures Ascending(Sort(ps))
  {
    if ps != [] {
      SortAscends(ps[1..]);
      SortHolds(ps[1..]);
      InsertAscends(ps[0], Sort(ps[1..]));
    }
  }

  lemma EmptyIff(qs: seq<Pair>)
    ensures qs == [] <==> forall q :: q !in qs
  {
    if qs != [] {
      assert qs[0] in qs;
    }
  }

  /** Ascending pairs are told by which pairs they are. */
  lemma {:induction false} AscendingIsUnique(ps: seq<Pair>, qs: seq<Pair>)
    requires Ascending(ps) && Ascending(qs) && forall p :: p in ps <==> p in qs
    ensures ps == qs
  {
    if ps == [] {
      EmptyIff(qs);
    } else {
      assert ps[0] in ps;
      assert ps == [ps[0]] + ps[1..] && qs == [qs[0]] + qs[1..];
      assert qs[0] in qs;
      if ps[0] != qs[0] {
        assert ps[0] in qs[1..] && qs[0] in ps[1..];
        BeforeIsStrict(ps[0].key, qs[0].key);
      }
      forall p ensures p in ps[1..] <==> p in qs[1..] {
        BeforeIsStrict(ps[0].key, p.key);
        assert p in ps[1..] ==> p in ps && p in qs;
        assert p in qs[1..] ==> p in qs && p in ps;
      }
      AscendingIsUnique(ps[1..], qs[1..]);
    }
  }

  lemma {:induction false} FieldsApart(fields: seq<Field>)
    requires Distinct(KeysOf(fields))
    ensures KeysApart(PairsOf(fields))
  {
    if fields != [] {
      var rest := fields[1..];
      forall i, j | 0 <= i < j < |rest| ensures KeysOf(rest)[i] != KeysOf(rest)[j] {
        assert KeysOf(rest)[i] == KeysOf(fields)[i + 1] && KeysOf(rest)[j] == KeysOf(fields)[j + 1];
      }
      FieldsApart(rest);
      assert PairsOf(fields)[1..] == PairsOf(rest);
      forall q | q in PairsOf(rest) ensures q.key != PairsOf(fields)[0].key {
        var i :| 0 <= i < |rest| && PairsOf(rest)[i] == q;
        assert KeysOf(fields)[i + 1] == q.key && KeysOf(fields)[0] == PairsOf(fields)[0].key;
      }
    }
  }

  // ---- reading a tree back ------------------------------------------------------------------

  /** The field a key names. */
  function ValueOf(fields: seq<Field>, k: Str): (v: Json)
    requires k in KeysOf(fields)
    ensures exists i | 0 <= i < |fields| :: fields[i].value == v && fields[i].key == k
  {
    assert KeysOf(fields)[IndexOf(KeysOf(fields), k)] == fields[IndexOf(KeysOf(fields), k)].key;
    fields[IndexOf(KeysOf(fields), k)].value
  }

  /** The pair is a field of the object, with its value's text. */
  predicate IsField(fields: seq<Field>, p: Pair) {
    p.key in KeysOf(fields) && p.text == Canon(ValueOf(fields, p.key))
  }

  lemma PairsAreFields(fields: seq<Field>, p: Pair)
    requires Distinct(KeysOf(fields))
    ensures p in PairsOf(fields) <==> IsField(fields, p)
  {
    var ks := KeysOf(fields);
    if p in PairsOf(fields) {
      var i :| 0 <= i < |fields| && PairsOf(fields)[i] == p;
      assert ks[i] == p.key;
      assert IndexOf(ks, p.key) == i;
    }
    if p.key in ks {
      var i := IndexOf(ks, p.key);
      assert PairsOf(fields)[i] == Pair(p.key, Canon(ValueOf(fields, p.key)));
    }
  }

  function MeaningsOf(fields: seq<Field>, ps: seq<Pair>): map<Str, Value>
  {
    if ps == [] then map[]
    else if ps[0].key in KeysOf(fields) then
      MeaningsOf(fields, ps[1..])[ps[0].key := Meaning(ValueOf(fields, ps[0].key))]
    else MeaningsOf(fields, ps[1..])
  }

  lemma {:induction false} MeaningsHold(fields: seq<Field>, ps: seq<Pair>)
    requires forall p | p in ps :: p.key in KeysOf(fields)
    ensures var m := MeaningsOf(fields, ps);
      && (forall k | k in m :: k in KeysOf(fields) && m[k] == Meaning(ValueOf(fields, k)))
      && (forall p | p in ps :: p.key in m)
  {
    if ps != [] {
      assert ps == [ps[0]] + ps[1..];
      MeaningsHold(fields, ps[1..]);
    }
  }

  lemma MeaningsAreAll(fields: seq<Field>, ps: seq<Pair>)
    requires (forall p | p in ps :: p.key in KeysOf(fields))
      && forall k | k in KeysOf(fields) :: exists p | p in ps :: p.key == k
    ensures Meaning(Obj(fields)) == VObj(MeaningsOf(fields, ps))
  {
    MeaningsHold(fields, ps);
    assert Meaning(Obj(fields)).fields == MeaningsOf(fields, ps);
  }

  lemma MeaningOfObject(fields: seq<Field>)
    requires Distinct(KeysOf(fields))
    ensures var ps := Sort(PairsOf(fields));
      && (forall p | p in ps :: IsField(fields, p))
      && Meaning(Obj(fields)) == VObj(MeaningsOf(fields, ps))
  {
    var ps := Sort(PairsOf(fields));
    SortHolds(PairsOf(fields));
    forall p ensures p in ps <==> IsField(fields, p) {
      PairsAreFields(fields, p);
    }
    forall k | k in KeysOf(fields) ensures exists p | p in ps :: p.key == k {
      assert Pair(k, Canon(ValueOf(fields, k))) in ps;
    }
    MeaningsAreAll(fields, ps);
  }

  function MeaningsOfItems(items: seq<Json>): (vs: seq<Value>)
    ensures |vs| == |items|
  {
    seq(|items|, i requires 0 <= i < |items| => Meaning(items[i]))
  }

  /** The text of an argument tree, whatever follows it, reads back as what the tree means. */
  lemma {:induction false} ReadsBack(j: Json, rest: Str)
    requires WellFormed(j) && Ended(rest)
    ensures ParseValue(Canon(j) + rest) == Some((Meaning(j), rest))
    decreases j, 1, 0
  {
    match j
    case Num(t) => NumberReadsBack(t, rest);
    case Text(s) => TextReadsBack(s, rest);
    case Bool(b) => WordReadsBack(Canon(j), rest);
    case Arr(items) =>
      if items != [] {
        ItemsReadBack(j, 0, rest);
        FirstUnit(items[0]);
      }
      ListOpens(items, rest);
    case Obj(fields) =>
      var ps := Sort(PairsOf(fields));
      MeaningOfObject(fields);
      if ps != [] {
        FieldsReadBack(j, ps, 0, rest);
      }
      ObjectOpens(fields, rest);
    case _ => WordReadsBack(NULL_TEXT, rest);
  }

  lemma Bracketed(open: Unit, inner: Str, close: Unit, rest: Str)
    ensures var t := [open] + inner + [close] + rest;
      t[0] == open && t[1..] == inner + ([close] + rest)
  {
  }

  lemma EmptyBracketed(open: Unit, close: Unit, rest: Str)
    ensures var t := [open] + [] + [close] + rest; |t| > 1 && t[0] == open && t[1] == close && t[2..] == rest
  {
  }

  lemma ListOpens(items: seq<Json>, rest: Str)
    requires items != [] ==>
      && ItemTexts(items)[0] != [] && ItemTexts(items)[0][0] != RBRACK
      && ParseItems(Joined(ItemTexts(items)[0..]) + ([RBRACK] + rest)) == Some((MeaningsOfItems(items)[0..], rest))
    ensures ParseValue(Canon(Arr(items)) + rest) == Some((Meaning(Arr(items)), rest))
  {
    var ts := ItemTexts(items);
    CanonOfTrees(Arr(items));
    assert Meaning(Arr(items)) == VArr(MeaningsOfItems(items));
    if items == [] {
      EmptyBracketed(LBRACK, RBRACK, rest);
    } else {
      Bracketed(LBRACK, Joined(ts), RBRACK, rest);
      assert ts[0..] == ts && MeaningsOfItems(items)[0..] == MeaningsOfItems(items);
      assert (Joined(ts) + ([RBRACK] + rest))[0] == ts[0][0];
    }
  }

  lemma ObjectOpens(fields: seq<Field>, rest: Str)
    requires Distinct(KeysOf(fields))
    requires var ps := Sort(PairsOf(fields)); ps != [] ==>
      ParseFields(Joined(PairTexts(ps)[0..]) + ([RBRACE] + rest)) == Some((MeaningsOf(fields, ps[0..]), rest))
    ensures ParseValue(Canon(Obj(fields)) + rest) == Some((Meaning(Obj(fields)), rest))
  {
    var ps := Sort(PairsOf(fields));
    var ts := PairTexts(ps);
    MeaningOfObject(fields);
    CanonOfTrees(Obj(fields));
    if ps == [] {
      EmptyBracketed(LBRACE, RBRACE, rest);
    } else {
      Bracketed(LBRACE, Joined(ts), RBRACE, rest);
      assert ts[0..] == ts && ps[0..] == ps;
      assert (Joined(ts) + ([RBRACE] + rest))[0] == ts[0][0] == QUOTE;
    }
  }

  lemma {:induction false} ItemsReadBack(j: Json, i: nat, rest: Str)
    requires j.Arr? && WellFormed(j) && i < |j.items|
    ensures ParseItems(Joined(ItemTexts(j.items)[i..]) + ([RBRACK] + rest))
      == Some((MeaningsOfItems(j.items)[i..], rest))
    decreases j, 0, |j.items| - i
  {
    var items := j.items;
    var ts, vs, end := ItemTexts(items)[i..], MeaningsOfItems(items)[i..], [RBRACK] + rest;
    if i == |items| - 1 {
      ReadsBack(items[i], end);
      ItemsLast(Meaning(items[i]), Canon(items[i]), rest);
      JoinedOne(ts, end);
      assert vs == [Meaning(items[i])];
    } else {
      ItemsReadBack(j, i + 1, rest);
      var more := Joined(ItemTexts(items)[i + 1..]) + end;
      ReadsBack(items[i], [COMMA] + more);
      ItemsMore(Meaning(items[i]), Canon(items[i]), MeaningsOfItems(items)[i + 1..], more, rest);
      JoinedMore(ts, end);
      assert ts[1..] == ItemTexts(items)[i + 1..] && vs == [Meaning(items[i])] + MeaningsOfItems(items)[i + 1..];
    }
  }

  lemma {:induction false} FieldsReadBack(j: Json, ps: seq<Pair>, i: nat, rest: Str)
    requires j.Obj? && WellFormed(j) && i < |ps| && forall p | p in ps :: IsField(j.fields, p)
    ensures ParseFields(Joined(PairTexts(ps)[i..]) + ([RBRACE] + rest)) == Some((MeaningsOf(j.fields, ps[i..]), rest))
    decreases j, 0, |ps| - i
  {
    var fields, p := j.fields, ps[i];
    var ts, end := PairTexts(ps)[i..], [RBRACE] + rest;
    assert p in ps;
    var v := ValueOf(fields, p.key);
    assert WellFormed(v);
    if i == |ps| - 1 {
      ReadsBack(v, end);
      FieldsLast(p, Meaning(v), rest);
      JoinedOne(ts, end);
      assert ps[i..] == [p] && ps[i..][1..] == [];
    } else {
      FieldsReadBack(j, ps, i + 1, rest);
      var more := Joined(PairTexts(ps)[i + 1..]) + end;
      ReadsBack(v, [COMMA] + more);
      FieldsMore(p, Meaning(v), MeaningsOf(fields, ps[i + 1..]), more, rest);
      JoinedMore(ts, end);
      assert ts[1..] == PairTexts(ps)[i + 1..] && ps[i..][1..] == ps[i + 1..];
    }
  }

  // ---- one text for one meaning ----------------------------------------------------------------

  /** Trees that mean the same have the same text, whatever the order of their keys. */
  lemma {:induction false} SameMeaningSameText(a: Json, b: Json)
    requires WellFormed(a) && WellFormed(b) && Meaning(a) == Meaning(b)
    ensures Canon(a) == Canon(b)
    decreases a
  {
    CanonOfTrees(a);
    CanonOfTrees(b);
    if a.Arr? {
      forall i | 0 <= i < |a.items| ensures ItemTexts(a.items)[i] == ItemTexts(b.items)[i] {
        assert Meaning(a).items[i] == Meaning(b).items[i];
        SameMeaningSameText(a.items[i], b.items[i]);
      }
      assert ItemTexts(a.items) == ItemTexts(b.items);
    } else if a.Obj? {
      assert Meaning(a).fields.Keys == Meaning(b).fields.Keys;
      forall k | k in KeysOf(a.fields)
        ensures k in KeysOf(b.fields) && Canon(ValueOf(a.fields, k)) == Canon(ValueOf(b.fields, k))
      {
        assert k in Meaning(a).fields && k in Meaning(b).fields;
        SameMeaningSameText(ValueOf(a.fields, k), ValueOf(b.fields, k));
      }
      forall k | k in KeysOf(b.fields) ensures k in KeysOf(a.fields) {
        assert k in Meaning(b).fields && k in Meaning(a).fields;
      }
      SameFieldsSameSort(a.fields, b.fields);
    }
  }

  lemma SameFieldsSameSort(xs: seq<Field>, ys: seq<Field>)
    requires Distinct(KeysOf(xs)) && Distinct(KeysOf(ys)) && forall k :: k in KeysOf(xs) <==> k in KeysOf(ys)
    requires forall k | k in KeysOf(xs) :: Canon(ValueOf(xs, k)) == Canon(ValueOf(ys, k))
    ensures Sort(PairsOf(xs)) == Sort(PairsOf(ys))
  {
    FieldsApart(xs);
    FieldsApart(ys);
    SortAscends(PairsOf(xs));
    SortAscends(PairsOf(ys));
    SortHolds(PairsOf(xs));
    SortHolds(PairsOf(ys));
    forall p ensures p in PairsOf(xs) <==> p in PairsOf(ys) {
      PairsAreFields(xs, p);
      PairsAreFields(ys, p);
    }
    AscendingIsUnique(Sort(PairsOf(xs)), Sort(PairsOf(ys)));
  }

  /** Two argument trees have the same text exactly when they are equal with objects read as maps. */
  lemma CanonIsMeaning(a: Json, b: Json)
    requires WellFormed(a) && WellFormed(b)
    ensures Canon(a) == Canon(b) <==> Meaning(a) == Meaning(b)
  {
    ReadsBack(a, []);
    ReadsBack(b, []);
    assert Canon(a) + [] == Canon(a) && Canon(b) + [] == Canon(b);
    if Meaning(a) == Meaning(b) {
      SameMeaningSameText(a, b);
    }
  }
}
