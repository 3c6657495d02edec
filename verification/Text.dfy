/** Case folding, number texts and prefixes, as the code compares names with them. */
module Text {
  function LowerChar(c: char): char {
    if 'A' <= c <= 'Z' then (c as int + 32) as char else c
  }

  function Lower(s: string): (r: string)
    ensures |r| == |s|
    ensures forall i | 0 <= i < |s| :: r[i] == LowerChar(s[i])
  {
    seq(|s|, i requires 0 <= i < |s| => LowerChar(s[i]))
  }

  /** String(n) of a whole number. */
  function IntText(n: int): string
    decreases n < 0, if n < 0 then -n else n
  {
    if n < 0 then "-" + IntText(-n)
    else if n < 10 then [(n + 48) as char]
    else IntText(n / 10) + [(n % 10 + 48) as char]
  }

  lemma {:induction false} IntTextLength(n: nat)
    ensures if n < 10 then |IntText(n)| == 1 else |IntText(n)| > 1
  {
    if n >= 10 {
      IntTextLength(n / 10);
    }
  }

  /** Different numbers have different texts. */
  lemma {:induction false} SameIntText(a: nat, b: nat)
    requires IntText(a) == IntText(b)
    ensures a == b
  {
    IntTextLength(a);
    IntTextLength(b);
    if a < 10 {
      assert IntText(a)[0] == IntText(b)[0];
    } else {
      var s, t := IntText(a / 10), IntText(b / 10);
      assert IntText(a) == s + [(a % 10 + 48) as char] && IntText(b) == t + [(b % 10 + 48) as char];
      assert s == IntText(a)[..|IntText(a)| - 1] == t;
      assert IntText(a)[|s|] == IntText(b)[|t|];
      SameIntText(a / 10, b / 10);
    }
  }

  predicate StartsWith(s: string, prefix: string) {
    |prefix| <= |s| && s[..|prefix|] == prefix
  }
}
