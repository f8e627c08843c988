/** Generated names: decimal counters, temporaries `t<n>`, and block labels `<function>_<kind>_<n>`
    (src/middleend/ssa/SSAInstruction.hpp:96-98, src/middleend/ssa/SSABuilder.cpp:430-432). Different
    counters give different names, whatever the function is called. */
module Names {
  const DIGITS: string := "0123456789"

  predicate IsDigit(c: char) { '0' <= c <= '9' }

  function Decimal(n: nat): (r: string)
    ensures |r| > 0 && forall i :: 0 <= i < |r| ==> IsDigit(r[i])
  {
    (if n < 10 then [] else Decimal(n / 10)) + [DIGITS[n % 10]]
  }

  /** The number a string of digits denotes. */
  function Parse(s: string): int {
    if s == "" then 0 else 10 * Parse(s[..|s| - 1]) + (s[|s| - 1] as int - '0' as int)
  }

  lemma {:induction false} ParseDecimal(n: nat)
    ensures Parse(Decimal(n)) == n
  {
    var d := Decimal(n);
    assert d[|d| - 1] as int - '0' as int == n % 10;
    if n < 10 {
      assert d[..|d| - 1] == "";
    } else {
      assert d[..|d| - 1] == Decimal(n / 10);
      ParseDecimal(n / 10);
    }
  }

  function Temp(n: nat): (r: string)
    ensures r != ""
  {
    "t" + Decimal(n)
  }

  lemma TempsDiffer(m: nat, n: nat)
    requires Temp(m) == Temp(n)
    ensures m == n
  {
    ParseDecimal(m);
    ParseDecimal(n);
    assert Temp(m)[1..] == Decimal(m) && Temp(n)[1..] == Decimal(n);
  }

  /** What no variable of a program may be called: the name of a temporary. */
  ghost predicate IsTemp(x: string) {
    exists n: nat :: x == Temp(n)
  }

  /** A label with counter n: anything ending in an underscore, then the counter. */
  ghost predicate Numbered(x: string, n: nat) {
    exists prefix: string :: Underscored(prefix) && x == prefix + Decimal(n)
  }

  predicate Underscored(prefix: string) {
    |prefix| > 0 && prefix[|prefix| - 1] == '_'
  }

  function LabelName(func: string, kind: string, n: nat): string {
    func + kind + Decimal(n)
  }

  lemma LabelNumbered(func: string, kind: string, n: nat)
    requires Underscored(kind)
    ensures Numbered(LabelName(func, kind, n), n)
  {
    assert Underscored(func + kind);
  }

  /** The text after the last underscore is the counter: an underscore is no digit. */
  lemma ShorterCounter(p: string, q: string, m: nat, n: nat)
    requires Underscored(p) && Underscored(q) && p + Decimal(m) == q + Decimal(n)
    ensures |Decimal(m)| <= |Decimal(n)|
  {
    var x := q + Decimal(n);
    assert x[|q| - 1] == '_';
    assert forall i :: |p| <= i < |x| ==> x[i] == (p + Decimal(m))[i] == Decimal(m)[i - |p|] && IsDigit(x[i]);
  }

  lemma NumberedOnce(x: string, m: nat, n: nat)
    requires Numbered(x, m) && Numbered(x, n)
    ensures m == n
  {
    var p: string :| Underscored(p) && x == p + Decimal(m);
    var q: string :| Underscored(q) && x == q + Decimal(n);
    ShorterCounter(p, q, m, n);
    ShorterCounter(q, p, n, m);
    assert x[|p|..] == Decimal(m) && x[|q|..] == Decimal(n);
    ParseDecimal(m);
    ParseDecimal(n);
  }

  lemma EntryNotNumbered(func: string, n: nat)
    ensures !Numbered(func + "_entry", n)
  {
    var x := func + "_entry";
    forall p: string | Underscored(p) ensures x != p + Decimal(n) {
      var y := p + Decimal(n);
      assert y[|y| - 1] == Decimal(n)[|Decimal(n)| - 1] && IsDigit(y[|y| - 1]);
      assert !IsDigit(x[|x| - 1]);
    }
  }
}
