/** 64-bit division as C++ and the processor have it, by the property that singles it out: the remainder is
    smaller than the divisor and has the sign of the dividend. */
module Division {
  import opened Options
  import opened Ssa
  import Ast
  import Lowering
  import ConstantProp
  import X86Machine

  function Size(x: int): nat {
    if x < 0 then -x else x
  }

  /** a divided by b is q, remainder m. */
  predicate Truncates(a: int, b: int, q: int, m: int) {
    a == b * q + m && Size(m) < Size(b) && (m == 0 || (m > 0 <==> a > 0))
  }

  lemma SmallMultiple(b: int, d: int)
    requires Size(b * d) < Size(b)
    ensures d == 0
  {
  }

  lemma Scaled(b: int, q: int, r: int)
    ensures b * (q - r) == b * q - b * r
  {
  }

  /** There is one such quotient and remainder only. */
  lemma OneDivision(a: int, b: int, q: int, m: int, q': int, m': int)
    requires Truncates(a, b, q, m) && Truncates(a, b, q', m')
    ensures q == q' && m == m'
  {
    Scaled(b, q, q');
    assert b * (q - q') == m' - m;
    SmallMultiple(b, q - q');
  }

  lemma Signs(x: int, y: int)
    ensures -x * y == -(x * y) && x * -y == -(x * y) && -x * -y == x * y
  {
  }

  lemma FromSizes(a: int, b: int, q: int, r: nat, t: int)
    requires b != 0 && q >= 0 && Size(a) == Size(b) * q + r && r < Size(b) && t == if (a >= 0) == (b > 0) then q else -q
    ensures Truncates(a, b, t, a - b * t)
  {
    Signs(Size(b), q);
    assert b * t == if a >= 0 then Size(b) * q else -(Size(b) * q);
  }

  lemma TruncDivTruncates(a: int, b: int)
    requires b != 0
    ensures Truncates(a, b, TruncDiv(a, b), TruncMod(a, b))
  {
    hide Truncates;
    Euclid(Abs(a), Abs(b));
    FromSizes(a, b, Abs(a) / Abs(b), Abs(a) % Abs(b), TruncDiv(a, b));
  }

  lemma Euclid(x: nat, y: int)
    requires y > 0
    ensures x == y * (x / y) + x % y && 0 <= x % y < y && x / y >= 0
  {
  }

  /** The quotient and remainder used everywhere are exactly these. */
  lemma DivisionExactly(a: int, b: int, q: int, m: int)
    requires b != 0
    ensures Truncates(a, b, q, m) <==> q == TruncDiv(a, b) && m == TruncMod(a, b)
  {
    hide TruncDiv, TruncMod, Truncates;
    TruncDivTruncates(a, b);
    if Truncates(a, b, q, m) { OneDivision(a, b, q, m, TruncDiv(a, b), TruncMod(a, b)); }
  }

  lemma QuotientFits(a: int, b: int, q: int, m: int)
    requires InRange(a) && InRange(b) && !(a == MIN64 && b == -1) && Truncates(a, b, q, m)
    ensures InRange(q) && InRange(m)
  {
    if Size(b) == 1 {
      assert m == 0;
    } else {
      Halved(a, b, q, m);
    }
  }

  lemma Halved(a: int, b: int, q: int, m: int)
    requires Size(b) >= 2 && Truncates(a, b, q, m)
    ensures 2 * Size(q) <= Size(a) && Size(m) <= Size(a)
  {
    Product(b, q);
  }

  lemma Product(b: int, q: int)
    requires Size(b) >= 2
    ensures Size(b * q) >= 2 * Size(q) && (q != 0 ==> Size(b * q) >= Size(b))
  {
    SizeProduct(b, q);
    NatProduct(Size(b), Size(q));
  }

  lemma NatProduct(x: nat, y: nat)
    requires x >= 2
    ensures x * y >= 2 * y && (y != 0 ==> x * y >= x)
  {
    var d: nat := x - 2;
    assert x * y == 2 * y + d * y;
    if y != 0 { assert x * y == x + x * (y - 1); }
  }

  lemma SizeProduct(x: int, y: int)
    ensures Size(x * y) == Size(x) * Size(y)
  {
    Signs(x, y);
    NotNegative(Size(x), Size(y));
  }

  lemma NotNegative(x: nat, y: nat)
    ensures x * y >= 0
  {
  }

  // ----- where it is used

  /** The source's `/` and `%`, their instructions, and their folding at build time and in constant propagation. */
  lemma DivisionTruncates(l: int, r: int, q: int, m: int)
    requires InRange(l) && InRange(r) && r != 0 && !(l == MIN64 && r == -1) && Truncates(l, r, q, m)
    ensures Ast.Apply(Ast.Slash, l, r) == Some(q) && Ast.Apply(Ast.Percent, l, r) == Some(m)
    ensures Arith(Div, l, r) == Some(q) && Arith(Mod, l, r) == Some(m)
    ensures Lowering.TryFold(Div, Num(l), Num(r)) == Some(q) && Lowering.TryFold(Mod, Num(l), Num(r)) == Some(m)
    ensures ConstantProp.TryFold(Div, Num(l), Num(r)) == Some(q)
  {
    hide TruncDiv, TruncMod, Truncates;
    DivisionExactly(l, r, q, m);
    QuotientFits(l, r, q, m);
  }

  /** IDIV divides the 128-bit number in rdx and rax, and stops unless the quotient fits 64 bits. */
  lemma MachineDivides(c: X86Machine.Core, q: int, m: int)
    requires
      var n := X86Machine.Reg(c, X86Machine.RDX) * TWO64 + X86Machine.Reg(c, X86Machine.RAX) % TWO64;
      Truncates(n, X86Machine.Reg(c, X86Machine.RCX), q, m)
    ensures X86Machine.Divide(c).Some? <==> InRange(q)
    ensures
      X86Machine.Divide(c).Some? ==>
        var d := X86Machine.Divide(c).value;
        X86Machine.Reg(d, X86Machine.RAX) == q && X86Machine.Reg(d, X86Machine.RDX) == m
  {
    hide TruncDiv, TruncMod;
    var n := X86Machine.Reg(c, X86Machine.RDX) * TWO64 + X86Machine.Reg(c, X86Machine.RAX) % TWO64;
    DivisionExactly(n, X86Machine.Reg(c, X86Machine.RCX), q, m);
    RemainderFits(X86Machine.Reg(c, X86Machine.RCX), m);
  }

  lemma RemainderFits(b: int, m: int)
    requires InRange(b) && Size(m) < Size(b)
    ensures InRange(m)
  {
  }

  /** For example -7 / 2 is -3, remainder -1. */
  lemma DividesTowardZero()
    ensures Arith(Div, -7, 2) == Some(-3) && Arith(Mod, -7, 2) == Some(-1)
  {
    DivisionTruncates(-7, 2, -3, -1);
  }
}
