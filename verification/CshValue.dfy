/** What the operators of the C shell's expressions compute (bin/csh/sh.exp.c),
    from the words on. */
module CshValue {
  import opened CInt
  import opened CshExp

  /** The value of an expression, from its words on. */
  function Value(ws: seq<Word>, wd: World): Out<int> {
    var p := P0(ws, 0);
    if p.Tree? then EvalI(p.e, Flags(false, false), [], wd).out else Fail(Syntax)
  }

  method Calculate(ws: seq<Word>, wd: World) returns (out: Out<int>)
    ensures P0(ws, 0).Tree? ==> out == Value(ws, wd)
    ensures P0(ws, 0).NoTree? ==> out.Fail?
  {
    var e := new Evaluator(ws, wd);
    out := e.Exp(Flags(false, false));
  }

  /** Globbing finds nothing to expand in the words. */
  ghost predicate Verbatim(wd: World) {
    forall t: Trace, w: Word :: wd.glob(t, w) == Ret(w)
  }

  /** A tree written down has the value of the tree. */
  lemma ValueOf(e: IExpr, ws: seq<Word>, wd: World)
    requires FineI(e) && ShowI(e) == ws
    ensures Value(ws, wd) == EvalI(e, PLAIN, [], wd).out
  {
    ShowParses(e);
  }

  const PLAIN: Flags := Flags(false, false)

  function Lit(n: int): SExpr {
    Literal(Putn(n))
  }

  lemma NumeralFirst(n: nat)
    ensures Digit(Numeral(n)[0])
  {
    NumeralDigits(n);
  }

  /** A number stands for itself. */
  lemma LitFacts(n: int)
    ensures FineS(Lit(n)) && LayerS(Lit(n)) == 10 && ShowS(Lit(n)) == [Putn(n)] && Putn(n) != "="
  {
    hide Numeral;
    var m: nat := if n < 0 then -n else n;
    NumeralFirst(m);
    if n < 0 {
      assert Putn(n)[1] == Numeral(m)[0];
    }
  }

  lemma LitValue(n: int, f: Flags, t: Trace, wd: World)
    requires Verbatim(wd)
    ensures EvalS(Lit(n), f, t, wd).out == Ret(Putn(n))
  {
    assert wd.glob(t, Putn(n)) == Ret(Putn(n));
  }

  /** Different numbers are written differently. */
  lemma PutnOne(a: int, b: int)
    requires IsInt32(a) && IsInt32(b)
    ensures Putn(a) == Putn(b) <==> a == b
  {
    PutGet(a);
    PutGet(b);
  }

  /** `a op b`, for an operator of arithmetic, from its words on. */
  lemma ArithValue(op: char, a: int, b: int, wd: World)
    requires Verbatim(wd) && op in "+-*/%"
    ensures Value([Putn(a), [op], Putn(b)], wd)
         == var c := Compute(op, Putn(a), Putn(b)); if c.Ret? then Egetn(Putn(c.v)) else Fail(c.e)
  {
    hide P0, Putn, Egetn, Compute, FineS, FineI, ShowI, Lit, Value;
    var x := Arith(op, Lit(a), Lit(b));
    ArithShown(op, a, b);
    ValueOf(Number(x), [Putn(a), [op], Putn(b)], wd);
    LitValue(a, PLAIN, [], wd);
    LitValue(b, PLAIN, EvalS(Lit(a), PLAIN, [], wd).t, wd);
    assert EvalS(x, PLAIN, [], wd).out == PutOut(Compute(op, Putn(a), Putn(b)), []).out;
  }

  lemma ArithShown(op: char, a: int, b: int)
    requires op in "+-*/%"
    ensures var e := Number(Arith(op, Lit(a), Lit(b))); FineI(e) && ShowI(e) == [Putn(a), [op], Putn(b)]
  {
    hide FineS, Putn;
    LitFacts(a);
    LitFacts(b);
    ArithFine(op, Lit(a), Lit(b));
  }

  lemma ArithFine(op: char, x: SExpr, y: SExpr)
    requires op in "+-*/%" && FineS(x) && FineS(y) && LayerS(x) == LayerS(y) == 10
    ensures FineS(Arith(op, x, y))
  {
  }

  /** Sums, differences and products are those of the numbers, on 32 bits. */
  lemma SumMeans(a: int, b: int, wd: World)
    requires Verbatim(wd) && IsInt32(a) && IsInt32(b)
    ensures Value([Putn(a), "+", Putn(b)], wd) == Ret(Int32(a + b))
    ensures Value([Putn(a), "-", Putn(b)], wd) == Ret(Int32(a - b))
    ensures Value([Putn(a), "*", Putn(b)], wd) == Ret(Int32(a * b))
  {
    hide Value, Putn, Egetn, Int32;
    PutGet(a);
    PutGet(b);
    ArithValue('+', a, b, wd);
    ArithValue('-', a, b, wd);
    ArithValue('*', a, b, wd);
    PutGet(Int32(a + b));
    PutGet(Int32(a - b));
    PutGet(Int32(a * b));
  }

  /** Truncating division: the remainder is smaller than the divisor and has the
      sign of the dividend. */
  predicate Divides(a: int, b: int, q: int, r: int) {
    a == b * q + r && Abs(r) < Abs(b) && (r == 0 || (r < 0 <==> a < 0))
  }

  lemma QuotientDivides(a: int, b: int)
    requires b != 0
    ensures Divides(a, b, Quotient(a, b), Remainder(a, b))
  {
    var m: int, n: int := Abs(a), Abs(b);
    var k := m / n;
    assert m == n * k + m % n;
    SignedProduct(b, n, k);
  }

  lemma SignedProduct(b: int, n: int, k: int)
    requires b == n || b == -n
    ensures b * k == (if b == n then n * k else -(n * k)) && b * -k == -(b * k)
  {
  }

  lemma DivisionMeans(a: int, b: int, wd: World) returns (q: int, r: int)
    requires Verbatim(wd) && IsInt32(a) && IsInt32(b)
    ensures b == 0 ==> Value([Putn(a), "/", Putn(b)], wd) == Fail(DivideByZero) && Value([Putn(a), "%", Putn(b)], wd) == Fail(ModByZero)
    ensures b != 0 ==> Divides(a, b, q, r)
    ensures b != 0 ==> Value([Putn(a), "/", Putn(b)], wd) == Ret(Int32(q)) && Value([Putn(a), "%", Putn(b)], wd) == Ret(Int32(r))
  {
    hide Value, Putn, Egetn, Int32, Quotient, Remainder, Divides;
    PutGet(a);
    PutGet(b);
    ArithValue('/', a, b, wd);
    ArithValue('%', a, b, wd);
    q, r := 0, 0;
    if b != 0 {
      q, r := Quotient(a, b), Remainder(a, b);
      QuotientDivides(a, b);
      PutGet(Int32(q));
      PutGet(Int32(r));
    }
  }

  /** A number and what compares it with another, as words: `<=` and `>=` are two. */
  lemma RelationMeans(a: int, b: int, wd: World)
    requires Verbatim(wd) && IsInt32(a) && IsInt32(b)
    ensures Value([Putn(a), "<", Putn(b)], wd) == Ret(if a < b then 1 else 0)
    ensures Value([Putn(a), "<", "=", Putn(b)], wd) == Ret(if a <= b then 1 else 0)
    ensures Value([Putn(a), ">", Putn(b)], wd) == Ret(if a > b then 1 else 0)
    ensures Value([Putn(a), ">", "=", Putn(b)], wd) == Ret(if a >= b then 1 else 0)
  {
    hide Value, Putn, Egetn;
    PutGet(a);
    PutGet(b);
    PutGet(0);
    PutGet(1);
    RelationValue(LSS, a, b, wd);
    RelationValue(LSS + 1, a, b, wd);
    RelationValue(GTR, a, b, wd);
    RelationValue(GTR + 1, a, b, wd);
    assert [Putn(a)] + RelWords(LSS) + [Putn(b)] == [Putn(a), "<", Putn(b)];
    assert [Putn(a)] + RelWords(LSS + 1) + [Putn(b)] == [Putn(a), "<", "=", Putn(b)];
    assert [Putn(a)] + RelWords(GTR) + [Putn(b)] == [Putn(a), ">", Putn(b)];
    assert [Putn(a)] + RelWords(GTR + 1) + [Putn(b)] == [Putn(a), ">", "=", Putn(b)];
  }

  lemma RelationValue(rel: Code, a: int, b: int, wd: World)
    requires Verbatim(wd) && GTR <= rel <= LSS + 1
    ensures Value([Putn(a)] + RelWords(rel) + [Putn(b)], wd)
         == var c := Compare(rel, Putn(a), Putn(b)); if c.Ret? then Egetn(Putn(c.v)) else Fail(c.e)
  {
    hide P0, Putn, Egetn, Compare, FineS, FineI, ShowI, Lit, Value, RelWords;
    var x := Relation(rel, Lit(a), Lit(b));
    RelationShown(rel, a, b);
    ValueOf(Number(x), [Putn(a)] + RelWords(rel) + [Putn(b)], wd);
    LitValue(a, PLAIN, [], wd);
    LitValue(b, PLAIN, EvalS(Lit(a), PLAIN, [], wd).t, wd);
    assert EvalS(x, PLAIN, [], wd).out == PutOut(Compare(rel, Putn(a), Putn(b)), []).out;
  }

  lemma RelationShown(rel: Code, a: int, b: int)
    requires GTR <= rel <= LSS + 1
    ensures var e := Number(Relation(rel, Lit(a), Lit(b))); FineI(e) && ShowI(e) == [Putn(a)] + RelWords(rel) + [Putn(b)]
  {
    hide Putn;
    LitFacts(a);
    LitFacts(b);
  }

  /** `==` and `!=` compare the texts; of numbers, that compares the numbers. */
  lemma EqualityMeans(a: int, b: int, wd: World)
    requires Verbatim(wd) && IsInt32(a) && IsInt32(b)
    ensures Value([Putn(a), "==", Putn(b)], wd) == Ret(if a == b then 1 else 0)
    ensures Value([Putn(a), "!=", Putn(b)], wd) == Ret(if a != b then 1 else 0)
    ensures Value([Putn(a), "=~", Putn(b)], wd) == Ret(if wd.matches(Putn(a), Putn(b)) then 1 else 0)
    ensures Value([Putn(a), "!~", Putn(b)], wd) == Ret(if wd.matches(Putn(a), Putn(b)) then 0 else 1)
  {
    hide Value, Putn;
    PutnOne(a, b);
    EqualityValue(EQEQ, a, b, wd);
    EqualityValue(NOTEQ, a, b, wd);
    EqualityValue(EQMATCH, a, b, wd);
    EqualityValue(NOTEQMATCH, a, b, wd);
  }

  lemma EqualityValue(eq: Code, a: int, b: int, wd: World)
    requires Verbatim(wd) && eq in {EQEQ, NOTEQ, EQMATCH, NOTEQMATCH}
    ensures Value([Putn(a), EqWord(eq), Putn(b)], wd) == Ret(Equal(eq, Putn(a), Putn(b), wd))
  {
    hide P0, Putn, Equal, FineS, FineI, ShowI, Lit, EqWord, Value;
    EqualityShown(eq, a, b);
    ValueOf(Equality(eq, Lit(a), Lit(b)), [Putn(a), EqWord(eq), Putn(b)], wd);
    LitValue(a, PLAIN, [], wd);
    LitValue(b, if eq == EQMATCH || eq == NOTEQMATCH then Flags(false, true) else PLAIN, EvalS(Lit(a), PLAIN, [], wd).t, wd);
  }

  lemma EqualityShown(eq: Code, a: int, b: int)
    requires eq in {EQEQ, NOTEQ, EQMATCH, NOTEQMATCH}
    ensures var e := Equality(eq, Lit(a), Lit(b)); FineI(e) && ShowI(e) == [Putn(a), EqWord(eq), Putn(b)]
  {
    hide Putn, FineS;
    LitFacts(a);
    LitFacts(b);
  }

  /** `!` and `~` */
  lemma UnaryMeans(a: int, wd: World)
    requires Verbatim(wd) && IsInt32(a)
    ensures Value(["!", Putn(a)], wd) == Ret(if a == 0 then 1 else 0)
    ensures exists n :: Value(["~", Putn(a)], wd) == Ret(n) && n + a == -1
  {
    hide P0, Putn, Egetn, Lit, FineI, ShowI, Value;
    PutGet(a);
    PutGet(-1 - a);
    PutGet(0);
    PutGet(1);
    UnaryShown(a);
    ValueOf(Number(Not(Lit(a))), ["!", Putn(a)], wd);
    ValueOf(Number(Compl(Lit(a))), ["~", Putn(a)], wd);
    LitValue(a, PLAIN, [], wd);
    assert EvalS(Not(Lit(a)), PLAIN, [], wd).out == Ret(Putn(if a == 0 then 1 else 0));
    assert EvalS(Compl(Lit(a)), PLAIN, [], wd).out == Ret(Putn(-1 - a));
    assert Value(["~", Putn(a)], wd) == Ret(-1 - a);
  }

  lemma UnaryShown(a: int)
    ensures var e := Number(Not(Lit(a))); FineI(e) && ShowI(e) == ["!", Putn(a)]
    ensures var e := Number(Compl(Lit(a))); FineI(e) && ShowI(e) == ["~", Putn(a)]
  {
    hide Putn;
    LitFacts(a);
  }

  /** `||` and `&&` */
  lemma LogicMeans(a: int, b: int, wd: World)
    requires Verbatim(wd) && IsInt32(a) && IsInt32(b)
    ensures Value([Putn(a), "||", Putn(b)], wd) == Ret(if a != 0 || b != 0 then 1 else 0)
    ensures Value([Putn(a), "&&", Putn(b)], wd) == Ret(if a != 0 && b != 0 then 1 else 0)
  {
    hide P0, Putn, Egetn, Lit, FineI, ShowI, Value, EvalS;
    PutGet(a);
    PutGet(b);
    LogicShown(a, b);
    var x, y := Number(Lit(a)), Number(Lit(b));
    ValueOf(Or(x, y), [Putn(a), "||", Putn(b)], wd);
    ValueOf(And(x, y), [Putn(a), "&&", Putn(b)], wd);
    LitValue(a, PLAIN, [], wd);
    var t := EvalS(Lit(a), PLAIN, [], wd).t;
    LitValue(b, Flags(a != 0, false), t, wd);
    LitValue(b, Flags(a == 0, false), t, wd);
    assert EvalI(x, PLAIN, [], wd) == Run(Ret(a), t);
    assert EvalI(y, Flags(a != 0, false), t, wd).out == Ret(b) == EvalI(y, Flags(a == 0, false), t, wd).out;
  }

  lemma LogicShown(a: int, b: int)
    ensures var e := Or(Number(Lit(a)), Number(Lit(b))); FineI(e) && ShowI(e) == [Putn(a), "||", Putn(b)]
    ensures var e := And(Number(Lit(a)), Number(Lit(b))); FineI(e) && ShowI(e) == [Putn(a), "&&", Putn(b)]
  {
    hide Putn, FineS;
    LitFacts(a);
    LitFacts(b);
  }

  /** Bit `k` of a number in two's complement. */
  function BitAt(n: int, k: nat): int
    decreases k
  {
    if k == 0 then n % 2 else BitAt(n / 2, k - 1)
  }

  function Power(n: nat): nat {
    if n == 0 then 1 else 2 * Power(n - 1)
  }

  /** Only the lower bits count. */
  lemma {:induction false} BitAtWraps(x: int, m: int, n: nat, k: nat)
    requires k < n
    ensures BitAt(x + m * Power(n), k) == BitAt(x, k)
    decreases k
  {
    var y := m * Power(n - 1);
    assert m * Power(n) == 2 * y;
    assert (x + 2 * y) % 2 == x % 2 && (x + 2 * y) / 2 == x / 2 + y;
    if k > 0 {
      BitAtWraps(x / 2, m, n - 1, k - 1);
    }
  }

  lemma {:induction false} BitsAt(f: (nat, nat) -> nat, a: nat, b: nat, n: nat, k: nat)
    requires k < n
    ensures BitAt(a, k) >= 0 && BitAt(b, k) >= 0 && BitAt(Bits(f, a, b, n), k) == f(BitAt(a, k), BitAt(b, k)) % 2
    decreases n
  {
    if k > 0 {
      BitsAt(f, a / 2, b / 2, n - 1, k - 1);
    }
  }

  lemma {:induction false} BitAtIs(n: int, k: nat)
    ensures BitAt(n, k) == 0 || BitAt(n, k) == 1
    decreases k
  {
    if k > 0 {
      BitAtIs(n / 2, k - 1);
    }
  }

  /** What `|`, `^` and `&` do to each bit. */
  lemma BitOpBits(op: Bit, a: int, b: int, k: nat)
    requires k < 32
    ensures IsInt32(BitOp(op, a, b))
    ensures var (x, y) := (BitAt(a, k) == 1, BitAt(b, k) == 1);
            BitAt(BitOp(op, a, b), k) == 1 <==> match op case BitOr => x || y case BitXor => x != y case BitAnd => x && y
  {
    hide Bits, BitAt, Int32, OnBits;
    var a', b' := a % 0x1_0000_0000, b % 0x1_0000_0000;
    var n := Bits(OnBits(op), a', b', 32);
    BitsAt(OnBits(op), a', b', 32, k);
    LowBits(a, k);
    LowBits(b, k);
    Int32Bits(n, k);
    BitAtIs(a, k);
    BitAtIs(b, k);
    OnBitsMeans(op, BitAt(a', k), BitAt(b', k));
  }

  lemma OnBitsMeans(op: Bit, x: nat, y: nat)
    requires x <= 1 && y <= 1
    ensures OnBits(op)(x, y) % 2 == 1 <==> match op case BitOr => x == 1 || y == 1 case BitXor => x != y case BitAnd => x == 1 && y == 1
  {
  }

  lemma LowBits(x: int, k: nat)
    requires k < 32
    ensures BitAt(x % 0x1_0000_0000, k) == BitAt(x, k)
  {
    hide BitAt, Power;
    PowerIs();
    var m := x / 0x1_0000_0000;
    assert x == x % 0x1_0000_0000 + m * 0x1_0000_0000;
    BitAtWraps(x % 0x1_0000_0000, m, 32, k);
  }

  lemma Int32Bits(x: int, k: nat)
    requires k < 32
    ensures BitAt(Int32(x), k) == BitAt(x, k)
  {
    hide BitAt, Power, Int32;
    PowerIs();
    var r := Int32(x);
    Int32Wraps(x, r);
    var m := (r - x) / 0x1_0000_0000;
    assert r == x + m * 0x1_0000_0000;
    BitAtWraps(x, m, 32, k);
  }

  lemma PowerIs()
    ensures Power(32) == 0x1_0000_0000
  {
    assert Power(8) == 0x100;
    assert Power(16) == 0x1_0000;
    assert Power(24) == 0x100_0000;
  }

  lemma BitMeans(op: Bit, a: int, b: int, wd: World) returns (n: int)
    requires Verbatim(wd) && IsInt32(a) && IsInt32(b)
    ensures Value([Putn(a), match op case BitOr => "|" case BitXor => "^" case BitAnd => "&", Putn(b)], wd) == Ret(n) && IsInt32(n)
    ensures forall k: nat :: k < 32 ==>
              (BitAt(n, k) == 1 <==> match op
                                     case BitOr => BitAt(a, k) == 1 || BitAt(b, k) == 1
                                     case BitXor => BitAt(a, k) != BitAt(b, k)
                                     case BitAnd => BitAt(a, k) == 1 && BitAt(b, k) == 1)
  {
    n := BitOp(op, a, b);
    BitValue(op, a, b, wd);
    hide *;
    forall k: nat | k < 32
      ensures BitAt(n, k) == 1 <==> match op
                                    case BitOr => BitAt(a, k) == 1 || BitAt(b, k) == 1
                                    case BitXor => BitAt(a, k) != BitAt(b, k)
                                    case BitAnd => BitAt(a, k) == 1 && BitAt(b, k) == 1
    {
      BitOpBits(op, a, b, k);
      BitAtIs(a, k);
      BitAtIs(b, k);
    }
    BitOpBits(op, a, b, 0);
  }

  lemma BitValue(op: Bit, a: int, b: int, wd: World)
    requires Verbatim(wd) && IsInt32(a) && IsInt32(b)
    ensures Value([Putn(a), match op case BitOr => "|" case BitXor => "^" case BitAnd => "&", Putn(b)], wd) == Ret(BitOp(op, a, b))
  {
    hide P0, Putn, Egetn, Lit, BitOp, FineI, ShowI, Value, EvalS;
    PutGet(a);
    PutGet(b);
    BitShown(op, a, b);
    var x, y := Number(Lit(a)), Number(Lit(b));
    ValueOf(Bitwise(op, x, y), [Putn(a), match op case BitOr => "|" case BitXor => "^" case BitAnd => "&", Putn(b)], wd);
    LitValue(a, PLAIN, [], wd);
    var t := EvalS(Lit(a), PLAIN, [], wd).t;
    LitValue(b, PLAIN, t, wd);
    assert EvalI(x, PLAIN, [], wd) == Run(Ret(a), t);
    assert EvalI(y, PLAIN, t, wd).out == Ret(b);
  }

  lemma BitShown(op: Bit, a: int, b: int)
    ensures var e := Bitwise(op, Number(Lit(a)), Number(Lit(b)));
            FineI(e) && ShowI(e) == [Putn(a), match op case BitOr => "|" case BitXor => "^" case BitAnd => "&", Putn(b)]
  {
    hide Putn, FineS;
    LitFacts(a);
    LitFacts(b);
  }

  /** Shifts, commands, file tests and parentheses. */
  lemma OtherMeans(a: int, b: int, com: seq<Word>, c: char, file: Word, wd: World)
    requires Verbatim(wd) && IsInt32(a) && IsInt32(b)
    requires (forall k :: 0 <= k < |com| ==> com[k] != "}") && c in "erwxfdzo" && !AnyOp(file)
    ensures Value([Putn(a), "<<", Putn(b)], wd) == Ret(Int32(wd.shl(a, b)))
    ensures Value([Putn(a), ">>", Putn(b)], wd) == Ret(Int32(wd.shr(a, b)))
    ensures Value(["{"] + com + ["}"], wd) == Ret(if wd.run([], com) == 0 then 1 else 0)
    ensures Value([['-', c], file], wd) == Ret(if wd.test([Globbed(file)], c, file) then 1 else 0)
    ensures Value(["(", Putn(a), ")"], wd) == Ret(a)
  {
    hide Value, Putn;
    ShiftValue(true, a, b, wd);
    ShiftValue(false, a, b, wd);
    CommandValue(com, wd);
    TestValue(c, file, wd);
    ParenValue(a, wd);
  }

  lemma ShiftValue(left: bool, a: int, b: int, wd: World)
    requires Verbatim(wd) && IsInt32(a) && IsInt32(b)
    ensures Value([Putn(a), if left then "<<" else ">>", Putn(b)], wd) == Ret(Int32(if left then wd.shl(a, b) else wd.shr(a, b)))
  {
    hide P0, Putn, Egetn, Lit, Int32, FineI, ShowI, Value;
    PutGet(a);
    PutGet(b);
    var n := Int32(if left then wd.shl(a, b) else wd.shr(a, b));
    PutGet(n);
    ShiftShown(left, a, b);
    var x := Shifted(left, Lit(a), Lit(b));
    ValueOf(Number(x), [Putn(a), if left then "<<" else ">>", Putn(b)], wd);
    LitValue(a, PLAIN, [], wd);
    LitValue(b, PLAIN, EvalS(Lit(a), PLAIN, [], wd).t, wd);
    assert EvalS(x, PLAIN, [], wd).out == Ret(Putn(n));
  }

  lemma ShiftShown(left: bool, a: int, b: int)
    ensures var e := Number(Shifted(left, Lit(a), Lit(b))); FineI(e) && ShowI(e) == [Putn(a), if left then "<<" else ">>", Putn(b)]
  {
    hide Putn;
    LitFacts(a);
    LitFacts(b);
  }

  lemma CommandValue(com: seq<Word>, wd: World)
    requires forall k :: 0 <= k < |com| ==> com[k] != "}"
    ensures Value(["{"] + com + ["}"], wd) == Ret(if wd.run([], com) == 0 then 1 else 0)
  {
    hide P0, Putn, Egetn, Value;
    PutGet(0);
    PutGet(1);
    ValueOf(Number(Command(com)), ["{"] + com + ["}"], wd);
    assert EvalS(Command(com), PLAIN, [], wd).out == Ret(Putn(if wd.run([], com) == 0 then 1 else 0));
  }

  lemma TestValue(c: char, file: Word, wd: World)
    requires Verbatim(wd) && c in "erwxfdzo" && !AnyOp(file)
    ensures Value([['-', c], file], wd) == Ret(if wd.test([Globbed(file)], c, file) then 1 else 0)
  {
    hide P0, Putn, Egetn, AnyOp, Value;
    PutGet(0);
    PutGet(1);
    ValueOf(Number(Test(c, file)), [['-', c], file], wd);
    assert wd.glob([], file) == Ret(file);
    assert [] + [Globbed(file)] == [Globbed(file)];
    assert EvalS(Test(c, file), PLAIN, [], wd).out == Ret(Putn(if wd.test([Globbed(file)], c, file) then 1 else 0));
  }

  lemma ParenValue(a: int, wd: World)
    requires Verbatim(wd) && IsInt32(a)
    ensures Value(["(", Putn(a), ")"], wd) == Ret(a)
  {
    hide P0, Putn, Egetn, Lit, FineS, FineI, ShowI, Value;
    PutGet(a);
    ParenShown(a);
    var x := Number(Lit(a));
    ValueOf(Number(Paren(x)), ["(", Putn(a), ")"], wd);
    LitValue(a, PLAIN, [], wd);
    assert EvalI(x, PLAIN, [], wd).out == Ret(a);
    assert EvalS(Paren(x), PLAIN, [], wd).out == Ret(Putn(a));
  }

  lemma ParenShown(a: int)
    ensures var e := Number(Paren(Number(Lit(a)))); FineI(e) && ShowI(e) == ["(", Putn(a), ")"]
  {
    hide Putn;
    LitFacts(a);
    assert FineI(Number(Lit(a))) && ShowI(Number(Lit(a))) == [Putn(a)];
    assert ShowS(Paren(Number(Lit(a)))) == ["("] + [Putn(a)] + [")"];
  }

  // ------------------------------------------------------------ numbers and words

  predicate AllDigits(s: Str) {
    forall i :: 0 <= i < |s| ==> Digit(s[i])
  }

  /** What digits stand for in base ten. */
  function Decimal(s: Str): int
    requires AllDigits(s)
  {
    if s == "" then 0 else 10 * Decimal(s[..|s| - 1]) + (s[|s| - 1] as int - '0' as int)
  }

  /** A number is an optional minus sign and digits, read on 32 bits; nothing at all is
      zero, and a sign alone an error. */
  lemma EgetnMeans(s: Str)
    ensures AllDigits(s) ==> Egetn(s) == Ret(Int32(Decimal(s)))
    ensures s != "" && s[0] == '-' ==> Egetn(s) == if |s| > 1 && AllDigits(s[1..]) then Ret(Int32(-Decimal(s[1..]))) else Fail(BadNumber)
    ensures s != "" && s[0] != '-' && !Digit(s[0]) ==> Egetn(s) == Fail(Syntax)
    ensures s != "" && Digit(s[0]) && !AllDigits(s) ==> Egetn(s) == Fail(BadNumber)
  {
    hide Int32, Digits, Decimal, ReadOn;
    Int32Same(0);
    DigitsMean(s, 0);
    Zeros(s);
    if s != "" && s[0] == '-' {
      DigitsMean(s[1..], 0);
      Zeros(s[1..]);
      if |s| > 1 && AllDigits(s[1..]) {
        NegativeWraps(Decimal(s[1..]));
      }
    }
  }

  lemma NegativeWraps(n: int)
    ensures Int32(-Int32(n)) == Int32(-n)
  {
    hide Int32;
    Int32Wraps(n, Int32(n));
    Int32Wraps(-n, Int32(-n));
    var a, b := Int32(n), Int32(-n);
    Multiple(a - n, b + n);
    Int32Wraps(-a, b);
  }

  lemma Multiple(x: int, y: int)
    requires x % 0x1_0000_0000 == 0 && y % 0x1_0000_0000 == 0
    ensures (x + y) % 0x1_0000_0000 == 0
  {
  }

  /** `n` read on with the digits of `s`. */
  function ReadOn(n: int, s: Str): int
    requires AllDigits(s)
    decreases |s|
  {
    if s == "" then n else ReadOn(n * 10 + (s[0] as int - '0' as int), s[1..])
  }

  lemma {:induction false} DigitsMean(s: Str, n: int)
    ensures AllDigits(s) ==> Digits(s, Int32(n)) == (Int32(ReadOn(n, s)), "")
    ensures !AllDigits(s) ==> Digits(s, Int32(n)).1 != ""
    decreases |s|
  {
    hide Int32;
    if s != "" && Digit(s[0]) {
      var d := s[0] as int - '0' as int;
      TenTimes(n, d);
      DigitsMean(s[1..], n * 10 + d);
      assert AllDigits(s) <==> AllDigits(s[1..]) by {
        assert forall i :: 0 < i < |s| ==> s[i] == s[1..][i - 1];
      }
    }
  }

  lemma TenTimes(n: int, d: int)
    ensures Int32(Int32(n) * 10 + d) == Int32(n * 10 + d)
  {
    hide Int32;
    var a := Int32(n);
    var b := Int32(a * 10 + d);
    Int32Wraps(n, a);
    Int32Wraps(a * 10 + d, b);
    var q, r := (a - n) / 0x1_0000_0000, (b - (a * 10 + d)) / 0x1_0000_0000;
    assert b - (n * 10 + d) == 0x1_0000_0000 * (10 * q + r);
    Int32Wraps(n * 10 + d, b);
  }

  /** Reading digit by digit gives the decimal number. */
  lemma {:induction false} ReadOnLast(n: int, s: Str)
    requires AllDigits(s) && s != ""
    ensures ReadOn(n, s) == ReadOn(n, s[..|s| - 1]) * 10 + (s[|s| - 1] as int - '0' as int)
    decreases |s|
  {
    if |s| > 1 {
      assert s[1..][..|s| - 2] == s[..|s| - 1][1..];
      ReadOnLast(n * 10 + (s[0] as int - '0' as int), s[1..]);
    }
  }

  lemma {:induction false} Zeros(s: Str)
    ensures AllDigits(s) ==> ReadOn(0, s) == Decimal(s)
    decreases |s|
  {
    if AllDigits(s) && s != "" {
      Zeros(s[..|s| - 1]);
      ReadOnLast(0, s);
    }
  }

  /** Words are globbed before they are compared, but not on the right of `=~` and `!~`. */
  lemma WordsMean(v: Word, w: Word, g: Str, h: Str, wd: World)
    requires FineS(Literal(v)) && FineS(Literal(w)) && wd.glob([], v) == Ret(g) && wd.glob([Globbed(v)], w) == Ret(h)
    ensures Value([v, "==", w], wd) == Ret(if g == h then 1 else 0)
    ensures Value([v, "!=", w], wd) == Ret(if g == h then 0 else 1)
    ensures Value([v, "=~", w], wd) == Ret(if wd.matches(g, w) then 1 else 0)
    ensures Value([v, "!~", w], wd) == Ret(if wd.matches(g, w) then 0 else 1)
  {
    hide Value, FineS;
    WordsValue(EQEQ, v, w, g, h, wd);
    WordsValue(NOTEQ, v, w, g, h, wd);
    WordsValue(EQMATCH, v, w, g, h, wd);
    WordsValue(NOTEQMATCH, v, w, g, h, wd);
  }

  lemma WordsValue(eq: Code, v: Word, w: Word, g: Str, h: Str, wd: World)
    requires FineS(Literal(v)) && FineS(Literal(w)) && wd.glob([], v) == Ret(g) && wd.glob([Globbed(v)], w) == Ret(h)
    requires eq in {EQEQ, NOTEQ, EQMATCH, NOTEQMATCH}
    ensures Value([v, EqWord(eq), w], wd) == Ret(Equal(eq, g, if eq == EQMATCH || eq == NOTEQMATCH then w else h, wd))
  {
    hide P0, Equal, FineS, EqWord, Value;
    var e := Equality(eq, Literal(v), Literal(w));
    assert FineI(e) && ShowI(e) == [v] + [EqWord(eq)] + [w] == [v, EqWord(eq), w];
    ValueOf(e, [v, EqWord(eq), w], wd);
    assert [] + [Globbed(v)] == [Globbed(v)];
    assert EvalS(Literal(v), PLAIN, [], wd) == Run(Ret(g), [Globbed(v)]);
  }
}
