/** Expressions of the C shell (bin/csh/sh.exp.c): one pass that parses and
    evaluates at once, against a grammar and an evaluator of trees. */
module CshExp {
  import opened CInt
  import opened Within

  type Str = seq<char>

  /** A word; an empty one is what an empty variable in quotes leaves. */
  type Word = Str

  /** `*cp`, which is NUL at the end. */
  function Head(s: Str): char {
    if s == "" then '\0' else s[0]
  }

  datatype Error = Syntax | BadNumber | MissingBrace | MissingFile | DivideByZero | ModByZero | CannotGlob

  datatype Out<T> = Ret(v: T) | Fail(e: Error)

  // ----------------------------------------------------------------- numbers

  predicate Digit(c: char) {
    '0' <= c <= '9'
  }

  /** `n = n * 10 + *cp++ - '0'`, and what is left behind the digits. */
  function Digits(s: Str, n: int): (int, Str)
    decreases |s|
  {
    if s == "" || !Digit(s[0]) then (n, s) else Digits(s[1..], Int32(n * 10 + (s[0] as int - '0' as int)))
  }

  /** `egetn(cp)` */
  function Egetn(s: Str): Out<int> {
    if s != "" && s[0] != '-' && !Digit(s[0]) then Fail(Syntax)
    else if s != "" && s[0] == '-' then
      if |s| < 2 || !Digit(s[1]) then Fail(BadNumber)
      else
        var (n, rest) := Digits(s[1..], 0);
        if rest != "" then Fail(BadNumber) else Ret(Int32(-n))
    else
      var (n, rest) := Digits(s, 0);
      if rest != "" then Fail(BadNumber) else Ret(n)
  }

  function Numeral(n: nat): (s: Str)
    ensures s != ""
  {
    if n > 9 then Numeral(n / 10) + [(n % 10 + '0' as int) as char] else [(n + '0' as int) as char]
  }

  /** `putn(n)` */
  function Putn(n: int): (s: Str)
    ensures s != ""
  {
    if n < 0 then "-" + Numeral(-n) else Numeral(n)
  }

  function Flag(b: bool): int {
    if b then 1 else 0
  }

  lemma {:induction false} NumeralDigits(n: nat)
    ensures forall i :: 0 <= i < |Numeral(n)| ==> Digit(Numeral(n)[i])
  {
    if n > 9 {
      NumeralDigits(n / 10);
    }
  }

  lemma {:induction false} DigitsConcat(a: Str, b: Str, n: int)
    requires forall i :: 0 <= i < |a| ==> Digit(a[i])
    ensures Digits(a + b, n) == Digits(b, Digits(a, n).0)
    decreases |a|
  {
    if a == "" {
      assert a + b == b;
    } else {
      assert (a + b)[1..] == a[1..] + b;
      DigitsConcat(a[1..], b, Int32(n * 10 + (a[0] as int - '0' as int)));
    }
  }

  /** Reading a numeral back, up to the width of an integer. */
  lemma {:induction false} NumeralValue(n: nat)
    ensures Digits(Numeral(n), 0) == (Int32(n), "")
    decreases n
  {
    if n > 9 {
      var m, d := n / 10, [(n % 10 + '0' as int) as char];
      NumeralValue(m);
      NumeralDigits(m);
      DigitsConcat(Numeral(m), d, 0);
      Wrap(m, n % 10);
      assert d[1..] == "";
      assert Digits(d, Int32(m)) == (Int32(n), "");
    } else {
      var d := Numeral(n);
      assert d[1..] == "";
    }
  }

  lemma Wrap(m: nat, d: nat)
    ensures Int32(Int32(m) * 10 + d) == Int32(m * 10 + d)
  {
    var q := (m + 0x8000_0000) / 0x1_0000_0000;
    assert Int32(m) == m - q * 0x1_0000_0000;
    Shift(m * 10 + d + 0x8000_0000, 10 * q);
  }

  lemma Shift(x: int, q: int)
    ensures (x - q * 0x1_0000_0000) % 0x1_0000_0000 == x % 0x1_0000_0000
  {
    var y := x - q * 0x1_0000_0000;
    assert y - 0x1_0000_0000 * (y / 0x1_0000_0000) == x - 0x1_0000_0000 * (y / 0x1_0000_0000 + q);
    Unique(x, y / 0x1_0000_0000 + q, y % 0x1_0000_0000);
  }

  lemma Unique(x: int, q: int, r: int)
    requires x == 0x1_0000_0000 * q + r && 0 <= r < 0x1_0000_0000
    ensures x % 0x1_0000_0000 == r
  {
  }

  /** What `putn` writes `egetn` reads back, for every integer. */
  lemma PutGet(n: int)
    requires IsInt32(n)
    ensures Egetn(Putn(n)) == Ret(n)
  {
    hide Numeral, Digits, Int32, Egetn;
    var m: nat := if n < 0 then -n else n;
    var s := Numeral(m);
    NumeralValue(m);
    NumeralDigits(m);
    if n < 0 {
      assert Putn(n)[1..] == s;
      EgetnNegative(s, Int32(m));
      Int32Negative(m);
    } else {
      EgetnPositive(s, Int32(m));
      Int32Same(m);
    }
  }

  lemma EgetnPositive(s: Str, n: int)
    requires s != "" && Digit(s[0]) && Digits(s, 0) == (n, "")
    ensures Egetn(s) == Ret(n)
  {
    hide Digits;
  }

  lemma EgetnNegative(s: Str, n: int)
    requires s != "" && Digit(s[0]) && Digits(s, 0) == (n, "")
    ensures Egetn("-" + s) == Ret(Int32(-n))
  {
    hide Digits, Int32;
    assert ("-" + s)[1..] == s;
  }

  lemma Int32Same(n: int)
    requires IsInt32(n)
    ensures Int32(n) == n
  {
    Unique(n + 0x8000_0000, 0, n + 0x8000_0000);
  }

  lemma Int32Negative(m: nat)
    requires m <= 0x8000_0000
    ensures Int32(-Int32(m)) == 0 - m
  {
    if m < 0x8000_0000 {
      Int32Same(m);
      Int32Same(0 - m);
    } else {
      Unique(0x1_0000_0000, 1, 0);
      assert Int32(m) == -0x8000_0000;
    }
  }

  /** Bit by bit, on 32 bits; `f` says what becomes of two bits. */
  function Bits(f: (nat, nat) -> nat, a: nat, b: nat, n: nat): nat {
    if n == 0 then 0 else f(a % 2, b % 2) % 2 + 2 * Bits(f, a / 2, b / 2, n - 1)
  }

  datatype Bit = BitOr | BitXor | BitAnd

  function OnBits(op: Bit): (nat, nat) -> nat {
    match op
    case BitOr => (x: nat, y: nat) => if x + y > 0 then 1 else 0
    case BitXor => (x: nat, y: nat) => x + y
    case BitAnd => (x: nat, y: nat) => x * y
  }

  function BitOp(op: Bit, a: int, b: int): int {
    Int32(Bits(OnBits(op), a % 0x1_0000_0000, b % 0x1_0000_0000, 32))
  }

  /** C's division, which truncates. */
  function Quotient(a: int, b: int): int
    requires b != 0
  {
    if (a >= 0) == (b > 0) then Abs(a) / Abs(b) else -(Abs(a) / Abs(b))
  }

  function Remainder(a: int, b: int): int
    requires b != 0
  {
    a - b * Quotient(a, b)
  }

  function Abs(a: int): nat {
    if a < 0 then -a else a
  }

  // ------------------------------------------------------------------- words

  /** What `isa` returns. */
  type Code = x: int | 0 <= x < 16

  const EQEQ := 1
  const GTR := 2
  const LSS := 4
  const NOTEQ := 6
  const EQMATCH := 7
  const NOTEQMATCH := 8

  /** `isa(cp, EQOP)` */
  function EqOp(w: Word): Code {
    if w == "==" then EQEQ else if w == "=~" then EQMATCH else if w == "!=" then NOTEQ else if w == "!~" then NOTEQMATCH else 0
  }

  /** `isa(cp, RELOP)` */
  function RelOp(w: Word): (r: Code)
    ensures r < 15
  {
    if Head(w) == '<' then LSS else if Head(w) == '>' then GTR else 0
  }

  predicate ShiftOp(w: Word) {
    |w| >= 2 && w[0] in "<>" && w[1] == w[0]
  }

  predicate AddOp(w: Word) {
    w == "+" || w == "-"
  }

  predicate MulOp(w: Word) {
    w == "*" || w == "/" || w == "%"
  }

  /** `isa(cp, ANYOP)` */
  predicate AnyOp(w: Word) {
    || AddOp(w) || MulOp(w) || EqOp(w) != 0 || RelOp(w) != 0
    || w in {"(", ")", "!", "~", "^", "\"", "|&", "<<", ">>"}
  }

  /** The word of a file test, such as `-e`. */
  predicate TestOp(w: Word) {
    |w| >= 2 && w[0] == '-' && w[1] in "erwxfdzo"
  }

  predicate Is(ws: seq<Word>, i: nat, w: Str) {
    i < |ws| && ws[i] == w
  }

  // ------------------------------------------------------------------- trees

  /** What yields a number: the levels down to comparison for equality. */
  datatype IExpr =
    | Or(l: IExpr, r: IExpr)
    | And(l: IExpr, r: IExpr)
    | Bitwise(op: Bit, l: IExpr, r: IExpr)
    | Equality(eq: Code, a: SExpr, b: SExpr)
    | Number(a: SExpr)

  /** What yields a string. */
  datatype SExpr =
    | Relation(rel: Code, a: SExpr, b: SExpr)
    | Shifted(left: bool, a: SExpr, b: SExpr)
    | Arith(op: char, a: SExpr, b: SExpr)
    | Not(a: SExpr)
    | Compl(a: SExpr)
    | Paren(e: IExpr)
    | Command(ws: seq<Word>)
    | Test(c: char, file: Word)
    | Blank
    | Literal(w: Word)

  datatype Parsed<T> = Tree(e: T, next: nat) | NoTree

  // ------------------------------------------------------------- the grammar

  /** Every operator groups to the right; each level is one function. */
  function P0(ws: seq<Word>, i: nat): (p: Parsed<IExpr>)
    ensures p.Tree? && i <= |ws| ==> i <= p.next <= |ws|
    decreases if i < |ws| then |ws| - i else 0, 10
  {
    var p := P1(ws, i);
    if p.Tree? && Is(ws, p.next, "||") && i <= |ws| then
      var q := P0(ws, p.next + 1);
      if q.Tree? then Tree(Or(p.e, q.e), q.next) else NoTree
    else p
  }

  function P1(ws: seq<Word>, i: nat): (p: Parsed<IExpr>)
    ensures p.Tree? && i <= |ws| ==> i <= p.next <= |ws|
    decreases if i < |ws| then |ws| - i else 0, 9
  {
    var p := P2(ws, i);
    if p.Tree? && Is(ws, p.next, "&&") && i <= |ws| then
      var q := P1(ws, p.next + 1);
      if q.Tree? then Tree(And(p.e, q.e), q.next) else NoTree
    else p
  }

  function P2(ws: seq<Word>, i: nat): (p: Parsed<IExpr>)
    ensures p.Tree? && i <= |ws| ==> i <= p.next <= |ws|
    decreases if i < |ws| then |ws| - i else 0, 8
  {
    var p := P2a(ws, i);
    if p.Tree? && Is(ws, p.next, "|") && i <= |ws| then
      var q := P2(ws, p.next + 1);
      if q.Tree? then Tree(Bitwise(BitOr, p.e, q.e), q.next) else NoTree
    else p
  }

  function P2a(ws: seq<Word>, i: nat): (p: Parsed<IExpr>)
    ensures p.Tree? && i <= |ws| ==> i <= p.next <= |ws|
    decreases if i < |ws| then |ws| - i else 0, 7
  {
    var p := P2b(ws, i);
    if p.Tree? && Is(ws, p.next, "^") && i <= |ws| then
      var q := P2a(ws, p.next + 1);
      if q.Tree? then Tree(Bitwise(BitXor, p.e, q.e), q.next) else NoTree
    else p
  }

  function P2b(ws: seq<Word>, i: nat): (p: Parsed<IExpr>)
    ensures p.Tree? && i <= |ws| ==> i <= p.next <= |ws|
    decreases if i < |ws| then |ws| - i else 0, 6
  {
    var p := P2c(ws, i);
    if p.Tree? && Is(ws, p.next, "&") && i <= |ws| then
      var q := P2b(ws, p.next + 1);
      if q.Tree? then Tree(Bitwise(BitAnd, p.e, q.e), q.next) else NoTree
    else p
  }

  function P2c(ws: seq<Word>, i: nat): (p: Parsed<IExpr>)
    ensures p.Tree? && i <= |ws| ==> i <= p.next <= |ws|
    decreases if i < |ws| then |ws| - i else 0, 5
  {
    var p := P3(ws, i);
    if p.NoTree? then NoTree
    else if i <= |ws| && p.next < |ws| && EqOp(ws[p.next]) != 0 then
      var q := P3(ws, p.next + 1);
      if q.Tree? then Tree(Equality(EqOp(ws[p.next]), p.e, q.e), q.next) else NoTree
    else Tree(Number(p.e), p.next)
  }

  function P3(ws: seq<Word>, i: nat): (p: Parsed<SExpr>)
    ensures p.Tree? && i <= |ws| ==> i <= p.next <= |ws|
    decreases if i < |ws| then |ws| - i else 0, 4
  {
    var p := P3a(ws, i);
    if p.Tree? && i <= |ws| && p.next < |ws| && RelOp(ws[p.next]) != 0 then
      var same := Is(ws, p.next + 1, "=");
      var q := P3(ws, if same then p.next + 2 else p.next + 1);
      if q.Tree? then Tree(Relation(RelOp(ws[p.next]) + Flag(same), p.e, q.e), q.next) else NoTree
    else p
  }

  function P3a(ws: seq<Word>, i: nat): (p: Parsed<SExpr>)
    ensures p.Tree? && i <= |ws| ==> i <= p.next <= |ws|
    decreases if i < |ws| then |ws| - i else 0, 3
  {
    var p := P4(ws, i);
    if p.Tree? && i <= |ws| && p.next < |ws| && ShiftOp(ws[p.next]) then
      var q := P3a(ws, p.next + 1);
      if q.Tree? then Tree(Shifted(ws[p.next][0] == '<', p.e, q.e), q.next) else NoTree
    else p
  }

  function P4(ws: seq<Word>, i: nat): (p: Parsed<SExpr>)
    ensures p.Tree? && i <= |ws| ==> i <= p.next <= |ws|
    decreases if i < |ws| then |ws| - i else 0, 2
  {
    var p := P5(ws, i);
    if p.Tree? && i <= |ws| && p.next < |ws| && AddOp(ws[p.next]) then
      var q := P4(ws, p.next + 1);
      if q.Tree? then Tree(Arith(ws[p.next][0], p.e, q.e), q.next) else NoTree
    else p
  }

  function P5(ws: seq<Word>, i: nat): (p: Parsed<SExpr>)
    ensures p.Tree? && i <= |ws| ==> i <= p.next <= |ws|
    decreases if i < |ws| then |ws| - i else 0, 1
  {
    var p := P6(ws, i);
    if p.Tree? && i <= |ws| && p.next < |ws| && MulOp(ws[p.next]) then
      var q := P5(ws, p.next + 1);
      if q.Tree? then Tree(Arith(ws[p.next][0], p.e, q.e), q.next) else NoTree
    else p
  }

  /** Where the first `}` from `i` on is, or the end. */
  function Brace(ws: seq<Word>, i: nat): (j: nat)
    ensures i <= |ws| ==> i <= j <= |ws|
    ensures j < |ws| ==> ws[j] == "}"
    decreases |ws| - i
  {
    if i < |ws| && ws[i] != "}" then Brace(ws, i + 1) else i
  }

  function P6(ws: seq<Word>, i: nat): (p: Parsed<SExpr>)
    ensures p.Tree? && i <= |ws| ==> i <= p.next <= |ws|
    decreases if i < |ws| then |ws| - i else 0, 0
  {
    if i >= |ws| then NoTree
    else if ws[i] == "!" then
      var p := P6(ws, i + 1);
      if p.Tree? then Tree(Not(p.e), p.next) else NoTree
    else if ws[i] == "~" then
      var p := P6(ws, i + 1);
      if p.Tree? then Tree(Compl(p.e), p.next) else NoTree
    else if ws[i] == "(" then
      var p := P0(ws, i + 1);
      if p.Tree? && p.next < |ws| && Head(ws[p.next]) == ')' then Tree(Paren(p.e), p.next + 1) else NoTree
    else if ws[i] == "{" then
      var j := Brace(ws, i + 1);
      if j < |ws| then Tree(Command(ws[i + 1..j]), j + 1) else NoTree
    else if AnyOp(ws[i]) then Tree(Blank, i)
    else if TestOp(ws[i]) then
      if i + 1 < |ws| && !AnyOp(ws[i + 1]) then Tree(Test(ws[i][1], ws[i + 1]), i + 2) else NoTree
    else Tree(Literal(ws[i]), i + 1)
  }

  // ----------------------------------------------------------- the evaluator

  /** What happens to the world around the evaluator. */
  datatype Event = Globbed(w: Word) | Ran(ws: seq<Word>) | Tested(c: char, file: Str)

  type Trace = seq<Event>

  /** The answers of the world, which may depend on everything before. */
  datatype World = World(
    glob: (Trace, Word) -> Out<Str>,
    run: (Trace, seq<Word>) -> int,
    test: (Trace, char, Str) -> bool,
    matches: (Str, Str) -> bool,
    shl: (int, int) -> int,
    shr: (int, int) -> int)

  /** The argument `ignore`: IGNORE and NOGLOB. */
  datatype Flags = Flags(ignore: bool, noglob: bool)

  /** The outcome of an evaluation and the trace after it. */
  datatype Run<T> = Run(out: Out<T>, t: Trace)

  function Globone(w: Word, t: Trace, wd: World): Run<Str> {
    var r := wd.glob(t, w);
    Run(if r.Fail? then Fail(CannotGlob) else r, t + [Globbed(w)])
  }

  /** An operation on two numbers. */
  function Compute(op: char, p1: Str, p2: Str): Out<int> {
    var (a, b) := (Egetn(p1), Egetn(p2));
    if op == '/' || op == '%' then
      if b.Fail? then b
      else if b.v == 0 then Fail(if op == '/' then DivideByZero else ModByZero)
      else if a.Fail? then a
      else Ret(Int32(if op == '/' then Quotient(a.v, b.v) else Remainder(a.v, b.v)))
    else if a.Fail? then a
    else if b.Fail? then b
    else Ret(Int32(if op == '+' then a.v + b.v else if op == '-' then a.v - b.v else a.v * b.v))
  }

  function Compare(rel: int, p1: Str, p2: Str): Out<int> {
    var (a, b) := (Egetn(p1), Egetn(p2));
    if a.Fail? then a
    else if b.Fail? then b
    else Ret(Flag(
      if rel == GTR then a.v > b.v else if rel == GTR + 1 then a.v >= b.v
      else if rel == LSS then a.v < b.v else a.v <= b.v))
  }

  function ShiftBits(left: bool, p1: Str, p2: Str, wd: World): Out<int> {
    var (a, b) := (Egetn(p1), Egetn(p2));
    if a.Fail? then a
    else if b.Fail? then b
    else Ret(Int32(if left then wd.shl(a.v, b.v) else wd.shr(a.v, b.v)))
  }

  function Equal(eq: int, p1: Str, p2: Str, wd: World): int {
    Flag(
      if eq == EQEQ then p1 == p2 else if eq == NOTEQ then p1 != p2
      else if eq == EQMATCH then wd.matches(p1, p2) else !wd.matches(p1, p2))
  }

  function PutOut(o: Out<int>, t: Trace): Run<Str> {
    Run(if o.Ret? then Ret(Putn(o.v)) else Fail(o.e), t)
  }

  /** The value of a tree. */
  function EvalI(e: IExpr, f: Flags, t: Trace, wd: World): Run<int>
    decreases e
  {
    match e
    case Or(l, r) =>
      var a := EvalI(l, f, t, wd);
      if a.out.Fail? then a
      else
        var b := EvalI(r, Flags(f.ignore || a.out.v != 0, false), a.t, wd);
        if b.out.Fail? then b else Run(Ret(Flag(a.out.v != 0 || b.out.v != 0)), b.t)
    case And(l, r) =>
      var a := EvalI(l, f, t, wd);
      if a.out.Fail? then a
      else
        var b := EvalI(r, Flags(f.ignore || a.out.v == 0, false), a.t, wd);
        if b.out.Fail? then b else Run(Ret(Flag(a.out.v != 0 && b.out.v != 0)), b.t)
    case Bitwise(op, l, r) =>
      var a := EvalI(l, f, t, wd);
      if a.out.Fail? then a
      else
        var b := EvalI(r, f, a.t, wd);
        if b.out.Fail? then b else Run(Ret(BitOp(op, a.out.v, b.out.v)), b.t)
    case Equality(eq, x, y) =>
      var a := EvalS(x, f, t, wd);
      if a.out.Fail? then Run(Fail(a.out.e), a.t)
      else
        var b := EvalS(y, if eq == EQMATCH || eq == NOTEQMATCH then f.(noglob := true) else f, a.t, wd);
        if b.out.Fail? then Run(Fail(b.out.e), b.t)
        else Run(Ret(if f.ignore then eq else Equal(eq, a.out.v, b.out.v, wd)), b.t)
    case Number(x) =>
      var a := EvalS(x, f, t, wd);
      if a.out.Fail? then Run(Fail(a.out.e), a.t) else Run(Egetn(a.out.v), a.t)
  }

  function EvalS(e: SExpr, f: Flags, t: Trace, wd: World): Run<Str>
    decreases e
  {
    match e
    case Relation(rel, x, y) =>
      var a := EvalS(x, f, t, wd);
      if a.out.Fail? then a
      else
        var b := EvalS(y, f, a.t, wd);
        if b.out.Fail? then b else PutOut(if f.ignore then Ret(rel) else Compare(rel, a.out.v, b.out.v), b.t)
    case Shifted(left, x, y) =>
      var a := EvalS(x, f, t, wd);
      if a.out.Fail? then a
      else
        var b := EvalS(y, f, a.t, wd);
        if b.out.Fail? then b else PutOut(ShiftBits(left, a.out.v, b.out.v, wd), b.t)
    case Arith(op, x, y) =>
      var a := EvalS(x, f, t, wd);
      if a.out.Fail? then a
      else
        var b := EvalS(y, f, a.t, wd);
        if b.out.Fail? then b else PutOut(if f.ignore then Ret(0) else Compute(op, a.out.v, b.out.v), b.t)
    case Not(x) =>
      var a := EvalS(x, f, t, wd);
      if a.out.Fail? then a
      else
        var n := Egetn(a.out.v);
        PutOut(if n.Fail? then n else Ret(Flag(n.v == 0)), a.t)
    case Compl(x) =>
      var a := EvalS(x, f, t, wd);
      if a.out.Fail? then a
      else
        var n := Egetn(a.out.v);
        PutOut(if n.Fail? then n else Ret(-n.v - 1), a.t)
    case Paren(x) =>
      var a := EvalI(x, f, t, wd);
      PutOut(a.out, a.t)
    case Command(ws) => if f.ignore then Run(Ret(""), t) else PutOut(Ret(Flag(wd.run(t, ws) == 0)), t + [Ran(ws)])
    case Test(c, file) =>
      if f.ignore then Run(Ret(""), t)
      else
        var g := Globone(file, t, wd);
        if g.out.Fail? then g else PutOut(Ret(Flag(wd.test(g.t, c, g.out.v))), g.t + [Tested(c, g.out.v)])
    case Blank => Run(Ret(""), t)
    case Literal(w) => if f.noglob then Run(Ret(w), t) else Globone(w, t, wd)
  }

  // ---------------------------------------------------------- the single pass

  /** The evaluator of the shell: `vp` is the cursor in the list of words that
      its functions share. */
  class Evaluator {
    const words: seq<Word>
    const world: World
    var vp: nat
    var trace: Trace

    constructor (words: seq<Word>, world: World)
      ensures vp == 0 && trace == [] && this.words == words && this.world == world
    {
      this.words, this.world, vp, trace := words, world, 0, [];
    }

    /** A pass from cursor `i` has done what evaluating the tree would do, and
        left the cursor where the tree ends; there is no value without a tree. */
    ghost predicate Done<T, U>(p: Parsed<T>, run: Run<U>, out: Out<U>)
      reads this
    {
      if p.Tree? then out == run.out && trace == run.t && (out.Ret? ==> vp == p.next) else out.Fail?
    }

    ghost function RunI(p: Parsed<IExpr>, f: Flags, t: Trace): Run<int> {
      if p.Tree? then EvalI(p.e, f, t, world) else Run(Fail(Syntax), t)
    }

    ghost function RunS(p: Parsed<SExpr>, f: Flags, t: Trace): Run<Str> {
      if p.Tree? then EvalS(p.e, f, t, world) else Run(Fail(Syntax), t)
    }

    ghost function Rest(): nat
      reads this
    {
      if vp < |words| then |words| - vp else 0
    }

    method Exp(ignore: Flags) returns (out: Out<int>)
      requires vp <= |words|
      modifies this
      ensures vp <= |words|
      ensures var p := P0(words, old(vp)); Done(p, RunI(p, ignore, old(trace)), out)
      decreases Rest(), 10
    {
      hide P1, P2, P2a, P2b, P2c, P3, P3a, P4, P5, P6, BitOp;
      ghost var i, t := vp, trace;
      out := Exp1(ignore);
      if out.Fail? {
        return;
      }
      var p1 := out.v;
      if vp < |words| && words[vp] == "||" {
        vp := vp + 1;
        out := Exp(Flags(ignore.ignore || p1 != 0, false));
        if out.Ret? {
          out := Ret(Flag(p1 != 0 || out.v != 0));
        }
      }
    }

    method Exp1(ignore: Flags) returns (out: Out<int>)
      requires vp <= |words|
      modifies this
      ensures vp <= |words|
      ensures var p := P1(words, old(vp)); Done(p, RunI(p, ignore, old(trace)), out)
      decreases Rest(), 9
    {
      hide P0, P2, P2a, P2b, P2c, P3, P3a, P4, P5, P6, BitOp;
      out := Exp2(ignore);
      if out.Fail? {
        return;
      }
      var p1 := out.v;
      if vp < |words| && words[vp] == "&&" {
        vp := vp + 1;
        out := Exp1(Flags(ignore.ignore || p1 == 0, false));
        if out.Ret? {
          out := Ret(Flag(p1 != 0 && out.v != 0));
        }
      }
    }

    method Exp2(ignore: Flags) returns (out: Out<int>)
      requires vp <= |words|
      modifies this
      ensures vp <= |words|
      ensures var p := P2(words, old(vp)); Done(p, RunI(p, ignore, old(trace)), out)
      decreases Rest(), 8
    {
      hide P0, P1, P2a, P2b, P2c, P3, P3a, P4, P5, P6, BitOp;
      out := Exp2a(ignore);
      if out.Fail? {
        return;
      }
      var p1 := out.v;
      if vp < |words| && words[vp] == "|" {
        vp := vp + 1;
        out := Exp2(ignore);
        if out.Ret? {
          out := Ret(BitOp(BitOr, p1, out.v));
        }
      }
    }

    method Exp2a(ignore: Flags) returns (out: Out<int>)
      requires vp <= |words|
      modifies this
      ensures vp <= |words|
      ensures var p := P2a(words, old(vp)); Done(p, RunI(p, ignore, old(trace)), out)
      decreases Rest(), 7
    {
      hide P0, P1, P2, P2b, P2c, P3, P3a, P4, P5, P6, BitOp;
      out := Exp2b(ignore);
      if out.Fail? {
        return;
      }
      var p1 := out.v;
      if vp < |words| && words[vp] == "^" {
        vp := vp + 1;
        out := Exp2a(ignore);
        if out.Ret? {
          out := Ret(BitOp(BitXor, p1, out.v));
        }
      }
    }

    method Exp2b(ignore: Flags) returns (out: Out<int>)
      requires vp <= |words|
      modifies this
      ensures vp <= |words|
      ensures var p := P2b(words, old(vp)); Done(p, RunI(p, ignore, old(trace)), out)
      decreases Rest(), 6
    {
      hide P0, P1, P2, P2a, P2c, P3, P3a, P4, P5, P6, BitOp;
      out := Exp2c(ignore);
      if out.Fail? {
        return;
      }
      var p1 := out.v;
      if vp < |words| && words[vp] == "&" {
        vp := vp + 1;
        out := Exp2b(ignore);
        if out.Ret? {
          out := Ret(BitOp(BitAnd, p1, out.v));
        }
      }
    }

    method Exp2c(ignore: Flags) returns (out: Out<int>)
      requires vp <= |words|
      modifies this
      ensures vp <= |words|
      ensures var p := P2c(words, old(vp)); Done(p, RunI(p, ignore, old(trace)), out)
      decreases Rest(), 5
    {
      hide P0, P1, P2, P2a, P2b, P3, P3a, P4, P5, P6, Egetn, Putn, Compare, ShiftBits, Compute, Equal;
      var o1 := Exp3(ignore);
      if o1.Fail? {
        return Fail(o1.e);
      }
      if vp < |words| && EqOp(words[vp]) != 0 {
        var i := EqOp(words[vp]);
        vp := vp + 1;
        var o2 := Exp3(if i == EQMATCH || i == NOTEQMATCH then ignore.(noglob := true) else ignore);
        if o2.Fail? {
          return Fail(o2.e);
        }
        if !ignore.ignore {
          i := Equal(i, o1.v, o2.v, world);
        }
        return Ret(i);
      }
      out := Egetn(o1.v);
    }

    method Exp3(ignore: Flags) returns (out: Out<Str>)
      requires vp <= |words|
      modifies this
      ensures vp <= |words|
      ensures var p := P3(words, old(vp)); Done(p, RunS(p, ignore, old(trace)), out)
      decreases Rest(), 4
    {
      hide P0, P1, P2, P2a, P2b, P2c, P3a, P4, P5, P6, Egetn, Putn, Compare, ShiftBits, Compute, Equal;
      out := Exp3a(ignore);
      if out.Fail? {
        return;
      }
      if vp < |words| && RelOp(words[vp]) != 0 {
        var p1, i := out.v, RelOp(words[vp]);
        vp := vp + 1;
        if vp < |words| && words[vp] == "=" {
          i, vp := i + 1, vp + 1;
        }
        out := Exp3(ignore);
        if out.Ret? {
          var n := if ignore.ignore then Ret(i) else Compare(i, p1, out.v);
          out := if n.Ret? then Ret(Putn(n.v)) else Fail(n.e);
        }
      }
    }

    method Exp3a(ignore: Flags) returns (out: Out<Str>)
      requires vp <= |words|
      modifies this
      ensures vp <= |words|
      ensures var p := P3a(words, old(vp)); Done(p, RunS(p, ignore, old(trace)), out)
      decreases Rest(), 3
    {
      hide P0, P1, P2, P2a, P2b, P2c, P3, P4, P5, P6, Egetn, Putn, Compare, ShiftBits, Compute, Equal;
      out := Exp4(ignore);
      if out.Fail? {
        return;
      }
      if vp < |words| && ShiftOp(words[vp]) {
        var p1, op := out.v, words[vp];
        vp := vp + 1;
        out := Exp3a(ignore);
        if out.Ret? {
          var n := ShiftBits(op[0] == '<', p1, out.v, world);
          out := if n.Ret? then Ret(Putn(n.v)) else Fail(n.e);
        }
      }
    }

    method Exp4(ignore: Flags) returns (out: Out<Str>)
      requires vp <= |words|
      modifies this
      ensures vp <= |words|
      ensures var p := P4(words, old(vp)); Done(p, RunS(p, ignore, old(trace)), out)
      decreases Rest(), 2
    {
      hide P0, P1, P2, P2a, P2b, P2c, P3, P3a, P5, P6, Egetn, Putn, Compare, ShiftBits, Compute, Equal;
      out := Exp5(ignore);
      if out.Fail? {
        return;
      }
      if vp < |words| && AddOp(words[vp]) {
        var p1, op := out.v, words[vp];
        vp := vp + 1;
        out := Exp4(ignore);
        if out.Ret? {
          var n := if ignore.ignore then Ret(0) else Compute(op[0], p1, out.v);
          out := if n.Ret? then Ret(Putn(n.v)) else Fail(n.e);
        }
      }
    }

    method Exp5(ignore: Flags) returns (out: Out<Str>)
      requires vp <= |words|
      modifies this
      ensures vp <= |words|
      ensures var p := P5(words, old(vp)); Done(p, RunS(p, ignore, old(trace)), out)
      decreases Rest(), 1
    {
      hide P0, P1, P2, P2a, P2b, P2c, P3, P3a, P4, P6, Egetn, Putn, Compare, ShiftBits, Compute, Equal;
      out := Exp6(ignore);
      if out.Fail? {
        return;
      }
      if vp < |words| && MulOp(words[vp]) {
        var p1, op := out.v, words[vp];
        vp := vp + 1;
        out := Exp5(ignore);
        if out.Ret? {
          var n := if ignore.ignore then Ret(0) else Compute(op[0], p1, out.v);
          out := if n.Ret? then Ret(Putn(n.v)) else Fail(n.e);
        }
      }
    }

    method Exp6(ignore: Flags) returns (out: Out<Str>)
      requires vp <= |words|
      modifies this
      ensures vp <= |words|
      ensures var p := P6(words, old(vp)); Done(p, RunS(p, ignore, old(trace)), out)
      decreases Rest(), 0
    {
      hide P0, P1, P2, P2a, P2b, P2c, P3, P3a, P4, P5, P6, RunS, AnyOp;
      if vp == |words| {
        NoOperand(old(vp), ignore, trace);
        return Fail(Syntax);
      }
      var w := words[vp];
      if w == "!" || w == "~" {
        out := Unary(ignore);
      } else if w == "(" {
        out := Parens(ignore);
      } else if w == "{" {
        out := Braces(ignore);
      } else if AnyOp(w) {
        NoOperand(vp, ignore, trace);
        out := Ret("");
      } else {
        out := Operand(ignore);
      }
    }

    /** No word that could be an operand. */
    lemma NoOperand(i: nat, ignore: Flags, t: Trace)
      requires i <= |words|
      requires i < |words| ==> AnyOp(words[i]) && words[i] != "!" && words[i] != "~" && words[i] != "(" && words[i] != "{"
      ensures P6(words, i) == if i == |words| then NoTree else Tree(Blank, i)
      ensures RunS(P6(words, i), ignore, t) == Run(if i == |words| then Fail(Syntax) else Ret(""), t)
    {
    }

    /** `!` and `~` */
    method Unary(ignore: Flags) returns (out: Out<Str>)
      requires vp < |words| && (words[vp] == "!" || words[vp] == "~")
      modifies this
      ensures vp <= |words|
      ensures var p := P6(words, old(vp)); Done(p, RunS(p, ignore, old(trace)), out)
      decreases Rest(), -1
    {
      hide P0, P1, P2, P2a, P2b, P2c, P3, P3a, P4, P5, Putn, Egetn, AnyOp, TestOp, Brace;
      var w := words[vp];
      vp := vp + 1;
      out := Exp6(ignore);
      if out.Ret? {
        var i := Egetn(out.v);
        out := if i.Fail? then Fail(i.e) else Ret(Putn(if w == "!" then Flag(i.v == 0) else -i.v - 1));
      }
    }

    /** A file test, or a word. */
    method Operand(ignore: Flags) returns (out: Out<Str>)
      requires vp < |words| && words[vp] != "!" && words[vp] != "~" && words[vp] != "(" && words[vp] != "{" && !AnyOp(words[vp])
      modifies this
      ensures vp <= |words|
      ensures var p := P6(words, old(vp)); Done(p, RunS(p, ignore, old(trace)), out)
    {
      hide P0, P1, P2, P2a, P2b, P2c, P3, P3a, P4, P5, Putn, Egetn, AnyOp;
      var w := words[vp];
      vp := vp + 1;
      if TestOp(w) {
        out := FileTest(w[1], ignore);
      } else if ignore.noglob {
        out := Ret(w);
      } else {
        out := GlobOne(w);
      }
    }

    /** `( ... )` */
    method Parens(ignore: Flags) returns (out: Out<Str>)
      requires vp < |words| && words[vp] == "("
      modifies this
      ensures vp <= |words|
      ensures var p := P6(words, old(vp)); Done(p, RunS(p, ignore, old(trace)), out)
      decreases Rest(), -1
    {
      hide P0, P1, P2, P2a, P2b, P2c, P3, P3a, P4, P5, Putn, Egetn;
      vp := vp + 1;
      var ccode := Exp(ignore);
      if ccode.Fail? {
        return Fail(ccode.e);
      }
      if vp == |words| || Head(words[vp]) != ')' {
        return Fail(Syntax);
      }
      vp := vp + 1;
      out := Ret(Putn(ccode.v));
    }

    method GlobOne(w: Word) returns (out: Out<Str>)
      modifies this`trace
      ensures Run(out, trace) == Globone(w, old(trace), world)
    {
      out := world.glob(trace, w);
      if out.Fail? {
        out := Fail(CannotGlob);
      }
      trace := trace + [Globbed(w)];
    }

    /** The rest of a file test, from its file name on. */
    method FileTest(c: char, ignore: Flags) returns (out: Out<Str>)
      requires 0 < vp <= |words| && words[vp - 1] != "!" && words[vp - 1] != "~" && words[vp - 1] != "(" && words[vp - 1] != "{"
      requires !AnyOp(words[vp - 1]) && TestOp(words[vp - 1]) && c == words[vp - 1][1]
      modifies this
      ensures vp <= |words|
      ensures var p := P6(words, old(vp) - 1); Done(p, RunS(p, ignore, old(trace)), out)
    {
      if vp == |words| || AnyOp(words[vp]) {
        return Fail(MissingFile);
      }
      var dp := words[vp];
      vp := vp + 1;
      if ignore.ignore {
        return Ret("");
      }
      out := GlobOne(dp);
      if out.Ret? {
        var ep := out.v;
        out := Ret(Putn(Flag(world.test(trace, c, ep))));
        trace := trace + [Tested(c, ep)];
      }
    }

    /** `{ ... }` */
    method Braces(ignore: Flags) returns (out: Out<Str>)
      requires vp < |words| && words[vp] == "{"
      modifies this
      ensures vp <= |words|
      ensures var p := P6(words, old(vp)); Done(p, RunS(p, ignore, old(trace)), out)
    {
      vp := vp + 1;
      var v := vp;
      while vp < |words| && words[vp] != "}"
        invariant v <= vp <= |words| && Brace(words, v) == Brace(words, vp) && trace == old(trace)
      {
        vp := vp + 1;
      }
      if vp == |words| {
        return Fail(MissingBrace);
      }
      var com := words[v..vp];
      vp := vp + 1;
      if ignore.ignore {
        return Ret("");
      }
      var status := world.run(trace, com);
      trace := trace + [Ran(com)];
      out := Ret(Putn(Flag(status == 0)));
    }
  }

  // --------------------------------------------------------- skipped operands

  /** A trace has gone on, but only words have been globbed. */
  ghost predicate OnlyGlobs(t: Trace, t': Trace) {
    |t| <= |t'| && t'[..|t|] == t && forall i :: |t| <= i < |t'| ==> t'[i].Globbed?
  }

  lemma OnlyGlobsOn(t: Trace, t': Trace, t'': Trace)
    requires OnlyGlobs(t, t') && OnlyGlobs(t', t'')
    ensures OnlyGlobs(t, t'')
  {
    assert t''[..|t|] == t''[..|t'|][..|t|];
    forall i | |t| <= i < |t''| ensures t''[i].Globbed? {
      assert i < |t'| ==> t''[i] == t''[..|t'|][i];
    }
  }

  /** An operand that is skipped runs no command, makes no file test and divides
      nothing. */
  ghost predicate Harmless<T>(t: Trace, r: Run<T>) {
    OnlyGlobs(t, r.t) && (r.out.Fail? ==> r.out.e in {Syntax, BadNumber, CannotGlob})
  }

  lemma {:induction false} SkippedI(e: IExpr, f: Flags, t: Trace, wd: World)
    requires f.ignore
    ensures Harmless(t, EvalI(e, f, t, wd))
    decreases e
  {
    match e {
      case Or(l, r) =>
        SkippedI(l, f, t, wd);
        var a := EvalI(l, f, t, wd);
        if a.out.Ret? {
          SkippedI(r, Flags(true, false), a.t, wd);
          OnlyGlobsOn(t, a.t, EvalI(r, Flags(true, false), a.t, wd).t);
        }
      case And(l, r) =>
        SkippedI(l, f, t, wd);
        var a := EvalI(l, f, t, wd);
        if a.out.Ret? {
          SkippedI(r, Flags(true, false), a.t, wd);
          OnlyGlobsOn(t, a.t, EvalI(r, Flags(true, false), a.t, wd).t);
        }
      case Bitwise(op, l, r) =>
        SkippedI(l, f, t, wd);
        var a := EvalI(l, f, t, wd);
        if a.out.Ret? {
          SkippedI(r, f, a.t, wd);
          OnlyGlobsOn(t, a.t, EvalI(r, f, a.t, wd).t);
        }
      case Equality(eq, x, y) =>
        SkippedS(x, f, t, wd);
        var a := EvalS(x, f, t, wd);
        var g := if eq == EQMATCH || eq == NOTEQMATCH then f.(noglob := true) else f;
        if a.out.Ret? {
          SkippedS(y, g, a.t, wd);
          OnlyGlobsOn(t, a.t, EvalS(y, g, a.t, wd).t);
        }
      case Number(x) => SkippedS(x, f, t, wd);
    }
  }

  lemma {:induction false} SkippedS(e: SExpr, f: Flags, t: Trace, wd: World)
    requires f.ignore
    ensures Harmless(t, EvalS(e, f, t, wd))
    decreases e
  {
    match e {
      case Relation(_, x, y) => SkippedPair(e, x, y, f, t, wd);
      case Shifted(_, x, y) => SkippedPair(e, x, y, f, t, wd);
      case Arith(_, x, y) => SkippedPair(e, x, y, f, t, wd);
      case Not(x) => SkippedS(x, f, t, wd);
      case Compl(x) => SkippedS(x, f, t, wd);
      case Paren(x) => SkippedI(x, f, t, wd);
      case _ =>
    }
  }

  lemma {:induction false} SkippedPair(e: SExpr, x: SExpr, y: SExpr, f: Flags, t: Trace, wd: World)
    requires f.ignore && x < e && y < e
    ensures Harmless(t, EvalS(x, f, t, wd))
    ensures var a := EvalS(x, f, t, wd); a.out.Ret? ==> Harmless(t, EvalS(y, f, a.t, wd))
    decreases e, 0
  {
    SkippedS(x, f, t, wd);
    var a := EvalS(x, f, t, wd);
    if a.out.Ret? {
      SkippedS(y, f, a.t, wd);
      OnlyGlobsOn(t, a.t, EvalS(y, f, a.t, wd).t);
    }
  }

  // ------------------------------------------------- short-circuit semantics

  /** The value of a tree when an operand that does not matter is not looked at. */
  function ShortI(e: IExpr, noglob: bool, t: Trace, wd: World): Run<int>
    decreases e
  {
    match e
    case Or(l, r) =>
      var a := ShortI(l, noglob, t, wd);
      if a.out.Fail? then a
      else if a.out.v != 0 then Run(Ret(1), a.t)
      else
        var b := ShortI(r, false, a.t, wd);
        if b.out.Fail? then b else Run(Ret(Flag(b.out.v != 0)), b.t)
    case And(l, r) =>
      var a := ShortI(l, noglob, t, wd);
      if a.out.Fail? then a
      else if a.out.v == 0 then Run(Ret(0), a.t)
      else
        var b := ShortI(r, false, a.t, wd);
        if b.out.Fail? then b else Run(Ret(Flag(b.out.v != 0)), b.t)
    case Bitwise(op, l, r) =>
      var a := ShortI(l, noglob, t, wd);
      if a.out.Fail? then a
      else
        var b := ShortI(r, noglob, a.t, wd);
        if b.out.Fail? then b else Run(Ret(BitOp(op, a.out.v, b.out.v)), b.t)
    case Equality(eq, x, y) =>
      var a := ShortS(x, noglob, t, wd);
      if a.out.Fail? then Run(Fail(a.out.e), a.t)
      else
        var b := ShortS(y, noglob || eq == EQMATCH || eq == NOTEQMATCH, a.t, wd);
        if b.out.Fail? then Run(Fail(b.out.e), b.t) else Run(Ret(Equal(eq, a.out.v, b.out.v, wd)), b.t)
    case Number(x) =>
      var a := ShortS(x, noglob, t, wd);
      if a.out.Fail? then Run(Fail(a.out.e), a.t) else Run(Egetn(a.out.v), a.t)
  }

  function ShortS(e: SExpr, noglob: bool, t: Trace, wd: World): Run<Str>
    decreases e
  {
    match e
    case Relation(rel, x, y) =>
      var a := ShortS(x, noglob, t, wd);
      if a.out.Fail? then a
      else
        var b := ShortS(y, noglob, a.t, wd);
        if b.out.Fail? then b else PutOut(Compare(rel, a.out.v, b.out.v), b.t)
    case Shifted(left, x, y) =>
      var a := ShortS(x, noglob, t, wd);
      if a.out.Fail? then a
      else
        var b := ShortS(y, noglob, a.t, wd);
        if b.out.Fail? then b else PutOut(ShiftBits(left, a.out.v, b.out.v, wd), b.t)
    case Arith(op, x, y) =>
      var a := ShortS(x, noglob, t, wd);
      if a.out.Fail? then a
      else
        var b := ShortS(y, noglob, a.t, wd);
        if b.out.Fail? then b else PutOut(Compute(op, a.out.v, b.out.v), b.t)
    case Not(x) =>
      var a := ShortS(x, noglob, t, wd);
      if a.out.Fail? then a
      else
        var n := Egetn(a.out.v);
        PutOut(if n.Fail? then n else Ret(Flag(n.v == 0)), a.t)
    case Compl(x) =>
      var a := ShortS(x, noglob, t, wd);
      if a.out.Fail? then a
      else
        var n := Egetn(a.out.v);
        PutOut(if n.Fail? then n else Ret(-n.v - 1), a.t)
    case Paren(x) =>
      var a := ShortI(x, noglob, t, wd);
      PutOut(a.out, a.t)
    case _ => EvalS(e, Flags(false, noglob), t, wd)
  }

  /** The commands run and the tests made. */
  ghost function Effects(t: Trace): Trace {
    if t == [] then []
    else
      var n := |t| - 1;
      Effects(t[..n]) + if t[n].Globbed? then [] else [t[n]]
  }

  /** Globbing a word changes nothing: all answers depend on the commands run
      and the tests made. */
  ghost predicate Steady(wd: World) {
    && (forall t: Trace, w: Word :: SteadyGlob(wd, t, w))
    && (forall t: Trace, ws: seq<Word> :: SteadyRun(wd, t, ws))
    && (forall t: Trace, c: char, f: Str :: SteadyTest(wd, t, c, f))
  }

  ghost predicate SteadyGlob(wd: World, t: Trace, w: Word) {
    wd.glob(t, w) == wd.glob(Effects(t), w)
  }

  ghost predicate SteadyRun(wd: World, t: Trace, ws: seq<Word>) {
    wd.run(t, ws) == wd.run(Effects(t), ws)
  }

  ghost predicate SteadyTest(wd: World, t: Trace, c: char, f: Str) {
    wd.test(t, c, f) == wd.test(Effects(t), c, f)
  }

  lemma EffectsSnoc(t: Trace, e: Event)
    ensures Effects(t + [e]) == Effects(t) + if e.Globbed? then [] else [e]
  {
    assert (t + [e])[..|t|] == t;
  }

  lemma {:induction false} EffectsGlobs(t: Trace, t': Trace)
    requires OnlyGlobs(t, t')
    ensures Effects(t') == Effects(t)
    decreases |t'|
  {
    if |t'| == |t| {
      assert t' == t;
    } else {
      var n := |t'| - 1;
      assert t'[..n][..|t|] == t'[..|t|];
      EffectsGlobs(t, t'[..n]);
    }
  }

  /** A word that is a number, or a value that always is. */
  ghost predicate Numeric(e: SExpr, noglob: bool, t: Trace, wd: World) {
    e.Literal? ==> if noglob then Egetn(e.w).Ret? else wd.glob(t, e.w).Ret? && Egetn(wd.glob(t, e.w).v).Ret?
  }

  /** A skipped operand in which every word can be globbed and every word that
      stands alone, or is shifted or negated, is a number. */
  ghost predicate QuietI(e: IExpr, noglob: bool, t: Trace, wd: World)
    decreases e
  {
    match e
    case Or(l, r) => QuietI(l, noglob, t, wd) && QuietI(r, false, t, wd)
    case And(l, r) => QuietI(l, noglob, t, wd) && QuietI(r, false, t, wd)
    case Bitwise(_, l, r) => QuietI(l, noglob, t, wd) && QuietI(r, noglob, t, wd)
    case Equality(eq, x, y) => QuietS(x, noglob, t, wd) && QuietS(y, noglob || eq == EQMATCH || eq == NOTEQMATCH, t, wd)
    case Number(x) => QuietS(x, noglob, t, wd) && Numeric(x, noglob, t, wd)
  }

  ghost predicate QuietS(e: SExpr, noglob: bool, t: Trace, wd: World)
    decreases e
  {
    match e
    case Relation(_, x, y) => QuietS(x, noglob, t, wd) && QuietS(y, noglob, t, wd)
    case Shifted(_, x, y) =>
      && QuietS(x, noglob, t, wd) && QuietS(y, noglob, t, wd)
      && Numeric(x, noglob, t, wd) && Numeric(y, noglob, t, wd)
    case Arith(_, x, y) => QuietS(x, noglob, t, wd) && QuietS(y, noglob, t, wd)
    case Not(x) => QuietS(x, noglob, t, wd) && Numeric(x, noglob, t, wd)
    case Compl(x) => QuietS(x, noglob, t, wd) && Numeric(x, noglob, t, wd)
    case Paren(x) => QuietI(x, noglob, t, wd)
    case Literal(w) => noglob || wd.glob(t, w).Ret?
    case _ => true
  }

  /** Every operand that is skipped is quiet. */
  ghost predicate SkipsOkI(e: IExpr, noglob: bool, t: Trace, wd: World)
    decreases e
  {
    match e
    case Or(l, r) =>
      && SkipsOkI(l, noglob, t, wd)
      && var a := ShortI(l, noglob, t, wd);
      a.out.Ret? ==> if a.out.v != 0 then QuietI(r, false, a.t, wd) else SkipsOkI(r, false, a.t, wd)
    case And(l, r) =>
      && SkipsOkI(l, noglob, t, wd)
      && var a := ShortI(l, noglob, t, wd);
      a.out.Ret? ==> if a.out.v == 0 then QuietI(r, false, a.t, wd) else SkipsOkI(r, false, a.t, wd)
    case Bitwise(_, l, r) =>
      && SkipsOkI(l, noglob, t, wd)
      && var a := ShortI(l, noglob, t, wd);
      a.out.Ret? ==> SkipsOkI(r, noglob, a.t, wd)
    case Equality(eq, x, y) =>
      && SkipsOkS(x, noglob, t, wd)
      && var a := ShortS(x, noglob, t, wd);
      a.out.Ret? ==> SkipsOkS(y, noglob || eq == EQMATCH || eq == NOTEQMATCH, a.t, wd)
    case Number(x) => SkipsOkS(x, noglob, t, wd)
  }

  ghost predicate SkipsOkS(e: SExpr, noglob: bool, t: Trace, wd: World)
    decreases e
  {
    match e
    case Relation(_, x, y) =>
      && SkipsOkS(x, noglob, t, wd)
      && var a := ShortS(x, noglob, t, wd);
      a.out.Ret? ==> SkipsOkS(y, noglob, a.t, wd)
    case Shifted(_, x, y) =>
      && SkipsOkS(x, noglob, t, wd)
      && var a := ShortS(x, noglob, t, wd);
      a.out.Ret? ==> SkipsOkS(y, noglob, a.t, wd)
    case Arith(_, x, y) =>
      && SkipsOkS(x, noglob, t, wd)
      && var a := ShortS(x, noglob, t, wd);
      a.out.Ret? ==> SkipsOkS(y, noglob, a.t, wd)
    case Not(x) => SkipsOkS(x, noglob, t, wd)
    case Compl(x) => SkipsOkS(x, noglob, t, wd)
    case Paren(x) => SkipsOkI(x, noglob, t, wd)
    case _ => true
  }

  lemma {:induction false} DigitsInt32(s: Str, n: int)
    requires IsInt32(n)
    ensures IsInt32(Digits(s, n).0)
    decreases |s|
  {
    if s != "" && Digit(s[0]) {
      DigitsInt32(s[1..], Int32(n * 10 + (s[0] as int - '0' as int)));
    }
  }

  lemma EgetnInt32(s: Str)
    ensures Egetn(s).Ret? ==> IsInt32(Egetn(s).v)
  {
    DigitsInt32(s, 0);
    if s != "" {
      DigitsInt32(s[1..], 0);
    }
  }

  /** What is not a bare word yields a number. */
  lemma {:induction false} ValueI(e: IExpr, f: Flags, t: Trace, wd: World)
    ensures EvalI(e, f, t, wd).out.Ret? ==> IsInt32(EvalI(e, f, t, wd).out.v)
  {
    if e.Number? {
      var a := EvalS(e.a, f, t, wd);
      if a.out.Ret? {
        EgetnInt32(a.out.v);
      }
    }
  }

  lemma {:induction false} ValueS(e: SExpr, f: Flags, t: Trace, wd: World)
    requires !e.Literal?
    ensures EvalS(e, f, t, wd).out.Ret? ==> Egetn(EvalS(e, f, t, wd).out.v).Ret?
  {
    var r := EvalS(e, f, t, wd);
    if r.out.Ret? && r.out.v != "" {
      assert Egetn(r.out.v).Ret? by {
        if e.Paren? {
          ValueI(e.e, f, t, wd);
        }
        if e.Compl? {
          EgetnInt32(EvalS(e.a, f, t, wd).out.v);
        }
        var n :| IsInt32(n) && r.out.v == Putn(n);
        PutGet(n);
      }
    }
  }

  lemma SameGlob(t: Trace, t': Trace, w: Word, wd: World)
    requires Steady(wd) && Effects(t) == Effects(t')
    ensures wd.glob(t, w) == wd.glob(t', w)
  {
    assert SteadyGlob(wd, t, w) && SteadyGlob(wd, t', w);
  }

  /** Whether an operand is quiet does not depend on what has been globbed. */
  lemma {:induction false} QuietFrameI(e: IExpr, noglob: bool, t: Trace, t': Trace, wd: World)
    requires Steady(wd) && Effects(t) == Effects(t')
    ensures QuietI(e, noglob, t, wd) == QuietI(e, noglob, t', wd)
    decreases e
  {
    match e {
      case Or(l, r) =>
        QuietFrameI(l, noglob, t, t', wd);
        QuietFrameI(r, false, t, t', wd);
      case And(l, r) =>
        QuietFrameI(l, noglob, t, t', wd);
        QuietFrameI(r, false, t, t', wd);
      case Bitwise(_, l, r) =>
        QuietFrameI(l, noglob, t, t', wd);
        QuietFrameI(r, noglob, t, t', wd);
      case Equality(eq, x, y) =>
        QuietFrameS(x, noglob, t, t', wd);
        QuietFrameS(y, noglob || eq == EQMATCH || eq == NOTEQMATCH, t, t', wd);
      case Number(x) => QuietFrameS(x, noglob, t, t', wd);
    }
  }

  lemma {:induction false} QuietFrameS(e: SExpr, noglob: bool, t: Trace, t': Trace, wd: World)
    requires Steady(wd) && Effects(t) == Effects(t')
    ensures QuietS(e, noglob, t, wd) == QuietS(e, noglob, t', wd)
    ensures Numeric(e, noglob, t, wd) == Numeric(e, noglob, t', wd)
    decreases e
  {
    match e {
      case Relation(_, x, y) =>
        QuietFrameS(x, noglob, t, t', wd);
        QuietFrameS(y, noglob, t, t', wd);
      case Shifted(_, x, y) =>
        QuietFrameS(x, noglob, t, t', wd);
        QuietFrameS(y, noglob, t, t', wd);
      case Arith(_, x, y) =>
        QuietFrameS(x, noglob, t, t', wd);
        QuietFrameS(y, noglob, t, t', wd);
      case Not(x) => QuietFrameS(x, noglob, t, t', wd);
      case Compl(x) => QuietFrameS(x, noglob, t, t', wd);
      case Paren(x) => QuietFrameI(x, noglob, t, t', wd);
      case Literal(w) => SameGlob(t, t', w, wd);
      case _ =>
    }
  }

  /** Going through a skipped operand succeeds just when the operand is quiet. */
  lemma {:induction false} SkipExactI(e: IExpr, noglob: bool, t: Trace, wd: World)
    requires Steady(wd)
    ensures EvalI(e, Flags(true, noglob), t, wd).out.Ret? <==> QuietI(e, noglob, t, wd)
    decreases e
  {
    var f := Flags(true, noglob);
    match e {
      case Or(l, r) => SkipExactThen(e, l, r, noglob, false, t, wd);
      case And(l, r) => SkipExactThen(e, l, r, noglob, false, t, wd);
      case Bitwise(_, l, r) => SkipExactThen(e, l, r, noglob, noglob, t, wd);
      case Equality(eq, x, y) =>
        SkipExactS(x, noglob, t, wd);
        var a := EvalS(x, f, t, wd);
        if a.out.Ret? {
          var g := noglob || eq == EQMATCH || eq == NOTEQMATCH;
          SkippedS(x, f, t, wd);
          EffectsGlobs(t, a.t);
          SkipExactS(y, g, a.t, wd);
          QuietFrameS(y, g, a.t, t, wd);
        }
      case Number(x) =>
        SkipExactS(x, noglob, t, wd);
    }
  }

  lemma {:induction false} SkipExactThen(e: IExpr, l: IExpr, r: IExpr, noglob: bool, noglob': bool, t: Trace, wd: World)
    requires Steady(wd) && l < e && r < e
    ensures var a := EvalI(l, Flags(true, noglob), t, wd);
      && (a.out.Ret? <==> QuietI(l, noglob, t, wd))
      && (a.out.Ret? ==> (EvalI(r, Flags(true, noglob'), a.t, wd).out.Ret? <==> QuietI(r, noglob', t, wd)))
    decreases e, 0
  {
    SkipExactI(l, noglob, t, wd);
    var a := EvalI(l, Flags(true, noglob), t, wd);
    if a.out.Ret? {
      SkippedI(l, Flags(true, noglob), t, wd);
      EffectsGlobs(t, a.t);
      SkipExactI(r, noglob', a.t, wd);
      QuietFrameI(r, noglob', a.t, t, wd);
    }
  }

  lemma {:induction false} SkipExactS(e: SExpr, noglob: bool, t: Trace, wd: World)
    requires Steady(wd)
    ensures EvalS(e, Flags(true, noglob), t, wd).out.Ret? <==> QuietS(e, noglob, t, wd)
    ensures var r := EvalS(e, Flags(true, noglob), t, wd);
      r.out.Ret? ==> (Egetn(r.out.v).Ret? <==> Numeric(e, noglob, t, wd))
    decreases e
  {
    var f := Flags(true, noglob);
    if !e.Literal? {
      ValueS(e, f, t, wd);
    }
    match e {
      case Relation(_, x, y) => SkipExactPair(e, x, y, noglob, t, wd);
      case Shifted(_, x, y) => SkipExactPair(e, x, y, noglob, t, wd);
      case Arith(_, x, y) => SkipExactPair(e, x, y, noglob, t, wd);
      case Not(x) => SkipExactS(x, noglob, t, wd);
      case Compl(x) => SkipExactS(x, noglob, t, wd);
      case Paren(x) => SkipExactI(x, noglob, t, wd);
      case _ =>
    }
  }

  lemma {:induction false} SkipExactPair(e: SExpr, x: SExpr, y: SExpr, noglob: bool, t: Trace, wd: World)
    requires Steady(wd) && x < e && y < e
    ensures var f := Flags(true, noglob); var a := EvalS(x, f, t, wd); var b := EvalS(y, f, a.t, wd);
      && (a.out.Ret? <==> QuietS(x, noglob, t, wd))
      && (a.out.Ret? ==> (Egetn(a.out.v).Ret? <==> Numeric(x, noglob, t, wd)))
      && (a.out.Ret? ==> (b.out.Ret? <==> QuietS(y, noglob, t, wd)))
      && (a.out.Ret? && b.out.Ret? ==> (Egetn(b.out.v).Ret? <==> Numeric(y, noglob, t, wd)))
    decreases e, 0
  {
    var f := Flags(true, noglob);
    SkipExactS(x, noglob, t, wd);
    var a := EvalS(x, f, t, wd);
    if a.out.Ret? {
      SkippedS(x, f, t, wd);
      EffectsGlobs(t, a.t);
      SkipExactS(y, noglob, a.t, wd);
      QuietFrameS(y, noglob, a.t, t, wd);
    }
  }

  /** Two runs agree, if the first one succeeds. */
  ghost predicate Agrees<T>(r: Run<T>, s: Run<T>) {
    r.out.Ret? ==> s.out == r.out && Effects(s.t) == Effects(r.t)
  }

  /** Against an evaluator that does not look at operands that do not matter, the
      one that goes through them finds the same value, with the same effects, and
      it finds one just when the other does and every skipped operand is quiet. */
  lemma {:induction false} ShortCircuitI(e: IExpr, noglob: bool, t: Trace, t': Trace, wd: World)
    requires Steady(wd) && Effects(t) == Effects(t')
    ensures var r, s := EvalI(e, Flags(false, noglob), t, wd), ShortI(e, noglob, t', wd);
      Agrees(r, s) && (r.out.Ret? <==> s.out.Ret? && SkipsOkI(e, noglob, t', wd))
    decreases e
  {
    var f := Flags(false, noglob);
    match e {
      case Or(l, r) =>
        ShortCircuitI(l, noglob, t, t', wd);
        var a, b := EvalI(l, f, t, wd), ShortI(l, noglob, t', wd);
        if a.out.Ret? {
          ShortCircuitRight(e, r, a.out.v != 0, a.t, b.t, wd);
        }
      case And(l, r) =>
        ShortCircuitI(l, noglob, t, t', wd);
        var a, b := EvalI(l, f, t, wd), ShortI(l, noglob, t', wd);
        if a.out.Ret? {
          ShortCircuitRight(e, r, a.out.v == 0, a.t, b.t, wd);
        }
      case Bitwise(_, l, r) =>
        ShortCircuitI(l, noglob, t, t', wd);
        var a, b := EvalI(l, f, t, wd), ShortI(l, noglob, t', wd);
        if a.out.Ret? {
          ShortCircuitI(r, noglob, a.t, b.t, wd);
        }
      case Equality(eq, x, y) =>
        ShortCircuitS(x, noglob, t, t', wd);
        var a, b := EvalS(x, f, t, wd), ShortS(x, noglob, t', wd);
        if a.out.Ret? {
          ShortCircuitS(y, noglob || eq == EQMATCH || eq == NOTEQMATCH, a.t, b.t, wd);
        }
      case Number(x) => ShortCircuitS(x, noglob, t, t', wd);
    }
  }

  /** The right operand of `||` or `&&`. */
  lemma {:induction false} ShortCircuitRight(e: IExpr, r: IExpr, skip: bool, t: Trace, t': Trace, wd: World)
    requires Steady(wd) && Effects(t) == Effects(t') && r < e
    ensures var a, b := EvalI(r, Flags(skip, false), t, wd), ShortI(r, false, t', wd);
      if skip then Effects(a.t) == Effects(t) && (a.out.Ret? <==> QuietI(r, false, t', wd))
      else Agrees(a, b) && (a.out.Ret? <==> b.out.Ret? && SkipsOkI(r, false, t', wd))
    decreases e, 0
  {
    if skip {
      SkippedI(r, Flags(true, false), t, wd);
      EffectsGlobs(t, EvalI(r, Flags(true, false), t, wd).t);
      SkipExactI(r, false, t, wd);
      QuietFrameI(r, false, t, t', wd);
    } else {
      ShortCircuitI(r, false, t, t', wd);
    }
  }

  lemma {:induction false} ShortCircuitS(e: SExpr, noglob: bool, t: Trace, t': Trace, wd: World)
    requires Steady(wd) && Effects(t) == Effects(t')
    ensures var r, s := EvalS(e, Flags(false, noglob), t, wd), ShortS(e, noglob, t', wd);
      Agrees(r, s) && (r.out.Ret? <==> s.out.Ret? && SkipsOkS(e, noglob, t', wd))
    decreases e
  {
    match e {
      case Relation(_, x, y) => ShortCircuitPair(e, x, y, noglob, t, t', wd);
      case Shifted(_, x, y) => ShortCircuitPair(e, x, y, noglob, t, t', wd);
      case Arith(_, x, y) => ShortCircuitPair(e, x, y, noglob, t, t', wd);
      case Not(x) => ShortCircuitS(x, noglob, t, t', wd);
      case Compl(x) => ShortCircuitS(x, noglob, t, t', wd);
      case Paren(x) => ShortCircuitI(x, noglob, t, t', wd);
      case _ => ShortCircuitLeaf(e, noglob, t, t', wd);
    }
  }

  lemma ShortCircuitLeaf(e: SExpr, noglob: bool, t: Trace, t': Trace, wd: World)
    requires Steady(wd) && Effects(t) == Effects(t') && (e.Command? || e.Test? || e.Blank? || e.Literal?)
    ensures var r, s := EvalS(e, Flags(false, noglob), t, wd), ShortS(e, noglob, t', wd);
      r.out == s.out && Effects(r.t) == Effects(s.t)
  {
    hide Putn, Effects, Steady;
    match e {
      case Command(ws) =>
        RunSame(t, t', ws, wd);
      case Test(c, file) =>
        var g, g' := GlobSame(t, t', file, wd);
        if g.out.Ret? {
          TestSame(g.t, g'.t, c, g.out.v, wd);
        }
      case Literal(w) =>
        var g, g' := GlobSame(t, t', w, wd);
      case Blank =>
    }
  }

  lemma GlobSame(t: Trace, t': Trace, w: Word, wd: World) returns (g: Run<Str>, g': Run<Str>)
    requires Steady(wd) && Effects(t) == Effects(t')
    ensures g == Globone(w, t, wd) && g' == Globone(w, t', wd) && g.out == g'.out && Effects(g.t) == Effects(g'.t) == Effects(t)
  {
    g, g' := Globone(w, t, wd), Globone(w, t', wd);
    SameGlob(t, t', w, wd);
    EffectsSnoc(t, Globbed(w));
    EffectsSnoc(t', Globbed(w));
  }

  lemma RunSame(t: Trace, t': Trace, ws: seq<Word>, wd: World)
    requires Steady(wd) && Effects(t) == Effects(t')
    ensures wd.run(t, ws) == wd.run(t', ws) && Effects(t + [Ran(ws)]) == Effects(t' + [Ran(ws)])
  {
    assert SteadyRun(wd, t, ws) && SteadyRun(wd, t', ws);
    EffectsSnoc(t, Ran(ws));
    EffectsSnoc(t', Ran(ws));
  }

  lemma TestSame(t: Trace, t': Trace, c: char, ep: Str, wd: World)
    requires Steady(wd) && Effects(t) == Effects(t')
    ensures wd.test(t, c, ep) == wd.test(t', c, ep)
    ensures Effects(t + [Tested(c, ep)]) == Effects(t' + [Tested(c, ep)])
  {
    assert SteadyTest(wd, t, c, ep) && SteadyTest(wd, t', c, ep);
    EffectsSnoc(t, Tested(c, ep));
    EffectsSnoc(t', Tested(c, ep));
  }

  lemma {:induction false} ShortCircuitPair(e: SExpr, x: SExpr, y: SExpr, noglob: bool, t: Trace, t': Trace, wd: World)
    requires Steady(wd) && Effects(t) == Effects(t') && x < e && y < e
    ensures var f := Flags(false, noglob);
      var a, b := EvalS(x, f, t, wd), ShortS(x, noglob, t', wd);
      && Agrees(a, b) && (a.out.Ret? <==> b.out.Ret? && SkipsOkS(x, noglob, t', wd))
      && (a.out.Ret? ==> var c, d := EvalS(y, f, a.t, wd), ShortS(y, noglob, b.t, wd);
            Agrees(c, d) && (c.out.Ret? <==> d.out.Ret? && SkipsOkS(y, noglob, b.t, wd)))
    decreases e, 0
  {
    ShortCircuitS(x, noglob, t, t', wd);
    var a, b := EvalS(x, Flags(false, noglob), t, wd), ShortS(x, noglob, t', wd);
    if a.out.Ret? {
      ShortCircuitS(y, noglob, a.t, b.t, wd);
    }
  }

  /** Skipped operands can make an expression fail: in `1 || a` the second word
      is looked at as a number although it does not matter. */
  lemma SkippedWordMatters(wd: World)
    requires wd.glob([], "1") == Ret("1") && wd.glob([Globbed("1")], "a") == Ret("a")
    ensures var ws: seq<Word> := ["1", "||", "a"]; var p := P0(ws, 0);
      && p.Tree? && p.next == 3
      && EvalI(p.e, Flags(false, false), [], wd).out == Fail(Syntax)
      && ShortI(p.e, false, [], wd).out == Ret(1)
  {
    hide P0, P1, Egetn, EvalS, ShortS;
    var ws: seq<Word> := ["1", "||", "a"];
    WordParse(ws, 0);
    WordParse(ws, 2);
    var l, r := Number(Literal("1")), Number(Literal("a"));
    OrParse(ws, l, r);
    ReadOne();
    WordValue("1", Flags(false, false), [], wd);
    assert [] + [Globbed("1")] == [Globbed("1")];
    WordValue("a", Flags(true, false), [Globbed("1")], wd);
  }

  lemma ReadOne()
    ensures Egetn("1") == Ret(1) && Egetn("a") == Fail(Syntax)
  {
    assert Digits("1", 0) == (1, "");
  }

  lemma OrParse(ws: seq<Word>, l: IExpr, r: IExpr)
    requires |ws| == 3 && ws[1] == "||" && P1(ws, 0) == Tree(l, 1) && P1(ws, 2) == Tree(r, 3)
    ensures P0(ws, 0) == Tree(Or(l, r), 3)
  {
    assert P0(ws, 2) == P1(ws, 2);
  }

  lemma WordValue(w: Word, f: Flags, t: Trace, wd: World)
    requires wd.glob(t, w).Ret? && wd.glob(t, w).v == w && !f.noglob
    ensures EvalI(Number(Literal(w)), f, t, wd) == Run(Egetn(w), t + [Globbed(w)])
    ensures !f.ignore ==> ShortI(Number(Literal(w)), false, t, wd) == Run(Egetn(w), t + [Globbed(w)])
  {
    var s: Str := w;
    assert EvalS(Literal(w), f, t, wd) == Run(Ret(s), t + [Globbed(w)]);
  }

  /** A word that stands alone, or in front of `||`. */
  lemma WordParse(ws: seq<Word>, i: nat)
    requires i < |ws| && (i + 1 == |ws| || ws[i + 1] == "||") && (ws[i] == "1" || ws[i] == "a")
    ensures P1(ws, i) == Tree(Number(Literal(ws[i])), i + 1)
  {
    var p := Tree(Literal(ws[i]), i + 1);
    assert P6(ws, i) == p;
    assert P5(ws, i) == p;
    assert P4(ws, i) == p;
    assert P3a(ws, i) == p;
    assert P3(ws, i) == p;
    var q := Tree(Number(Literal(ws[i])), i + 1);
    assert P2c(ws, i) == q;
    assert P2b(ws, i) == q;
    assert P2a(ws, i) == q;
    assert P2(ws, i) == q;
  }

  // ------------------------------------------------ writing a tree down again

  /** How tightly the outermost operator binds. */
  function LayerI(e: IExpr): nat {
    match e
    case Or(_, _) => 0
    case And(_, _) => 1
    case Bitwise(op, _, _) => BitLayer(op)
    case _ => 5
  }

  function BitLayer(op: Bit): nat {
    match op
    case BitOr => 2
    case BitXor => 3
    case BitAnd => 4
  }

  function LayerS(e: SExpr): nat {
    match e
    case Relation(_, _, _) => 6
    case Shifted(_, _, _) => 7
    case Arith(op, _, _) => if op == '+' || op == '-' then 8 else 9
    case _ => 10
  }

  /** The layer of an operator word, or -1. */
  function OpLayer(w: Word): int {
    if w == "||" then 0 else if w == "&&" then 1 else if w == "|" then 2 else if w == "^" then 3 else if w == "&" then 4
    else if EqOp(w) != 0 then 5 else if ShiftOp(w) then 7 else if RelOp(w) != 0 then 6
    else if AddOp(w) then 8 else if MulOp(w) then 9 else -1
  }

  function BitWord(op: Bit): Word {
    match op
    case BitOr => "|"
    case BitXor => "^"
    case BitAnd => "&"
  }

  function EqWord(eq: Code): Word {
    if eq == EQEQ then "==" else if eq == NOTEQ then "!=" else if eq == EQMATCH then "=~" else "!~"
  }

  function RelWords(rel: Code): seq<Word> {
    [if rel < LSS then ">" else "<"] + if rel % 2 == 1 then ["="] else []
  }

  function ShowI(e: IExpr): (s: seq<Word>)
    decreases e
  {
    match e
    case Or(l, r) => ShowI(l) + ["||"] + ShowI(r)
    case And(l, r) => ShowI(l) + ["&&"] + ShowI(r)
    case Bitwise(op, l, r) => ShowI(l) + [BitWord(op)] + ShowI(r)
    case Equality(eq, a, b) => ShowS(a) + [EqWord(eq)] + ShowS(b)
    case Number(a) => ShowS(a)
  }

  function ShowS(e: SExpr): (s: seq<Word>)
    decreases e
  {
    match e
    case Relation(rel, a, b) => ShowS(a) + RelWords(rel) + ShowS(b)
    case Shifted(left, a, b) => ShowS(a) + [if left then "<<" else ">>"] + ShowS(b)
    case Arith(op, a, b) => ShowS(a) + [[op]] + ShowS(b)
    case Not(a) => ["!"] + ShowS(a)
    case Compl(a) => ["~"] + ShowS(a)
    case Paren(x) => ["("] + ShowI(x) + [")"]
    case Command(ws) => ["{"] + ws + ["}"]
    case Test(c, file) => [['-', c], file]
    case Blank => []
    case Literal(w) => [w]
  }

  /** Operators of the same layer group to the right, and tighter ones need no
      parentheses; no operand is missing. */
  predicate FineI(e: IExpr)
    decreases e
  {
    match e
    case Or(l, r) => FineI(l) && FineI(r) && LayerI(l) >= 1
    case And(l, r) => FineI(l) && FineI(r) && LayerI(l) >= 2 && LayerI(r) >= 1
    case Bitwise(op, l, r) => FineI(l) && FineI(r) && LayerI(l) > BitLayer(op) && LayerI(r) >= BitLayer(op)
    case Equality(eq, a, b) => eq in {EQEQ, NOTEQ, EQMATCH, NOTEQMATCH} && FineS(a) && FineS(b)
    case Number(a) => FineS(a)
  }

  predicate FineS(e: SExpr)
    decreases e
  {
    match e
    case Relation(rel, a, b) =>
      && GTR <= rel <= LSS + 1 && FineS(a) && FineS(b) && LayerS(a) >= 7
      && (rel % 2 == 0 ==> !Is(ShowS(b), 0, "="))
    case Shifted(_, a, b) => FineS(a) && FineS(b) && LayerS(a) >= 8 && LayerS(b) >= 7
    case Arith(op, a, b) => op in "+-*/%" && FineS(a) && FineS(b) && LayerS(a) > LayerS(e) && LayerS(b) >= LayerS(e)
    case Not(a) => FineS(a) && LayerS(a) == 10
    case Compl(a) => FineS(a) && LayerS(a) == 10
    case Paren(x) => FineI(x)
    case Command(ws) => forall k :: 0 <= k < |ws| ==> ws[k] != "}"
    case Test(c, file) => c in "erwxfdzo" && !AnyOp(file)
    case Blank => false
    case Literal(w) => !AnyOp(w) && !TestOp(w) && w != "{"
  }

  /** No operator of layer `k` or tighter comes next. */
  predicate Stop(ws: seq<Word>, j: nat, k: nat) {
    j < |ws| ==> OpLayer(ws[j]) < k
  }

  /** The parsing function of each layer. */
  function PI(k: nat, ws: seq<Word>, i: nat): Parsed<IExpr> {
    if k == 0 then P0(ws, i) else if k == 1 then P1(ws, i) else if k == 2 then P2(ws, i)
    else if k == 3 then P2a(ws, i) else if k == 4 then P2b(ws, i) else P2c(ws, i)
  }

  function PS(k: nat, ws: seq<Word>, i: nat): Parsed<SExpr> {
    if k == 6 then P3(ws, i) else if k == 7 then P3a(ws, i) else if k == 8 then P4(ws, i)
    else if k == 9 then P5(ws, i) else P6(ws, i)
  }

  /** A tree that has been written down is what is read. */
  lemma ShowParses(e: IExpr)
    requires FineI(e)
    ensures P0(ShowI(e), 0) == Tree(e, |ShowI(e)|)
  {
    IParses(e, 0, ShowI(e), 0);
  }

  lemma {:induction false} IParses(e: IExpr, k: nat, ws: seq<Word>, i: nat)
    requires FineI(e) && k <= LayerI(e) && Here(ws, i, ShowI(e)) && Stop(ws, i + |ShowI(e)|, k)
    ensures PI(k, ws, i) == Tree(e, i + |ShowI(e)|)
    decreases e, 20 - k
  {
    hide PI, Here, ShowI, ShowS, FineI, FineS, Stop;
    if k < LayerI(e) {
      StopLooser(ws, i + |ShowI(e)|, k);
      IParses(e, k + 1, ws, i);
      ILooser(k, ws, i, e, i + |ShowI(e)|);
    } else {
      ISame(e, ws, i);
    }
  }

  /** At the layer of the tree itself. */
  lemma {:induction false} ISame(e: IExpr, ws: seq<Word>, i: nat)
    requires FineI(e) && Here(ws, i, ShowI(e)) && Stop(ws, i + |ShowI(e)|, LayerI(e))
    ensures PI(LayerI(e), ws, i) == Tree(e, i + |ShowI(e)|)
    decreases e, 1
  {
    hide P0, P1, P2, P2a, P2b, P2c, P3, Here, ShowS, FineS, Stop;
    match e
    case Or(l, r) => ITwo(e, l, r, "||", 0, ws, i);
    case And(l, r) => ITwo(e, l, r, "&&", 1, ws, i);
    case Bitwise(op, l, r) => ITwo(e, l, r, BitWord(op), BitLayer(op), ws, i);
    case Equality(eq, a, b) => I5(e, eq, a, b, ws, i);
    case Number(a) =>
      NumberLayer(a);
      StopLooser(ws, i + |ShowS(a)|, 5);
      SParses(a, 6, ws, i);
      NumberJoin(a, ws, i, i + |ShowS(a)|);
  }

  predicate IsTwo(e: IExpr, l: IExpr, r: IExpr, op: Word, k: nat) {
    || (e == Or(l, r) && op == "||" && k == 0)
    || (e == And(l, r) && op == "&&" && k == 1)
    || (e.Bitwise? && e == Bitwise(e.op, l, r) && op == BitWord(e.op) && k == BitLayer(e.op))
  }

  lemma IJoin(e: IExpr, l: IExpr, r: IExpr, op: Word, k: nat, ws: seq<Word>, i: nat, j: nat, n: nat)
    requires IsTwo(e, l, r, op, k) && i <= |ws| && j < |ws| && ws[j] == op
    requires PI(k + 1, ws, i) == Tree(l, j) && PI(k, ws, j + 1) == Tree(r, n)
    ensures PI(k, ws, i) == Tree(e, n)
  {
  }

  /** A looser layer finds no operator of its own. */
  lemma ILooser(k: nat, ws: seq<Word>, i: nat, e: IExpr, j: nat)
    requires k < 5 && PI(k + 1, ws, i) == Tree(e, j) && Stop(ws, j, k)
    ensures PI(k, ws, i) == Tree(e, j)
  {
  }

  lemma EqualityJoin(eq: Code, a: SExpr, b: SExpr, ws: seq<Word>, i: nat, j: nat, n: nat)
    requires i <= |ws| && j < |ws| && EqOp(ws[j]) == eq != 0 && P3(ws, i) == Tree(a, j) && P3(ws, j + 1) == Tree(b, n)
    ensures P2c(ws, i) == Tree(Equality(eq, a, b), n)
  {
    hide P3, EqOp;
  }

  lemma NumberJoin(a: SExpr, ws: seq<Word>, i: nat, n: nat)
    requires P3(ws, i) == Tree(a, n) && Stop(ws, n, 5)
    ensures P2c(ws, i) == Tree(Number(a), n)
  {
    hide P3;
  }

  lemma NumberLayer(a: SExpr)
    ensures LayerS(a) >= 6
  {
  }

  lemma RelationJoin(a: SExpr, b: SExpr, ws: seq<Word>, i: nat, j: nat, n: nat)
    requires i <= |ws| && j < |ws| && RelOp(ws[j]) != 0 && P3a(ws, i) == Tree(a, j)
    requires P3(ws, if Is(ws, j + 1, "=") then j + 2 else j + 1) == Tree(b, n)
    ensures P3(ws, i) == Tree(Relation(RelOp(ws[j]) + Flag(Is(ws, j + 1, "=")), a, b), n)
  {
    hide P3a, RelOp, Is;
  }

  lemma ShiftJoin(a: SExpr, b: SExpr, ws: seq<Word>, i: nat, j: nat, n: nat)
    requires i <= |ws| && j < |ws| && ShiftOp(ws[j]) && P4(ws, i) == Tree(a, j) && P3a(ws, j + 1) == Tree(b, n)
    ensures P3a(ws, i) == Tree(Shifted(ws[j][0] == '<', a, b), n)
  {
    hide P4;
  }

  lemma AddJoin(a: SExpr, b: SExpr, ws: seq<Word>, i: nat, j: nat, n: nat)
    requires i <= |ws| && j < |ws| && AddOp(ws[j]) && P5(ws, i) == Tree(a, j) && P4(ws, j + 1) == Tree(b, n)
    ensures P4(ws, i) == Tree(Arith(ws[j][0], a, b), n)
  {
    hide P5;
  }

  lemma MulJoin(a: SExpr, b: SExpr, ws: seq<Word>, i: nat, j: nat, n: nat)
    requires i <= |ws| && j < |ws| && MulOp(ws[j]) && P6(ws, i) == Tree(a, j) && P5(ws, j + 1) == Tree(b, n)
    ensures P5(ws, i) == Tree(Arith(ws[j][0], a, b), n)
  {
    hide P6;
  }

  lemma {:induction false} I5(e: IExpr, eq: Code, a: SExpr, b: SExpr, ws: seq<Word>, i: nat)
    requires e == Equality(eq, a, b) && FineI(e) && Here(ws, i, ShowI(e)) && Stop(ws, i + |ShowI(e)|, 5)
    ensures P2c(ws, i) == Tree(e, i + |ShowI(e)|)
    decreases e, 0
  {
    hide P3, P2c, Here, Stop, LayerS, ShowI, FineI, ShowS, FineS;
    EqualityParts(eq, a, b, ws, i);
    var j := i + |ShowS(a)|;
    SParses(a, 6, ws, i);
    SParses(b, 6, ws, j + 1);
    EqualityJoin(eq, a, b, ws, i, j, j + 1 + |ShowS(b)|);
  }

  lemma EqualityParts(eq: Code, a: SExpr, b: SExpr, ws: seq<Word>, i: nat)
    requires FineI(Equality(eq, a, b)) && Here(ws, i, ShowI(Equality(eq, a, b))) == true
    requires Stop(ws, i + |ShowI(Equality(eq, a, b))|, 5)
    ensures var j := i + |ShowS(a)|;
      && FineS(a) && FineS(b)
      && j < |ws| && EqOp(ws[j]) == eq != 0 && Here(ws, i, ShowS(a)) == true && Here(ws, j + 1, ShowS(b)) == true
      && Stop(ws, j, 6) == true && Stop(ws, j + 1 + |ShowS(b)|, 6) == true && 6 <= LayerS(a) && 6 <= LayerS(b)
      && j + 1 + |ShowS(b)| == i + |ShowI(Equality(eq, a, b))| && i <= |ws|
  {
    hide ShowS, FineS, EqWord, EqOp, OpLayer, Here, Stop;
    EqualityWord(eq);
    OperatorAt(ws, i, ShowS(a), [EqWord(eq)], ShowS(b), 5);
    StopLooser(ws, i + |ShowI(Equality(eq, a, b))|, 5);
    HereBound(ws, i + |ShowS(a)| + 1, ShowS(b));
  }

  lemma HereBound(ws: seq<Word>, i: nat, a: seq<Word>)
    requires Here(ws, i, a)
    ensures i + |a| <= |ws|
  {
  }

  lemma EqualityWord(eq: Code)
    requires eq in {EQEQ, NOTEQ, EQMATCH, NOTEQMATCH}
    ensures EqOp(EqWord(eq)) == eq != 0 && OpLayer(EqWord(eq)) == 5
  {
  }

  lemma SLooser(k: nat, ws: seq<Word>, i: nat, e: SExpr, j: nat)
    requires 6 <= k < 10 && PS(k + 1, ws, i) == Tree(e, j) && Stop(ws, j, k)
    ensures PS(k, ws, i) == Tree(e, j)
  {
  }

  /** Two operands with an operator between them. */
  lemma {:induction false} ITwo(e: IExpr, l: IExpr, r: IExpr, op: Word, k: nat, ws: seq<Word>, i: nat)
    requires l < e && r < e && FineI(l) && FineI(r) && k < LayerI(l) && k <= LayerI(r) && k < 5 && OpLayer(op) == k
    requires IsTwo(e, l, r, op, k) == true
    requires Here(ws, i, ShowI(l) + [op] + ShowI(r)) == true && Stop(ws, i + |ShowI(l)| + 1 + |ShowI(r)|, k) == true
    ensures PI(k, ws, i) == Tree(e, i + |ShowI(l)| + 1 + |ShowI(r)|)
    decreases e, 0
  {
    hide PI;
    HereThree(ws, i, ShowI(l), [op], ShowI(r));
    var j := i + |ShowI(l)|;
    assert ws[j] == [op][0];
    IParses(l, k + 1, ws, i);
    IParses(r, k, ws, j + 1);
    IJoin(e, l, r, op, k, ws, i, j, j + 1 + |ShowI(r)|);
  }

  lemma {:induction false} SParses(e: SExpr, k: nat, ws: seq<Word>, i: nat)
    requires FineS(e) && 6 <= k <= LayerS(e) && Here(ws, i, ShowS(e)) && Stop(ws, i + |ShowS(e)|, k)
    ensures PS(k, ws, i) == Tree(e, i + |ShowS(e)|)
    decreases e, 20 - k
  {
    hide P3, P3a, P4, P5, P6, Here, Stop, FineS, ShowS;
    if k < LayerS(e) {
      StopLooser(ws, i + |ShowS(e)|, k);
      SParses(e, k + 1, ws, i);
      SLooser(k, ws, i, e, i + |ShowS(e)|);
    } else {
      match e {
        case Relation(rel, a, b) => RelationParses(e, rel, a, b, ws, i);
        case Shifted(left, a, b) => ShiftParses(e, left, a, b, ws, i);
        case Arith(op, a, b) => ArithParses(e, op, a, b, ws, i);
        case _ => S6(e, ws, i);
      }
    }
  }

  lemma StopLooser(ws: seq<Word>, j: nat, k: nat)
    requires Stop(ws, j, k)
    ensures Stop(ws, j, k + 1)
  {
  }

  lemma {:induction false} STwo(e: SExpr, a: SExpr, b: SExpr, op: seq<Word>, k: nat, ws: seq<Word>, i: nat)
    requires a < e && b < e && FineS(a) && FineS(b) && 6 <= k < LayerS(a) && k <= LayerS(b)
    requires op != [] && OpLayer(op[0]) == k
    requires Here(ws, i, ShowS(a) + op + ShowS(b)) && Stop(ws, i + |ShowS(a)| + |op| + |ShowS(b)|, k)
    ensures var j := i + |ShowS(a)|;
      && j < |ws| && Here(ws, j, op) && ws[j] == op[0] && PS(k + 1, ws, i) == Tree(a, j)
      && PS(k, ws, j + |op|) == Tree(b, j + |op| + |ShowS(b)|) && Here(ws, j + |op|, ShowS(b))
    decreases e, 0
  {
    hide PS, ShowS, FineS, LayerS;
    OperatorAt(ws, i, ShowS(a), op, ShowS(b), k);
    SParses(a, k + 1, ws, i);
    SParses(b, k, ws, i + |ShowS(a)| + |op|);
  }

  lemma OperatorAt(ws: seq<Word>, i: nat, a: seq<Word>, op: seq<Word>, b: seq<Word>, k: nat)
    requires op != [] && OpLayer(op[0]) == k && Here(ws, i, a + op + b)
    ensures var j := i + |a|;
      && i <= j < |ws| && ws[j] == op[0] && Here(ws, i, a) == true && Here(ws, j, op) == true && Here(ws, j + |op|, b) == true
      && Stop(ws, j, k + 1) == true
  {
    HereThree(ws, i, a, op, b);
    assert ws[i + |a|] == op[0];
  }

  lemma {:induction false} ShiftParses(e: SExpr, left: bool, a: SExpr, b: SExpr, ws: seq<Word>, i: nat)
    requires e == Shifted(left, a, b) && FineS(e) && Here(ws, i, ShowS(e)) && Stop(ws, i + |ShowS(e)|, 7)
    ensures P3a(ws, i) == Tree(e, i + |ShowS(e)|)
    decreases e, 1
  {
    hide P3a, P4, Here, Stop;
    STwo(e, a, b, [if left then "<<" else ">>"], 7, ws, i);
    ShiftJoin(a, b, ws, i, i + |ShowS(a)|, i + |ShowS(a)| + 1 + |ShowS(b)|);
  }

  lemma {:induction false} ArithParses(e: SExpr, op: char, a: SExpr, b: SExpr, ws: seq<Word>, i: nat)
    requires e == Arith(op, a, b) && FineS(e) && Here(ws, i, ShowS(e)) && Stop(ws, i + |ShowS(e)|, LayerS(e))
    ensures PS(LayerS(e), ws, i) == Tree(e, i + |ShowS(e)|)
    decreases e, 1
  {
    hide P4, P5, P6, Here, Stop;
    STwo(e, a, b, [[op]], LayerS(e), ws, i);
    var j := i + |ShowS(a)|;
    if AddOp([op]) {
      AddJoin(a, b, ws, i, j, j + 1 + |ShowS(b)|);
    } else {
      MulJoin(a, b, ws, i, j, j + 1 + |ShowS(b)|);
    }
  }

  lemma {:induction false} RelationParses(e: SExpr, rel: Code, a: SExpr, b: SExpr, ws: seq<Word>, i: nat)
    requires e == Relation(rel, a, b) && FineS(e) && Here(ws, i, ShowS(e)) && Stop(ws, i + |ShowS(e)|, 6)
    ensures P3(ws, i) == Tree(e, i + |ShowS(e)|)
    decreases e, 1
  {
    hide P3, P3a, Here, Stop, RelOp, OpLayer;
    var op := RelWords(rel);
    RelLayer(rel);
    STwo(e, a, b, op, 6, ws, i);
    var j := i + |ShowS(a)|;
    RelationWords(rel, b, ws, j);
    RelationJoin(a, b, ws, i, j, j + |op| + |ShowS(b)|);
  }

  lemma RelLayer(rel: Code)
    ensures OpLayer(RelWords(rel)[0]) == 6
  {
  }

  /** The words of a relation read back. */
  lemma RelationWords(rel: Code, b: SExpr, ws: seq<Word>, j: nat)
    requires GTR <= rel <= LSS + 1 && FineS(b) && (rel % 2 == 0 ==> !Is(ShowS(b), 0, "="))
    requires var op := RelWords(rel); Here(ws, j, op) && Here(ws, j + |op|, ShowS(b))
    ensures j + 1 < |ws| && RelOp(ws[j]) != 0 && RelOp(ws[j]) + Flag(Is(ws, j + 1, "=")) == rel
    ensures |RelWords(rel)| == if Is(ws, j + 1, "=") then 2 else 1
  {
    hide FineS, ShowS;
    var op := RelWords(rel);
    assert ws[j] == op[0];
    ShowNotEmpty(b);
    if rel % 2 == 1 {
      assert ws[j + 1] == op[1];
    } else {
      assert ws[j + 1] == ShowS(b)[0];
    }
  }

  lemma {:induction false} ShowNotEmpty(e: SExpr)
    requires FineS(e)
    ensures ShowS(e) != []
  {
  }

  /** What is not an operator between two operands. */
  lemma {:induction false} S6(e: SExpr, ws: seq<Word>, i: nat)
    requires FineS(e) && LayerS(e) == 10 && Here(ws, i, ShowS(e))
    ensures P6(ws, i) == Tree(e, i + |ShowS(e)|)
    decreases e, 1
  {
    hide P0, P6;
    match e {
      case Not(a) =>
        Prefixed("!", a, ws, i);
        S6(a, ws, i + 1);
        NotParse(ws, i, a, i + 1 + |ShowS(a)|);
      case Compl(a) =>
        Prefixed("~", a, ws, i);
        S6(a, ws, i + 1);
        ComplParse(ws, i, a, i + 1 + |ShowS(a)|);
      case Paren(x) =>
        Enclosed("(", ShowI(x), ")", ws, i);
        var j := i + 1 + |ShowI(x)|;
        NoOperator(ws, j);
        IParses(x, 0, ws, i + 1);
        ParenParse(ws, i, x, j);
      case Command(c) => CommandParse(ws, i, c);
      case Test(c, file) => TestParse(ws, i, c, file);
      case Literal(w) => LiteralParse(ws, i, w);
    }
  }

  lemma NotParse(ws: seq<Word>, i: nat, a: SExpr, n: nat)
    requires i < |ws| && ws[i] == "!" && P6(ws, i + 1) == Tree(a, n)
    ensures P6(ws, i) == Tree(Not(a), n)
  {
    hide P0;
  }

  lemma ComplParse(ws: seq<Word>, i: nat, a: SExpr, n: nat)
    requires i < |ws| && ws[i] == "~" && P6(ws, i + 1) == Tree(a, n)
    ensures P6(ws, i) == Tree(Compl(a), n)
  {
    hide P0;
  }

  lemma ParenParse(ws: seq<Word>, i: nat, x: IExpr, j: nat)
    requires i < |ws| && ws[i] == "(" && P0(ws, i + 1) == Tree(x, j) && j < |ws| && ws[j] == ")"
    ensures P6(ws, i) == Tree(Paren(x), j + 1)
  {
    hide P0;
  }

  lemma NoOperator(ws: seq<Word>, j: nat)
    requires j < |ws| && ws[j] == ")"
    ensures Stop(ws, j, 0)
  {
  }

  lemma CommandParse(ws: seq<Word>, i: nat, c: seq<Word>)
    requires Here(ws, i, ["{"] + c + ["}"]) && forall k :: 0 <= k < |c| ==> c[k] != "}"
    ensures P6(ws, i) == Tree(Command(c), i + |c| + 2)
  {
    hide P0;
    Enclosed("{", c, "}", ws, i);
    var j := i + 1 + |c|;
    forall k | i + 1 <= k < j ensures ws[k] != "}" {
      assert ws[i + 1 + (k - i - 1)] == c[k - i - 1];
    }
    BraceAt(ws, i + 1, j);
    assert ws[i + 1..j] == c;
  }

  lemma TestParse(ws: seq<Word>, i: nat, c: char, file: Word)
    requires Here(ws, i, [['-', c], file]) && c in "erwxfdzo" && !AnyOp(file)
    ensures P6(ws, i) == Tree(Test(c, file), i + 2)
  {
    hide P0;
    var s: seq<Word> := [['-', c], file];
    assert ws[i] == s[0] && ws[i + 1] == s[1];
  }

  lemma LiteralParse(ws: seq<Word>, i: nat, w: Word)
    requires Here(ws, i, [w]) && !AnyOp(w) && !TestOp(w) && w != "{"
    ensures P6(ws, i) == Tree(Literal(w), i + 1)
  {
    hide P0;
    assert ws[i] == [w][0];
  }

  lemma Enclosed(open: Word, a: seq<Word>, close: Word, ws: seq<Word>, i: nat)
    requires Here(ws, i, [open] + a + [close])
    ensures var j := i + 1 + |a|; i < j < |ws| && ws[i] == open && ws[j] == close && Here(ws, i + 1, a)
  {
    HereThree(ws, i, [open], a, [close]);
    assert ws[i] == [open][0] && ws[i + 1 + |a|] == [close][0];
  }

  lemma Prefixed(op: Word, a: SExpr, ws: seq<Word>, i: nat)
    requires Here(ws, i, [op] + ShowS(a))
    ensures Here(ws, i + 1, ShowS(a)) && ws[i] == op
  {
    assert [op] + ShowS(a) == [] + [op] + ShowS(a);
    HereThree(ws, i, [], [op], ShowS(a));
    assert ws[i] == [op][0];
  }

  lemma {:induction false} BraceAt(ws: seq<Word>, i: nat, j: nat)
    requires i <= j < |ws| && ws[j] == "}" && forall k :: i <= k < j ==> ws[k] != "}"
    ensures Brace(ws, i) == j
    decreases j - i
  {
    if i < j {
      BraceAt(ws, i + 1, j);
    }
  }
}
