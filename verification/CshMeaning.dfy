/** What the operators of the C shell's command lines mean (bin/csh/sh.parse.c). */
module CshMeaning {
  import opened Wrappers
  import opened CshSyntax
  import opened CshGrammar

  // ------------------------------------------------------------ the background

  /** A command in the background keeps everything but its flags; a list goes into a
      subshell as it is. */
  lemma BackgroundMeans(u: Tree)
    requires u != Nil
    ensures var b := Background(u);
            && (u.Com? ==> b == Com(u.args, u.lef, u.rit, u.flg + {FAnd, FInt}))
            && (u.Par? ==> b == Par(u.sub, u.lef, u.rit, u.flg + {FAnd, FInt}))
            && (u.Fil? ==> b == Fil(u.car, u.cdr, u.flg + {FAnd, FInt}))
            && (u.Lst? || u.And? || u.Or? ==> b == Par(u, None, None, {FAnd, FInt}))
  {
  }

  /** What stands before the first `&` of a segment goes into the background, and what
      stands behind it is the rest of the list. */
  lemma AmpersandMeans(ws: seq<Word>, i: nat, j: nat, m: set<Mode>)
    requires i <= j && Amp(ws, i, j, 0, None).0 < j && Syn0(ws, i, j, m).err.None?
    ensures var k := Amp(ws, i, j, 0, None).0; var r := Syn0(ws, i, j, m);
            var u, v := Syn1(ws, i, k, m), Syntax(ws, k, j, m);
            && u.Done? && v.Done? && u.t != Nil && r.Done? && r.t.Lst? && r.t.cdr == v.t
            && (if u.t.Lst? || u.t.And? || u.t.Or? then r.t.car == Par(u.t, None, None, {FAnd, FInt})
                else (r.t.car.Com? || r.t.car.Par? || r.t.car.Fil?) && r.t.car.flg == u.t.flg + {FAnd, FInt}
                     && r.t.car.(flg := u.t.flg) == u.t)
  {
    hide Amp, Syn1, Syntax, Background;
    var (k, l, e) := Amp(ws, i, j, 0, None);
    AmpFinds(ws, i, j, 0, None);
    AmpFacts(ws, i, j, 0);
    AmpLevels(ws, i, j, 0, None);
    AmpLone(ws, i, i, j, None);
    DeepEnough(ws, i, k, j);
    DeepNone(ws, i);
    var u := Syn1(ws, i, k, m);
    SyntaxSound(ws, k, j, m);
    Syn1Sound(ws, i, k, m);
    ParsesFacts(ws, ASemi, i, k, m, u.t);
    BackgroundMeans(u.t);
  }

  /** Commands after which parentheses are arguments. */
  predicate IsKey(w: Word) {
    w in {"exit", "foreach", "if", "@", "set", "switch", "while"}
  }

  /** One of them stands at `k`, behind nothing but `else`. */
  predicate KeyAt(ws: seq<Word>, i: nat, j: nat, k: nat) {
    i <= k < j && ElsesUpto(ws, i, k) && IsKey(At(ws, k))
  }

  lemma {:induction false} SpecialMeans(ws: seq<Word>, i: nat, j: nat)
    ensures Special(ws, i, j) <==> exists k :: KeyAt(ws, i, j, k)
    decreases j - i
  {
    hide Special, KeyAt, IsKey, At;
    SpecialStep(ws, i, j);
    if i < j && At(ws, i) == "else" {
      var next := i + 1;
      SpecialMeans(ws, next, j);
      if k :| KeyAt(ws, next, j, k) {
        KeyAtStep(ws, i, j, k);
      }
    } else if i < j {
      KeyAtStep(ws, i, j, i);
    }
    if k :| KeyAt(ws, i, j, k) {
      KeyAtStep(ws, i, j, k);
    }
  }

  lemma SpecialStep(ws: seq<Word>, i: nat, j: nat)
    ensures Special(ws, i, j) <==> i < j && if At(ws, i) == "else" then Special(ws, i + 1, j) else IsKey(At(ws, i))
  {
  }

  lemma KeyAtStep(ws: seq<Word>, i: nat, j: nat, k: nat)
    ensures KeyAt(ws, i, j, k) <==> i < j && if At(ws, i) == "else" then KeyAt(ws, i + 1, j, k) else k == i && IsKey(At(ws, i))
  {
    if i < k < j && At(ws, i) == "else" && ElsesUpto(ws, i + 1, k) {
      assert ElsesUpto(ws, i, k);
    }
  }

  predicate ElsesUpto(ws: seq<Word>, i: nat, k: nat) {
    forall q :: i <= q < k ==> At(ws, q) == "else"
  }

  // ------------------------------------------------------------ the operators

  function One(a: Word): Tree {
    Com([a], None, None, {})
  }

  /** A word is a command. */
  lemma WordParses(ws: seq<Word>, i: nat, m: set<Mode>)
    requires Plain(At(ws, i))
    ensures Parses(ws, AUnit, i, i + 1, m, Com([At(ws, i)], None, None, if C(At(ws, i + 1), 0) == ')' then {FPar} else {}))
  {
    hide At;
    var pos := [i];
    var flg := if C(At(ws, i + 1), 0) == ')' then {FPar} else {};
    assert Flags(ws, i + 1, None, None) == flg;
    assert Words(ws, pos) == [At(ws, i)];
    FlatOne(ws, i);
    assert Placed(ws, i, i, pos, None, None);
    assert IsCommand(ws, i, i + 1, m, Com([At(ws, i)], None, None, flg), pos, None, None);
  }

  lemma FlatOne(ws: seq<Word>, i: nat)
    requires Plain(At(ws, i))
    ensures Flat(ws, i, i + 1) && Whole(ws, i, i + 1) && Turn(At(ws, i)) == 0
  {
    FlatWhole(ws, i, i + 1);
  }

  lemma UnitUp(ws: seq<Word>, i: nat, j: nat, m: set<Mode>, t: Tree)
    requires i <= j && Parses(ws, AUnit, i, j, m, t)
    ensures Parses(ws, APipe, i, j, m, t) && Parses(ws, AnAnd, i, j, m, t) && Parses(ws, AnOr, i, j, m, t)
    ensures Parses(ws, ASemi, i, j, m, t) && Parses(ws, ALine, i, j, m, t)
  {
    hide IsCommand, IsSubshell;
    ParsesFacts(ws, AUnit, i, j, m, t);
    PipeUp1(ws, i, j, m, t);
  }

  lemma PipeUp1(ws: seq<Word>, i: nat, j: nat, m: set<Mode>, t: Tree)
    requires Parses(ws, AUnit, i, j, m, t) && Clear(ws, 0, i, j)
    ensures Parses(ws, APipe, i, j, m, t) && Parses(ws, AnAnd, i, j, m, t) && Parses(ws, AnOr, i, j, m, t)
    ensures Parses(ws, ASemi, i, j, m, t) && Parses(ws, ALine, i, j, m, t)
  {
    assert Parses(ws, APipe, i, j, m, t);
    assert Parses(ws, AnAnd, i, j, m, t);
    assert Parses(ws, AnOr, i, j, m, t);
    assert Parses(ws, ASemi, i, j, m, t);
  }

  /** The words of `a op b`. */
  ghost predicate Line(ws: seq<Word>, a: Word, op: Word, b: Word) {
    ws == [a, op, b] && Plain(a) && Plain(b)
  }

  lemma Sides(ws: seq<Word>, a: Word, op: Word, b: Word, m: set<Mode>, m': set<Mode>)
    requires Line(ws, a, op, b) && C(op, 0) != ')'
    ensures Parses(ws, AUnit, 0, 1, m, One(a)) && Parses(ws, AUnit, 2, 3, m', One(b))
  {
    WordParses(ws, 0, m);
    WordParses(ws, 2, m');
  }

  lemma LineToList(ws: seq<Word>, j: nat, t: Tree)
    requires j == |ws| > 0 && !Separator(At(ws, 0)) && Parses(ws, ALine, 0, j, {}, t)
    ensures Syntax(ws, 0, j, {}) == Done(t, None)
  {
    assert Parses(ws, AList, 0, j, {}, t);
    ParserCorrect(ws, t);
  }

  lemma PlainNoSeparator(w: Word)
    requires Plain(w)
    ensures !Separator(w)
  {
  }

  lemma OrMeans(a: Word, b: Word)
    requires Plain(a) && Plain(b)
    ensures Syntax([a, "||", b], 0, 3, {}) == Done(Or(One(a), One(b)), None)
  {
    hide Clear, IsCommand, IsSubshell;
    var ws := [a, "||", b];
    Sides(ws, a, "||", b, {}, {});
    UnitUp(ws, 0, 1, {}, One(a));
    UnitUp(ws, 2, 3, {}, One(b));
    var t := Or(One(a), One(b));
    assert t.car == One(a) && t.cdr == One(b) && IsOp(OrOr, At(ws, 1));
    assert Parses(ws, AnOr, 0, 3, {}, t);
    OrUp1(ws, t);
  }

  lemma OrUp1(ws: seq<Word>, t: Tree)
    requires ws != [] && Plain(ws[0]) && Parses(ws, AnOr, 0, |ws|, {}, t)
    ensures Syntax(ws, 0, |ws|, {}) == Done(t, None)
  {
    ParsesFacts(ws, AnOr, 0, |ws|, {}, t);
    assert Parses(ws, ASemi, 0, |ws|, {}, t);
    assert Parses(ws, ALine, 0, |ws|, {}, t);
    PlainNoSeparator(ws[0]);
    LineToList(ws, |ws|, t);
  }

  lemma AndMeans(a: Word, b: Word)
    requires Plain(a) && Plain(b)
    ensures Syntax([a, "&&", b], 0, 3, {}) == Done(And(One(a), One(b)), None)
  {
    hide Clear, IsCommand, IsSubshell;
    var ws := [a, "&&", b];
    Sides(ws, a, "&&", b, {}, {});
    UnitUp(ws, 0, 1, {}, One(a));
    UnitUp(ws, 2, 3, {}, One(b));
    var t := And(One(a), One(b));
    assert t.car == One(a) && t.cdr == One(b) && IsOp(AndAnd, At(ws, 1));
    assert Parses(ws, AnAnd, 0, 3, {}, t);
    assert Parses(ws, AnOr, 0, 3, {}, t);
    OrUp1(ws, t);
  }

  lemma PipeMeans(a: Word, b: Word)
    requires Plain(a) && Plain(b)
    ensures Syntax([a, "|", b], 0, 3, {}) == Done(Fil(One(a), One(b), {}), None)
  {
    hide Clear, IsCommand, IsSubshell;
    var ws := [a, "|", b];
    Sides(ws, a, "|", b, {POut}, {PIn});
    UnitUp(ws, 2, 3, {PIn}, One(b));
    var t := Fil(One(a), One(b), {});
    assert t.car == One(a) && t.cdr == One(b) && IsOp(Pipe, At(ws, 1)) && !IsOp(OrOr, At(ws, 1)) && !Diag(ws, 1, 3);
    var m: set<Mode> := {};
    assert Before(m, false) == {POut} && m + {PIn} == {PIn};
    assert Parses(ws, AUnit, 0, 1, Before(m, Diag(ws, 1, 3)), t.car) && Parses(ws, APipe, 2, 3, m + {PIn}, t.cdr);
    assert Parses(ws, APipe, 0, 3, m, t);
    assert Parses(ws, AnAnd, 0, 3, {}, t);
    assert Parses(ws, AnOr, 0, 3, {}, t);
    OrUp1(ws, t);
  }

  /** `|&` */
  lemma PipeBothMeans(a: Word, b: Word)
    requires Plain(a) && Plain(b)
    ensures Syntax([a, "|", "&", b], 0, 4, {}) == Done(Fil(One(a), One(b), {FDiag}), None)
  {
    hide Clear, IsCommand, IsSubshell;
    var ws := [a, "|", "&", b];
    WordParses(ws, 0, {POut, PDiag});
    WordParses(ws, 3, {PIn});
    UnitUp(ws, 3, 4, {PIn}, One(b));
    var t := Fil(One(a), One(b), {FDiag});
    assert t.car == One(a) && t.cdr == One(b) && IsOp(Pipe, At(ws, 1)) && !IsOp(OrOr, At(ws, 1)) && Diag(ws, 1, 4);
    var m: set<Mode> := {};
    assert Before(m, true) == {POut, PDiag} && m + {PIn} == {PIn};
    assert Parses(ws, AUnit, 0, 1, Before(m, Diag(ws, 1, 4)), t.car) && Parses(ws, APipe, 3, 4, m + {PIn}, t.cdr);
    assert Parses(ws, APipe, 0, 4, m, t);
    assert Parses(ws, AnAnd, 0, 4, {}, t);
    assert Parses(ws, AnOr, 0, 4, {}, t);
    OrUp1(ws, t);
  }

  /** `;` and `&` */
  lemma SemicolonMeans(a: Word, b: Word)
    requires Plain(a) && Plain(b)
    ensures Syntax([a, ";", b], 0, 3, {}) == Done(Lst(One(a), One(b)), None)
    ensures Syntax([a, "\n", b], 0, 3, {}) == Done(Lst(One(a), One(b)), None)
  {
    SemiMeans(a, ";", b);
    SemiMeans(a, "\n", b);
  }

  lemma SemiMeans(a: Word, op: Word, b: Word)
    requires Plain(a) && Plain(b) && (op == ";" || op == "\n")
    ensures Syntax([a, op, b], 0, 3, {}) == Done(Lst(One(a), One(b)), None)
  {
    hide IsCommand, IsSubshell;
    var ws := [a, op, b];
    Sides(ws, a, op, b, {}, {});
    UnitUp(ws, 0, 1, {}, One(a));
    UnitUp(ws, 2, 3, {}, One(b));
    PlainNoSeparator(b);
    PlainNoSeparator(a);
    var t := Lst(One(a), One(b));
    assert Left(t) == One(a) && Right(t) == One(b) && IsOp(Semi, At(ws, 1));
    assert Parses(ws, AList, 2, 3, {}, One(b));
    LoneThree(ws);
    assert Parses(ws, ASemi, 0, 3, {}, t);
    assert Parses(ws, ALine, 0, 3, {}, t);
    LineToList(ws, 3, t);
  }

  lemma LoneThree(ws: seq<Word>)
    requires |ws| == 3 && Plain(ws[0]) && !Alone(ws[1]) && Plain(ws[2])
    ensures Lone(ws, 0, 3)
  {
  }

  lemma BackMeans(a: Word, b: Word)
    requires Plain(a) && Plain(b)
    ensures Syntax([a, "&", b], 0, 3, {}) == Done(Lst(Com([a], None, None, {FAnd, FInt}), One(b)), None)
  {
    hide IsCommand, IsSubshell, Clear;
    var ws := [a, "&", b];
    Sides(ws, a, "&", b, {}, {});
    UnitUp(ws, 0, 1, {}, One(a));
    UnitUp(ws, 2, 3, {}, One(b));
    PlainNoSeparator(b);
    PlainNoSeparator(a);
    BackgroundMeans(One(a));
    assert {} + {FAnd, FInt} == {FAnd, FInt};
    var t := Lst(Com([a], None, None, {FAnd, FInt}), One(b));
    assert t.car == Background(One(a)) && t.cdr == One(b) && Alone(At(ws, 1));
    assert Parses(ws, AList, 2, 3, {}, One(b));
    assert Parses(ws, ALine, 0, 3, {}, t);
    LineToList(ws, 3, t);
  }

  /** Parentheses make a subshell. */
  lemma ParenthesesMean(a: Word)
    requires Plain(a)
    ensures Syntax(["(", a, ")"], 0, 3, {}) == Done(Par(Com([a], None, None, {FPar}), None, None, {}), None)
  {
    hide IsCommand, Clear;
    var ws := ["(", a, ")"];
    WordParses(ws, 1, {PHere});
    var u := Com([a], None, None, {FPar});
    UnitUp(ws, 1, 2, {PHere}, u);
    var t := Par(u, None, None, {});
    assert Flags(ws, 3, None, None) == {};
    assert Places(ws, 0, 0, 0, [], None, None) && Places(ws, 3, 3, 3, [], None, None);
    assert IsSubshell(ws, 0, 0, 2, 3, {}, t, None, None);
    assert t.sub == u && Parses(ws, ALine, 0 + 1, 2, {PHere}, t.sub);
    assert Parses(ws, AUnit, 0, 3, {}, t);
    UnitUp(ws, 0, 3, {}, t);
    LineToList(ws, 3, t);
  }

  // ------------------------------------------------------------ redirections

  /** A command whose only argument comes first. */
  lemma RedirectParses(ws: seq<Word>, lef: Option<nat>, rit: Option<nat>)
    requires |ws| >= 3 && Plain(ws[0]) && Flat(ws, 0, |ws|) && Redirects(ws, 0, 0, |ws|, lef, rit)
    requires (lef.Some? ==> lef.value >= 2) && (rit.Some? ==> OutMark(ws, rit.value) >= 1)
    requires forall q :: 1 <= q < |ws| ==> InFile(ws, lef, rit, q)
    ensures Syntax(ws, 0, |ws|, {}) == Done(Com([ws[0]], File(ws, lef), File(ws, rit), Flags(ws, |ws|, lef, rit)), None)
  {
    hide IsCommand, Flags, Flat, Parses, Redirects;
    var t := Com([ws[0]], File(ws, lef), File(ws, rit), Flags(ws, |ws|, lef, rit));
    RedirectPlaces(ws, lef, rit);
    RedirectCommand(ws, lef, rit, t);
    CommandParses(ws, 0, |ws|, {}, t, [0], lef, rit);
    UnitUp(ws, 0, |ws|, {}, t);
    PlainNoSeparator(ws[0]);
    LineToList(ws, |ws|, t);
  }

  lemma CommandParses(ws: seq<Word>, i: nat, j: nat, m: set<Mode>, t: Tree, pos: seq<nat>, lef: Option<nat>, rit: Option<nat>)
    requires IsCommand(ws, i, j, m, t, pos, lef, rit)
    ensures Parses(ws, AUnit, i, j, m, t)
  {
    hide IsCommand, IsSubshell;
  }

  lemma RedirectPlaces(ws: seq<Word>, lef: Option<nat>, rit: Option<nat>)
    requires |ws| >= 3 && Plain(ws[0]) && Redirects(ws, 0, 0, |ws|, lef, rit)
    requires (lef.Some? ==> lef.value >= 2) && (rit.Some? ==> OutMark(ws, rit.value) >= 1)
    requires forall q :: 1 <= q < |ws| ==> InFile(ws, lef, rit, q)
    ensures Places(ws, 0, 0, |ws|, [0], lef, rit)
  {
    hide Redirects, OutMark, Net;
    var pos: seq<nat> := [0];
    forall q | 0 <= q < |ws| ensures Placed(ws, 0, q, pos, lef, rit) {
    }
  }

  lemma RedirectCommand(ws: seq<Word>, lef: Option<nat>, rit: Option<nat>, t: Tree)
    requires ws != [] && Flat(ws, 0, |ws|) && Places(ws, 0, 0, |ws|, [0], lef, rit)
    requires t == Com([ws[0]], File(ws, lef), File(ws, rit), Flags(ws, |ws|, lef, rit))
    ensures IsCommand(ws, 0, |ws|, {}, t, [0], lef, rit)
  {
    hide Flags, Places, Whole, Special;
    FlatWhole(ws, 0, |ws|);
    assert Words(ws, [0]) == [ws[0]];
  }

  lemma InputMeans(a: Word, b: Word)
    requires Plain(a) && Plain(b)
    ensures Syntax([a, "<", b], 0, 3, {}) == Done(Com([a], Some(b), None, {}), None)
    ensures Syntax([a, "<<", b], 0, 3, {}) == Done(Com([a], Some(b), None, {FHere}), None)
  {
    FlatThree(a, "<", b);
    FlatThree(a, "<<", b);
    assert Flags([a, "<", b], 3, Some(2), None) == {};
    assert Flags([a, "<<", b], 3, Some(2), None) == {FHere};
    RedirectParses([a, "<", b], Some(2), None);
    RedirectParses([a, "<<", b], Some(2), None);
  }

  lemma FlatThree(a: Word, op: Word, b: Word)
    requires Plain(a) && Turn(op) == 0 && Plain(b)
    ensures Flat([a, op, b], 0, 3) && Net([a, op, b], 0, 1) == 0
  {
    FlatWhole([a, op, b], 0, 3);
  }

  lemma OutputMeans(a: Word, b: Word)
    requires Plain(a) && Plain(b) && b != "!"
    ensures Syntax([a, ">", b], 0, 3, {}) == Done(Com([a], None, Some(b), {}), None)
    ensures Syntax([a, ">>", b], 0, 3, {}) == Done(Com([a], None, Some(b), {FCat}), None)
    ensures Syntax([a, ">", "&", b], 0, 4, {}) == Done(Com([a], None, Some(b), {FDiag}), None)
    ensures Syntax([a, ">", "!", b], 0, 4, {}) == Done(Com([a], None, Some(b), {FAny}), None)
  {
    OutputThree(a, ">", b);
    OutputThree(a, ">>", b);
    OutputFour(a, "&", b);
    OutputFour(a, "!", b);
  }

  lemma OutputThree(a: Word, op: Word, b: Word)
    requires Plain(a) && Plain(b) && b != "!" && op in {">", ">>"}
    ensures Syntax([a, op, b], 0, 3, {}) == Done(Com([a], None, Some(b), if op == ">>" then {FCat} else {}), None)
  {
    var ws := [a, op, b];
    FlatThree(a, op, b);
    assert OutMark(ws, 2) == 1;
    assert Flags(ws, 3, None, Some(2)) == if op == ">>" then {FCat} else {};
    RedirectParses(ws, None, Some(2));
  }

  lemma OutputFour(a: Word, op: Word, b: Word)
    requires Plain(a) && Plain(b) && b != "!" && op in {"&", "!"}
    ensures Syntax([a, ">", op, b], 0, 4, {}) == Done(Com([a], None, Some(b), if op == "&" then {FDiag} else {FAny}), None)
  {
    var ws := [a, ">", op, b];
    FlatWhole(ws, 0, 4);
    assert OutMark(ws, 3) == 1;
    assert Flags(ws, 4, None, Some(3)) == if op == "&" then {FDiag} else {FAny};
    RedirectParses(ws, None, Some(3));
  }

  // ------------------------------------------------------------ separators and errors

  /** Separators in front of a command count for nothing. */
  lemma SeparatorsMean(a: Word, sep: Word)
    requires Plain(a) && sep in {";", "&", "\n"}
    ensures Syntax([sep, a], 0, 2, {}) == Done(One(a), None)
    ensures Syntax([sep], 0, 1, {}) == Done(Nil, None)
  {
    hide IsCommand, Clear;
    var ws := [sep, a];
    WordParses(ws, 1, {});
    UnitUp(ws, 1, 2, {}, One(a));
    PlainNoSeparator(a);
    assert Parses(ws, AList, 1, 2, {}, One(a));
    assert Parses(ws, AList, 0, 2, {}, One(a));
    ParserCorrect(ws, One(a));
  }

  /** A `;` at the end leaves the first part of a list empty, an `&` the second. */
  lemma LastMeans(a: Word)
    requires Plain(a)
    ensures Syntax([a, ";"], 0, 2, {}) == Done(Lst(Nil, One(a)), None)
    ensures Syntax([a, "&"], 0, 2, {}) == Done(Lst(Com([a], None, None, {FAnd, FInt}), Nil), None)
  {
    LastSemicolon(a);
    LastAmpersand(a);
  }

  lemma LastSemicolon(a: Word)
    requires Plain(a)
    ensures Syntax([a, ";"], 0, 2, {}) == Done(Lst(Nil, One(a)), None)
  {
    hide IsCommand, IsSubshell;
    var ws := [a, ";"];
    WordParses(ws, 0, {});
    UnitUp(ws, 0, 1, {}, One(a));
    PlainNoSeparator(a);
    var t := Lst(Nil, One(a));
    assert Left(t) == One(a) && Right(t) == Nil && IsOp(Semi, At(ws, 1)) && Lone(ws, 0, 2);
    assert Parses(ws, AList, 2, 2, {}, Nil);
    assert Parses(ws, ASemi, 0, 2, {}, t);
    assert Parses(ws, ALine, 0, 2, {}, t);
    LineToList(ws, 2, t);
  }

  lemma LastAmpersand(a: Word)
    requires Plain(a)
    ensures Syntax([a, "&"], 0, 2, {}) == Done(Lst(Com([a], None, None, {FAnd, FInt}), Nil), None)
  {
    hide IsCommand, IsSubshell, Clear;
    var ws := [a, "&"];
    WordParses(ws, 0, {});
    UnitUp(ws, 0, 1, {}, One(a));
    PlainNoSeparator(a);
    BackgroundMeans(One(a));
    assert {} + {FAnd, FInt} == {FAnd, FInt};
    var t := Lst(Com([a], None, None, {FAnd, FInt}), Nil);
    assert t.car == Background(One(a)) && t.cdr == Nil && Alone(At(ws, 1));
    assert Parses(ws, AList, 2, 2, {}, Nil);
    assert Parses(ws, ALine, 0, 2, {}, t);
    LineToList(ws, 2, t);
  }

  /** What is wrong with some lines. */
  lemma ErrorsMean(a: Word, op: Word)
    requires Plain(a) && op in {">", ">>", "<", "<<"}
    ensures Syntax(["(", a], 0, 2, {}).err == Some("Too many ('s")
    ensures Syntax([a, ")"], 0, 2, {}).err == Some("Too many )'s")
    ensures Syntax([a, op], 0, 2, {}).err == Some("Missing name for redirect")
    ensures a != "!" ==> Syntax([op, a], 0, 2, {}).err == Some("Invalid null command")
  {
    TooMany(a);
    MissingWalk(a, op);
    NoOperators([a, op], Some("Missing name for redirect"));
    if a != "!" {
      NullWalk(op, a);
      NoOperators([op, a], Some("Invalid null command"));
    }
  }

  lemma TooMany(a: Word)
    requires Plain(a)
    ensures Syntax(["(", a], 0, 2, {}).err == Some("Too many ('s")
    ensures Syntax([a, ")"], 0, 2, {}).err == Some("Too many )'s")
  {
    PlainNoSeparator(a);
    assert Amp(["(", a], 1, 2, 1, None) == (2, 1, None);
    assert Amp([a, ")"], 0, 2, 0, None) == (2, -1, TOOMANY);
  }

  /** A line of two words without operators is a simple command. */
  lemma NoOperators(ws: seq<Word>, e: Err)
    requires |ws| == 2 && (forall k :: 0 <= k < 2 ==> Plain(ws[k]) || C(ws[k], 0) in "<>") && ws[1] != "&"
    requires Syn3(ws, 0, 2, {}).err == e
    ensures Syntax(ws, 0, 2, {}).err == e
  {
    hide Syn3;
    assert Amp(ws, 1, 2, 0, None) == (2, 0, None);
    assert Amp(ws, 0, 2, 0, None) == (2, 0, None);
    FindsNone(ws, Semi);
    FindsNone(ws, OrOr);
    FindsNone(ws, AndAnd);
    FindsNone(ws, Pipe);
    hide Find;
    assert Syn1b(ws, 0, 2, {}).err == e;
  }

  lemma FindsNone(ws: seq<Word>, op: Op)
    requires |ws| == 2 && forall k :: 0 <= k < 2 ==> Plain(ws[k]) || C(ws[k], 0) in "<>"
    ensures Find(ws, op, 0, 2, 0) == 2
  {
    assert Find(ws, op, 1, 2, 0) == 2;
  }

  lemma MissingWalk(a: Word, op: Word)
    requires Plain(a) && op in {">", ">>", "<", "<<"}
    ensures Syn3([a, op], 0, 2, {}).err == Some("Missing name for redirect")
  {
    hide Special, Syn0;
    var ws := [a, op];
    var spec, s := Special(ws, 0, 2), Start(ws, 2);
    var s1 := s.(pos := [0]);
    assert s.pos + [0] == [0];
    assert Step(ws, 0, 2, spec, {}, s) == (s1, 0);
    var (s2, p2) := Step(ws, 1, 2, spec, {}, s1);
    assert s2.err == MISSING && s2.lp.None? && p2 == 1;
    assert Walk(ws, 1, 2, spec, {}, s1) == s2;
  }

  lemma NullWalk(op: Word, a: Word)
    requires Plain(a) && a != "!" && op in {">", ">>", "<", "<<"}
    ensures Syn3([op, a], 0, 2, {}).err == Some("Invalid null command")
  {
    hide Special, Syn0;
    var ws := [op, a];
    var spec, s := Special(ws, 0, 2), Start(ws, 2);
    var (s1, p1) := Step(ws, 0, 2, spec, {}, s);
    assert p1 == 1 && s1.err.None? && s1.pos == [] && s1.lp.None?;
    assert Walk(ws, 0, 2, spec, {}, s) == s1;
  }
}
