/** The parser of the C shell (bin/csh/sh.parse.c): from a list of words to a
    tree of commands, as functions. */
module CshSyntax {
  import opened Wrappers

  type Word = seq<char>

  /** The word at a place; behind the last one comes the empty word of the list's head. */
  function At(ws: seq<Word>, i: nat): Word {
    if i < |ws| then ws[i] else ""
  }

  /** `w[k]`, up to the NUL. */
  function C(w: Word, k: nat): char {
    if k < |w| then w[k] else '\0'
  }

  /** What surrounds a segment: within parentheses, behind and before a pipe. */
  datatype Mode = PHere | PIn | POut | PDiag

  datatype Flag = FAnd | FInt | FPar | FCat | FDiag | FAny | FHere

  datatype Tree =
    | Nil
    | Com(args: seq<Word>, lef: Option<Word>, rit: Option<Word>, flg: set<Flag>)
    | Par(sub: Tree, lef: Option<Word>, rit: Option<Word>, flg: set<Flag>)
    | Fil(car: Tree, cdr: Tree, flg: set<Flag>)
    | And(car: Tree, cdr: Tree)
    | Or(car: Tree, cdr: Tree)
    | Lst(car: Tree, cdr: Tree)

  /** The first error flagged. */
  type Err = Option<string>

  function First(a: Err, b: Err): Err {
    if a.Some? then a else b
  }

  /** What a parsing function comes to: a tree, and the first error flagged; or it
      strays out of its segment, because a parenthesis that it has noticed is never
      closed there: then it goes on around the circular list, for ever if it has
      noticed no closing one at all. */
  datatype Res = Done(t: Tree, err: Err) | Astray(err: Err)

  // ------------------------------------------------------ looking for operators

  datatype Op = Semi | OrOr | AndAnd | Pipe

  predicate IsOp(op: Op, w: Word) {
    match op
    case Semi => C(w, 0) == ';' || C(w, 0) == '\n'
    case OrOr => C(w, 0) == '|' && C(w, 1) == '|'
    case AndAnd => C(w, 0) == '&' && C(w, 1) == '&'
    case Pipe => C(w, 0) == '|'
  }

  /** The parentheses opened, less those closed. */
  function Net(ws: seq<Word>, i: nat, j: nat): int
    decreases j - i
  {
    if i >= j then 0 else Turn(At(ws, i)) + Net(ws, i + 1, j)
  }

  function Turn(w: Word): int {
    if C(w, 0) == '(' then 1 else if C(w, 0) == ')' then -1 else 0
  }

  /** The first operator of a kind outside parentheses from `p` on, or the end. */
  function Find(ws: seq<Word>, op: Op, p: nat, j: nat, l: int): (k: nat)
    ensures p <= j ==> p <= k <= j
    ensures k < j ==> IsOp(op, At(ws, k))
    decreases j - p
  {
    if p >= j then j
    else if Turn(At(ws, p)) != 0 then Find(ws, op, p + 1, j, l + Turn(At(ws, p)))
    else if l == 0 && IsOp(op, At(ws, p)) then p
    else Find(ws, op, p + 1, j, l)
  }

  const TOOMANY: Err := Some("Too many )'s")

  /** Where `syn0` finds an `&`, or the end, with the parentheses still open and the error. */
  function Amp(ws: seq<Word>, p: nat, j: nat, l: int, err: Err): (r: (nat, int, Err))
    ensures p <= j ==> p <= r.0 <= j
    decreases j - p
  {
    var w := At(ws, p);
    if p >= j then (j, l, err)
    else if C(w, 0) == '(' then Amp(ws, p + 1, j, l + 1, err)
    else if C(w, 0) == ')' then Amp(ws, p + 1, j, l - 1, if l - 1 < 0 then First(err, TOOMANY) else err)
    else if C(w, 0) == '>' || (C(w, 0) == '|' && C(w, 1) != '|') then
      Amp(ws, if p + 1 < j && At(ws, p + 1) == "&" then p + 2 else p + 1, j, l, err)
    else if C(w, 0) == '&' && l == 0 && C(w, 1) != '&' then (p, l, err)
    else Amp(ws, p + 1, j, l, err)
  }

  predicate Separator(w: Word) {
    C(w, 0) in ";&\n"
  }

  // --------------------------------------------------------- simple commands

  const KEYS: set<Word> := {"exit", "foreach", "if", "@", "set", "switch", "while"}

  /** A command that starts, after any `else`, with a word after which parentheses
      are arguments. */
  function Special(ws: seq<Word>, i: nat, j: nat): bool
    decreases j - i
  {
    if i >= j then false else if At(ws, i) == "else" then Special(ws, i + 1, j) else At(ws, i) in KEYS
  }

  const BADPLACE: Err := Some("Badly placed (")
  const BADPLACES: Err := Some("Badly placed ()'s")
  const MISSING: Err := Some("Missing name for redirect")
  const TWOOUT: Err := Some("Ambiguous output redirect")
  const TWOIN: Err := Some("Ambiguous input redirect")
  const HERE: Err := Some("Can't << within ()'s")
  const NULLCMD: Err := Some("Invalid null command")

  /** How far `syn3` has come: the parentheses open, where those of a subshell
      start and end, where the arguments and the files are. */
  datatype Simple = Simple(l: int, lp: Option<nat>, rp: Option<nat>, pos: seq<nat>,
                           lef: Option<nat>, rit: Option<nat>, flg: set<Flag>, err: Err)

  predicate RelPar(w: Word) {
    C(w, 0) in "<>()"
  }

  function Flagged(s: Simple, e: Err): Simple {
    s.(err := First(s.err, e))
  }

  /** `>`, and the last word that belongs to it. */
  function Output(ws: seq<Word>, p: nat, j: nat, m: set<Mode>, s: Simple): (r: (Simple, nat))
    requires p < j
    ensures p <= r.1 < j
  {
    var s0 := if C(At(ws, p), 1) == '>' then s.(flg := s.flg + {FCat}) else s;
    var amp := p + 1 < j && At(ws, p + 1) == "&";
    var s1, p1 := if amp then s0.(flg := s0.flg + {FDiag}) else s0, if amp then p + 1 else p;
    if amp && (POut in m || PDiag in m) then (Flagged(s1, TWOOUT), p1)
    else
      var bang := p1 + 1 < j && At(ws, p1 + 1) == "!";
      var s2, p2 := if bang then s1.(flg := s1.flg + {FAny}) else s1, if bang then p1 + 1 else p1;
      if p2 + 1 == j then (Flagged(s2, MISSING), p2)
      else if RelPar(At(ws, p2 + 1)) then (Flagged(s2, MISSING), p2 + 1)
      else if (POut in m && PDiag !in m) || s.rit.Some? then (Flagged(s2, TWOOUT), p2 + 1)
      else (s2.(rit := Some(p2 + 1)), p2 + 1)
  }

  /** `<` */
  function Input(ws: seq<Word>, p: nat, j: nat, m: set<Mode>, s: Simple): (r: (Simple, nat))
    requires p < j
    ensures p <= r.1 < j
  {
    var s0 := if C(At(ws, p), 1) == '<' then s.(flg := s.flg + {FHere}) else s;
    if p + 1 == j then (Flagged(s0, MISSING), p)
    else if RelPar(At(ws, p + 1)) then (Flagged(s0, MISSING), p + 1)
    else if PHere in m && FHere in s0.flg then (Flagged(s0, HERE), p + 1)
    else if PIn in m || s.lef.Some? then (Flagged(s0, TWOIN), p + 1)
    else (s0.(lef := Some(p + 1)), p + 1)
  }

  /** The second loop of `syn3`. */
  function Walk(ws: seq<Word>, p: nat, j: nat, spec: bool, m: set<Mode>, s: Simple): Simple
    decreases j - p
  {
    if p >= j then s
    else
      var (s', p') := Step(ws, p, j, spec, m, s);
      Walk(ws, p' + 1, j, spec, m, s')
  }

  function Step(ws: seq<Word>, p: nat, j: nat, spec: bool, m: set<Mode>, s: Simple): (r: (Simple, nat))
    requires p < j
    ensures p <= r.1 < j
  {
    var c := C(At(ws, p), 0);
    if c == '(' then
      var s0 := if s.l == 0 then (if s.lp.Some? && !spec then Flagged(s, BADPLACE) else s).(lp := Some(p + 1)) else s;
      (Saved(p, spec, s0.(l := s0.l + 1)), p)
    else if c == ')' then (Saved(p, spec, s.(l := s.l - 1, rp := if s.l - 1 == 0 then Some(p) else s.rp)), p)
    else if c == '>' && s.l == 0 then Output(ws, p, j, m, s)
    else if c == '<' && s.l == 0 then Input(ws, p, j, m, s)
    else if c == '>' || c == '<' then (Saved(p, spec, s), p)
    else (if s.l != 0 && !spec then s else s.(pos := s.pos + [p]), p)
  }

  /** Parentheses, and what is between them, are arguments of special commands only. */
  function Saved(p: nat, spec: bool, s: Simple): Simple {
    if spec then s.(pos := s.pos + [p]) else s
  }

  function Start(ws: seq<Word>, j: nat): Simple {
    Simple(0, None, None, [], None, None, if C(At(ws, j), 0) == ')' then {FPar} else {}, None)
  }

  function Words(ws: seq<Word>, pos: seq<nat>): (r: seq<Word>)
    ensures |r| == |pos|
  {
    seq(|pos|, i requires 0 <= i < |pos| => At(ws, pos[i]))
  }

  function File(ws: seq<Word>, f: Option<nat>): Option<Word> {
    if f.Some? then Some(At(ws, f.value)) else None
  }

  // -------------------------------------------------- the parsing functions

  /** With an error flagged before. */
  function After(e: Err, r: Res): Res {
    r.(err := First(e, r.err))
  }

  /** Two parts, one parsed after the other, and what becomes of them. */
  function Both(a: Res, b: Res, t: (Tree, Tree) -> Tree): Res {
    if a.Astray? then a
    else if b.Astray? then After(a.err, b)
    else Done(t(a.t, b.t), First(a.err, b.err))
  }

  function Syntax(ws: seq<Word>, i: nat, j: nat, m: set<Mode>): Res
    decreases if i < j && Separator(At(ws, i)) then 2 * (j - i) - 1 else 2 * (j - i), 9
  {
    if i >= j then Done(Nil, None)
    else if Separator(At(ws, i)) then Syntax(ws, i + 1, j, m)
    else Syn0(ws, i, j, m)
  }

  /** A command in the background; a list goes into a subshell. */
  function Background(t: Tree): Tree {
    match t
    case Com(args, lef, rit, flg) => Com(args, lef, rit, flg + {FAnd, FInt})
    case Par(sub, lef, rit, flg) => Par(sub, lef, rit, flg + {FAnd, FInt})
    case Fil(car, cdr, flg) => Fil(car, cdr, flg + {FAnd, FInt})
    case _ => Par(t, None, None, {FAnd, FInt})
  }

  function Syn0(ws: seq<Word>, i: nat, j: nat, m: set<Mode>): Res
    requires i <= j
    decreases 2 * (j - i), 8
  {
    var (k, l, e) := Amp(ws, i, j, 0, None);
    if k < j then
      AmpFinds(ws, i, j, 0, None);
      After(e, Both(Syn1(ws, i, k, m), Syntax(ws, k, j, m), (a, b) => Lst(Background(a), b)))
    else if l == 0 then After(e, Syn1(ws, i, j, m))
    else Done(Nil, First(e, Some("Too many ('s")))
  }

  function Listed(a: Tree, b: Tree): Tree {
    if b == Nil then Lst(Nil, a) else Lst(a, b)
  }

  function Syn1(ws: seq<Word>, i: nat, j: nat, m: set<Mode>): Res
    requires i <= j
    decreases 2 * (j - i), 7
  {
    var k := Find(ws, Semi, i, j, 0);
    if k < j then Both(Syn1a(ws, i, k, m), Syntax(ws, k + 1, j, m), (a, b) => Listed(a, b)) else Syn1a(ws, i, j, m)
  }

  function Syn1a(ws: seq<Word>, i: nat, j: nat, m: set<Mode>): Res
    requires i <= j
    decreases 2 * (j - i), 6
  {
    var k := Find(ws, OrOr, i, j, 0);
    if k < j then Both(Syn1b(ws, i, k, m), Syn1a(ws, k + 1, j, m), (a, b) => Or(a, b)) else Syn1b(ws, i, j, m)
  }

  function Syn1b(ws: seq<Word>, i: nat, j: nat, m: set<Mode>): Res
    requires i <= j
    decreases 2 * (j - i), 5
  {
    var k := Find(ws, AndAnd, i, j, 0);
    if k < j then Both(Syn2(ws, i, k, m), Syn1b(ws, k + 1, j, m), (a, b) => And(a, b)) else Syn2(ws, i, j, m)
  }

  function Syn2(ws: seq<Word>, i: nat, j: nat, m: set<Mode>): Res
    requires i <= j
    decreases 2 * (j - i), 4
  {
    var k := Find(ws, Pipe, i, j, 0);
    if k < j then
      var diag := k + 1 < j && C(At(ws, k + 1), 0) == '&';
      var a := Syn3(ws, i, k, m + if diag then {POut, PDiag} else {POut});
      Both(a, Syn2(ws, if diag then k + 2 else k + 1, j, m + {PIn}), (a, b) => Fil(a, b, if diag then {FDiag} else {}))
    else Syn3(ws, i, j, m)
  }

  function Syn3(ws: seq<Word>, i: nat, j: nat, m: set<Mode>): Res
    requires i <= j
    decreases 2 * (j - i), 3
  {
    var spec := Special(ws, i, j);
    var s := Walk(ws, i, j, spec, m, Start(ws, j));
    if s.lp.Some? && !spec then
      var e := if s.pos != [] then First(s.err, BADPLACES) else s.err;
      if Closed(i, j, s) then
        After(e, Subshell(ws, Syn0(ws, s.lp.value, s.rp.value, {PHere}), s))
      else Astray(e)
    else Done(Com(Words(ws, s.pos), File(ws, s.lef), File(ws, s.rit), s.flg),
              if s.pos == [] then First(s.err, NULLCMD) else s.err)
  }

  /** The closing parenthesis has been noticed, and after the opening one. */
  predicate Closed(i: nat, j: nat, s: Simple) {
    s.lp.Some? && s.rp.Some? && i < s.lp.value <= s.rp.value < j
  }

  function Subshell(ws: seq<Word>, r: Res, s: Simple): Res {
    if r.Astray? then r else Done(Par(r.t, File(ws, s.lef), File(ws, s.rit), s.flg), r.err)
  }

  lemma AmpFinds(ws: seq<Word>, p: nat, j: nat, l: int, err: Err)
    requires p <= j
    ensures var r := Amp(ws, p, j, l, err); r.0 < j ==> C(At(ws, r.0), 0) == '&' && r.1 == 0
    decreases j - p
  {
  }

  // ------------------------------------------------------------ levels

  lemma {:induction false} NetAdds(ws: seq<Word>, i: nat, k: nat, j: nat)
    requires i <= k <= j
    ensures Net(ws, i, j) == Net(ws, i, k) + Net(ws, k, j)
    decreases k - i
  {
    if i < k {
      NetAdds(ws, i + 1, k, j);
    }
  }

  /** No parenthesis is closed that has not been opened here. */
  ghost predicate Deep(ws: seq<Word>, i: nat, j: nat) {
    forall k :: i <= k <= j ==> Net(ws, i, k) >= 0
  }

  lemma DeepHalves(ws: seq<Word>, i: nat, k: nat, j: nat)
    requires i <= k <= j && Deep(ws, i, j) && Net(ws, i, k) == 0
    ensures Deep(ws, i, k) && Deep(ws, k, j)
  {
    forall q | k <= q <= j ensures Net(ws, k, q) >= 0 {
      NetAdds(ws, i, k, q);
    }
  }

  lemma DeepGrows(ws: seq<Word>, i: nat, p: nat)
    requires i <= p && Deep(ws, i, p) && Net(ws, i, p) + Turn(At(ws, p)) >= 0
    ensures Deep(ws, i, p + 1) && Net(ws, i, p + 1) == Net(ws, i, p) + Turn(At(ws, p))
  {
    NetAdds(ws, i, p, p + 1);
    assert Net(ws, p + 1, p + 1) == 0;
  }

  /** An operator is found outside parentheses. */
  lemma {:induction false} FindFacts(ws: seq<Word>, op: Op, p: nat, j: nat, l: int)
    requires p <= j
    ensures var k := Find(ws, op, p, j, l);
            k < j ==> l + Net(ws, p, k) == 0 && Turn(At(ws, k)) == 0
    decreases j - p
  {
    if p < j {
      if Turn(At(ws, p)) != 0 {
        FindFacts(ws, op, p + 1, j, l + Turn(At(ws, p)));
      } else if !(l == 0 && IsOp(op, At(ws, p))) {
        FindFacts(ws, op, p + 1, j, l);
      }
    }
  }

  /** What lies before an operator, and what behind it, is as deep as the whole. */
  lemma Split(ws: seq<Word>, op: Op, i: nat, j: nat)
    requires i <= j && Deep(ws, i, j) && Net(ws, i, j) == 0
    ensures var k := Find(ws, op, i, j, 0);
            k < j ==> Deep(ws, i, k) && Net(ws, i, k) == 0 && Deep(ws, k + 1, j) && Net(ws, k + 1, j) == 0
  {
    var k := Find(ws, op, i, j, 0);
    FindFacts(ws, op, i, j, 0);
    if k < j {
      DeepHalves(ws, i, k, j);
      NetAdds(ws, i, k, j);
      Behind(ws, k, j);
    }
  }

  lemma Behind(ws: seq<Word>, k: nat, j: nat)
    requires k < j && Deep(ws, k, j) && Turn(At(ws, k)) == 0
    ensures Deep(ws, k + 1, j) && Net(ws, k + 1, j) == Net(ws, k, j)
  {
    assert Net(ws, k, k + 1) == 0 + Net(ws, k + 1, k + 1);
    DeepHalves(ws, k, k + 1, j);
  }

  /** From level `l` on, no more is closed than opened. */
  ghost predicate DeepFrom(ws: seq<Word>, p: nat, j: nat, l: int) {
    forall k :: p <= k <= j ==> Net(ws, p, k) >= -l
  }

  lemma DeepFromNext(ws: seq<Word>, p: nat, j: nat, l: int)
    requires p < j && l >= 0
    ensures DeepFrom(ws, p, j, l) <==> DeepFrom(ws, p + 1, j, l + Turn(At(ws, p)))
  {
    var n := p + 1;
    if DeepFrom(ws, p, j, l) {
      forall k | n <= k <= j ensures Net(ws, n, k) >= -(l + Turn(At(ws, p))) {
        assert Net(ws, p, k) >= -l;
      }
    }
    if DeepFrom(ws, n, j, l + Turn(At(ws, p))) {
      forall k | p <= k <= j ensures Net(ws, p, k) >= -l {
        if k > p {
          assert Net(ws, n, k) >= -(l + Turn(At(ws, p)));
        }
      }
    }
  }

  /** The scan of `syn0` counts the parentheses still open, and keeps an error. */
  lemma {:induction false} AmpLevels(ws: seq<Word>, p: nat, j: nat, l: int, err: Err)
    requires p <= j
    ensures var r := Amp(ws, p, j, l, err);
            p <= r.0 <= j && r.1 == l + Net(ws, p, r.0) && (err.Some? ==> r.2 == err)
    decreases j - p
  {
    var w := At(ws, p);
    if p < j {
      if C(w, 0) == '(' {
        AmpLevels(ws, p + 1, j, l + 1, err);
      } else if C(w, 0) == ')' {
        AmpLevels(ws, p + 1, j, l - 1, if l - 1 < 0 then First(err, TOOMANY) else err);
      } else if C(w, 0) == '>' || (C(w, 0) == '|' && C(w, 1) != '|') {
        AmpLevels(ws, if p + 1 < j && At(ws, p + 1) == "&" then p + 2 else p + 1, j, l, err);
      } else if !(C(w, 0) == '&' && l == 0 && C(w, 1) != '&') {
        AmpLevels(ws, p + 1, j, l, err);
      }
    }
  }

  /** It flags an error exactly if too many parentheses are closed before the `&`. */
  lemma {:induction false} AmpFacts(ws: seq<Word>, p: nat, j: nat, l: int)
    requires p <= j && l >= 0
    ensures var r := Amp(ws, p, j, l, None); r.2.None? <==> DeepFrom(ws, p, r.0, l)
    decreases j - p
  {
    hide DeepFrom, Net;
    var w := At(ws, p);
    var r := Amp(ws, p, j, l, None);
    AmpLevels(ws, p, j, l, None);
    if p < r.0 {
      DeepFromNext(ws, p, r.0, l);
    } else {
      DeepFromHere(ws, p, l);
    }
    if p < j {
      if C(w, 0) == '(' {
        AmpFacts(ws, p + 1, j, l + 1);
      } else if C(w, 0) == ')' {
        if l > 0 {
          AmpFacts(ws, p + 1, j, l - 1);
        } else {
          AmpLevels(ws, p + 1, j, l - 1, TOOMANY);
          DeepFromNot(ws, p + 1, r.0);
        }
      } else if C(w, 0) == '>' || (C(w, 0) == '|' && C(w, 1) != '|') {
        if p + 1 < j && At(ws, p + 1) == "&" {
          AmpFacts(ws, p + 2, j, l);
          DeepFromNext(ws, p + 1, r.0, l);
        } else {
          AmpFacts(ws, p + 1, j, l);
        }
      } else if !(C(w, 0) == '&' && l == 0 && C(w, 1) != '&') {
        AmpFacts(ws, p + 1, j, l);
      }
    }
  }

  lemma DeepFromHere(ws: seq<Word>, p: nat, l: int)
    ensures DeepFrom(ws, p, p, l) <==> l >= 0
  {
    assert Net(ws, p, p) == 0;
  }

  lemma DeepFromNot(ws: seq<Word>, p: nat, j: nat)
    requires p <= j
    ensures !DeepFrom(ws, p, j, -1)
  {
    assert Net(ws, p, p) == 0;
  }

  // ------------------------------------- the parentheses of a simple command

  /** What `syn3` knows of the parentheses when it is at `p`: it may have missed
      some that it took for the name of a file, but only to open them. */
  ghost predicate Nested(ws: seq<Word>, i: nat, p: nat, s: Simple) {
    && s.l <= Net(ws, i, p)
    && (s.lp.None? ==> s.l <= 0)
    && (s.lp.Some? ==>
          && i < s.lp.value <= p
          && (s.l > 0 ==> Deep(ws, s.lp.value, p) && Net(ws, s.lp.value, p) == s.l - 1)
          && (s.l <= 0 ==> s.rp.Some? && s.lp.value <= s.rp.value < p
                           && Deep(ws, s.lp.value, s.rp.value) && Net(ws, s.lp.value, s.rp.value) == 0))
  }

  lemma NetSnoc(ws: seq<Word>, i: nat, p: nat)
    requires i <= p
    ensures Net(ws, i, p + 1) == Net(ws, i, p) + Turn(At(ws, p))
  {
    NetAdds(ws, i, p, p + 1);
    assert Net(ws, p + 1, p + 1) == 0;
  }

  /** The walk takes note of a word that it does not take for the name of a file. */
  function Turned(ws: seq<Word>, p: nat, s: Simple): Simple {
    s.(l := s.l + Turn(At(ws, p)),
       lp := if C(At(ws, p), 0) == '(' && s.l == 0 then Some(p + 1) else s.lp,
       rp := if C(At(ws, p), 0) == ')' && s.l == 1 then Some(p) else s.rp)
  }

  lemma TurnedNested(ws: seq<Word>, i: nat, p: nat, s: Simple)
    requires i <= p && Nested(ws, i, p, s)
    ensures Nested(ws, i, p + 1, Turned(ws, p, s))
  {
    hide Net, C, At;
    NetSnoc(ws, i, p);
    if s.lp.Some? {
      if s.l > 1 || (s.l == 1 && Turn(At(ws, p)) >= 0) {
        DeepGrows(ws, s.lp.value, p);
      }
    }
    DeepNone(ws, p + 1);
  }

  lemma DeepNone(ws: seq<Word>, p: nat)
    ensures Deep(ws, p, p) && Net(ws, p, p) == 0
  {
  }

  lemma StepNested(ws: seq<Word>, i: nat, p: nat, j: nat, spec: bool, m: set<Mode>, s: Simple)
    requires i <= p < j && Deep(ws, i, j) && Nested(ws, i, p, s)
    ensures var r := Step(ws, p, j, spec, m, s); Nested(ws, i, r.1 + 1, r.0)
  {
    hide Net, At;
    var r := Step(ws, p, j, spec, m, s);
    if (C(At(ws, p), 0) == '>' || C(At(ws, p), 0) == '<') && s.l == 0 {
      assert Net(ws, i, r.1 + 1) >= 0;
    } else {
      TurnedNested(ws, i, p, s);
      var u := Turned(ws, p, s);
      assert r.0.l == u.l && r.0.lp == u.lp && r.0.rp == u.rp && r.1 == p;
    }
  }

  lemma {:induction false} WalkNested(ws: seq<Word>, i: nat, p: nat, j: nat, spec: bool, m: set<Mode>, s: Simple)
    requires i <= p <= j && Deep(ws, i, j) && Nested(ws, i, p, s)
    ensures Nested(ws, i, j, Walk(ws, p, j, spec, m, s))
    decreases j - p
  {
    if p < j {
      StepNested(ws, i, p, j, spec, m, s);
      var (s', p') := Step(ws, p, j, spec, m, s);
      WalkNested(ws, i, p' + 1, j, spec, m, s');
    }
  }

  lemma {:induction false} NetLevel(ws: seq<Word>, i: nat, p: nat, n: nat)
    requires i <= p <= n && forall q :: p <= q < n ==> Turn(At(ws, q)) == 0
    ensures forall q :: p <= q <= n ==> Net(ws, i, q) == Net(ws, i, p)
    decreases n - p
  {
    if p < n {
      NetSnoc(ws, i, p);
      NetLevel(ws, i, p + 1, n);
    }
  }

  lemma DeepEnough(ws: seq<Word>, i: nat, k: nat, j: nat)
    requires i <= k <= j
    ensures DeepFrom(ws, i, k, 0) ==> Deep(ws, i, k)
    ensures Deep(ws, i, j) ==> DeepFrom(ws, i, k, 0)
    ensures Deep(ws, i, j) && Net(ws, i, k) == 0 ==> Deep(ws, k, j)
  {
    if Deep(ws, i, j) && Net(ws, i, k) == 0 {
      DeepHalves(ws, i, k, j);
    }
  }
}
