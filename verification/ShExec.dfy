/** Control flow of the Bourne shell's `execute` (bin/sh/xec.c): multi-level
    `break` and `continue`, which the shell keeps in three global counters. */
module ShExec {
  import opened Wrappers

  /** The command tree; `Null` is a missing tree. */
  datatype Tree =
    | Null
    | External(id: nat)
    | Break(levels: Option<nat>)
    | Continue
    | Exit(status: Option<int>)
    | List(left: Tree, right: Tree)
    | And(left: Tree, right: Tree)
    | Or(left: Tree, right: Tree)
    | If(cond: Tree, thn: Tree, els: Tree)
    | For(name: nat, words: seq<nat>, body: Tree)
    | Loop(isWhile: bool, cond: Tree, body: Tree)

  /** What the outside world sees. */
  datatype Event = Ran(id: nat) | Assigned(name: nat, word: nat)

  /** The exit status an external command will have, which may depend on everything before it. */
  type World = (seq<Event>, nat) -> int

  /** The part of the state that structured semantics knows about. */
  datatype State = State(exitval: int, errflg: bool, trace: seq<Event>)

  /** How a command ends: normally, leaving `n` more loops, or going on with the innermost loop. */
  datatype Outcome = Normal | Leave(n: nat) | Again

  datatype Result = Done(out: Outcome, st: State) | Exited(st: State) | OutOfFuel

  // ------------------------------------------------- structured semantics

  /** The meaning of a command inside `depth` loops.  `fuel` bounds the number
      of rounds of each `while` and `until`. */
  function Sem(t: Tree, depth: nat, s0: State, w: World, fuel: nat): (r: Result)
    ensures r.Done? ==> r.st.errflg == s0.errflg
    ensures r.Done? && r.out != Normal ==> r.st.exitval == 0
    decreases fuel, t, 1
  {
    var s := s0.(exitval := 0);
    match t
    case Null => Done(Normal, s0)
    case External(id) =>
      var s' := s.(exitval := w(s.trace, id), trace := s.trace + [Ran(id)]);
      if s'.exitval != 0 && s.errflg then Exited(s') else Done(Normal, s')
    case Break(levels) =>
      if depth == 0 then Done(Normal, s)
      else Done(Leave(Levels(levels)), s)
    case Continue => Done(if depth == 0 then Normal else Again, s)
    case Exit(status) => Exited(s.(exitval := if status.Some? then status.value else s0.exitval))
    case List(l, r) => Then(Sem(l, depth, s, w, fuel), r, depth, w, fuel)
    case And(l, r) =>
      var m := Sem(l, depth, s, w, fuel);
      if m.Done? && m.st.exitval != 0 then m else Then(m, r, depth, w, fuel)
    case Or(l, r) =>
      var m := Sem(l, depth, s, w, fuel);
      if m.Done? && m.st.exitval == 0 then m else Then(m, r, depth, w, fuel)
    case If(c, a, b) =>
      var m := Restore(Sem(c, depth, s.(errflg := false), w, fuel), s.errflg);
      if m.Done? && m.st.exitval == 0 then Then(m, a, depth, w, fuel) else Then(m, b, depth, w, fuel)
    case For(_, _, _) => Outside(SemFor(t, 0, depth + 1, s, w, fuel))
    case Loop(_, _, _) => Outside(SemLoop(t, depth + 1, s, w, fuel))
  }

  /** Run `r` after a command that ended normally. */
  function Then(m: Result, r: Tree, depth: nat, w: World, fuel: nat): (res: Result)
    requires m.Done? && m.out != Normal ==> m.st.exitval == 0
    ensures res.Done? ==> m.Done? && res.st.errflg == m.st.errflg
    ensures res.Done? && res.out != Normal ==> res.st.exitval == 0
    decreases fuel, r, 2
  {
    if m.Done? && m.out == Normal then Sem(r, depth, m.st, w, fuel) else m
  }

  /** Conditions run with the `-e` flag off. */
  function Restore(m: Result, errflg: bool): Result {
    if m.Done? then Done(m.out, m.st.(errflg := errflg)) else m
  }

  /** Seen from outside a loop, one loop fewer has to be left. */
  function OneFewer(out: Outcome): Outcome {
    if out.Leave? && out.n > 1 then Leave(out.n - 1) else Normal
  }

  function Outside(m: Result): Result {
    if m.Done? then Done(OneFewer(m.out), m.st) else m
  }

  /** The rounds of a `for` from its word `k` on; the outcome is as seen inside the loop. */
  function SemFor(t: Tree, k: nat, depth: nat, s: State, w: World, fuel: nat): (r: Result)
    requires t.For? && k <= |t.words|
    ensures r.Done? ==> r.st.errflg == s.errflg
    ensures r.Done? && r.out != Normal ==> r.st.exitval == 0
    decreases fuel, t, 0, |t.words| - k
  {
    if k == |t.words| then Done(Normal, s)
    else
      var m := Sem(t.body, depth, s.(trace := s.trace + [Assigned(t.name, t.words[k])]), w, fuel);
      if m.Done? && !m.out.Leave? then SemFor(t, k + 1, depth, m.st, w, fuel) else m
  }

  /** The rounds of a `while` or `until`; the outcome is as seen inside the loop. */
  function SemLoop(t: Tree, depth: nat, s: State, w: World, fuel: nat): (r: Result)
    requires t.Loop?
    ensures r.Done? ==> r.st.errflg == s.errflg
    ensures r.Done? && r.out != Normal ==> r.st.exitval == 0
    decreases fuel, t, 0
  {
    if fuel == 0 then OutOfFuel
    else
      var m := Restore(Sem(t.cond, depth, s.(errflg := false), w, fuel), s.errflg);
      if !m.Done? || m.out.Leave? then m
      else if (m.st.exitval == 0) != t.isWhile then Done(Normal, m.st)
      else if m.out == Again then SemLoop(t, depth, m.st, w, fuel - 1)
      else
        var b := Sem(t.body, depth, m.st, w, fuel);
        if b.Done? && !b.out.Leave? then SemLoop(t, depth, b.st, w, fuel - 1) else b
  }

  // ------------------------------------------------------ the shell's globals

  /** `execbrk` is declared BOOL, that is a signed `char`. */
  function SChar(x: int): int {
    (x + 128) % 256 - 128
  }

  /** How many loops a `break` is to leave. */
  function Levels(levels: Option<nat>): nat {
    if levels.Some? && levels.value > 0 then levels.value else 1
  }

  lemma SCharSign(x: nat)
    ensures SChar(x) > 0 <==> CharBreak(x)
    ensures x == 0 ==> SChar(x) == 0
  {
    SCharMod(x + 128);
  }

  lemma SCharMod(y: nat)
    requires y >= 128
    ensures y % 256 == ((y - 128) % 256 + 128) % 256
  {
  }

  /** Loops nested in a tree. */
  function Nesting(t: Tree): nat {
    match t
    case List(l, r) => Max(Nesting(l), Nesting(r))
    case And(l, r) => Max(Nesting(l), Nesting(r))
    case Or(l, r) => Max(Nesting(l), Nesting(r))
    case If(c, a, b) => Max(Nesting(c), Max(Nesting(a), Nesting(b)))
    case For(_, _, body) => 1 + Nesting(body)
    case Loop(_, c, body) => 1 + Max(Nesting(c), Nesting(body))
    case _ => 0
  }

  function Max(a: nat, b: nat): nat {
    if a < b then b else a
  }

  /** Which depths a `break` reads back as positive. */
  predicate CharBreak(d: int) {
    1 <= d % 256 <= 127
  }

  /** Which depths a `continue` reads back as negative. */
  predicate CharContinue(d: int) {
    1 <= d % 256 <= 128
  }

  /** What `break`s and `continue`s of a tree inside `depth` loops store fits
      into signed characters. */
  predicate Chars(t: Tree, depth: nat) {
    match t
    case Break(levels) => depth > 0 ==> CharBreak(depth) && (levels.Some? ==> levels.value <= 128)
    case Continue => depth > 0 ==> CharContinue(depth)
    case List(l, r) => Chars(l, depth) && Chars(r, depth)
    case And(l, r) => Chars(l, depth) && Chars(r, depth)
    case Or(l, r) => Chars(l, depth) && Chars(r, depth)
    case If(c, a, b) => Chars(c, depth) && Chars(a, depth) && Chars(b, depth)
    case For(_, _, body) => Chars(body, depth + 1)
    case Loop(_, c, body) => Chars(c, depth + 1) && Chars(body, depth + 1)
    case _ => true
  }

  lemma CharsLoop(t: Tree, depth: nat)
    requires t.Loop? && Chars(t, depth)
    ensures Chars(t.cond, depth + 1) && Chars(t.body, depth + 1)
  {
  }

  datatype Halt = Running | Gone | NoFuel

  class Shell {
    var execbrk: int
    var breakcnt: int
    var loopcnt: int
    var exitval: int
    var errflg: bool
    var trace: seq<Event>
    const world: World

    constructor (world: World)
      ensures execbrk == breakcnt == loopcnt == exitval == 0 && !errflg && trace == []
      ensures this.world == world
    {
      this.world := world;
      execbrk, breakcnt, loopcnt, exitval, errflg, trace := 0, 0, 0, 0, false, [];
    }

    ghost function St(): State
      reads this
    {
      State(exitval, errflg, trace)
    }

    /** The flags as they are while commands are being executed. */
    ghost predicate Clear()
      reads this
    {
      execbrk == 0 && breakcnt == 0 && loopcnt >= 0
    }

    /** How the three counters spell an outcome. */
    ghost predicate Spells(out: Outcome)
      reads this
    {
      match out
      case Normal => execbrk == 0 && breakcnt == 0
      case Again => execbrk < 0 && breakcnt == 0
      case Leave(n) => execbrk > 0 && n >= 1 && (breakcnt == n || (n == 1 && breakcnt == 0))
    }

    /** The state in which a command of meaning `r` leaves the shell. */
    ghost predicate Reached(r: Result, h: Halt)
      reads this
    {
      match r
      case Done(out, st) => h == Running && St() == st && Spells(out) && (out.Leave? ==> out.n <= 128)
      case Exited(st) => h == Gone && St() == st
      case OutOfFuel => h == NoFuel
    }

    /** `execute(argt, ...)`, which returns the exit value. */
    method Execute(t: Tree, fuel: nat) returns (i: int, h: Halt)
      requires execbrk == 0 ==> Clear() && Chars(t, loopcnt)
      modifies this
      ensures old(execbrk) != 0 ==> h == Running && unchanged(this)
      ensures old(execbrk) == 0 ==> Reached(Sem(t, old(loopcnt), old(St()), world, fuel), h) == true
      ensures h == Running ==> i == exitval && loopcnt == old(loopcnt)
      decreases fuel, t, 1
    {
      h := Running;
      if t.Null? || execbrk != 0 {
        return exitval, h;
      }
      var oldexit := exitval;
      ghost var d, all := loopcnt, Sem(t, loopcnt, St(), world, fuel);
      exitval := 0;
      match t {
        case External(id) =>
          exitval := world(trace, id);
          trace := trace + [Ran(id)];
          if exitval != 0 && errflg {
            h := Gone;
          }
        case Break(levels) =>
          ExecuteBreak(levels);
        case Continue =>
          ExecuteContinue();
        case Exit(status) =>
          exitval := if status.Some? then status.value else oldexit;
          h := Gone;
        case List(l, r) =>
          ghost var m := Sem(l, d, St(), world, fuel);
          assert all == Then(m, r, d, world, fuel);
          i, h := Execute(l, fuel);
          if h == Running {
            i, h := Second(m, r, fuel);
          }
        case And(l, r) =>
          ghost var m := Sem(l, d, St(), world, fuel);
          assert all == if m.Done? && m.st.exitval != 0 then m else Then(m, r, d, world, fuel);
          i, h := Execute(l, fuel);
          if h == Running && i == 0 {
            i, h := Second(m, r, fuel);
          }
        case Or(l, r) =>
          ghost var m := Sem(l, d, St(), world, fuel);
          assert all == if m.Done? && m.st.exitval == 0 then m else Then(m, r, d, world, fuel);
          i, h := Execute(l, fuel);
          if h == Running && i != 0 {
            i, h := Second(m, r, fuel);
          }
        case If(c, a, b) =>
          ghost var m := Restore(Sem(c, d, St().(errflg := false), world, fuel), errflg);
          assert all == Then(m, if m.Done? && m.st.exitval == 0 then a else b, d, world, fuel);
          i, h := Condition(c, errflg, fuel);
          if h == Running {
            i, h := Second(m, if i == 0 then a else b, fuel);
          }
        case For(_, _, _) =>
          h := ExecuteFor(t, fuel);
        case Loop(_, _, _) =>
          h := ExecuteLoop(t, fuel);
      }
      i := exitval;
    }

    /** `break`, inside any number of loops: it works just at the depths that a
        signed character shows as positive.  At the others it goes on with the
        innermost loop, like `continue`, or does nothing. */
    method ExecuteBreak(levels: Option<nat>)
      requires Clear()
      modifies this`execbrk, this`breakcnt
      ensures loopcnt == 0 ==> Spells(Normal)
      ensures loopcnt > 0 ==> (Spells(Leave(Levels(levels))) <==> CharBreak(loopcnt))
      ensures loopcnt > 0 && levels.None? && loopcnt % 256 >= 128 ==> Spells(Again)
      ensures loopcnt % 256 == 0 ==> Spells(Normal)
    {
      execbrk := SChar(loopcnt);
      if execbrk != 0 && levels.Some? {
        breakcnt := levels.value;
      }
    }

    /** `continue`, inside any number of loops. */
    method ExecuteContinue()
      requires Clear()
      modifies this`execbrk
      ensures loopcnt == 0 ==> Spells(Normal)
      ensures loopcnt > 0 ==> (Spells(Again) <==> CharContinue(loopcnt))
      ensures loopcnt % 256 > 128 ==> Spells(Leave(1))
    {
      execbrk := SChar(-loopcnt);
    }

    /** Execute `r` after a command of meaning `m`: if that has left flags set,
        nothing happens. */
    method Second(ghost m: Result, r: Tree, fuel: nat) returns (i: int, h: Halt)
      requires Reached(m, Running) == true && loopcnt >= 0 && Chars(r, loopcnt)
      requires m.Done? && m.out != Normal ==> m.st.exitval == 0
      modifies this
      ensures Reached(Then(m, r, old(loopcnt), world, fuel), h) == true
      ensures h == Running ==> i == exitval && loopcnt == old(loopcnt)
      decreases fuel, r, 2
    {
      i, h := Execute(r, fuel);
    }

    /** Run a condition with the `-e` flag off, then put the flag back. */
    method Condition(t: Tree, saveflg: bool, fuel: nat) returns (i: int, h: Halt)
      requires Clear() && Chars(t, loopcnt)
      modifies this
      ensures Reached(Restore(Sem(t, old(loopcnt), old(St()).(errflg := false), world, fuel), saveflg), h)
      ensures h == Running ==> i == exitval && loopcnt == old(loopcnt)
      decreases fuel, t, 2
    {
      errflg := false;
      i, h := Execute(t, fuel);
      if h == Running {
        errflg := errflg || saveflg;
      }
    }

    /** The end of every loop: one level of a pending `break` is used up, and
        the rest of them goes on if and only if a signed character shows their
        number as positive. */
    method EndLoop(ghost out: Outcome)
      requires Spells(out)
      modifies this`execbrk, this`breakcnt, this`loopcnt
      ensures loopcnt == old(loopcnt) - 1
      ensures Spells(OneFewer(out)) <==> (out.Leave? && out.n > 1 ==> CharBreak(out.n - 1))
    {
      hide SChar, CharBreak;
      if breakcnt != 0 {
        breakcnt := breakcnt - 1;
      }
      SCharSign(breakcnt);
      execbrk := SChar(breakcnt);
      loopcnt := loopcnt - 1;
    }

    lemma EndFits(out: Outcome)
      requires out.Leave? ==> out.n <= 128
      ensures out.Leave? && out.n > 1 ==> CharBreak(out.n - 1)
      ensures OneFewer(out).Leave? ==> OneFewer(out).n <= 128
    {
    }

    /** The `for` arm of `execute`. */
    method ExecuteFor(t: Tree, fuel: nat) returns (h: Halt)
      requires t.For? && Clear() && Chars(t, loopcnt)
      modifies this
      ensures Reached(Outside(SemFor(t, 0, old(loopcnt) + 1, old(St()), world, fuel)), h)
      ensures h == Running ==> loopcnt == old(loopcnt)
      decreases fuel, t, 0
    {
      loopcnt := loopcnt + 1;
      ghost var d: nat, all := loopcnt, SemFor(t, 0, loopcnt, St(), world, fuel);
      ghost var out := Normal;
      var k := 0;
      while k < |t.words| && execbrk == 0
        invariant 0 <= k <= |t.words| && loopcnt == d == old(loopcnt) + 1
        invariant out != Again && Spells(out) && (out.Leave? ==> out.n <= 128)
        invariant all == if out == Normal then SemFor(t, k, d, St(), world, fuel) else Done(out, St())
      {
        trace := trace + [Assigned(t.name, t.words[k])];
        ghost var m := Sem(t.body, d, St(), world, fuel);
        k := k + 1;
        var i;
        i, h := Execute(t.body, fuel);
        if h != Running {
          return;
        }
        if execbrk < 0 {
          execbrk := 0;
        }
        out := if m.out.Leave? then m.out else Normal;
      }
      EndLoop(out);
      h := Running;
    }

    /** Between two rounds of a `while` or `until` that means `all`. */
    ghost predicate RoundsLeft(t: Tree, d: nat, out: Outcome, all: Result, fuel: nat)
      requires t.Loop?
      reads this
    {
      && out != Again && Spells(out) && (out.Leave? ==> out.n <= 128)
      && all == if out == Normal then SemLoop(t, d, St(), world, fuel) else Done(out, St())
    }

    /** One round of a `while` or `until`: the condition, and the body unless the round
        is the `last`. */
    method Round(t: Tree, saveflg: bool, fuel: nat, ghost d: nat, ghost all: Result)
      returns (i: int, h: Halt, last: bool, ghost out: Outcome)
      requires t.Loop? && Clear() && loopcnt == d && errflg == saveflg && fuel > 0
      requires Chars(t.cond, d) && Chars(t.body, d) && all == SemLoop(t, d, St(), world, fuel)
      modifies this
      ensures h != Running ==> Reached(Outside(all), h)
      ensures h == Running ==> loopcnt == d && i == exitval && errflg == saveflg
      ensures h == Running && last ==> Spells(out) && Ends(out, all)
      ensures h == Running && !last ==> RoundsLeft(t, d, out, all, fuel - 1)
      decreases fuel, t, 0, 0
    {
      hide Sem, Chars, SChar, OneFewer, CharBreak;
      last, out := true, Normal;
      ghost var m := Restore(Sem(t.cond, d, St().(errflg := false), world, fuel), saveflg);
      i, h := Condition(t.cond, saveflg, fuel);
      if h != Running {
        return;
      }
      out := m.out;
      if (i == 0) != t.isWhile {
        AgainEnds();
        return;
      }
      last := false;
      ghost var b := Sem(t.body, d, St(), world, fuel);
      i, h := Execute(t.body, fuel);
      if h != Running {
        return;
      }
      if execbrk < 0 {
        execbrk := 0;
      }
      out := if m.out.Leave? then m.out else if m.out == Normal && b.out.Leave? then b.out else Normal;
    }

    lemma AgainEnds()
      ensures OneFewer(Again) == OneFewer(Normal) == Normal
    {
    }

    /** The loop ends, and this is how. */
    ghost predicate Ends(out: Outcome, all: Result)
      reads this
    {
      (out.Leave? ==> out.n <= 128) && Outside(all) == Done(OneFewer(out), St())
    }

    /** The `while` and `until` arm of `execute`. */
    method ExecuteLoop(t: Tree, fuel0: nat) returns (h: Halt)
      requires t.Loop? && Clear() && Chars(t, loopcnt) && exitval == 0
      modifies this
      ensures Reached(Outside(SemLoop(t, old(loopcnt) + 1, old(St()), world, fuel0)), h)
      ensures h == Running ==> loopcnt == old(loopcnt)
      decreases fuel0, t, 0, 1
    {
      hide Sem, Chars, SChar, CharBreak, OneFewer;
      CharsLoop(t, loopcnt);
      var i, fuel: nat := 0, fuel0;
      var saveflg := errflg;
      loopcnt := loopcnt + 1;
      ghost var d: nat, all := loopcnt, SemLoop(t, loopcnt, St(), world, fuel);
      ghost var out := Normal;
      var last := false;
      while execbrk == 0 && !last
        invariant fuel <= fuel0 && loopcnt == d == old(loopcnt) + 1
        invariant i == exitval && errflg == saveflg
        invariant if last then Spells(out) && Ends(out, all) else RoundsLeft(t, d, out, all, fuel) == true
        decreases fuel, !last
      {
        if fuel == 0 {
          return NoFuel;
        }
        i, h, last, out := Round(t, saveflg, fuel, d, all);
        if h != Running {
          return;
        }
        if !last {
          fuel := fuel - 1;
        }
      }
      EndFits(out);
      EndLoop(out);
      exitval := i;
      h := Running;
    }

    /** A whole command at the shell's top level. Its counters are clear afterwards if
        and only if no `break` in it has more levels than there were loops to leave;
        that is so if every `break` stays inside its loops. */
    method TopLevel(t: Tree, fuel: nat) returns (h: Halt)
      requires Clear() && loopcnt == 0 && Chars(t, 0)
      modifies this
      ensures Reached(Sem(t, 0, old(St()), world, fuel), h)
      ensures h == Running ==> loopcnt == 0 && (Clear() <==> Sem(t, 0, old(St()), world, fuel).out == Normal)
      ensures h == Running && Fits(t, 0) ==> Clear()
    {
      if Fits(t, 0) {
        FitsSem(t, 0, St(), world, fuel);
      }
      var i;
      i, h := Execute(t, fuel);
    }

    /** Line after line. Nothing puts the counters back between two lines, so a `break`
        with too many levels makes the shell ignore every line that follows. */
    method Lines(ts: seq<Tree>, fuel: nat) returns (h: Halt)
      requires Clear() && loopcnt == 0 && forall k :: 0 <= k < |ts| ==> Chars(ts[k], 0)
      modifies this
      ensures Reached(SemLines(ts, old(St()), world, fuel), h)
    {
      hide Sem, Chars, Fits;
      h := Running;
      ghost var out := Normal;
      for k := 0 to |ts|
        invariant h == Running && loopcnt == 0 && Spells(out) && (out.Leave? ==> out.n <= 128)
        invariant SemLines(ts, old(St()), world, fuel) == if out == Normal then SemLines(ts[k..], St(), world, fuel) else Done(out, St())
      {
        assert ts[k..] != [] && ts[k..][0] == ts[k] && ts[k..][1..] == ts[k + 1..];
        ghost var m := Sem(ts[k], 0, St(), world, fuel);
        var i;
        i, h := Execute(ts[k], fuel);
        if h != Running {
          return;
        }
        out := if out == Normal then m.out else out;
      }
      assert ts[|ts|..] == [];
    }
  }

  /** Lines up to the first that does not end normally. */
  function SemLines(ts: seq<Tree>, s: State, w: World, fuel: nat): Result {
    if ts == [] then Done(Normal, s)
    else
      var m := Sem(ts[0], 0, s, w, fuel);
      if m.Done? && m.out == Normal then SemLines(ts[1..], m.st, w, fuel) else m
  }

  /** `break 2` in one loop, and a line after it that is never run. */
  lemma LineIgnored(w: World)
    ensures var loop := For(0, [7], Break(Some(2)));
            && Chars(loop, 0)
            && var r := SemLines([loop, External(1)], State(0, false, []), w, 1);
               r == Done(Leave(1), State(0, false, [Assigned(0, 7)]))
  {
    var loop := For(0, [7], Break(Some(2)));
    var s := State(0, false, []);
    assert [] + [Assigned(0, 7)] == [Assigned(0, 7)];
    assert SemFor(loop, 0, 1, s, w, 1) == Done(Leave(2), s.(trace := [Assigned(0, 7)]));
  }

  // ------------------------------------------ breaks that stay inside their loops

  /** Every `break n` inside a loop has at least `n` loops around it. */
  predicate Fits(t: Tree, depth: nat) {
    match t
    case Break(levels) => depth > 0 && levels.Some? ==> levels.value <= depth
    case List(l, r) => Fits(l, depth) && Fits(r, depth)
    case And(l, r) => Fits(l, depth) && Fits(r, depth)
    case Or(l, r) => Fits(l, depth) && Fits(r, depth)
    case If(c, a, b) => Fits(c, depth) && Fits(a, depth) && Fits(b, depth)
    case For(_, _, body) => Fits(body, depth + 1)
    case Loop(_, c, body) => Fits(c, depth + 1) && Fits(body, depth + 1)
    case _ => true
  }

  /** The outcome of a result stays inside `depth` loops. */
  predicate Stays(r: Result, depth: nat) {
    r.Done? ==> (r.out == Again ==> depth > 0) && (r.out.Leave? ==> 1 <= r.out.n <= depth)
  }

  /** Up to 127 nested loops are never too many. */
  lemma {:induction false} FitsSmall(t: Tree, depth: nat)
    requires Fits(t, depth) && depth + Nesting(t) <= 127
    ensures Chars(t, depth)
  {
    match t
    case List(l, r) => FitsSmall(l, depth); FitsSmall(r, depth);
    case And(l, r) => FitsSmall(l, depth); FitsSmall(r, depth);
    case Or(l, r) => FitsSmall(l, depth); FitsSmall(r, depth);
    case If(c, a, b) => FitsSmall(c, depth); FitsSmall(a, depth); FitsSmall(b, depth);
    case For(_, _, body) => FitsSmall(body, depth + 1);
    case Loop(_, c, body) => FitsSmall(c, depth + 1); FitsSmall(body, depth + 1);
    case _ =>
  }

  /** No command leaves more loops than there are, so at depth 0 every outcome is normal. */
  lemma {:induction false} FitsSem(t: Tree, depth: nat, s0: State, w: World, fuel: nat)
    requires Fits(t, depth)
    ensures Stays(Sem(t, depth, s0, w, fuel), depth)
    decreases fuel, t, 1
  {
    var s := s0.(exitval := 0);
    match t
    case List(l, r) =>
      FitsSem(l, depth, s, w, fuel);
      FitsThen(Sem(l, depth, s, w, fuel), r, depth, w, fuel);
    case And(l, r) =>
      FitsSem(l, depth, s, w, fuel);
      FitsThen(Sem(l, depth, s, w, fuel), r, depth, w, fuel);
    case Or(l, r) =>
      FitsSem(l, depth, s, w, fuel);
      FitsThen(Sem(l, depth, s, w, fuel), r, depth, w, fuel);
    case If(c, a, b) =>
      FitsSem(c, depth, s.(errflg := false), w, fuel);
      var m := Restore(Sem(c, depth, s.(errflg := false), w, fuel), s.errflg);
      FitsThen(m, a, depth, w, fuel);
      FitsThen(m, b, depth, w, fuel);
    case For(_, _, _) => FitsFor(t, 0, depth + 1, s, w, fuel);
    case Loop(_, _, _) => FitsLoop(t, depth + 1, s, w, fuel);
    case _ =>
  }

  lemma {:induction false} FitsThen(m: Result, r: Tree, depth: nat, w: World, fuel: nat)
    requires m.Done? && m.out != Normal ==> m.st.exitval == 0
    requires Stays(m, depth) && Fits(r, depth)
    ensures Stays(Then(m, r, depth, w, fuel), depth)
    decreases fuel, r, 2
  {
    if m.Done? && m.out == Normal {
      FitsSem(r, depth, m.st, w, fuel);
    }
  }

  lemma {:induction false} FitsFor(t: Tree, k: nat, depth: nat, s: State, w: World, fuel: nat)
    requires t.For? && k <= |t.words| && depth > 0 && Fits(t, depth - 1)
    ensures Stays(SemFor(t, k, depth, s, w, fuel), depth) && Stays(Outside(SemFor(t, k, depth, s, w, fuel)), depth - 1)
    decreases fuel, t, 0, |t.words| - k
  {
    if k < |t.words| {
      var s1 := s.(trace := s.trace + [Assigned(t.name, t.words[k])]);
      FitsSem(t.body, depth, s1, w, fuel);
      var m := Sem(t.body, depth, s1, w, fuel);
      if m.Done? && !m.out.Leave? {
        FitsFor(t, k + 1, depth, m.st, w, fuel);
      }
    }
  }

  lemma {:induction false} FitsLoop(t: Tree, depth: nat, s: State, w: World, fuel: nat)
    requires t.Loop? && depth > 0 && Fits(t, depth - 1)
    ensures Stays(SemLoop(t, depth, s, w, fuel), depth) && Stays(Outside(SemLoop(t, depth, s, w, fuel)), depth - 1)
    decreases fuel, t, 0
  {
    if fuel > 0 {
      FitsSem(t.cond, depth, s.(errflg := false), w, fuel);
      var m := Restore(Sem(t.cond, depth, s.(errflg := false), w, fuel), s.errflg);
      if m.Done? {
        FitsSem(t.body, depth, m.st, w, fuel);
        FitsLoop(t, depth, m.st, w, fuel - 1);
        var b := Sem(t.body, depth, m.st, w, fuel);
        if b.Done? {
          FitsLoop(t, depth, b.st, w, fuel - 1);
        }
      }
    }
  }

  // --------------------------------------------- what break and continue do

  /** A loop around a hole; `after` is what follows the hole in the body. */
  datatype Frame =
    | InFor(name: nat, words: seq<nat>, after: Tree)
    | InLoop(isWhile: bool, cond: Tree, after: Tree)

  function Wrap(f: Frame, t: Tree): Tree {
    match f
    case InFor(name, words, after) => For(name, words, List(t, after))
    case InLoop(isWhile, cond, after) => Loop(isWhile, cond, List(t, after))
  }

  /** `t` inside the loops `fs`, outermost first. */
  function Nest(fs: seq<Frame>, t: Tree): Tree {
    if fs == [] then t else Wrap(fs[0], Nest(fs[1..], t))
  }

  /** The state in which the first round of a loop reaches its hole, if it does. */
  function Enter(f: Frame, depth: nat, s0: State, w: World, fuel: nat): Option<State> {
    var s := s0.(exitval := 0);
    match f
    case InFor(name, words, _) =>
      if words == [] then None else Some(s.(trace := s.trace + [Assigned(name, words[0])]))
    case InLoop(isWhile, cond, _) =>
      if fuel == 0 then None
      else
        var m := Restore(Sem(cond, depth + 1, s.(errflg := false), w, fuel), s.errflg);
        if m.Done? && m.out == Normal && (m.st.exitval == 0) == isWhile then Some(m.st.(exitval := 0)) else None
  }

  function EnterAll(fs: seq<Frame>, depth: nat, s: State, w: World, fuel: nat): Option<State> {
    if fs == [] then Some(s)
    else
      var e := Enter(fs[0], depth, s, w, fuel);
      if e.None? then None else EnterAll(fs[1..], depth + 1, e.value, w, fuel)
  }

  /** What a command list does first does not depend on the old exit value. */
  lemma ListStart(t: Tree, after: Tree, depth: nat, s1: State, w: World, fuel: nat)
    requires s1.exitval == 0
    requires Sem(t, depth, s1, w, fuel).Done? && Sem(t, depth, s1, w, fuel).out != Normal
    ensures forall v: int :: Sem(List(t, after), depth, s1.(exitval := v), w, fuel) == Sem(t, depth, s1, w, fuel)
  {
    forall v: int ensures Sem(List(t, after), depth, s1.(exitval := v), w, fuel) == Sem(t, depth, s1, w, fuel) {
      assert s1.(exitval := v).(exitval := 0) == s1;
    }
  }

  /** `break n` inside any `n` or fewer loops leaves exactly that many of them:
      nothing more of their bodies, words or conditions takes effect. */
  lemma {:induction false} BreakLeaves(fs: seq<Frame>, t: Tree, depth: nat, s: State, w: World, fuel: nat, n: nat, s': State)
    requires 1 <= |fs| <= n
    requires EnterAll(fs, depth, s, w, fuel).Some?
    requires Sem(t, depth + |fs|, EnterAll(fs, depth, s, w, fuel).value, w, fuel) == Done(Leave(n), s')
    ensures Sem(Nest(fs, t), depth, s, w, fuel) == Done(if n == |fs| then Normal else Leave(n - |fs|), s')
  {
    hide Sem, Enter, Wrap, Fits, Nesting, Chars;
    var f, inner := fs[0], Nest(fs[1..], t);
    var s1 := Enter(f, depth, s, w, fuel).value;
    if |fs| == 1 {
      assert fs[1..] == [];
    } else {
      BreakLeaves(fs[1..], t, depth + 1, s1, w, fuel, n, s');
    }
    BreakOnce(f, inner, depth, s, w, fuel, n - |fs| + 1, s');
  }

  lemma BreakOnce(f: Frame, t: Tree, depth: nat, s: State, w: World, fuel: nat, n: nat, s': State)
    requires n >= 1 && Enter(f, depth, s, w, fuel).Some?
    requires Sem(t, depth + 1, Enter(f, depth, s, w, fuel).value, w, fuel) == Done(Leave(n), s')
    ensures Sem(Wrap(f, t), depth, s, w, fuel) == Done(OneFewer(Leave(n)), s')
  {
    hide Fits, Nesting, Chars;
    ListStart(t, f.after, depth + 1, Enter(f, depth, s, w, fuel).value, w, fuel);
  }

  /** `continue` anywhere in a loop body skips what follows it and goes on with
      the next round, as if the loop were started again where the command left off. */
  lemma ContinueRestarts(f: Frame, t: Tree, depth: nat, s: State, w: World, fuel: nat, s': State)
    requires Enter(f, depth, s, w, fuel).Some?
    requires Sem(t, depth + 1, Enter(f, depth, s, w, fuel).value, w, fuel) == Done(Again, s')
    ensures Sem(Wrap(f, t), depth, s, w, fuel)
         == if f.InFor? then Sem(Wrap(f.(words := f.words[1..]), t), depth, s', w, fuel)
            else Sem(Wrap(f, t), depth, s', w, fuel - 1)
  {
    var s1 := Enter(f, depth, s, w, fuel).value;
    ListStart(t, f.after, depth + 1, s1, w, fuel);
    if f.InFor? {
      ForShift(Wrap(f, t), Wrap(f.(words := f.words[1..]), t), 1, depth + 1, s', w, fuel);
    }
  }

  /** The rounds of a `for` depend only on the words still to come. */
  lemma {:induction false} ForShift(t: Tree, u: Tree, k: nat, depth: nat, s: State, w: World, fuel: nat)
    requires t.For? && 1 <= k <= |t.words| && u == For(t.name, t.words[1..], t.body)
    ensures SemFor(t, k, depth, s, w, fuel) == SemFor(u, k - 1, depth, s, w, fuel)
    decreases |t.words| - k
  {
    if k < |t.words| {
      var m := Sem(t.body, depth, s.(trace := s.trace + [Assigned(t.name, t.words[k])]), w, fuel);
      if m.Done? && !m.out.Leave? {
        ForShift(t, u, k + 1, depth, m.st, w, fuel);
      }
    }
  }

  /** In the condition of a loop `continue` restarts a `while`, but it ends an
      `until`: the condition then counts as having succeeded. */
  lemma ContinueInCondition(t: Tree, depth: nat, s: State, w: World, fuel: nat, s': State)
    requires t.Loop? && fuel > 0
    requires Sem(t.cond, depth + 1, s.(exitval := 0, errflg := false), w, fuel) == Done(Again, s')
    ensures Sem(t, depth, s, w, fuel)
         == if t.isWhile then Sem(t, depth, s'.(errflg := s.errflg), w, fuel - 1)
            else Done(Normal, s'.(errflg := s.errflg))
  {
  }

  /** A `break n` gets past the ends of all loops but the last exactly when `n`
      is at most 128. */
  lemma BreakLevels(n: nat)
    ensures (forall b {:trigger CharBreak(b)} :: 1 <= b < n ==> CharBreak(b)) <==> n <= 128
  {
    assert !CharBreak(128);
  }

  // --------------------------------------------------------- fuel is immaterial

  /** A run that ends within some number of rounds ends the same way with more. */
  lemma {:induction false} MoreFuel(t: Tree, depth: nat, s0: State, w: World, f: nat, g: nat)
    requires f <= g && Sem(t, depth, s0, w, f) != OutOfFuel
    ensures Sem(t, depth, s0, w, g) == Sem(t, depth, s0, w, f)
    decreases f, t, 1
  {
    var s := s0.(exitval := 0);
    match t
    case List(l, r) =>
      MoreFuel(l, depth, s, w, f, g);
      MoreThen(Sem(l, depth, s, w, f), r, depth, w, f, g);
    case And(l, r) =>
      MoreFuel(l, depth, s, w, f, g);
      var m := Sem(l, depth, s, w, f);
      if !(m.Done? && m.st.exitval != 0) {
        MoreThen(m, r, depth, w, f, g);
      }
    case Or(l, r) =>
      MoreFuel(l, depth, s, w, f, g);
      var m := Sem(l, depth, s, w, f);
      if !(m.Done? && m.st.exitval == 0) {
        MoreThen(m, r, depth, w, f, g);
      }
    case If(c, a, b) =>
      MoreFuel(c, depth, s.(errflg := false), w, f, g);
      var m := Restore(Sem(c, depth, s.(errflg := false), w, f), s.errflg);
      MoreThen(m, if m.Done? && m.st.exitval == 0 then a else b, depth, w, f, g);
    case For(_, _, _) => MoreFor(t, 0, depth + 1, s, w, f, g);
    case Loop(_, _, _) => MoreLoop(t, depth + 1, s, w, f, g);
    case _ =>
  }

  lemma {:induction false} MoreThen(m: Result, r: Tree, depth: nat, w: World, f: nat, g: nat)
    requires m.Done? && m.out != Normal ==> m.st.exitval == 0
    requires f <= g && Then(m, r, depth, w, f) != OutOfFuel
    ensures Then(m, r, depth, w, g) == Then(m, r, depth, w, f)
    decreases f, r, 2
  {
    if m.Done? && m.out == Normal {
      MoreFuel(r, depth, m.st, w, f, g);
    }
  }

  lemma {:induction false} MoreFor(t: Tree, k: nat, depth: nat, s: State, w: World, f: nat, g: nat)
    requires t.For? && k <= |t.words| && f <= g && SemFor(t, k, depth, s, w, f) != OutOfFuel
    ensures SemFor(t, k, depth, s, w, g) == SemFor(t, k, depth, s, w, f)
    decreases f, t, 0, |t.words| - k
  {
    if k < |t.words| {
      var s1 := s.(trace := s.trace + [Assigned(t.name, t.words[k])]);
      MoreFuel(t.body, depth, s1, w, f, g);
      var m := Sem(t.body, depth, s1, w, f);
      if m.Done? && !m.out.Leave? {
        MoreFor(t, k + 1, depth, m.st, w, f, g);
      }
    }
  }

  lemma {:induction false} MoreLoop(t: Tree, depth: nat, s: State, w: World, f: nat, g: nat)
    requires t.Loop? && f <= g && SemLoop(t, depth, s, w, f) != OutOfFuel
    ensures SemLoop(t, depth, s, w, g) == SemLoop(t, depth, s, w, f)
    decreases f, t, 0
  {
    MoreFuel(t.cond, depth, s.(errflg := false), w, f, g);
    var m := Restore(Sem(t.cond, depth, s.(errflg := false), w, f), s.errflg);
    if m.Done? && !m.out.Leave? && (m.st.exitval == 0) == t.isWhile {
      if m.out == Again {
        MoreLoop(t, depth, m.st, w, f - 1, g - 1);
      } else {
        MoreFuel(t.body, depth, m.st, w, f, g);
        var b := Sem(t.body, depth, m.st, w, f);
        if b.Done? && !b.out.Leave? {
          MoreLoop(t, depth, b.st, w, f - 1, g - 1);
        }
      }
    }
  }

  // ------------------------------------------ which commands are run

  /** The state a command starts from: the last status is forgotten. */
  function Fresh(s: State): State {
    s.(exitval := 0)
  }

  /** `l && r` runs `r` exactly if `l` has succeeded, and `l || r` exactly if it has
      failed; `l; r` always does. Otherwise what `l` has left is what there is. */
  lemma ListsMean(l: Tree, r: Tree, depth: nat, s: State, s1: State, w: World, fuel: nat)
    requires Sem(l, depth, Fresh(s), w, fuel) == Done(Normal, s1)
    ensures s1.exitval == 0 ==> Sem(And(l, r), depth, s, w, fuel) == Sem(r, depth, s1, w, fuel)
    ensures s1.exitval != 0 ==> Sem(And(l, r), depth, s, w, fuel) == Done(Normal, s1)
    ensures s1.exitval != 0 ==> Sem(Or(l, r), depth, s, w, fuel) == Sem(r, depth, s1, w, fuel)
    ensures s1.exitval == 0 ==> Sem(Or(l, r), depth, s, w, fuel) == Done(Normal, s1)
    ensures Sem(List(l, r), depth, s, w, fuel) == Sem(r, depth, s1, w, fuel)
  {
  }

  /** After a `break`, a `continue` or an `exit` in `l`, `r` is not run. */
  lemma ListsLeave(l: Tree, r: Tree, depth: nat, s: State, w: World, fuel: nat)
    requires var m := Sem(l, depth, Fresh(s), w, fuel); !m.Done? || m.out != Normal
    ensures var m := Sem(l, depth, Fresh(s), w, fuel);
            && Sem(And(l, r), depth, s, w, fuel) == m && Sem(List(l, r), depth, s, w, fuel) == m
            && Sem(Or(l, r), depth, s, w, fuel) == m
  {
  }

  /** `if` takes the first arm exactly if the condition has succeeded; the condition
      runs with the `-e` flag off. */
  lemma IfMeans(c: Tree, a: Tree, b: Tree, depth: nat, s: State, s1: State, w: World, fuel: nat)
    requires Sem(c, depth, Fresh(s).(errflg := false), w, fuel) == Done(Normal, s1)
    ensures Sem(If(c, a, b), depth, s, w, fuel)
            == Sem(if s1.exitval == 0 then a else b, depth, s1.(errflg := s.errflg), w, fuel)
  {
    assert s1.exitval == 0 ==> Sem(If(c, a, b), depth, s, w, fuel) == Then(Done(Normal, s1.(errflg := s.errflg)), a, depth, w, fuel);
    assert s1.exitval != 0 ==> Sem(If(c, a, b), depth, s, w, fuel) == Then(Done(Normal, s1.(errflg := s.errflg)), b, depth, w, fuel);
  }

  /** `while` goes on exactly if the condition has succeeded, and `until` exactly if it
      has failed: then the body is run, and after it the loop again. */
  lemma LoopMeans(t: Tree, depth: nat, s: State, s1: State, w: World, fuel: nat)
    requires t.Loop? && fuel > 0 && Sem(t.cond, depth, s.(errflg := false), w, fuel) == Done(Normal, s1)
    ensures var s2 := s1.(errflg := s.errflg);
            && (t.isWhile && s1.exitval != 0 ==> SemLoop(t, depth, s, w, fuel) == Done(Normal, s2))
            && (!t.isWhile && s1.exitval == 0 ==> SemLoop(t, depth, s, w, fuel) == Done(Normal, s2))
            && ((t.isWhile && s1.exitval == 0) || (!t.isWhile && s1.exitval != 0) ==>
                  var b := Sem(t.body, depth, s2, w, fuel);
                  && (b.Done? && (b.out == Normal || b.out == Again) ==> SemLoop(t, depth, s, w, fuel) == SemLoop(t, depth, b.st, w, fuel - 1))
                  && (b.Done? && b.out.Leave? ==> SemLoop(t, depth, s, w, fuel) == b)
                  && (b.Exited? ==> SemLoop(t, depth, s, w, fuel) == b))
  {
  }

  /** The `for` loops assign their words one after the other, and run the body after each. */
  lemma {:induction false} ForMeans(t: Tree, k: nat, depth: nat, s: State, w: World, fuel: nat, states: seq<State>)
    requires t.For? && k <= |t.words| && |states| == |t.words| - k + 1 && states[0] == s
    requires forall x :: 0 <= x < |t.words| - k ==>
               Sem(t.body, depth, states[x].(trace := states[x].trace + [Assigned(t.name, t.words[k + x])]), w, fuel) == Done(Normal, states[x + 1])
    ensures SemFor(t, k, depth, s, w, fuel) == Done(Normal, states[|states| - 1])
    decreases |t.words| - k
  {
    if k < |t.words| {
      assert Sem(t.body, depth, states[0].(trace := states[0].trace + [Assigned(t.name, t.words[k + 0])]), w, fuel) == Done(Normal, states[1]);
      forall x | 0 <= x < |t.words| - (k + 1)
        ensures Sem(t.body, depth, states[1..][x].(trace := states[1..][x].trace + [Assigned(t.name, t.words[k + 1 + x])]), w, fuel)
                == Done(Normal, states[1..][x + 1])
      {
        assert states[1..][x] == states[x + 1];
        var y := x + 1;
        assert Sem(t.body, depth, states[y].(trace := states[y].trace + [Assigned(t.name, t.words[k + y])]), w, fuel) == Done(Normal, states[y + 1]);
      }
      ForMeans(t, k + 1, depth, states[1], w, fuel, states[1..]);
    }
  }

  /** Single commands: what they leave in `exitval` and in the trace. `break` and
      `continue` outside loops do nothing; with `-e` a failing command ends the shell. */
  lemma SinglesMean(id: nat, status: Option<int>, levels: Option<nat>, s: State, w: World, fuel: nat)
    ensures var n := w(s.trace, id); var s1 := State(n, s.errflg, s.trace + [Ran(id)]);
            Sem(External(id), 0, s, w, fuel) == if n != 0 && s.errflg then Exited(s1) else Done(Normal, s1)
    ensures Sem(Exit(status), 0, s, w, fuel)
            == Exited(State(if status.None? then s.exitval else status.value, s.errflg, s.trace))
    ensures Sem(Break(levels), 0, s, w, fuel) == Done(Normal, State(0, s.errflg, s.trace)) == Sem(Continue, 0, s, w, fuel)
    ensures Sem(Null, 0, s, w, fuel) == Done(Normal, s)
  {
  }

  /** `false && echo x` runs one command, `false || echo x` two. */
  lemma FalseFirst(w: World)
    requires w([], 0) == 1
    ensures var s := State(0, false, []);
            && Sem(And(External(0), External(1)), 0, s, w, 0) == Done(Normal, State(1, false, [Ran(0)]))
            && Sem(Or(External(0), External(1)), 0, s, w, 0) == Done(Normal, State(w([Ran(0)], 1), false, [Ran(0), Ran(1)]))
  {
    var s := State(0, false, []);
    SinglesMean(0, None, None, s, w, 0);
    assert [] + [Ran(0)] == [Ran(0)];
    var s1 := State(1, false, [Ran(0)]);
    ListsMean(External(0), External(1), 0, s, s1, w, 0);
    SinglesMean(1, None, None, s1, w, 0);
    assert [Ran(0)] + [Ran(1)] == [Ran(0), Ran(1)];
  }
}
