/** The parser of the C shell as it runs (bin/csh/sh.parse.c). */
module CshParse {
  import opened Wrappers
  import opened CshSyntax
  import opened CshGrammar

  // ------------------------------------------------------------ how many arguments there may be

  /** What the first loop of `syn3` counts. */
  function Count(ws: seq<Word>, p: nat, j: nat, l: int, spec: bool): int
    decreases j - p
  {
    var c := C(At(ws, p), 0);
    if p >= j then 0
    else if c == '(' then (if spec then 1 else 0) + Count(ws, p + 1, j, l + 1, spec)
    else if c == ')' then (if spec then 1 else 0) + Count(ws, p + 1, j, l - 1, spec)
    else if c == '>' || c == '<' then
      (if l != 0 then if spec then 1 else 0 else if p + 1 == j || RelPar(At(ws, p + 1)) then 0 else -1) + Count(ws, p + 1, j, l, spec)
    else (if !spec && l != 0 then 0 else 1) + Count(ws, p + 1, j, l, spec)
  }

  lemma {:induction false} CountFacts(ws: seq<Word>, p: nat, j: nat, l: int, spec: bool)
    ensures Count(ws, p, j, l, spec) >= 0
    decreases j - p
  {
    hide At;
    if p < j {
      var c := C(At(ws, p), 0);
      if c == '(' {
        CountFacts(ws, p + 1, j, l + 1, spec);
      } else if c == ')' {
        CountFacts(ws, p + 1, j, l - 1, spec);
      } else if (c == '>' || c == '<') && l == 0 && p + 1 < j && !RelPar(At(ws, p + 1)) {
        CountFacts(ws, p + 2, j, l, spec);
      } else {
        CountFacts(ws, p + 1, j, l, spec);
      }
    }
  }

  /** A redirection without an error takes at least as many words as it takes off the count. */
  lemma CountOver(ws: seq<Word>, p: nat, n: nat, j: nat, spec: bool)
    requires p < n < j && (C(At(ws, p), 0) == '>' || C(At(ws, p), 0) == '<')
    requires forall q :: p < q <= n ==> !RelPar(At(ws, q))
    ensures Count(ws, p, j, 0, spec) >= Count(ws, n + 1, j, 0, spec)
  {
    hide At;
    CountWords(ws, p + 1, n + 1, j, spec);
  }

  lemma {:induction false} CountWords(ws: seq<Word>, p: nat, n: nat, j: nat, spec: bool)
    requires p <= n <= j && forall q :: p <= q < n ==> !RelPar(At(ws, q))
    ensures Count(ws, p, j, 0, spec) == n - p + Count(ws, n, j, 0, spec)
    decreases n - p
  {
    hide At;
    if p < n {
      CountWords(ws, p + 1, n, j, spec);
    }
  }

  /** The second loop never stores more words than the first has counted. */
  lemma CountStep(ws: seq<Word>, p: nat, j: nat, spec: bool, m: set<Mode>, s: Simple)
    requires p < j && s.err.None? && Step(ws, p, j, spec, m, s).0.err.None?
    ensures var (s', p') := Step(ws, p, j, spec, m, s);
            |s'.pos| + Count(ws, p' + 1, j, s'.l, spec) <= |s.pos| + Count(ws, p, j, s.l, spec)
  {
    hide At, C, RelPar, Output, Input;
    var c := C(At(ws, p), 0);
    if c == '>' && s.l == 0 {
      OutputOver(ws, p, j, m, s);
      CountOver(ws, p, Output(ws, p, j, m, s).1, j, spec);
    } else if c == '<' && s.l == 0 {
      InputOver(ws, p, j, m, s);
      CountOver(ws, p, p + 1, j, spec);
    }
  }

  lemma OutputOver(ws: seq<Word>, p: nat, j: nat, m: set<Mode>, s: Simple)
    requires p < j && s.err.None? && Output(ws, p, j, m, s).0.err.None?
    ensures var (r, n) := Output(ws, p, j, m, s);
            p < n && (forall q :: p < q <= n ==> !RelPar(At(ws, q))) && r.pos == s.pos && r.l == s.l
  {
    hide At;
    assert C("&", 0) == '&' && C("!", 0) == '!';
  }

  lemma InputOver(ws: seq<Word>, p: nat, j: nat, m: set<Mode>, s: Simple)
    requires p < j && s.err.None? && Input(ws, p, j, m, s).0.err.None?
    ensures var (r, n) := Input(ws, p, j, m, s); n == p + 1 && !RelPar(At(ws, n)) && r.pos == s.pos && r.l == s.l
  {
    hide At;
  }

  // ------------------------------------------------------------ the parser

  /** The strings of a null-terminated list. */
  function Strings(s: seq<Option<Word>>): seq<Word> {
    if s == [] || s[0].None? then [] else [s[0].value] + Strings(s[1..])
  }

  lemma {:induction false} StringsUpto(s: seq<Option<Word>>, w: seq<Word>)
    requires |w| < |s| && s[|w|].None? && forall k :: 0 <= k < |w| ==> s[k] == Some(w[k])
    ensures Strings(s) == w
  {
    if w != [] {
      assert s[0] == Some(w[0]);
      StringsUpto(s[1..], w[1..]);
    }
  }

  /** How a parsing function has come out: the tree counts only as long as no error is flagged. */
  predicate Came(r: Res, before: Err, after: Err, t: Tree, lost: bool) {
    && after == First(before, r.err)
    && lost == r.Astray?
    && (after.None? && !lost ==> t == r.t)
  }

  /** An error flagged before changes nothing about a redirection, but that it stays. */
  lemma ErrOutside(ws: seq<Word>, p: nat, j: nat, m: set<Mode>, s: Simple)
    requires p < j
    ensures var (r, n) := Output(ws, p, j, m, s.(err := None)); Output(ws, p, j, m, s) == (r.(err := First(s.err, r.err)), n)
    ensures var (r, n) := Input(ws, p, j, m, s.(err := None)); Input(ws, p, j, m, s) == (r.(err := First(s.err, r.err)), n)
  {
    hide At, C, RelPar;
  }

  /** The parentheses that have been noticed lie in the segment. */
  predicate InSegment(i: nat, j: nat, s: Simple) {
    (s.lp.Some? ==> i < s.lp.value <= j) && (s.rp.Some? ==> s.rp.value < j)
  }

  lemma {:induction false} WalkPlaces(ws: seq<Word>, i: nat, p: nat, j: nat, spec: bool, m: set<Mode>, s: Simple)
    requires i <= p <= j && InSegment(i, j, s)
    ensures InSegment(i, j, Walk(ws, p, j, spec, m, s))
    decreases j - p
  {
    hide Step;
    if p < j {
      var (s', p') := Step(ws, p, j, spec, m, s);
      StepPlaces(ws, i, p, j, spec, m, s);
      WalkPlaces(ws, i, p' + 1, j, spec, m, s');
    }
  }

  lemma StepPlaces(ws: seq<Word>, i: nat, p: nat, j: nat, spec: bool, m: set<Mode>, s: Simple)
    requires i <= p < j && InSegment(i, j, s)
    ensures InSegment(i, j, Step(ws, p, j, spec, m, s).0)
  {
    hide At, Output, Input;
    FileKeeps(ws, p, j, m, s);
  }

  lemma WalkDone(ws: seq<Word>, j: nat, spec: bool, m: set<Mode>, s: Simple)
    ensures Walk(ws, j, j, spec, m, s) == s
  {
  }

  class Parser {
    const ws: seq<Word>
    var err: Err

    constructor (ws: seq<Word>)
      ensures this.ws == ws && err.None?
    {
      this.ws := ws;
      err := None;
    }

    method Seterr(s: Err)
      modifies this`err
      ensures err == First(old(err), s)
    {
      if err == None {
        err := s;
      }
    }

    /** What the shell does with a line: the tree it gets is the one tree that the grammar
        has for it, and if there is none, an error is flagged. */
    method Parse() returns (t: Tree, lost: bool)
      requires err.None?
      modifies this`err
      ensures forall u :: Parses(ws, AList, 0, |ws|, {}, u) <==> err.None? && u == t
      ensures lost ==> err.Some?
      ensures Asyntax(ws, 0, |ws|) ==> !lost
    {
      hide CshSyntax.Syntax, Parses, Asyntax;
      t, lost := Syntax(0, |ws|, {});
      forall u ensures Parses(ws, AList, 0, |ws|, {}, u) <==> CshSyntax.Syntax(ws, 0, |ws|, {}) == Done(u, None) {
        ParserCorrect(ws, u);
      }
      ParserCorrect(ws, t);
      if Asyntax(ws, 0, |ws|) {
        AliasedEnds(ws);
      }
    }

    method Syntax(i0: nat, j: nat, m: set<Mode>) returns (t: Tree, lost: bool)
      requires i0 <= j
      modifies this`err
      ensures Came(CshSyntax.Syntax(ws, i0, j, m), old(err), err, t, lost)
      decreases if i0 < j && Separator(At(ws, i0)) then 2 * (j - i0) - 1 else 2 * (j - i0), 9
    {
      var i := i0;
      while i != j
        invariant i0 <= i <= j && err == old(err)
        invariant CshSyntax.Syntax(ws, i0, j, m) == CshSyntax.Syntax(ws, i, j, m)
        invariant i == i0 || Separator(At(ws, i0))
        decreases j - i
      {
        if Separator(At(ws, i)) {
          i := i + 1;
        } else {
          t, lost := Syn0(i, j, m);
          return;
        }
      }
      return Nil, false;
    }

    method Syn0(i: nat, j: nat, m: set<Mode>) returns (t: Tree, lost: bool)
      requires i <= j
      modifies this`err
      ensures Came(CshSyntax.Syn0(ws, i, j, m), old(err), err, t, lost)
      decreases 2 * (j - i), 8
    {
      var p, l := i, 0;
      ghost var e: Err := None;
      while p != j
        invariant i <= p <= j && err == First(old(err), e)
        invariant Amp(ws, i, j, 0, None) == Amp(ws, p, j, l, e)
        decreases j - p
      {
        var w := At(ws, p);
        if C(w, 0) == '(' {
          l := l + 1;
        } else if C(w, 0) == ')' {
          l := l - 1;
          if l < 0 {
            Seterr(TOOMANY);
            e := First(e, TOOMANY);
          }
        } else if C(w, 0) == '>' || (C(w, 0) == '|' && C(w, 1) != '|') {
          if p + 1 != j && At(ws, p + 1) == "&" {
            p := p + 1;
          }
        } else if C(w, 0) == '&' && l == 0 && C(w, 1) != '&' {
          assert Amp(ws, i, j, 0, None) == (p, 0, e);
          t, lost := Background(i, p, j, m, e, old(err));
          return;
        }
        p := p + 1;
      }
      if l == 0 {
        t, lost := Syn1(i, j, m);
      } else {
        Seterr(Some("Too many ('s"));
        t, lost := Nil, false;
      }
    }

    /** What `syn0` does at an `&`. */
    method Background(i: nat, p: nat, j: nat, m: set<Mode>, ghost e: Err, ghost before: Err) returns (t: Tree, lost: bool)
      requires i <= p < j && Amp(ws, i, j, 0, None) == (p, 0, e) && C(At(ws, p), 0) == '&' && err == First(before, e)
      modifies this`err
      ensures Came(CshSyntax.Syn0(ws, i, j, m), before, err, t, lost)
      decreases 2 * (j - i), 7
    {
      var t1;
      t1, lost := Syn1(i, p, m);
      if lost {
        return t1, true;
      }
      if t1.Lst? || t1.And? || t1.Or? {
        t1 := Par(t1, None, None, {FAnd, FInt});
      } else {
        t1 := t1.(flg := t1.flg + {FAnd, FInt});
      }
      var t2;
      t2, lost := Syntax(p, j, m);
      t := Lst(t1, t2);
    }

    method Syn1(i: nat, j: nat, m: set<Mode>) returns (t: Tree, lost: bool)
      requires i <= j
      modifies this`err
      ensures Came(CshSyntax.Syn1(ws, i, j, m), old(err), err, t, lost) && (!lost ==> t != Nil)
      decreases 2 * (j - i), 6
    {
      hide CshSyntax.Syntax, CshSyntax.Syn0, CshSyntax.Syn1a, At;
      var p, l := i, 0;
      while p != j
        invariant i <= p <= j && err == old(err) && Find(ws, Semi, i, j, 0) == Find(ws, Semi, p, j, l)
        decreases j - p
      {
        var c := C(At(ws, p), 0);
        if c == '(' {
          l := l + 1;
        } else if c == ')' {
          l := l - 1;
        } else if c == ';' || c == '\n' {
          if l == 0 {
            var a, b;
            a, lost := Syn1a(i, p, m);
            if lost {
              return a, true;
            }
            b, lost := Syntax(p + 1, j, m);
            t := if b == Nil then Lst(Nil, a) else Lst(a, b);
            return;
          }
        }
        p := p + 1;
      }
      t, lost := Syn1a(i, j, m);
    }

    method Syn1a(i: nat, j: nat, m: set<Mode>) returns (t: Tree, lost: bool)
      requires i <= j
      modifies this`err
      ensures Came(CshSyntax.Syn1a(ws, i, j, m), old(err), err, t, lost) && (!lost ==> t != Nil)
      decreases 2 * (j - i), 5
    {
      hide CshSyntax.Syntax, CshSyntax.Syn0, CshSyntax.Syn1b, At;
      var p, l := i, 0;
      while p != j
        invariant i <= p <= j && err == old(err) && Find(ws, OrOr, i, j, 0) == Find(ws, OrOr, p, j, l)
        decreases j - p
      {
        var w := At(ws, p);
        if C(w, 0) == '(' {
          l := l + 1;
        } else if C(w, 0) == ')' {
          l := l - 1;
        } else if C(w, 0) == '|' && C(w, 1) == '|' {
          if l == 0 {
            var a, b;
            a, lost := Syn1b(i, p, m);
            if lost {
              return a, true;
            }
            b, lost := Syn1a(p + 1, j, m);
            t := Or(a, b);
            return;
          }
        }
        p := p + 1;
      }
      t, lost := Syn1b(i, j, m);
    }

    method Syn1b(i: nat, j: nat, m: set<Mode>) returns (t: Tree, lost: bool)
      requires i <= j
      modifies this`err
      ensures Came(CshSyntax.Syn1b(ws, i, j, m), old(err), err, t, lost) && (!lost ==> t != Nil)
      decreases 2 * (j - i), 4
    {
      hide CshSyntax.Syntax, CshSyntax.Syn0, CshSyntax.Syn2, At;
      var p, l := i, 0;
      while p != j
        invariant i <= p <= j && err == old(err) && Find(ws, AndAnd, i, j, 0) == Find(ws, AndAnd, p, j, l)
        decreases j - p
      {
        var w := At(ws, p);
        if C(w, 0) == '(' {
          l := l + 1;
        } else if C(w, 0) == ')' {
          l := l - 1;
        } else if C(w, 0) == '&' {
          if C(w, 1) == '&' && l == 0 {
            var a, b;
            a, lost := Syn2(i, p, m);
            if lost {
              return a, true;
            }
            b, lost := Syn1b(p + 1, j, m);
            t := And(a, b);
            return;
          }
        }
        p := p + 1;
      }
      t, lost := Syn2(i, j, m);
    }

    method Syn2(i: nat, j: nat, m: set<Mode>) returns (t: Tree, lost: bool)
      requires i <= j
      modifies this`err
      ensures Came(CshSyntax.Syn2(ws, i, j, m), old(err), err, t, lost) && (!lost ==> t != Nil)
      decreases 2 * (j - i), 3
    {
      hide CshSyntax.Syntax, CshSyntax.Syn0, CshSyntax.Syn3, At;
      var p, l := i, 0;
      while p != j
        invariant i <= p <= j && err == old(err) && Find(ws, Pipe, i, j, 0) == Find(ws, Pipe, p, j, l)
        decreases j - p
      {
        var c := C(At(ws, p), 0);
        if c == '(' {
          l := l + 1;
        } else if c == ')' {
          l := l - 1;
        } else if c == '|' && l == 0 {
          var f, flg := m + {POut}, {};
          var pn := p + 1;
          if pn != j && C(At(ws, pn), 0) == '&' {
            f := f + {PDiag};
            flg := flg + {FDiag};
          }
          assert f == m + if flg == {FDiag} then {POut, PDiag} else {POut};
          var a, b;
          a, lost := Syn3(i, p, f);
          if lost {
            return a, true;
          }
          var q := p;
          if pn != j && C(At(ws, pn), 0) == '&' {
            q := pn;
          }
          b, lost := Syn2(q + 1, j, m + {PIn});
          t := Fil(a, b, flg);
          return;
        }
        p := p + 1;
      }
      t, lost := Syn3(i, j, m);
    }

    /** Commands that take their parentheses for arguments. */
    method IsSpecial(i: nat, j: nat) returns (spec: bool)
      requires i <= j
      ensures spec == Special(ws, i, j)
    {
      spec := false;
      if i != j {
        var p := i;
        while p != j && At(ws, p) == "else"
          invariant i <= p <= j && Special(ws, i, j) == Special(ws, p, j)
          decreases j - p
        {
          p := p + 1;
        }
        spec := p != j && At(ws, p) in KEYS;
      }
    }

    /** The first loop of `syn3`. */
    method CountArgs(i: nat, j: nat, spec: bool) returns (n: nat)
      requires i <= j
      ensures n == Count(ws, i, j, 0, spec)
    {
      var k, l, p := 0, 0, i;
      while p != j
        invariant i <= p <= j && k + Count(ws, p, j, l, spec) == Count(ws, i, j, 0, spec)
        decreases j - p
      {
        var c := C(At(ws, p), 0);
        if c == '(' {
          if spec {
            k := k + 1;
          }
          l := l + 1;
        } else if c == ')' {
          if spec {
            k := k + 1;
          }
          l := l - 1;
        } else if c == '>' || c == '<' {
          if l != 0 {
            if spec {
              k := k + 1;
            }
          } else if p + 1 != j && !RelPar(At(ws, p + 1)) {
            k := k - 1;
          }
        } else if spec || l == 0 {
          k := k + 1;
        }
        p := p + 1;
      }
      n := if k < 0 then 0 else k;
      CountFacts(ws, i, j, 0, spec);
    }

    /** `>` in the second loop of `syn3`: the last word that belongs to it, the flags and the file. */
    method OutputTo(p0: nat, j: nat, m: set<Mode>, flg0: set<Flag>, rit0: Option<nat>, ghost s: Simple)
      returns (p: nat, flg: set<Flag>, rit: Option<nat>)
      requires p0 < j && s.flg == flg0 && s.rit == rit0 && s.err.None?
      modifies this`err
      ensures var (r, n) := Output(ws, p0, j, m, s); p == n && flg == r.flg && rit == r.rit && err == First(old(err), r.err)
    {
      p, flg, rit := p0, flg0, rit0;
      if C(At(ws, p), 1) == '>' {
        flg := flg + {FCat};
      }
      if p + 1 != j && At(ws, p + 1) == "&" {
        flg, p := flg + {FDiag}, p + 1;
        if POut in m || PDiag in m {
          Seterr(TWOOUT);
          return;
        }
      }
      if p + 1 != j && At(ws, p + 1) == "!" {
        flg, p := flg + {FAny}, p + 1;
      }
      if p + 1 == j {
        Seterr(MISSING);
        return;
      }
      p := p + 1;
      if RelPar(At(ws, p)) {
        Seterr(MISSING);
      } else if (POut in m && PDiag !in m) || rit.Some? {
        Seterr(TWOOUT);
      } else {
        rit := Some(p);
      }
    }

    /** `<` */
    method InputFrom(p0: nat, j: nat, m: set<Mode>, flg0: set<Flag>, lef0: Option<nat>, ghost s: Simple)
      returns (p: nat, flg: set<Flag>, lef: Option<nat>)
      requires p0 < j && s.flg == flg0 && s.lef == lef0 && s.err.None?
      modifies this`err
      ensures var (r, n) := Input(ws, p0, j, m, s); p == n && flg == r.flg && lef == r.lef && err == First(old(err), r.err)
    {
      p, flg, lef := p0, flg0, lef0;
      if C(At(ws, p), 1) == '<' {
        flg := flg + {FHere};
      }
      if p + 1 == j {
        Seterr(MISSING);
        return;
      }
      p := p + 1;
      if RelPar(At(ws, p)) {
        Seterr(MISSING);
      } else if PHere in m && FHere in flg {
        Seterr(HERE);
      } else if PIn in m || lef.Some? {
        Seterr(TWOIN);
      } else {
        lef := Some(p);
      }
    }

    /** How far the second loop of `syn3` has come: the strings stored so far, and room
        for as many as may follow. */
    ghost predicate Filling(e: Err, av: array<Option<Word>>, n: nat, s: Simple, p: nat, j: nat, spec: bool)
      reads av
    {
      && n == |s.pos|
      && (e.None? ==>
            && n + Count(ws, p, j, s.l, spec) < av.Length
            && (forall k {:trigger av[k]} :: 0 <= k < n && k < av.Length ==> av[k] == Some(At(ws, s.pos[k])))
            && (forall k {:trigger av[k]} :: n <= k < av.Length ==> av[k] == None))
    }

    /** `av[n] = savestr(p->word)`, unless an error has been flagged; and `n++`. */
    method Store(av: array<Option<Word>>, n: nat, p: nat, j: nat, spec: bool, ghost s: Simple, ghost s': Simple, ghost p': nat) returns (n': nat)
      requires Filling(err, av, n, s, p, j, spec) && s'.pos == s.pos + [p] && p < j
      requires err.None? ==> |s'.pos| + Count(ws, p' + 1, j, s'.l, spec) <= |s.pos| + Count(ws, p, j, s.l, spec)
      modifies av
      ensures Filling(err, av, n', s', p' + 1, j, spec)
    {
      hide Count, At;
      if err == None {
        CountNat(p' + 1, j, s'.l, spec);
        av[n] := Some(At(ws, p));
      }
      n' := n + 1;
    }

    lemma Unfilled(av: array<Option<Word>>, n: nat, i: nat, j: nat, spec: bool, s: Simple)
      requires n == 0 && s.pos == [] && s.l == 0 && Count(ws, i, j, 0, spec) < av.Length && forall k :: 0 <= k < av.Length ==> av[k] == None
      ensures Filling(err, av, n, s, i, j, spec)
    {
      hide Count;
    }

    lemma CountNat(p: nat, j: nat, l: int, spec: bool)
      ensures Count(ws, p, j, l, spec) >= 0
    {
      CountFacts(ws, p, j, l, spec);
    }

    lemma Skipped(e: Err, av: array<Option<Word>>, n: nat, p: nat, j: nat, spec: bool, s: Simple, e': Err, s': Simple, p': nat)
      requires Filling(e, av, n, s, p, j, spec) && (e'.None? ==> e.None?) && s'.pos == s.pos
      requires e'.None? ==> |s'.pos| + Count(ws, p' + 1, j, s'.l, spec) <= |s.pos| + Count(ws, p, j, s.l, spec)
      ensures Filling(e', av, n, s', p' + 1, j, spec)
    {
      hide Count, At;
    }

    /** What one step of the second loop does, when there is room for all that the first has counted. */
    lemma StepFits(p: nat, j: nat, spec: bool, m: set<Mode>, s: Simple)
      requires p < j
      ensures var (s', p') := Step(ws, p, j, spec, m, s);
              && Walk(ws, p, j, spec, m, s) == Walk(ws, p' + 1, j, spec, m, s')
              && (s'.err.None? ==> s.err.None?
                                   && |s'.pos| + Count(ws, p' + 1, j, s'.l, spec) <= |s.pos| + Count(ws, p, j, s.l, spec))
    {
      hide At, Output, Input, Count;
      if s.err.Some? {
        StepKeeps(ws, p, j, spec, m, s);
      } else if Step(ws, p, j, spec, m, s).0.err.None? {
        CountStep(ws, p, j, spec, m, s);
      }
    }

    method Syn3(i: nat, j: nat, m: set<Mode>) returns (t: Tree, lost: bool)
      requires i <= j
      modifies this`err
      ensures Came(CshSyntax.Syn3(ws, i, j, m), old(err), err, t, lost) && (!lost ==> t != Nil)
      decreases 2 * (j - i), 2
    {
      hide Walk, Count, Output, Input, At, CshSyntax.Syn3, Special, C, Filling;
      var spec := IsSpecial(i, j);
      var n := CountArgs(i, j, spec);
      var av := new Option<Word>[n + 1](_ => None);
      n := 0;
      var flg: set<Flag> := if C(At(ws, j), 0) == ')' then {FPar} else {};
      var lp: Option<nat>, rp: Option<nat>, lef: Option<nat>, rit: Option<nat> := None, None, None, None;
      var l, p := 0, i;
      ghost var s := Start(ws, j);
      Unfilled(av, n, i, j, spec, s);
      while p != j
        invariant i <= p <= j
        invariant Walk(ws, i, j, spec, m, Start(ws, j)) == Walk(ws, p, j, spec, m, s)
        invariant s.l == l && s.lp == lp && s.rp == rp && s.lef == lef && s.rit == rit && s.flg == flg
        invariant err == First(old(err), s.err)
        invariant Filling(err, av, n, s, p, j, spec)
        decreases j - p
      {
        var c := C(At(ws, p), 0);
        ghost var (s', p') := Step(ws, p, j, spec, m, s);
        ghost var e := err;
        StepFits(p, j, spec, m, s);
        ErrOutside(ws, p, j, m, s);
        FileKeeps(ws, p, j, m, s);
        var q, save := p, true;
        if c == '(' {
          if l == 0 {
            if lp.Some? && !spec {
              Seterr(BADPLACE);
            }
            lp := Some(p + 1);
          }
          l := l + 1;
          save := spec;
        } else if c == ')' {
          l := l - 1;
          if l == 0 {
            rp := Some(p);
          }
          save := spec;
        } else if c == '>' && l == 0 {
          q, flg, rit := OutputTo(p, j, m, flg, rit, s.(err := None));
          save := false;
        } else if c == '<' && l == 0 {
          q, flg, lef := InputFrom(p, j, m, flg, lef, s.(err := None));
          save := false;
        } else if c == '>' || c == '<' {
          save := spec;
        } else {
          save := l == 0 || spec;
        }
        if save {
          n := Store(av, n, p, j, spec, s, s', p');
        } else {
          Skipped(e, av, n, p, j, spec, s, err, s', p');
        }
        s, p := s', q + 1;
      }
      WalkDone(ws, j, spec, m, s);
      t, lost := Finish(i, j, m, spec, av, n, s, lp, rp, lef, rit, flg, old(err));
    }

    /** The end of `syn3`. */
    method Finish(i: nat, j: nat, m: set<Mode>, spec: bool, av: array<Option<Word>>, n: nat, ghost s: Simple,
                  lp: Option<nat>, rp: Option<nat>, lef: Option<nat>, rit: Option<nat>, flg: set<Flag>, ghost before: Err)
      returns (t: Tree, lost: bool)
      requires i <= j && spec == Special(ws, i, j) && s == Walk(ws, i, j, spec, m, Start(ws, j))
      requires s.lp == lp && s.rp == rp && s.lef == lef && s.rit == rit && s.flg == flg
      requires Filling(err, av, n, s, j, j, spec) && err == First(before, s.err)
      modifies this`err
      ensures Came(CshSyntax.Syn3(ws, i, j, m), before, err, t, lost) && (!lost ==> t != Nil)
      decreases 2 * (j - i), 1
    {
      WalkPlaces(ws, i, i, j, spec, m, Start(ws, j));
      t := Nil;
      if lp.Some? && !spec {
        if n != 0 {
          Seterr(BADPLACES);
        }
        lost := rp.None? || rp.value < lp.value;
        if !lost {
          t, lost := Syn0(lp.value, rp.value, {PHere});
          t := Par(t, File(ws, lef), File(ws, rit), flg);
        }
      } else {
        if n == 0 {
          Seterr(NULLCMD);
        }
        if err.None? {
          StringsUpto(av[..], Words(ws, s.pos));
        }
        t, lost := Com(Strings(av[..]), File(ws, lef), File(ws, rit), flg), false;
      }
    }
  }
}
