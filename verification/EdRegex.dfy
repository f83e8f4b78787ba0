/** The editor's byte code and its interpreter (bin/ed/ed.c). */
module EdRegex {
  import opened Wrappers
  import opened EdPattern
  import S = EdSyntax

  const ESIZE := 128
  const CBRA := 1
  const CCHR := 2
  const CDOT := 4
  const CCL := 6
  const NCCL := 8
  const CDOL := 10
  const CEOF := 11
  const CKET := 12
  const CBACK := 14

  /** `code | STAR`, for the codes, which are even, that a star applies to. */
  function OrStar(code: int): int {
    if code % 2 == 0 then code + 1 else code
  }

  function AtomCode(a: Atom): seq<int> {
    match a
    case Chr(c) => [CCHR, c]
    case Dot => [CDOT]
    case Class(negated, members) => [if negated then NCCL else CCL, |members| + 1] + members
  }

  function Code(item: Item): seq<int> {
    match item
    case One(a) => AtomCode(a)
    case Star(a) => [OrStar(AtomCode(a)[0])] + AtomCode(a)[1..]
    case Open(k) => [CBRA, k]
    case Close(k) => [CKET, k]
    case Dollar => [CDOL]
    case Back(k) => [CBACK, k]
    case BackStar(k) => [OrStar(CBACK), k]
  }

  function Encode(items: seq<Item>): seq<int> {
    if items == [] then [] else Encode(items[..|items| - 1]) + Code(items[|items| - 1])
  }

  lemma {:induction false} EncodeConcat(a: seq<Item>, b: seq<Item>)
    ensures Encode(a + b) == Encode(a) + Encode(b)
  {
    hide Code;
    if b == [] {
      assert a + b == a;
    } else {
      var n := |b| - 1;
      var front, last := b[..n], b[n];
      assert b == front + [last] && a + b == a + front + [last];
      EncodeConcat(a, front);
      EncodeSnoc(a + front, last);
      EncodeSnoc(front, last);
    }
  }

  /** The code of the first item comes first. */
  lemma EncodeCons(items: seq<Item>)
    requires items != []
    ensures Encode(items) == Code(items[0]) + Encode(items[1..])
  {
    EncodeConcat([items[0]], items[1..]);
    EncodeOne(items[0]);
    assert [items[0]] + items[1..] == items;
  }

  lemma EncodeOne(item: Item)
    ensures Encode([item]) == Code(item)
  {
    assert [item][..0] == [];
    assert [] + Code(item) == Code(item);
  }

  class Regex {
    const expbuf: array<int>
    const braslist: array<int>
    const braelist: array<int>
    var circfl: bool
    var nbra: int
    var loc1: int
    var loc2: int

    ghost predicate Shaped() {
      && expbuf.Length == ESIZE + 4 && braslist.Length == NBRA && braelist.Length == NBRA
      && expbuf != braslist && expbuf != braelist && braslist != braelist
    }

    constructor ()
      ensures Shaped() && expbuf[0] == 0 && fresh(expbuf) && fresh(braslist) && fresh(braelist)
    {
      expbuf := new int[ESIZE + 4](_ => 0);
      braslist := new int[NBRA](_ => -1);
      braelist := new int[NBRA](_ => -1);
      circfl, nbra, loc1, loc2 := false, 0, 0, 0;
    }

    /** `code` lies in `expbuf` from `ep` on. */
    ghost predicate Has(ep: nat, code: seq<int>)
      reads expbuf
    {
      ep + |code| <= expbuf.Length && forall i {:trigger code[i]} :: 0 <= i < |code| ==> expbuf[ep + i] == code[i]
    }

    /** The code of `items` and the end mark lie in `expbuf` from `ep` on. */
    ghost predicate At(ep: nat, items: seq<Item>)
      reads expbuf
    {
      Has(ep, Encode(items) + [CEOF])
    }

    lemma CodeThere(code: seq<int>, ep: nat)
      requires ep < expbuf.Length && expbuf[..ep] == code && expbuf[ep] == CEOF
      ensures Has(0, code + [CEOF])
    {
      assert forall i :: 0 <= i < ep ==> expbuf[..ep][i] == expbuf[i];
    }

    // -------------------------------------------------------- compilation

    /** The inner loop of a bracket expression: the characters after the last
        one up to `c`. */
    method FillRange(c: int, ep0: nat, ep1: nat, cnt: int, ghost members: seq<int>) returns (full: bool, ep: nat, cclcnt: int)
      requires Shaped() && members != [] && ep1 == ep0 + 2 + |members| < ESIZE
      requires expbuf[ep0 + 2..ep1] == members
      modifies expbuf
      ensures expbuf[..ep0 + 2] == old(expbuf[..ep0 + 2]) && cclcnt == cnt + ep - ep1
      ensures !full ==> ep == ep0 + 2 + |members + S.Range(S.Last(members), c)| < ESIZE
      ensures !full ==> expbuf[ep0 + 2..ep] == members + S.Range(S.Last(members), c)
      ensures full ==> ep0 + 2 + |members + S.Range(S.Last(members), c)| >= ESIZE
    {
      ep, cclcnt := ep1, cnt;
      ghost var s := members;
      while expbuf[ep - 1] < c
        invariant expbuf[..ep0 + 2] == old(expbuf[..ep0 + 2]) && cclcnt == cnt + ep - ep1
        invariant s != [] && ep == ep0 + 2 + |s| < ESIZE && expbuf[ep0 + 2..ep] == s
        invariant S.Last(s) == expbuf[ep - 1]
        invariant members + S.Range(S.Last(members), c) == s + S.Range(S.Last(s), c)
        decreases ESIZE - ep
      {
        expbuf[ep] := expbuf[ep - 1] + 1;
        assert S.Range(S.Last(s), c) == [expbuf[ep]] + S.Range(expbuf[ep], c);
        s := s + [expbuf[ep]];
        ep, cclcnt := ep + 1, cclcnt + 1;
        if ep >= ESIZE {
          return true, ep, cclcnt;
        }
      }
      full := false;
    }

    /** A bracket expression half read: its members so far lie in front of `ep`,
        behind a count that is still 0. */
    ghost predicate InClass(ep0: nat, ep: nat, cclcnt: int, members: seq<int>)
      reads expbuf
    {
      && ep == ep0 + 2 + |members| <= ESIZE + 1 && ep <= expbuf.Length && cclcnt == |members| + 1
      && expbuf[ep0 + 1] == 0 && expbuf[ep0 + 2..ep] == members
      && forall m :: m in members ==> m != 0
    }

    /** One round of the loop over a bracket expression.  `c` is the character
        before `pos0`; `more` says whether the loop goes on. */
    method ClassRound(input: seq<int>, pos0: nat, c0: int, ep0: nat, ep1: nat, cnt: int, ghost members: seq<int>)
      returns (ok: bool, more: bool, pos: nat, c: int, ep: nat, cclcnt: int, ghost members': seq<int>)
      requires Shaped() && InputOk(input) && pos0 >= 1 && c0 == S.Read(input, pos0 - 1) && ep1 < ESIZE + 2
      requires InClass(ep0, ep1, cnt, members) && (members == [] || ep1 < ESIZE)
      requires pos0 <= |input| ==> forall m :: m in members ==> m >= 1
      modifies expbuf
      ensures expbuf[..ep0 + 1] == old(expbuf[..ep0 + 1])
      ensures ok ==> InClass(ep0, ep, cclcnt, members') == true && |members'| > |members|
      ensures ok ==> pos >= 1 && c == S.Read(input, pos - 1)
      ensures ok && more ==> ep < ESIZE && S.ClassBody(input, pos0 - 1, members) == S.ClassBody(input, pos - 1, members')
      ensures ok && more && pos <= |input| ==> forall m :: m in members' ==> m >= 1
      ensures ok && !more ==> ep <= ESIZE && S.ClassBody(input, pos0 - 1, members) == Some((members', pos))
      ensures !ok ==> var m := S.ClassBody(input, pos0 - 1, members); m.Some? ==> ep0 + 2 + |m.value.0| >= ESIZE
    {
      ok, more, pos, c, ep, cclcnt, members' := true, true, pos0, c0, ep1, cnt, members;
      if c == NEWLINE {
        ok := false;
        return;
      }
      assert members != [] ==> expbuf[ep - 1] == S.Last(members) && S.Last(members) in members;
      if c == S.MINUS && expbuf[ep - 1] != 0 {
        c := S.Read(input, pos);
        pos := pos + 1;
        if c == S.RBRACKET {
          expbuf[ep] := S.MINUS;
          members' := members + [S.MINUS];
          ep, cclcnt, more := ep + 1, cclcnt + 1, false;
          return;
        }
        ghost var range := members + S.Range(S.Last(members), c);
        assert S.ClassBody(input, pos0 - 1, members) == S.ClassRest(input, pos, range + [c]);
        RangeAbove(S.Last(members), c);
        S.ClassRestGrows(input, pos, range + [c]);
        var full;
        full, ep, cclcnt := FillRange(c, ep0, ep, cclcnt, members);
        if full {
          ok := false;
          return;
        }
        members' := range;
      }
      assert pos <= |input| ==> S.ClassBody(input, pos0 - 1, members) == S.ClassRest(input, pos, members' + [c]);
      ok, more, pos, c, ep, cclcnt, members' := ClassChar(input, pos, c, ep0, ep, cclcnt, members');
    }

    /** The end of a round: the character itself, and the next one. */
    method ClassChar(input: seq<int>, pos0: nat, c0: int, ep0: nat, ep1: nat, cnt: int, ghost members: seq<int>)
      returns (ok: bool, more: bool, pos: nat, c: int, ep: nat, cclcnt: int, ghost members': seq<int>)
      requires Shaped() && InputOk(input) && pos0 >= 1 && c0 == S.Read(input, pos0 - 1) && ep1 < ESIZE + 2
      requires InClass(ep0, ep1, cnt, members) && (members == [] || ep1 < ESIZE)
      requires pos0 <= |input| ==> forall m :: m in members ==> m >= 1
      modifies expbuf
      ensures expbuf[..ep0 + 1] == old(expbuf[..ep0 + 1]) && members' == members + [c0] && pos == pos0 + 1
      ensures ok ==> InClass(ep0, ep, cclcnt, members') && ep < ESIZE && c == S.Read(input, pos0)
      ensures pos0 <= |input| ==> forall m :: m in members' ==> m >= 1
      ensures ok && more && pos0 <= |input| ==> S.ClassRest(input, pos0, members') == S.ClassBody(input, pos0, members')
      ensures ok && !more ==> pos0 < |input| && S.ClassRest(input, pos0, members') == Some((members', pos))
      ensures !ok ==> var m := S.ClassRest(input, pos0, members'); m.Some? ==> ep0 + 2 + |m.value.0| >= ESIZE
    {
      expbuf[ep1] := c0;
      members' := members + [c0];
      S.ClassRestGrows(input, pos0, members');
      ep, cclcnt := ep1 + 1, cnt + 1;
      c, pos := S.Read(input, pos0), pos0 + 1;
      ok, more := ep < ESIZE, c != S.RBRACKET;
    }

    /** A bracket expression of `compile`, from the character after its `[`. */
    method CompileClass(input: seq<int>, pos0: nat, ep0: nat) returns (ok: bool, pos: nat, ep: nat)
      requires Shaped() && InputOk(input) && ep0 < ESIZE
      modifies expbuf
      ensures expbuf[..ep0] == old(expbuf[..ep0])
      ensures ok ==> ClassText(input, pos0).Some? && pos == ClassText(input, pos0).value.1 <= |input|
      ensures ok ==> ep == ep0 + 2 + |ClassText(input, pos0).value.0| <= ESIZE
      ensures ok ==> expbuf[ep0..ep] == AtomCode(Class(S.Read(input, pos0) == S.CARET, ClassText(input, pos0).value.0))
      ensures !ok && ClassText(input, pos0).Some? ==> ep0 + 2 + |ClassText(input, pos0).value.0| >= ESIZE
    {
      ghost var target := ClassText(input, pos0);
      ghost var code := if S.Read(input, pos0) == S.CARET then NCCL else CCL;
      expbuf[ep0], expbuf[ep0 + 1] := CCL, 0;
      ep := ep0 + 2;
      var cclcnt := 1;
      var c := S.Read(input, pos0);
      pos := pos0 + 1;
      if c == S.CARET {
        c := S.Read(input, pos);
        pos := pos + 1;
        expbuf[ep - 2] := NCCL;
      }
      ghost var members: seq<int> := [];
      S.ClassGrows(input, pos - 1, []);
      var more := true;
      while more
        invariant expbuf[..ep0] == old(expbuf[..ep0]) && expbuf[ep0] == code
        invariant InClass(ep0, ep, cclcnt, members) == true
        invariant more ==> pos >= 1 && c == S.Read(input, pos - 1) && (members == [] || ep < ESIZE)
        invariant more ==> target == S.ClassBody(input, pos - 1, members)
        invariant more && pos <= |input| ==> forall m :: m in members ==> m >= 1
        invariant !more ==> target == Some((members, pos)) && ep <= ESIZE
        decreases more, ESIZE + 4 - ep
      {
        ghost var before := expbuf[..ep0 + 1];
        ok, more, pos, c, ep, cclcnt, members := ClassRound(input, pos, c, ep0, ep, cclcnt, members);
        assert expbuf[..ep0] == before[..ep0] && expbuf[ep0] == before[ep0];
        if !ok {
          return;
        }
      }
      CountMembers(ep0, ep, cclcnt, members);
      ok := true;
    }

    /** `lastep[1] = cclcnt` */
    method CountMembers(ep0: nat, ep: nat, cclcnt: int, ghost members: seq<int>)
      requires InClass(ep0, ep, cclcnt, members)
      modifies expbuf
      ensures expbuf[..ep0] == old(expbuf[..ep0])
      ensures expbuf[ep0..ep] == [old(expbuf[ep0]), |members| + 1] + members
    {
      expbuf[ep0 + 1] := cclcnt;
      assert expbuf[ep0..ep] == [expbuf[ep0], expbuf[ep0 + 1]] + expbuf[ep0 + 2..ep];
    }

    /** What holds between two tokens of `compile`: the state `s` of the grammar
        is the one that `expbuf`, `lastep`, `bracket` and `nbra` encode. */
    ghost predicate Midst(input: seq<int>, eof: int, pos: nat, ep: nat, lastep: int, bracket: seq<nat>, s: S.State)
      reads expbuf, this`nbra
    {
      && ep <= ESIZE + 2 && ep <= expbuf.Length && Coded(expbuf[..ep], s, lastep) == true
      && (EndsInDollar(s) ==> S.Read(input, pos) == eof)
      && bracket == s.open && |bracket| <= s.nbra <= NBRA && nbra == s.nbra
    }

    /** The code of one item, of one or two bytes. */
    method Emit(ep0: nat, code: seq<int>, ghost s: S.State, ghost item: Item, ghost s': S.State) returns (ep: nat)
      requires Shaped() && ep0 < ESIZE && expbuf[..ep0] == Encode(s.items)
      requires 1 <= |code| <= 2 && Code(item) == code && s'.items == s.items + [item]
      requires s'.starrable == (code[0] !in {CBRA, CKET})
      modifies expbuf
      ensures ep == ep0 + |code| && Coded(expbuf[..ep], s', ep0) == true && expbuf[..ep] == old(expbuf[..ep0]) + code
    {
      expbuf[ep0] := code[0];
      if |code| == 2 {
        expbuf[ep0 + 1] := code[1];
      }
      ep := ep0 + |code|;
      assert expbuf[..ep] == Encode(s.items) + code;
      CodedSnoc(s, item, s');
    }

    /** `\(` or `\)`, whose backslash is at `pos0`. */
    method CompileBracket(input: seq<int>, eof: int, pos0: nat, ep0: nat, ghost lastep0: int, bracket0: seq<nat>, ghost s: S.State)
      returns (ok: bool, ep: nat, bracket: seq<nat>, ghost s': S.State)
      requires Shaped() && ep0 < ESIZE && Midst(input, eof, pos0, ep0, lastep0, bracket0, s)
      requires pos0 + 1 < |input| && input[pos0] == S.BACKSLASH != eof && input[pos0 + 1] in {S.LPAREN, S.RPAREN}
      modifies this`nbra, expbuf
      ensures ok ==> Midst(input, eof, pos0 + 2, ep, ep0, bracket, s') == true
      ensures ok ==> ep > ep0 && S.Leads(input, eof, pos0, s, pos0 + 2, s') == true
      ensures !ok ==> S.Parse(input, eof, pos0, s) == None
    {
      hide Encode, Coded, S.Lex, S.Parse, S.Leads;
      CodedCode(expbuf[..ep0], s, lastep0);
      BracketAt(input, eof, pos0, s);
      ok, ep, bracket, s' := true, ep0, bracket0, s;
      if input[pos0 + 1] == S.LPAREN {
        if nbra >= NBRA {
          ok := false;
          return;
        }
        s' := S.State(s.items + [Open(s.nbra)], false, s.open + [s.nbra], s.nbra + 1);
        ep := Emit(ep0, [CBRA, nbra], s, Open(s.nbra), s');
        bracket, nbra := bracket + [nbra], nbra + 1;
      } else {
        if bracket == [] {
          ok := false;
          return;
        }
        var n := |bracket| - 1;
        s' := s.(items := s.items + [Close(s.open[n])], starrable := false, open := s.open[..n]);
        ep := Emit(ep0, [CKET, bracket[n]], s, Close(s.open[n]), s');
        bracket := bracket[..n];
      }
    }

    lemma BracketAt(input: seq<int>, eof: int, p: nat, s: S.State)
      requires p + 1 < |input| && input[p] == S.BACKSLASH != eof && input[p + 1] in {S.LPAREN, S.RPAREN}
      ensures var next := S.Step(s, if input[p + 1] == S.LPAREN then S.Begin else S.Finish);
        if next.None? then S.Parse(input, eof, p, s) == None else S.Leads(input, eof, p, s, p + 2, next.value)
    {
    }

    lemma CodedCode(code: seq<int>, s: S.State, lastep: int)
      requires Coded(code, s, lastep)
      ensures code == Encode(s.items)
    {
    }

    /** After a backslash, whose place is `pos0`. */
    method CompileEscape(input: seq<int>, eof: int, pos0: nat, ep0: nat, ghost lastep0: int, bracket0: seq<nat>, ghost s: S.State)
      returns (ok: bool, pos: nat, ep: nat, bracket: seq<nat>, ghost s': S.State)
      requires Shaped() && InputOk(input) && ep0 < ESIZE && Midst(input, eof, pos0, ep0, lastep0, bracket0, s)
      requires pos0 < |input| && input[pos0] == S.BACKSLASH != eof
      modifies this`nbra, expbuf
      ensures ok ==> Midst(input, eof, pos, ep, ep0, bracket, s') == true
      ensures ok ==> pos > pos0 && ep > ep0 && S.Leads(input, eof, pos0, s, pos, s') == true
      ensures !ok ==> S.Parse(input, eof, pos0, s) == None
    {
      ok, ep, bracket, s' := true, ep0, bracket0, s;
      var c := S.Read(input, pos0 + 1);
      pos := pos0 + 2;
      if c == S.LPAREN || c == S.RPAREN {
        ok, ep, bracket, s' := CompileBracket(input, eof, pos0, ep0, lastep0, bracket, s);
      } else if S.DIGIT1 <= c < S.DIGIT1 + NBRA {
        s' := s.(items := s.items + [Back(c - S.DIGIT1)], starrable := true);
        ep := Emit(ep0, [CBACK, c - S.DIGIT1], s, Back(c - S.DIGIT1), s');
        S.ParseToken(input, eof, pos0, s, S.Plain(Back(c - S.DIGIT1)), pos);
      } else {
        if c == NEWLINE {
          ok := false;
          return;
        }
        s' := s.(items := s.items + [One(Chr(c))], starrable := true);
        ep := Emit(ep0, [CCHR, c], s, One(Chr(c)), s');
        if c == -1 {
          assert S.Leads(input, eof, pos0, s, pos, s') by {
            assert S.Lex(input, eof, pos0) == (S.Bad, pos);
          }
        } else {
          S.ParseToken(input, eof, pos0, s, S.Plain(One(Chr(c))), pos);
        }
      }
    }

    /** `[`, at `pos0`. */
    method CompileSet(input: seq<int>, eof: int, pos0: nat, ep0: nat, ghost lastep0: int, bracket: seq<nat>, ghost s: S.State)
      returns (ok: bool, pos: nat, ep: nat, ghost s': S.State)
      requires Shaped() && InputOk(input) && ep0 < ESIZE && Midst(input, eof, pos0, ep0, lastep0, bracket, s)
      requires pos0 < |input| && input[pos0] == S.LBRACKET != eof
      modifies expbuf
      ensures ok ==> Midst(input, eof, pos, ep, ep0, bracket, s') == true
      ensures ok ==> pos > pos0 && ep > ep0 && S.Leads(input, eof, pos0, s, pos, s') == true
      ensures !ok ==> var r := S.Parse(input, eof, pos0, s); r.Some? ==> |Encode(r.value.items)| >= ESIZE
    {
      ghost var code := expbuf[..ep0];
      ok, pos, ep := CompileClass(input, pos0 + 1, ep0);
      s' := s;
      ghost var m := ClassText(input, pos0 + 1);
      if m.Some? {
        ghost var item := One(Class(S.Read(input, pos0 + 1) == S.CARET, m.value.0));
        s' := s.(items := s.items + [item], starrable := true);
        SetFacts(input, eof, pos0, s, item, m.value.1, s');
        assert ok ==> expbuf[..ep] == code + expbuf[ep0..ep];
      }
    }

    lemma SetFacts(input: seq<int>, eof: int, pos: nat, s: S.State, item: Item, next: nat, s': S.State)
      requires pos < |input| && input[pos] == S.LBRACKET != eof && ClassText(input, pos + 1).Some?
      requires item == One(Class(S.Read(input, pos + 1) == S.CARET, ClassText(input, pos + 1).value.0))
      requires next == ClassText(input, pos + 1).value.1 && s' == s.(items := s.items + [item], starrable := true)
      ensures S.Leads(input, eof, pos, s, next, s') == true && pos < next
      ensures Coded(Encode(s.items) + Code(item), s', |Encode(s.items)|) == true
      ensures var r := S.Parse(input, eof, pos, s); r.Some? ==> |Encode(r.value.items)| >= |Encode(s.items)| + |Code(item)|
    {
      assert S.Lex(input, eof, pos) == (S.Plain(item), next);
      S.ParseToken(input, eof, pos, s, S.Plain(item), next);
      CodedSnoc(s, item, s');
      EncodeSnoc(s.items, item);
      ParseGrows(input, eof, next, s');
      S.ClassGrows(input, if S.Read(input, pos + 1) == S.CARET then pos + 2 else pos + 1, []);
    }

    /** `*`, at `pos0`. */
    method CompileStar(input: seq<int>, eof: int, pos0: nat, ep0: nat, lastep: int, bracket: seq<nat>, ghost s: S.State)
      returns (ep: nat, ghost s': S.State)
      requires Shaped() && ep0 < ESIZE && Midst(input, eof, pos0, ep0, lastep, bracket, s)
      requires pos0 < |input| && input[pos0] == S.STAR != eof
      modifies expbuf
      ensures Midst(input, eof, pos0 + 1, ep, lastep, bracket, s') == true
      ensures ep >= ep0 && S.Leads(input, eof, pos0, s, pos0 + 1, s') == true
    {
      ghost var code, n := expbuf[..ep0], |s.items| - 1;
      S.ParseToken(input, eof, pos0, s, S.Repeat, pos0 + 1);
      StarCases(s, lastep);
      assert lastep != -1 ==> expbuf[lastep] == code[lastep];
      hide Encode;
      if lastep == -1 || expbuf[lastep] == CBRA || expbuf[lastep] == CKET {
        s' := s.(items := s.items + [One(Chr(S.STAR))]);
        ep := Emit(ep0, [CCHR, S.STAR], s, One(Chr(S.STAR)), s'.(starrable := true));
      } else {
        expbuf[lastep], ep := OrStar(expbuf[lastep]), ep0;
        s' := s.(items := s.items[..n] + [S.Starred(s.items[n])]);
        assert expbuf[..ep] == code[lastep := OrStar(code[lastep])];
      }
    }

    /** One round of the loop of `compile` on a character `c` at `pos0` that is
        not the delimiter.  Once the input has run out `c` is EOF for ever. */
    method CompileRound(input: seq<int>, eof: int, pos0: nat, ep0: nat, lastep0: int, bracket0: seq<nat>, ghost s: S.State)
      returns (ok: bool, pos: nat, ep: nat, lastep: int, bracket: seq<nat>, ghost s': S.State)
      requires Shaped() && InputOk(input) && ep0 < ESIZE && Midst(input, eof, pos0, ep0, lastep0, bracket0, s)
      requires S.Read(input, pos0) != eof && eof >= 1
      modifies this`nbra, expbuf
      ensures ok ==> Midst(input, eof, pos, ep, lastep, bracket, s') == true
      ensures ok ==> pos > pos0 && ep >= ep0 && (pos0 >= |input| ==> ep > ep0) && S.Leads(input, eof, pos0, s, pos, s') == true
      ensures !ok ==> var r := S.Parse(input, eof, pos0, s); r.Some? ==> |Encode(r.value.items)| >= ESIZE
    {
      var c := S.Read(input, pos0);
      ok, pos, ep, lastep, bracket, s' := true, pos0 + 1, ep0, if c != S.STAR then ep0 else lastep0, bracket0, s;
      if c == S.BACKSLASH {
        ok, pos, ep, bracket, s' := CompileEscape(input, eof, pos0, ep0, lastep0, bracket, s);
      } else if c == NEWLINE {
        ok := false;
      } else if c == S.STAR {
        ep, s' := CompileStar(input, eof, pos0, ep0, lastep, bracket, s);
      } else if c == S.LBRACKET {
        ok, pos, ep, s' := CompileSet(input, eof, pos0, ep0, lastep0, bracket, s);
      } else {
        ep, s' := CompilePlain(input, eof, pos0, ep0, lastep0, bracket, s);
      }
    }

    /** A character that is an item of its own. */
    method CompilePlain(input: seq<int>, eof: int, pos0: nat, ep0: nat, ghost lastep0: int, bracket: seq<nat>, ghost s: S.State)
      returns (ep: nat, ghost s': S.State)
      requires Shaped() && ep0 < ESIZE && Midst(input, eof, pos0, ep0, lastep0, bracket, s)
      requires S.Read(input, pos0) !in {eof, S.BACKSLASH, NEWLINE, S.STAR, S.LBRACKET}
      modifies expbuf
      ensures Midst(input, eof, pos0 + 1, ep, ep0, bracket, s') == true
      ensures ep > ep0 && S.Leads(input, eof, pos0, s, pos0 + 1, s') == true
    {
      var c := S.Read(input, pos0);
      ghost var item;
      if c == S.DOT {
        item := One(Dot);
        s' := s.(items := s.items + [item], starrable := true);
        ep := Emit(ep0, [CDOT], s, item, s');
      } else if c == S.DOLLAR && S.Read(input, pos0 + 1) == eof {
        item := Item.Dollar;
        s' := s.(items := s.items + [item], starrable := true);
        ep := Emit(ep0, [CDOL], s, item, s');
      } else {
        item := One(Chr(c));
        s' := s.(items := s.items + [item], starrable := true);
        ep := Emit(ep0, [CCHR, c], s, item, s');
      }
      if pos0 < |input| {
        S.ParseToken(input, eof, pos0, s, S.Plain(item), pos0 + 1);
      }
    }

    /** `compile(eof)` on what is typed after the opening delimiter.  An empty
        pattern keeps the previous program, if there is one.  Otherwise the
        program for the meaning of the pattern is compiled, unless the pattern is
        malformed or its code, which must leave room for the end mark, is too long. */
    method Compile(input: seq<int>, eof: int) returns (ok: bool)
      requires Shaped() && InputOk(input) && 1 <= eof <= 127 && eof != NEWLINE
      modifies this`circfl, this`nbra, expbuf
      ensures S.Read(input, 0) == eof ==>
        ok == (old(expbuf[0]) != 0) && expbuf[..] == old(expbuf[..]) && circfl == old(circfl) && nbra == old(nbra)
      ensures S.Read(input, 0) != eof ==>
        (ok <==> S.Meaning(input, eof).Some? && |Encode(S.Meaning(input, eof).value.items)| < ESIZE)
      ensures S.Read(input, 0) != eof && ok ==> var m := S.Meaning(input, eof).value;
        At(0, m.items) && circfl == m.anchored && nbra == m.nbra
      ensures S.Read(input, 0) != eof && !ok ==> expbuf[0] == 0 && nbra == 0
    {
      var pos := 0;
      var c := S.Read(input, pos);
      if c == eof {
        return expbuf[0] != 0;
      }
      circfl, nbra := false, 0;
      if c == S.CARET {
        pos, circfl := 1, true;
      }
      var ep: nat, lastep: int := 0, -1;
      var bracket: seq<nat> := [];
      ghost var s := S.START;
      ghost var whole := S.Parse(input, eof, pos, s);
      assert expbuf[..0] == [];
      while true
        invariant Midst(input, eof, pos, ep, lastep, bracket, s) == true
        invariant whole == S.Parse(input, eof, pos, s)
        invariant circfl == (S.Read(input, 0) == S.CARET)
        invariant whole == S.Parse(input, eof, if circfl then 1 else 0, S.START)
        decreases if pos < |input| then |input| - pos else 0, ESIZE + 4 - ep
      {
        ParseGrows(input, eof, pos, s);
        if ep >= ESIZE {
          break;
        }
        c := S.Read(input, pos);
        if c == eof {
          if bracket != [] {
            break;
          }
          expbuf[ep] := CEOF;
          CodeThere(Encode(s.items), ep);
          return true;
        }
        ok, pos, ep, lastep, bracket, s := CompileRound(input, eof, pos, ep, lastep, bracket, s);
        if !ok {
          break;
        }
      }
      expbuf[0], nbra := 0, 0;
      ok := false;
    }

    /** `cclass(set, c, af)` */
    method Cclass(set0: nat, c: int, af: bool, ghost members: seq<int>) returns (r: bool)
      requires set0 + |members| < expbuf.Length && expbuf[set0] == |members| + 1 && Has(set0 + 1, members)
      ensures r <==> c != 0 && ((c in members) == af)
    {
      if c == 0 {
        return false;
      }
      var set1, n := set0 + 1, expbuf[set0] - 1;
      while n > 0
        invariant 0 <= n <= |members| && set1 == set0 + 1 + |members| - n
        invariant c !in members[..|members| - n]
      {
        var m := |members| - n;
        assert expbuf[set1] == members[m];
        assert members[..m + 1] == members[..m] + [members[m]];
        if expbuf[set1] == c {
          return af;
        }
        set1, n := set1 + 1, n - 1;
      }
      assert members[..|members|] == members;
      r := !af;
    }

    /** One test of a character against the atom whose code starts at `ep`, the
        operand starting at `ep + 1`. */
    method Test(line: seq<int>, lp: nat, ep: nat, ghost a: Atom) returns (r: bool)
      requires lp <= |line| && LineOk(line) && AtomOk(a) && AtomAt(ep, a)
      ensures r <==> lp < |line| && In(a, line[lp])
    {
      AtomBytes(ep, a);
      var c := if lp < |line| then line[lp] else 0;
      var code := if expbuf[ep] % 2 == 0 then expbuf[ep] else expbuf[ep] - 1;
      if code == CCHR {
        r := expbuf[ep + 1] == c;
      } else if code == CDOT {
        r := c != 0;
      } else {
        r := Cclass(ep + 1, c, code == CCL, a.members);
      }
    }

    /** The arms of `advance` for items that are not starred. */
    method StepItem(line: seq<int>, lp: nat, ep: nat, ghost item: Item) returns (ok: bool, lp': nat, ep': nat)
      requires Shaped() && lp <= |line| && LineOk(line) && ItemOk(item) == true && !item.Star? && CodeAt(ep, item) == true
      modifies braslist, braelist
      ensures ok <==> Passes(item, line, lp)
      ensures ok ==> lp' == (if item.One? then lp + 1 else lp) && ep' == ep + |Code(item)|
      ensures braslist[..] == if item.Open? then old(braslist[..])[item.k := lp] else old(braslist[..])
      ensures braelist[..] == if item.Close? then old(braelist[..])[item.k := lp] else old(braelist[..])
    {
      assert expbuf[ep] == Code(item)[0];
      ok, lp', ep' := false, lp, ep;
      if expbuf[ep] == CDOL {
        ok, ep' := lp == |line|, ep + 1;
      } else if expbuf[ep] == CBRA {
        assert expbuf[ep + 1] == Code(item)[1];
        braslist[expbuf[ep + 1]] := lp;
        ok, ep' := true, ep + 2;
      } else if expbuf[ep] == CKET {
        assert expbuf[ep + 1] == Code(item)[1];
        braelist[expbuf[ep + 1]] := lp;
        ok, ep' := true, ep + 2;
      } else {
        CodeIsAtom(ep, item);
        ok := Test(line, lp, ep, item.a);
        lp', ep' := lp + 1, Skip(ep, item.a);
      }
    }

    /** Where the code after an atom starts. */
    function Skip(ep: nat, ghost a: Atom): (r: nat)
      requires AtomAt(ep, a)
      reads expbuf
      ensures r == ep + |AtomCode(a)|
    {
      AtomBytes(ep, a);
      var code := if expbuf[ep] % 2 == 0 then expbuf[ep] else expbuf[ep] - 1;
      if code == CCHR then ep + 2 else if code == CDOT then ep + 1 else ep + 1 + expbuf[ep + 1]
    }

    /** The code of an item lies at `ep`. */
    ghost predicate CodeAt(ep: nat, item: Item)
      reads expbuf
    {
      Has(ep, Code(item))
    }

    lemma CodeIsAtom(ep: nat, item: Item)
      requires CodeAt(ep, item) && (item.One? || item.Star?)
      ensures AtomAt(ep, item.a) && |Code(item)| == |AtomCode(item.a)|
      ensures item.Star? <==> expbuf[ep] % 2 == 1
    {
      var code, atom := Code(item), AtomCode(item.a);
      assert expbuf[ep] == code[0];
      forall i | 1 <= i < |atom| ensures expbuf[ep + i] == atom[i] {
        assert expbuf[ep + i] == code[i];
      }
    }

    /** The code at the front, and the code after it. */
    lemma AtCons(ep: nat, items: seq<Item>)
      requires At(ep, items) && items != []
      ensures CodeAt(ep, items[0]) == true
      ensures At(ep + |Code(items[0])|, items[1..]) == true
    {
      EncodeCons(items);
      S.Associative(Code(items[0]), Encode(items[1..]), [CEOF]);
      HasHalves(ep, Code(items[0]), Encode(items[1..]) + [CEOF]);
    }

    lemma HasHalves(ep: nat, a: seq<int>, b: seq<int>)
      requires Has(ep, a + b) == true
      ensures Has(ep, a) && Has(ep + |a|, b)
    {
      var s := a + b;
      forall i | 0 <= i < |a| ensures expbuf[ep + i] == a[i] {
        assert s[i] == a[i];
      }
      forall i | 0 <= i < |b| ensures expbuf[ep + |a| + i] == b[i] {
        assert s[|a| + i] == b[i];
      }
    }

    /** The loop that skips as many characters as the starred atom matches, and
        one more. */
    method RunPast(line: seq<int>, lp0: nat, ep: nat, ghost a: Atom) returns (lp: nat)
      requires lp0 <= |line| && LineOk(line) && AtomOk(a) && AtomAt(ep, a)
      ensures lp == RunEnd(a, line, lp0) + 1
    {
      lp := lp0;
      var more := true;
      while more
        invariant more ==> lp0 <= lp <= |line| && RunEnd(a, line, lp0) == RunEnd(a, line, lp)
        invariant !more ==> lp == RunEnd(a, line, lp0) + 1
        decreases more, |line| - lp
      {
        more := Test(line, lp, ep, a);
        lp := lp + 1;
      }
    }

    /** `advance(lp, ep)`: it succeeds just when there is a preferred match, whose
        end it leaves in `loc2` and whose bracketed parts in the two tables. */
    method Advance(line: seq<int>, lp0: nat, ep0: nat, ghost items: seq<Item>) returns (ok: bool)
      requires Shaped() && lp0 <= |line| && LineOk(line) && At(ep0, items) && ItemsOk(items)
      modifies this`loc2, braslist, braelist
      ensures ok <==> Prefer(items, line, lp0).Some?
      ensures ok ==> Recorded(items, lp0, Prefer(items, line, lp0).value)
      ensures Untouched(items, old(braslist[..]), old(braelist[..]), braslist[..], braelist[..])
      decreases |items|
    {
      var lp, ep := lp0, ep0;
      ghost var done: seq<nat>, rest, b, e := [], items, braslist[..], braelist[..];
      assert forall v: seq<nat> :: [] + v == v;
      assert items[..0] == [];
      while true
        invariant Midway(line, lp0, items, done, rest, lp, ep, b, e) == true
        decreases |rest|
      {
        FirstCode(ep, rest);
        if expbuf[ep] == CEOF {
          assert done + [] == done && items[..|done|] == items;
          loc2 := lp;
          return true;
        }
        if expbuf[ep] in {OrStar(CCHR), OrStar(CDOT), OrStar(CCL), OrStar(NCCL)} {
          ghost var b0, e0 := braslist[..], braelist[..];
          ok := AdvanceStar(line, lp, ep, rest);
          StarDone(line, lp0, items, done, rest, lp, b, e, b0, e0);
          return;
        }
        ok, lp, ep := AdvanceItem(line, lp0, items, done, rest, lp, ep, b, e);
        if !ok {
          return false;
        }
        done, rest := done + [lp], rest[1..];
      }
    }

    /** `execute(0, addr)` on the text of a line: the match found, if there is
        one, starts as far left as any match does, and is the greediest there. */
    method Execute(line: seq<int>, ghost items: seq<Item>) returns (ok: bool)
      requires Shaped() && LineOk(line) && At(0, items) && ItemsOk(items)
      modifies this`loc1, this`loc2, braslist, braelist
      ensures ok <==> exists i :: 0 <= i <= |line| && (circfl ==> i == 0) && MatchesAt(items, line, i)
      ensures ok ==> 0 <= loc1 <= |line| && (circfl ==> loc1 == 0)
      ensures ok ==> forall i :: 0 <= i < loc1 ==> !MatchesAt(items, line, i)
      ensures ok ==> exists cuts :: Recorded(items, loc1, cuts) && Greediest(items, line, loc1, cuts)
    {
      for c := 0 to NBRA
        invariant Shaped()
      {
        braslist[c] := -1;
        braelist[c] := -1;
      }
      FirstCode(0, items);
      if circfl {
        loc1 := 0;
        ok := Advance(line, 0, 0, items);
      } else if expbuf[0] == CCHR {
        ok := ScanFirst(line, items);
      } else {
        ok := Scan(line, items);
      }
      forall i | 0 <= i <= |line|
        ensures Prefer(items, line, i).Some? <==> MatchesAt(items, line, i)
        ensures Prefer(items, line, i).Some? ==> Greediest(items, line, i, Prefer(items, line, i).value)
      {
        Preferred(items, line, i);
      }
    }

    /** A pattern that is compiled and tried on a line, as an address between
        slashes is: whether it compiles, whether it is found, and where, follows
        from what was typed and from the line alone. */
    method Find(input: seq<int>, eof: int, line: seq<int>) returns (ok: bool, found: bool)
      requires Shaped() && InputOk(input) && 1 <= eof <= 127 && eof != NEWLINE && LineOk(line)
      requires S.Read(input, 0) != eof && NoBacks(input, eof)
      modifies this, expbuf, braslist, braelist
      ensures ok <==> S.Meaning(input, eof).Some? && |Encode(S.Meaning(input, eof).value.items)| < ESIZE
      ensures ok ==> var m := S.Meaning(input, eof).value;
        && (found <==> exists i :: 0 <= i <= |line| && (m.anchored ==> i == 0) && MatchesAt(m.items, line, i))
        && (found ==> 0 <= loc1 <= |line| && (m.anchored ==> loc1 == 0))
        && (found ==> forall i :: 0 <= i < loc1 ==> !MatchesAt(m.items, line, i))
        && (found ==> exists cuts :: Recorded(m.items, loc1, cuts) && Greediest(m.items, line, loc1, cuts))
      ensures !ok ==> !found
    {
      found := false;
      ok := Compile(input, eof);
      if ok {
        MeaningUsable(input, eof);
        found := Execute(line, S.Meaning(input, eof).value.items);
      }
    }

    /** The match recorded is the preferred one at `loc1`. */
    ghost predicate FoundAt(items: seq<Item>, line: seq<int>)
      reads this`loc1, this`loc2, braslist, braelist
    {
      0 <= loc1 <= |line| && Prefer(items, line, loc1).Some? && Recorded(items, loc1, Prefer(items, line, loc1).value)
    }

    /** Try to match from `p1` on. */
    method TryAt(line: seq<int>, p1: nat, ghost items: seq<Item>) returns (ok: bool)
      requires Shaped() && LineOk(line) && p1 <= |line| && At(0, items) == true && ItemsOk(items) == true
      modifies this`loc1, this`loc2, braslist, braelist
      ensures ok <==> Prefer(items, line, p1).Some?
      ensures ok ==> FoundAt(items, line) == true && loc1 == p1
    {
      ok := Advance(line, p1, 0, items);
      if ok {
        loc1 := p1;
      }
    }

    /** The scan that looks for the first character before it tries to match. */
    method ScanFirst(line: seq<int>, ghost items: seq<Item>) returns (ok: bool)
      requires Shaped() && LineOk(line) && At(0, items) && ItemsOk(items) && expbuf[0] == CCHR
      modifies this`loc1, this`loc2, braslist, braelist
      ensures ok ==> FoundAt(items, line) == true && NoneBefore(items, line, loc1)
      ensures !ok ==> NoneBefore(items, line, |line| + 1)
    {
      FirstChr(items);
      var p1, c := 0, expbuf[1];
      while p1 <= |line|
        invariant 0 <= p1 <= |line| + 1
        invariant NoneBefore(items, line, p1) == true
      {
        if p1 < |line| && line[p1] == c {
          ok := TryAt(line, p1, items);
          if ok {
            return;
          }
        }
        p1 := p1 + 1;
      }
      ok := false;
    }

    lemma FirstChr(items: seq<Item>)
      requires At(0, items) && ItemsOk(items) && expbuf.Length >= 2 && expbuf[0] == CCHR
      ensures items != [] && items[0] == One(Chr(expbuf[1]))
    {
      FirstCode(0, items);
      AtCons(0, items);
      var code := Code(items[0]);
      assert expbuf[0] == code[0] && (|code| > 1 ==> expbuf[1] == code[1]);
    }

    /** The plain scan. */
    method Scan(line: seq<int>, ghost items: seq<Item>) returns (ok: bool)
      requires Shaped() && LineOk(line) && At(0, items) && ItemsOk(items)
      modifies this`loc1, this`loc2, braslist, braelist
      ensures ok ==> FoundAt(items, line) == true && NoneBefore(items, line, loc1) == true
      ensures !ok ==> NoneBefore(items, line, |line| + 1) == true
    {
      hide Prefer;
      var p1 := 0;
      while p1 <= |line|
        invariant 0 <= p1 <= |line| + 1
        invariant NoneBefore(items, line, p1) == true
      {
        ok := TryAt(line, p1, items);
        if ok {
          return;
        }
        NoneMore(items, line, p1);
        p1 := p1 + 1;
      }
      ok := false;
    }

    /** The state of `advance` after some of the items. */
    ghost predicate Midway(line: seq<int>, lp0: nat, items: seq<Item>, done: seq<nat>, rest: seq<Item>, lp: nat, ep: nat,
                           b: seq<int>, e: seq<int>)
      requires lp0 <= |line|
      reads expbuf, braslist, braelist
    {
      At(ep, rest) && Reached(line, lp0, items, done, rest, lp, b, e, braslist[..], braelist[..])
    }

    /** One item that is not starred. */
    method AdvanceItem(line: seq<int>, ghost lp0: nat, ghost items: seq<Item>, ghost done: seq<nat>, ghost rest: seq<Item>,
                       lp: nat, ep: nat, ghost b: seq<int>, ghost e: seq<int>)
      returns (pass: bool, lp': nat, ep': nat)
      requires Shaped() && LineOk(line) && lp0 <= |line| && ItemsOk(items)
      requires Midway(line, lp0, items, done, rest, lp, ep, b, e) && rest != [] && !rest[0].Star?
      modifies braslist, braelist
      ensures pass ==> Midway(line, lp0, items, done + [lp'], rest[1..], lp', ep', b, e) == true
      ensures !pass ==> Prefer(items, line, lp0) == None && Untouched(items, b, e, braslist[..], braelist[..]) == true
    {
      hide Encode, Prefer, ItemsOk, ItemOk, Marked, Untouched, Prefix, Has, CodeAt, Code, Passes;
      AtCons(ep, rest);
      FirstOk(rest);
      ghost var b0, e0 := braslist[..], braelist[..];
      ghost var next, tail := ep + |Code(rest[0])|, rest[1..];
      pass, lp', ep' := StepItem(line, lp, ep, rest[0]);
      assert At(next, tail) == true;
      AdvancedItem(line, lp0, items, done, rest, lp, b, e, b0, e0, braslist[..], braelist[..]);
    }

    lemma FirstOk(items: seq<Item>)
      requires ItemsOk(items) && items != []
      ensures ItemOk(items[0]) == true
    {
    }

    /** After the last, starred, arm of `advance` everything is recorded. */
    lemma StarDone(line: seq<int>, lp0: nat, items: seq<Item>, done: seq<nat>, rest: seq<Item>, lp: nat,
                   b: seq<int>, e: seq<int>, b0: seq<int>, e0: seq<int>)
      requires ItemsOk(items) && lp0 <= |line| && lp <= |line|
      requires |done| + |rest| == |items| && rest == items[|done|..] && lp == Start(lp0, done, |done|)
      requires Prefer(items, line, lp0) == Prefix(done, Prefer(rest, line, lp))
      requires Marked(items, done, b0, e0) && Untouched(items[..|done|], b, e, b0, e0)
      requires Untouched(rest, b0, e0, braslist[..], braelist[..])
      requires Prefer(rest, line, lp).Some? ==> Recorded(rest, lp, Prefer(rest, line, lp).value)
      ensures Untouched(items, b, e, braslist[..], braelist[..])
      ensures Prefer(items, line, lp0).Some? ==> Recorded(items, lp0, Prefer(items, line, lp0).value)
    {
      UntouchedJoin(items, |done|, b, e, b0, e0, braslist[..], braelist[..]);
      if Prefer(rest, line, lp).Some? {
        var cuts := Prefer(rest, line, lp).value;
        MarkJoin(items, done, cuts, b0, e0, braslist[..], braelist[..]);
        StartJoin(lp0, done, cuts);
      }
    }

    /** What the first byte of the code says about the first item. */
    lemma FirstCode(ep: nat, items: seq<Item>)
      requires At(ep, items) && ItemsOk(items)
      ensures expbuf[ep] == CEOF <==> items == []
      ensures expbuf[ep] in {OrStar(CCHR), OrStar(CDOT), OrStar(CCL), OrStar(NCCL)} <==> items != [] && items[0].Star?
    {
      if items != [] {
        AtCons(ep, items);
        assert expbuf[ep] == Code(items[0])[0];
      } else {
        assert expbuf[ep] == (Encode(items) + [CEOF])[0];
      }
    }

    /** The starred arms of `advance`. */
    method AdvanceStar(line: seq<int>, lp0: nat, ep0: nat, ghost items: seq<Item>) returns (ok: bool)
      requires Shaped() && lp0 <= |line| && LineOk(line) && At(ep0, items) && ItemsOk(items)
      requires items != [] && items[0].Star?
      modifies this`loc2, braslist, braelist
      ensures ok <==> Prefer(items, line, lp0).Some?
      ensures ok ==> Recorded(items, lp0, Prefer(items, line, lp0).value) == true
      ensures Untouched(items, old(braslist[..]), old(braelist[..]), braslist[..], braelist[..]) == true
      decreases |items|, 1
    {
      AtCons(ep0, items);
      CodeIsAtom(ep0, items[0]);
      var lp := RunPast(line, lp0, ep0, items[0].a);
      ok := BackOff(line, lp0, lp, Skip(ep0, items[0].a), items);
    }

    /** The loop under the label `star:` of `advance`. */
    method BackOff(line: seq<int>, curlp: nat, lp0: nat, ep: nat, ghost items: seq<Item>) returns (ok: bool)
      requires Shaped() && curlp < lp0 <= |line| + 1 && LineOk(line) && items != [] && items[0].Star?
      requires At(ep, items[1..]) == true && ItemsOk(items[1..]) == true
      modifies this`loc2, braslist, braelist
      ensures ok <==> Backtrack(items, line, curlp, lp0 - 1).Some?
      ensures ok ==> Recorded(items, curlp, Backtrack(items, line, curlp, lp0 - 1).value) == true
      ensures Untouched(items, old(braslist[..]), old(braelist[..]), braslist[..], braelist[..]) == true
      decreases |items|, 0
    {
      hide Prefer, Encode, ItemsOk, Backtrack, Untouched, Recorded, Has;
      var lp := lp0;
      ghost var all, rest := Backtrack(items, line, curlp, lp - 1), items[1..];
      UntouchedSelf(items, braslist[..], braelist[..]);
      while true
        invariant curlp < lp <= |line| + 1 && At(ep, rest) == true
        invariant all == Backtrack(items, line, curlp, lp - 1)
        invariant Untouched(items, old(braslist[..]), old(braelist[..]), braslist[..], braelist[..]) == true
        decreases lp
      {
        lp := lp - 1;
        ghost var b, e := braslist[..], braelist[..];
        BacktrackStep(items, line, curlp, lp);
        ok := Advance(line, lp, ep, rest);
        UntouchedMore(items, old(braslist[..]), old(braelist[..]), b, e, braslist[..], braelist[..]);
        if ok {
          RecordMore(items, curlp, lp, Prefer(rest, line, lp).value);
          return;
        }
        if !(lp > curlp) {
          return;
        }
      }
    }

    lemma UntouchedSelf(items: seq<Item>, b: seq<int>, e: seq<int>)
      ensures Untouched(items, b, e, b, e)
    {
    }

    lemma BacktrackStep(items: seq<Item>, line: seq<int>, i: nat, k: nat)
      requires items != [] && items[0].Star? && i <= k <= |line|
      ensures var r := Prefer(items[1..], line, k);
        Backtrack(items, line, i, k) ==
          if r.Some? then Some([k] + r.value) else if k == i then None else Backtrack(items, line, i, k - 1)
    {
    }

    /** A match of the rest, after a starred item, is a match of the whole. */
    lemma RecordMore(items: seq<Item>, i: nat, k: nat, cuts: seq<nat>)
      requires items != [] && items[0].Star? && |cuts| == |items| - 1 && Recorded(items[1..], k, cuts)
      ensures Recorded(items, i, [k] + cuts)
    {
      var c := [k] + cuts;
      forall n | 0 <= n < |c| && n < |items| ensures
        (items[n].Open? && items[n].k < |braslist[..]| ==> braslist[..][items[n].k] == c[n]) &&
        (items[n].Close? && items[n].k < |braelist[..]| ==> braelist[..][items[n].k] == c[n])
      {
        if n > 0 {
          assert items[n] == items[1..][n - 1] && c[n] == cuts[n - 1];
        }
      }
    }

    /** A successful match is recorded. */
    ghost predicate Recorded(items: seq<Item>, i: nat, cuts: seq<nat>)
      reads this`loc2, braslist, braelist
    {
      loc2 == Start(i, cuts, |cuts|) && Marked(items, cuts, braslist[..], braelist[..])
    }

    lemma AtomBytes(ep: nat, a: Atom)
      requires AtomAt(ep, a)
      ensures a.Chr? ==> expbuf[ep + 1] == a.c
      ensures a.Class? ==> expbuf[ep + 1] == |a.members| + 1 && Has(ep + 2, a.members)
    {
      var code := AtomCode(a);
      if |code| > 1 {
        assert expbuf[ep + 1] == code[1];
      }
      if a.Class? {
        forall i | 0 <= i < |a.members| ensures expbuf[ep + 2 + i] == a.members[i] {
          assert expbuf[ep + (i + 2)] == code[i + 2];
        }
      }
    }

    /** The code of an atom, starred or not, lies at `ep`. */
    ghost predicate AtomAt(ep: nat, a: Atom)
      reads expbuf
    {
      var code := AtomCode(a);
      && ep + |code| <= expbuf.Length && expbuf[ep] in {code[0], OrStar(code[0])}
      && forall i {:trigger code[i]} :: 1 <= i < |code| ==> expbuf[ep + i] == code[i]
    }
  }

  function Prefix(done: seq<nat>, r: Option<seq<nat>>): Option<seq<nat>> {
    if r.Some? then Some(done + r.value) else None
  }

  lemma NoneMore(items: seq<Item>, line: seq<int>, p: nat)
    requires p <= |line| && NoneBefore(items, line, p) == true && Prefer(items, line, p).None?
    ensures NoneBefore(items, line, p + 1)
  {
    hide Prefer;
  }

  /** There is no preferred match that starts before `p`. */
  ghost predicate NoneBefore(items: seq<Item>, line: seq<int>, p: nat)
    requires p <= |line| + 1
  {
    forall i :: 0 <= i < p ==> Prefer(items, line, i).None?
  }

  /** Typed characters are seven bits wide, and not NUL. */
  predicate InputOk(input: seq<int>) {
    forall i :: 0 <= i < |input| ==> 1 <= input[i] <= 127
  }

  lemma {:induction false} RangeAbove(last: int, c: int)
    ensures forall m :: m in S.Range(last, c) ==> m > last
    decreases c - last
  {
    if last < c {
      RangeAbove(last + 1, c);
    }
  }

  lemma EncodeSnoc(items: seq<Item>, item: Item)
    ensures Encode(items + [item]) == Encode(items) + Code(item)
  {
    assert (items + [item])[..|items|] == items;
  }

  /** `code` is that of the items read so far, and `lastep` (-1 for null) tells
      what a star would apply to. */
  ghost predicate Coded(code: seq<int>, s: S.State, lastep: int) {
    && code == Encode(s.items)
    && if s.starrable then
      var n := |s.items| - 1;
      n >= 0 && lastep == |Encode(s.items[..n])| && !s.items[n].Open? && !s.items[n].Close?
    else
      lastep == -1 || (0 <= lastep < |code| && code[lastep] in {CBRA, CKET})
  }

  lemma CodedSnoc(s: S.State, item: Item, s': S.State)
    requires s'.items == s.items + [item]
    requires s'.starrable == (Code(item)[0] !in {CBRA, CKET})
    ensures Coded(Encode(s.items) + Code(item), s', |Encode(s.items)|)
  {
    EncodeSnoc(s.items, item);
    assert s'.items[..|s'.items| - 1] == s.items;
  }

  /** What a star does to the code. */
  lemma StarCases(s: S.State, lastep: int)
    requires Coded(Encode(s.items), s, lastep) == true && !EndsInDollar(s)
    ensures var code, n := Encode(s.items), |s.items| - 1;
      && lastep < |code|
      && (s.starrable ==> (
            && lastep >= 0 && n >= 0 && code[lastep] !in {CBRA, CKET}
            && Coded(code[lastep := OrStar(code[lastep])], s.(items := s.items[..n] + [S.Starred(s.items[n])]), lastep) == true))
      && (!s.starrable ==> lastep == -1 || (lastep >= 0 && code[lastep] in {CBRA, CKET}))
      && (!s.starrable ==> Coded(code + [CCHR, S.STAR], s.(items := s.items + [One(Chr(S.STAR))]), lastep) == true)
  {
    if s.starrable {
      StarFacts(s, lastep);
    } else {
      EncodeSnoc(s.items, One(Chr(S.STAR)));
    }
  }

  /** A star turns the code of the last item into that of the starred item. */
  lemma StarFacts(s: S.State, lastep: int)
    requires Coded(Encode(s.items), s, lastep) && s.starrable && !EndsInDollar(s)
    ensures var n, code := |s.items| - 1, Encode(s.items);
      && 0 <= lastep < |code| && code[lastep] !in {CBRA, CKET}
      && var s' := s.(items := s.items[..n] + [S.Starred(s.items[n])]);
      Coded(code[lastep := OrStar(code[lastep])], s', lastep) == true
  {
    var n := |s.items| - 1;
    var item, front := s.items[n], s.items[..n];
    var code, items' := Encode(s.items), front + [S.Starred(item)];
    assert items'[..n] == front;
    assert code == Encode(front) + Code(item);
    StarCode(item);
    assert Encode(items') == Encode(front) + Code(S.Starred(item)) by {
      EncodeSnoc(front, S.Starred(item));
    }
    assert code[lastep := OrStar(code[lastep])] == Encode(front) + Code(item)[0 := OrStar(Code(item)[0])];
  }

  lemma StarCode(item: Item)
    requires !item.Open? && !item.Close? && !item.Dollar?
    ensures Code(S.Starred(item)) == Code(item)[0 := OrStar(Code(item)[0])]
    ensures Code(item)[0] !in {CBRA, CKET}
  {
  }

  /** Reading on only adds code. */
  lemma {:induction false} ParseGrows(input: seq<int>, eof: int, p: nat, s: S.State)
    ensures var r := S.Parse(input, eof, p, s); r.Some? ==> |Encode(r.value.items)| >= |Encode(s.items)|
    decreases |input| - p
  {
    if p < |input| {
      var (t, q) := S.Lex(input, eof, p);
      if !t.Bad? && !t.End? {
        var s' := S.Step(s, t);
        if s'.Some? {
          ParseGrows(input, eof, q, s'.value);
          StepGrows(s, t);
        }
      }
    }
  }

  lemma StepGrows(s: S.State, t: S.Token)
    requires !t.Bad? && !t.End? && S.Step(s, t).Some?
    ensures |Encode(S.Step(s, t).value.items)| >= |Encode(s.items)|
  {
    var items := S.Step(s, t).value.items;
    if t.Repeat? && s.starrable && s.items != [] {
      var n := |s.items| - 1;
      assert items[..n] == s.items[..n];
    } else {
      assert items[..|items| - 1] == s.items;
    }
  }

  ghost predicate EndsInDollar(s: S.State) {
    s.starrable && s.items != [] && s.items[|s.items| - 1].Dollar?
  }

  /** The members of the bracket expression after its `[`. */
  function ClassText(input: seq<int>, p: nat): Option<(seq<int>, nat)> {
    S.ClassBody(input, if S.Read(input, p) == S.CARET then p + 1 else p, [])
  }

  /** Usable items, with every bracket number opened and closed at most once. */
  ghost predicate ItemsOk(items: seq<Item>) {
    && (forall n :: 0 <= n < |items| ==> ItemOk(items[n]))
    && (forall m, n :: 0 <= m < n < |items| && (items[m].Open? || items[m].Close?) ==> items[m] != items[n])
  }

  predicate IsBack(item: Item) {
    item.Back? || item.BackStar?
  }

  /** No back-reference is typed. */
  ghost predicate NoBacks(input: seq<int>, eof: int) {
    var m := S.Meaning(input, eof);
    m.Some? ==> forall item :: item in m.value.items ==> !IsBack(item)
  }

  /** A pattern without back-references is one that `execute` can run: its
      brackets are numbered below `NBRA` and none is opened or closed twice. */
  lemma MeaningUsable(input: seq<int>, eof: int)
    requires InputOk(input) && NoBacks(input, eof)
    ensures var m := S.Meaning(input, eof); m.Some? ==> ItemsOk(m.value.items)
  {
    if S.Meaning(input, eof).Some? {
      ParseNumbers(input, eof, if S.Read(input, 0) == S.CARET then 1 else 0, S.START);
    }
  }

  /** Bracket numbers below `nbra` have been given out; those on the stack have
      not been closed. */
  ghost predicate Numbered(s: S.State) {
    && s.nbra <= NBRA
    && (forall n :: 0 <= n < |s.items| ==> ItemOk(s.items[n]) || IsBack(s.items[n]))
    && (forall n :: 0 <= n < |s.items| && s.items[n].Open? ==> s.items[n].k < s.nbra)
    && (forall n :: 0 <= n < |s.items| && s.items[n].Close? ==> s.items[n].k < s.nbra && s.items[n].k !in s.open)
    && (forall j :: 0 <= j < |s.open| ==> s.open[j] < s.nbra)
    && (forall j, k :: 0 <= j < k < |s.open| ==> s.open[j] != s.open[k])
    && forall m, n :: 0 <= m < n < |s.items| && (s.items[m].Open? || s.items[m].Close?) ==> s.items[m] != s.items[n]
  }

  lemma {:induction false} ParseNumbers(input: seq<int>, eof: int, p: nat, s: S.State)
    requires InputOk(input) && Numbered(s)
    ensures var r := S.Parse(input, eof, p, s); r.Some? ==> Numbered(r.value)
    decreases |input| - p
  {
    if p < |input| {
      var (t, q) := S.Lex(input, eof, p);
      if !t.Bad? && !t.End? && S.Step(s, t).Some? {
        StepNumbers(s, t);
        ParseNumbers(input, eof, q, S.Step(s, t).value);
      }
    }
  }

  lemma StepNumbers(s: S.State, t: S.Token)
    requires Numbered(s) && !t.Bad? && !t.End? && S.Step(s, t).Some?
    requires t.Plain? ==> (ItemOk(t.item) || IsBack(t.item)) && !t.item.Open? && !t.item.Close?
    ensures Numbered(S.Step(s, t).value)
  {
    var s' := S.Step(s, t).value;
    if t.Repeat? && s.starrable && s.items != [] {
      NumbersStarred(s);
    } else if t.Begin? {
      NumbersAdded(s, Open(s.nbra), s.nbra + 1, s.open + [s.nbra], s');
    } else if t.Finish? {
      NumbersAdded(s, Close(S.Last(s.open)), s.nbra, s.open[..|s.open| - 1], s');
    } else {
      NumbersAdded(s, s'.items[|s.items|], s.nbra, s.open, s');
    }
  }

  lemma NumbersStarred(s: S.State)
    requires Numbered(s) && s.items != []
    ensures var n := |s.items| - 1;
      Numbered(s.(items := s.items[..n] + [S.Starred(s.items[n])]))
  {
  }

  lemma NumbersAdded(s: S.State, item: Item, nbra: nat, open: seq<nat>, s': S.State)
    requires Numbered(s) && (ItemOk(item) || IsBack(item)) && s' == S.State(s.items + [item], s'.starrable, open, nbra)
    requires if item.Open? then item.k == s.nbra && nbra == s.nbra + 1 <= NBRA && open == s.open + [s.nbra]
      else if item.Close? then s.open != [] && item.k == S.Last(s.open) && nbra == s.nbra && open == s.open[..|s.open| - 1]
      else nbra == s.nbra && open == s.open
    ensures Numbered(s')
  {
    if item.Close? {
      assert item.k in s.open;
    }
    forall j | j in open ensures j in s.open || j == s.nbra {
    }
  }

  /** The tables say where the brackets among the first items were met. */
  ghost predicate Marked(items: seq<Item>, cuts: seq<nat>, bras: seq<int>, braes: seq<int>) {
    forall n :: 0 <= n < |cuts| && n < |items| ==>
      (items[n].Open? && items[n].k < |bras| ==> bras[items[n].k] == cuts[n]) &&
      (items[n].Close? && items[n].k < |braes| ==> braes[items[n].k] == cuts[n])
  }

  /** Only entries of brackets among the items have changed. */
  ghost predicate Untouched(items: seq<Item>, bras: seq<int>, braes: seq<int>, bras': seq<int>, braes': seq<int>) {
    && |bras'| == |bras| && |braes'| == |braes|
    && (forall k :: 0 <= k < |bras| && Open(k) !in items ==> bras'[k] == bras[k])
    && (forall k :: 0 <= k < |braes| && Close(k) !in items ==> braes'[k] == braes[k])
  }

  lemma PrefixCons(done: seq<nat>, k: nat, r: Option<seq<nat>>)
    ensures Prefix(done, Cons(k, r)) == Prefix(done + [k], r)
  {
    if r.Some? {
      assert done + ([k] + r.value) == done + [k] + r.value;
    }
  }

  lemma StartJoin(i: nat, done: seq<nat>, cuts: seq<nat>)
    ensures Start(i, done + cuts, |done + cuts|) == Start(Start(i, done, |done|), cuts, |cuts|)
  {
  }

  /** What the rest of the items records does not disturb what was recorded before. */
  lemma MarkJoin(items: seq<Item>, done: seq<nat>, cuts: seq<nat>, b: seq<int>, e: seq<int>, b': seq<int>, e': seq<int>)
    requires ItemsOk(items) && |done| + |cuts| <= |items|
    requires Marked(items, done, b, e)
    requires Untouched(items[|done|..], b, e, b', e') || Untouched(items[|done|..|done| + |cuts|], b, e, b', e')
    requires Marked(items[|done|..], cuts, b', e')
    ensures Marked(items, done + cuts, b', e')
  {
    var c, rest := done + cuts, items[|done|..];
    forall n | 0 <= n < |c| && n < |items| ensures
      (items[n].Open? && items[n].k < |b'| ==> b'[items[n].k] == c[n]) &&
      (items[n].Close? && items[n].k < |e'| ==> e'[items[n].k] == c[n])
    {
      if n >= |done| {
        assert items[n] == rest[n - |done|] && c[n] == cuts[n - |done|];
      } else if items[n].Open? || items[n].Close? {
        assert items[n] !in rest by {
          forall m | 0 <= m < |rest| ensures rest[m] != items[n] {
            assert rest[m] == items[m + |done|];
          }
        }
        assert forall x :: x in items[|done|..|done| + |cuts|] ==> x in rest;
      }
    }
  }

  lemma UntouchedMore(items: seq<Item>, b: seq<int>, e: seq<int>, b': seq<int>, e': seq<int>, b'': seq<int>, e'': seq<int>)
    requires items != [] && Untouched(items, b, e, b', e') && Untouched(items[1..], b', e', b'', e'')
    ensures Untouched(items, b, e, b'', e'')
  {
    assert forall x :: x in items[1..] ==> x in items;
  }

  lemma UntouchedJoin(items: seq<Item>, n: nat, b: seq<int>, e: seq<int>, b': seq<int>, e': seq<int>, b'': seq<int>, e'': seq<int>)
    requires n <= |items|
    requires Untouched(items[..n], b, e, b', e') && Untouched(items[n..], b', e', b'', e'')
    ensures Untouched(items, b, e, b'', e'')
  {
    assert forall x :: x in items[..n] || x in items[n..] ==> x in items;
  }

  lemma PassFacts(line: seq<int>, items: seq<Item>, done: seq<nat>, rest: seq<Item>, lp: nat, lp': nat,
                  b: seq<int>, e: seq<int>, b': seq<int>, e': seq<int>)
    requires ItemsOk(items) == true && |done| + |rest| == |items| && rest != [] && rest == items[|done|..]
    requires lp <= |line| && Passes(rest[0], line, lp) && !rest[0].Star? && lp' == if rest[0].One? then lp + 1 else lp
    requires ItemOk(rest[0]) == true && Marked(items, done, b, e) == true && |b| == NBRA && |e| == NBRA
    requires b' == if rest[0].Open? then b[rest[0].k := lp] else b
    requires e' == if rest[0].Close? then e[rest[0].k := lp] else e
    ensures lp' <= |line| && ItemsOk(rest[1..]) && rest[1..] == items[|done| + 1..]
    ensures Prefix(done, Prefer(rest, line, lp)) == Prefix(done + [lp'], Prefer(rest[1..], line, lp'))
    ensures Marked(items, done + [lp'], b', e')
  {
    PrefixCons(done, lp', Prefer(rest[1..], line, lp'));
    StepUntouched(rest[0], lp, b, e, b', e');
    assert items[|done|..|done| + |[lp']|] == [rest[0]];
    MarkJoin(items, done, [lp'], b, e, b', e');
  }

  /** `advance` has matched the first items, which end at `done`, and has come to
      `lp`; the tables were `b` and `e` and are `b'` and `e'`. */
  ghost predicate Reached(line: seq<int>, lp0: nat, items: seq<Item>, done: seq<nat>, rest: seq<Item>, lp: nat,
                          b: seq<int>, e: seq<int>, b': seq<int>, e': seq<int>)
    requires lp0 <= |line|
  {
    && lp <= |line| && ItemsOk(rest)
    && |done| + |rest| == |items| && rest == items[|done|..]
    && lp == Start(lp0, done, |done|)
    && Prefer(items, line, lp0) == Prefix(done, Prefer(rest, line, lp))
    && Marked(items, done, b', e')
    && Untouched(items[..|done|], b, e, b', e')
  }

  /** What holds of an item that is not starred, once it has been tried. */
  lemma AdvancedItem(line: seq<int>, lp0: nat, items: seq<Item>, done: seq<nat>, rest: seq<Item>, lp: nat,
                     b: seq<int>, e: seq<int>, b0: seq<int>, e0: seq<int>, b': seq<int>, e': seq<int>)
    requires lp0 <= |line| && ItemsOk(items) == true && Reached(line, lp0, items, done, rest, lp, b, e, b0, e0) == true
    requires rest != [] && !rest[0].Star? && ItemOk(rest[0]) == true && |b0| == NBRA && |e0| == NBRA
    requires b' == if rest[0].Open? then b0[rest[0].k := lp] else b0
    requires e' == if rest[0].Close? then e0[rest[0].k := lp] else e0
    ensures Untouched(items, b, e, b', e') == true
    ensures !Passes(rest[0], line, lp) ==> Prefer(items, line, lp0) == None
    ensures Passes(rest[0], line, lp) ==>
      var lp' := if rest[0].One? then lp + 1 else lp;
      Reached(line, lp0, items, done + [lp'], rest[1..], lp', b, e, b', e') == true
  {
    assert |b| == |b0| && |e| == |e0| && rest[0] == items[|done|];
    hide Prefer, ItemsOk, Marked, Untouched;
    ItemUntouched(items, |done|, lp, b, e, b0, e0, b', e');
    if Passes(rest[0], line, lp) {
      var lp' := if rest[0].One? then lp + 1 else lp;
      PassFacts(line, items, done, rest, lp, lp', b0, e0, b', e');
      Reaches(line, lp0, items, done, lp', rest[1..], b, e, b', e');
    } else {
      FailFacts(rest[0], rest, line, lp);
    }
  }

  lemma Reaches(line: seq<int>, lp0: nat, items: seq<Item>, done: seq<nat>, lp: nat, rest: seq<Item>,
                b: seq<int>, e: seq<int>, b': seq<int>, e': seq<int>)
    requires lp0 <= |line| && lp <= |line| && ItemsOk(rest) == true && |done| + 1 + |rest| == |items| && rest == items[|done| + 1..]
    requires Prefer(items, line, lp0) == Prefix(done + [lp], Prefer(rest, line, lp))
    requires Marked(items, done + [lp], b', e') == true && Untouched(items[..|done| + 1], b, e, b', e') == true
    ensures Reached(line, lp0, items, done + [lp], rest, lp, b, e, b', e') == true
  {
    hide Prefer, ItemsOk, Marked, Untouched, Prefix;
    assert |done + [lp]| == |done| + 1;
  }

  lemma ItemUntouched(items: seq<Item>, n: nat, lp: int, b: seq<int>, e: seq<int>, b': seq<int>, e': seq<int>, b'': seq<int>, e'': seq<int>)
    requires n < |items| && ItemOk(items[n]) == true && |b| == NBRA && |e| == NBRA && Untouched(items[..n], b, e, b', e') == true
    requires b'' == if items[n].Open? then b'[items[n].k := lp] else b'
    requires e'' == if items[n].Close? then e'[items[n].k := lp] else e'
    ensures Untouched(items[..n + 1], b, e, b'', e'') && Untouched(items, b, e, b'', e'')
    ensures Untouched(items[n..n + 1], b', e', b'', e'')
  {
    assert items[n..n + 1] == [items[n]];
    StepUntouched(items[n], lp, b', e', b'', e'');
    var s := items[..n + 1];
    assert s[..n] == items[..n] && s[n..] == [items[n]];
    UntouchedJoin(s, n, b, e, b', e', b'', e'');
    assert forall x :: x in s ==> x in items;
  }

  lemma FailFacts(item: Item, items: seq<Item>, line: seq<int>, lp: nat)
    requires lp <= |line| && items != [] && items[0] == item && !item.Star? && !Passes(item, line, lp)
    ensures Prefer(items, line, lp) == None
  {
  }

  lemma StepUntouched(item: Item, lp: int, b: seq<int>, e: seq<int>, b': seq<int>, e': seq<int>)
    requires ItemOk(item) && |b| == NBRA && |e| == NBRA
    requires b' == if item.Open? then b[item.k := lp] else b
    requires e' == if item.Close? then e[item.k := lp] else e
    ensures Untouched([item], b, e, b', e')
  {
    assert item in [item];
  }

  /** An item that is not starred can go on from `i`. */
  predicate Passes(item: Item, line: seq<int>, i: nat) {
    match item
    case One(a) => i < |line| && In(a, line[i])
    case Dollar => i == |line|
    case _ => true
  }

  predicate AtomOk(a: Atom) {
    a.Chr? ==> a.c != 0
  }

  /** No back-reference, and every bracket number fits the tables. */
  predicate ItemOk(item: Item) {
    match item
    case One(a) => AtomOk(a)
    case Star(a) => AtomOk(a)
    case Open(k) => k < NBRA
    case Close(k) => k < NBRA
    case Dollar => true
    case _ => false
  }

  /** A line of the editor holds no NUL. */
  predicate LineOk(line: seq<int>) {
    forall i :: 0 <= i < |line| ==> line[i] != 0
  }
}
