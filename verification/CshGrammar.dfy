/** The grammar of the C shell's commands, and that its parser finds exactly the
    trees of the grammar. */
module CshGrammar {
  import opened Wrappers
  import opened CshSyntax

  // ------------------------------------------------------ segments without operators

  /** Parentheses that match. */
  ghost predicate Whole(ws: seq<Word>, i: nat, j: nat) {
    i <= j && Deep(ws, i, j) && Net(ws, i, j) == 0
  }

  predicate Alone(w: Word) {
    C(w, 0) == '&' && C(w, 1) != '&'
  }

  /** An `&` that belongs to the word before it. */
  predicate Led(ws: seq<Word>, i: nat, q: nat) {
    q > i && At(ws, q) == "&" && Leads(At(ws, q - 1))
  }

  predicate Leads(w: Word) {
    C(w, 0) == '>' || (C(w, 0) == '|' && C(w, 1) != '|')
  }

  /** No `&` outside parentheses. */
  ghost predicate Lone(ws: seq<Word>, i: nat, j: nat) {
    forall q :: i <= q < j && Net(ws, i, q) == 0 && Alone(At(ws, q)) ==> Led(ws, i, q)
  }

  /** No operator of a kind outside parentheses. */
  ghost predicate Quiet(ws: seq<Word>, op: Op, i: nat, j: nat) {
    forall q :: i <= q < j && Net(ws, i, q) == 0 ==> !IsOp(op, At(ws, q))
  }

  /** A segment that is part of only so many layers. */
  ghost predicate Clear(ws: seq<Word>, n: nat, i: nat, j: nat) {
    && Lone(ws, i, j)
    && (n >= 1 ==> Quiet(ws, Semi, i, j))
    && (n >= 2 ==> Quiet(ws, OrOr, i, j))
    && (n >= 3 ==> Quiet(ws, AndAnd, i, j))
    && (n >= 4 ==> Quiet(ws, Pipe, i, j))
  }

  // ------------------------------------------------------------ redirections

  /** The name of a file behind `<`. */
  predicate InAt(ws: seq<Word>, f: nat) {
    f > 0 && C(At(ws, f - 1), 0) == '<'
  }

  function InFlags(ws: seq<Word>, f: nat): set<Flag> {
    if f > 0 && C(At(ws, f - 1), 1) == '<' then {FHere} else {}
  }

  /** The name of a file behind `>`, `>&`, `>!` or `>&!`: where the `>` is. */
  function OutMark(ws: seq<Word>, g: nat): int {
    var g1 := if g > 0 && At(ws, g - 1) == "!" then g - 1 else g;
    if g1 > 0 && At(ws, g1 - 1) == "&" then g1 - 2 else g1 - 1
  }

  predicate OutAt(ws: seq<Word>, g: nat) {
    var o := OutMark(ws, g);
    && o >= 0 && C(At(ws, o), 0) == '>'
    && (o == g - 1 ==> At(ws, g) != "&")
    && (At(ws, g - 1) != "!" ==> At(ws, g) != "!")
  }

  function OutFlags(ws: seq<Word>, g: nat): set<Flag> {
    var o := OutMark(ws, g);
    (if o >= 0 && C(At(ws, o), 1) == '>' then {FCat} else {})
    + (if o >= 0 && o + 1 < g && At(ws, o + 1) == "&" then {FDiag} else {})
    + (if g > 0 && At(ws, g - 1) == "!" then {FAny} else {})
  }

  function Flags(ws: seq<Word>, j: nat, lef: Option<nat>, rit: Option<nat>): set<Flag> {
    (if C(At(ws, j), 0) == ')' then {FPar} else {})
    + (if lef.Some? then InFlags(ws, lef.value) else {})
    + (if rit.Some? then OutFlags(ws, rit.value) else {})
  }

  /** In a redirection. */
  predicate InFile(ws: seq<Word>, lef: Option<nat>, rit: Option<nat>, q: nat) {
    || (lef.Some? && lef.value - 1 <= q <= lef.value)
    || (rit.Some? && OutMark(ws, rit.value) <= q <= rit.value)
  }

  /** The redirections that a place allows. */
  predicate Directed(m: set<Mode>, lef: bool, rit: bool, flg: set<Flag>) {
    && (PIn in m ==> !lef)
    && (POut in m && PDiag !in m ==> !rit)
    && (PHere in m ==> FHere !in flg)
    && (FDiag in flg ==> POut !in m && PDiag !in m)
  }

  // ------------------------------------------------------------ the grammar

  ghost predicate Ascending(pos: seq<nat>, i: nat, p: nat) {
    && (forall a :: 0 <= a < |pos| ==> i <= pos[a] < p)
    && (forall a, b :: 0 <= a < b < |pos| ==> pos[a] < pos[b])
  }

  predicate Plain(w: Word) {
    C(w, 0) !in ";&|\n<>()"
  }

  /** The redirections of a segment, outside the parentheses that start at `b` or behind. */
  predicate Redirects(ws: seq<Word>, b: nat, i: nat, j: nat, lef: Option<nat>, rit: Option<nat>) {
    && (lef.Some? ==> i < lef.value < j && InAt(ws, lef.value) && Net(ws, b, lef.value - 1) == 0 && Plain(At(ws, lef.value)))
    && (rit.Some? ==> i <= OutMark(ws, rit.value) && rit.value < j && OutAt(ws, rit.value)
                      && Net(ws, b, OutMark(ws, rit.value)) == 0 && Plain(At(ws, rit.value)))
  }

  /** A segment of arguments and redirections. */
  ghost predicate Places(ws: seq<Word>, b: nat, i: nat, j: nat, pos: seq<nat>, lef: Option<nat>, rit: Option<nat>) {
    && Ascending(pos, i, j)
    && Redirects(ws, b, i, j, lef, rit)
    && forall q :: i <= q < j ==> Placed(ws, b, q, pos, lef, rit)
  }

  ghost predicate Placed(ws: seq<Word>, b: nat, q: nat, pos: seq<nat>, lef: Option<nat>, rit: Option<nat>) {
    if InFile(ws, lef, rit, q) then q !in pos
    else q in pos && (Net(ws, b, q) == 0 ==> Plain(At(ws, q)) || Turn(At(ws, q)) != 0)
  }

  ghost predicate Flat(ws: seq<Word>, i: nat, j: nat) {
    forall q :: i <= q < j ==> Turn(At(ws, q)) == 0
  }

  /** Words, and redirections; parentheses only behind some words. */
  ghost predicate IsCommand(ws: seq<Word>, i: nat, j: nat, m: set<Mode>, t: Tree, pos: seq<nat>, lef: Option<nat>, rit: Option<nat>) {
    && t == Com(Words(ws, pos), File(ws, lef), File(ws, rit), Flags(ws, j, lef, rit)) && pos != []
    && Directed(m, lef.Some?, rit.Some?, t.flg)
    && Whole(ws, i, j) && (Special(ws, i, j) || Flat(ws, i, j))
    && Places(ws, i, i, j, pos, lef, rit)
  }

  function Upto(f: Option<nat>, k: nat): Option<nat> {
    if f.Some? && f.value < k then f else None
  }

  function From(f: Option<nat>, k: nat): Option<nat> {
    if f.Some? && f.value >= k then f else None
  }

  /** Parentheses, and before and behind them only redirections. */
  ghost predicate IsSubshell(ws: seq<Word>, i: nat, p: nat, q: nat, j: nat, m: set<Mode>, t: Tree, lef: Option<nat>, rit: Option<nat>) {
    && t.Par? && t.lef == File(ws, lef) && t.rit == File(ws, rit) && t.flg == Flags(ws, j, lef, rit)
    && Directed(m, lef.Some?, rit.Some?, t.flg)
    && i <= p < q < j && C(At(ws, p), 0) == '(' && C(At(ws, q), 0) == ')'
    && Places(ws, i, i, p, [], Upto(lef, p), Upto(rit, p))
    && Places(ws, q + 1, q + 1, j, [], From(lef, p), From(rit, p))
  }

  datatype Layer = AList | ALine | ASemi | AnOr | AnAnd | APipe | AUnit

  function Rank(y: Layer): nat {
    match y
    case AList => 7
    case ALine => 6
    case ASemi => 5
    case AnOr => 4
    case AnAnd => 3
    case APipe => 2
    case AUnit => 1
  }

  /** Of a list that ends with `;` only the second part is there. */
  function Left(t: Tree): Tree
    requires t.Lst?
  {
    if t.car == Nil then t.cdr else t.car
  }

  function Right(t: Tree): Tree
    requires t.Lst?
  {
    if t.car == Nil then Nil else t.cdr
  }

  /** What the comments before the parsing functions say of a tree, with one layer
      for each function: the words of a segment are the words of the parts with
      the operator between them. */
  ghost predicate Parses(ws: seq<Word>, y: Layer, i: nat, j: nat, m: set<Mode>, t: Tree)
    decreases if y == AList && i < j && Separator(At(ws, i)) then 2 * (j - i) - 1 else 2 * (j - i), Rank(y)
  {
    match y
    case AList =>
      if i >= j then t == Nil
      else if Separator(At(ws, i)) then Parses(ws, AList, i + 1, j, m, t)
      else Parses(ws, ALine, i, j, m, t)
    case ALine =>
      || Parses(ws, ASemi, i, j, m, t)
      || (t.Lst? && exists k, u {:trigger Parses(ws, ASemi, i, k, m, u)} ::
            && i <= k < j && Alone(At(ws, k)) && t.car == Background(u)
            && Parses(ws, ASemi, i, k, m, u) && Parses(ws, AList, k + 1, j, m, t.cdr))
    case ASemi =>
      && Lone(ws, i, j)
      && (|| Parses(ws, AnOr, i, j, m, t)
          || (t.Lst? && (t.car == Nil || t.cdr != Nil)
              && exists k {:trigger Parses(ws, AnOr, i, k, m, Left(t))} ::
                && i <= k < j && IsOp(Semi, At(ws, k))
                && Parses(ws, AnOr, i, k, m, Left(t)) && Parses(ws, AList, k + 1, j, m, Right(t))))
    case AnOr =>
      || Parses(ws, AnAnd, i, j, m, t)
      || (t.Or? && exists k {:trigger Parses(ws, AnAnd, i, k, m, t.car)} ::
            && i <= k < j && IsOp(OrOr, At(ws, k))
            && Parses(ws, AnAnd, i, k, m, t.car) && Parses(ws, AnOr, k + 1, j, m, t.cdr))
    case AnAnd =>
      || Parses(ws, APipe, i, j, m, t)
      || (t.And? && exists k {:trigger Parses(ws, APipe, i, k, m, t.car)} ::
            && i <= k < j && IsOp(AndAnd, At(ws, k))
            && Parses(ws, APipe, i, k, m, t.car) && Parses(ws, AnAnd, k + 1, j, m, t.cdr))
    case APipe =>
      || Parses(ws, AUnit, i, j, m, t)
      || (t.Fil? && exists k {:trigger Parses(ws, AUnit, i, k, Before(m, Diag(ws, k, j)), t.car)} ::
            && i <= k < j && IsOp(Pipe, At(ws, k)) && !IsOp(OrOr, At(ws, k)) && (Diag(ws, k, j) ==> At(ws, k + 1) == "&")
            && t.flg == (if Diag(ws, k, j) then {FDiag} else {})
            && Parses(ws, AUnit, i, k, Before(m, Diag(ws, k, j)), t.car)
            && Parses(ws, APipe, if Diag(ws, k, j) then k + 2 else k + 1, j, m + {PIn}, t.cdr))
    case AUnit =>
      || (exists pos, lef, rit :: IsCommand(ws, i, j, m, t, pos, lef, rit))
      || (t.Par? && exists p: nat, q: nat, lef, rit {:trigger IsSubshell(ws, i, p, q, j, m, t, lef, rit)} ::
            IsSubshell(ws, i, p, q, j, m, t, lef, rit) && Parses(ws, ALine, p + 1, q, {PHere}, t.sub))
  }

  /** `|&` */
  predicate Diag(ws: seq<Word>, k: nat, j: nat) {
    k + 1 < j && C(At(ws, k + 1), 0) == '&'
  }

  /** Before a pipe. */
  function Before(m: set<Mode>, diag: bool): set<Mode> {
    m + if diag then {POut, PDiag} else {POut}
  }

  // ------------------------------------------------------------ levels of the parts

  lemma WholeEmpty(ws: seq<Word>, i: nat)
    ensures Whole(ws, i, i)
  {
  }

  lemma WholeJoin(ws: seq<Word>, i: nat, k: nat, j: nat)
    requires Whole(ws, i, k) && Whole(ws, k, j)
    ensures Whole(ws, i, j)
  {
    NetAdds(ws, i, k, j);
    forall q | i <= q <= j ensures Net(ws, i, q) >= 0 {
      if q > k {
        NetAdds(ws, i, k, q);
      }
    }
  }

  lemma WholeCons(ws: seq<Word>, k: nat, j: nat)
    requires k < j && Turn(At(ws, k)) == 0
    ensures Whole(ws, k, j) <==> Whole(ws, k + 1, j)
  {
    hide At;
    var n := k + 1;
    forall q | n <= q <= j ensures Net(ws, k, q) == Net(ws, n, q) {
    }
    if Whole(ws, k, j) {
      forall q | n <= q <= j ensures Net(ws, n, q) >= 0 {
        assert Net(ws, k, q) >= 0;
      }
    }
  }

  lemma FlatWhole(ws: seq<Word>, i: nat, j: nat)
    requires i <= j && Flat(ws, i, j)
    ensures Whole(ws, i, j) && forall q :: i <= q <= j ==> Net(ws, i, q) == 0
  {
    NetLevel(ws, i, i, j);
  }

  /** A segment in parentheses. */
  lemma WholeWrapped(ws: seq<Word>, p: nat, q: nat)
    requires p < q && C(At(ws, p), 0) == '(' && C(At(ws, q), 0) == ')' && Whole(ws, p + 1, q)
    ensures Whole(ws, p, q + 1) && forall k :: p < k <= q ==> Net(ws, p, k) > 0
  {
    var n := p + 1;
    forall k | n <= k <= q ensures Net(ws, p, k) == 1 + Net(ws, n, k) && Net(ws, p, k) > 0 {
      assert Net(ws, n, k) >= 0;
    }
    NetSnoc(ws, p, q);
  }

  /** The words of a segment behind a matching part. */
  lemma NetBehind(ws: seq<Word>, i: nat, k: nat)
    requires i <= k && Net(ws, i, k) == 0
    ensures forall q :: k <= q ==> Net(ws, i, q) == Net(ws, k, q)
  {
    forall q | k <= q ensures Net(ws, i, q) == Net(ws, k, q) {
      NetAdds(ws, i, k, q);
    }
  }

  /** Where no operator is. */
  predicate NoOp(n: nat, w: Word) {
    && !Alone(w)
    && (n >= 1 ==> !IsOp(Semi, w))
    && (n >= 2 ==> !IsOp(OrOr, w))
    && (n >= 3 ==> !IsOp(AndAnd, w))
    && (n >= 4 ==> !IsOp(Pipe, w))
  }

  lemma ClearJoin(ws: seq<Word>, n: nat, i: nat, k: nat, j: nat)
    requires i <= k <= j && Net(ws, i, k) == 0 && Clear(ws, n, i, k) && Clear(ws, n, k, j)
    ensures Clear(ws, n, i, j)
  {
    hide At, IsOp, Alone, Net;
    NetBehind(ws, i, k);
  }

  lemma ClearCons(ws: seq<Word>, n: nat, k: nat, j: nat)
    requires k < j && Turn(At(ws, k)) == 0 && NoOp(n, At(ws, k)) && Clear(ws, n, k + 1, j)
    ensures Clear(ws, n, k, j)
  {
    hide At, IsOp, Alone, Net;
    NetSnoc(ws, k, k);
    DeepNone(ws, k);
    NetBehind(ws, k, k + 1);
  }

  lemma ClearPart(ws: seq<Word>, n: nat, i: nat, k: nat, j: nat)
    requires i <= k <= j && Clear(ws, n, i, j)
    ensures Clear(ws, n, i, k)
  {
    hide At, IsOp, Alone, Net;
  }

  /** Behind an operator, unless that leads an `&`. */
  lemma ClearTail(ws: seq<Word>, n: nat, i: nat, k: nat, j: nat)
    requires i < k <= j && Net(ws, i, k) == 0 && Clear(ws, n, i, j)
    requires k < j && At(ws, k) == "&" ==> !Leads(At(ws, k - 1))
    ensures Clear(ws, n, k, j)
  {
    hide At, IsOp, Alone, Net, Leads;
    NetBehind(ws, i, k);
  }

  // ------------------------------------------------------------ what a parse tells of the words

  function Level(y: Layer): nat {
    match y
    case AnOr => 1
    case AnAnd => 2
    case APipe => 3
    case AUnit => 4
    case _ => 0
  }

  /** The last word calls for no other. */
  predicate Ended(ws: seq<Word>, j: nat) {
    j > 0 && !Leads(At(ws, j - 1)) && C(At(ws, j - 1), 0) != '|'
  }

  /** A word of a redirection. */
  lemma FileWord(ws: seq<Word>, b: nat, i: nat, j: nat, lef: Option<nat>, rit: Option<nat>, q: nat)
    requires Redirects(ws, b, i, j, lef, rit) && InFile(ws, lef, rit, q)
    ensures i <= q < j && Turn(At(ws, q)) == 0
    ensures NoOp(4, At(ws, q)) || Led(ws, i, q)
    ensures q == j - 1 ==> Plain(At(ws, q))
  {
    hide At, Net;
    assert C("&", 0) == '&' && C("&", 1) == '\0' && C("!", 0) == '!';
  }

  lemma PlacesClear(ws: seq<Word>, b: nat, i: nat, j: nat, pos: seq<nat>, lef: Option<nat>, rit: Option<nat>)
    requires b <= i <= j && Net(ws, b, i) == 0 && Places(ws, b, i, j, pos, lef, rit)
    ensures Clear(ws, 4, i, j)
  {
    hide At, Net, NoOp, Led, InFile, Redirects, Plain, Turn, Ascending;
    NetBehind(ws, b, i);
    forall q | i <= q < j && Net(ws, i, q) == 0 ensures NoOp(4, At(ws, q)) || Led(ws, i, q) {
      assert Placed(ws, b, q, pos, lef, rit);
      if InFile(ws, lef, rit, q) {
        FileWord(ws, b, i, j, lef, rit, q);
      } else {
        PlainNoOp(At(ws, q));
      }
    }
    NoOpsClear(ws, i, j);
  }

  lemma PlainNoOp(w: Word)
    requires Plain(w) || Turn(w) != 0
    ensures NoOp(4, w)
  {
  }

  lemma NoOpsClear(ws: seq<Word>, i: nat, j: nat)
    requires forall q :: i <= q < j && Net(ws, i, q) == 0 ==> NoOp(4, At(ws, q)) || Led(ws, i, q)
    ensures Clear(ws, 4, i, j)
  {
    hide At, Net;
    forall q | i <= q < j && Net(ws, i, q) == 0
      ensures Alone(At(ws, q)) ==> Led(ws, i, q)
      ensures !IsOp(Semi, At(ws, q)) && !IsOp(OrOr, At(ws, q)) && !IsOp(AndAnd, At(ws, q)) && !IsOp(Pipe, At(ws, q))
    {
      assert NoOp(4, At(ws, q)) || Led(ws, i, q);
      assert C("&", 0) == '&' && C("&", 1) == '\0';
    }
  }

  /** Redirections alone. */
  lemma FilesFlat(ws: seq<Word>, b: nat, i: nat, j: nat, lef: Option<nat>, rit: Option<nat>)
    requires i <= j && Places(ws, b, i, j, [], lef, rit)
    ensures Flat(ws, i, j) && (i < j ==> Plain(At(ws, j - 1)))
  {
    hide At, Net, Redirects, InFile, Led, NoOp, Plain, Turn;
    forall q | i <= q < j ensures InFile(ws, lef, rit, q) && Turn(At(ws, q)) == 0 && (q == j - 1 ==> Plain(At(ws, q))) {
      assert Placed(ws, b, q, [], lef, rit);
      FileWord(ws, b, i, j, lef, rit, q);
    }
  }

  lemma CommandFacts(ws: seq<Word>, i: nat, j: nat, m: set<Mode>, t: Tree, pos: seq<nat>, lef: Option<nat>, rit: Option<nat>)
    requires IsCommand(ws, i, j, m, t, pos, lef, rit)
    ensures i < j && Whole(ws, i, j) && Clear(ws, 4, i, j) && Ended(ws, j)
  {
    hide At, InFile, Redirects, NoOp, Led, Flags, Special, Deep;
    assert i <= pos[0] < j;
    WholeEmpty(ws, i);
    PlacesClear(ws, i, i, j, pos, lef, rit);
    NetSnoc(ws, i, j - 1);
    assert Placed(ws, i, j - 1, pos, lef, rit);
    if InFile(ws, lef, rit, j - 1) {
      FileWord(ws, i, i, j, lef, rit, j - 1);
    }
  }

  lemma SubshellFacts(ws: seq<Word>, i: nat, p: nat, q: nat, j: nat, m: set<Mode>, t: Tree, lef: Option<nat>, rit: Option<nat>)
    requires IsSubshell(ws, i, p, q, j, m, t, lef, rit) && Whole(ws, p + 1, q)
    ensures Whole(ws, i, j) && Clear(ws, 4, i, j) && Ended(ws, j)
  {
    hide At, Places, Flags, Clear, Flat, Whole;
    FilesFlat(ws, i, i, p, Upto(lef, p), Upto(rit, p));
    FlatWhole(ws, i, p);
    FilesFlat(ws, q + 1, q + 1, j, From(lef, p), From(rit, p));
    FlatWhole(ws, q + 1, j);
    WholeWrapped(ws, p, q);
    WholeJoin(ws, p, q + 1, j);
    WholeJoin(ws, i, p, j);
    WholeEmpty(ws, i);
    WholeEmpty(ws, q + 1);
    WholeNet(ws, i, i); WholeNet(ws, q + 1, q + 1); WholeNet(ws, i, p); WholeNet(ws, p, q + 1);
    PlacesClear(ws, i, i, p, [], Upto(lef, p), Upto(rit, p));
    PlacesClear(ws, q + 1, q + 1, j, [], From(lef, p), From(rit, p));
    WrappedClear(ws, p, q);
    ClearJoin(ws, 4, p, q + 1, j);
    ClearJoin(ws, 4, i, p, j);
  }

  lemma WholeNet(ws: seq<Word>, i: nat, j: nat)
    requires Whole(ws, i, j)
    ensures i <= j && Net(ws, i, j) == 0 && Deep(ws, i, j)
  {
  }

  lemma WrappedClear(ws: seq<Word>, p: nat, q: nat)
    requires p < q && C(At(ws, p), 0) == '(' && C(At(ws, q), 0) == ')'
    requires forall k :: p < k <= q ==> Net(ws, p, k) > 0
    ensures Clear(ws, 4, p, q + 1)
  {
    hide At, Net;
    forall k | p <= k < q + 1 && Net(ws, p, k) == 0 ensures NoOp(4, At(ws, k)) {
      assert k == p;
    }
    NoOpsClear(ws, p, q + 1);
  }

  /** What a parse tells of the words: their parentheses match, and outside them is no
      operator of an outer layer. */
  lemma {:induction false} ParsesFacts(ws: seq<Word>, y: Layer, i: nat, j: nat, m: set<Mode>, t: Tree)
    requires i <= j && Parses(ws, y, i, j, m, t)
    ensures Whole(ws, i, j) && (i < j ==> Ended(ws, j))
    ensures y != AList ==> i < j && t != Nil
    ensures y != AList && y != ALine ==> Clear(ws, Level(y), i, j)
    decreases if y == AList && i < j && Separator(At(ws, i)) then 2 * (j - i) - 1 else 2 * (j - i), Rank(y), 1
  {
    hide Whole, Clear, Ended, Parses;
    match y
    case AList => ListFacts(ws, i, j, m, t);
    case ALine => LineFacts(ws, i, j, m, t);
    case ASemi => SemiFacts(ws, i, j, m, t);
    case AnOr => OrFacts(ws, i, j, m, t);
    case AnAnd => AndFacts(ws, i, j, m, t);
    case APipe => PipeFacts(ws, i, j, m, t);
    case AUnit => UnitFacts(ws, i, j, m, t);
  }

  lemma {:induction false} LineFacts(ws: seq<Word>, i: nat, j: nat, m: set<Mode>, t: Tree)
    requires i <= j && Parses(ws, ALine, i, j, m, t)
    ensures Whole(ws, i, j) && i < j && Ended(ws, j) && t != Nil
    decreases 2 * (j - i), Rank(ALine), 0
  {
    hide Whole, Clear, Ended, Net, Alone, At;
    if Parses(ws, ASemi, i, j, m, t) {
      ParsesFacts(ws, ASemi, i, j, m, t);
    } else {
      var k, u :| i <= k < j && Alone(At(ws, k)) && t.car == Background(u)
                  && Parses(ws, ASemi, i, k, m, u) && Parses(ws, AList, k + 1, j, m, t.cdr);
      ParsesFacts(ws, ASemi, i, k, m, u);
      ParsesFacts(ws, AList, k + 1, j, m, t.cdr);
      AloneFacts(ws, k);
      JoinFacts(ws, i, k, k + 1, j);
    }
  }

  lemma {:induction false} OrFacts(ws: seq<Word>, i: nat, j: nat, m: set<Mode>, t: Tree)
    requires i <= j && Parses(ws, AnOr, i, j, m, t)
    ensures Whole(ws, i, j) && i < j && Ended(ws, j) && t != Nil && Clear(ws, 1, i, j)
    decreases 2 * (j - i), Rank(AnOr), 0
  {
    hide Whole, Clear, Ended, Net, IsOp, Alone, At;
    if Parses(ws, AnAnd, i, j, m, t) {
      ParsesFacts(ws, AnAnd, i, j, m, t);
      ClearLess(ws, 2, 1, i, j);
    } else {
      var k :| i <= k < j && IsOp(OrOr, At(ws, k)) && Parses(ws, AnAnd, i, k, m, t.car) && Parses(ws, AnOr, k + 1, j, m, t.cdr);
      ParsesFacts(ws, AnAnd, i, k, m, t.car);
      ParsesFacts(ws, AnOr, k + 1, j, m, t.cdr);
      OpFacts(ws, OrOr, k);
      JoinFacts(ws, i, k, k + 1, j);
      ClearParts(ws, 1, i, k, j, 2);
    }
  }

  lemma {:induction false} AndFacts(ws: seq<Word>, i: nat, j: nat, m: set<Mode>, t: Tree)
    requires i <= j && Parses(ws, AnAnd, i, j, m, t)
    ensures Whole(ws, i, j) && i < j && Ended(ws, j) && t != Nil && Clear(ws, 2, i, j)
    decreases 2 * (j - i), Rank(AnAnd), 0
  {
    hide Whole, Clear, Ended, Net, IsOp, Alone, At;
    if Parses(ws, APipe, i, j, m, t) {
      ParsesFacts(ws, APipe, i, j, m, t);
      ClearLess(ws, 3, 2, i, j);
    } else {
      var k :| i <= k < j && IsOp(AndAnd, At(ws, k)) && Parses(ws, APipe, i, k, m, t.car) && Parses(ws, AnAnd, k + 1, j, m, t.cdr);
      ParsesFacts(ws, APipe, i, k, m, t.car);
      ParsesFacts(ws, AnAnd, k + 1, j, m, t.cdr);
      OpFacts(ws, AndAnd, k);
      JoinFacts(ws, i, k, k + 1, j);
      ClearParts(ws, 2, i, k, j, 3);
    }
  }

  lemma {:induction false} UnitFacts(ws: seq<Word>, i: nat, j: nat, m: set<Mode>, t: Tree)
    requires i <= j && Parses(ws, AUnit, i, j, m, t)
    ensures Whole(ws, i, j) && i < j && Ended(ws, j) && t != Nil && Clear(ws, 4, i, j)
    decreases 2 * (j - i), Rank(AUnit), 0
  {
    hide Whole, Clear, Ended, IsCommand, IsSubshell;
    if pos, lef, rit :| IsCommand(ws, i, j, m, t, pos, lef, rit) {
      CommandFacts(ws, i, j, m, t, pos, lef, rit);
      IsCom(ws, i, j, m, t, pos, lef, rit);
    } else {
      var p: nat, q: nat, lef, rit :| IsSubshell(ws, i, p, q, j, m, t, lef, rit) && Parses(ws, ALine, p + 1, q, {PHere}, t.sub);
      ShellSpan(ws, i, p, q, j, m, t, lef, rit);
      ParsesFacts(ws, ALine, p + 1, q, {PHere}, t.sub);
      SubshellFacts(ws, i, p, q, j, m, t, lef, rit);
    }
  }

  lemma IsCom(ws: seq<Word>, i: nat, j: nat, m: set<Mode>, t: Tree, pos: seq<nat>, lef: Option<nat>, rit: Option<nat>)
    requires IsCommand(ws, i, j, m, t, pos, lef, rit)
    ensures t.Com?
  {
  }

  lemma ShellSpan(ws: seq<Word>, i: nat, p: nat, q: nat, j: nat, m: set<Mode>, t: Tree, lef: Option<nat>, rit: Option<nat>)
    requires IsSubshell(ws, i, p, q, j, m, t, lef, rit)
    ensures i <= p < q < j
  {
  }

  lemma OpFacts(ws: seq<Word>, op: Op, k: nat)
    requires IsOp(op, At(ws, k))
    ensures Turn(At(ws, k)) == 0 && !Alone(At(ws, k))
    ensures op == OrOr ==> NoOp(1, At(ws, k))
    ensures op == AndAnd ==> NoOp(2, At(ws, k))
    ensures op == Semi ==> NoOp(0, At(ws, k))
    ensures op == Pipe && !IsOp(OrOr, At(ws, k)) ==> NoOp(3, At(ws, k)) && Leads(At(ws, k))
    ensures op == Semi || op == AndAnd ==> Ended(ws, k + 1)
  {
  }

  lemma ClearLess(ws: seq<Word>, n: nat, n': nat, i: nat, j: nat)
    requires Clear(ws, n, i, j) && n' <= n
    ensures Clear(ws, n', i, j)
  {
    hide Lone, Quiet;
  }

  /** Two parts and an operator. */
  lemma JoinFacts(ws: seq<Word>, i: nat, k: nat, n: nat, j: nat)
    requires i <= k < n <= j && Whole(ws, i, k) && Whole(ws, n, j) && Flat(ws, k, n)
    requires Ended(ws, if n < j then j else n)
    ensures Whole(ws, i, j) && Ended(ws, j)
  {
    hide Whole, Ended;
    FlatWhole(ws, k, n);
    WholeJoin(ws, i, k, n);
    WholeJoin(ws, i, n, j);
  }

  lemma AloneFacts(ws: seq<Word>, k: nat)
    requires Alone(At(ws, k))
    ensures Turn(At(ws, k)) == 0 && Ended(ws, k + 1)
  {
  }

  lemma ClearParts(ws: seq<Word>, n: nat, i: nat, k: nat, j: nat, n': nat)
    requires k < j && Whole(ws, i, k) && Clear(ws, n', i, k) && n <= n'
    requires Turn(At(ws, k)) == 0 && NoOp(n, At(ws, k)) && Clear(ws, n, k + 1, j)
    ensures Clear(ws, n, i, j)
  {
    hide Clear, NoOp, Turn, At;
    ClearLess(ws, n', n, i, k);
    ClearCons(ws, n, k, j);
    ClearJoin(ws, n, i, k, j);
  }

  lemma SeparatorFacts(ws: seq<Word>, k: nat)
    requires Separator(At(ws, k))
    ensures Turn(At(ws, k)) == 0 && Ended(ws, k + 1)
  {
  }

  lemma {:induction false} ListFacts(ws: seq<Word>, i: nat, j: nat, m: set<Mode>, t: Tree)
    requires i <= j && Parses(ws, AList, i, j, m, t)
    ensures Whole(ws, i, j) && (i < j ==> Ended(ws, j))
    decreases if i < j && Separator(At(ws, i)) then 2 * (j - i) - 1 else 2 * (j - i), Rank(AList), 0
  {
    hide Whole, Ended, Net, Separator;
    if i == j {
      WholeEmpty(ws, i);
    } else if Separator(At(ws, i)) {
      SeparatorFacts(ws, i);
      ListFacts(ws, i + 1, j, m, t);
      WholeCons(ws, i, j);
    } else {
      ParsesFacts(ws, ALine, i, j, m, t);
    }
  }

  lemma {:induction false} SemiFacts(ws: seq<Word>, i: nat, j: nat, m: set<Mode>, t: Tree)
    requires i <= j && Parses(ws, ASemi, i, j, m, t)
    ensures Whole(ws, i, j) && i < j && Ended(ws, j) && t != Nil && Clear(ws, 0, i, j)
    decreases 2 * (j - i), Rank(ASemi), 0
  {
    hide Whole, Ended, Net, Lone, Quiet, IsOp, Alone, At;
    assert Lone(ws, i, j);
    if Parses(ws, AnOr, i, j, m, t) {
      ParsesFacts(ws, AnOr, i, j, m, t);
    } else {
      var k :| i <= k < j && IsOp(Semi, At(ws, k)) && Parses(ws, AnOr, i, k, m, Left(t)) && Parses(ws, AList, k + 1, j, m, Right(t));
      ParsesFacts(ws, AnOr, i, k, m, Left(t));
      ParsesFacts(ws, AList, k + 1, j, m, Right(t));
      OpFacts(ws, Semi, k);
      JoinFacts(ws, i, k, k + 1, j);
    }
  }

  lemma {:induction false} PipeFacts(ws: seq<Word>, i: nat, j: nat, m: set<Mode>, t: Tree)
    requires i <= j && Parses(ws, APipe, i, j, m, t)
    ensures Whole(ws, i, j) && i < j && Ended(ws, j) && t != Nil && Clear(ws, 3, i, j)
    decreases 2 * (j - i), Rank(APipe), 0
  {
    hide Whole, Ended, Net, Clear, IsOp, Alone, At, IsCommand, IsSubshell;
    if Parses(ws, AUnit, i, j, m, t) {
      ParsesFacts(ws, AUnit, i, j, m, t);
      ClearLess(ws, 4, 3, i, j);
    } else {
      var k :| i <= k < j && IsOp(Pipe, At(ws, k)) && !IsOp(OrOr, At(ws, k)) && (Diag(ws, k, j) ==> At(ws, k + 1) == "&")
                && Parses(ws, AUnit, i, k, Before(m, Diag(ws, k, j)), t.car)
                && Parses(ws, APipe, if Diag(ws, k, j) then k + 2 else k + 1, j, m + {PIn}, t.cdr);
      var n := if Diag(ws, k, j) then k + 2 else k + 1;
      ParsesFacts(ws, AUnit, i, k, Before(m, Diag(ws, k, j)), t.car);
      ParsesFacts(ws, APipe, n, j, m + {PIn}, t.cdr);
      OpFacts(ws, Pipe, k);
      if Diag(ws, k, j) {
        AmpClear(ws, k, j);
      } else {
        ClearCons(ws, 3, k, j);
      }
      JoinFacts(ws, i, k, n, j);
      ClearLess(ws, 4, 3, i, k);
      WholeNet(ws, i, k);
      ClearJoin(ws, 3, i, k, j);
    }
  }

  /** `|&` */
  lemma AmpClear(ws: seq<Word>, k: nat, j: nat)
    requires k + 2 <= j && Leads(At(ws, k)) && NoOp(3, At(ws, k)) && At(ws, k + 1) == "&" && Clear(ws, 3, k + 2, j)
    requires Turn(At(ws, k)) == 0
    ensures Turn(At(ws, k + 1)) == 0 && Clear(ws, 3, k, j)
  {
    var w := At(ws, k + 1);
    assert C(w, 0) == '&' && C(w, 1) == '\0';
    hide At, C, Leads, Net;
    NetSnoc(ws, k, k);
    NetSnoc(ws, k, k + 1);
    DeepNone(ws, k);
    NetBehind(ws, k, k + 2);
  }

  // ------------------------------------------------------------ every tree of the grammar is found

  lemma {:induction false} FindAt(ws: seq<Word>, op: Op, i: nat, p: nat, k: nat, j: nat)
    requires i <= p <= k <= j && Quiet(ws, op, i, k) && Net(ws, i, k) == 0 && (k == j || IsOp(op, At(ws, k)))
    ensures Find(ws, op, p, j, Net(ws, i, p)) == k
    decreases k - p
  {
    NetSnoc(ws, i, p);
    if p < k {
      FindAt(ws, op, i, p + 1, k, j);
    }
  }

  lemma Found(ws: seq<Word>, op: Op, n: nat, i: nat, k: nat, j: nat)
    requires i <= k <= j && Whole(ws, i, k) && Clear(ws, n, i, k) && (k == j || IsOp(op, At(ws, k)))
    requires match op case Semi => n >= 1 case OrOr => n >= 2 case AndAnd => n >= 3 case Pipe => n >= 4
    ensures Find(ws, op, i, j, 0) == k
  {
    DeepNone(ws, i);
    FindAt(ws, op, i, i, k, j);
  }

  lemma {:induction false} AmpAt(ws: seq<Word>, i: nat, p: nat, k: nat, j: nat)
    requires i <= p <= k <= j && Lone(ws, i, k) && Whole(ws, i, k)
    requires k == j || (Alone(At(ws, k)) && Ended(ws, k))
    requires p == i || p == k || !Leads(At(ws, p - 1)) || At(ws, p) != "&"
    ensures Amp(ws, p, j, Net(ws, i, p), None) == (k, 0, None)
    decreases k - p
  {
    hide Lone, Whole, Alone, Ended, Led, Net, Leads;
    WholeNet(ws, i, k);
    var w := At(ws, p);
    assert Leads(w) <==> C(w, 0) == '>' || (C(w, 0) == '|' && C(w, 1) != '|') by { LeadsMeans(w); }
    assert Alone(w) <==> C(w, 0) == '&' && C(w, 1) != '&' by { AloneMeans(w); }
    NetSnoc(ws, i, p);
    if p < k {
      if Leads(w) && p + 1 < j && At(ws, p + 1) == "&" {
        EndedMeans(ws, k);
        AmpAmp(ws, i, p);
        AmpAt(ws, i, p + 2, k, j);
      } else {
        if Alone(w) && Net(ws, i, p) == 0 {
          LoneMeans(ws, i, k, p);
        }
        DeepAt(ws, i, p + 1, k);
        AmpAt(ws, i, p + 1, k, j);
      }
    }
  }

  lemma LeadsMeans(w: Word)
    ensures Leads(w) <==> C(w, 0) == '>' || (C(w, 0) == '|' && C(w, 1) != '|')
  {
  }

  lemma AloneMeans(w: Word)
    ensures Alone(w) <==> C(w, 0) == '&' && C(w, 1) != '&'
  {
  }

  lemma EndedMeans(ws: seq<Word>, k: nat)
    ensures Ended(ws, k) ==> k > 0 && !Leads(At(ws, k - 1))
  {
  }

  lemma AmpAmp(ws: seq<Word>, i: nat, p: nat)
    requires i <= p && Leads(At(ws, p)) && At(ws, p + 1) == "&"
    ensures Net(ws, i, p + 2) == Net(ws, i, p) && !Leads(At(ws, p + 1))
  {
    NetSnoc(ws, i, p);
    NetSnoc(ws, i, p + 1);
  }

  lemma LoneMeans(ws: seq<Word>, i: nat, k: nat, p: nat)
    requires i <= p < k && Lone(ws, i, k) && Net(ws, i, p) == 0 && Alone(At(ws, p))
    ensures p > i && At(ws, p) == "&" && Leads(At(ws, p - 1))
  {
  }

  lemma DeepAt(ws: seq<Word>, i: nat, p: nat, k: nat)
    requires i <= p <= k && Whole(ws, i, k)
    ensures Net(ws, i, p) >= 0
  {
  }

  /** The parser finds every tree of the grammar, and flags no error. */
  lemma {:induction false} Complete(ws: seq<Word>, y: Layer, i: nat, j: nat, m: set<Mode>, t: Tree)
    requires i <= j && Parses(ws, y, i, j, m, t)
    ensures Parse(ws, y, i, j, m) == Done(t, None)
    decreases if y == AList && i < j && Separator(At(ws, i)) then 2 * (j - i) - 1 else 2 * (j - i), Rank(y), 1
  {
    hide Parses, Syntax, Syn0, Syn1, Syn1a, Syn1b, Syn2, Syn3;
    match y
    case AList => ListComplete(ws, i, j, m, t);
    case ALine => LineComplete(ws, i, j, m, t);
    case ASemi => SemiComplete(ws, i, j, m, t);
    case AnOr => OrComplete(ws, i, j, m, t);
    case AnAnd => AndComplete(ws, i, j, m, t);
    case APipe => PipeComplete(ws, i, j, m, t);
    case AUnit => UnitComplete(ws, i, j, m, t);
  }

  /** The parsing function of a layer. */
  function Parse(ws: seq<Word>, y: Layer, i: nat, j: nat, m: set<Mode>): Res
    requires i <= j
  {
    match y
    case AList => Syntax(ws, i, j, m)
    case ALine => Syn0(ws, i, j, m)
    case ASemi => Syn1(ws, i, j, m)
    case AnOr => Syn1a(ws, i, j, m)
    case AnAnd => Syn1b(ws, i, j, m)
    case APipe => Syn2(ws, i, j, m)
    case AUnit => Syn3(ws, i, j, m)
  }

  lemma {:induction false} ListComplete(ws: seq<Word>, i: nat, j: nat, m: set<Mode>, t: Tree)
    requires i <= j && Parses(ws, AList, i, j, m, t)
    ensures Syntax(ws, i, j, m) == Done(t, None)
    decreases if i < j && Separator(At(ws, i)) then 2 * (j - i) - 1 else 2 * (j - i), Rank(AList), 0
  {
    hide Syn0, Separator, At;
    if i < j {
      if Separator(At(ws, i)) {
        ListComplete(ws, i + 1, j, m, t);
      } else {
        Complete(ws, ALine, i, j, m, t);
      }
    }
  }

  lemma {:induction false} LineComplete(ws: seq<Word>, i: nat, j: nat, m: set<Mode>, t: Tree)
    requires i <= j && Parses(ws, ALine, i, j, m, t)
    ensures Syn0(ws, i, j, m) == Done(t, None)
    decreases 2 * (j - i), Rank(ALine), 0
  {
    hide Syn1, Amp, Syntax, Background, Alone, At, Clear, Whole, Ended, Lone, Net;
    DeepNone(ws, i);
    if Parses(ws, ASemi, i, j, m, t) {
      ParsesFacts(ws, ASemi, i, j, m, t);
      ClearLone(ws, i, j);
      AmpAt(ws, i, i, j, j);
      Complete(ws, ASemi, i, j, m, t);
    } else {
      var k, u :| i <= k < j && Alone(At(ws, k)) && t.car == Background(u)
                  && Parses(ws, ASemi, i, k, m, u) && Parses(ws, AList, k + 1, j, m, t.cdr);
      ParsesFacts(ws, ASemi, i, k, m, u);
      ClearLone(ws, i, k);
      AmpAt(ws, i, i, k, j);
      Complete(ws, ASemi, i, k, m, u);
      Complete(ws, AList, k + 1, j, m, t.cdr);
      SyntaxSkips(ws, k, j, m);
    }
  }

  lemma ClearLone(ws: seq<Word>, i: nat, j: nat)
    requires Clear(ws, 0, i, j)
    ensures Lone(ws, i, j)
  {
  }

  lemma SyntaxSkips(ws: seq<Word>, k: nat, j: nat, m: set<Mode>)
    requires k < j && Alone(At(ws, k))
    ensures Syntax(ws, k, j, m) == Syntax(ws, k + 1, j, m)
  {
  }

  lemma {:induction false} SemiComplete(ws: seq<Word>, i: nat, j: nat, m: set<Mode>, t: Tree)
    requires i <= j && Parses(ws, ASemi, i, j, m, t)
    ensures Syn1(ws, i, j, m) == Done(t, None)
    decreases 2 * (j - i), Rank(ASemi), 0
  {
    hide Syn1a, Find, Syntax, IsOp, At, Clear, Whole, Ended, Lone;
    if Parses(ws, AnOr, i, j, m, t) {
      ParsesFacts(ws, AnOr, i, j, m, t);
      Found(ws, Semi, 1, i, j, j);
      Complete(ws, AnOr, i, j, m, t);
    } else {
      var k :| i <= k < j && IsOp(Semi, At(ws, k)) && Parses(ws, AnOr, i, k, m, Left(t)) && Parses(ws, AList, k + 1, j, m, Right(t));
      ParsesFacts(ws, AnOr, i, k, m, Left(t));
      Found(ws, Semi, 1, i, k, j);
      Complete(ws, AnOr, i, k, m, Left(t));
      Complete(ws, AList, k + 1, j, m, Right(t));
    }
  }

  lemma {:induction false} OrComplete(ws: seq<Word>, i: nat, j: nat, m: set<Mode>, t: Tree)
    requires i <= j && Parses(ws, AnOr, i, j, m, t)
    ensures Syn1a(ws, i, j, m) == Done(t, None)
    decreases 2 * (j - i), Rank(AnOr), 0
  {
    hide Syn1b, Find, IsOp, At, Clear, Whole, Ended;
    if Parses(ws, AnAnd, i, j, m, t) {
      ParsesFacts(ws, AnAnd, i, j, m, t);
      Found(ws, OrOr, 2, i, j, j);
      Complete(ws, AnAnd, i, j, m, t);
    } else {
      var k :| i <= k < j && IsOp(OrOr, At(ws, k)) && Parses(ws, AnAnd, i, k, m, t.car) && Parses(ws, AnOr, k + 1, j, m, t.cdr);
      ParsesFacts(ws, AnAnd, i, k, m, t.car);
      Found(ws, OrOr, 2, i, k, j);
      Complete(ws, AnAnd, i, k, m, t.car);
      Complete(ws, AnOr, k + 1, j, m, t.cdr);
    }
  }

  lemma {:induction false} AndComplete(ws: seq<Word>, i: nat, j: nat, m: set<Mode>, t: Tree)
    requires i <= j && Parses(ws, AnAnd, i, j, m, t)
    ensures Syn1b(ws, i, j, m) == Done(t, None)
    decreases 2 * (j - i), Rank(AnAnd), 0
  {
    hide Syn2, Find, IsOp, At, Clear, Whole, Ended;
    if Parses(ws, APipe, i, j, m, t) {
      ParsesFacts(ws, APipe, i, j, m, t);
      Found(ws, AndAnd, 3, i, j, j);
      Complete(ws, APipe, i, j, m, t);
    } else {
      var k :| i <= k < j && IsOp(AndAnd, At(ws, k)) && Parses(ws, APipe, i, k, m, t.car) && Parses(ws, AnAnd, k + 1, j, m, t.cdr);
      ParsesFacts(ws, APipe, i, k, m, t.car);
      Found(ws, AndAnd, 3, i, k, j);
      Complete(ws, APipe, i, k, m, t.car);
      Complete(ws, AnAnd, k + 1, j, m, t.cdr);
    }
  }

  lemma {:induction false} PipeComplete(ws: seq<Word>, i: nat, j: nat, m: set<Mode>, t: Tree)
    requires i <= j && Parses(ws, APipe, i, j, m, t)
    ensures Syn2(ws, i, j, m) == Done(t, None)
    decreases 2 * (j - i), Rank(APipe), 0
  {
    hide Syn3, Find, IsOp, At, Clear, Whole, Ended, IsCommand, IsSubshell;
    if Parses(ws, AUnit, i, j, m, t) {
      ParsesFacts(ws, AUnit, i, j, m, t);
      Found(ws, Pipe, 4, i, j, j);
      Complete(ws, AUnit, i, j, m, t);
    } else {
      var k :| i <= k < j && IsOp(Pipe, At(ws, k)) && t.flg == (if Diag(ws, k, j) then {FDiag} else {})
                && Parses(ws, AUnit, i, k, Before(m, Diag(ws, k, j)), t.car)
                && Parses(ws, APipe, if Diag(ws, k, j) then k + 2 else k + 1, j, m + {PIn}, t.cdr);
      ParsesFacts(ws, AUnit, i, k, Before(m, Diag(ws, k, j)), t.car);
      Found(ws, Pipe, 4, i, k, j);
      Complete(ws, AUnit, i, k, Before(m, Diag(ws, k, j)), t.car);
      Complete(ws, APipe, if Diag(ws, k, j) then k + 2 else k + 1, j, m + {PIn}, t.cdr);
    }
  }

  lemma {:induction false} UnitComplete(ws: seq<Word>, i: nat, j: nat, m: set<Mode>, t: Tree)
    requires i <= j && Parses(ws, AUnit, i, j, m, t)
    ensures Syn3(ws, i, j, m) == Done(t, None)
    decreases 2 * (j - i), Rank(AUnit), 0
  {
    hide Whole, Clear, Ended, IsCommand, IsSubshell, Syn3;
    if pos, lef, rit :| IsCommand(ws, i, j, m, t, pos, lef, rit) {
      CommandFound(ws, i, j, m, t, pos, lef, rit);
    } else {
      var p: nat, q: nat, lef, rit :| IsSubshell(ws, i, p, q, j, m, t, lef, rit) && Parses(ws, ALine, p + 1, q, {PHere}, t.sub);
      ShellSpan(ws, i, p, q, j, m, t, lef, rit);
      Complete(ws, ALine, p + 1, q, {PHere}, t.sub);
      ParsesFacts(ws, ALine, p + 1, q, {PHere}, t.sub);
      SubshellFound(ws, i, p, q, j, m, t, lef, rit);
    }
  }

  // ------------------------------------------------------------ and every simple command

  function Either(a: Option<nat>, b: Option<nat>): Option<nat> {
    if a.Some? then a else b
  }

  function FileFlags(ws: seq<Word>, lef: Option<nat>, rit: Option<nat>): set<Flag> {
    (if lef.Some? then InFlags(ws, lef.value) else {}) + (if rit.Some? then OutFlags(ws, rit.value) else {})
  }

  /** A stretch begins with an argument, */
  lemma WordFirst(ws: seq<Word>, b: nat, p: nat, c: nat, pos: seq<nat>, lef: Option<nat>, rit: Option<nat>)
    requires b <= p < c && Places(ws, b, p, c, pos, lef, rit) && !InFile(ws, lef, rit, p)
    ensures pos != [] && pos[0] == p && Places(ws, b, p + 1, c, pos[1..], lef, rit)
    ensures Net(ws, b, p) == 0 ==> Plain(At(ws, p)) || Turn(At(ws, p)) != 0
  {
    hide At, Net, OutAt, Plain;
    assert Placed(ws, b, p, pos, lef, rit);
    assert pos[0] == p;
    var n := p + 1;
    forall q | n <= q < c ensures Placed(ws, b, q, pos[1..], lef, rit) {
      assert Placed(ws, b, q, pos, lef, rit);
      if q in pos {
        assert q in pos[1..];
      }
    }
  }

  /** or with the name of a file to read from, */
  lemma InFirst(ws: seq<Word>, b: nat, p: nat, c: nat, pos: seq<nat>, lef: Option<nat>, rit: Option<nat>)
    requires b <= p < c && Places(ws, b, p, c, pos, lef, rit) && lef == Some(p + 1)
    ensures p + 2 <= c && Places(ws, b, p + 2, c, pos, None, rit)
  {
    hide Net;
    assert Placed(ws, b, p, pos, lef, rit) && Placed(ws, b, p + 1, pos, lef, rit);
    var n := p + 2;
    forall q | n <= q < c ensures Placed(ws, b, q, pos, None, rit) {
      assert Placed(ws, b, q, pos, lef, rit);
    }
  }

  /** or to write to. */
  lemma OutFirst(ws: seq<Word>, b: nat, p: nat, c: nat, pos: seq<nat>, lef: Option<nat>, rit: Option<nat>)
    requires b <= p < c && Places(ws, b, p, c, pos, lef, rit) && rit.Some? && OutMark(ws, rit.value) == p
    ensures p < rit.value < c && Places(ws, b, rit.value + 1, c, pos, lef, None)
  {
    hide Net;
    var n := rit.value + 1;
    assert OutMark(ws, rit.value) < rit.value;
    OutWords(ws, rit.value);
    forall q | p <= q < n ensures q !in pos {
      assert Placed(ws, b, q, pos, lef, rit);
    }
    forall a | 0 <= a < |pos| ensures n <= pos[a] {
      assert pos[a] in pos;
    }
    forall q | n <= q < c ensures Placed(ws, b, q, pos, lef, None) {
      assert Placed(ws, b, q, pos, lef, rit);
    }
  }

  lemma OutWords(ws: seq<Word>, g: nat)
    requires OutAt(ws, g) && Plain(At(ws, g))
    ensures forall q :: OutMark(ws, g) <= q <= g ==> C(At(ws, q), 0) != '<' && Turn(At(ws, q)) == 0
  {
    hide At;
    assert C("&", 0) == '&' && C("!", 0) == '!';
  }

  /** `syn3` reads a redirection as it is spelled. */
  lemma InputFound(ws: seq<Word>, p: nat, j: nat, m: set<Mode>, s: Simple)
    requires p + 1 < j && InAt(ws, p + 1) && Plain(At(ws, p + 1)) && s.lef.None? && PIn !in m
    requires PHere in m ==> FHere !in s.flg + InFlags(ws, p + 1)
    ensures Input(ws, p, j, m, s) == (s.(lef := Some(p + 1), flg := s.flg + InFlags(ws, p + 1)), p + 1)
  {
    hide At;
    assert s.flg + {} == s.flg;
  }

  lemma OutputFound(ws: seq<Word>, p: nat, g: nat, j: nat, m: set<Mode>, s: Simple)
    requires p < g < j && OutAt(ws, g) && OutMark(ws, g) == p && Plain(At(ws, g)) && s.rit.None?
    requires POut in m ==> PDiag in m
    requires FDiag in OutFlags(ws, g) ==> POut !in m && PDiag !in m
    ensures Output(ws, p, j, m, s) == (s.(rit := Some(g), flg := s.flg + OutFlags(ws, g)), g)
  {
    hide At;
    assert C("&", 0) == '&' && C("!", 0) == '!';
    var bang := At(ws, g - 1) == "!";
    var amp := p + 1 < g && At(ws, p + 1) == "&";
    assert g == (if bang then p + 2 else p + 1) + if amp then 1 else 0;
    assert amp <==> p + 1 < j && At(ws, p + 1) == "&";
    var p1 := if amp then p + 1 else p;
    assert bang <==> p1 + 1 < j && At(ws, p1 + 1) == "!";
    assert OutFlags(ws, g) == (if C(At(ws, p), 1) == '>' then {FCat} else {}) + (if amp then {FDiag} else {}) + (if bang then {FAny} else {});
    var s0 := if C(At(ws, p), 1) == '>' then s.(flg := s.flg + {FCat}) else s;
    var s1 := if amp then s0.(flg := s0.flg + {FDiag}) else s0;
    var s2 := if bang then s1.(flg := s1.flg + {FAny}) else s1;
    assert s2.flg == s.flg + OutFlags(ws, g);
  }

  /** The walk over a stretch of arguments and redirections. */
  lemma {:induction false} Stretch(ws: seq<Word>, b: nat, p: nat, c: nat, j: nat, spec: bool, m: set<Mode>, s: Simple,
                                   pos: seq<nat>, lef: Option<nat>, rit: Option<nat>) returns (s': Simple)
    requires b <= p <= c <= j && Places(ws, b, p, c, pos, lef, rit) && s.l == Net(ws, b, p) && s.err.None?
    requires spec || (Flat(ws, p, c) && s.l == 0)
    requires (lef.Some? ==> s.lef.None?) && (rit.Some? ==> s.rit.None?)
    requires Directed(m, lef.Some?, rit.Some?, s.flg + FileFlags(ws, lef, rit))
    ensures Walk(ws, p, j, spec, m, s) == Walk(ws, c, j, spec, m, s')
    ensures s'.err.None? && s'.l == Net(ws, b, c) && s'.pos == s.pos + pos
    ensures s'.lef == Either(lef, s.lef) && s'.rit == Either(rit, s.rit) && s'.flg == s.flg + FileFlags(ws, lef, rit)
    ensures !spec ==> s'.lp == s.lp && s'.rp == s.rp
    decreases c - p
  {
    hide Places, Flat, Net, Step, Directed, At, Plain, InFile, InFlags, OutFlags;
    if p == c {
      NoPlaces(ws, b, p, pos, lef, rit);
      s' := s;
      assert s.flg == s.flg + FileFlags(ws, lef, rit);
    } else if lef == Some(p + 1) {
      InFirst(ws, b, p, c, pos, lef, rit);
      var u := InStep(ws, b, p, c, j, spec, m, s, pos, lef, rit);
      FlatRest(ws, p, p + 2, c);
      s' := Stretch(ws, b, p + 2, c, j, spec, m, u, pos, None, rit);
      assert s'.flg == s.flg + FileFlags(ws, lef, rit);
    } else if rit.Some? && OutMark(ws, rit.value) == p {
      OutFirst(ws, b, p, c, pos, lef, rit);
      var u := OutStep(ws, b, p, c, j, spec, m, s, pos, lef, rit);
      FlatRest(ws, p, rit.value + 1, c);
      s' := Stretch(ws, b, rit.value + 1, c, j, spec, m, u, pos, lef, None);
      assert s'.flg == s.flg + FileFlags(ws, lef, rit);
    } else {
      NotInFile(ws, b, p, c, pos, lef, rit);
      WordFirst(ws, b, p, c, pos, lef, rit);
      var u := WordStep(ws, b, p, j, spec, m, s, c);
      FlatRest(ws, p, p + 1, c);
      s' := Stretch(ws, b, p + 1, c, j, spec, m, u, pos[1..], lef, rit);
      assert pos == [pos[0]] + pos[1..];
    }
  }

  lemma NoPlaces(ws: seq<Word>, b: nat, p: nat, pos: seq<nat>, lef: Option<nat>, rit: Option<nat>)
    requires Places(ws, b, p, p, pos, lef, rit)
    ensures pos == [] && lef.None? && rit.None?
  {
    if pos != [] {
      AscendingBetween(pos, p, p);
    }
    if rit.Some? {
      OutMarkBelow(ws, rit.value);
    }
  }

  lemma AscendingBetween(pos: seq<nat>, i: nat, p: nat)
    requires Ascending(pos, i, p) && pos != []
    ensures i < p
  {
    assert i <= pos[0] < p;
  }

  lemma OutMarkBelow(ws: seq<Word>, g: nat)
    ensures OutMark(ws, g) < g
  {
  }

  lemma NotInFile(ws: seq<Word>, b: nat, p: nat, c: nat, pos: seq<nat>, lef: Option<nat>, rit: Option<nat>)
    requires Places(ws, b, p, c, pos, lef, rit) && lef != Some(p + 1) && !(rit.Some? && OutMark(ws, rit.value) == p)
    ensures !InFile(ws, lef, rit, p)
  {
  }

  lemma FlatRest(ws: seq<Word>, p: nat, n: nat, c: nat)
    requires p <= n
    ensures Flat(ws, p, c) ==> Flat(ws, n, c)
  {
  }

  lemma InStep(ws: seq<Word>, b: nat, p: nat, c: nat, j: nat, spec: bool, m: set<Mode>, s: Simple,
               pos: seq<nat>, lef: Option<nat>, rit: Option<nat>) returns (u: Simple)
    requires b <= p < c <= j && Places(ws, b, p, c, pos, lef, rit) && s.l == Net(ws, b, p) && s.err.None?
    requires lef == Some(p + 1) && s.lef.None? && Directed(m, true, rit.Some?, s.flg + FileFlags(ws, lef, rit))
    ensures Walk(ws, p, j, spec, m, s) == Walk(ws, p + 2, j, spec, m, u)
    ensures u == s.(lef := lef, flg := s.flg + InFlags(ws, p + 1)) && Net(ws, b, p + 2) == s.l == 0
    ensures Directed(m, false, rit.Some?, u.flg + FileFlags(ws, None, rit))
  {
    hide Net, At, OutAt, OutMark, OutFlags, InFlags, Placed, Ascending, Input;
    u := s.(lef := lef, flg := s.flg + InFlags(ws, p + 1));
    assert u.flg + FileFlags(ws, None, rit) == s.flg + FileFlags(ws, lef, rit);
    InputFound(ws, p, j, m, s);
    NetSnoc(ws, b, p);
    NetSnoc(ws, b, p + 1);
  }

  lemma OutStep(ws: seq<Word>, b: nat, p: nat, c: nat, j: nat, spec: bool, m: set<Mode>, s: Simple,
                pos: seq<nat>, lef: Option<nat>, rit: Option<nat>) returns (u: Simple)
    requires b <= p < c <= j && Places(ws, b, p, c, pos, lef, rit) && s.l == Net(ws, b, p) && s.err.None?
    requires rit.Some? && OutMark(ws, rit.value) == p && s.rit.None?
    requires Directed(m, lef.Some?, true, s.flg + FileFlags(ws, lef, rit))
    ensures Walk(ws, p, j, spec, m, s) == Walk(ws, rit.value + 1, j, spec, m, u)
    ensures u == s.(rit := rit, flg := s.flg + OutFlags(ws, rit.value)) && Net(ws, b, rit.value + 1) == s.l == 0
    ensures Directed(m, lef.Some?, false, u.flg + FileFlags(ws, lef, None))
  {
    hide Net, At, OutFlags, InFlags, InAt, Placed, Ascending, Output;
    u := s.(rit := rit, flg := s.flg + OutFlags(ws, rit.value));
    assert u.flg + FileFlags(ws, lef, None) == s.flg + FileFlags(ws, lef, rit);
    OutWords(ws, rit.value);
    OutputFound(ws, p, rit.value, j, m, s);
    NetLevel(ws, b, p, rit.value + 1);
  }

  lemma WordStep(ws: seq<Word>, b: nat, p: nat, j: nat, spec: bool, m: set<Mode>, s: Simple, c: nat) returns (u: Simple)
    requires b <= p < c <= j && s.l == Net(ws, b, p) && s.err.None?
    requires spec || (Flat(ws, p, c) && s.l == 0)
    requires s.l == 0 ==> Plain(At(ws, p)) || Turn(At(ws, p)) != 0
    ensures Walk(ws, p, j, spec, m, s) == Walk(ws, p + 1, j, spec, m, u)
    ensures u.err.None? && u.l == Net(ws, b, p + 1) && u.pos == s.pos + [p] && u.lef == s.lef && u.rit == s.rit && u.flg == s.flg
    ensures !spec ==> u.lp == s.lp && u.rp == s.rp && u.l == 0
  {
    hide Net, At, Output, Input;
    NetSnoc(ws, b, p);
    u := Step(ws, p, j, spec, m, s).0;
  }

  lemma CommandFound(ws: seq<Word>, i: nat, j: nat, m: set<Mode>, t: Tree, pos: seq<nat>, lef: Option<nat>, rit: Option<nat>)
    requires i <= j && IsCommand(ws, i, j, m, t, pos, lef, rit)
    ensures Syn3(ws, i, j, m) == Done(t, None)
  {
    hide Places, Flat, Net, Step, Directed, At, InFlags, OutFlags, Special, Deep, Syn0;
    var spec := Special(ws, i, j);
    var s := Start(ws, j);
    DeepNone(ws, i);
    assert t.flg == s.flg + FileFlags(ws, lef, rit);
    var s' := Stretch(ws, i, i, j, j, spec, m, s, pos, lef, rit);
    assert [] + pos == pos;
  }

  /** What is in the parentheses of a subshell is passed over. */
  lemma {:induction false} PassOver(ws: seq<Word>, b: nat, p: nat, q: nat, j: nat, m: set<Mode>, s: Simple)
    requires b <= p <= q <= j && Whole(ws, b, q) && s.l == 1 + Net(ws, b, p)
    ensures Walk(ws, p, j, false, m, s) == Walk(ws, q, j, false, m, s.(l := 1))
    decreases q - p
  {
    hide At, Net, Output, Input;
    if p < q {
      NetSnoc(ws, b, p);
      assert Net(ws, b, p) >= 0 && Net(ws, b, p + 1) >= 0;
      var u := s.(l := 1 + Net(ws, b, p + 1));
      assert Step(ws, p, j, false, m, s) == (u, p);
      PassOver(ws, b, p + 1, q, j, m, u);
      assert u.(l := 1) == s.(l := 1);
    }
  }

  lemma ShellStretches(ws: seq<Word>, i: nat, p: nat, q: nat, j: nat, m: set<Mode>, t: Tree, lef: Option<nat>, rit: Option<nat>) returns (s: Simple)
    requires i <= p < q < j && IsSubshell(ws, i, p, q, j, m, t, lef, rit) && Whole(ws, p + 1, q)
    ensures Walk(ws, i, j, false, m, Start(ws, j)) == s && s.err.None? && s.pos == []
    ensures s.lp == Some(p + 1) && s.rp == Some(q) && s.lef == lef && s.rit == rit && s.flg == t.flg
  {
    hide Places, Flat, Net, Directed, At, InFlags, OutFlags, Deep, Output, Input;
    var s0 := Start(ws, j);
    DeepNone(ws, i);
    DeepNone(ws, p + 1);
    DeepNone(ws, q + 1);
    var l1, r1, l2, r2 := Upto(lef, p), Upto(rit, p), From(lef, p), From(rit, p);
    FilesFlat(ws, i, i, p, l1, r1);
    FilesFlat(ws, q + 1, q + 1, j, l2, r2);
    assert t.flg == s0.flg + FileFlags(ws, l1, r1) + FileFlags(ws, l2, r2);
    FewerDirected(m, lef.Some?, rit.Some?, t.flg, l1.Some?, r1.Some?, s0.flg + FileFlags(ws, l1, r1));
    var s1 := Stretch(ws, i, i, p, j, false, m, s0, [], l1, r1);
    FlatWhole(ws, i, p);
    var s2 := s1.(lp := Some(p + 1), l := 1);
    assert Step(ws, p, j, false, m, s1) == (s2, p);
    PassOver(ws, p + 1, p + 1, q, j, m, s2);
    var s3 := s2.(rp := Some(q), l := 0);
    assert Step(ws, q, j, false, m, s2) == (s3, q);
    FewerDirected(m, lef.Some?, rit.Some?, t.flg, l2.Some?, r2.Some?, s3.flg + FileFlags(ws, l2, r2));
    s := Stretch(ws, q + 1, q + 1, j, j, false, m, s3, [], l2, r2);
    assert s.flg == t.flg;
  }

  lemma FewerDirected(m: set<Mode>, lef: bool, rit: bool, f: set<Flag>, lef': bool, rit': bool, f': set<Flag>)
    requires Directed(m, lef, rit, f) && (lef' ==> lef) && (rit' ==> rit) && f' <= f
    ensures Directed(m, lef', rit', f')
  {
  }

  lemma SubshellFound(ws: seq<Word>, i: nat, p: nat, q: nat, j: nat, m: set<Mode>, t: Tree, lef: Option<nat>, rit: Option<nat>)
    requires i <= p < q < j && IsSubshell(ws, i, p, q, j, m, t, lef, rit) && Whole(ws, p + 1, q)
    requires Syn0(ws, p + 1, q, {PHere}) == Done(t.sub, None)
    ensures Syn3(ws, i, j, m) == Done(t, None)
  {
    hide Syn0, Walk, Start, At, Net, Places, Whole, Directed, Flags;
    NotSpecial(ws, i, p, q, j, m, t, lef, rit);
    var s := ShellStretches(ws, i, p, q, j, m, t, lef, rit);
  }

  lemma NotSpecial(ws: seq<Word>, i: nat, p: nat, q: nat, j: nat, m: set<Mode>, t: Tree, lef: Option<nat>, rit: Option<nat>)
    requires IsSubshell(ws, i, p, q, j, m, t, lef, rit)
    ensures !Special(ws, i, j)
  {
    hide Net, Flags, Directed, Places, At;
    if i < p {
      FileFirst(ws, i, i, p, Upto(lef, p), Upto(rit, p));
    }
    NoKey(ws, i, j);
  }

  lemma FileFirst(ws: seq<Word>, b: nat, i: nat, p: nat, lef: Option<nat>, rit: Option<nat>)
    requires i < p && Places(ws, b, i, p, [], lef, rit)
    ensures C(At(ws, i), 0) in "<>"
  {
    hide Net, OutMark, At;
    assert Placed(ws, b, i, [], lef, rit);
  }

  lemma NoKey(ws: seq<Word>, i: nat, j: nat)
    requires C(At(ws, i), 0) in "<>("
    ensures !Special(ws, i, j)
  {
    assert C("else", 0) == 'e';
    hide At;
    forall k | k in KEYS ensures C(k, 0) !in "<>(" {
    }
  }

  // ------------------------------------------------------------ what the walk over a simple command finds

  /** In a subshell, or one of its parentheses. */
  predicate Inside(q: nat, spec: bool, s: Simple) {
    !spec && s.lp.Some? && s.lp.value <= q + 1 && (s.l > 0 || (s.rp.Some? && q <= s.rp.value))
  }

  ghost predicate Accounted(ws: seq<Word>, i: nat, q: nat, spec: bool, s: Simple) {
    if InFile(ws, s.lef, s.rit, q) then q !in s.pos && !Inside(q, spec, s)
    else Inside(q, spec, s) || (q in s.pos && (Net(ws, i, q) == 0 ==> C(At(ws, q), 0) !in "<>"))
  }

  /** The files that have been found. */
  predicate Filed(ws: seq<Word>, i: nat, p: nat, lef: Option<nat>, rit: Option<nat>) {
    && (lef.Some? ==> i < lef.value < p && InAt(ws, lef.value) && Net(ws, i, lef.value - 1) == 0 && !RelPar(At(ws, lef.value)))
    && (rit.Some? ==> i <= OutMark(ws, rit.value) && rit.value < p && OutAt(ws, rit.value)
                      && Net(ws, i, OutMark(ws, rit.value)) == 0 && !RelPar(At(ws, rit.value)))
  }

  ghost predicate Covered(ws: seq<Word>, i: nat, p: nat, spec: bool, s: Simple) {
    && s.l == Net(ws, i, p)
    && Ascending(s.pos, i, p)
    && Filed(ws, i, p, s.lef, s.rit)
    && (forall q :: i <= q < p ==> Accounted(ws, i, q, spec, s))
    && (!spec && s.lp.None? ==> Flat(ws, i, p))
  }

  lemma AscendingSnoc(pos: seq<nat>, i: nat, p: nat)
    requires Ascending(pos, i, p) && i <= p
    ensures Ascending(pos + [p], i, p + 1) && Ascending(pos, i, p + 1) && p !in pos
  {
  }

  lemma FiledBefore(ws: seq<Word>, i: nat, p: nat, lef: Option<nat>, rit: Option<nat>, n: nat)
    requires Filed(ws, i, p, lef, rit) && p <= n
    ensures Filed(ws, i, n, lef, rit)
    ensures forall q :: q >= p ==> !InFile(ws, lef, rit, q)
  {
  }

  /** One word more, which is an argument, or in a subshell. */
  lemma WordCovered(ws: seq<Word>, i: nat, p: nat, spec: bool, s: Simple, s': Simple)
    requires i <= p && Covered(ws, i, p, spec, s)
    requires s'.l == s.l + Turn(At(ws, p)) && s'.lef == s.lef && s'.rit == s.rit
    requires forall q :: i <= q < p ==> (Inside(q, spec, s) <==> Inside(q, spec, s'))
    requires || (s'.pos == s.pos && Inside(p, spec, s'))
             || (s'.pos == s.pos + [p] && (s.l == 0 ==> C(At(ws, p), 0) !in "<>"))
    requires !spec && s'.lp.None? ==> s.lp.None? && Turn(At(ws, p)) == 0
    ensures Covered(ws, i, p + 1, spec, s')
  {
    hide Net, Turn, At, Inside, Filed, InFile;
    NetSnoc(ws, i, p);
    AscendingSnoc(s.pos, i, p);
    FiledBefore(ws, i, p, s.lef, s.rit, p + 1);
    hide Ascending;
    forall q | i <= q < p + 1 ensures Accounted(ws, i, q, spec, s') {
      if q < p {
        assert Accounted(ws, i, q, spec, s);
      }
    }
  }

  /** A redirection, which ends with the name of a file. */
  lemma FileCovered(ws: seq<Word>, i: nat, p: nat, n: nat, spec: bool, s: Simple, s': Simple)
    requires i <= p < n && Covered(ws, i, p, spec, s) && Nested(ws, i, p, s) && s.l == 0
    requires s'.l == s.l && s'.lp == s.lp && s'.rp == s.rp && s'.pos == s.pos
    requires
      || (s.lef.None? && s'.lef == Some(n) && s'.rit == s.rit && n == p + 1 && InAt(ws, n))
      || (s.rit.None? && s'.rit == Some(n) && s'.lef == s.lef && OutAt(ws, n) && OutMark(ws, n) == p)
    requires forall q :: p <= q <= n ==> Turn(At(ws, q)) == 0
    requires !RelPar(At(ws, n))
    ensures Covered(ws, i, n + 1, spec, s')
  {
    hide Net, Turn, At, InAt, OutAt, OutMark, Deep;
    NetLevel(ws, i, p, n + 1);
    FiledBefore(ws, i, p, s.lef, s.rit, n + 1);
    forall q | i <= q < n + 1 ensures Accounted(ws, i, q, spec, s') {
      if q < p {
        assert Accounted(ws, i, q, spec, s);
      }
    }
  }

  /** What `>` does to the walk, and what it can be read off from afterwards. */
  lemma OutputWords(ws: seq<Word>, p: nat, j: nat, m: set<Mode>, s: Simple)
    requires p < j && s.err.None? && C(At(ws, p), 0) == '>' && Output(ws, p, j, m, s).0.err.None?
    ensures var (r, n) := Output(ws, p, j, m, s);
            && p < n && OutAt(ws, n) && OutMark(ws, n) == p && !RelPar(At(ws, n))
            && r.flg == s.flg + OutFlags(ws, n)
            && forall q :: p <= q <= n ==> Turn(At(ws, q)) == 0
  {
    hide At;
    assert C("&", 0) == '&' && C("!", 0) == '!';
    var n := Output(ws, p, j, m, s).1;
    var amp := p + 1 < j && At(ws, p + 1) == "&";
    var p1 := if amp then p + 1 else p;
    var bang := p1 + 1 < j && At(ws, p1 + 1) == "!";
    assert n == if bang then p1 + 2 else p1 + 1;
    assert OutMark(ws, n) == p;
    assert bang <==> At(ws, n - 1) == "!";
    assert amp <==> At(ws, p + 1) == "&" && p + 1 < n;
  }

  lemma OutputState(ws: seq<Word>, p: nat, j: nat, m: set<Mode>, s: Simple)
    requires p < j && s.err.None? && Output(ws, p, j, m, s).0.err.None?
    ensures var (r, n) := Output(ws, p, j, m, s);
            && s.rit.None? && r.rit == Some(n) && r.lef == s.lef && r.pos == s.pos
            && r.l == s.l && r.lp == s.lp && r.rp == s.rp
  {
    hide At, C, RelPar;
  }

  lemma OutputCovered(ws: seq<Word>, i: nat, p: nat, j: nat, spec: bool, m: set<Mode>, s: Simple)
    requires i <= p < j && Nested(ws, i, p, s) && Covered(ws, i, p, spec, s)
    requires s.l == 0 && s.err.None? && C(At(ws, p), 0) == '>' && Output(ws, p, j, m, s).0.err.None?
    ensures var r := Output(ws, p, j, m, s); Covered(ws, i, r.1 + 1, spec, r.0)
  {
    hide Net, At, C, Turn, Covered, Nested, Output, OutAt, OutMark, OutFlags;
    var r := Output(ws, p, j, m, s);
    OutputWords(ws, p, j, m, s);
    OutputState(ws, p, j, m, s);
    FileCovered(ws, i, p, r.1, spec, s, r.0);
  }

  lemma InputCovered(ws: seq<Word>, i: nat, p: nat, j: nat, spec: bool, m: set<Mode>, s: Simple)
    requires i <= p < j && Nested(ws, i, p, s) && Covered(ws, i, p, spec, s)
    requires s.l == 0 && s.err.None? && C(At(ws, p), 0) == '<' && Input(ws, p, j, m, s).0.err.None?
    ensures var r := Input(ws, p, j, m, s); Covered(ws, i, r.1 + 1, spec, r.0)
  {
    hide Net, At, Covered, Nested;
    var r := Input(ws, p, j, m, s);
    FileCovered(ws, i, p, r.1, spec, s, r.0);
  }

  lemma LevelFacts(ws: seq<Word>, i: nat, p: nat, j: nat, spec: bool, s: Simple)
    requires i <= p < j && Deep(ws, i, j) && Nested(ws, i, p, s) && Covered(ws, i, p, spec, s)
    ensures s.l >= 0 && s.l + Turn(At(ws, p)) >= 0
    ensures s.lp.None? ==> s.l == 0
    ensures s.lp.Some? ==> s.lp.value <= p
    ensures s.lp.Some? && s.l == 0 ==> s.rp.Some? && s.rp.value < p
  {
    hide Turn, At, Ascending, Accounted, Filed;
    NetSnoc(ws, i, p);
  }

  lemma StepCovered(ws: seq<Word>, i: nat, p: nat, j: nat, spec: bool, m: set<Mode>, s: Simple)
    requires i <= p < j && Deep(ws, i, j) && Nested(ws, i, p, s)
    requires s.err.None? && Covered(ws, i, p, spec, s)
    requires Step(ws, p, j, spec, m, s).0.err.None?
    ensures var r := Step(ws, p, j, spec, m, s); Covered(ws, i, r.1 + 1, spec, r.0)
  {
    hide Net, At, Covered, Nested, Output, Input, Deep;
    var r := Step(ws, p, j, spec, m, s);
    var c := C(At(ws, p), 0);
    if c == '>' && s.l == 0 {
      OutputCovered(ws, i, p, j, spec, m, s);
    } else if c == '<' && s.l == 0 {
      InputCovered(ws, i, p, j, spec, m, s);
    } else {
      LevelFacts(ws, i, p, j, spec, s);
      WordCovered(ws, i, p, spec, s, r.0);
    }
  }

  /** A redirection changes nothing but the files and the flags. */
  lemma FileKeeps(ws: seq<Word>, p: nat, j: nat, m: set<Mode>, s: Simple)
    requires p < j
    ensures var r := Output(ws, p, j, m, s).0;
            r.l == s.l && r.lp == s.lp && r.rp == s.rp && r.pos == s.pos && r.lef == s.lef && (s.err.Some? ==> r.err == s.err)
    ensures var r := Input(ws, p, j, m, s).0;
            r.l == s.l && r.lp == s.lp && r.rp == s.rp && r.pos == s.pos && r.rit == s.rit && (s.err.Some? ==> r.err == s.err)
  {
    hide At, C, RelPar;
  }

  lemma StepKeeps(ws: seq<Word>, p: nat, j: nat, spec: bool, m: set<Mode>, s: Simple)
    requires p < j && s.err.Some?
    ensures Step(ws, p, j, spec, m, s).0.err == s.err
  {
    hide At, C, Output, Input;
    FileKeeps(ws, p, j, m, s);
  }

  /** The first error stays. */
  lemma {:induction false} WalkKeeps(ws: seq<Word>, p: nat, j: nat, spec: bool, m: set<Mode>, s: Simple)
    requires s.err.Some?
    ensures Walk(ws, p, j, spec, m, s).err == s.err
    decreases j - p
  {
    hide Step;
    if p < j {
      StepKeeps(ws, p, j, spec, m, s);
      var (s', p') := Step(ws, p, j, spec, m, s);
      WalkKeeps(ws, p' + 1, j, spec, m, s');
    }
  }

  /** What the flags and the redirections have to do with each other, and where the parentheses are. */
  predicate Tidy(ws: seq<Word>, j: nat, m: set<Mode>, s: Simple) {
    && s.flg == Flags(ws, j, s.lef, s.rit)
    && Directed(m, s.lef.Some?, s.rit.Some?, s.flg)
    && (s.lp.Some? ==> s.lp.value > 0 && C(At(ws, s.lp.value - 1), 0) == '(')
    && (s.rp.Some? ==> C(At(ws, s.rp.value), 0) == ')')
  }

  lemma InputTidy(ws: seq<Word>, p: nat, j: nat, m: set<Mode>, s: Simple)
    requires p < j && s.err.None? && Tidy(ws, j, m, s) && Input(ws, p, j, m, s).0.err.None?
    ensures Tidy(ws, j, m, Input(ws, p, j, m, s).0)
  {
    hide At, C, RelPar, OutFlags;
    var (r, n) := Input(ws, p, j, m, s);
    assert r.flg == s.flg + InFlags(ws, n);
    assert FHere !in (if s.rit.Some? then OutFlags(ws, s.rit.value) else {}) by { OutFlagsAre(ws, s.rit); }
  }

  lemma OutFlagsAre(ws: seq<Word>, rit: Option<nat>)
    ensures rit.Some? ==> FHere !in OutFlags(ws, rit.value)
  {
  }

  lemma OutputTidy(ws: seq<Word>, p: nat, j: nat, m: set<Mode>, s: Simple)
    requires p < j && s.err.None? && Tidy(ws, j, m, s) && C(At(ws, p), 0) == '>' && Output(ws, p, j, m, s).0.err.None?
    ensures Tidy(ws, j, m, Output(ws, p, j, m, s).0)
  {
    hide At, C, RelPar, OutFlags, InFlags, Output, OutAt, OutMark;
    var (r, n) := Output(ws, p, j, m, s);
    OutputWords(ws, p, j, m, s);
    OutputState(ws, p, j, m, s);
    OutputDirected(ws, p, j, m, s);
    OutFlagsAre(ws, r.rit);
  }

  lemma OutputDirected(ws: seq<Word>, p: nat, j: nat, m: set<Mode>, s: Simple)
    requires p < j && s.err.None? && Output(ws, p, j, m, s).0.err.None?
    ensures POut in m ==> PDiag in m
    ensures var r := Output(ws, p, j, m, s).0; FDiag in r.flg ==> FDiag in s.flg || (POut !in m && PDiag !in m)
  {
    hide At, C, RelPar;
  }

  lemma StepTidy(ws: seq<Word>, p: nat, j: nat, spec: bool, m: set<Mode>, s: Simple)
    requires p < j && s.err.None? && Tidy(ws, j, m, s) && Step(ws, p, j, spec, m, s).0.err.None?
    ensures Tidy(ws, j, m, Step(ws, p, j, spec, m, s).0)
  {
    hide At, Output, Input, Flags, Directed;
    if C(At(ws, p), 0) == '>' && s.l == 0 {
      OutputTidy(ws, p, j, m, s);
    } else if C(At(ws, p), 0) == '<' && s.l == 0 {
      InputTidy(ws, p, j, m, s);
    }
  }

  lemma {:induction false} WalkCovered(ws: seq<Word>, i: nat, p: nat, j: nat, spec: bool, m: set<Mode>, s: Simple)
    requires i <= p <= j && Deep(ws, i, j) && Nested(ws, i, p, s)
    requires s.err.None? ==> Covered(ws, i, p, spec, s) && Tidy(ws, j, m, s)
    ensures var r := Walk(ws, p, j, spec, m, s); r.err.None? ==> Covered(ws, i, j, spec, r) && Tidy(ws, j, m, r)
    decreases j - p
  {
    hide Covered, Step, Nested, Deep, Tidy;
    if s.err.Some? {
      WalkKeeps(ws, p, j, spec, m, s);
    } else if p < j {
      var (s', p') := Step(ws, p, j, spec, m, s);
      if s'.err.None? {
        StepCovered(ws, i, p, j, spec, m, s);
        StepTidy(ws, p, j, spec, m, s);
      }
      StepNested(ws, i, p, j, spec, m, s);
      WalkCovered(ws, i, p' + 1, j, spec, m, s');
    }
  }

  // ------------------------------------------------------------ what the parser finds is a tree of the grammar

  /** What the walk of `syn3` knows at the end of a segment. */
  lemma SimpleFacts(ws: seq<Word>, i: nat, j: nat, spec: bool, m: set<Mode>)
    requires Whole(ws, i, j)
    ensures var s := Walk(ws, i, j, spec, m, Start(ws, j));
            && (s.lp.Some? ==> Closed(i, j, s) && Whole(ws, s.lp.value, s.rp.value))
            && (s.err.None? ==> Covered(ws, i, j, spec, s) && Tidy(ws, j, m, s) && s.l == 0)
  {
    hide Step;
    var s := Start(ws, j);
    DeepNone(ws, i);
    WalkNested(ws, i, i, j, spec, m, s);
    WalkCovered(ws, i, i, j, spec, m, s);
  }

  /** In a segment without operators every file has a plain name. */
  lemma FiledPlain(ws: seq<Word>, i: nat, j: nat, lef: Option<nat>, rit: Option<nat>)
    requires Filed(ws, i, j, lef, rit) && Clear(ws, 4, i, j)
    ensures Redirects(ws, i, i, j, lef, rit)
  {
    hide At, Net, Lone, Quiet, OutAt, OutMark;
    if lef.Some? {
      NetSnoc(ws, i, lef.value - 1);
      ClearWord(ws, i, j, lef.value);
    }
    if rit.Some? {
      var g := rit.value;
      OutNet(ws, i, g);
      ClearWord(ws, i, j, g);
      OutNotLed(ws, i, g);
    }
  }

  lemma OutNet(ws: seq<Word>, i: nat, g: nat)
    requires OutAt(ws, g) && i <= OutMark(ws, g)
    ensures Net(ws, i, g) == Net(ws, i, OutMark(ws, g)) && OutMark(ws, g) < g
  {
    hide At;
    assert C("&", 0) == '&' && C("!", 0) == '!';
    NetLevel(ws, i, OutMark(ws, g), g);
  }

  lemma OutNotLed(ws: seq<Word>, i: nat, g: nat)
    requires OutAt(ws, g)
    ensures !Led(ws, i, g)
  {
    hide At;
    assert C("&", 0) == '&' && C("!", 0) == '!';
  }

  lemma ClearWord(ws: seq<Word>, i: nat, j: nat, q: nat)
    requires i <= q < j && Clear(ws, 4, i, j) && Net(ws, i, q) == 0
    ensures Plain(At(ws, q)) || Turn(At(ws, q)) != 0 || C(At(ws, q), 0) in "<>" || Led(ws, i, q)
  {
    hide Net;
    var w := At(ws, q);
    assert !IsOp(Semi, w) && !IsOp(AndAnd, w) && !IsOp(Pipe, w);
  }

  /** Nor is any argument outside parentheses an operator. */
  lemma ArgPlain(ws: seq<Word>, i: nat, j: nat, spec: bool, s: Simple, q: nat)
    requires i <= q < j && Covered(ws, i, j, spec, s) && Clear(ws, 4, i, j) && (spec || s.lp.None?)
    requires !InFile(ws, s.lef, s.rit, q) && Net(ws, i, q) == 0
    ensures q in s.pos && (Plain(At(ws, q)) || Turn(At(ws, q)) != 0)
  {
    hide At, Net, Clear, Ascending, Filed, InFile, Flat;
    assert Accounted(ws, i, q, spec, s);
    ClearWord(ws, i, j, q);
    if Led(ws, i, q) {
      LedBefore(ws, i, j, q);
      assert Accounted(ws, i, q - 1, spec, s);
      FileLeads(ws, i, j, s.lef, s.rit, q);
      assert false;
    }
  }

  lemma LedBefore(ws: seq<Word>, i: nat, j: nat, q: nat)
    requires i <= q < j && Clear(ws, 4, i, j) && Led(ws, i, q) && Net(ws, i, q) == 0
    ensures q > i && Net(ws, i, q - 1) == 0 && C(At(ws, q - 1), 0) == '>'
  {
    hide At, Net;
    NetSnoc(ws, i, q - 1);
    assert !IsOp(Pipe, At(ws, q - 1));
  }

  /** An `&` behind the `>` of a redirection belongs to it. */
  lemma FileLeads(ws: seq<Word>, i: nat, j: nat, lef: Option<nat>, rit: Option<nat>, q: nat)
    requires q > 0 && Filed(ws, i, j, lef, rit) && C(At(ws, q - 1), 0) == '>' && InFile(ws, lef, rit, q - 1)
    ensures InFile(ws, lef, rit, q)
  {
    hide At, Net;
    assert C("&", 0) == '&' && C("!", 0) == '!';
  }

  lemma ComPlaces(ws: seq<Word>, i: nat, j: nat, spec: bool, s: Simple)
    requires i <= j && Covered(ws, i, j, spec, s) && Clear(ws, 4, i, j) && (spec || s.lp.None?)
    ensures Places(ws, i, i, j, s.pos, s.lef, s.rit)
  {
    hide Ascending, Net, Filed, Clear, InFile, Redirects, At, Flat;
    FiledPlain(ws, i, j, s.lef, s.rit);
    forall q | i <= q < j ensures Placed(ws, i, q, s.pos, s.lef, s.rit) {
      assert Accounted(ws, i, q, spec, s);
      if !InFile(ws, s.lef, s.rit, q) && Net(ws, i, q) == 0 {
        ArgPlain(ws, i, j, spec, s, q);
      }
    }
  }

  /** A file outside the parentheses lies before or behind them. */
  lemma FileSide(ws: seq<Word>, i: nat, j: nat, s: Simple)
    requires Covered(ws, i, j, false, s) && Closed(i, j, s) && s.l == 0
    ensures var p, q := s.lp.value - 1, s.rp.value;
            && (s.lef.Some? ==> s.lef.value < p || q < s.lef.value - 1)
            && (s.rit.Some? ==> s.rit.value < p || q < OutMark(ws, s.rit.value))
  {
    hide Net, At, Ascending;
    var p, q := s.lp.value - 1, s.rp.value;
    if s.lef.Some? {
      assert Accounted(ws, i, s.lef.value, false, s) && Accounted(ws, i, s.lef.value - 1, false, s);
    }
    if s.rit.Some? {
      OutMarkBelow(ws, s.rit.value);
      assert Accounted(ws, i, p, false, s) && Accounted(ws, i, OutMark(ws, s.rit.value), false, s);
    }
  }

  lemma ParPlaces(ws: seq<Word>, i: nat, j: nat, s: Simple)
    requires Covered(ws, i, j, false, s) && Closed(i, j, s) && s.l == 0 && s.pos == [] && Clear(ws, 4, i, j)
    requires Whole(ws, i, j) && Net(ws, i, s.rp.value + 1) == 0
    ensures var p, q := s.lp.value - 1, s.rp.value;
            && Places(ws, i, i, p, [], Upto(s.lef, p), Upto(s.rit, p))
            && Places(ws, q + 1, q + 1, j, [], From(s.lef, p), From(s.rit, p))
  {
    hide Net, Clear, Filed, At, InAt, OutAt, OutMark, Whole, Flat;
    var p, q := s.lp.value - 1, s.rp.value;
    FiledPlain(ws, i, j, s.lef, s.rit);
    FileSide(ws, i, j, s);
    ParPlacesBefore(ws, i, j, s);
    NetBehind(ws, i, q + 1);
    var n := q + 1;
    forall k | n <= k < j ensures Placed(ws, n, k, [], From(s.lef, p), From(s.rit, p)) {
      assert Accounted(ws, i, k, false, s);
    }
  }

  /** Before and behind the parentheses nothing is open. */
  lemma ParNet(ws: seq<Word>, i: nat, j: nat, s: Simple)
    requires Covered(ws, i, j, false, s) && Closed(i, j, s) && s.l == 0 && s.pos == [] && Clear(ws, 4, i, j)
    requires Whole(ws, s.lp.value, s.rp.value) && C(At(ws, s.lp.value - 1), 0) == '(' && C(At(ws, s.rp.value), 0) == ')'
    ensures Net(ws, i, s.rp.value + 1) == 0
  {
    hide Net, Clear, Filed, At, InAt, OutAt, OutMark, Places;
    var p, q := s.lp.value - 1, s.rp.value;
    ParPlacesBefore(ws, i, j, s);
    FilesFlat(ws, i, i, p, Upto(s.lef, p), Upto(s.rit, p));
    FlatWhole(ws, i, p);
    WholeWrapped(ws, p, q);
    WholeJoin(ws, i, p, q + 1);
  }

  lemma ParPlacesBefore(ws: seq<Word>, i: nat, j: nat, s: Simple)
    requires Covered(ws, i, j, false, s) && Closed(i, j, s) && s.l == 0 && s.pos == [] && Clear(ws, 4, i, j)
    ensures var p := s.lp.value - 1; Places(ws, i, i, p, [], Upto(s.lef, p), Upto(s.rit, p))
  {
    hide Net, Clear, Filed, At, InAt, OutAt, OutMark, Flat;
    var p := s.lp.value - 1;
    FiledPlain(ws, i, j, s.lef, s.rit);
    FileSide(ws, i, j, s);
    forall k | i <= k < p ensures Placed(ws, i, k, [], Upto(s.lef, p), Upto(s.rit, p)) {
      assert Accounted(ws, i, k, false, s);
    }
  }

  /** What an error-free parse of a segment tells. */
  ghost predicate Sound(ws: seq<Word>, y: Layer, i: nat, j: nat, m: set<Mode>, r: Res) {
    r.err.None? ==> r.Done? && Parses(ws, y, i, j, m, r.t)
  }

  /** An operator that is found splits a segment. */
  lemma Halves(ws: seq<Word>, op: Op, n: nat, i: nat, j: nat)
    requires Whole(ws, i, j) && Clear(ws, n, i, j)
    requires n == match op case Semi => 0 case OrOr => 1 case AndAnd => 2 case Pipe => 3
    ensures var k := Find(ws, op, i, j, 0);
            && i <= k <= j && Whole(ws, i, k) && Clear(ws, n + 1, i, k)
            && (k < j ==> IsOp(op, At(ws, k)) && Whole(ws, k + 1, j) && (op != Pipe ==> Clear(ws, n, k + 1, j)))
  {
    hide At, IsOp, Net, Lone;
    var k := Find(ws, op, i, j, 0);
    Split(ws, op, i, j);
    FindQuiet(ws, op, i, i, j);
    DeepNone(ws, i);
    ClearPart(ws, n, i, k, j);
    if k < j && op != Pipe {
      FindFacts(ws, op, i, j, 0);
      OpNotLeads(op, At(ws, k));
      NetSnoc(ws, i, k);
      ClearTail(ws, n, i, k + 1, j);
    }
  }

  lemma OpNotLeads(op: Op, w: Word)
    requires IsOp(op, w) && op != Pipe
    ensures !Leads(w)
  {
  }

  lemma {:induction false} FindQuiet(ws: seq<Word>, op: Op, i: nat, p: nat, j: nat)
    requires i <= p <= j && forall q :: i <= q < p && Net(ws, i, q) == 0 ==> !IsOp(op, At(ws, q))
    ensures Quiet(ws, op, i, Find(ws, op, p, j, Net(ws, i, p)))
    decreases j - p
  {
    hide At, Net;
    NetSnoc(ws, i, p);
    if p < j && !(Turn(At(ws, p)) == 0 && Net(ws, i, p) == 0 && IsOp(op, At(ws, p))) {
      TurnNoOp(op, At(ws, p));
      FindQuiet(ws, op, i, p + 1, j);
    }
  }

  lemma TurnNoOp(op: Op, w: Word)
    ensures Turn(w) != 0 ==> !IsOp(op, w)
  {
  }

  /** `syn0` stops at the first `&` that does not belong to the word before it. */
  lemma {:induction false} AmpLone(ws: seq<Word>, i: nat, p: nat, j: nat, err: Err)
    requires i <= p <= j
    requires forall q :: i <= q < p && Net(ws, i, q) == 0 && Alone(At(ws, q)) ==> Led(ws, i, q)
    ensures Lone(ws, i, Amp(ws, p, j, Net(ws, i, p), err).0)
    decreases j - p
  {
    hide At, Net, Led, Leads, Alone, C;
    var w := At(ws, p);
    LeadsMeans(w);
    AloneMeans(w);
    NetSnoc(ws, i, p);
    TurnMeans(w);
    if p < j {
      if Leads(w) {
        NotAlone(w);
        if p + 1 < j && At(ws, p + 1) == "&" {
          AmpAmp(ws, i, p);
          LedHere(ws, i, p + 1);
          AmpLone(ws, i, p + 2, j, err);
        } else {
          AmpLone(ws, i, p + 1, j, err);
        }
      } else if !(Alone(w) && Net(ws, i, p) == 0) {
        AmpLone(ws, i, p + 1, j, if C(w, 0) == ')' && Net(ws, i, p) - 1 < 0 then First(err, TOOMANY) else err);
      }
    }
  }

  lemma TurnMeans(w: Word)
    ensures Turn(w) == if C(w, 0) == '(' then 1 else if C(w, 0) == ')' then -1 else 0
  {
  }

  lemma NotAlone(w: Word)
    requires Leads(w)
    ensures !Alone(w)
  {
  }

  lemma LedHere(ws: seq<Word>, i: nat, q: nat)
    requires q > i && At(ws, q) == "&" && Leads(At(ws, q - 1))
    ensures Led(ws, i, q)
  {
  }

  lemma AmpStops(ws: seq<Word>, p: nat, j: nat, l: int, err: Err)
    requires p <= j
    ensures var r := Amp(ws, p, j, l, err); r.0 < j ==> Alone(At(ws, r.0)) && r.1 == 0
    decreases j - p
  {
  }

  lemma {:induction false} SyntaxSound(ws: seq<Word>, i: nat, j: nat, m: set<Mode>)
    requires i <= j
    ensures Sound(ws, AList, i, j, m, Syntax(ws, i, j, m))
    ensures Deep(ws, i, j) ==> Syntax(ws, i, j, m).Done?
    decreases if i < j && Separator(At(ws, i)) then 2 * (j - i) - 1 else 2 * (j - i), 9
  {
    hide Syn0, Deep, Net;
    if i < j {
      if Separator(At(ws, i)) {
        SyntaxSound(ws, i + 1, j, m);
        if Deep(ws, i, j) {
          Behind(ws, i, j);
        }
      } else {
        Syn0Sound(ws, i, j, m);
      }
    }
  }

  lemma {:induction false} Syn0Sound(ws: seq<Word>, i: nat, j: nat, m: set<Mode>)
    requires i <= j
    ensures Sound(ws, ALine, i, j, m, Syn0(ws, i, j, m))
    ensures Deep(ws, i, j) ==> Syn0(ws, i, j, m).Done?
    decreases 2 * (j - i), 8
  {
    hide Net, Deep, DeepFrom, Amp, Syn1, Syntax, Background, Lone, Alone, Parses, Sound;
    var (k, l, e) := Amp(ws, i, j, 0, None);
    AmpFinds(ws, i, j, 0, None);
    AmpFacts(ws, i, j, 0);
    AmpLevels(ws, i, j, 0, None);
    DeepEnough(ws, i, k, j);
    DeepNone(ws, i);
    AmpLone(ws, i, i, j, None);
    if k < j {
      SyntaxSound(ws, k, j, m);
    }
    if e.None? && l == 0 {
      LoneClear(ws, i, k);
      Syn1Sound(ws, i, k, m);
    }
    LineSound(ws, i, j, m);
  }

  lemma LoneClear(ws: seq<Word>, i: nat, k: nat)
    requires Lone(ws, i, k)
    ensures Clear(ws, 0, i, k)
  {
  }

  lemma LineSound(ws: seq<Word>, i: nat, j: nat, m: set<Mode>)
    requires i <= j
    requires var (k, l, e) := Amp(ws, i, j, 0, None);
             && (k < j ==> Sound(ws, AList, k, j, m, Syntax(ws, k, j, m)))
             && (e.None? && l == 0 ==> Sound(ws, ASemi, i, k, m, Syn1(ws, i, k, m)))
    ensures Sound(ws, ALine, i, j, m, Syn0(ws, i, j, m))
  {
    hide Net, Amp, Syn1, Syntax, Background, Alone;
    var (k, l, e) := Amp(ws, i, j, 0, None);
    AmpStops(ws, i, j, 0, None);
    AmpLevels(ws, i, j, 0, None);
    var r := Syn0(ws, i, j, m);
    if r.err.None? && k < j {
      var u, v := Syn1(ws, i, k, m).t, Syntax(ws, k, j, m).t;
      SkipAlone(ws, k, j, m, v);
      assert r.t == Lst(Background(u), v);
      JoinedParses(ws, i, k, j, m, u, r.t);
    }
  }

  lemma SkipAlone(ws: seq<Word>, k: nat, j: nat, m: set<Mode>, v: Tree)
    requires k < j && Alone(At(ws, k)) && Parses(ws, AList, k, j, m, v)
    ensures Parses(ws, AList, k + 1, j, m, v)
  {
  }

  lemma JoinedParses(ws: seq<Word>, i: nat, k: nat, j: nat, m: set<Mode>, u: Tree, t: Tree)
    requires i <= k < j && Alone(At(ws, k)) && t.Lst? && t.car == Background(u)
    requires Parses(ws, ASemi, i, k, m, u) && Parses(ws, AList, k + 1, j, m, t.cdr)
    ensures Parses(ws, ALine, i, j, m, t)
  {
    hide Alone, At, Background;
  }

  lemma {:induction false} Syn1Sound(ws: seq<Word>, i: nat, j: nat, m: set<Mode>)
    requires Whole(ws, i, j) && Clear(ws, 0, i, j)
    ensures Sound(ws, ASemi, i, j, m, Syn1(ws, i, j, m)) && Syn1(ws, i, j, m).Done?
    decreases 2 * (j - i), 7
  {
    hide Whole, Clear, Find, Syn1a, Syntax, Sound, Listed;
    var k := Find(ws, Semi, i, j, 0);
    Halves(ws, Semi, 0, i, j);
    Syn1aSound(ws, i, k, m);
    if k < j {
      SyntaxSound(ws, k + 1, j, m);
      WholeNet(ws, k + 1, j);
      SemiSound(ws, i, k, j, m, Syn1a(ws, i, k, m), Syntax(ws, k + 1, j, m));
    } else {
      SemiUp(ws, i, j, m, Syn1a(ws, i, j, m));
    }
  }

  lemma SemiUp(ws: seq<Word>, i: nat, j: nat, m: set<Mode>, r: Res)
    requires Clear(ws, 0, i, j) && Sound(ws, AnOr, i, j, m, r)
    ensures Sound(ws, ASemi, i, j, m, r)
  {
    hide Lone;
  }

  lemma SemiSound(ws: seq<Word>, i: nat, k: nat, j: nat, m: set<Mode>, a: Res, b: Res)
    requires i <= k < j && IsOp(Semi, At(ws, k)) && Clear(ws, 0, i, j)
    requires Sound(ws, AnOr, i, k, m, a) && Sound(ws, AList, k + 1, j, m, b)
    ensures Sound(ws, ASemi, i, j, m, Both(a, b, (x, y) => Listed(x, y)))
  {
    hide Lone, IsOp, At;
    if a.err.None? && b.err.None? {
      ParsesFacts(ws, AnOr, i, k, m, a.t);
      var t := Listed(a.t, b.t);
      assert Left(t) == a.t && Right(t) == b.t;
    }
  }

  lemma {:induction false} Syn1aSound(ws: seq<Word>, i: nat, j: nat, m: set<Mode>)
    requires Whole(ws, i, j) && Clear(ws, 1, i, j)
    ensures Sound(ws, AnOr, i, j, m, Syn1a(ws, i, j, m)) && Syn1a(ws, i, j, m).Done?
    decreases 2 * (j - i), 6
  {
    hide Whole, Clear, Find, Syn1b, Sound;
    var k := Find(ws, OrOr, i, j, 0);
    Halves(ws, OrOr, 1, i, j);
    Syn1bSound(ws, i, k, m);
    if k < j {
      Syn1aSound(ws, k + 1, j, m);
      OrSound(ws, i, k, j, m, Syn1b(ws, i, k, m), Syn1a(ws, k + 1, j, m));
    } else {
      OrUp(ws, i, j, m, Syn1b(ws, i, j, m));
    }
  }

  lemma OrUp(ws: seq<Word>, i: nat, j: nat, m: set<Mode>, r: Res)
    requires Sound(ws, AnAnd, i, j, m, r)
    ensures Sound(ws, AnOr, i, j, m, r)
  {
  }

  lemma OrSound(ws: seq<Word>, i: nat, k: nat, j: nat, m: set<Mode>, a: Res, b: Res)
    requires i <= k < j && IsOp(OrOr, At(ws, k))
    requires Sound(ws, AnAnd, i, k, m, a) && Sound(ws, AnOr, k + 1, j, m, b)
    ensures Sound(ws, AnOr, i, j, m, Both(a, b, (x, y) => Or(x, y)))
  {
    hide IsOp, At;
    if a.err.None? && b.err.None? {
      var t := Or(a.t, b.t);
      assert t.car == a.t && t.cdr == b.t;
    }
  }

  lemma {:induction false} Syn1bSound(ws: seq<Word>, i: nat, j: nat, m: set<Mode>)
    requires Whole(ws, i, j) && Clear(ws, 2, i, j)
    ensures Sound(ws, AnAnd, i, j, m, Syn1b(ws, i, j, m)) && Syn1b(ws, i, j, m).Done?
    decreases 2 * (j - i), 5
  {
    hide Whole, Clear, Find, Syn2, Sound;
    var k := Find(ws, AndAnd, i, j, 0);
    Halves(ws, AndAnd, 2, i, j);
    Syn2Sound(ws, i, k, m);
    if k < j {
      Syn1bSound(ws, k + 1, j, m);
      AndSound(ws, i, k, j, m, Syn2(ws, i, k, m), Syn1b(ws, k + 1, j, m));
    } else {
      AndUp(ws, i, j, m, Syn2(ws, i, j, m));
    }
  }

  lemma AndUp(ws: seq<Word>, i: nat, j: nat, m: set<Mode>, r: Res)
    requires Sound(ws, APipe, i, j, m, r)
    ensures Sound(ws, AnAnd, i, j, m, r)
  {
  }

  lemma AndSound(ws: seq<Word>, i: nat, k: nat, j: nat, m: set<Mode>, a: Res, b: Res)
    requires i <= k < j && IsOp(AndAnd, At(ws, k))
    requires Sound(ws, APipe, i, k, m, a) && Sound(ws, AnAnd, k + 1, j, m, b)
    ensures Sound(ws, AnAnd, i, j, m, Both(a, b, (x, y) => And(x, y)))
  {
    hide IsOp, At;
    if a.err.None? && b.err.None? {
      var t := And(a.t, b.t);
      assert t.car == a.t && t.cdr == b.t;
    }
  }

  /** What is behind a `|`, or a `|&`. */
  lemma BehindPipe(ws: seq<Word>, i: nat, k: nat, j: nat)
    requires Whole(ws, i, j) && Clear(ws, 3, i, j) && i <= k < j && Whole(ws, i, k) && Whole(ws, k + 1, j) && IsOp(Pipe, At(ws, k))
    ensures var n := if Diag(ws, k, j) then k + 2 else k + 1;
            && (Diag(ws, k, j) ==> At(ws, k + 1) == "&") && !IsOp(OrOr, At(ws, k))
            && Whole(ws, n, j) && Clear(ws, 3, n, j)
  {
    hide Net, Deep;
    WholeNet(ws, i, k);
    NetSnoc(ws, i, k);
    assert !IsOp(OrOr, At(ws, k));
    if Diag(ws, k, j) {
      var w := At(ws, k + 1);
      assert !IsOp(AndAnd, w);
      assert Alone(w) && Led(ws, i, k + 1);
      NetSnoc(ws, i, k + 1);
      WholeCons(ws, k + 1, j);
      hide At;
      assert C("&", 0) == '&' && C("&", 1) == '\0';
      ClearTail(ws, 3, i, k + 2, j);
    } else {
      ClearTail(ws, 3, i, k + 1, j);
    }
  }

  lemma {:induction false} Syn2Sound(ws: seq<Word>, i: nat, j: nat, m: set<Mode>)
    requires Whole(ws, i, j) && Clear(ws, 3, i, j)
    ensures Sound(ws, APipe, i, j, m, Syn2(ws, i, j, m)) && Syn2(ws, i, j, m).Done?
    decreases 2 * (j - i), 4
  {
    hide Whole, Clear, Find, Syn3, Sound, IsOp;
    var k := Find(ws, Pipe, i, j, 0);
    Halves(ws, Pipe, 3, i, j);
    if k < j {
      BehindPipe(ws, i, k, j);
      var diag := Diag(ws, k, j);
      var n := if diag then k + 2 else k + 1;
      Syn3Sound(ws, i, k, Before(m, diag));
      Syn2Sound(ws, n, j, m + {PIn});
      PipeSound(ws, i, k, j, m, Syn3(ws, i, k, Before(m, diag)), Syn2(ws, n, j, m + {PIn}));
    } else {
      Syn3Sound(ws, i, j, m);
      PipeUp(ws, i, j, m, Syn3(ws, i, j, m));
    }
  }

  lemma PipeUp(ws: seq<Word>, i: nat, j: nat, m: set<Mode>, r: Res)
    requires Sound(ws, AUnit, i, j, m, r)
    ensures Sound(ws, APipe, i, j, m, r)
  {
    hide IsCommand, IsSubshell;
  }

  lemma PipeSound(ws: seq<Word>, i: nat, k: nat, j: nat, m: set<Mode>, a: Res, b: Res)
    requires i <= k < j && IsOp(Pipe, At(ws, k)) && !IsOp(OrOr, At(ws, k)) && (Diag(ws, k, j) ==> At(ws, k + 1) == "&")
    requires Sound(ws, AUnit, i, k, Before(m, Diag(ws, k, j)), a)
    requires Sound(ws, APipe, if Diag(ws, k, j) then k + 2 else k + 1, j, m + {PIn}, b)
    ensures Sound(ws, APipe, i, j, m, Both(a, b, (x, y) => Fil(x, y, if Diag(ws, k, j) then {FDiag} else {})))
  {
    hide IsOp, At, Diag, Before, IsCommand, IsSubshell;
    if a.err.None? && b.err.None? {
      var t := Fil(a.t, b.t, if Diag(ws, k, j) then {FDiag} else {});
      assert t.car == a.t && t.cdr == b.t;
    }
  }

  lemma {:induction false} Syn3Sound(ws: seq<Word>, i: nat, j: nat, m: set<Mode>)
    requires Whole(ws, i, j) && Clear(ws, 4, i, j)
    ensures Sound(ws, AUnit, i, j, m, Syn3(ws, i, j, m)) && Syn3(ws, i, j, m).Done?
    decreases 2 * (j - i), 3
  {
    hide Whole, Clear, Walk, Syn0, Special, Covered, Tidy, Sound, Words, File;
    var spec := Special(ws, i, j);
    var s := Walk(ws, i, j, spec, m, Start(ws, j));
    SimpleFacts(ws, i, j, spec, m);
    if s.lp.Some? && !spec {
      WholeNet(ws, s.lp.value, s.rp.value);
      Syn0Sound(ws, s.lp.value, s.rp.value, {PHere});
      ParSound(ws, i, j, s, Syn0(ws, s.lp.value, s.rp.value, {PHere}), m);
    } else {
      ComSound(ws, i, j, s, m);
    }
  }

  lemma ComSound(ws: seq<Word>, i: nat, j: nat, s: Simple, m: set<Mode>)
    requires Whole(ws, i, j) && Clear(ws, 4, i, j)
    requires var spec := Special(ws, i, j);
             (spec || s.lp.None?) && (s.err.None? ==> Covered(ws, i, j, spec, s) && Tidy(ws, j, m, s))
    ensures Sound(ws, AUnit, i, j, m, Done(Com(Words(ws, s.pos), File(ws, s.lef), File(ws, s.rit), s.flg),
                                           if s.pos == [] then First(s.err, NULLCMD) else s.err))
  {
    hide Clear, Whole, Places, Flags, Special, Flat, Directed, Accounted, Ascending, Filed;
    WholeNet(ws, i, j);
    if s.err.None? && s.pos != [] {
      ComPlaces(ws, i, j, Special(ws, i, j), s);
      assert IsCommand(ws, i, j, m, Com(Words(ws, s.pos), File(ws, s.lef), File(ws, s.rit), s.flg), s.pos, s.lef, s.rit);
    }
  }

  lemma ParSound(ws: seq<Word>, i: nat, j: nat, s: Simple, sub: Res, m: set<Mode>)
    requires Whole(ws, i, j) && Clear(ws, 4, i, j) && Closed(i, j, s) && Whole(ws, s.lp.value, s.rp.value)
    requires Sound(ws, ALine, s.lp.value, s.rp.value, {PHere}, sub) && sub.Done?
    requires s.err.None? ==> Covered(ws, i, j, false, s) && Tidy(ws, j, m, s) && s.l == 0
    ensures Sound(ws, AUnit, i, j, m, After(if s.pos != [] then First(s.err, BADPLACES) else s.err, Subshell(ws, sub, s)))
  {
    hide Clear, Whole, Places, Flags, Directed, Covered, File;
    if s.err.None? && s.pos == [] && sub.err.None? {
      ParNet(ws, i, j, s);
      ParPlaces(ws, i, j, s);
      FileSide(ws, i, j, s);
      var t := Par(sub.t, File(ws, s.lef), File(ws, s.rit), s.flg);
      ShellParses(ws, i, s.lp.value - 1, s.rp.value, j, m, t, s.lef, s.rit);
    }
  }

  lemma ShellParses(ws: seq<Word>, i: nat, p: nat, q: nat, j: nat, m: set<Mode>, t: Tree, lef: Option<nat>, rit: Option<nat>)
    requires IsSubshell(ws, i, p, q, j, m, t, lef, rit) && Parses(ws, ALine, p + 1, q, {PHere}, t.sub)
    ensures Parses(ws, AUnit, i, j, m, t)
  {
    hide Places, Flags, Directed;
  }

  // ------------------------------------------------------------ the parser as a whole

  /** The parser flags no error exactly for the lists of words that the grammar has a
      tree for, and then it finds that tree. */
  lemma ParserCorrect(ws: seq<Word>, t: Tree)
    ensures Syntax(ws, 0, |ws|, {}) == Done(t, None) <==> Parses(ws, AList, 0, |ws|, {}, t)
    ensures Syntax(ws, 0, |ws|, {}).Astray? ==> Syntax(ws, 0, |ws|, {}).err.Some?
  {
    SyntaxSound(ws, 0, |ws|, {});
    if Parses(ws, AList, 0, |ws|, {}, t) {
      Complete(ws, AList, 0, |ws|, {}, t);
    }
  }

  /** The grammar is not ambiguous. */
  lemma OneTree(ws: seq<Word>, t: Tree, u: Tree)
    requires Parses(ws, AList, 0, |ws|, {}, t) && Parses(ws, AList, 0, |ws|, {}, u)
    ensures t == u
  {
    ParserCorrect(ws, t);
    ParserCorrect(ws, u);
  }

  // -------------------------------------------------- the alias pass before it

  /** The pass for aliases, once it finds none: whether it lets the words through.
      (What it looks for within parentheses can only make it stop sooner.) */
  predicate Asyntax(ws: seq<Word>, i: nat, j: nat)
    decreases j - i, 1
  {
    if i >= j then true else if Separator(At(ws, i)) then Asyntax(ws, i + 1, j) else Asyn0(ws, i, j, 0)
  }

  predicate Asyn0(ws: seq<Word>, p: nat, j: nat, l: int)
    decreases j - p, 0
  {
    var c := C(At(ws, p), 0);
    if p >= j then true
    else if c == '(' then Asyn0(ws, p + 1, j, l + 1)
    else if c == ')' then l - 1 >= 0 && Asyn0(ws, p + 1, j, l - 1)
    else if c == '>' then Asyn0(ws, if p + 1 < j && At(ws, p + 1) == "&" then p + 2 else p + 1, j, l)
    else if c in "&|;\n" && l == 0 then Asyntax(ws, p + 1, j)
    else Asyn0(ws, p + 1, j, l)
  }

  lemma {:induction false} AsyntaxDeep(ws: seq<Word>, i: nat, j: nat)
    requires i <= j && Asyntax(ws, i, j)
    ensures DeepFrom(ws, i, j, 0)
    decreases j - i, 1
  {
    if i == j {
      DeepFromHere(ws, i, 0);
    } else if Separator(At(ws, i)) {
      AsyntaxDeep(ws, i + 1, j);
      DeepFromNext(ws, i, j, 0);
    } else {
      Asyn0Deep(ws, i, j, 0);
    }
  }

  lemma {:induction false} Asyn0Deep(ws: seq<Word>, p: nat, j: nat, l: int)
    requires p <= j && l >= 0 && Asyn0(ws, p, j, l)
    ensures DeepFrom(ws, p, j, l)
    decreases j - p, 0
  {
    hide DeepFrom;
    var c := C(At(ws, p), 0);
    if p == j {
      DeepFromHere(ws, p, l);
    } else {
      DeepFromNext(ws, p, j, l);
      if c == '(' {
        Asyn0Deep(ws, p + 1, j, l + 1);
      } else if c == ')' {
        Asyn0Deep(ws, p + 1, j, l - 1);
      } else if c == '>' && p + 1 < j && At(ws, p + 1) == "&" {
        Asyn0Deep(ws, p + 2, j, l);
        DeepFromNext(ws, p + 1, j, l);
      } else if c in "&|;\n" && l == 0 {
        AsyntaxDeep(ws, p + 1, j);
      } else {
        Asyn0Deep(ws, p + 1, j, l);
      }
    }
  }

  /** What the alias pass lets through is always parsed to an end. */
  lemma AliasedEnds(ws: seq<Word>)
    requires Asyntax(ws, 0, |ws|)
    ensures Syntax(ws, 0, |ws|, {}).Done?
  {
    AsyntaxDeep(ws, 0, |ws|);
    DeepEnough(ws, 0, |ws|, |ws|);
    SyntaxSound(ws, 0, |ws|, {});
  }

  /** What it does not let through may be parsed for ever: when a closing parenthesis
      is taken for the name of a file, an opening one behind it is never closed. */
  lemma GoesAstray()
    ensures var ws := [">", ")", "(", "(", "a", ")", "\n"];
            Syntax(ws, 0, 7, {}).Astray? && Walk(ws, 0, 6, Special(ws, 0, 6), {}, Start(ws, 6)).rp.None?
  {
    hide Syn1, Walk;
    var ws := [">", ")", "(", "(", "a", ")", "\n"];
    assert Amp(ws, 4, 7, 1, TOOMANY) == (7, 0, TOOMANY);
    assert Amp(ws, 1, 7, 0, None) == (7, 0, TOOMANY);
    AstrayList(ws);
    AstrayWalk(ws);
  }

  lemma AstrayList(ws: seq<Word>)
    requires ws == [">", ")", "(", "(", "a", ")", "\n"]
    ensures Syn1(ws, 0, 7, {}).Astray?
  {
    hide Syn3, Walk, Syntax, Syn0;
    assert Find(ws, Semi, 4, 7, 1) == 6;
    assert Find(ws, Semi, 0, 7, 0) == 6;
    AstrayFinds(ws, OrOr);
    AstrayFinds(ws, AndAnd);
    AstrayFinds(ws, Pipe);
    AstrayWalk(ws);
    assert Syn1b(ws, 0, 6, {}).Astray?;
  }

  lemma AstrayFinds(ws: seq<Word>, op: Op)
    requires ws == [">", ")", "(", "(", "a", ")", "\n"] && op != Semi
    ensures Find(ws, op, 0, 6, 0) == 6
  {
    assert Find(ws, op, 4, 6, 1) == 6;
    assert Find(ws, op, 2, 6, -1) == 6;
  }

  lemma AstrayWalk(ws: seq<Word>)
    requires ws == [">", ")", "(", "(", "a", ")", "\n"]
    ensures Syn3(ws, 0, 6, {}).Astray? && Walk(ws, 0, 6, Special(ws, 0, 6), {}, Start(ws, 6)).rp.None?
  {
    hide Syn0, Find;
    var s0 := Start(ws, 6);
    var s1 := s0.(err := MISSING);
    var s2 := s1.(lp := Some(3), l := 1);
    var s3 := s2.(l := 2);
    AstrayEnd(ws, s3);
    assert Step(ws, 0, 6, false, {}, s0) == (s1, 1);
    assert Step(ws, 2, 6, false, {}, s1) == (s2, 2);
    assert Step(ws, 3, 6, false, {}, s2) == (s3, 3);
  }

  lemma AstrayEnd(ws: seq<Word>, s: Simple)
    requires ws == [">", ")", "(", "(", "a", ")", "\n"] && s.l == 2
    ensures Walk(ws, 4, 6, false, {}, s) == s.(l := 1)
  {
    assert Step(ws, 4, 6, false, {}, s) == (s, 4);
    assert Step(ws, 5, 6, false, {}, s) == (s.(l := 1), 5);
  }

  // ------------------------------------------------------------ what a tree holds of the words

  /** The words of the simple commands, from left to right. */
  function Args(t: Tree): seq<Word> {
    match t
    case Nil => []
    case Com(args, _, _, _) => args
    case Par(sub, _, _, _) => Args(sub)
    case Fil(car, cdr, _) => Args(car) + Args(cdr)
    case And(car, cdr) => Args(car) + Args(cdr)
    case Or(car, cdr) => Args(car) + Args(cdr)
    case Lst(car, cdr) => Args(car) + Args(cdr)
  }

  /** A file, with whether it is written to. */
  function Bag(lef: Option<Word>, rit: Option<Word>): multiset<(bool, Word)> {
    (if lef.Some? then multiset{(false, lef.value)} else multiset{})
    + (if rit.Some? then multiset{(true, rit.value)} else multiset{})
  }

  /** The files of the redirections. */
  function Files(t: Tree): multiset<(bool, Word)> {
    match t
    case Nil => multiset{}
    case Com(_, lef, rit, _) => Bag(lef, rit)
    case Par(sub, lef, rit, _) => Files(sub) + Bag(lef, rit)
    case Fil(car, cdr, _) => Files(car) + Files(cdr)
    case And(car, cdr) => Files(car) + Files(cdr)
    case Or(car, cdr) => Files(car) + Files(cdr)
    case Lst(car, cdr) => Files(car) + Files(cdr)
  }

  /** A word that only directs the parser; `!` is one behind a `>`. */
  predicate Filler(ws: seq<Word>, q: nat) {
    C(At(ws, q), 0) in ";&|\n()<>" || (At(ws, q) == "!" && q > 0 && (C(At(ws, q - 1), 0) == '>' || At(ws, q - 1) == "&"))
  }

  /** Each word is the next argument, one of the files, or directs the parser, and
      nothing is left over. */
  ghost predicate Told(ws: seq<Word>, i: nat, j: nat, args: seq<Word>, files: multiset<(bool, Word)>)
    decreases j - i
  {
    if i >= j then args == [] && files == multiset{}
    else
      var w := At(ws, i);
      || (Filler(ws, i) && Told(ws, i + 1, j, args, files))
      || (args != [] && args[0] == w && Told(ws, i + 1, j, args[1..], files))
      || ((false, w) in files && InAt(ws, i) && Told(ws, i + 1, j, args, files - multiset{(false, w)}))
      || ((true, w) in files && OutAt(ws, i) && Told(ws, i + 1, j, args, files - multiset{(true, w)}))
  }

  lemma {:induction false} ToldAdds(ws: seq<Word>, i: nat, k: nat, j: nat,
                                    a: seq<Word>, f: multiset<(bool, Word)>, b: seq<Word>, g: multiset<(bool, Word)>)
    requires i <= k <= j && Told(ws, i, k, a, f) && Told(ws, k, j, b, g)
    ensures Told(ws, i, j, a + b, f + g)
    decreases k - i
  {
    hide Filler, At, InAt, OutAt;
    if i == k {
      assert a + b == b && f + g == g;
    } else {
      var w := At(ws, i);
      if Filler(ws, i) && Told(ws, i + 1, k, a, f) {
        ToldAdds(ws, i + 1, k, j, a, f, b, g);
      } else if a != [] && a[0] == w && Told(ws, i + 1, k, a[1..], f) {
        ToldAdds(ws, i + 1, k, j, a[1..], f, b, g);
        assert (a + b)[1..] == a[1..] + b;
      } else {
        var out := !((false, w) in f && InAt(ws, i) && Told(ws, i + 1, k, a, f - multiset{(false, w)}));
        ToldAdds(ws, i + 1, k, j, a, f - multiset{(out, w)}, b, g);
        assert (f + g) - multiset{(out, w)} == (f - multiset{(out, w)}) + g;
      }
    }
  }

  lemma {:induction false} ToldFillers(ws: seq<Word>, i: nat, n: nat, j: nat, a: seq<Word>, f: multiset<(bool, Word)>)
    requires i <= n <= j && Told(ws, n, j, a, f) && forall q :: i <= q < n ==> Filler(ws, q)
    ensures Told(ws, i, j, a, f)
    decreases n - i
  {
    hide Filler;
    if i < n {
      ToldFillers(ws, i + 1, n, j, a, f);
    }
  }

  /** A tree of two parts with operators between them. */
  lemma ToldBoth(ws: seq<Word>, i: nat, k: nat, n: nat, j: nat, a: Tree, b: Tree, t: Tree)
    requires i <= k <= n <= j && Holds(ws, i, k, a) && Holds(ws, n, j, b) && forall q :: k <= q < n ==> Filler(ws, q)
    requires Args(t) == Args(a) + Args(b) && Files(t) == Files(a) + Files(b)
    ensures Holds(ws, i, j, t)
  {
    hide Told, Filler, Args, Files;
    ToldFillers(ws, k, n, j, Args(b), Files(b));
    ToldAdds(ws, i, k, j, Args(a), Files(a), Args(b), Files(b));
  }

  ghost predicate Holds(ws: seq<Word>, i: nat, j: nat, t: Tree) {
    Told(ws, i, j, Args(t), Files(t))
  }

  lemma PartsHold(t: Tree)
    requires t.Fil? || t.And? || t.Or? || t.Lst?
    ensures Args(t) == Args(t.car) + Args(t.cdr) && Files(t) == Files(t.car) + Files(t.cdr)
    ensures t.Lst? ==> Args(t) == Args(Left(t)) + Args(Right(t)) && Files(t) == Files(Left(t)) + Files(Right(t))
  {
  }

  /** A stretch of arguments and redirections. */
  lemma {:induction false} StretchTold(ws: seq<Word>, b: nat, p: nat, c: nat, pos: seq<nat>, lef: Option<nat>, rit: Option<nat>)
    requires b <= p <= c && Places(ws, b, p, c, pos, lef, rit)
    ensures Told(ws, p, c, Words(ws, pos), Bag(File(ws, lef), File(ws, rit)))
    decreases c - p
  {
    hide Places, Told, Filler, At, InAt, OutAt, OutMark, InFile, Words, Net, Plain;
    if p == c {
      NoPlaces(ws, b, p, pos, lef, rit);
      ToldNone(ws, p);
    } else if lef == Some(p + 1) {
      InFirst(ws, b, p, c, pos, lef, rit);
      StretchTold(ws, b, p + 2, c, pos, None, rit);
      InTold(ws, b, p, c, pos, lef, rit);
    } else if rit.Some? && OutMark(ws, rit.value) == p {
      OutFirst(ws, b, p, c, pos, lef, rit);
      StretchTold(ws, b, rit.value + 1, c, pos, lef, None);
      OutTold(ws, b, p, c, pos, lef, rit);
    } else {
      NotInFile(ws, b, p, c, pos, lef, rit);
      WordFirst(ws, b, p, c, pos, lef, rit);
      StretchTold(ws, b, p + 1, c, pos[1..], lef, rit);
      WordTold(ws, p, c, pos, Bag(File(ws, lef), File(ws, rit)));
    }
  }

  lemma ToldNone(ws: seq<Word>, p: nat)
    ensures Told(ws, p, p, Words(ws, []), Bag(None, None))
  {
    assert Words(ws, []) == [];
  }

  lemma WordTold(ws: seq<Word>, p: nat, c: nat, pos: seq<nat>, f: multiset<(bool, Word)>)
    requires p < c && pos != [] && pos[0] == p && Told(ws, p + 1, c, Words(ws, pos[1..]), f)
    ensures Told(ws, p, c, Words(ws, pos), f)
  {
    hide At, Filler, InAt, OutAt;
    assert Words(ws, pos)[1..] == Words(ws, pos[1..]);
  }

  lemma InTold(ws: seq<Word>, b: nat, p: nat, c: nat, pos: seq<nat>, lef: Option<nat>, rit: Option<nat>)
    requires p + 2 <= c && Places(ws, b, p, c, pos, lef, rit) && lef == Some(p + 1)
    requires Told(ws, p + 2, c, Words(ws, pos), Bag(None, File(ws, rit)))
    ensures Told(ws, p, c, Words(ws, pos), Bag(File(ws, lef), File(ws, rit)))
  {
    hide At, Ascending, Placed, OutAt, OutMark, Net, Words, Plain;
    var w := At(ws, p + 1);
    var f := Bag(File(ws, lef), File(ws, rit));
    assert InAt(ws, p + 1) && Filler(ws, p);
    hide Filler, InAt;
    assert f - multiset{(false, w)} == Bag(None, File(ws, rit));
    assert Told(ws, p + 1, c, Words(ws, pos), f);
  }

  lemma OutTold(ws: seq<Word>, b: nat, p: nat, c: nat, pos: seq<nat>, lef: Option<nat>, rit: Option<nat>)
    requires p < c && Places(ws, b, p, c, pos, lef, rit) && rit.Some? && OutMark(ws, rit.value) == p && p < rit.value < c
    requires Told(ws, rit.value + 1, c, Words(ws, pos), Bag(File(ws, lef), None))
    ensures Told(ws, p, c, Words(ws, pos), Bag(File(ws, lef), File(ws, rit)))
  {
    hide At, Ascending, Placed, Net, Words, Plain, Filler, InAt, Told;
    var g := rit.value;
    OutFillers(ws, g);
    FileTold(ws, g, c, Words(ws, pos), Bag(File(ws, lef), File(ws, rit)), Bag(File(ws, lef), None));
    ToldFillers(ws, p, g, c, Words(ws, pos), Bag(File(ws, lef), File(ws, rit)));
  }

  lemma FileTold(ws: seq<Word>, g: nat, c: nat, a: seq<Word>, f: multiset<(bool, Word)>, f': multiset<(bool, Word)>)
    requires g < c && OutAt(ws, g) && f == f' + multiset{(true, At(ws, g))} && Told(ws, g + 1, c, a, f')
    ensures Told(ws, g, c, a, f)
  {
    hide At, Filler, OutAt, InAt;
    assert f - multiset{(true, At(ws, g))} == f';
  }

  lemma OutFillers(ws: seq<Word>, g: nat)
    requires OutAt(ws, g)
    ensures forall q :: OutMark(ws, g) <= q < g ==> Filler(ws, q)
  {
    hide At;
    assert C("&", 0) == '&' && C("!", 0) == '!';
  }

  lemma BackgroundTold(u: Tree)
    ensures Args(Background(u)) == Args(u) && Files(Background(u)) == Files(u)
  {
  }

  lemma OpFiller(ws: seq<Word>, k: nat)
    requires Separator(At(ws, k)) || Alone(At(ws, k)) || (exists op :: IsOp(op, At(ws, k))) || C(At(ws, k), 0) in "()&"
    ensures Filler(ws, k)
  {
  }

  lemma {:induction false} ParsesTold(ws: seq<Word>, y: Layer, i: nat, j: nat, m: set<Mode>, t: Tree)
    requires i <= j && Parses(ws, y, i, j, m, t)
    ensures Holds(ws, i, j, t)
    decreases if y == AList && i < j && Separator(At(ws, i)) then 2 * (j - i) - 1 else 2 * (j - i), Rank(y), 1
  {
    hide Parses, Holds;
    match y
    case AList => ListTold(ws, i, j, m, t);
    case ALine => LineTold(ws, i, j, m, t);
    case ASemi => SemiTold(ws, i, j, m, t);
    case AnOr => OrTold(ws, i, j, m, t);
    case AnAnd => AndTold(ws, i, j, m, t);
    case APipe => PipeTold(ws, i, j, m, t);
    case AUnit => UnitTold(ws, i, j, m, t);
  }

  lemma {:induction false} ListTold(ws: seq<Word>, i: nat, j: nat, m: set<Mode>, t: Tree)
    requires i <= j && Parses(ws, AList, i, j, m, t)
    ensures Holds(ws, i, j, t)
    decreases if i < j && Separator(At(ws, i)) then 2 * (j - i) - 1 else 2 * (j - i), Rank(AList), 0
  {
    hide Separator, At, Filler, Holds;
    if i < j {
      if Separator(At(ws, i)) {
        ListTold(ws, i + 1, j, m, t);
        OpFiller(ws, i);
        HoldsBehind(ws, i, j, t);
      } else {
        ParsesTold(ws, ALine, i, j, m, t);
      }
    } else {
      NothingHolds(ws, i);
    }
  }

  lemma NothingHolds(ws: seq<Word>, i: nat)
    ensures Holds(ws, i, i, Nil)
  {
  }

  lemma HoldsBehind(ws: seq<Word>, i: nat, j: nat, t: Tree)
    requires i < j && Filler(ws, i) && Holds(ws, i + 1, j, t)
    ensures Holds(ws, i, j, t)
  {
    hide Filler, Args, Files;
  }

  lemma {:induction false} LineTold(ws: seq<Word>, i: nat, j: nat, m: set<Mode>, t: Tree)
    requires i <= j && Parses(ws, ALine, i, j, m, t)
    ensures Holds(ws, i, j, t)
    decreases 2 * (j - i), Rank(ALine), 0
  {
    hide Holds, Alone, At, Background, Filler, Args, Files;
    if Parses(ws, ASemi, i, j, m, t) {
      ParsesTold(ws, ASemi, i, j, m, t);
    } else {
      var k, u :| i <= k < j && Alone(At(ws, k)) && t.car == Background(u)
                  && Parses(ws, ASemi, i, k, m, u) && Parses(ws, AList, k + 1, j, m, t.cdr);
      ParsesTold(ws, ASemi, i, k, m, u);
      ParsesTold(ws, AList, k + 1, j, m, t.cdr);
      BackgroundTold(u);
      OpFiller(ws, k);
      PartsHold(t);
      ToldBoth(ws, i, k, k + 1, j, u, t.cdr, t);
    }
  }

  lemma {:induction false} SemiTold(ws: seq<Word>, i: nat, j: nat, m: set<Mode>, t: Tree)
    requires i <= j && Parses(ws, ASemi, i, j, m, t)
    ensures Holds(ws, i, j, t)
    decreases 2 * (j - i), Rank(ASemi), 0
  {
    hide Holds, IsOp, At, Filler, Lone, Args, Files;
    if Parses(ws, AnOr, i, j, m, t) {
      ParsesTold(ws, AnOr, i, j, m, t);
    } else {
      var k :| i <= k < j && IsOp(Semi, At(ws, k)) && Parses(ws, AnOr, i, k, m, Left(t)) && Parses(ws, AList, k + 1, j, m, Right(t));
      var a, b := Left(t), Right(t);
      ParsesTold(ws, AnOr, i, k, m, a);
      ParsesTold(ws, AList, k + 1, j, m, b);
      OpFiller(ws, k);
      PartsHold(t);
      ToldBoth(ws, i, k, k + 1, j, a, b, t);
    }
  }

  lemma {:induction false} OrTold(ws: seq<Word>, i: nat, j: nat, m: set<Mode>, t: Tree)
    requires i <= j && Parses(ws, AnOr, i, j, m, t)
    ensures Holds(ws, i, j, t)
    decreases 2 * (j - i), Rank(AnOr), 0
  {
    hide Holds, IsOp, At, Filler, Args, Files;
    if Parses(ws, AnAnd, i, j, m, t) {
      ParsesTold(ws, AnAnd, i, j, m, t);
    } else {
      var k :| i <= k < j && IsOp(OrOr, At(ws, k)) && Parses(ws, AnAnd, i, k, m, t.car) && Parses(ws, AnOr, k + 1, j, m, t.cdr);
      ParsesTold(ws, AnAnd, i, k, m, t.car);
      ParsesTold(ws, AnOr, k + 1, j, m, t.cdr);
      OpFiller(ws, k);
      PartsHold(t);
      ToldBoth(ws, i, k, k + 1, j, t.car, t.cdr, t);
    }
  }

  lemma {:induction false} AndTold(ws: seq<Word>, i: nat, j: nat, m: set<Mode>, t: Tree)
    requires i <= j && Parses(ws, AnAnd, i, j, m, t)
    ensures Holds(ws, i, j, t)
    decreases 2 * (j - i), Rank(AnAnd), 0
  {
    hide Holds, IsOp, At, Filler, Args, Files;
    if Parses(ws, APipe, i, j, m, t) {
      ParsesTold(ws, APipe, i, j, m, t);
    } else {
      var k :| i <= k < j && IsOp(AndAnd, At(ws, k)) && Parses(ws, APipe, i, k, m, t.car) && Parses(ws, AnAnd, k + 1, j, m, t.cdr);
      ParsesTold(ws, APipe, i, k, m, t.car);
      ParsesTold(ws, AnAnd, k + 1, j, m, t.cdr);
      OpFiller(ws, k);
      PartsHold(t);
      ToldBoth(ws, i, k, k + 1, j, t.car, t.cdr, t);
    }
  }

  lemma {:induction false} PipeTold(ws: seq<Word>, i: nat, j: nat, m: set<Mode>, t: Tree)
    requires i <= j && Parses(ws, APipe, i, j, m, t)
    ensures Holds(ws, i, j, t)
    decreases 2 * (j - i), Rank(APipe), 0
  {
    hide Holds, IsOp, At, Filler, Args, Files, IsCommand, IsSubshell;
    if Parses(ws, AUnit, i, j, m, t) {
      ParsesTold(ws, AUnit, i, j, m, t);
    } else {
      var k :| i <= k < j && IsOp(Pipe, At(ws, k))
                && Parses(ws, AUnit, i, k, Before(m, Diag(ws, k, j)), t.car)
                && Parses(ws, APipe, if Diag(ws, k, j) then k + 2 else k + 1, j, m + {PIn}, t.cdr);
      var n := if Diag(ws, k, j) then k + 2 else k + 1;
      ParsesTold(ws, AUnit, i, k, Before(m, Diag(ws, k, j)), t.car);
      ParsesTold(ws, APipe, n, j, m + {PIn}, t.cdr);
      OpFiller(ws, k);
      DiagFiller(ws, k, j);
      PartsHold(t);
      ToldBoth(ws, i, k, n, j, t.car, t.cdr, t);
    }
  }

  lemma DiagFiller(ws: seq<Word>, k: nat, j: nat)
    ensures Diag(ws, k, j) ==> k + 2 <= j && Filler(ws, k + 1)
  {
  }

  lemma {:induction false} UnitTold(ws: seq<Word>, i: nat, j: nat, m: set<Mode>, t: Tree)
    requires i <= j && Parses(ws, AUnit, i, j, m, t)
    ensures Holds(ws, i, j, t)
    decreases 2 * (j - i), Rank(AUnit), 0
  {
    hide Holds, IsCommand, IsSubshell;
    if pos, lef, rit :| IsCommand(ws, i, j, m, t, pos, lef, rit) {
      CommandTold(ws, i, j, m, t, pos, lef, rit);
    } else {
      var p: nat, q: nat, lef, rit :| IsSubshell(ws, i, p, q, j, m, t, lef, rit) && Parses(ws, ALine, p + 1, q, {PHere}, t.sub);
      ShellSpan(ws, i, p, q, j, m, t, lef, rit);
      ParsesTold(ws, ALine, p + 1, q, {PHere}, t.sub);
      SubshellTold(ws, i, p, q, j, m, t, lef, rit);
    }
  }

  lemma CommandTold(ws: seq<Word>, i: nat, j: nat, m: set<Mode>, t: Tree, pos: seq<nat>, lef: Option<nat>, rit: Option<nat>)
    requires i <= j && IsCommand(ws, i, j, m, t, pos, lef, rit)
    ensures Holds(ws, i, j, t)
  {
    hide Told, Places, Words, File, Flags, Special, Whole, Flat, Directed;
    StretchTold(ws, i, i, j, pos, lef, rit);
  }

  /** A segment of redirections alone, as a tree without arguments. */
  function Bare(lef: Option<Word>, rit: Option<Word>): Tree {
    Com([], lef, rit, {})
  }

  lemma BareTold(ws: seq<Word>, b: nat, i: nat, j: nat, lef: Option<nat>, rit: Option<nat>)
    requires b <= i <= j && Places(ws, b, i, j, [], lef, rit)
    ensures Holds(ws, i, j, Bare(File(ws, lef), File(ws, rit)))
  {
    hide Told, Places, File;
    StretchTold(ws, b, i, j, [], lef, rit);
    assert Words(ws, []) == [];
  }

  lemma SubshellTold(ws: seq<Word>, i: nat, p: nat, q: nat, j: nat, m: set<Mode>, t: Tree, lef: Option<nat>, rit: Option<nat>)
    requires IsSubshell(ws, i, p, q, j, m, t, lef, rit) && Holds(ws, p + 1, q, t.sub)
    ensures Holds(ws, i, j, t)
  {
    hide Holds, Places, Flags, Directed, At, File, Filler, Args, Files, Bare;
    var l1, r1, l2, r2 := File(ws, Upto(lef, p)), File(ws, Upto(rit, p)), File(ws, From(lef, p)), File(ws, From(rit, p));
    BareTold(ws, i, i, p, Upto(lef, p), Upto(rit, p));
    BareTold(ws, q + 1, q + 1, j, From(lef, p), From(rit, p));
    OpFiller(ws, p);
    OpFiller(ws, q);
    SidesHold(ws, p, t, lef, rit);
    var u := Par(t.sub, l1, r1, {});
    ToldBoth(ws, i, p, p + 1, q, Bare(l1, r1), t.sub, u);
    ToldBoth(ws, i, q, q + 1, j, u, Bare(l2, r2), t);
  }

  lemma SidesHold(ws: seq<Word>, p: nat, t: Tree, lef: Option<nat>, rit: Option<nat>)
    requires t.Par? && t.lef == File(ws, lef) && t.rit == File(ws, rit)
    ensures var l1, r1, l2, r2 := File(ws, Upto(lef, p)), File(ws, Upto(rit, p)), File(ws, From(lef, p)), File(ws, From(rit, p));
            var u := Par(t.sub, l1, r1, {});
            && Args(u) == Args(Bare(l1, r1)) + Args(t.sub) && Files(u) == Files(Bare(l1, r1)) + Files(t.sub)
            && Args(t) == Args(u) + Args(Bare(l2, r2)) && Files(t) == Files(u) + Files(Bare(l2, r2))
  {
    hide At, Bag, File, Upto, From;
    BagSides(ws, p, lef, rit);
    assert [] + Args(t.sub) == Args(t.sub) == Args(t.sub) + [];
  }

  lemma BagSides(ws: seq<Word>, p: nat, lef: Option<nat>, rit: Option<nat>)
    ensures Bag(File(ws, lef), File(ws, rit))
            == Bag(File(ws, Upto(lef, p)), File(ws, Upto(rit, p))) + Bag(File(ws, From(lef, p)), File(ws, From(rit, p)))
  {
    hide At;
    assert Bag(File(ws, lef), None) == Bag(File(ws, Upto(lef, p)), None) + Bag(File(ws, From(lef, p)), None);
    assert Bag(None, File(ws, rit)) == Bag(None, File(ws, Upto(rit, p))) + Bag(None, File(ws, From(rit, p)));
  }

  /** A parse without an error keeps every word: the arguments in their order, the
      files, and operators. */
  lemma WordsKept(ws: seq<Word>)
    ensures var r := Syntax(ws, 0, |ws|, {}); r.err.None? ==> r.Done? && Told(ws, 0, |ws|, Args(r.t), Files(r.t))
  {
    var r := Syntax(ws, 0, |ws|, {});
    SyntaxSound(ws, 0, |ws|, {});
    if r.err.None? {
      ParsesTold(ws, AList, 0, |ws|, {}, r.t);
    }
  }
}
