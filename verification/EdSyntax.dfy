/** How the text of a pattern denotes items (bin/ed/ed.c, `compile`). */
module EdSyntax {
  import opened Within
  import opened Wrappers
  import opened EdPattern

  const STAR := 42
  const DOT := 46
  const DOLLAR := 36
  const LBRACKET := 91
  const RBRACKET := 93
  const CARET := 94
  const MINUS := 45
  const BACKSLASH := 92
  const LPAREN := 40
  const RPAREN := 41
  const DIGIT1 := 49

  datatype Token = Plain(item: Item) | Repeat | Begin | Finish | End | Bad

  /** The next character, or EOF once the input has run out. */
  function Read(input: seq<int>, p: nat): int {
    if p < |input| then input[p] else -1
  }

  /** The characters after `last` up to `c`. */
  function Range(last: int, c: int): seq<int>
    decreases c - last
  {
    if last < c then [last + 1] + Range(last + 1, c) else []
  }

  function Last(s: seq<int>): int
    requires s != []
  {
    s[|s| - 1]
  }

  /** The members of a class from the character at `p` on, which is never its
      end, and the place after its `]`. */
  function ClassBody(input: seq<int>, p: nat, members: seq<int>): Option<(seq<int>, nat)>
    decreases |input| - p, 0
  {
    if p >= |input| || input[p] == NEWLINE then None
    else if input[p] == MINUS && members != [] then
      if Read(input, p + 1) == RBRACKET then Some((members + [MINUS], p + 2))
      else ClassRest(input, p + 2, members + Range(Last(members), Read(input, p + 1)) + [Read(input, p + 1)])
    else ClassRest(input, p + 1, members + [input[p]])
  }

  function ClassRest(input: seq<int>, p: nat, members: seq<int>): Option<(seq<int>, nat)>
    decreases |input| - p, 1
  {
    if Read(input, p) == RBRACKET then Some((members, p + 1)) else ClassBody(input, p, members)
  }

  /** The range `lo-hi`, after a member that may be anything, adds exactly the
      characters between its ends, both included; a range that descends stands
      for its two ends. */
  lemma RangeMeans(input: seq<int>, p: nat, members: seq<int>)
    requires p + 2 < |input| && input[p + 1] == MINUS && input[p] != NEWLINE && input[p + 2] != RBRACKET
    requires members == [] || input[p] !in {MINUS, RBRACKET}
    ensures var lo, hi := input[p], input[p + 2]; var more := [lo] + Range(lo, hi) + [hi];
      && ClassBody(input, p, members) == ClassRest(input, p + 3, members + more)
      && (lo <= hi ==> forall c :: c in more <==> lo <= c <= hi)
      && (lo > hi ==> more == [lo, hi])
  {
    var lo, hi := input[p], input[p + 2];
    RangeBetween(lo, hi);
    assert ClassBody(input, p, members) == ClassRest(input, p + 1, members + [lo]);
    assert ClassRest(input, p + 1, members + [lo]) == ClassBody(input, p + 1, members + [lo]);
    assert Last(members + [lo]) == lo;
    assert members + [lo] + Range(lo, hi) + [hi] == members + ([lo] + Range(lo, hi) + [hi]);
  }

  lemma {:induction false} RangeBetween(last: int, c: int)
    ensures forall m :: m in Range(last, c) <==> last < m <= c
    decreases c - last
  {
    if last < c {
      RangeBetween(last + 1, c);
    }
  }

  /** Reading on only adds members. */
  lemma {:induction false} ClassGrows(input: seq<int>, p: nat, members: seq<int>)
    ensures var m := ClassBody(input, p, members);
      m.Some? ==> |m.value.0| > |members| && p < m.value.1 <= |input|
    decreases |input| - p, 0
  {
    if p < |input| && input[p] != NEWLINE {
      if input[p] == MINUS && members != [] {
        if Read(input, p + 1) != RBRACKET {
          ClassRestGrows(input, p + 2, members + Range(Last(members), Read(input, p + 1)) + [Read(input, p + 1)]);
        }
      } else {
        ClassRestGrows(input, p + 1, members + [input[p]]);
      }
    }
  }

  lemma {:induction false} ClassRestGrows(input: seq<int>, p: nat, members: seq<int>)
    ensures var m := ClassRest(input, p, members);
      m.Some? ==> |m.value.0| >= |members| && p < m.value.1 <= |input|
    decreases |input| - p, 1
  {
    if Read(input, p) != RBRACKET {
      ClassGrows(input, p, members);
    }
  }

  /** The token at `p` and the place after it. */
  function Lex(input: seq<int>, eof: int, p: nat): (r: (Token, nat))
    ensures r.1 > p
  {
    var c, d := Read(input, p), Read(input, p + 1);
    if p >= |input| then (Bad, p + 1)
    else if c == eof then (End, p + 1)
    else if c == BACKSLASH then
      if d == LPAREN then (Begin, p + 2)
      else if d == RPAREN then (Finish, p + 2)
      else if DIGIT1 <= d < DIGIT1 + NBRA then (Plain(Back(d - DIGIT1)), p + 2)
      else if d == NEWLINE || d == -1 then (Bad, p + 2)
      else (Plain(One(Chr(d))), p + 2)
    else if c == DOT then (Plain(One(Dot)), p + 1)
    else if c == NEWLINE then (Bad, p + 1)
    else if c == STAR then (Repeat, p + 1)
    else if c == DOLLAR && d == eof then (Plain(Item.Dollar), p + 1)
    else if c == LBRACKET then
      var q := if d == CARET then p + 2 else p + 1;
      var m := ClassBody(input, q, []);
      ClassGrows(input, q, []);
      if m.None? then (Bad, p + 1) else (Plain(One(Class(d == CARET, m.value.0))), m.value.1)
    else (Plain(One(Chr(c))), p + 1)
  }

  /** The pattern read so far.  When `starrable`, a star would apply to the last item. */
  datatype State = State(items: seq<Item>, starrable: bool, open: seq<nat>, nbra: nat)

  function Starred(item: Item): Item {
    match item
    case One(a) => Item.Star(a)
    case Back(k) => BackStar(k)
    case _ => item
  }

  function Step(s: State, t: Token): Option<State>
    requires !t.End? && !t.Bad?
  {
    match t
    case Plain(item) => Some(s.(items := s.items + [item], starrable := true))
    case Repeat =>
      if s.starrable && s.items != [] then
        var n := |s.items| - 1;
        Some(s.(items := s.items[..n] + [Starred(s.items[n])]))
      else Some(s.(items := s.items + [One(Chr(STAR))]))
    case Begin =>
      if s.nbra >= NBRA then None
      else Some(State(s.items + [Open(s.nbra)], false, s.open + [s.nbra], s.nbra + 1))
    case Finish =>
      if s.open == [] then None
      else
        var n := |s.open| - 1;
        Some(s.(items := s.items + [Close(s.open[n])], starrable := false, open := s.open[..n]))
  }

  /** The whole pattern from `p` on, up to its delimiter. */
  function Parse(input: seq<int>, eof: int, p: nat, s: State): Option<State>
    decreases |input| - p
  {
    if p >= |input| then None
    else
      var (t, q) := Lex(input, eof, p);
      if t == Bad then None
      else if t == End then if s.open == [] then Some(s) else None
      else
        var s' := Step(s, t);
        if s'.None? then None else Parse(input, eof, q, s'.value)
  }

  lemma ParseToken(input: seq<int>, eof: int, p: nat, s: State, t: Token, q: nat)
    requires p < |input| && Lex(input, eof, p) == (t, q) && !t.End? && !t.Bad? && Step(s, t).Some?
    ensures Leads(input, eof, p, s, q, Step(s, t).value)
  {
  }

  lemma LeadsOn(input: seq<int>, eof: int, p: nat, s: State, q: nat, t: State, r: nat, u: State)
    requires Leads(input, eof, p, s, q, t) && Leads(input, eof, q, t, r, u)
    ensures Leads(input, eof, p, s, r, u)
  {
  }

  /** Reading on from `q` in state `s'` gives what reading on from `p` in state `s` does. */
  ghost predicate Leads(input: seq<int>, eof: int, p: nat, s: State, q: nat, s': State) {
    Parse(input, eof, p, s) == Parse(input, eof, q, s')
  }

  const START := State([], false, [], 0)

  /** A pattern: whether it is anchored at the start of the line, and its items. */
  datatype Pattern = Pattern(anchored: bool, items: seq<Item>, nbra: nat)

  function Meaning(input: seq<int>, eof: int): Option<Pattern> {
    var anchored := Read(input, 0) == CARET;
    var r := Parse(input, eof, if anchored then 1 else 0, START);
    if r.None? then None else Some(Pattern(anchored, r.value.items, r.value.nbra))
  }

  // -------------------------------------------- writing a pattern down again

  /** Characters that must be escaped to stand for themselves. */
  predicate Special(c: int, eof: int) {
    c in {eof, BACKSLASH, DOT, STAR, DOLLAR, LBRACKET, CARET}
  }

  function ShowAtom(a: Atom, eof: int): seq<int> {
    match a
    case Chr(c) => if Special(c, eof) then [BACKSLASH, c] else [c]
    case Dot => [DOT]
    case Class(negated, members) => [LBRACKET] + (if negated then [CARET] else []) + members + [RBRACKET]
  }

  function ShowItem(item: Item, eof: int): seq<int> {
    match item
    case One(a) => ShowAtom(a, eof)
    case Star(a) => ShowAtom(a, eof) + [STAR]
    case Open(_) => [BACKSLASH, LPAREN]
    case Close(_) => [BACKSLASH, RPAREN]
    case Dollar => [DOLLAR]
    case Back(k) => [BACKSLASH, DIGIT1 + k]
    case BackStar(k) => [BACKSLASH, DIGIT1 + k, STAR]
  }

  function Show(items: seq<Item>, eof: int): seq<int> {
    if items == [] then [] else ShowItem(items[0], eof) + Show(items[1..], eof)
  }

  /** A delimiter that has no other meaning in a pattern. */
  predicate Delimits(eof: int) {
    && 1 <= eof <= 127 && eof !in {NEWLINE, BACKSLASH, DOT, STAR, DOLLAR, LBRACKET, CARET, LPAREN, RPAREN}
    && !(DIGIT1 <= eof < DIGIT1 + NBRA)
  }

  /** An atom that can be typed.  A class lists its members, with a `]` or a `-`
      only in the first place. */
  predicate Typable(a: Atom) {
    match a
    case Chr(c) => c != NEWLINE && 1 <= c <= 127
    case Dot => true
    case Class(negated, members) =>
      && members != [] && (!negated ==> members[0] != CARET)
      && forall n :: 0 <= n < |members| ==>
        1 <= members[n] <= 127 && members[n] != NEWLINE && (n > 0 ==> members[n] !in {RBRACKET, MINUS})
  }

  /** The item can come next when `nbra` brackets have been opened, of which
      those in `open` are still open. */
  predicate Next(item: Item, open: seq<nat>, nbra: nat) {
    match item
    case One(a) => Typable(a)
    case Star(a) => Typable(a)
    case Open(k) => k == nbra < NBRA
    case Close(k) => open != [] && k == Last(open)
    case Dollar => true
    case Back(k) => k < NBRA
    case BackStar(k) => k < NBRA
  }

  function OpenAfter(item: Item, open: seq<nat>): seq<nat> {
    if item.Open? then open + [item.k] else if item.Close? && open != [] then open[..|open| - 1] else open
  }

  function CountAfter(item: Item, nbra: nat): nat {
    if item.Open? then nbra + 1 else nbra
  }

  /** The items can come next, and close every bracket; a `$` is the last of them. */
  predicate Follows(items: seq<Item>, open: seq<nat>, nbra: nat) {
    if items == [] then open == []
    else
      && Next(items[0], open, nbra) && (items[0].Dollar? ==> items[1..] == [])
      && Follows(items[1..], OpenAfter(items[0], open), CountAfter(items[0], nbra))
  }

  /** A pattern that has been written down means what it was written for,
      whatever follows its delimiter. */
  lemma ShowMeans(anchored: bool, items: seq<Item>, eof: int, after: seq<int>)
    requires Delimits(eof) && Follows(items, [], 0)
    ensures var m := Meaning((if anchored then [CARET] else []) + (Show(items, eof) + [eof]) + after, eof);
      m.Some? && m.value.anchored == anchored && m.value.items == items
  {
    var start, text := if anchored then [CARET] else [], Show(items, eof) + [eof];
    var input := start + text + after;
    assert Here(input, |start|, text);
    assert input[|start|] == text[0];
    ShowStart(items, eof);
    ShowParses(input, eof, |start|, START, items);
    assert START.items + items == items;
  }

  lemma ShowStart(items: seq<Item>, eof: int)
    requires Delimits(eof)
    ensures (Show(items, eof) + [eof])[0] != CARET
  {
  }

  /** Reading on from `p` in state `s` ends with `items` read. */
  ghost predicate Reads(input: seq<int>, eof: int, p: nat, s: State, items: seq<Item>) {
    var r := Parse(input, eof, p, s);
    r.Some? && r.value.items == items
  }

  lemma {:induction false} ShowParses(input: seq<int>, eof: int, p: nat, s: State, items: seq<Item>)
    requires Delimits(eof) && Follows(items, s.open, s.nbra) == true && Here(input, p, Show(items, eof) + [eof]) == true
    ensures Reads(input, eof, p, s, s.items + items) == true
    decreases |items|
  {
    FollowsFirst(items, s.open, s.nbra);
    if items == [] {
      ShowEnd(input, eof, p, s, s.items + items);
    } else {
      ShowCons(input, eof, p, items);
      var q := p + |ShowItem(items[0], eof)|;
      var s' := ShowReads(input, eof, p, s, items[0]);
      ShowParses(input, eof, q, s', items[1..]);
      MoveOver(s.items, items);
      ReadsOn(input, eof, p, s, q, s', s.items + items);
    }
  }

  lemma MoveOver(done: seq<Item>, rest: seq<Item>)
    requires rest != []
    ensures done + rest == done + [rest[0]] + rest[1..]
  {
  }

  lemma FollowsFirst(items: seq<Item>, open: seq<nat>, nbra: nat)
    requires Follows(items, open, nbra)
    ensures items == [] ==> open == []
    ensures items != [] ==> Next(items[0], open, nbra) == true && (items[0].Dollar? ==> items[1..] == [])
    ensures items != [] ==> Follows(items[1..], OpenAfter(items[0], open), CountAfter(items[0], nbra)) == true
  {
  }

  lemma ShowEnd(input: seq<int>, eof: int, p: nat, s: State, items: seq<Item>)
    requires Delimits(eof) && s.open == [] && Here(input, p, Show([], eof) + [eof])
    requires items == s.items + []
    ensures Reads(input, eof, p, s, items)
  {
    assert input[p] == (Show([], eof) + [eof])[0];
    assert Lex(input, eof, p) == (End, p + 1);
  }

  lemma ReadsOn(input: seq<int>, eof: int, p: nat, s: State, q: nat, s': State, items: seq<Item>)
    requires Leads(input, eof, p, s, q, s') == true
    ensures Reads(input, eof, q, s', items) <==> Reads(input, eof, p, s, items)
  {
  }

  lemma Associative(a: seq<int>, b: seq<int>, c: seq<int>)
    ensures a + b + c == a + (b + c)
  {
  }

  /** The text of the first item, and the text after it. */
  lemma ShowCons(input: seq<int>, eof: int, p: nat, items: seq<Item>)
    requires items != [] && Here(input, p, Show(items, eof) + [eof])
    ensures Here(input, p, ShowItem(items[0], eof)) == true
    ensures var q := p + |ShowItem(items[0], eof)|;
      && Here(input, q, Show(items[1..], eof) + [eof]) == true
      && q < |input| && (items[1..] == [] ==> input[q] == eof)
  {
    hide Show, ShowItem;
    var text, rest := ShowItem(items[0], eof), Show(items[1..], eof) + [eof];
    ShowSplit(items, eof);
    HereHalves(input, p, text, rest);
    assert input[p + |text|] == rest[0];
    ShowNone(items[1..], eof);
  }

  lemma ShowSplit(items: seq<Item>, eof: int)
    requires items != []
    ensures Show(items, eof) + [eof] == ShowItem(items[0], eof) + (Show(items[1..], eof) + [eof])
  {
    hide ShowItem;
    Associative(ShowItem(items[0], eof), Show(items[1..], eof), [eof]);
  }

  lemma ShowNone(items: seq<Item>, eof: int)
    ensures items == [] ==> Show(items, eof) + [eof] == [eof]
  {
  }

  /** The state after an item. */
  predicate Shown(s: State, item: Item, s': State) {
    s'.items == s.items + [item] && s'.nbra == CountAfter(item, s.nbra) && s'.open == OpenAfter(item, s.open)
  }

  lemma ShowReads(input: seq<int>, eof: int, p: nat, s: State, item: Item) returns (s': State)
    requires Delimits(eof) && Here(input, p, ShowItem(item, eof)) && p + |ShowItem(item, eof)| < |input|
    requires Next(item, s.open, s.nbra) && (item.Dollar? ==> input[p + 1] == eof)
    ensures Shown(s, item, s') && Leads(input, eof, p, s, p + |ShowItem(item, eof)|, s') == true
  {
    var text := ShowItem(item, eof);
    var q := p + |text|;
    match item {
      case Star(a) => s' := ReadsStarred(input, eof, p, s, One(a), q);
      case BackStar(k) =>
        assert text == ShowItem(Back(k), eof) + [STAR];
        s' := ReadsStarred(input, eof, p, s, Back(k), q);
      case Open(k) =>
        assert input[p] == text[0] && input[p + 1] == text[1];
        ParseToken(input, eof, p, s, Begin, q);
        s' := Step(s, Begin).value;
      case Close(k) =>
        assert input[p] == text[0] && input[p + 1] == text[1];
        ParseToken(input, eof, p, s, Finish, q);
        s' := Step(s, Finish).value;
      case _ =>
        ReadsPlain(input, eof, p, s, item, q);
        s' := Step(s, Plain(item)).value;
    }
  }

  lemma ReadsPlain(input: seq<int>, eof: int, p: nat, s: State, item: Item, q: nat)
    requires Delimits(eof) && q == p + |ShowItem(item, eof)| && q < |input| && Here(input, p, ShowItem(item, eof)) == true
    requires (item.One? && Typable(item.a)) || (item.Dollar? && input[q] == eof) || (item.Back? && item.k < NBRA)
    ensures Leads(input, eof, p, s, q, Step(s, Plain(item)).value) == true && Shown(s, item, Step(s, Plain(item)).value)
  {
    var text := ShowItem(item, eof);
    assert input[p] == text[0] && (|text| > 1 ==> input[p + 1] == text[1]);
    if item.One? && item.a.Class? {
      LexClass(input, eof, p, item.a.negated, item.a.members);
    }
    ParseToken(input, eof, p, s, Plain(item), q);
  }

  lemma LexClass(input: seq<int>, eof: int, p: nat, negated: bool, members: seq<int>)
    requires Delimits(eof) && Typable(Class(negated, members)) && Here(input, p, ShowAtom(Class(negated, members), eof))
    ensures Lex(input, eof, p) == (Plain(One(Class(negated, members))), p + |ShowAtom(Class(negated, members), eof)|)
  {
    var text := ShowAtom(Class(negated, members), eof);
    var n := if negated then 2 else 1;
    assert input[p] == text[0] && input[p + 1] == text[1];
    assert Here(input, p + n, members + [RBRACKET]) by {
      assert text == text[..n] + (members + [RBRACKET]);
      HereHalves(input, p, text[..n], members + [RBRACKET]);
    }
    ShowMembers(input, p + n, members);
  }

  lemma ShowMembers(input: seq<int>, p: nat, members: seq<int>)
    requires members != [] && Here(input, p, members + [RBRACKET])
    requires forall n :: 0 <= n < |members| ==> members[n] != NEWLINE && (n > 0 ==> members[n] !in {RBRACKET, MINUS})
    ensures ClassBody(input, p, []) == Some((members, p + |members| + 1))
  {
    var rest := members[1..];
    assert members + [RBRACKET] == [members[0]] + (rest + [RBRACKET]);
    HereHalves(input, p, [members[0]], rest + [RBRACKET]);
    assert input[p] == [members[0]][0];
    ShowClass(input, p + 1, [members[0]], rest);
    assert [] + [members[0]] == [members[0]] && [members[0]] + rest == members;
  }

  lemma ReadsStarred(input: seq<int>, eof: int, p: nat, s: State, item: Item, q: nat) returns (s': State)
    requires Delimits(eof) && q == p + |ShowItem(item, eof)| + 1 && q < |input|
    requires Here(input, p, ShowItem(item, eof) + [STAR]) == true
    requires (item.One? && Typable(item.a)) || (item.Back? && item.k < NBRA)
    ensures Shown(s, Starred(item), s') && Leads(input, eof, p, s, q, s') == true
  {
    HereHalves(input, p, ShowItem(item, eof), [STAR]);
    assert input[q - 1] == [STAR][0];
    ReadsPlain(input, eof, p, s, item, q - 1);
    s' := RepeatAt(input, eof, q - 1, Step(s, Plain(item)).value);
    hide Leads;
    LeadsOn(input, eof, p, s, q - 1, Step(s, Plain(item)).value, q, s');
  }

  lemma RepeatAt(input: seq<int>, eof: int, p: nat, s: State) returns (s': State)
    requires Delimits(eof) && p < |input| && input[p] == STAR && s.starrable && s.items != []
    ensures Leads(input, eof, p, s, p + 1, s') == true
    ensures var n := |s.items| - 1; s' == s.(items := s.items[..n] + [Starred(s.items[n])])
  {
    assert Lex(input, eof, p) == (Repeat, p + 1);
    s' := Step(s, Repeat).value;
    ParseToken(input, eof, p, s, Repeat, p + 1);
  }

  lemma {:induction false} ShowClass(input: seq<int>, p: nat, done: seq<int>, rest: seq<int>)
    requires done != [] && Here(input, p, rest + [RBRACKET])
    requires forall n :: 0 <= n < |rest| ==> rest[n] !in {NEWLINE, RBRACKET, MINUS}
    ensures ClassRest(input, p, done) == Some((done + rest, p + |rest| + 1))
    decreases |rest|
  {
    assert input[p] == (rest + [RBRACKET])[0];
    if rest == [] {
      assert done + rest == done;
    } else {
      assert rest + [RBRACKET] == [rest[0]] + (rest[1..] + [RBRACKET]);
      HereHalves(input, p, [rest[0]], rest[1..] + [RBRACKET]);
      ShowClass(input, p + 1, done + [rest[0]], rest[1..]);
      assert done + [rest[0]] + rest[1..] == done + rest;
    }
  }

  // -------------------------------------------- what each character denotes

  /** Reading goes on behind a character that stands for an item. */
  ghost predicate Denotes(input: seq<int>, eof: int, p: nat, s: State, q: nat, item: Item) {
    Leads(input, eof, p, s, q, State(s.items + [item], true, s.open, s.nbra))
  }

  /** A character without another meaning denotes itself, and so does every character
      behind a backslash that is not a bracket or one of the digits; a dot denotes any. */
  lemma CharactersMean(input: seq<int>, eof: int, p: nat, s: State)
    requires p + 1 < |input|
    ensures input[p] !in {eof, BACKSLASH, DOT, NEWLINE, STAR, DOLLAR, LBRACKET} ==> Denotes(input, eof, p, s, p + 1, One(Chr(input[p])))
    ensures input[p] == DOT != eof ==> Denotes(input, eof, p, s, p + 1, One(Dot))
    ensures input[p] == BACKSLASH != eof && input[p + 1] !in {LPAREN, RPAREN, NEWLINE, -1} && !(DIGIT1 <= input[p + 1] < DIGIT1 + NBRA) ==>
              Denotes(input, eof, p, s, p + 2, One(Chr(input[p + 1])))
    ensures input[p] == BACKSLASH != eof && DIGIT1 <= input[p + 1] < DIGIT1 + NBRA ==>
              Denotes(input, eof, p, s, p + 2, Back(input[p + 1] - DIGIT1))
  {
  }

  /** A `$` just before the delimiter denotes the end of the line, and any other one itself. */
  lemma DollarMeans(input: seq<int>, eof: int, p: nat, s: State)
    requires p + 1 < |input| && input[p] == DOLLAR != eof
    ensures Denotes(input, eof, p, s, p + 1, if input[p + 1] == eof then Item.Dollar else One(Chr(DOLLAR)))
  {
  }

  /** A star can apply to the last item: there is one, and it is not a bracket. */
  predicate Regular(s: State) {
    s.starrable ==> s.items != [] && !LastItem(s.items).Open? && !LastItem(s.items).Close?
  }

  function LastItem(items: seq<Item>): Item
    requires items != []
  {
    items[|items| - 1]
  }

  lemma StepRegular(s: State, t: Token)
    requires Regular(s) && !t.End? && !t.Bad? && (t.Plain? ==> !t.item.Open? && !t.item.Close?) && Step(s, t).Some?
    ensures Regular(Step(s, t).value)
  {
  }

  lemma LexRegular(input: seq<int>, eof: int, p: nat)
    ensures var t := Lex(input, eof, p).0; t.Plain? ==> !t.item.Open? && !t.item.Close?
  {
  }

  /** The state in which some text is read. */
  ghost predicate Reachable(input: seq<int>, eof: int, p: nat, s: State, n: nat)
    decreases n
  {
    if n == 0 then s == START && p == (if Read(input, 0) == CARET then 1 else 0)
    else exists p0: nat, s0 :: Reachable(input, eof, p0, s0, n - 1) && OneToken(input, eof, p0, s0, p, s)
  }

  ghost predicate OneToken(input: seq<int>, eof: int, p0: nat, s0: State, p: nat, s: State) {
    var (t, q) := Lex(input, eof, p0);
    p0 < |input| && !t.End? && !t.Bad? && q == p && Step(s0, t) == Some(s)
  }

  lemma {:induction false} ReachableRegular(input: seq<int>, eof: int, p: nat, s: State, n: nat)
    requires Reachable(input, eof, p, s, n)
    ensures Regular(s)
    decreases n
  {
    if n > 0 {
      var p0: nat, s0 :| Reachable(input, eof, p0, s0, n - 1) && OneToken(input, eof, p0, s0, p, s);
      ReachableRegular(input, eof, p0, s0, n - 1);
      LexRegular(input, eof, p0);
      StepRegular(s0, Lex(input, eof, p0).0);
    }
  }

  /** A star at the start of a pattern or behind a bracket denotes itself; behind
      anything else that is no such star it repeats the last item. */
  lemma StarMeans(input: seq<int>, eof: int, p: nat, s: State, n: nat)
    requires Reachable(input, eof, p, s, n) && p < |input| && input[p] == STAR != eof
    ensures s.items == [] || LastItem(s.items).Open? || LastItem(s.items).Close? ==>
              Leads(input, eof, p, s, p + 1, s.(items := s.items + [One(Chr(STAR))]))
    ensures s.starrable ==>
              Leads(input, eof, p, s, p + 1, s.(items := s.items[..|s.items| - 1] + [Starred(LastItem(s.items))]))
  {
    ReachableRegular(input, eof, p, s, n);
  }

  /** `a$b` matches a dollar between the two, and `*a` a star before it. */
  lemma Themselves(a: int, b: int, eof: int)
    requires Delimits(eof) && {a, b} !! {eof, BACKSLASH, DOT, NEWLINE, STAR, DOLLAR, LBRACKET, CARET}
    ensures Meaning([a, DOLLAR, b, eof], eof) == Some(Pattern(false, [One(Chr(a)), One(Chr(DOLLAR)), One(Chr(b))], 0))
    ensures Meaning([STAR, a, eof], eof) == Some(Pattern(false, [One(Chr(STAR)), One(Chr(a))], 0))
    ensures Meaning([a, STAR, eof], eof) == Some(Pattern(false, [Item.Star(Chr(a))], 0))
    ensures Meaning([a, DOLLAR, eof], eof) == Some(Pattern(false, [One(Chr(a)), Item.Dollar], 0))
  {
    DollarBetween(a, b, eof);
    StarFirst(a, eof);
    StarLast(a, eof);
    DollarLast(a, eof);
  }

  lemma EndMeans(input: seq<int>, eof: int, p: nat, s: State)
    requires p < |input| && input[p] == eof && s.open == []
    ensures Parse(input, eof, p, s) == Some(s)
  {
  }

  lemma DollarBetween(a: int, b: int, eof: int)
    requires Delimits(eof) && {a, b} !! {eof, BACKSLASH, DOT, NEWLINE, STAR, DOLLAR, LBRACKET, CARET}
    ensures Meaning([a, DOLLAR, b, eof], eof) == Some(Pattern(false, [One(Chr(a)), One(Chr(DOLLAR)), One(Chr(b))], 0))
  {
    hide Parse, Lex;
    var input := [a, DOLLAR, b, eof];
    assert a in {a, b} && b in {a, b};
    var s1 := State([One(Chr(a))], true, [], 0);
    var s2 := State([One(Chr(a)), One(Chr(DOLLAR))], true, [], 0);
    var s3 := State([One(Chr(a)), One(Chr(DOLLAR)), One(Chr(b))], true, [], 0);
    CharactersMean(input, eof, 0, START);
    assert START.items + [One(Chr(a))] == s1.items;
    DollarMeans(input, eof, 1, s1);
    assert s1.items + [One(Chr(DOLLAR))] == s2.items;
    CharactersMean(input, eof, 2, s2);
    assert s2.items + [One(Chr(b))] == s3.items;
    EndMeans(input, eof, 3, s3);
  }

  lemma StarFirst(a: int, eof: int)
    requires Delimits(eof) && a !in {eof, BACKSLASH, DOT, NEWLINE, STAR, DOLLAR, LBRACKET, CARET}
    ensures Meaning([STAR, a, eof], eof) == Some(Pattern(false, [One(Chr(STAR)), One(Chr(a))], 0))
  {
    hide Parse, Lex;
    var input := [STAR, a, eof];
    assert Reachable(input, eof, 0, START, 0);
    StarMeans(input, eof, 0, START, 0);
    var s1 := State([One(Chr(STAR))], false, [], 0);
    assert START.items + [One(Chr(STAR))] == s1.items;
    CharactersMean(input, eof, 1, s1);
    var s2 := State([One(Chr(STAR)), One(Chr(a))], true, [], 0);
    assert s1.items + [One(Chr(a))] == s2.items;
    EndMeans(input, eof, 2, s2);
  }

  lemma StarLast(a: int, eof: int)
    requires Delimits(eof) && a !in {eof, BACKSLASH, DOT, NEWLINE, STAR, DOLLAR, LBRACKET, CARET}
    ensures Meaning([a, STAR, eof], eof) == Some(Pattern(false, [Item.Star(Chr(a))], 0))
  {
    var input := [a, STAR, eof];
    var s1 := State([One(Chr(a))], true, [], 0);
    var s2 := State([Item.Star(Chr(a))], true, [], 0);
    CharactersMean(input, eof, 0, START);
    assert START.items + [One(Chr(a))] == s1.items;
    ParseToken(input, eof, 1, s1, Repeat, 2);
    assert s1.items[..0] + [Item.Star(Chr(a))] == s2.items;
    EndMeans(input, eof, 2, s2);
  }

  lemma DollarLast(a: int, eof: int)
    requires Delimits(eof) && a !in {eof, BACKSLASH, DOT, NEWLINE, STAR, DOLLAR, LBRACKET, CARET}
    ensures Meaning([a, DOLLAR, eof], eof) == Some(Pattern(false, [One(Chr(a)), Item.Dollar], 0))
  {
    hide Parse, Lex;
    var input := [a, DOLLAR, eof];
    var s1 := State([One(Chr(a))], true, [], 0);
    var s2 := State([One(Chr(a)), Item.Dollar], true, [], 0);
    CharactersMean(input, eof, 0, START);
    assert START.items + [One(Chr(a))] == s1.items;
    DollarMeans(input, eof, 1, s1);
    assert s1.items + [Item.Dollar] == s2.items;
    EndMeans(input, eof, 2, s2);
  }
}
