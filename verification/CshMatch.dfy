/** Pattern matching in the C shell (bin/csh/sh.glob.c, `Gmatch`). */
module CshMatch {

  const STAR := 42
  const QUESTION := 63
  const LBRACKET := 91
  const RBRACKET := 93
  const MINUS := 45

  /** What `lc` starts as in a class: more than any character. */
  const HIGHEST := 0x7FFF

  /** A signed character that is not NUL, with or without the QUOTE bit. */
  predicate IsChar(c: int) {
    -128 <= c <= 127 && c % 128 != 0
  }

  predicate IsText(s: seq<int>) {
    forall i :: 0 <= i < |s| ==> IsChar(s[i])
  }

  /** `c & TRIM` */
  function Trim(c: int): (r: int)
    ensures 0 <= r < 128 && (c - r) % 128 == 0
  {
    c % 128
  }

  datatype Answer = Yes | No | MissingBracket

  /** The rest of the pattern after a class that matches `scc`, from the place
      after its `[`.  The upper end of a range is passed over only if the
      character is not below the lower end. */
  datatype InClass = Goes(rest: seq<int>) | Stops(a: Answer)

  function Class(p: seq<int>, scc: int, lc: int, ok: bool): (r: InClass)
    ensures r.Goes? ==> |r.rest| < |p|
    decreases |p|
  {
    if p == [] then Stops(MissingBracket)
    else if p[0] == RBRACKET then if ok then Goes(p[1..]) else Stops(No)
    else if p[0] == MINUS then
      if lc <= scc then
        if |p| == 1 then Stops(MissingBracket)
        else Class(p[2..], scc, lc, ok || scc <= p[1])
      else Class(p[1..], scc, lc, ok)
    else Class(p[1..], scc, p[0], ok || scc == p[0])
  }

  /** `Gmatch(s, p)` */
  function Gmatch(s: seq<int>, p: seq<int>): Answer
    decreases |p|, 1, |s|
  {
    var scc := if s == [] then 0 else Trim(s[0]);
    var rest := if s == [] then [] else s[1..];
    if p == [] then if scc == 0 then Yes else No
    else if p[0] == LBRACKET then
      var r := Class(p[1..], scc, HIGHEST, false);
      if r.Goes? then Gmatch(rest, r.rest) else r.a
    else if p[0] == STAR then if |p| == 1 then Yes else Anywhere(s, p[1..])
    else if p[0] == QUESTION then if scc == 0 then No else Gmatch(rest, p[1..])
    else if Trim(p[0]) != scc then No
    else Gmatch(rest, p[1..])
  }

  /** The loop of the arm for `*`: the rest of the pattern, at every character. */
  function Anywhere(s: seq<int>, p: seq<int>): Answer
    decreases |p|, 2, |s|
  {
    if s == [] then No
    else
      var a := Gmatch(s, p);
      if a == No then Anywhere(s[1..], p) else a
  }

  // ------------------------------------------------------------- the meaning

  /** Characters from `lo` up to `hi`; a single one if they are the same. */
  datatype Span = Span(lo: int, hi: int)

  datatype Item = Any | One | Literal(c: int) | Set(spans: seq<Span>)

  predicate InSpans(c: int, spans: seq<Span>) {
    exists i :: 0 <= i < |spans| && spans[i].lo <= c <= spans[i].hi
  }

  /** A pattern that can be written down: characters that have another meaning
      are quoted, and the ranges of classes are plain and ascending. */
  predicate Plain(item: Item) {
    match item
    case Any => true
    case One => true
    case Literal(c) => IsChar(c) && c !in {STAR, QUESTION, LBRACKET}
    case Set(spans) => forall i :: 0 <= i < |spans| ==> PlainSpan(spans[i])
  }

  predicate PlainSpan(x: Span) {
    0 < x.lo <= x.hi < 128 && x.lo !in {RBRACKET, MINUS} && x.hi !in {RBRACKET, MINUS}
  }

  predicate AllPlain(items: seq<Item>) {
    forall i :: 0 <= i < |items| ==> Plain(items[i])
  }

  function ShowSpans(spans: seq<Span>): seq<int> {
    if spans == [] then []
    else (if spans[0].lo == spans[0].hi then [spans[0].lo] else [spans[0].lo, MINUS, spans[0].hi]) + ShowSpans(spans[1..])
  }

  function Show(items: seq<Item>): seq<int> {
    if items == [] then []
    else ShowItem(items[0]) + Show(items[1..])
  }

  function ShowItem(item: Item): seq<int> {
    match item
    case Any => [STAR]
    case One => [QUESTION]
    case Literal(c) => [c]
    case Set(spans) => [LBRACKET] + ShowSpans(spans) + [RBRACKET]
  }

  predicate MatchesOne(item: Item, c: int) {
    match item
    case Any => false
    case One => true
    case Literal(x) => Trim(x) == c
    case Set(spans) => InSpans(c, spans)
  }

  /** The items match the whole text: `*` any part of it, the others one character each. */
  ghost predicate Matches(items: seq<Item>, s: seq<int>)
    decreases |items|
  {
    if items == [] then s == []
    else if items[0].Any? then exists k :: 0 <= k <= |s| && Matches(items[1..], s[k..])
    else s != [] && MatchesOne(items[0], Trim(s[0])) && Matches(items[1..], s[1..])
  }

  predicate EndsInTwoStars(items: seq<Item>) {
    |items| >= 2 && items[|items| - 1].Any? && items[|items| - 2].Any?
  }

  /** What `Gmatch` takes a pattern for: two stars at the end want a character. */
  function Taken(items: seq<Item>): (r: seq<Item>)
    ensures |r| >= |items|
  {
    if EndsInTwoStars(items) then items + [One] else items
  }

  /** A plain class does what it says. */
  lemma {:induction false} ClassMeans(spans: seq<Span>, q: seq<int>, scc: int, lc: int, ok: bool)
    requires 0 <= scc < 128 && forall i :: 0 <= i < |spans| ==> PlainSpan(spans[i])
    ensures Class(ShowSpans(spans) + ([RBRACKET] + q), scc, lc, ok)
         == if ok || InSpans(scc, spans) then Goes(q) else Stops(No)
    decreases |spans|
  {
    var end := [RBRACKET] + q;
    if spans == [] {
      assert [] + end == end && end[1..] == q;
    } else {
      var x, more := spans[0], spans[1..];
      assert PlainSpan(x);
      InSpansFirst(scc, spans);
      var tail := ShowSpans(more) + end;
      if x.lo == x.hi {
        Associative([x.lo], ShowSpans(more), end);
        ClassChar(x.lo, tail, scc, lc, ok);
        ClassMeans(more, q, scc, x.lo, ok || scc == x.lo);
      } else {
        Associative([x.lo, MINUS, x.hi], ShowSpans(more), end);
        ClassRange(x, tail, scc, lc, ok);
        ClassMeans(more, q, scc, x.lo, ok || x.lo <= scc <= x.hi);
        ClassMeans(more, q, scc, x.hi, ok || x.lo <= scc <= x.hi);
      }
    }
  }

  lemma Associative(a: seq<int>, b: seq<int>, c: seq<int>)
    ensures a + b + c == a + (b + c)
  {
  }

  lemma ClassChar(c: int, tail: seq<int>, scc: int, lc: int, ok: bool)
    requires c !in {RBRACKET, MINUS}
    ensures Class([c] + tail, scc, lc, ok) == Class(tail, scc, c, ok || scc == c)
  {
    assert ([c] + tail)[1..] == tail;
  }

  lemma ClassRange(x: Span, tail: seq<int>, scc: int, lc: int, ok: bool)
    requires PlainSpan(x) && x.lo < x.hi
    ensures Class([x.lo, MINUS, x.hi] + tail, scc, lc, ok) == Class(tail, scc, if x.lo <= scc then x.lo else x.hi, ok || x.lo <= scc <= x.hi)
  {
    var p := [x.lo, MINUS, x.hi] + tail;
    var r := p[1..];
    assert r[0] == MINUS && r[1] == x.hi && r[2..] == tail;
    assert r[1..] == [x.hi] + tail;
    ClassChar(x.hi, tail, scc, x.lo, ok || scc == x.lo);
  }

  lemma InSpansFirst(c: int, spans: seq<Span>)
    requires spans != []
    ensures InSpans(c, spans) <==> spans[0].lo <= c <= spans[0].hi || InSpans(c, spans[1..])
  {
    if InSpans(c, spans) {
      var i :| 0 <= i < |spans| && spans[i].lo <= c <= spans[i].hi;
      assert i > 0 ==> spans[1..][i - 1] == spans[i];
    }
    if InSpans(c, spans[1..]) {
      var i :| 0 <= i < |spans[1..]| && spans[1..][i].lo <= c <= spans[1..][i].hi;
      assert spans[i + 1] == spans[1..][i];
    }
  }

  lemma {:induction false} AnywhereMeans(s: seq<int>, p: seq<int>)
    requires forall k :: 0 <= k < |s| ==> Gmatch(s[k..], p) in {Yes, No}
    ensures Anywhere(s, p) == if exists k :: 0 <= k < |s| && Gmatch(s[k..], p) == Yes then Yes else No
    decreases |s|
  {
    if s != [] {
      assert s[0..] == s;
      forall k | 0 <= k < |s[1..]| ensures s[1..][k..] == s[k + 1..] {
      }
      AnywhereMeans(s[1..], p);
      if k :| 0 <= k < |s| && Gmatch(s[k..], p) == Yes && k > 0 {
        assert s[1..][k - 1..] == s[k..];
      }
    }
  }

  /** Nothing but stars matches nothing. */
  lemma {:induction false} MatchesNothing(items: seq<Item>)
    ensures Matches(items, []) <==> forall i :: 0 <= i < |items| ==> items[i].Any?
  {
    if items != [] {
      MatchesNothing(items[1..]);
      var e: seq<int> := [];
      assert e[0..] == e;
      if items[0].Any? {
        assert Matches(items, []) <==> Matches(items[1..], e[0..]);
        assert forall i :: 1 <= i < |items| ==> items[i] == items[1..][i - 1];
      }
    }
  }

  /** `Gmatch` takes a plain pattern to mean what it is taken for. */
  lemma {:induction false} GmatchMeans(s: seq<int>, items: seq<Item>)
    requires IsText(s) && AllPlain(items)
    ensures Gmatch(s, Show(items)) == if Matches(Taken(items), s) then Yes else No
    decreases |items|, |s|
  {
    if items != [] {
      var item, rest := items[0], items[1..];
      var p, q := Show(items), Show(rest);
      assert p == ShowItem(item) + q;
      assert Plain(item) && AllPlain(rest);
      match item {
        case Any => GmatchStar(s, items);
        case Set(spans) =>
          var scc := if s == [] then 0 else Trim(s[0]);
          assert p[0] == LBRACKET && p[1..] == ShowSpans(spans) + ([RBRACKET] + q);
          ClassMeans(spans, q, scc, HIGHEST, false);
          GmatchNext(s, items);
        case _ =>
          assert p[1..] == q;
          GmatchNext(s, items);
      }
    }
  }

  /** An item that is not a star. */
  lemma {:induction false} GmatchNext(s: seq<int>, items: seq<Item>)
    requires IsText(s) && AllPlain(items) && items != [] && !items[0].Any?
    ensures Matches(Taken(items), s) <==> s != [] && MatchesOne(items[0], Trim(s[0])) && Matches(Taken(items[1..]), s[1..])
    ensures s != [] ==> Gmatch(s[1..], Show(items[1..])) == if Matches(Taken(items[1..]), s[1..]) then Yes else No
    ensures s == [] && items[0].Set? ==> !InSpans(0, items[0].spans)
    decreases |items|, |s|, 0
  {
    assert Taken(items)[1..] == Taken(items[1..]);
    if s != [] {
      GmatchMeans(s[1..], items[1..]);
    }
  }

  lemma {:induction false} GmatchStar(s: seq<int>, items: seq<Item>)
    requires IsText(s) && AllPlain(items) && items != [] && items[0].Any?
    ensures Gmatch(s, Show(items)) == if Matches(Taken(items), s) then Yes else No
    decreases |items|, |s|, 0
  {
    var rest := items[1..];
    var p, q := Show(items), Show(rest);
    assert p == [STAR] + q && p[1..] == q;
    if rest == [] {
      assert s[|s|..] == [];
      assert Matches(items[1..], s[|s|..]);
    } else {
      ShowNotEmpty(rest);
      forall k | 0 <= k < |s| ensures Gmatch(s[k..], q) == if Matches(Taken(rest), s[k..]) then Yes else No {
        GmatchMeans(s[k..], rest);
      }
      AnywhereMeans(s, q);
      StarMeans(s, items);
    }
  }

  lemma ShowNotEmpty(items: seq<Item>)
    requires items != []
    ensures Show(items) != []
  {
  }

  /** A star in front of more items. */
  lemma StarMeans(s: seq<int>, items: seq<Item>)
    requires |items| >= 2 && items[0].Any?
    ensures Matches(Taken(items), s) <==> exists k :: 0 <= k < |s| && Matches(Taken(items[1..]), s[k..])
  {
    var rest := items[1..];
    if |items| == 2 && items[1].Any? {
      TwoStars(s, items);
    } else {
      assert Taken(items)[1..] == Taken(rest);
      TakenNotAllStars(rest);
      MatchesNothing(Taken(rest));
      assert s[|s|..] == [];
    }
  }

  lemma TakenNotAllStars(items: seq<Item>)
    requires items != [] && items != [Any]
    ensures exists i :: 0 <= i < |Taken(items)| && !Taken(items)[i].Any?
  {
    var t := Taken(items);
    if EndsInTwoStars(items) {
      assert t[|t| - 1] == One;
    } else if !items[|items| - 1].Any? {
      assert !t[|t| - 1].Any?;
    } else {
      assert !t[|t| - 2].Any?;
    }
  }

  lemma TwoStars(s: seq<int>, items: seq<Item>)
    requires items == [Any, Any]
    ensures Matches(Taken(items), s) <==> s != []
    ensures (exists k :: 0 <= k < |s| && Matches(Taken(items[1..]), s[k..])) <==> s != []
  {
    assert items[1..] == [Any] && Taken(items) == [Any, Any, One];
    assert [Any, Any, One][1..] == [Any, One] && [Any, One][1..] == [One] && [One][1..] == [] && [Any][1..] == [];
    if s != [] {
      var k := |s| - 1;
      assert s[0..] == s;
      var last := s[k..];
      assert last[1..] == [] && Matches([One], last);
      assert last[0..] == last;
      assert Matches([Any, One], last);
      assert Matches([Any, Any, One], s);
      assert s[|s|..] == [] && Matches([], s[|s|..]);
      assert Matches([Any], s[0..]);
    } else {
      var e: seq<int> := [];
      MatchesNothing([Any, Any, One]);
      assert ![Any, Any, One][2].Any?;
    }
  }

  /** `Gmatch` agrees with the meaning of a pattern that does not end in two
      stars.  With two stars at the end it fails where a character is lacking. */
  lemma GmatchAgrees(s: seq<int>, items: seq<Item>)
    requires IsText(s) == true && AllPlain(items) == true
    ensures !EndsInTwoStars(items) ==> (Gmatch(s, Show(items)) == Yes <==> Matches(items, s))
    ensures EndsInTwoStars(items) ==> (Gmatch(s, Show(items)) == Yes <==> Matches(items + [One], s))
    ensures Gmatch(s, Show(items)) != MissingBracket
  {
    GmatchMeans(s, items);
  }

  /** What matches up to one character more. */
  lemma {:induction false} OneMore(items: seq<Item>, s: seq<int>)
    requires Matches(items + [One], s)
    ensures s != [] && Matches(items, s[..|s| - 1])
    decreases |items|
  {
    var more := items + [One];
    if items == [] {
      assert more[1..] == [] && s[..|s| - 1] == [];
    } else {
      assert more[1..] == items[1..] + [One];
      if items[0].Any? {
        var k :| 0 <= k <= |s| && Matches(more[1..], s[k..]);
        OneMore(items[1..], s[k..]);
        assert s[k..][..|s[k..]| - 1] == s[..|s| - 1][k..];
      } else {
        OneMore(items[1..], s[1..]);
        assert s[1..][..|s[1..]| - 1] == s[..|s| - 1][1..];
      }
    }
  }

  /** If any text matches a pattern that ends in two stars, `Gmatch` fails on one. */
  lemma {:induction false} TwoStarsFail(items: seq<Item>, s: seq<int>) returns (t: seq<int>)
    requires AllPlain(items) && EndsInTwoStars(items) && IsText(s) && Matches(items, s)
    ensures IsText(t) && Matches(items, t) && Gmatch(t, Show(items)) == No
    decreases |s|
  {
    GmatchAgrees(s, items);
    if Gmatch(s, Show(items)) == Yes {
      OneMore(items, s);
      t := TwoStarsFail(items, s[..|s| - 1]);
    } else {
      t := s;
    }
  }

  /** An empty class lets no character through. */
  predicate Hopeless(items: seq<Item>) {
    exists i :: 0 <= i < |items| && items[i] == Set([])
  }

  /** Any other pattern matches some text. */
  lemma {:induction false} Sample(items: seq<Item>) returns (t: seq<int>)
    requires AllPlain(items) && !Hopeless(items)
    ensures IsText(t) && Matches(items, t)
  {
    if items == [] {
      t := [];
    } else {
      assert Plain(items[0]) && items[0] != Set([]);
      assert forall i :: 0 <= i < |items[1..]| ==> items[1..][i] == items[i + 1];
      var rest := Sample(items[1..]);
      match items[0]
      case Any =>
        t := rest;
        assert t[0..] == rest;
      case One =>
        t := [97] + rest;
      case Literal(c) =>
        t := [c] + rest;
      case Set(spans) =>
        t := [spans[0].lo] + rest;
        assert PlainSpan(spans[0]);
        assert InSpans(spans[0].lo, spans);
    }
  }

  lemma {:induction false} NoText(items: seq<Item>, t: seq<int>)
    requires Hopeless(items)
    ensures !Matches(items, t)
  {
    var i :| 0 <= i < |items| && items[i] == Set([]);
    if i == 0 {
      assert t != [] ==> !InSpans(Trim(t[0]), []);
    } else {
      assert items[1..][i - 1] == Set([]);
      if items[0].Any? {
        forall k | 0 <= k <= |t| ensures !Matches(items[1..], t[k..]) {
          NoText(items[1..], t[k..]);
        }
      } else if t != [] {
        NoText(items[1..], t[1..]);
      }
    }
  }

  /** `Gmatch` agrees with the meaning of a pattern on every text if and only if the
      pattern does not end in two stars, or contains an empty class. */
  lemma GmatchExact(items: seq<Item>)
    requires AllPlain(items)
    ensures (forall t :: IsText(t) ==> (Gmatch(t, Show(items)) == Yes <==> Matches(items, t)))
            <==> !EndsInTwoStars(items) || Hopeless(items)
  {
    hide *;
    forall t | IsText(t)
      ensures !EndsInTwoStars(items) || Hopeless(items) ==> (Gmatch(t, Show(items)) == Yes <==> Matches(items, t))
    {
      if !EndsInTwoStars(items) || Hopeless(items) {
        Agreeing(items, t);
      }
    }
    if EndsInTwoStars(items) && !Hopeless(items) {
      var s := Sample(items);
      var t := TwoStarsFail(items, s);
    }
  }

  lemma Agreeing(items: seq<Item>, t: seq<int>)
    requires AllPlain(items) && IsText(t) && (!EndsInTwoStars(items) || Hopeless(items))
    ensures Gmatch(t, Show(items)) == Yes <==> Matches(items, t)
  {
    hide Gmatch;
    GmatchAgrees(t, items);
    if EndsInTwoStars(items) {
      NoText(items, t);
      if Gmatch(t, Show(items)) == Yes {
        OneMore(items, t);
        NoText(items, t[..|t| - 1]);
      }
    }
  }

  /** `a**` means any text that starts with `a`, but `Gmatch` does not match it with `a`. */
  lemma TwoStarsAtEnd()
    ensures var items := [Literal(97), Any, Any];
      Matches(items, [97]) && Gmatch([97], Show(items)) == No
  {
    hide *;
    StarsExample();
    PlainA();
    GmatchAgrees([97], [Literal(97), Any, Any]);
  }

  lemma StarsExample()
    ensures var items := [Literal(97), Any, Any];
      Matches(items, [97]) && !Matches(items + [One], [97]) && EndsInTwoStars(items)
  {
    hide Matches;
    var items := [Literal(97), Any, Any];
    LiteralFirst(items, 97);
    LiteralFirst(items + [One], 97);
    assert items[1..] == [Any, Any] && (items + [One])[1..] == [Any, Any, One];
    NothingLeft();
  }

  lemma PlainA()
    ensures IsText([97]) == true && AllPlain([Literal(97), Any, Any]) == true
  {
    assert IsChar(97);
  }

  lemma NothingLeft()
    ensures Matches([Any, Any], []) && !Matches([Any, Any, One], [])
  {
    MatchesNothing([Any, Any]);
    MatchesNothing([Any, Any, One]);
    assert ![Any, Any, One][2].Any?;
  }

  lemma LiteralFirst(items: seq<Item>, c: int)
    requires items != [] && items[0] == Literal(c) && 0 < c < 128
    ensures Matches(items, [c]) <==> Matches(items[1..], [])
  {
    assert [c][1..] == [];
  }
}
