/** Brace expansion in the C shell (bin/csh/sh.glob.c, `expand` and `execbrc`),
    for words without other metacharacters. */
module CshBrace {
  import opened Within
  import opened Wrappers

  const LBRACE := 123
  const RBRACE := 125
  const COMMA := 44
  const SLASH := 47

  /** Characters, which are quoted from 128 on. */
  type Text = seq<int>

  /** What would make the shell look for files or users, run a command, or skip to
      a `]`, unless it is quoted: `*`, `?`, `[`, `~` and the backquote. */
  predicate Special(c: int) {
    c == 42 || c == 63 || c == 91 || c == 96 || c == 126
  }

  /** A word without metacharacters but braces. */
  predicate Simple(s: Text) {
    forall k :: 0 <= k < |s| ==> !Special(s[k])
  }

  /** `c & TRIM` */
  function Trim(s: Text): (r: Text)
    ensures |r| == |s|
  {
    seq(|s|, i requires 0 <= i < |s| => s[i] % 128)
  }

  /** How many opening braces there are. */
  function Opens(s: Text): nat {
    if s == [] then 0 else Opens(s[..|s| - 1]) + if s[|s| - 1] == LBRACE then 1 else 0
  }

  lemma {:induction false} OpensConcat(a: Text, b: Text)
    ensures Opens(a + b) == Opens(a) + Opens(b)
  {
    if b == [] {
      assert a + b == a;
    } else {
      assert (a + b)[..|a + b| - 1] == a + b[..|b| - 1];
      OpensConcat(a, b[..|b| - 1]);
    }
  }

  /** Where the first opening brace from `i` on is, or the end. */
  function First(s: Text, i: nat): (j: nat)
    requires i <= |s|
    ensures i <= j <= |s| && (j < |s| ==> s[j] == LBRACE)
    ensures forall k :: i <= k < j ==> s[k] != LBRACE
    decreases |s| - i
  {
    if i == |s| || s[i] == LBRACE then i else First(s, i + 1)
  }

  /** Where the brace is closed that has been opened before `i`, with `lev` more
      opened since, or the end. */
  function Close(s: Text, i: nat, lev: nat): (j: nat)
    requires i <= |s|
    ensures i <= j <= |s| && (j < |s| ==> s[j] == RBRACE)
    decreases |s| - i
  {
    if i == |s| then i
    else if s[i] == LBRACE then Close(s, i + 1, lev + 1)
    else if s[i] == RBRACE then if lev == 0 then i else Close(s, i + 1, lev - 1)
    else Close(s, i + 1, lev)
  }

  /** The leftmost brace replaced by one alternative. */
  function Replace(s: Text, i: nat, alt: Text, pe: nat): Text
    requires i <= |s| && pe < |s|
  {
    s[..i] + alt + s[pe + 1..]
  }

  lemma OpensFewer(s: Text, i: nat, pl: nat, pm: nat, pe: nat)
    requires i < pl <= pm <= pe < |s| && s[i] == LBRACE
    ensures Opens(Replace(s, i, s[pl..pm], pe)) < Opens(s)
  {
    var a, mid, f := s[..i], s[i..pe + 1], s[pe + 1..];
    var b: Text := [LBRACE];
    assert b[..0] == [] && Opens(b) == 1;
    hide Opens;
    assert s == a + mid + f;
    OpensThree(a, mid, f);
    assert s[i..i + 1] == b;
    OpensSplit(s, i, i + 1, pe + 1);
    OpensSplit(s, i + 1, pl, pe + 1);
    OpensSplit(s, pl, pm, pe + 1);
    OpensThree(a, s[pl..pm], f);
  }

  lemma OpensSplit(s: Text, i: nat, j: nat, k: nat)
    requires i <= j <= k <= |s|
    ensures Opens(s[i..k]) == Opens(s[i..j]) + Opens(s[j..k])
  {
    hide Opens;
    assert s[i..k] == s[i..j] + s[j..k];
    OpensConcat(s[i..j], s[j..k]);
  }

  lemma OpensThree(a: Text, b: Text, c: Text)
    ensures Opens(a + b + c) == Opens(a) + Opens(b) + Opens(c)
  {
    hide Opens;
    OpensConcat(a + b, c);
    OpensConcat(a, b);
  }

  /** The words that a word with braces stands for, in order; none if a brace is
      not closed. */
  function Expansion(s: Text): Option<seq<Text>>
    decreases Opens(s), 1, 0
  {
    var i := First(s, 0);
    if i == |s| then Some([Trim(s)])
    else
      var pe := Close(s, i + 1, 0);
      if pe == |s| then None else Each(s, i, i + 1, i + 1, pe, 0)
  }

  /** The expansions with the alternatives from `pm` on, one after another. */
  function Each(s: Text, i: nat, pl: nat, pm: nat, pe: nat, lev: nat): Option<seq<Text>>
    requires i < pl <= pm <= pe + 1 <= |s| && s[i] == LBRACE
    decreases Opens(s), 0, pe + 1 - pm
  {
    if pm > pe then Some([])
    else if s[pm] == LBRACE then Each(s, i, pl, pm + 1, pe, lev + 1)
    else if s[pm] == RBRACE && lev > 0 then Each(s, i, pl, pm + 1, pe, lev - 1)
    else if s[pm] == RBRACE || (s[pm] == COMMA && lev == 0) then
      OpensFewer(s, i, pl, pm, pe);
      Both(Expansion(Replace(s, i, s[pl..pm], pe)), Each(s, i, pm + 1, pm + 1, pe, lev))
    else Each(s, i, pl, pm + 1, pe, lev)
  }

  // -------------------------------------------------------------- the shell

  /** The words with something in front. */
  function Prefixed(g: Text, ws: seq<Text>): (r: seq<Text>)
    ensures |r| == |ws|
  {
    seq(|ws|, i requires 0 <= i < |ws| => g + ws[i])
  }

  lemma PrefixedTwice(g: Text, h: Text, ws: seq<Text>)
    ensures Prefixed(g + h, ws) == Prefixed(g, Prefixed(h, ws))
  {
    forall i | 0 <= i < |ws| ensures Prefixed(g + h, ws)[i] == Prefixed(g, Prefixed(h, ws))[i] {
      assert g + h + ws[i] == g + (h + ws[i]);
    }
  }

  lemma PrefixedConcat(g: Text, a: seq<Text>, b: seq<Text>)
    ensures Prefixed(g, a + b) == Prefixed(g, a) + Prefixed(g, b)
  {
    var x, y := Prefixed(g, a + b), Prefixed(g, a) + Prefixed(g, b);
    forall i | 0 <= i < |a| + |b| ensures x[i] == y[i] {
      assert x[i] == g + (a + b)[i];
    }
  }

  /** One word list more in a result that may fail. */
  lemma MoreWords(g: Text, done: seq<Text>, x: seq<Text>, more: Option<seq<Text>>)
    ensures Prefixed(g, done + x) == Prefixed(g, done) + Prefixed(g, x)
    ensures Joined(done, Joined(x, more)) == Joined(done + x, more)
  {
    PrefixedConcat(g, done, x);
    assert more.Some? ==> done + (x + more.value) == done + x + more.value;
  }

  lemma {:induction false} FirstPrefix(u: Text, v: Text, i: nat)
    requires i <= |u| && forall k :: 0 <= k < |u| ==> u[k] != LBRACE
    ensures First(u + v, i) == |u| + First(v, 0)
    decreases |u| - i
  {
    if i < |u| {
      FirstPrefix(u, v, i + 1);
    } else {
      FirstShift(u, v, 0);
    }
  }

  lemma {:induction false} FirstShift(u: Text, v: Text, i: nat)
    requires i <= |v|
    ensures First(u + v, |u| + i) == |u| + First(v, i)
    decreases |v| - i
  {
    if i < |v| {
      FirstShift(u, v, i + 1);
    }
  }

  lemma {:induction false} CloseShift(u: Text, v: Text, i: nat, lev: nat)
    requires i <= |v|
    ensures Close(u + v, |u| + i, lev) == |u| + Close(v, i, lev)
    decreases |v| - i
  {
    if i < |v| {
      CloseShift(u, v, i + 1, if v[i] == LBRACE then lev + 1 else if v[i] == RBRACE && lev > 0 then lev - 1 else lev);
    }
  }

  /** Some words in front of a list that may fail. */
  function Joined(done: seq<Text>, more: Option<seq<Text>>): Option<seq<Text>> {
    if more.Some? then Some(done + more.value) else None
  }

  function PrefixedOpt(g: Text, o: Option<seq<Text>>): Option<seq<Text>> {
    if o.Some? then Some(Prefixed(g, o.value)) else None
  }

  /** Characters in front stay in front of every word. */
  lemma {:induction false} ExpansionPrefix(u: Text, v: Text)
    requires forall k :: 0 <= k < |u| ==> u[k] != LBRACE
    ensures Expansion(u + v) == PrefixedOpt(Trim(u), Expansion(v))
    decreases Opens(v), 1, 0
  {
    FirstPrefix(u, v, 0);
    var i := First(v, 0);
    if i == |v| {
      assert Trim(u + v) == Trim(u) + Trim(v);
      assert Prefixed(Trim(u), [Trim(v)]) == [Trim(u) + Trim(v)];
    } else {
      CloseShift(u, v, i + 1, 0);
      var pe := Close(v, i + 1, 0);
      if pe < |v| {
        EachPrefix(u, v, i, i + 1, i + 1, pe, 0);
      }
    }
  }

  function Both(x: Option<seq<Text>>, y: Option<seq<Text>>): Option<seq<Text>> {
    if x.Some? && y.Some? then Some(x.value + y.value) else None
  }

  lemma BothPrefixed(g: Text, x: Option<seq<Text>>, y: Option<seq<Text>>)
    ensures Both(PrefixedOpt(g, x), PrefixedOpt(g, y)) == PrefixedOpt(g, Both(x, y))
  {
    if x.Some? && y.Some? {
      PrefixedConcat(g, x.value, y.value);
    }
  }

  lemma ReplacePrefix(u: Text, v: Text, i: nat, pl: nat, pm: nat, pe: nat)
    requires i < pl <= pm <= pe < |v|
    ensures var s := u + v;
      Replace(s, |u| + i, s[|u| + pl..|u| + pm], |u| + pe) == u + Replace(v, i, v[pl..pm], pe)
  {
    var s := u + v;
    assert s[..|u| + i] == u + v[..i] && s[|u| + pl..|u| + pm] == v[pl..pm] && s[|u| + pe + 1..] == v[pe + 1..];
  }

  lemma {:induction false} EachPrefix(u: Text, v: Text, i: nat, pl: nat, pm: nat, pe: nat, lev: nat)
    requires forall k :: 0 <= k < |u| ==> u[k] != LBRACE
    requires i < pl <= pm <= pe + 1 <= |v| && v[i] == LBRACE
    ensures Each(u + v, |u| + i, |u| + pl, |u| + pm, |u| + pe, lev) == PrefixedOpt(Trim(u), Each(v, i, pl, pm, pe, lev))
    decreases Opens(v), 0, pe + 1 - pm
  {
    hide Expansion, Trim, Prefixed, Replace, Opens;
    var s := u + v;
    assert pm < |v| ==> s[|u| + pm] == v[pm];
    if pm > pe {
    } else if v[pm] == LBRACE {
      EachPrefix(u, v, i, pl, pm + 1, pe, lev + 1);
    } else if v[pm] == RBRACE && lev > 0 {
      EachPrefix(u, v, i, pl, pm + 1, pe, lev - 1);
    } else if v[pm] == RBRACE || (v[pm] == COMMA && lev == 0) {
      OpensFewer(v, i, pl, pm, pe);
      var r := Replace(v, i, v[pl..pm], pe);
      ReplacePrefix(u, v, i, pl, pm, pe);
      ExpansionPrefix(u, r);
      EachPrefix(u, v, i, pm + 1, pm + 1, pe, lev);
      BothPrefixed(Trim(u), Expansion(r), Each(v, i, pm + 1, pm + 1, pe, lev));
    } else {
      EachPrefix(u, v, i, pl, pm + 1, pe, lev);
    }
  }

  /** A word from its last component on. */
  lemma Component(s: Text, cs: nat)
    requires cs <= First(s, 0) < |s|
    ensures Opens(s[cs..]) == Opens(s) && First(s[cs..], 0) < |s[cs..]|
    ensures Expansion(s) == PrefixedOpt(Trim(s[..cs]), Expansion(s[cs..]))
  {
    var u, v := s[..cs], s[cs..];
    assert s == u + v;
    OpensConcat(u, v);
    NoOpens(u);
    ExpansionPrefix(u, v);
    FirstPrefix(u, v, 0);
  }

  lemma {:induction false} NoOpens(s: Text)
    requires forall k :: 0 <= k < |s| ==> s[k] != LBRACE
    ensures Opens(s) == 0
  {
    if s != [] {
      NoOpens(s[..|s| - 1]);
    }
  }

  class Globber {
    var gpath: Text
    var gargv: seq<Text>
    var sortbas: nat

    constructor ()
      ensures gpath == [] && gargv == [] && sortbas == 0
    {
      gpath, gargv, sortbas := [], [], 0;
    }

    /** `sort()`, which sorts the words from `sortbas` on: never more than one. */
    method Sort()
      requires |gargv| <= sortbas + 1
      modifies this`sortbas
      ensures sortbas == |gargv|
    {
      sortbas := |gargv|;
    }

    /** `expand(as)`, for a word without metacharacters but braces: what has been
        collected in `gpath` comes in front of every word.  The caller has to
        put `gpath` back if there was a brace. */
    method Expand(as0: Text) returns (ok: bool)
      requires sortbas == |gargv| && Simple(as0)
      modifies this
      ensures ok <==> Expansion(as0).Some?
      ensures ok ==> gargv == old(gargv) + Prefixed(old(gpath), Expansion(as0).value)
      ensures ok ==> sortbas <= |gargv| <= sortbas + 1
      ensures LBRACE !in as0 ==> ok && gpath == old(gpath)
      decreases Opens(as0), 2, 0
    {
      var sgpath := gpath;
      var cs := 0;
      while cs < |as0| && as0[cs] != LBRACE
        invariant cs <= |as0| && First(as0, 0) == First(as0, cs) && sortbas == |gargv| && gargv == old(gargv)
        invariant gpath == old(gpath) + Trim(as0[..cs])
      {
        gpath := gpath + [as0[cs] % 128];
        cs := cs + 1;
      }
      if cs == |as0| {
        assert as0[..cs] == as0;
        gargv := gargv + [gpath];
        gpath := sgpath;
        return true;
      }
      cs := BackUp(as0, cs, sgpath);
      Component(as0, cs);
      ok := ExecBrc(as0[cs..]);
      if ok {
        PrefixedTwice(old(gpath), Trim(as0[..cs]), Expansion(as0[cs..]).value);
      }
    }

    /** Go back to the start of the last component of the path. */
    method BackUp(as0: Text, i: nat, ghost g: Text) returns (cs: nat)
      requires i < |as0| && as0[i] == LBRACE && gpath == g + Trim(as0[..i])
      modifies this`gpath
      ensures cs <= i && gpath == g + Trim(as0[..cs])
    {
      cs := i;
      while cs > 0 && as0[cs] != SLASH
        invariant cs <= i && gpath == g + Trim(as0[..cs])
      {
        assert gpath[..|gpath| - 1] == g + Trim(as0[..cs - 1]);
        cs := cs - 1;
        gpath := gpath[..|gpath| - 1];
      }
      if as0[cs] == SLASH {
        gpath := gpath + [SLASH];
        cs := cs + 1;
        assert gpath == g + Trim(as0[..cs]);
      }
    }

    /** `execbrc(p, NOSTR)` */
    method ExecBrc(p0: Text) returns (ok: bool)
      requires sortbas == |gargv| && First(p0, 0) < |p0| && Simple(p0)
      modifies this
      ensures ok <==> Expansion(p0).Some?
      ensures ok ==> gargv == old(gargv) + Prefixed(old(gpath), Expansion(p0).value)
      ensures ok ==> sortbas == |gargv| && gpath == old(gpath)
      decreases Opens(p0), 1, 0
    {
      var i := 0;
      while p0[i] != LBRACE
        invariant i < |p0| && First(p0, 0) == First(p0, i)
        decreases |p0| - i
      {
        i := i + 1;
      }
      var p := i + 1;
      var pe := FindClose(p0, p);
      if pe == |p0| {
        return false;
      }
      ok := EachOne(p0, i, p, pe);
    }

    /** The second loop of `execbrc`: one alternative after another. */
    method EachOne(p0: Text, i: nat, p: nat, pe: nat) returns (ok: bool)
      requires sortbas == |gargv| && i < p <= pe < |p0| && p0[i] == LBRACE && Simple(p0)
      modifies this
      ensures var all := Each(p0, i, p, p, pe, 0);
        && (ok <==> all.Some?)
        && (ok ==> gargv == old(gargv) + Prefixed(old(gpath), all.value) && sortbas == |gargv| && gpath == old(gpath))
      decreases Opens(p0), 0, 1
    {
      hide Expansion, Prefixed, Simple, Replace, Opens;
      var pl, pm, brclev: nat := p, p, 0;
      ghost var done: seq<Text> := [];
      ghost var all := Each(p0, i, p, p, pe, 0);
      assert all.Some? ==> done + all.value == all.value;
      while pm <= pe
        invariant p <= pl <= pm <= pe + 1 && sortbas == |gargv| && gpath == old(gpath)
        invariant all == Joined(done, Each(p0, i, pl, pm, pe, brclev))
        invariant gargv == old(gargv) + Prefixed(gpath, done)
      {
        if p0[pm] == LBRACE {
          brclev := brclev + 1;
        } else if p0[pm] == RBRACE && brclev > 0 {
          brclev := brclev - 1;
        } else if p0[pm] == RBRACE || (p0[pm] == COMMA && brclev == 0) {
          ok := OneOf(p0, i, pl, pm, pe);
          if !ok {
            return;
          }
          ghost var x := Expansion(Replace(p0, i, p0[pl..pm], pe)).value;
          MoreWords(gpath, done, x, Each(p0, i, pm + 1, pm + 1, pe, brclev));
          done := done + x;
          pl := pm + 1;
        }
        pm := pm + 1;
      }
      assert done + [] == done;
      ok := true;
    }

    /** The word with one alternative chosen. */
    method OneOf(p0: Text, i: nat, pl: nat, pm: nat, pe: nat) returns (ok: bool)
      requires sortbas == |gargv| && i < pl <= pm <= pe < |p0| && p0[i] == LBRACE && Simple(p0)
      modifies this
      ensures var one := Expansion(Replace(p0, i, p0[pl..pm], pe));
        && (ok <==> one.Some?)
        && (ok ==> gargv == old(gargv) + Prefixed(old(gpath), one.value) && sortbas == |gargv| && gpath == old(gpath))
      decreases Opens(p0), 0, 0
    {
      hide Expansion, Prefixed, Opens;
      OpensFewer(p0, i, pl, pm, pe);
      var restbuf := p0[..i] + p0[pl..pm] + p0[pe + 1..];
      var sgpath := gpath;
      ok := Expand(restbuf);
      gpath := sgpath;
      if ok {
        Sort();
      }
    }

    /** The first loop of `execbrc`. */
    method FindClose(p0: Text, p: nat) returns (pe: nat)
      requires p <= |p0|
      ensures pe == Close(p0, p, 0)
    {
      var brclev: nat := 0;
      pe := p;
      while pe < |p0| && !(p0[pe] == RBRACE && brclev == 0)
        invariant p <= pe <= |p0| && Close(p0, p, 0) == Close(p0, pe, brclev)
      {
        if p0[pe] == LBRACE {
          brclev := brclev + 1;
        } else if p0[pe] == RBRACE {
          brclev := brclev - 1;
        }
        pe := pe + 1;
      }
    }
  }

  // ------------------------------------------------------- what braces mean

  /** A word: characters and choices between words. */
  datatype Word = End | Ch(c: int, rest: Word) | Choice(ws: Words, rest: Word)

  datatype Words = Only(w: Word) | Either(w: Word, more: Words)

  /** Every way to put one of `a` in front of one of `b`, in order. */
  function Cross(a: seq<Text>, b: seq<Text>): seq<Text> {
    if a == [] then [] else Prefixed(a[0], b) + Cross(a[1..], b)
  }

  /** The full cross product of the choices, in order. */
  function Product(w: Word): seq<Text> {
    match w
    case End => [[]]
    case Ch(c, rest) => Prefixed([c % 128], Product(rest))
    case Choice(ws, rest) => Cross(Union(ws), Product(rest))
  }

  /** What the choices stand for, one after another. */
  function Union(ws: Words): seq<Text> {
    match ws
    case Only(w) => Product(w)
    case Either(w, more) => Product(w) + Union(more)
  }

  function Show(w: Word): Text {
    match w
    case End => []
    case Ch(c, rest) => [c] + Show(rest)
    case Choice(ws, rest) => [LBRACE] + ShowChoices(ws) + [RBRACE] + Show(rest)
  }

  function ShowChoices(ws: Words): Text {
    match ws
    case Only(w) => Show(w)
    case Either(w, more) => Show(w) + [COMMA] + ShowChoices(more)
  }

  /** Special characters are quoted everywhere, a comma and a closing brace
      within braces, and an opening brace too if it is no choice. */
  predicate Writable(w: Word, inner: bool) {
    match w
    case End => true
    case Ch(c, rest) => !Special(c) && c != LBRACE && (inner ==> c != RBRACE && c != COMMA) && Writable(rest, inner)
    case Choice(ws, rest) => AllWritable(ws) && Writable(rest, inner)
  }

  predicate AllWritable(ws: Words) {
    match ws
    case Only(w) => Writable(w, true)
    case Either(w, more) => Writable(w, true) && AllWritable(more)
  }

  function Append(w: Word, v: Word): Word {
    match w
    case End => v
    case Ch(c, rest) => Ch(c, Append(rest, v))
    case Choice(ws, rest) => Choice(ws, Append(rest, v))
  }

  lemma {:induction false} CrossConcat(a: seq<Text>, b: seq<Text>, c: seq<Text>)
    ensures Cross(a + b, c) == Cross(a, c) + Cross(b, c)
  {
    if a == [] {
      assert a + b == b;
    } else {
      assert (a + b)[1..] == a[1..] + b;
      CrossConcat(a[1..], b, c);
    }
  }

  lemma {:induction false} CrossPrefixed(g: Text, a: seq<Text>, b: seq<Text>)
    ensures Cross(Prefixed(g, a), b) == Prefixed(g, Cross(a, b))
  {
    if a != [] {
      assert Prefixed(g, a)[1..] == Prefixed(g, a[1..]);
      CrossPrefixed(g, a[1..], b);
      PrefixedTwice(g, a[0], b);
      PrefixedConcat(g, Prefixed(a[0], b), Cross(a[1..], b));
    }
  }

  lemma {:induction false} CrossAssociative(a: seq<Text>, b: seq<Text>, c: seq<Text>)
    ensures Cross(Cross(a, b), c) == Cross(a, Cross(b, c))
  {
    if a != [] {
      CrossConcat(Prefixed(a[0], b), Cross(a[1..], b), c);
      CrossPrefixed(a[0], b, c);
      CrossAssociative(a[1..], b, c);
    }
  }

  lemma CrossUnit(b: seq<Text>)
    ensures Cross([[]], b) == b
  {
    var e: Text := [];
    assert forall i :: 0 <= i < |b| ==> e + b[i] == b[i];
    assert Prefixed(e, b) == b;
    assert [e][1..] == [];
  }

  lemma {:induction false} ProductAppend(w: Word, v: Word)
    ensures Product(Append(w, v)) == Cross(Product(w), Product(v))
  {
    match w {
      case End => CrossUnit(Product(v));
      case Ch(c, rest) =>
        ProductAppend(rest, v);
        CrossPrefixed([c % 128], Product(rest), Product(v));
      case Choice(ws, rest) =>
        ProductAppend(rest, v);
        CrossAssociative(Union(ws), Product(rest), Product(v));
    }
  }

  lemma {:induction false} ShowAppend(w: Word, v: Word)
    ensures Show(Append(w, v)) == Show(w) + Show(v)
    ensures Writable(w, true) && Writable(v, false) ==> Writable(Append(w, v), false)
  {
    match w {
      case End =>
      case Ch(c, rest) =>
        ShowAppend(rest, v);
        assert [c] + Show(rest) + Show(v) == [c] + (Show(rest) + Show(v));
      case Choice(ws, rest) =>
        ShowAppend(rest, v);
        var a := [LBRACE] + ShowChoices(ws) + [RBRACE];
        assert a + Show(rest) + Show(v) == a + (Show(rest) + Show(v));
    }
  }

  lemma HereChoice(s: Text, i: nat, ws: Words, rest: Word)
    requires Here(s, i, Show(Choice(ws, rest)))
    ensures var j := i + 1 + |ShowChoices(ws)|;
      && Here(s, i + 1, ShowChoices(ws)) && j < |s| && s[i] == LBRACE && s[j] == RBRACE && Here(s, j + 1, Show(rest))
  {
    var a, b, c, d := [LBRACE], ShowChoices(ws), [RBRACE], Show(rest);
    HereHalves(s, i, a + b + c, d);
    HereHalves(s, i, a + b, c);
    HereHalves(s, i, a, b);
    assert s[i] == a[0] && s[i + 1 + |b|] == c[0];
  }

  lemma HereEither(s: Text, i: nat, w: Word, more: Words)
    requires Here(s, i, ShowChoices(Either(w, more)))
    ensures var j := i + |Show(w)|;
      Here(s, i, Show(w)) && j < |s| && s[j] == COMMA && Here(s, j + 1, ShowChoices(more))
  {
    HereHalves(s, i, Show(w) + [COMMA], ShowChoices(more));
    HereHalves(s, i, Show(w), [COMMA]);
    assert s[i + |Show(w)|] == [COMMA][0];
  }

  /** The scans pass over a word within braces. */
  lemma {:induction false} SkipWord(s: Text, w: Word, n: nat, i: nat, pl: nat, pm: nat, pe: nat, lev: nat)
    requires Writable(w, true) && Here(s, pm, Show(w)) && n == pm + |Show(w)| && n <= pe + 1
    requires i < pl <= pm <= pe + 1 <= |s| && s[i] == LBRACE
    ensures Close(s, pm, lev) == Close(s, n, lev)
    ensures Each(s, i, pl, pm, pe, lev) == Each(s, i, pl, n, pe, lev)
    decreases w
  {
    match w {
      case End =>
      case Ch(c, rest) =>
        HereHalves(s, pm, [c], Show(rest));
        assert s[pm] == [c][0];
        SkipWord(s, rest, n, i, pl, pm + 1, pe, lev);
      case Choice(ws, rest) =>
        HereChoice(s, pm, ws, rest);
        var j := pm + 1 + |ShowChoices(ws)|;
        SkipChoices(s, ws, j, i, pl, pm + 1, pe, lev + 1);
        SkipWord(s, rest, n, i, pl, j + 1, pe, lev);
    }
  }

  lemma {:induction false} SkipChoices(s: Text, ws: Words, n: nat, i: nat, pl: nat, pm: nat, pe: nat, lev: nat)
    requires AllWritable(ws) && Here(s, pm, ShowChoices(ws)) && n == pm + |ShowChoices(ws)| && n <= pe + 1 && lev > 0
    requires i < pl <= pm <= pe + 1 <= |s| && s[i] == LBRACE
    ensures Close(s, pm, lev) == Close(s, n, lev)
    ensures Each(s, i, pl, pm, pe, lev) == Each(s, i, pl, n, pe, lev)
    decreases ws
  {
    match ws {
      case Only(w) => SkipWord(s, w, n, i, pl, pm, pe, lev);
      case Either(w, more) =>
        HereEither(s, pm, w, more);
        var j := pm + |Show(w)|;
        SkipWord(s, w, j, i, pl, pm, pe, lev);
        SkipChoices(s, more, n, i, pl, j + 1, pe, lev);
    }
  }

  /** The closing brace is found behind the choices. */
  lemma {:induction false} CloseChoices(s: Text, ws: Words, pm: nat)
    requires AllWritable(ws) && Here(s, pm, ShowChoices(ws)) && 0 < pm
    requires pm + |ShowChoices(ws)| < |s| && s[pm + |ShowChoices(ws)|] == RBRACE && s[0] == LBRACE
    ensures Close(s, pm, 0) == pm + |ShowChoices(ws)|
    decreases ws
  {
    hide Here, Each, Show, Opens;
    var pe := |s| - 1;
    match ws {
      case Only(w) => SkipWord(s, w, pm + |Show(w)|, 0, pm, pm, pe, 0);
      case Either(w, more) =>
        HereEither(s, pm, w, more);
        var j := pm + |Show(w)|;
        SkipWord(s, w, j, 0, pm, pm, pe, 0);
        CloseChoices(s, more, j + 1);
    }
  }

  /** A word with braces stands for the full cross product of its choices. */
  lemma {:induction false} ExpansionMeans(w: Word)
    requires Writable(w, false)
    ensures Expansion(Show(w)) == Some(Product(w))
    decreases Opens(Show(w)), w, 1
  {
    match w {
      case End =>
        assert Trim([]) == [];
      case Ch(c, rest) =>
        OpensConcat([c], Show(rest));
        ExpansionMeans(rest);
        ExpansionPrefix([c], Show(rest));
        assert Trim([c]) == [c % 128];
      case Choice(ws, rest) =>
        var pe := ChoiceParts(w);
        EachMeans(w, ws, 1, pe);
        hide Show, Opens, Each, Cross, Close;
    }
  }

  lemma HereWhole(s: Text)
    ensures Here(s, 0, s)
  {
  }

  lemma Behind(a: Text, b: Text)
    ensures (a + b)[|a|..] == b
  {
  }

  /** Where the first choice of a word ends. */
  lemma ChoiceParts(w: Word) returns (pe: nat)
    requires w.Choice? && Writable(w, false)
    ensures var s := Show(w);
      && pe == 1 + |ShowChoices(w.ws)| < |s| && Here(s, 1, ShowChoices(w.ws)) == true
      && s[0] == LBRACE && s[pe] == RBRACE && s[pe + 1..] == Show(w.rest)
      && First(s, 0) == 0 && Close(s, 1, 0) == pe
  {
    hide Here, ShowChoices, Opens, Close;
    var s := Show(w);
    pe := 1 + |ShowChoices(w.ws)|;
    HereWhole(s);
    HereChoice(s, 0, w.ws, w.rest);
    CloseChoices(s, w.ws, 1);
    Behind([LBRACE] + ShowChoices(w.ws) + [RBRACE], Show(w.rest));
  }

  /** From the choice that starts at `pos` on. */
  lemma {:induction false} EachMeans(w: Word, ws: Words, pos: nat, pe: nat)
    requires Writable(w, false) && w.Choice? && AllWritable(ws) && 1 <= pos
    requires var s := Show(w);
      && pe == pos + |ShowChoices(ws)| < |s| && Here(s, pos, ShowChoices(ws))
      && s[0] == LBRACE && s[pe] == RBRACE && s[pe + 1..] == Show(w.rest)
    ensures Each(Show(w), 0, pos, pos, pe, 0) == Some(Cross(Union(ws), Product(w.rest)))
    decreases Opens(Show(w)), w, 1, ws
  {
    hide Here, Opens, Close, Prefixed, Append;
    var s := Show(w);
    match ws {
      case Only(v) =>
        SkipWord(s, v, pe, 0, pos, pos, pe, 0);
        OneChoice(w, v, pos, pe, pe);
        var x := Cross(Product(v), Product(w.rest));
        assert x + [] == x;
        assert Each(s, 0, pe + 1, pe + 1, pe, 0) == Some([]);
      case Either(v, more) =>
        HereEither(s, pos, v, more);
        var j := pos + |Show(v)|;
        SkipWord(s, v, j, 0, pos, pos, pe, 0);
        OneChoice(w, v, pos, j, pe);
        EachMeans(w, more, j + 1, pe);
        CrossConcat(Product(v), Union(more), Product(w.rest));
    }
  }

  /** The word with its first choice made. */
  lemma {:induction false} OneChoice(w: Word, v: Word, pl: nat, pm: nat, pe: nat)
    requires Writable(w, false) && w.Choice? && Writable(v, true)
    requires var s := Show(w);
      && 1 <= pl <= pm <= pe < |s| && s[0] == LBRACE && s[pe + 1..] == Show(w.rest)
      && Here(s, pl, Show(v)) && pm == pl + |Show(v)|
    ensures Expansion(Replace(Show(w), 0, Show(w)[pl..pm], pe)) == Some(Cross(Product(v), Product(w.rest)))
    decreases Opens(Show(w)), w, 0
  {
    var s, u := Show(w), Append(v, w.rest);
    assert s[pl..pm] == Show(v);
    ShowAppend(v, w.rest);
    assert Replace(s, 0, s[pl..pm], pe) == Show(u) by {
      assert s[..0] == [];
      assert [] + Show(v) == Show(v);
    }
    OpensFewer(s, 0, pl, pm, pe);
    ExpansionMeans(u);
    ProductAppend(v, w.rest);
  }
}
