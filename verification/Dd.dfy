/** Record conversion in `dd` (bin/dd/dd.c): `block`, `unblock` and the buffer
    that their output goes through. */
module Dd {

  const NEWLINE := 10
  const BLANK := 32

  /** `conv=ucase` and `conv=lcase` */
  datatype Flags = Flags(ucase: bool, lcase: bool)

  function Upper(c: int): int {
    if 97 <= c <= 122 then c - 32 else c
  }

  function Lower(c: int): int {
    if 65 <= c <= 90 then c + 32 else c
  }

  /** What the conversions of case make of a character. */
  function Case(f: Flags, c: int): int {
    var u := if f.ucase then Upper(c) else c;
    if f.lcase then Lower(u) else u
  }

  /** The letters have their places in the two alphabets; other characters stay. With
      both conversions letters end up small. */
  lemma CaseMeans(n: nat, c: int)
    requires n < 26 && !(97 <= c <= 122) && !(65 <= c <= 90)
    ensures Case(Flags(true, false), 97 + n) == Case(Flags(true, false), 65 + n) == 65 + n
    ensures forall u: bool :: Case(Flags(u, true), 65 + n) == Case(Flags(u, true), 97 + n) == 97 + n
    ensures Case(Flags(false, false), 97 + n) == 97 + n && Case(Flags(false, false), 65 + n) == 65 + n
    ensures forall f: Flags :: Case(f, c) == c
  {
  }

  function CaseAll(f: Flags, s: seq<int>): (r: seq<int>)
    ensures |r| == |s|
  {
    seq(|s|, i requires 0 <= i < |s| => Case(f, s[i]))
  }

  function Blanks(n: int): (s: seq<int>)
    ensures |s| == if n < 0 then 0 else n
    ensures forall i :: 0 <= i < |s| ==> s[i] == BLANK
  {
    if n <= 0 then [] else [BLANK] + Blanks(n - 1)
  }

  // -------------------------------------------- what a stream is turned into

  /** What `block` puts out for a character in column `cbc`. */
  function BlockNow(f: Flags, cbs: nat, c: int, cbc: nat): seq<int> {
    if cbs == 0 then [Case(f, c)] else if c == NEWLINE then Blanks(cbs - cbc) else if cbc < cbs then [Case(f, c)] else []
  }

  /** The column after it. */
  function BlockCol(cbs: nat, c: int, cbc: nat): nat {
    if cbs == 0 then cbc else if c == NEWLINE then 0 else cbc + 1
  }

  function Truncates(cbs: nat, c: int, cbc: nat): nat {
    if cbs != 0 && c != NEWLINE && cbc == cbs then 1 else 0
  }

  /** The output of `block` for `s`, of which `cbc` characters of the current
      line have been seen. */
  function BlockOut(f: Flags, cbs: nat, s: seq<int>, cbc: nat): seq<int> {
    if s == [] then [] else BlockNow(f, cbs, s[0], cbc) + BlockOut(f, cbs, s[1..], BlockCol(cbs, s[0], cbc))
  }

  /** How often `block` notices that a line is too long. */
  function Truncations(cbs: nat, s: seq<int>, cbc: nat): nat {
    if s == [] then 0 else Truncates(cbs, s[0], cbc) + Truncations(cbs, s[1..], BlockCol(cbs, s[0], cbc))
  }

  /** What `unblock` puts out for a character in column `cbc`, with `nspace`
      blanks held back, and what these two become. */
  function UnblockNow(f: Flags, cbs: nat, c: int, cbc: nat, nspace: nat): seq<int> {
    if cbs == 0 then [Case(f, c)]
    else (if c == BLANK then [] else Blanks(nspace) + [Case(f, c)]) + if cbc + 1 >= cbs then [NEWLINE] else []
  }

  function UnblockCol(cbs: nat, cbc: nat): nat {
    if cbs == 0 then cbc else if cbc + 1 >= cbs then 0 else cbc + 1
  }

  function UnblockHeld(cbs: nat, c: int, cbc: nat, nspace: nat): nat {
    if cbs == 0 then nspace else if cbc + 1 >= cbs || c != BLANK then 0 else nspace + 1
  }

  function UnblockOut(f: Flags, cbs: nat, s: seq<int>, cbc: nat, nspace: nat): seq<int> {
    if s == [] then []
    else
      var rest := UnblockOut(f, cbs, s[1..], UnblockCol(cbs, cbc), UnblockHeld(cbs, s[0], cbc, nspace));
      UnblockNow(f, cbs, s[0], cbc, nspace) + rest
  }

  lemma Associative(a: seq<int>, b: seq<int>, c: seq<int>)
    ensures a + b + c == a + (b + c)
  {
  }

  lemma BlockFrom(f: Flags, cbs: nat, s: seq<int>, i: nat, cbc: nat, done: seq<int>)
    requires i < |s|
    ensures var col := BlockCol(cbs, s[i], cbc);
      && done + BlockOut(f, cbs, s[i..], cbc) == done + BlockNow(f, cbs, s[i], cbc) + BlockOut(f, cbs, s[i + 1..], col)
      && Truncations(cbs, s[i..], cbc) == Truncates(cbs, s[i], cbc) + Truncations(cbs, s[i + 1..], col)
  {
    hide BlockNow, BlockCol, Truncates;
    assert s[i..][1..] == s[i + 1..];
    Associative(done, BlockNow(f, cbs, s[i], cbc), BlockOut(f, cbs, s[i + 1..], BlockCol(cbs, s[i], cbc)));
  }

  lemma UnblockFrom(f: Flags, cbs: nat, s: seq<int>, i: nat, cbc: nat, nspace: nat, done: seq<int>)
    requires i < |s|
    ensures var rest := UnblockOut(f, cbs, s[i + 1..], UnblockCol(cbs, cbc), UnblockHeld(cbs, s[i], cbc, nspace));
      done + UnblockOut(f, cbs, s[i..], cbc, nspace) == done + UnblockNow(f, cbs, s[i], cbc, nspace) + rest
  {
    hide UnblockNow, UnblockCol, UnblockHeld;
    assert s[i..][1..] == s[i + 1..];
    Associative(done, UnblockNow(f, cbs, s[i], cbc, nspace),
      UnblockOut(f, cbs, s[i + 1..], UnblockCol(cbs, cbc), UnblockHeld(cbs, s[i], cbc, nspace)));
  }

  lemma AtEnd(f: Flags, cbs: nat, s: seq<int>, cbc: nat, nspace: nat, done: seq<int>)
    ensures done + BlockOut(f, cbs, s[|s|..], cbc) == done && Truncations(cbs, s[|s|..], cbc) == 0
    ensures done + UnblockOut(f, cbs, s[|s|..], cbc, nspace) == done
  {
    assert done + [] == done;
  }

  /** How `unblock` comes to what it puts out, after `done`. */
  lemma UnblockParts(f: Flags, cbs: nat, c: int, cbc: nat, nspace: nat, done: seq<int>)
    ensures var now := UnblockNow(f, cbs, c, cbc, nspace); var held := done + Blanks(nspace) + [Case(f, c)];
      if cbs == 0 then now == [Case(f, c)]
      else if cbc + 1 >= cbs then done + now == if c == BLANK then done + [NEWLINE] else held + [NEWLINE]
      else done + now == if c == BLANK then done else held
  {
    hide Blanks, Case;
    var b, n := Blanks(nspace), [Case(f, c)];
    Associative(done, b, n);
    Associative(done, b + n, [NEWLINE]);
    Empties(b + n, done);
  }

  lemma Empties(a: seq<int>, b: seq<int>)
    ensures a + [] == a && b + [] == b && [] + a == a
  {
  }

  // ------------------------------------------------------------- the program

  /** The bytes in records one after another. */
  function Flat(records: seq<seq<int>>): seq<int> {
    if records == [] then [] else Flat(records[..|records| - 1]) + records[|records| - 1]
  }

  class Converter {
    const flags: Flags
    const cbs: nat
    const obs: nat
    const obuf: array<int>
    var obc: nat
    var op: nat
    var cbc: nat
    var nspace: nat
    var ntrunc: nat
    var nofr: nat
    var nopr: nat
    ghost var written: seq<seq<int>>   // what `write` has been given

    /** All records that have been written are full. */
    ghost predicate Valid()
      reads this`obc, this`op, this`nofr, this`nopr, this`written
    {
      && 0 < obs == obuf.Length && obc < obs && op == obc
      && nofr == |written| && nopr == 0 && forall i :: 0 <= i < |written| ==> |written[i]| == obs
    }

    /** Everything that has come out so far. */
    ghost function Emitted(): seq<int>
      requires Valid()
      reads this`obc, this`op, this`nofr, this`nopr, this`written, obuf
    {
      Flat(written) + obuf[..obc]
    }

    constructor (flags: Flags, cbs: nat, obs: nat)
      requires obs > 0
      ensures Valid() && Emitted() == [] && cbc == nspace == ntrunc == 0 && fresh(obuf)
      ensures this.flags == flags && this.cbs == cbs && this.obs == obs
    {
      this.flags, this.cbs, this.obs := flags, cbs, obs;
      obuf := new int[obs](_ => 0);
      obc, op, cbc, nspace, ntrunc, nofr, nopr, written := 0, 0, 0, 0, 0, 0, 0, [];
    }

    /** `flsh()` */
    method Flsh()
      requires obuf.Length == obs && obc <= obs
      modifies this`obc, this`nofr, this`nopr, this`written
      ensures obc == 0 && written == if old(obc) > 0 then old(written) + [obuf[..old(obc)]] else old(written)
      ensures nofr == old(nofr) + if old(obc) == obs && obs > 0 then 1 else 0
      ensures nopr == old(nopr) + if 0 < old(obc) < obs then 1 else 0
    {
      if obc != 0 {
        if obc == obs {
          nofr := nofr + 1;
        } else {
          nopr := nopr + 1;
        }
        written := written + [obuf[..obc]];
        obc := 0;
      }
    }

    /** `null(c)` */
    method Null(c: int)
      requires Valid()
      modifies this`obc, this`op, this`nofr, this`nopr, this`written, obuf
      ensures Valid() && Emitted() == old(Emitted()) + [c]
    {
      ghost var before := obuf[..obc];
      obuf[op] := c;
      op := op + 1;
      obc := obc + 1;
      assert obuf[..obc] == before + [c];
      if obc >= obs {
        ghost var w := written;
        Flsh();
        op := 0;
        assert written[..|w|] == w;
      }
    }

    /** `while (...) null(' ')` */
    method Pad(n: int)
      requires Valid()
      modifies this`obc, this`op, this`nofr, this`nopr, this`written, obuf
      ensures Valid() && Emitted() == old(Emitted()) + Blanks(n)
    {
      var k := n;
      assert Emitted() + Blanks(k) == old(Emitted()) + Blanks(n);
      while k > 0
        invariant Valid() && Emitted() + Blanks(k) == old(Emitted()) + Blanks(n)
        decreases k
      {
        assert Emitted() + Blanks(k) == Emitted() + [BLANK] + Blanks(k - 1);
        Null(BLANK);
        k := k - 1;
      }
      assert Blanks(k) == [];
    }

    /** `block(cc)` */
    method Block(cc: int)
      requires Valid()
      modifies this`obc, this`op, this`nofr, this`nopr, this`written, this`cbc, this`ntrunc, obuf
      ensures Valid() && Emitted() == old(Emitted()) + BlockNow(flags, cbs, cc, old(cbc))
      ensures cbc == BlockCol(cbs, cc, old(cbc)) && ntrunc == old(ntrunc) + Truncates(cbs, cc, old(cbc))
    {
      var c := Case(flags, cc);
      if cbs == 0 {
        Null(c);
      } else if cc == NEWLINE {
        Pad(cbs - cbc);
        cbc := 0;
      } else {
        if cbc == cbs {
          ntrunc := ntrunc + 1;
        }
        cbc := cbc + 1;
        if cbc <= cbs {
          Null(c);
        }
      }
    }

    /** `unblock(cc)` */
    method Unblock(cc: int)
      requires Valid()
      modifies this`obc, this`op, this`nofr, this`nopr, this`written, this`cbc, this`nspace, obuf
      ensures Valid() && Emitted() == old(Emitted()) + UnblockNow(flags, cbs, cc, old(cbc), old(nspace))
      ensures cbc == UnblockCol(cbs, old(cbc)) && nspace == UnblockHeld(cbs, cc, old(cbc), old(nspace))
    {
      hide Emitted, Blanks, Case, Flat, UnblockNow;
      UnblockParts(flags, cbs, cc, cbc, nspace, Emitted());
      if cbs == 0 {
        Null(Case(flags, cc));
        return;
      }
      if cc == BLANK {
        nspace := nspace + 1;
      } else {
        Pad(nspace);
        nspace := 0;
        Null(Case(flags, cc));
      }
      cbc := cbc + 1;
      if cbc >= cbs {
        Null(NEWLINE);
        cbc := 0;
        nspace := 0;
      }
    }

    /** The main loop with `conv=block` or `conv=unblock`, up to the end of the
        input: nothing is lost in the buffer, and its size changes nothing but
        the records, of which all but the last one are full. */
    method Convert(input: seq<int>, block: bool)
      requires Valid() && written == [] && obc == 0 && cbc == nspace == ntrunc == 0
      modifies this, obuf
      ensures Flat(written) == if block then BlockOut(flags, cbs, input, 0) else UnblockOut(flags, cbs, input, 0, 0)
      ensures forall i :: 0 <= i < |written| - 1 ==> |written[i]| == obs
      ensures forall i :: 0 <= i < |written| ==> 0 < |written[i]| <= obs
      ensures nofr + nopr == |written| && nopr == (if written != [] && |written[|written| - 1]| < obs then 1 else 0)
      ensures block ==> ntrunc == Truncations(cbs, input, 0)
    {
      hide BlockOut, UnblockOut, Truncations, BlockNow, UnblockNow, Flat, Emitted;
      ghost var whole := if block then BlockOut(flags, cbs, input, 0) else UnblockOut(flags, cbs, input, 0, 0);
      Nothing(whole);
      for i := 0 to |input|
        invariant Valid() == true
        invariant block ==> whole == Emitted() + BlockOut(flags, cbs, input[i..], cbc)
        invariant block ==> Truncations(cbs, input, 0) == ntrunc + Truncations(cbs, input[i..], cbc)
        invariant !block ==> whole == Emitted() + UnblockOut(flags, cbs, input[i..], cbc, nspace)
      {
        if block {
          BlockFrom(flags, cbs, input, i, cbc, Emitted());
          Block(input[i]);
        } else {
          UnblockFrom(flags, cbs, input, i, cbc, nspace, Emitted());
          Unblock(input[i]);
        }
      }
      AtEnd(flags, cbs, input, cbc, nspace, Emitted());
      Drain();
    }

    lemma Nothing(whole: seq<int>)
      requires Valid() && written == [] && obc == 0
      ensures Emitted() == [] && [] + whole == whole
    {
    }

    /** The last `flsh()`. */
    method Drain()
      requires Valid()
      modifies this`obc, this`nofr, this`nopr, this`written
      ensures Flat(written) == old(Emitted())
      ensures forall i :: 0 <= i < |written| - 1 ==> |written[i]| == obs
      ensures forall i :: 0 <= i < |written| ==> 0 < |written[i]| <= obs
      ensures nofr + nopr == |written| && nopr == (if written != [] && |written[|written| - 1]| < obs then 1 else 0)
    {
      ghost var w := written;
      Flsh();
      assert written != w ==> written[..|written| - 1] == w;
      assert Flat(w) + [] == Flat(w);
    }
  }

  // ---------------------------------------------------------- lines and records

  /** A text of lines, each ended by a newline. */
  function Join(lines: seq<seq<int>>): seq<int> {
    if lines == [] then [] else lines[0] + [NEWLINE] + Join(lines[1..])
  }

  /** Records, one after another. */
  function Concat(records: seq<seq<int>>): seq<int> {
    if records == [] then [] else records[0] + Concat(records[1..])
  }

  function Min(a: nat, b: nat): nat {
    if a < b then a else b
  }

  /** A line as a record: cut, or filled up with blanks. */
  function Fit(f: Flags, cbs: nat, line: seq<int>): (r: seq<int>)
    ensures |r| == cbs
  {
    CaseAll(f, line[..Min(|line|, cbs)]) + Blanks(cbs - |line|)
  }

  function FitAll(f: Flags, cbs: nat, lines: seq<seq<int>>): seq<seq<int>> {
    if lines == [] then [] else [Fit(f, cbs, lines[0])] + FitAll(f, cbs, lines[1..])
  }

  /** A text without its trailing blanks. */
  function Strip(s: seq<int>): (r: seq<int>)
    ensures r <= s && (r != [] ==> r[|r| - 1] != BLANK)
    ensures forall i :: |r| <= i < |s| ==> s[i] == BLANK
  {
    if s == [] || s[|s| - 1] != BLANK then s else Strip(s[..|s| - 1])
  }

  function StripAll(f: Flags, records: seq<seq<int>>): seq<seq<int>> {
    if records == [] then [] else [CaseAll(f, Strip(records[0]))] + StripAll(f, records[1..])
  }

  function Longer(cbs: nat, lines: seq<seq<int>>): nat {
    if lines == [] then 0 else (if |lines[0]| > cbs then 1 else 0) + Longer(cbs, lines[1..])
  }

  predicate IsLine(s: seq<int>) {
    NEWLINE !in s
  }

  lemma BlockCons(f: Flags, cbs: nat, c: int, s: seq<int>, cbc: nat)
    ensures BlockOut(f, cbs, [c] + s, cbc) == BlockNow(f, cbs, c, cbc) + BlockOut(f, cbs, s, BlockCol(cbs, c, cbc))
    ensures Truncations(cbs, [c] + s, cbc) == Truncates(cbs, c, cbc) + Truncations(cbs, s, BlockCol(cbs, c, cbc))
  {
    assert ([c] + s)[1..] == s;
  }

  /** What `block` keeps of a line that starts in column `cbc`. */
  function Room(cbs: nat, line: seq<int>, cbc: nat): (r: seq<int>)
    ensures r <= line
  {
    line[..if cbc >= cbs then 0 else Min(|line|, cbs - cbc)]
  }

  lemma RoomCons(f: Flags, cbs: nat, c: int, more: seq<int>, cbc: nat)
    requires cbs > 0 && c != NEWLINE
    ensures CaseAll(f, Room(cbs, [c] + more, cbc)) == BlockNow(f, cbs, c, cbc) + CaseAll(f, Room(cbs, more, cbc + 1))
  {
    var r := Room(cbs, more, cbc + 1);
    if cbc < cbs {
      assert Room(cbs, [c] + more, cbc) == [c] + r;
    } else {
      assert Room(cbs, [c] + more, cbc) == [] == r;
    }
  }

  /** Within a line. */
  lemma {:induction false} BlockLine(f: Flags, cbs: nat, line: seq<int>, rest: seq<int>, cbc: nat)
    requires cbs > 0 && IsLine(line)
    ensures BlockOut(f, cbs, line + rest, cbc) == CaseAll(f, Room(cbs, line, cbc)) + BlockOut(f, cbs, rest, cbc + |line|)
    ensures Truncations(cbs, line + rest, cbc)
         == (if cbc <= cbs < cbc + |line| then 1 else 0) + Truncations(cbs, rest, cbc + |line|)
    decreases |line|
  {
    hide BlockOut, Truncations, BlockNow;
    if line == [] {
      assert line + rest == rest && Room(cbs, line, cbc) == [];
      assert CaseAll(f, []) + BlockOut(f, cbs, rest, cbc) == BlockOut(f, cbs, rest, cbc);
    } else {
      var c, more := line[0], line[1..];
      assert line == [c] + more && c in line;
      assert forall x :: x in more ==> x in line;
      Associative([c], more, rest);
      BlockCons(f, cbs, c, more + rest, cbc);
      BlockLine(f, cbs, more, rest, cbc + 1);
      RoomCons(f, cbs, c, more, cbc);
      Associative(BlockNow(f, cbs, c, cbc), CaseAll(f, Room(cbs, more, cbc + 1)), BlockOut(f, cbs, rest, cbc + |line|));
    }
  }

  /** `block` turns every line into one record of `cbs` bytes and counts those
      that were too long. */
  lemma {:induction false} BlockLines(f: Flags, cbs: nat, lines: seq<seq<int>>)
    requires cbs > 0 && forall i :: 0 <= i < |lines| ==> IsLine(lines[i])
    ensures BlockOut(f, cbs, Join(lines), 0) == Concat(FitAll(f, cbs, lines))
    ensures Truncations(cbs, Join(lines), 0) == Longer(cbs, lines)
  {
    if lines != [] {
      var line, more := lines[0], Join(lines[1..]);
      BlockLines(f, cbs, lines[1..]);
      OneLine(f, cbs, line, more);
      assert FitAll(f, cbs, lines)[1..] == FitAll(f, cbs, lines[1..]);
      hide BlockOut, Truncations, Fit;
    }
  }

  lemma OneLine(f: Flags, cbs: nat, line: seq<int>, more: seq<int>)
    requires cbs > 0 && IsLine(line)
    ensures BlockOut(f, cbs, line + [NEWLINE] + more, 0) == Fit(f, cbs, line) + BlockOut(f, cbs, more, 0)
    ensures Truncations(cbs, line + [NEWLINE] + more, 0) == (if |line| > cbs then 1 else 0) + Truncations(cbs, more, 0)
  {
    hide BlockOut, Truncations, Blanks;
    Associative(line, [NEWLINE], more);
    BlockLine(f, cbs, line, [NEWLINE] + more, 0);
    BlockCons(f, cbs, NEWLINE, more, |line|);
    Associative(CaseAll(f, Room(cbs, line, 0)), Blanks(cbs - |line|), BlockOut(f, cbs, more, 0));
  }

  /** Blanks held back and then some. */
  lemma {:induction false} BlanksMore(n: nat, s: seq<int>)
    ensures Blanks(n + 1) + s == Blanks(n) + ([BLANK] + s)
  {
    if n == 0 {
      assert Blanks(1) == [BLANK];
    } else {
      BlanksMore(n - 1, s);
    }
  }

  /** What `unblock` puts out for the rest `s` of a record. */
  function Tail(f: Flags, s: seq<int>, nspace: nat): seq<int> {
    if Strip(s) == [] then [] else Blanks(nspace) + CaseAll(f, Strip(s))
  }

  /** Within a record, of which `s` is left. */
  lemma {:induction false} UnblockRecord(f: Flags, cbs: nat, s: seq<int>, rest: seq<int>, cbc: nat, nspace: nat)
    requires 0 < |s| && cbc + |s| == cbs
    ensures UnblockOut(f, cbs, s + rest, cbc, nspace) == Tail(f, s, nspace) + ([NEWLINE] + UnblockOut(f, cbs, rest, 0, 0))
    decreases |s|
  {
    hide UnblockOut, Tail, UnblockNow, Strip;
    var c, more := s[0], s[1..];
    assert s == [c] + more;
    Associative([c], more, rest);
    UnblockCons(f, cbs, c, more + rest, cbc, nspace);
    if more == [] {
      assert more + rest == rest && s == [c];
      LastOfRecord(f, cbs, c, cbc, nspace);
      Associative(Tail(f, [c], nspace), [NEWLINE], UnblockOut(f, cbs, rest, 0, 0));
    } else {
      UnblockRecord(f, cbs, more, rest, cbc + 1, UnblockHeld(cbs, c, cbc, nspace));
      TailStep(f, cbs, c, more, cbc, nspace);
      Associative(UnblockNow(f, cbs, c, cbc, nspace), Tail(f, more, UnblockHeld(cbs, c, cbc, nspace)),
        [NEWLINE] + UnblockOut(f, cbs, rest, 0, 0));
    }
  }

  lemma UnblockCons(f: Flags, cbs: nat, c: int, s: seq<int>, cbc: nat, nspace: nat)
    ensures UnblockOut(f, cbs, [c] + s, cbc, nspace)
         == UnblockNow(f, cbs, c, cbc, nspace) + UnblockOut(f, cbs, s, UnblockCol(cbs, cbc), UnblockHeld(cbs, c, cbc, nspace))
  {
    hide UnblockNow, UnblockCol, UnblockHeld;
    assert ([c] + s)[1..] == s;
  }

  lemma LastOfRecord(f: Flags, cbs: nat, c: int, cbc: nat, nspace: nat)
    requires cbc + 1 == cbs
    ensures UnblockNow(f, cbs, c, cbc, nspace) == Tail(f, [c], nspace) + [NEWLINE]
  {
    StripFirst([c]);
    assert CaseAll(f, [c]) == [Case(f, c)];
  }

  /** A character in front of what is put out for the rest of a record. */
  lemma TailStep(f: Flags, cbs: nat, c: int, more: seq<int>, cbc: nat, nspace: nat)
    requires more != [] && cbc + 1 < cbs
    ensures UnblockNow(f, cbs, c, cbc, nspace) + Tail(f, more, UnblockHeld(cbs, c, cbc, nspace)) == Tail(f, [c] + more, nspace)
  {
    hide UnblockNow, Strip, Blanks, CaseAll;
    assert ([c] + more)[1..] == more;
    StripFirst([c] + more);
    UnblockInside(f, cbs, c, cbc, nspace);
    CaseCons(f, c, Strip(more));
    NoneHeld(f, more);
    var t := CaseAll(f, Strip(more));
    BlanksMore(nspace, t);
    Empties(Tail(f, more, nspace + 1), []);
    Associative(Blanks(nspace), [Case(f, c)], t);
  }

  lemma UnblockInside(f: Flags, cbs: nat, c: int, cbc: nat, nspace: nat)
    requires cbc + 1 < cbs
    ensures UnblockNow(f, cbs, c, cbc, nspace) == if c == BLANK then [] else Blanks(nspace) + [Case(f, c)]
  {
    hide Blanks;
  }

  lemma CaseCons(f: Flags, c: int, s: seq<int>)
    ensures CaseAll(f, [c] + s) == [Case(f, c)] + CaseAll(f, s)
    ensures Case(f, BLANK) == BLANK
  {
  }

  lemma {:induction false} StripFirst(s: seq<int>)
    requires s != []
    ensures Strip(s) == if s[0] == BLANK && Strip(s[1..]) == [] then [] else [s[0]] + Strip(s[1..])
    decreases |s|
  {
    if s[|s| - 1] != BLANK {
      assert s == [s[0]] + s[1..];
    } else if |s| > 1 {
      assert s[..|s| - 1][1..] == s[1..][..|s| - 2];
      StripFirst(s[..|s| - 1]);
    }
  }

  /** `unblock` turns every record into a line without trailing blanks. */
  lemma {:induction false} UnblockRecords(f: Flags, cbs: nat, records: seq<seq<int>>)
    requires cbs > 0 && forall i :: 0 <= i < |records| ==> |records[i]| == cbs
    ensures UnblockOut(f, cbs, Concat(records), 0, 0) == Join(StripAll(f, records))
  {
    hide UnblockOut, Tail, Strip;
    if records != [] {
      var rest := Concat(records[1..]);
      UnblockRecord(f, cbs, records[0], rest, 0, 0);
      UnblockRecords(f, cbs, records[1..]);
      NoneHeld(f, records[0]);
      assert StripAll(f, records)[1..] == StripAll(f, records[1..]);
      Associative(CaseAll(f, Strip(records[0])), [NEWLINE], UnblockOut(f, cbs, rest, 0, 0));
    } else {
      assert UnblockOut(f, cbs, [], 0, 0) == [] by {
        NoInput(f, cbs);
      }
    }
  }

  lemma NoInput(f: Flags, cbs: nat)
    ensures UnblockOut(f, cbs, [], 0, 0) == []
  {
  }

  lemma NoneHeld(f: Flags, s: seq<int>)
    ensures Tail(f, s, 0) == CaseAll(f, Strip(s))
  {
    var t := CaseAll(f, Strip(s));
    assert Blanks(0) + t == t;
    assert Strip(s) == [] ==> t == [];
  }

  /** Without a record length characters pass one by one. */
  lemma {:induction false} Unblocked(f: Flags, s: seq<int>, cbc: nat, nspace: nat)
    ensures BlockOut(f, 0, s, cbc) == CaseAll(f, s) == UnblockOut(f, 0, s, cbc, nspace) && Truncations(0, s, cbc) == 0
  {
    if s != [] {
      Unblocked(f, s[1..], cbc, nspace);
      assert CaseAll(f, s) == [Case(f, s[0])] + CaseAll(f, s[1..]);
    }
  }

  /** What is left of a line. */
  function Kept(cbs: nat, line: seq<int>): seq<int> {
    Strip(line[..Min(|line|, cbs)])
  }

  function KeptAll(cbs: nat, lines: seq<seq<int>>): seq<seq<int>> {
    if lines == [] then [] else [Kept(cbs, lines[0])] + KeptAll(cbs, lines[1..])
  }

  const ASIS := Flags(false, false)

  lemma BlanksLast(n: int)
    requires n > 0
    ensures Blanks(n) == Blanks(n - 1) + [BLANK]
  {
    BlanksMore(n - 1, []);
    assert Blanks(n) + [] == Blanks(n) && [BLANK] + [] == [BLANK];
  }

  lemma StripLast(s: seq<int>)
    ensures Strip(s + [BLANK]) == Strip(s)
  {
    assert (s + [BLANK])[..|s|] == s;
  }

  lemma {:induction false} StripBlanks(s: seq<int>, n: int)
    ensures Strip(s + Blanks(n)) == Strip(s)
    decreases n
  {
    hide Strip;
    if n <= 0 {
      assert s + Blanks(n) == s;
    } else {
      BlanksLast(n);
      Associative(s, Blanks(n - 1), [BLANK]);
      StripLast(s + Blanks(n - 1));
      StripBlanks(s, n - 1);
    }
  }

  lemma {:induction false} FitStrip(cbs: nat, lines: seq<seq<int>>)
    ensures StripAll(ASIS, FitAll(ASIS, cbs, lines)) == KeptAll(cbs, lines)
    ensures forall i :: 0 <= i < |FitAll(ASIS, cbs, lines)| ==> |FitAll(ASIS, cbs, lines)[i]| == cbs
  {
    if lines != [] {
      var line, all := lines[0], FitAll(ASIS, cbs, lines);
      var cut := line[..Min(|line|, cbs)];
      assert CaseAll(ASIS, cut) == cut;
      StripBlanks(cut, cbs - |line|);
      var k := Kept(cbs, line);
      assert CaseAll(ASIS, k) == k;
      assert all[1..] == FitAll(ASIS, cbs, lines[1..]);
      FitStrip(cbs, lines[1..]);
    }
  }

  /** There and back: every line comes back cut to `cbs` characters and without
      trailing blanks. */
  lemma RoundTrip(cbs: nat, lines: seq<seq<int>>)
    requires cbs > 0 && forall i :: 0 <= i < |lines| ==> IsLine(lines[i])
    ensures UnblockOut(ASIS, cbs, BlockOut(ASIS, cbs, Join(lines), 0), 0, 0) == Join(KeptAll(cbs, lines))
  {
    BlockLines(ASIS, cbs, lines);
    FitStrip(cbs, lines);
    UnblockRecords(ASIS, cbs, FitAll(ASIS, cbs, lines));
  }
}
