/** The list of lines of `ed` (bin/ed/ed.c): an array of addresses, from which
    lines are deleted and in which they are moved in place. */
module EdLines {

  // ------------------------------------------------------------------ moving

  /** Lines `i` up to `j` relocated behind line `k`, counting from 0. */
  function Moved(s: seq<int>, i: nat, j: nat, k: nat): seq<int>
    requires i <= j <= |s| && (k <= i || j <= k <= |s|)
  {
    if k <= i then s[..k] + s[i..j] + s[k..i] + s[j..] else s[..i] + s[j..k] + s[i..j] + s[k..]
  }

  /** Where a moved range starts. */
  function Landing(i: nat, j: nat, k: nat): nat
    requires i <= j && (k <= i || j <= k)
  {
    if k <= i then k else k - (j - i)
  }

  /** Moving a range neither loses nor disturbs the lines outside, and puts the
      range in one piece behind the line named as the target. */
  lemma MovedFacts(s: seq<int>, i: nat, j: nat, k: nat)
    requires i <= j <= |s| && (k <= i || j <= k <= |s|)
    ensures var r, at := Moved(s, i, j, k), Landing(i, j, k); var end := at + (j - i);
      && |r| == |s| && end <= |s|
      && r[at..end] == s[i..j]
      && r[..at] + r[end..] == s[..i] + s[j..]
  {
    if k <= i {
      var a, b, c := s[..k], s[k..i], s[j..];
      assert s[..i] == a + b;
      Between(a, s[i..j], b, c);
    } else {
      var a, b, c := s[..i], s[j..k], s[k..];
      assert s[j..] == b + c;
      Between(a + b, s[i..j], [], c);
      assert a + b + s[i..j] + [] + c == a + b + s[i..j] + c;
      assert a + b + [] + c == a + (b + c);
    }
  }

  /** The moved range comes right behind its target. */
  lemma MovedBehind(s: seq<int>, i: nat, j: nat, k: nat)
    requires i <= j <= |s| && (k <= i || j < k <= |s|) && k > 0
    ensures Landing(i, j, k) > 0 && Moved(s, i, j, k)[Landing(i, j, k) - 1] == s[k - 1]
  {
    MovedFrom(s, i, j, k, Landing(i, j, k) - 1);
  }

  /** Which line comes to place `x`. */
  function From(x: nat, i: nat, j: nat, k: nat): int
    requires i <= j
  {
    if k <= i then
      if x < k then x else if x < k + (j - i) then x - k + i else if x < j then x - (j - i) else x
    else
      if x < i then x else if x < k - (j - i) then x + (j - i) else if x < k then x - (k - j) else x
  }

  lemma MovedFrom(s: seq<int>, i: nat, j: nat, k: nat, x: nat)
    requires i <= j <= |s| && (k <= i || j <= k <= |s|) && x < |s|
    ensures 0 <= From(x, i, j, k) < |s| && Moved(s, i, j, k)[x] == s[From(x, i, j, k)]
  {
  }

  lemma Between(a: seq<int>, x: seq<int>, b: seq<int>, c: seq<int>)
    ensures var r := a + x + b + c;
      r[|a|..|a| + |x|] == x && r[..|a|] + r[|a| + |x|..] == a + b + c
  {
    var r := a + x + b + c;
    assert r[..|a|] == a && r[|a| + |x|..] == b + c;
  }

  // ------------------------------------------------------------------- marks

  /** A line is marked in the low bit of its address. */
  predicate Marked(x: int) {
    x % 2 == 1
  }

  function Cleared(x: int): (r: int)
    ensures !Marked(r) && x - 1 <= r <= x
  {
    x - x % 2
  }

  /** The lines without a mark. */
  function Unmarked(s: seq<int>): (r: seq<int>)
    ensures |r| <= |s|
  {
    if s == [] then []
    else
      var n := |s| - 1;
      Unmarked(s[..n]) + if Marked(s[n]) then [] else [s[n]]
  }

  /** How many lines are marked. */
  function Marks(s: seq<int>): nat {
    |s| - |Unmarked(s)|
  }

  lemma {:induction false} UnmarkedConcat(a: seq<int>, b: seq<int>)
    ensures Unmarked(a + b) == Unmarked(a) + Unmarked(b)
  {
    if b == [] {
      assert a + b == a;
    } else {
      var n := |b| - 1;
      assert (a + b)[..|a + b| - 1] == a + b[..n];
      UnmarkedConcat(a, b[..n]);
    }
  }

  /** Every line stays or goes by its own mark, its lowest bit, and those that stay keep their order. */
  lemma UnmarkedMeans(s: seq<int>, k: nat)
    requires k < |s|
    ensures Unmarked(s) == Unmarked(s[..k]) + (if s[k] % 2 == 0 then [s[k]] else []) + Unmarked(s[k + 1..])
    ensures Unmarked([]) == []
  {
    hide Unmarked;
    var a, m, c := s[..k], [s[k]], s[k + 1..];
    assert s == a + m + c;
    UnmarkedConcat(a + m, c);
    UnmarkedConcat(a, m);
    UnmarkedOne(s[k]);
  }

  lemma UnmarkedOne(x: int)
    ensures Unmarked([x]) == (if x % 2 == 0 then [x] else []) && Unmarked([]) == []
  {
    assert [x][..0] == [];
  }

  lemma {:induction false} NoMarks(s: seq<int>)
    requires forall i :: 0 <= i < |s| ==> !Marked(s[i])
    ensures Unmarked(s) == s
  {
    if s != [] {
      var n := |s| - 1;
      NoMarks(s[..n]);
      assert s == s[..n] + [s[n]];
    }
  }

  /** The place among the kept lines of the last marked line, counting from 1, or 0. */
  function LastMark(s: seq<int>): nat {
    if s == [] then 0
    else
      var n := |s| - 1;
      if Marked(s[n]) then |Unmarked(s[..n])| + 1 else LastMark(s[..n])
  }

  class Lines {
    const core: array<int>     // the lines are those from 1 to `dol`
    var dot: int
    var dol: int
    var fchange: bool

    /** There is room for one line more than there are. */
    ghost predicate Valid()
      reads this
    {
      0 <= dol && dol + 1 < core.Length
    }

    ghost function Text(): seq<int>
      requires Valid()
      reads this, core
    {
      Slice(core[..], dol)
    }

    constructor (text: seq<int>)
      ensures Valid() && Text() == text && dol == |text| && fresh(core)
    {
      core := new int[|text| + 2](i requires 0 <= i < |text| + 2 => if 1 <= i <= |text| then text[i - 1] else 0);
      dot, dol, fchange := |text|, |text|, false;
    }

    /** `reverse(a1, a2)` */
    method Reverse(b1: int, b2: int)
      requires 0 <= b1 <= b2 <= core.Length && 0 < b2
      modifies core
      ensures forall x :: 0 <= x < b1 || b2 <= x < core.Length ==> core[x] == old(core[x])
      ensures forall x :: b1 <= x < b2 ==> core[x] == old(core[b1 + b2 - 1 - x])
    {
      var a1, a2 := b1, b2;
      while true
        invariant b1 <= a1 && a1 - b1 == b2 - a2 && 0 < a2 && a1 <= a2 + 1
        invariant forall x :: 0 <= x < b1 || b2 <= x < core.Length || a1 <= x < a2 ==> core[x] == old(core[x])
        invariant forall x :: b1 <= x < a1 || a2 <= x < b2 ==> core[x] == old(core[b1 + b2 - 1 - x])
        decreases a2 - a1
      {
        a2 := a2 - 1;
        var t := core[a2];
        if a2 <= a1 {
          break;
        }
        core[a2] := core[a1];
        core[a1] := t;
        a1 := a1 + 1;
      }
    }

    /** Three reversals exchange two neighbouring stretches. */
    method Exchange(p: int, q: int, r: int)
      requires 0 <= p <= q <= r <= core.Length && 0 < q
      modifies core
      ensures Swapped(old(core[..]), core[..], p, q, r) == true
    {
      Reverse(p, q);
      Reverse(q, r);
      Reverse(p, r);
    }

    /** `move(0)`, for lines `addr1` to `addr2` and the target line `adt`: it is
        an error just when the target is one of the lines to be moved.  They lose
        their marks either way. */
    method Move(addr1: int, addr2: int, adt: int) returns (ok: bool)
      requires Valid() && 1 <= addr1 <= addr2 <= dol && 0 <= adt <= dol
      modifies this`dot, this`fchange, core
      ensures Valid() && (ok <==> !(addr1 <= adt <= addr2))
      ensures var s := Unmark(old(Text()), addr1 - 1, addr2);
        Text() == if ok then Moved(s, addr1 - 1, addr2, adt) else s
      ensures ok ==> dot == Landing(addr1 - 1, addr2, adt) + (addr2 - addr1 + 1)
      ensures !ok ==> dot == old(dot)
    {
      hide Moved, Unmark, Slice;
      Unmarking(addr1, addr2);
      if adt < addr1 {
        ok := true;
        Up(addr1, addr2 + 1, adt);
      } else if adt >= addr2 + 1 {
        ok := true;
        Down(addr1, addr2 + 1, adt);
      } else {
        ok := false;
      }
    }

    /** The arm of `move` for a target above. */
    method Up(ad1: int, ad2: int, adt: int)
      requires Valid() && 1 <= ad1 < ad2 <= dol + 1 && 0 <= adt < ad1
      modifies this`dot, this`fchange, core
      ensures Text() == Moved(old(Text()), ad1 - 1, ad2 - 1, adt)
      ensures dot == adt + (ad2 - ad1)
    {
      hide Moved, Swapped, Slice;
      dot := adt + (ad2 - ad1);
      if adt + 1 == ad1 {
        Nowhere(Text(), ad1 - 1, ad2 - 1);
        return;
      }
      Exchange(adt + 1, ad1, ad2);
      MovedUp(old(core[..]), core[..], dol, ad1 - 1, ad2 - 1, adt);
      fchange := true;
    }

    /** The arm of `move` for a target below. */
    method Down(ad1: int, ad2: int, adt: int)
      requires Valid() && 1 <= ad1 < ad2 <= adt <= dol
      modifies this`dot, this`fchange, core
      ensures Text() == Moved(old(Text()), ad1 - 1, ad2 - 1, adt)
      ensures dot == adt
    {
      hide Moved, Swapped, Slice;
      dot := adt;
      Exchange(ad1, ad2, adt + 1);
      MovedDown(old(core[..]), core[..], dol, ad1 - 1, ad2 - 1, adt);
      fchange := true;
    }

    /** `*ad1++ &= ~01` */
    method Unmarking(addr1: int, addr2: int)
      requires Valid() && 1 <= addr1 <= addr2 <= dol
      modifies core
      ensures Text() == Unmark(old(Text()), addr1 - 1, addr2)
    {
      var ad1 := addr1;
      while ad1 <= addr2
        invariant addr1 <= ad1 <= addr2 + 1
        invariant forall x :: 0 <= x < core.Length ==>
          core[x] == if addr1 <= x < ad1 then Cleared(old(core[x])) else old(core[x])
      {
        core[ad1] := Cleared(core[ad1]);
        ad1 := ad1 + 1;
      }
    }

    // ------------------------------------------------------------- deletion

    /** `rdelete(ad1, ad2)`; the line behind the last one is copied, too, if
        the range ends with the last line. */
    method Rdelete(ad1: int, ad2: int)
      requires Valid() && 1 <= ad1 <= ad2 <= dol
      modifies this, core
      ensures Valid() && Text() == old(Text())[..ad1 - 1] + old(Text())[ad2..] && core[0] == old(core[0])
      ensures dot == if ad1 > dol then dol else ad1
    {
      var a1, a2, a3 := ad1, ad2 + 1, dol;
      dol := dol - (a2 - a1);
      var more := true;
      while more
        invariant ad1 <= a1 && a2 - a1 == ad2 + 1 - ad1 && a2 <= a3 + 2
        invariant more ==> a2 <= a3 + 1 && (a2 <= a3 || a1 == ad1)
        invariant !more ==> a2 > a3
        invariant forall x :: 0 <= x < ad1 || a1 <= x < core.Length ==> core[x] == old(core[x])
        invariant forall x :: ad1 <= x < a1 ==> core[x] == old(core[x + (a2 - a1)])
        decreases more, a3 + 2 - a2
        modifies core
      {
        core[a1] := core[a2];
        a1, a2 := a1 + 1, a2 + 1;
        more := a2 <= a3;
      }
      Deleted(old(core[..]), core[..], a3, ad1, ad2);
      a1 := ad1;
      if a1 > dol {
        a1 := dol;
      }
      dot := a1;
      fchange := true;
    }

    /** `gdelete()`: all marked lines go in one pass. */
    method Gdelete()
      requires Valid() && 1 <= dol
      modifies this, core
      ensures Valid() && Text() == Unmarked(old(Text()))
      ensures dot == GdeleteDot(old(Text()), old(dot))
    {
      ghost var s := Text();
      var none, a1 := FindMarked(s);
      if none {
        return;
      }
      hide Unmarked;
      a1 := Squeeze(a1, s);
      dol := a1 - 1;
      if dot > dol {
        dot := dol;
      }
      fchange := true;
    }

    /** The loop of `global` that obeys the command `d` for each marked line,
        starting again from the top after each: what `gdelete` stands in for. */
    method DeleteOneByOne()
      requires Valid() && !Marked(core[0])
      modifies this, core
      ensures Valid() && Text() == Unmarked(old(Text()))
      ensures dot == OneByOneDot(old(Text()), old(dot))
    {
      ghost var s := Text();
      var a1 := 0;
      while a1 <= dol
        invariant Valid() && 0 <= a1 <= dol + 1 && !Marked(core[0])
        invariant forall x :: 1 <= x < a1 ==> !Marked(core[x])
        invariant Pending(s, Text(), old(dot), dot) == true
        decreases Marks(Text()), dol - a1
      {
        if Marked(core[a1]) {
          DeleteAt(a1, s, old(dot));
          a1 := 0;
        }
        a1 := a1 + 1;
      }
      assert forall x :: 0 <= x < dol ==> Text()[x] == core[x + 1];
      NoMarks(Text());
    }

    /** What `commands` does with `d` for a marked line. */
    method DeleteAt(a1: int, ghost s: seq<int>, ghost dot0: int)
      requires Valid() && 1 <= a1 <= dol && Marked(core[a1]) && forall x :: 1 <= x < a1 ==> !Marked(core[x])
      requires Pending(s, Text(), dot0, dot)
      modifies this, core
      ensures Valid() && core[0] == old(core[0]) && Marks(Text()) == Marks(old(Text())) - 1
      ensures Pending(s, Text(), dot0, dot) == true
    {
      hide Marks, Pending;
      ghost var t := Text();
      assert forall x :: 0 <= x < dol ==> t[x] == core[x + 1];
      core[a1] := Cleared(core[a1]);
      dot := a1;
      assert Text() == t[a1 - 1 := Cleared(t[a1 - 1])];
      Rdelete(dot, dot);
      assert Text() == t[..a1 - 1] + t[a1..];
      PendingNext(s, t, a1 - 1, dot0, old(dot));
    }

    /** The first loop of `gdelete`. */
    method FindMarked(ghost s: seq<int>) returns (none: bool, a1: int)
      requires Valid() && 1 <= dol && s == Text()
      ensures none ==> Unmarked(s) == s
      ensures !none ==> 1 <= a1 <= dol && Front(core[..], a1, Unmarked(s[..a1])) == true && Marks(s[..a1]) == 1
    {
      assert forall x :: 0 <= x < dol ==> s[x] == core[x + 1];
      a1 := 1;
      while !Marked(core[a1])
        invariant 1 <= a1 <= dol
        invariant forall x :: 0 <= x < a1 - 1 ==> !Marked(s[x])
        decreases dol - a1
      {
        if a1 >= dol {
          NoMarks(s);
          return true, a1;
        }
        a1 := a1 + 1;
      }
      NoMarks(s[..a1 - 1]);
      FirstMarked(s, a1 - 1);
      none := false;
    }

    /** The second loop of `gdelete`, from its first marked line on. */
    method Squeeze(b1: int, ghost s: seq<int>) returns (a1: int)
      requires Valid() && 1 <= b1 <= dol && Text() == s && Front(core[..], b1, Unmarked(s[..b1])) && Marks(s[..b1]) == 1
      modifies this`dot, core
      ensures Front(core[..], a1, Unmarked(s)) == true && Marks(s) >= 1
      ensures dot == if Marks(s) == 1 then old(dot) else LastMark(s)
    {
      hide Unmarked, LastMark;
      a1 := b1;
      var a2 := a1 + 1;
      while a2 <= dol
        invariant a1 < a2 <= dol + 1
        invariant forall x :: a2 <= x <= dol ==> core[x] == s[x - 1]
        invariant Front(core[..], a1, Unmarked(s[..a2 - 1])) == true
        invariant Marks(s[..a2 - 1]) >= 1
        invariant dot == if Marks(s[..a2 - 1]) == 1 then old(dot) else LastMark(s[..a2 - 1])
      {
        OneLine(s, a2 - 1);
        if Marked(core[a2]) {
          a2 := a2 + 1;
          dot := a1;
        } else {
          core[a1] := core[a2];
          a1, a2 := a1 + 1, a2 + 1;
        }
      }
      assert s[..a2 - 1] == s;
    }
  }

  lemma {:induction false} LastConcat(a: seq<int>, b: seq<int>)
    ensures LastMark(b) > 0 <==> Marks(b) > 0
    ensures LastMark(a + b) == if LastMark(b) > 0 then |Unmarked(a)| + LastMark(b) else LastMark(a)
  {
    if b == [] {
      assert a + b == a;
    } else {
      var n := |b| - 1;
      assert (a + b)[..|a + b| - 1] == a + b[..n];
      LastConcat(a, b[..n]);
      UnmarkedConcat(a, b[..n]);
    }
  }

  /** The first marked line goes. */
  lemma FirstGone(s: seq<int>, i: nat)
    requires i < |s| && Marked(s[i]) && forall x :: 0 <= x < i ==> !Marked(s[x])
    ensures var r := s[..i] + s[i + 1..];
      && Unmarked(r) == Unmarked(s) && Marks(r) == Marks(s) - 1
      && (if Marks(r) > 0 then LastMark(r) == LastMark(s) else LastMark(s) == i + 1 && r == Unmarked(r))
  {
    var a, m, c := s[..i], [s[i]], s[i + 1..];
    assert s == a + m + c;
    assert m[..0] == [];
    assert Unmarked(m) == [] && LastMark(m) == 1;
    hide Unmarked, LastMark;
    assert a + [] == a;
    NoMarks(a);
    UnmarkedConcat(a + m, c);
    UnmarkedConcat(a, m);
    UnmarkedConcat(a, c);
    LastConcat(a + m, c);
    LastConcat(a, m);
    LastConcat(a, c);
    FewerMarks(c);
  }

  lemma {:induction false} FewerMarks(s: seq<int>)
    ensures Marks(s) == 0 ==> Unmarked(s) == s
  {
    if s != [] {
      var n := |s| - 1;
      FewerMarks(s[..n]);
      assert s == s[..n] + [s[n]];
    }
  }

  lemma OneLine(s: seq<int>, k: nat)
    requires k < |s|
    ensures Unmarked(s[..k + 1]) == Unmarked(s[..k]) + if Marked(s[k]) then [] else [s[k]]
    ensures LastMark(s[..k + 1]) == if Marked(s[k]) then |Unmarked(s[..k])| + 1 else LastMark(s[..k])
  {
    assert s[..k + 1][..k] == s[..k];
  }

  /** The kept lines lie at the front of the array. */
  ghost predicate Front(c: seq<int>, a1: int, kept: seq<int>) {
    a1 == |kept| + 1 && a1 <= |c| && Slice(c, a1 - 1) == kept
  }

  lemma FirstMarked(s: seq<int>, k: nat)
    requires k < |s| && Unmarked(s[..k]) == s[..k] && Marked(s[k])
    ensures Unmarked(s[..k + 1]) == s[..k] && Marks(s[..k + 1]) == 1
  {
    OneLine(s, k);
    hide Unmarked;
    assert s[..k] + [] == s[..k];
  }

  /** Where `gdelete` leaves the dot: at the line after the last one deleted,
      but only if more than one line is deleted. */
  function GdeleteDot(s: seq<int>, dot: int): int {
    if Marks(s) == 0 then dot
    else
      var d := if Marks(s) == 1 then dot else LastMark(s);
      if d > |Unmarked(s)| then |Unmarked(s)| else d
  }

  /** Where the one-by-one deletion leaves the dot. */
  function OneByOneDot(s: seq<int>, dot: int): int {
    if Marks(s) == 0 then dot
    else if LastMark(s) > |Unmarked(s)| then |Unmarked(s)| else LastMark(s)
  }

  /** The fast way and the slow way leave the same lines; they leave the same
      dot, too, unless just one line is deleted and the dot was elsewhere. */
  lemma SameDot(s: seq<int>, dot: int)
    requires 0 <= dot <= |s|
    ensures GdeleteDot(s, dot) == OneByOneDot(s, dot) <==>
      Marks(s) != 1 || dot == LastMark(s) || (dot >= |Unmarked(s)| && LastMark(s) >= |Unmarked(s)|)
  {
  }

  /** The deletion has come from `s` to `t`. */
  ghost predicate Pending(s: seq<int>, t: seq<int>, dot0: int, dot: int) {
    && Unmarked(t) == Unmarked(s) && Marks(t) <= Marks(s)
    && (Marks(t) > 0 ==> LastMark(t) == LastMark(s))
    && (Marks(t) == 0 ==> dot == OneByOneDot(s, dot0))
  }

  /** The first marked line has been deleted, and the dot put at its place. */
  lemma PendingNext(s: seq<int>, t: seq<int>, i: nat, dot0: int, dot: int)
    requires Pending(s, t, dot0, dot) && i < |t| && Marked(t[i]) && forall x :: 0 <= x < i ==> !Marked(t[x])
    ensures var r := t[..i] + t[i + 1..];
            Marks(r) == Marks(t) - 1 && Pending(s, r, dot0, if i + 1 > |r| then |r| else i + 1)
  {
    hide Unmarked, LastMark, Marked;
    FirstGone(t, i);
  }

  lemma Deleted(c: seq<int>, c': seq<int>, dol: nat, ad1: nat, ad2: nat)
    requires |c'| == |c| && dol + 1 < |c| && 1 <= ad1 <= ad2 <= dol
    requires forall x :: 0 <= x < ad1 ==> c'[x] == c[x]
    requires forall x {:trigger c'[x]} :: ad1 <= x <= dol - (ad2 + 1 - ad1) ==> c'[x] == c[x + (ad2 + 1 - ad1)]
    ensures Slice(c', dol - (ad2 + 1 - ad1)) == Slice(c, dol)[..ad1 - 1] + Slice(c, dol)[ad2..]
  {
  }

  /** `c'` is `c` with the stretches from `p` to `q` and from `q` to `r` exchanged. */
  ghost predicate Swapped(c: seq<int>, c': seq<int>, p: int, q: int, r: int)
    requires 0 <= p <= q <= r <= |c|
  {
    && |c'| == |c|
    && forall x {:trigger c'[x]} :: 0 <= x < |c| ==>
      c'[x] == c[if p <= x < p + (r - q) then x + (q - p) else if p <= x < r then x - (r - q) else x]
  }

  lemma Nowhere(s: seq<int>, i: nat, j: nat)
    requires i <= j <= |s|
    ensures Moved(s, i, j, i) == s
  {
  }

  /** Some lines lose their marks. */
  function Unmark(s: seq<int>, i: nat, j: nat): (r: seq<int>)
    requires i <= j <= |s|
    ensures |r| == |s|
  {
    seq(|s|, x requires 0 <= x < |s| => if i <= x < j then Cleared(s[x]) else s[x])
  }

  function Slice(c: seq<int>, dol: nat): (s: seq<int>)
    requires dol < |c|
    ensures |s| == dol
  {
    c[1..dol + 1]
  }

  /** Moving within the array of lines, which start at its place 1: up or down. */
  lemma MovedUp(c: seq<int>, c': seq<int>, dol: nat, i: nat, j: nat, k: nat)
    requires |c| == |c'| && dol + 1 < |c| && k <= i <= j <= dol && Swapped(c, c', k + 1, i + 1, j + 1) == true
    ensures Slice(c', dol) == Moved(Slice(c, dol), i, j, k)
  {
    MovedAt(c, c', dol, i, j, k);
  }

  lemma MovedDown(c: seq<int>, c': seq<int>, dol: nat, i: nat, j: nat, k: nat)
    requires |c| == |c'| && dol + 1 < |c| && i <= j < k <= dol && Swapped(c, c', i + 1, j + 1, k + 1) == true
    ensures Slice(c', dol) == Moved(Slice(c, dol), i, j, k)
  {
    MovedAt(c, c', dol, i, j, k);
  }

  lemma MovedAt(c: seq<int>, c': seq<int>, dol: nat, i: nat, j: nat, k: nat)
    requires |c| == |c'| && dol + 1 < |c| && i <= j <= dol && (k <= i || j <= k <= dol)
    requires Swapped(c, c', if k <= i then k + 1 else i + 1, if k <= i then i + 1 else j + 1, if k <= i then j + 1 else k + 1)
    ensures Slice(c', dol) == Moved(Slice(c, dol), i, j, k)
  {
    var s, s' := Slice(c, dol), Slice(c', dol);
    forall x | 0 <= x < dol ensures s'[x] == Moved(s, i, j, k)[x] {
      MovedFrom(s, i, j, k, x);
      assert c'[x + 1] == c[From(x, i, j, k) + 1];
      assert s'[x] == c'[x + 1] && s[From(x, i, j, k)] == c[From(x, i, j, k) + 1];
    }
    hide Moved, Slice;
  }
}