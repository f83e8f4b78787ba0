/** Regular expressions of the editor `ed` (bin/ed/ed.c): what a pattern means,
    independently of how `compile` encodes it and `advance` matches it. */
module EdPattern {
  import opened Wrappers

  const NBRA := 5
  const NEWLINE := 10

  /** What matches a single character. */
  datatype Atom = Chr(c: int) | Dot | Class(negated: bool, members: seq<int>)

  datatype Item =
    | One(a: Atom)
    | Star(a: Atom)
    | Open(k: nat)               // \(
    | Close(k: nat)              // \)
    | Dollar                     // $ at the end
    | Back(k: nat)               // \1 .. \5
    | BackStar(k: nat)

  // ------------------------------------------------------------ the meaning

  /** The character matches the atom. */
  predicate In(a: Atom, c: int) {
    match a
    case Chr(x) => c == x
    case Dot => true
    case Class(negated, members) => (c in members) != negated
  }

  /** `item` matches the part of the line from `s` up to `t`. */
  predicate Spans(item: Item, line: seq<int>, s: nat, t: nat) {
    match item
    case One(a) => s < |line| && t == s + 1 && In(a, line[s])
    case Star(a) => s <= t <= |line| && forall x :: s <= x < t ==> In(a, line[x])
    case Dollar => s == t == |line|
    case _ => s == t
  }

  /** Where item `n` starts if item `m` ends at `cuts[m]`. */
  function Start(i: nat, cuts: seq<nat>, n: nat): nat
    requires n <= |cuts|
  {
    if n == 0 then i else cuts[n - 1]
  }

  /** The items match consecutive parts of the line from `i` on, which end at `cuts`. */
  ghost predicate Matches(items: seq<Item>, line: seq<int>, i: nat, cuts: seq<nat>) {
    |cuts| == |items| && forall n :: 0 <= n < |items| ==> Spans(items[n], line, Start(i, cuts, n), cuts[n])
  }

  ghost predicate MatchesAt(items: seq<Item>, line: seq<int>, i: nat) {
    exists cuts :: Matches(items, line, i, cuts)
  }

  /** `a` is as long as `b` or longer at the first item where they differ. */
  predicate Greedier(a: seq<nat>, b: seq<nat>) {
    a == [] || b == [] || a[0] > b[0] || (a[0] == b[0] && Greedier(a[1..], b[1..]))
  }

  // ------------------------------------------- the match that `ed` prefers

  /** The end of the longest run of `a` from `i` on. */
  function RunEnd(a: Atom, line: seq<int>, i: nat): (e: nat)
    requires i <= |line|
    ensures i <= e <= |line|
    decreases |line| - i
  {
    if i < |line| && In(a, line[i]) then RunEnd(a, line, i + 1) else i
  }

  /** The cuts of the preferred match: each starred item takes as much as it can. */
  function Prefer(items: seq<Item>, line: seq<int>, i: nat): (r: Option<seq<nat>>)
    requires i <= |line|
    ensures r.Some? ==> |r.value| == |items|
    decreases |items|, 1, 0
  {
    if items == [] then Some([])
    else
      match items[0]
      case One(a) =>
        if i < |line| && In(a, line[i]) then Cons(i + 1, Prefer(items[1..], line, i + 1)) else None
      case Star(a) => Backtrack(items, line, i, RunEnd(a, line, i))
      case Dollar => if i == |line| then Cons(i, Prefer(items[1..], line, i)) else None
      case _ => Cons(i, Prefer(items[1..], line, i))
  }

  function Cons(k: nat, r: Option<seq<nat>>): Option<seq<nat>> {
    if r.Some? then Some([k] + r.value) else None
  }

  /** The first starred item tries to end at `k`, then one earlier, down to `i`. */
  function Backtrack(items: seq<Item>, line: seq<int>, i: nat, k: nat): (r: Option<seq<nat>>)
    requires items != [] && i <= k <= |line|
    ensures r.Some? ==> |r.value| == |items|
    decreases |items|, 0, k
  {
    var r := Prefer(items[1..], line, k);
    if r.Some? then Some([k] + r.value)
    else if k == i then None
    else Backtrack(items, line, i, k - 1)
  }

  lemma {:induction false} RunEndFacts(a: Atom, line: seq<int>, i: nat)
    requires i <= |line|
    ensures forall x :: i <= x < RunEnd(a, line, i) ==> In(a, line[x])
    ensures RunEnd(a, line, i) < |line| ==> !In(a, line[RunEnd(a, line, i)])
    decreases |line| - i
  {
    if i < |line| && In(a, line[i]) {
      RunEndFacts(a, line, i + 1);
    }
  }

  /** The first cut and the rest. */
  lemma MatchesCons(items: seq<Item>, line: seq<int>, i: nat, cuts: seq<nat>)
    requires items != []
    ensures Matches(items, line, i, cuts) <==>
      |cuts| == |items| && Spans(items[0], line, i, cuts[0]) && Matches(items[1..], line, cuts[0], cuts[1..])
  {
    if |cuts| == |items| {
      var r := cuts[1..];
      assert forall n :: 0 <= n < |r| ==> Start(cuts[0], r, n) == Start(i, cuts, n + 1) && r[n] == cuts[n + 1];
      if Matches(items, line, i, cuts) {
        forall n | 0 <= n < |r| ensures Spans(items[1..][n], line, Start(cuts[0], r, n), r[n]) {
          assert Spans(items[n + 1], line, Start(i, cuts, n + 1), cuts[n + 1]);
        }
        assert Spans(items[0], line, Start(i, cuts, 0), cuts[0]);
      }
      if Spans(items[0], line, i, cuts[0]) && Matches(items[1..], line, cuts[0], r) {
        forall n | 0 <= n < |items| ensures Spans(items[n], line, Start(i, cuts, n), cuts[n]) {
          if n > 0 {
            assert Spans(items[1..][n - 1], line, Start(cuts[0], r, n - 1), r[n - 1]);
          }
        }
      }
    }
  }

  /** The preferred match is a match, it exists whenever there is any match,
      and it is the greediest one. */
  lemma {:induction false} PreferCorrect(items: seq<Item>, line: seq<int>, i: nat)
    requires i <= |line|
    ensures Prefer(items, line, i).Some? ==> Matches(items, line, i, Prefer(items, line, i).value)
    ensures forall cuts :: Matches(items, line, i, cuts) ==>
      Prefer(items, line, i).Some? && Greedier(Prefer(items, line, i).value, cuts)
    decreases |items|, 1, 0
  {
    if items != [] {
      forall cuts ensures Matches(items, line, i, cuts) ==>
        |cuts| == |items| && Spans(items[0], line, i, cuts[0]) && Matches(items[1..], line, cuts[0], cuts[1..])
      {
        MatchesCons(items, line, i, cuts);
      }
      if items[0].Star? {
        RunEndFacts(items[0].a, line, i);
        var e := RunEnd(items[0].a, line, i);
        BacktrackCorrect(items, line, i, e);
        forall cuts | Matches(items, line, i, cuts) ensures cuts[0] <= e {
          assert Spans(items[0], line, i, cuts[0]);
        }
      } else {
        var k := if items[0].One? then i + 1 else i;
        if k <= |line| {
          PreferCorrect(items[1..], line, k);
          var r := Prefer(items, line, i);
          if r.Some? {
            MatchesCons(items, line, i, r.value);
            assert r.value[1..] == Prefer(items[1..], line, k).value;
          }
        }
      }
    }
  }

  lemma {:induction false} BacktrackCorrect(items: seq<Item>, line: seq<int>, i: nat, k: nat)
    requires items != [] && items[0].Star? && i <= |line| && i <= k <= RunEnd(items[0].a, line, i)
    ensures var r := Backtrack(items, line, i, k);
      && (r.Some? ==> Matches(items, line, i, r.value))
      && forall cuts :: Matches(items, line, i, cuts) && cuts[0] <= k ==> r.Some? && Greedier(r.value, cuts)
    decreases |items|, 0, k
  {
    var r := Backtrack(items, line, i, k);
    RunEndFacts(items[0].a, line, i);
    PreferCorrect(items[1..], line, k);
    if Prefer(items[1..], line, k).Some? {
      MatchesCons(items, line, i, r.value);
      assert r.value[1..] == Prefer(items[1..], line, k).value;
    } else if k > i {
      BacktrackCorrect(items, line, i, k - 1);
    }
    forall cuts | Matches(items, line, i, cuts) && cuts[0] <= k ensures r.Some? && Greedier(r.value, cuts) {
      MatchesCons(items, line, i, cuts);
      if cuts[0] == k {
        assert Matches(items[1..], line, k, cuts[1..]);
      }
    }
  }

  /** A match that no other match from the same place beats at its first difference. */
  ghost predicate Greediest(items: seq<Item>, line: seq<int>, i: nat, cuts: seq<nat>) {
    Matches(items, line, i, cuts) && forall other :: Matches(items, line, i, other) ==> Greedier(cuts, other)
  }

  /** The preferred match decides whether there is any. */
  lemma Preferred(items: seq<Item>, line: seq<int>, i: nat)
    requires i <= |line|
    ensures Prefer(items, line, i).Some? <==> MatchesAt(items, line, i)
    ensures Prefer(items, line, i).Some? ==> Greediest(items, line, i, Prefer(items, line, i).value)
  {
    PreferCorrect(items, line, i);
  }
}
