/** NUL-terminated byte strings and the order in which the csh variable table
    keeps them (bin/csh/sh.set.c). */
module Names {

  /** A byte of a C string other than its terminator. */
  type NameByte = b: int | 1 <= b < 256 witness 1

  /** A C string, without its terminating NUL. */
  type Name = seq<NameByte>

  /** The byte a `char *` into `s` reads at offset `i`. */
  function At(s: Name, i: nat): (b: int)
    requires i <= |s|
    ensures 0 <= b < 256
  {
    if i < |s| then s[i] else 0
  }

  /** The value of a byte read through a plain (signed) `char`. */
  function Signed(b: int): (r: int)
    requires 0 <= b < 256
    ensures -128 <= r < 128 && (r - b) % 256 == 0
  {
    if b < 128 then b else b - 256
  }

  /** `strcmp` starting at a common offset `i`: it compares unsigned bytes. */
  function StrCmp(a: Name, b: Name, i: nat): int
    requires i <= |a| && i <= |b|
    requires a[..i] == b[..i]
    decreases |a| - i
  {
    if At(a, i) != At(b, i) then At(a, i) - At(b, i)
    else if At(a, i) == 0 then 0
    else StrCmp(a, b, i + 1)
  }

  /** The comparison of `setq` and `adrof1`: the difference of the two first
      bytes read as signed characters, and `strcmp` only if that is zero. */
  function Compare(a: Name, b: Name): int {
    var first := Signed(At(a, 0)) - Signed(At(b, 0));
    if first != 0 then first else StrCmp(a, b, 0)
  }

  predicate Less(a: Name, b: Name) {
    Compare(a, b) < 0
  }

  /** `strcmp` decides at the first offset where the two strings differ. */
  lemma {:induction false} StrCmpDecides(a: Name, b: Name, i: nat, d: nat)
    requires i <= d <= |a| && d <= |b|
    requires a[..d] == b[..d]
    requires At(a, d) != At(b, d)
    ensures a[..i] == b[..i]
    ensures StrCmp(a, b, i) == At(a, d) - At(b, d)
    decreases d - i
  {
    assert a[..i] == a[..d][..i] == b[..d][..i] == b[..i];
    if i < d {
      assert a[i] == a[..d][i] == b[..d][i] == b[i];
      StrCmpDecides(a, b, i + 1, d);
    }
  }

  /** Two different strings have a first differing offset. */
  lemma {:induction false} FirstDifference(a: Name, b: Name, i: nat) returns (d: nat)
    requires i <= |a| && i <= |b| && a[..i] == b[..i] && a != b
    ensures i <= d <= |a| && d <= |b| && a[..d] == b[..d] && At(a, d) != At(b, d)
    decreases |a| - i
  {
    if At(a, i) != At(b, i) {
      d := i;
    } else if i == |a| {
      assert false;
    } else {
      assert a[..i + 1] == a[..i] + [a[i]] == b[..i] + [b[i]] == b[..i + 1];
      d := FirstDifference(a, b, i + 1);
    }
  }

  /** `strcmp` of equal strings. */
  lemma {:induction false} StrCmpRefl(a: Name, i: nat)
    requires i <= |a|
    ensures StrCmp(a, a, i) == 0
    decreases |a| - i
  {
    if i < |a| {
      StrCmpRefl(a, i + 1);
    }
  }

  /** How the byte at the deciding offset is read. */
  function Rank(d: nat, b: int): int
    requires 0 <= b < 256
  {
    if d == 0 then Signed(b) else b
  }

  lemma CompareDecides(a: Name, b: Name, d: nat)
    requires d <= |a| && d <= |b|
    requires a[..d] == b[..d]
    requires At(a, d) != At(b, d)
    ensures Compare(a, b) == Rank(d, At(a, d)) - Rank(d, At(b, d))
  {
    StrCmpDecides(a, b, 0, d);
    if d > 0 {
      assert a[0] == a[..d][0] == b[..d][0] == b[0];
    }
  }

  /** Exactly one of `a < b`, `a == b`, `b < a` holds. */
  lemma CompareTrichotomy(a: Name, b: Name)
    ensures Compare(a, b) == 0 <==> a == b
    ensures Less(a, b) <==> Compare(b, a) > 0
  {
    if a == b {
      StrCmpRefl(a, 0);
    } else {
      var d := FirstDifference(a, b, 0);
      CompareDecides(a, b, d);
      CompareDecides(b, a, d);
    }
  }

  /** The mixed signed and unsigned comparison is still transitive. */
  lemma CompareTransitive(a: Name, b: Name, c: Name)
    requires Less(a, b) && Less(b, c)
    ensures Less(a, c)
  {
    CompareTrichotomy(a, b);
    CompareTrichotomy(b, c);
    var d := FirstDifference(a, b, 0);
    var e := FirstDifference(b, c, 0);
    CompareDecides(a, b, d);
    CompareDecides(b, c, e);
    var m := if d < e then d else e;
    assert a[..m] == a[..d][..m] == b[..d][..m] == b[..m];
    assert c[..m] == c[..e][..m] == b[..e][..m] == b[..m];
    if d < e {
      assert b[d] == b[..e][d] == c[..e][d] == c[d];
    } else if e < d {
      assert a[e] == a[..d][e] == b[..d][e] == b[e];
    }
    CompareDecides(a, c, m);
  }

  /** The order is that of a dictionary, in which the first bytes count as signed
      characters and all others as unsigned ones. */
  lemma LessMeans(a: Name, b: Name)
    ensures Less(a, b) <==> exists d: nat :: DiffersAt(a, b, d) && Rank(d, At(a, d)) < Rank(d, At(b, d))
  {
    CompareTrichotomy(a, b);
    if d: nat :| DiffersAt(a, b, d) {
      CompareDecides(a, b, d);
      forall e: nat | DiffersAt(a, b, e) ensures e == d {
        SameBefore(a, b, d);
        SameBefore(a, b, e);
      }
    }
    if Less(a, b) {
      var d := FirstDifference(a, b, 0);
      assert DiffersAt(a, b, d);
    }
  }

  lemma SameBefore(a: Name, b: Name, d: nat)
    requires DiffersAt(a, b, d)
    ensures forall e: nat :: e < d ==> At(a, e) == At(b, e)
  {
    forall e: nat | e < d ensures At(a, e) == At(b, e) {
      assert a[..d][e] == b[..d][e];
    }
  }

  /** The first place at which two strings differ. */
  predicate DiffersAt(a: Name, b: Name, d: nat) {
    d <= |a| && d <= |b| && a[..d] == b[..d] && At(a, d) != At(b, d)
  }
}
