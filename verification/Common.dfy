module Wrappers {
  datatype Option<T> = None | Some(value: T)
}

/** C's `int`. */
module CInt {

  /** What a 32-bit two's complement word makes of a number. */
  function Int32(x: int): (r: int)
    ensures IsInt32(r)
  {
    (x + 0x8000_0000) % 0x1_0000_0000 - 0x8000_0000
  }

  /** It is the only 32-bit number that differs from it by a multiple of 2^32. */
  lemma Int32Wraps(x: int, r: int)
    ensures r == Int32(x) <==> IsInt32(r) && (r - x) % 0x1_0000_0000 == 0
  {
    var m := (x + 0x8000_0000) / 0x1_0000_0000;
    if IsInt32(r) && (r - x) % 0x1_0000_0000 == 0 {
      var n := (r - x) / 0x1_0000_0000;
      assert x + 0x8000_0000 == r + 0x8000_0000 - n * 0x1_0000_0000;
    }
  }

  predicate IsInt32(x: int) {
    -0x8000_0000 <= x < 0x8000_0000
  }
}

/** Texts within longer texts. */
module Within {

  /** `a` is in `s` at `i`. */
  ghost predicate Here<T>(s: seq<T>, i: nat, a: seq<T>) {
    i + |a| <= |s| && forall k {:trigger a[k]} :: 0 <= k < |a| ==> s[i + k] == a[k]
  }

  lemma HereHalves<T>(s: seq<T>, i: nat, a: seq<T>, b: seq<T>)
    requires Here(s, i, a + b)
    ensures Here(s, i, a) && Here(s, i + |a|, b)
  {
    var c := a + b;
    forall k | 0 <= k < |a| ensures s[i + k] == a[k] {
      assert c[k] == a[k];
    }
    forall k | 0 <= k < |b| ensures s[i + |a| + k] == b[k] {
      assert c[|a| + k] == b[k];
    }
  }

  lemma HereThree<T>(s: seq<T>, i: nat, a: seq<T>, b: seq<T>, c: seq<T>)
    requires Here(s, i, a + b + c)
    ensures Here(s, i, a) && Here(s, i + |a|, b) && Here(s, i + |a| + |b|, c)
  {
    HereHalves(s, i, a + b, c);
    HereHalves(s, i, a, b);
  }
}
