/** The rotor cipher of `ed` (bin/ed/ed.c, `crinit` and `crblock`). */
module EdCrypt {
  import opened CInt

  /** A byte, as `& 0377` leaves it. */
  predicate Byte(x: int) {
    0 <= x < 256
  }

  predicate Bytes(s: seq<int>) {
    forall i :: 0 <= i < |s| ==> Byte(s[i])
  }

  // ------------------------------------------------------------ the tables

  /** The three tables of 256 bytes that `perm` holds one after another. */
  predicate Tables(perm: seq<int>) {
    |perm| == 768 && Bytes(perm)
  }

  function T1(perm: seq<int>, x: int): int
    requires Tables(perm) && Byte(x)
  {
    perm[x]
  }

  function T2(perm: seq<int>, x: int): int
    requires Tables(perm) && Byte(x)
  {
    perm[256 + x]
  }

  function T3(perm: seq<int>, x: int): int
    requires Tables(perm) && Byte(x)
  {
    perm[512 + x]
  }

  /** The first two tables are permutations, inverse to each other, and the third
      one pairs off the bytes. */
  ghost predicate Machine(perm: seq<int>) {
    && Tables(perm)
    && (forall x :: 0 <= x < 256 ==> IsInverse(perm, x))
    && (forall x :: 0 <= x < 256 ==> IsPair(perm, x))
  }

  ghost predicate IsInverse(perm: seq<int>, x: int)
    requires Tables(perm) && Byte(x)
  {
    T2(perm, T1(perm, x)) == x && T1(perm, T2(perm, x)) == x
  }

  ghost predicate IsPair(perm: seq<int>, x: int)
    requires Tables(perm) && Byte(x)
  {
    T3(perm, T3(perm, x)) == x && T3(perm, x) != x
  }

  // ------------------------------------------------------------ the cipher

  /** One byte, with the rotors at `n1` and `n2`. */
  function CryptByte(perm: seq<int>, n1: int, n2: int, c: int): (r: int)
    requires Tables(perm)
    ensures Byte(r)
  {
    Add(T2(perm, Add(T3(perm, Add(T1(perm, Add(c, n1)), n2)), -n2)), -n1)
  }

  /** What encrypting a text that starts at `start` in its file gives. */
  function Crypt(perm: seq<int>, s: seq<int>, start: nat): (r: seq<int>)
    requires Tables(perm)
    ensures |r| == |s| && Bytes(r)
  {
    seq(|s|, i requires 0 <= i < |s| => CryptAt(perm, start + i, s[i]))
  }

  /** One byte, at offset `o` in its file. */
  function CryptAt(perm: seq<int>, o: nat, c: int): (r: int)
    requires Tables(perm)
    ensures Byte(r)
  {
    CryptByte(perm, o % 256, o / 256 % 256, c)
  }

  /** Going round the bytes by `n`. */
  function Add(x: int, n: int): (r: int)
    ensures Byte(r)
  {
    (x + n) % 256
  }

  lemma Shift(x: int, y: int, q: int)
    requires x == y + 256 * q
    ensures x % 256 == y % 256
  {
    var a, b := x / 256, y / 256;
    assert x == 256 * a + x % 256 && y == 256 * b + y % 256;
    assert x % 256 - y % 256 == 256 * (b + q - a);
  }

  /** Going round and back. */
  lemma Round(x: int, n: int)
    requires Byte(x)
    ensures Add(Add(x, n), -n) == x
    ensures Add(Add(x, -n), n) == x
  {
    var y, z := x + n, x - n;
    Shift(y % 256 - n, x, -(y / 256));
    Shift(z % 256 + n, x, -(z / 256));
  }

  /** The machine undoes what it has done. */
  lemma CryptByteTwice(perm: seq<int>, n1: int, n2: int, c: int)
    requires Machine(perm) && Byte(c)
    ensures CryptByte(perm, n1, n2, CryptByte(perm, n1, n2, c)) == c
  {
    var u := Add(c, n1);
    var v := T1(perm, u);
    var w := Add(v, n2);
    var z := T3(perm, w);
    var y := Add(z, -n2);
    var r := T2(perm, y);
    Round(r, n1);
    Round(z, n2);
    Round(v, n2);
    Round(c, n1);
    assert IsInverse(perm, y) && IsPair(perm, w) && IsInverse(perm, u);
    var e := Add(r, -n1);
    assert Add(e, n1) == r && T1(perm, r) == y && Add(y, n2) == z && T3(perm, z) == w;
    assert Add(w, -n2) == v && T2(perm, v) == u && Add(u, -n1) == c;
  }

  /** Encrypting twice at the same place gives the text back. */
  lemma CryptTwice(perm: seq<int>, s: seq<int>, start: nat)
    requires Machine(perm) && Bytes(s)
    ensures Crypt(perm, Crypt(perm, s, start), start) == s
  {
    var r := Crypt(perm, s, start);
    forall i | 0 <= i < |s| ensures CryptAt(perm, start + i, r[i]) == s[i] {
      CryptEach(perm, s, start, i);
      assert Byte(s[i]);
      CryptAtTwice(perm, start + i, s[i]);
    }
    SameText(perm, r, start, s);
  }

  lemma CryptEach(perm: seq<int>, s: seq<int>, start: nat, i: nat)
    requires Tables(perm) && i < |s|
    ensures Crypt(perm, s, start)[i] == CryptAt(perm, start + i, s[i])
  {
  }

  lemma SameText(perm: seq<int>, r: seq<int>, start: nat, s: seq<int>)
    requires Tables(perm) && |r| == |s| && forall i :: 0 <= i < |s| ==> CryptAt(perm, start + i, r[i]) == s[i]
    ensures Crypt(perm, r, start) == s
  {
  }

  lemma CryptAtTwice(perm: seq<int>, o: nat, c: int)
    requires Machine(perm) == true && Byte(c)
    ensures CryptAt(perm, o, CryptAt(perm, o, c)) == c
  {
    CryptByteTwice(perm, o % 256, o / 256 % 256, c);
  }

  /** Encrypting piece by piece, each piece at its own place, gives the same as
      encrypting all at once. */
  lemma CryptPieces(perm: seq<int>, a: seq<int>, b: seq<int>, start: nat)
    requires Tables(perm)
    ensures Crypt(perm, a + b, start) == Crypt(perm, a, start) + Crypt(perm, b, start + |a|)
  {
  }

  /** No two texts are encrypted alike. */
  lemma CryptInjective(perm: seq<int>, s: seq<int>, t: seq<int>, start: nat)
    requires Machine(perm) && Bytes(s) && Bytes(t)
    ensures Crypt(perm, s, start) == Crypt(perm, t, start) <==> s == t
  {
    CryptTwice(perm, s, start);
    CryptTwice(perm, t, start);
  }

  /** What a byte and its code have in common: the third table exchanges what the first
      one makes of them, each rotor turned to its place. */
  lemma CryptMeans(perm: seq<int>, o: nat, c: int)
    requires Machine(perm) && Byte(c)
    ensures var n1, n2 := o % 256, o / 256 % 256; var r := CryptAt(perm, o, c);
            && T3(perm, (T1(perm, (c + n1) % 256) + n2) % 256) == (T1(perm, (r + n1) % 256) + n2) % 256
            && T3(perm, (T1(perm, (r + n1) % 256) + n2) % 256) == (T1(perm, (c + n1) % 256) + n2) % 256
  {
    CodeMeans(perm, o % 256, o / 256 % 256, c);
  }

  lemma CodeMeans(perm: seq<int>, n1: int, n2: int, c: int)
    requires Machine(perm)
    ensures var r := CryptByte(perm, n1, n2, c); var x, y := Add(T1(perm, Add(c, n1)), n2), Add(T1(perm, Add(r, n1)), n2);
      T3(perm, x) == y && T3(perm, y) == x
  {
    hide Add;
    var x := Add(T1(perm, Add(c, n1)), n2);
    var z := T3(perm, x);
    var y := Add(z, -n2);
    Round(T2(perm, y), n1);
    Round(z, n2);
    assert IsInverse(perm, y) && IsPair(perm, x);
  }

  /** No byte is ever encrypted as itself. */
  lemma NeverItself(perm: seq<int>, n1: int, n2: int, c: int)
    requires Machine(perm) && Byte(c)
    ensures CryptByte(perm, n1, n2, c) != c
  {
    var u := Add(c, n1);
    var v := T1(perm, u);
    var w := Add(v, n2);
    var z := T3(perm, w);
    var y := Add(z, -n2);
    var r := T2(perm, y);
    Round(r, n1);
    Round(z, n2);
    assert IsInverse(perm, y) && IsPair(perm, w);
    assert Add(r, -n1) == c ==> r == u;
    assert T1(perm, r) == y && (y == v ==> z == w);
  }

  /** `crblock(permp, buf, nchar, startn)` */
  method Crblock(permp: array<int>, buf: array<int>, nchar: nat, startn: nat)
    requires Tables(permp[..]) && nchar <= buf.Length && buf != permp
    modifies buf
    ensures buf[..nchar] == Crypt(permp[..], old(buf[..nchar]), startn)
    ensures buf[nchar..] == old(buf[nchar..])
  {
    var n1, n2 := startn % 256, startn / 256 % 256;
    ghost var perm := permp[..];
    for i := 0 to nchar
      invariant n1 == (startn + i) % 256 && n2 == (startn + i) / 256 % 256
      invariant forall j :: 0 <= j < i ==> buf[j] == CryptAt(perm, startn + j, old(buf[j]))
      invariant forall j :: i <= j < buf.Length ==> buf[j] == old(buf[j])
    {
      buf[i] := CryptOne(permp, n1, n2, buf[i]);
      n1 := n1 + 1;
      Turn(startn + i);
      if n1 == 256 {
        n1 := 0;
        n2 := n2 + 1;
        if n2 == 256 {
          n2 := 0;
        }
      }
    }
  }

  /** One byte of `crblock`. */
  method CryptOne(permp: array<int>, n1: int, n2: int, c: int) returns (r: int)
    requires Tables(permp[..])
    ensures r == CryptByte(permp[..], n1, n2, c)
  {
    ghost var perm := permp[..];
    var a := permp[(c + n1) % 256];
    assert a == T1(perm, Add(c, n1));
    var b := permp[512 + (a + n2) % 256];
    assert b == T3(perm, Add(a, n2));
    r := (permp[256 + (b - n2) % 256] - n1) % 256;
  }

  /** How the two rotors move on. */
  lemma Turn(x: nat)
    ensures (x + 1) % 256 == if x % 256 == 255 then 0 else x % 256 + 1
    ensures (x + 1) / 256 % 256 == if x % 256 < 255 then x / 256 % 256 else if x / 256 % 256 == 255 then 0 else x / 256 % 256 + 1
  {
    var q := x / 256;
    assert (x + 1) / 256 == if x % 256 == 255 then q + 1 else q;
  }

  // --------------------------------------------------- building the tables

  /** `(unsigned)(seed % 65521)`: C's remainder has the sign of the seed. */
  function Random(seed: int): (r: nat) {
    if seed >= 0 then seed % 65521
    else if -seed % 65521 == 0 then 0 else 0x1_0000_0000 - -seed % 65521
  }

  /** Read as a signed number it is the remainder: smaller than the divisor, with the sign
      of the seed, and a multiple of the divisor away from it. */
  lemma RandomMeans(seed: int)
    ensures var d := Int32(Random(seed));
      && -65521 < d < 65521 && (seed - d) % 65521 == 0 && Random(seed) == d % 0x1_0000_0000
      && (d == 0 || (d > 0 <==> seed > 0))
  {
    if seed < 0 && -seed % 65521 != 0 {
      var q := -seed / 65521;
      assert seed - Int32(Random(seed)) == -q * 65521;
    } else {
      var q := seed / 65521;
      assert seed - Int32(Random(seed)) == q * 65521;
    }
  }

  /** The seed that the 13 bytes of the mangled key give. */
  function Seed(buf: seq<int>): int {
    if buf == [] then 123
    else
      var n := |buf| - 1;
      Int32(Seed(buf[..n]) * buf[n] + n)
  }

  /** The seed after `i` more steps. */
  function SeedAt(buf: seq<int>, i: nat): int
    requires |buf| == 13
  {
    if i == 0 then Seed(buf) else Int32(5 * SeedAt(buf, i - 1) + buf[(i - 1) % 13])
  }

  /** All numbers from `j` on multiplied. */
  function Product(buf: seq<int>, j: nat): int
    requires j <= |buf|
    decreases |buf| - j
  {
    if j == |buf| then 1 else buf[j] * Product(buf, j + 1)
  }

  /** The sum of each place from `j` on, times all numbers behind it. */
  function Places(buf: seq<int>, j: nat): int
    requires j <= |buf|
    decreases |buf| - j
  {
    if j == |buf| then 0 else j * Product(buf, j + 1) + Places(buf, j + 1)
  }

  function Power5(n: nat): nat {
    if n == 0 then 1 else 5 * Power5(n - 1)
  }

  /** The sum of the bytes used in the steps from `j` up to `i`, times 5 for each later step. */
  function Weighted(buf: seq<int>, j: nat, i: nat): int
    requires |buf| == 13 && j <= i
    decreases i - j
  {
    if j == i then 0 else Power5(i - 1 - j) * buf[j % 13] + Weighted(buf, j + 1, i)
  }

  /** Wrapping once at the end is enough: the seeds as polynomials in the bytes. */
  lemma {:induction false} SeedMeans(buf: seq<int>)
    ensures Seed(buf) == Int32(123 * Product(buf, 0) + Places(buf, 0))
    decreases |buf|
  {
    hide Int32, Product, Places;
    if buf == [] {
      SeedNone();
    } else {
      var n := |buf| - 1;
      var a, b := buf[..n], buf[n];
      SeedMeans(a);
      assert a + [b] == buf;
      ProductSnoc(a, b, 0);
      PlacesSnoc(a, b, 0);
      WrapTimes(123 * Product(a, 0) + Places(a, 0), b, n);
      Distribute(123, Product(a, 0), b, Places(a, 0));
    }
  }

  lemma {:induction false} SeedAtMeans(buf: seq<int>, i: nat)
    requires |buf| == 13
    ensures SeedAt(buf, i) == Int32(Power5(i) * Seed(buf) + Weighted(buf, 0, i))
  {
    hide Int32, Seed, Weighted, Power5;
    if i == 0 {
      SeedAtNone(buf);
    } else {
      var p, s, w, b := Power5(i - 1), Seed(buf), Weighted(buf, 0, i - 1), buf[(i - 1) % 13];
      SeedAtMeans(buf, i - 1);
      WeightedNext(buf, 0, i - 1);
      WrapTimes(p * s + w, 5, b);
      FiveTimes(p, s, w);
      PowerNext(i);
    }
  }

  lemma SeedNone()
    ensures Seed([]) == Int32(123 * Product([], 0) + Places([], 0))
  {
  }

  lemma SeedAtNone(buf: seq<int>)
    requires |buf| == 13
    ensures SeedAt(buf, 0) == Int32(Power5(0) * Seed(buf) + Weighted(buf, 0, 0))
  {
  }

  lemma Distribute(j: int, p: int, x: int, rest: int)
    ensures j * (p * x) + rest * x == (j * p + rest) * x
  {
  }

  lemma FiveTimes(p: int, s: int, w: int)
    ensures (p * s + w) * 5 == 5 * p * s + 5 * w
  {
  }

  lemma PowerNone()
    ensures Power5(0) == 1
  {
  }

  lemma PowerNext(i: nat)
    requires i > 0
    ensures Power5(i) == 5 * Power5(i - 1)
  {
  }

  lemma WrapTimes(x: int, a: int, b: int)
    ensures Int32(Int32(x) * a + b) == Int32(x * a + b)
  {
    Int32Wraps(x, Int32(x));
    var q := (Int32(x) - x) / 0x1_0000_0000;
    assert Int32(x) * a + b == x * a + b + 0x1_0000_0000 * (q * a);
    var y, r := Int32(x) * a + b, Int32(Int32(x) * a + b);
    Int32Wraps(y, r);
    Int32Wraps(x * a + b, r);
    var p := (r - y) / 0x1_0000_0000;
    assert r - (x * a + b) == 0x1_0000_0000 * (p + q * a);
  }

  lemma {:induction false} ProductSnoc(buf: seq<int>, x: int, j: nat)
    requires j <= |buf|
    ensures Product(buf + [x], j) == Product(buf, j) * x
    decreases |buf| - j
  {
    if j < |buf| {
      ProductSnoc(buf, x, j + 1);
    } else {
      assert Product(buf + [x], j + 1) == 1;
    }
  }

  lemma ProductEnd(buf: seq<int>)
    ensures Product(buf, |buf|) == 1
  {
  }

  lemma {:induction false} PlacesSnoc(buf: seq<int>, x: int, j: nat)
    requires j <= |buf|
    ensures Places(buf + [x], j) == Places(buf, j) * x + |buf|
    decreases |buf| - j
  {
    hide Product;
    if j < |buf| {
      PlacesSnoc(buf, x, j + 1);
      ProductSnoc(buf, x, j + 1);
      Distribute(j, Product(buf, j + 1), x, Places(buf, j + 1));
    } else {
      ProductEnd(buf + [x]);
    }
  }

  lemma {:induction false} WeightedNext(buf: seq<int>, j: nat, i: nat)
    requires |buf| == 13 && j <= i
    ensures Weighted(buf, j, i + 1) == 5 * Weighted(buf, j, i) + buf[i % 13]
    decreases i - j
  {
    hide Power5;
    if j < i {
      WeightedNext(buf, j + 1, i);
      PowerNext(i - j);
      FiveTimes(Power5(i - 1 - j), buf[j % 13], Weighted(buf, j + 1, i));
    } else {
      PowerNone();
    }
  }

  /** The first table after `i` steps: the identity, with the entries from the top
      down swapped with ones below that the seeds name. */
  function First(buf: seq<int>, i: nat): (t: seq<int>)
    requires |buf| == 13 && i <= 256
    ensures |t| == 256
  {
    if i == 0 then seq(256, x => x)
    else
      var t, k := First(buf, i - 1), 256 - i;
      var ic := Random(SeedAt(buf, i)) % 256 % (k + 1);
      t[k := t[ic]][ic := t[k]]
  }

  /** The third table after `i` steps: bytes from the top down get as partners the first
      bytes without one, going round from those that the seeds name. */
  function Third(buf: seq<int>, i: nat): (t: seq<int>)
    requires |buf| == 13 && i <= 256
    ensures |t| == 256
  {
    if i == 0 then seq(256, x => 0)
    else
      var t, k := Third(buf, i - 1), 256 - i;
      if k == 0 || t[k] != 0 then t
      else
        var ic := Probed(t, Random(SeedAt(buf, i)) / 256 % 256 % k, k, k);
        t[k := ic][ic := k]
  }

  /** The first zero within `n` steps, going round below `k`. */
  function Probed(t: seq<int>, ic: nat, k: nat, n: nat): (r: nat)
    requires ic < k <= |t|
    ensures r < k
    decreases n
  {
    if n == 0 || t[ic] == 0 then ic else Probed(t, (ic + 1) % k, k, n - 1)
  }

  /** Each step swaps two entries of the first table: the one counted down to, and one
      that is not above it. */
  lemma FirstMeans(buf: seq<int>, i: nat, x: nat)
    requires |buf| == 13 && 1 <= i <= 256 && x < 256
    ensures var ic := Random(SeedAt(buf, i)) % 256 % (257 - i);
            && ic <= 256 - i
            && First(buf, i)[x] == First(buf, i - 1)[if x == 256 - i then ic else if x == ic then 256 - i else x]
  {
  }

  /** `m` steps on, going round below `k`. */
  function Onward(ic: nat, k: nat, m: nat): (r: nat)
    requires ic < k
    ensures r < k
    decreases m
  {
    if m == 0 then ic else Onward(if ic + 1 == k then 0 else ic + 1, k, m - 1)
  }

  /** The partner found had none before, and all that were passed on the way to it had one. */
  lemma {:induction false} ProbedMeans(t: seq<int>, ic: nat, k: nat, n: nat, m: nat)
    requires ic < k <= |t| && m < n && t[Onward(ic, k, m)] == 0 && forall j: nat :: j < m ==> t[Onward(ic, k, j)] != 0
    ensures Probed(t, ic, k, n) == Onward(ic, k, m)
    decreases n
  {
    if m > 0 {
      assert t[Onward(ic, k, 0)] != 0;
      Next(ic, k);
      var ic' := (ic + 1) % k;
      forall j: nat | j < m - 1 ensures t[Onward(ic', k, j)] != 0 {
        assert t[Onward(ic, k, j + 1)] != 0;
      }
      ProbedMeans(t, ic', k, n - 1, m - 1);
    }
  }

  /** `inv` is the inverse of the first table. */
  ghost predicate Inverse(perm: seq<int>, inv: seq<int>) {
    && Tables(perm) && |inv| == 256 && Bytes(inv)
    && forall x :: 0 <= x < 256 ==> IsIndex(perm, inv, x)
  }

  ghost predicate IsIndex(perm: seq<int>, inv: seq<int>, x: int)
    requires Tables(perm) && |inv| == 256 && Bytes(inv) && Byte(x)
  {
    inv[T1(perm, x)] == x && T1(perm, inv[x]) == x
  }

  /** How many of the first `n` bytes have no partner yet. */
  ghost function Single(perm: seq<int>, n: nat): nat
    requires Tables(perm) && n <= 256
  {
    if n == 0 then 0 else Single(perm, n - 1) + if T3(perm, n - 1) == 0 then 1 else 0
  }

  /** The bytes from `m` on have been paired off, with each other or with bytes
      below `m`; an even number of bytes below `m` is left over. */
  ghost predicate Paired(perm: seq<int>, m: nat) {
    && Tables(perm) && m <= 256 && Single(perm, m) % 2 == 0
    && (forall x :: m <= x < 256 ==> IsPair(perm, x))
    && (forall x :: 0 <= x < m && T3(perm, x) != 0 ==> m <= T3(perm, x) && IsPair(perm, x))
  }

  lemma {:induction false} SingleSame(perm: seq<int>, perm': seq<int>, n: nat)
    requires Tables(perm) && Tables(perm') && n <= 256
    requires forall x :: 0 <= x < n ==> (T3(perm, x) == 0 <==> T3(perm', x) == 0)
    ensures Single(perm', n) == Single(perm, n)
  {
    if n > 0 {
      SingleSame(perm, perm', n - 1);
    }
  }

  /** One byte has found a partner. */
  lemma {:induction false} SingleLess(perm: seq<int>, perm': seq<int>, n: nat, ic: nat)
    requires Tables(perm) && Tables(perm') && ic < n <= 256
    requires T3(perm, ic) == 0 && T3(perm', ic) != 0
    requires forall x :: 0 <= x < n && x != ic ==> (T3(perm, x) == 0 <==> T3(perm', x) == 0)
    ensures Single(perm', n) == Single(perm, n) - 1
  {
    if ic == n - 1 {
      SingleSame(perm, perm', n - 1);
    } else {
      SingleLess(perm, perm', n - 1, ic);
    }
  }

  /** If bytes are left over, here is one of them. */
  lemma {:induction false} SingleFound(perm: seq<int>, n: nat) returns (x: nat)
    requires Tables(perm) && n <= 256 && Single(perm, n) > 0
    ensures x < n && T3(perm, x) == 0
  {
    if T3(perm, n - 1) == 0 {
      x := n - 1;
    } else {
      x := SingleFound(perm, n - 1);
    }
  }

  lemma {:induction false} SingleAll(perm: seq<int>, n: nat)
    requires Tables(perm) && n <= 256 && forall x :: 0 <= x < n ==> T3(perm, x) == 0
    ensures Single(perm, n) == n
  {
    if n > 0 {
      SingleAll(perm, n - 1);
    }
  }

  /** The tables agree on the third one. */
  ghost predicate SamePairs(perm: seq<int>, perm': seq<int>) {
    Tables(perm) && Tables(perm') && forall x :: 0 <= x < 256 ==> T3(perm', x) == T3(perm, x)
  }

  lemma PairedSame(perm: seq<int>, perm': seq<int>, m: nat)
    requires Paired(perm, m) && SamePairs(perm, perm')
    ensures Paired(perm', m)
  {
    SingleSame(perm, perm', m);
    forall x | 0 <= x < 256 ensures IsPair(perm', x) <==> IsPair(perm, x) {
    }
  }

  lemma PairedSkip(perm: seq<int>, k: nat)
    requires k < 256 && Paired(perm, k + 1) && T3(perm, k) != 0
    ensures Paired(perm, k)
  {
  }

  /** A byte without a partner is never the last one. */
  lemma PairedMore(perm: seq<int>, k: nat) returns (x: nat)
    requires k < 256 && Paired(perm, k + 1) && T3(perm, k) == 0
    ensures x < k && T3(perm, x) == 0
  {
    x := SingleFound(perm, k);
  }

  lemma PairedOff(perm: seq<int>, k: nat, ic: nat, perm': seq<int>)
    requires ic < k < 256 && Paired(perm, k + 1) && T3(perm, k) == 0 && T3(perm, ic) == 0
    requires perm' == perm[512 + k := ic][512 + ic := k]
    ensures Paired(perm', k)
  {
    assert T3(perm', k) == ic && T3(perm', ic) == k;
    assert forall x :: 0 <= x < 256 && x != k && x != ic ==> T3(perm', x) == T3(perm, x);
    SingleLess(perm, perm', k, ic);
    forall x | 0 <= x < 256 && T3(perm, x) != 0 && IsPair(perm, x) ensures IsPair(perm', x) {
      assert T3(perm, x) != k && T3(perm, x) != ic;
    }
    assert IsPair(perm', k) && IsPair(perm', ic);
    forall x | k <= x < 256 ensures IsPair(perm', x) {
      if x > k {
        assert IsPair(perm, x);
        assert T3(perm, x) == 0 ==> T3(perm, 0) == x;
      }
    }
  }

  lemma SwapEntries(perm: seq<int>, k: nat, ic: nat, perm': seq<int>)
    requires Tables(perm) && ic <= k < 256 && perm' == perm[k := perm[ic]][ic := perm[k]]
    ensures SamePairs(perm, perm')
    ensures forall x :: 0 <= x < 256 ==> T1(perm', x) == T1(perm, if x == ic then k else if x == k then ic else x)
  {
  }

  lemma Swapped(perm: seq<int>, inv: seq<int>, k: nat, ic: nat, perm': seq<int>) returns (inv': seq<int>)
    requires Inverse(perm, inv) && ic <= k < 256 && Tables(perm')
    requires forall x :: 0 <= x < 256 ==> T1(perm', x) == T1(perm, if x == ic then k else if x == k then ic else x)
    ensures Inverse(perm', inv') == true
  {
    var a, b := T1(perm, k), T1(perm, ic);
    assert IsIndex(perm, inv, k) && IsIndex(perm, inv, ic);
    inv' := inv[a := ic][b := k];
    assert Bytes(inv');
    hide T1, Tables, Bytes;
    forall x | 0 <= x < 256 ensures IsIndex(perm', inv', x) {
      assert IsIndex(perm, inv, x);
    }
  }

  /** The part of `crinit` after the key has been mangled: if the key is not
      empty, the tables become a machine, whatever the bytes of the key are. */
  method Crinit(empty: bool, buf: seq<int>, permp: array<int>) returns (r: bool)
    requires |buf| == 13 && Tables(permp[..])
    modifies permp
    ensures r <==> !empty
    ensures r ==> Machine(permp[..]) && permp[..256] == First(buf, 256) && permp[512..] == Third(buf, 256)
    ensures !r ==> permp[..] == old(permp[..])
  {
    hide First, Third, SeedAt, Random, Inverse, Paired, Machine, Probed, Int32;
    if empty {
      return false;
    }
    var seed := 123;
    for i := 0 to 13
      invariant seed == Seed(buf[..i])
    {
      assert buf[..i + 1][..i] == buf[..i];
      seed := Int32(seed * buf[i] + i);
    }
    assert buf[..13] == buf;
    ghost var inv := Start(permp);
    FirstTables(buf);
    for i := 0 to 256
      invariant Inverse(permp[..], inv) == true && Paired(permp[..], 256 - i) == true
      invariant permp.Length == 768 && seed == SeedAt(buf, i) && permp[..256] == First(buf, i) && permp[512..] == Third(buf, i)
    {
      NextTables(buf, i);
      seed := Int32(5 * seed + buf[i % 13]);
      var random := Random(seed);
      var k := 255 - i;
      inv := Swap(permp, inv, k, random);
      Pair(permp, inv, k, random / 256);
    }
    Invert(permp, inv);
    r := true;
  }

  lemma FirstTables(buf: seq<int>)
    requires |buf| == 13
    ensures SeedAt(buf, 0) == Seed(buf) && First(buf, 0) == seq(256, x => x) && Third(buf, 0) == seq(256, x => 0)
  {
  }

  lemma NextTables(buf: seq<int>, i: nat)
    requires |buf| == 13 && i < 256
    ensures SeedAt(buf, i + 1) == Int32(5 * SeedAt(buf, i) + buf[i % 13])
    ensures var t, k := First(buf, i), 255 - i; var ic := Random(SeedAt(buf, i + 1)) % 256 % (k + 1);
            First(buf, i + 1) == t[k := t[ic]][ic := t[k]]
    ensures var t, k := Third(buf, i), 255 - i;
            Third(buf, i + 1) == if k == 0 || t[k] != 0 then t
                                 else var ic := Probed(t, Random(SeedAt(buf, i + 1)) / 256 % 256 % k, k, k); t[k := ic][ic := k]
  {
    hide Random, Probed, Int32;
  }

  /** `t1[i] = i; t3[i] = 0` */
  method Start(permp: array<int>) returns (ghost inv: seq<int>)
    requires Tables(permp[..])
    modifies permp
    ensures Inverse(permp[..], inv) == true && Paired(permp[..], 256) == true && permp.Length == 768
    ensures permp[..256] == seq(256, x => x) && permp[512..] == seq(256, x => 0)
  {
    inv := seq(256, x => x);
    for i := 0 to 256
      invariant permp.Length == 768 && Bytes(permp[..])
      invariant forall j :: 0 <= j < i ==> permp[j] == j
      invariant forall j :: 512 <= j < 512 + i ==> permp[j] == 0
    {
      permp[i], permp[512 + i] := i, 0;
    }
    Started(permp[..], inv);
  }

  lemma Started(perm: seq<int>, inv: seq<int>)
    requires Tables(perm) && inv == seq(256, x => x)
    requires forall j :: 0 <= j < 256 ==> perm[j] == j
    requires forall j :: 512 <= j < 768 ==> perm[j] == 0
    ensures Inverse(perm, inv) == true && Paired(perm, 256) == true
  {
    assert forall x :: 0 <= x < 256 ==> T1(perm, x) == x && T3(perm, x) == 0;
    SingleAll(perm, 256);
    forall x | 0 <= x < 256 ensures IsIndex(perm, inv, x) {
    }
  }

  /** Swap two entries of the first table. */
  method Swap(permp: array<int>, ghost inv: seq<int>, k: nat, random: nat) returns (ghost inv': seq<int>)
    requires Inverse(permp[..], inv) == true && Paired(permp[..], k + 1) == true && k < 256 && permp.Length == 768
    modifies permp
    ensures Inverse(permp[..], inv') == true && Paired(permp[..], k + 1) == true && permp.Length == 768
    ensures permp[512..] == old(permp[512..])
    ensures var t, ic := old(permp[..256]), random % 256 % (k + 1); permp[..256] == t[k := t[ic]][ic := t[k]]
  {
    ghost var perm := permp[..];
    var ic := random % 256 % (k + 1);
    var temp := permp[k];
    permp[k] := permp[ic];
    permp[ic] := temp;
    assert permp[..] == perm[k := perm[ic]][ic := perm[k]];
    SwapEntries(perm, k, ic, permp[..]);
    inv' := Swapped(perm, inv, k, ic, permp[..]);
    PairedSame(perm, permp[..], k + 1);
  }

  /** Find a partner for `k`, unless it has one. */
  method Pair(permp: array<int>, ghost inv: seq<int>, k: nat, random: nat)
    requires Inverse(permp[..], inv) == true && k < 256 && Paired(permp[..], k + 1) == true && permp.Length == 768
    modifies permp
    ensures Inverse(permp[..], inv) == true && Paired(permp[..], k) == true && permp.Length == 768
    ensures permp[..256] == old(permp[..256])
    ensures var t := old(permp[512..]);
            permp[512..] == if k == 0 || t[k] != 0 then t
                            else var ic := Probed(t, random % 256 % k, k, k); t[k := ic][ic := k]
  {
    ghost var perm := permp[..];
    assert permp[512 + k] == T3(perm, k);
    if permp[512 + k] != 0 {
      PairedSkip(perm, k);
      return;
    }
    ghost var x := PairedMore(perm, k);
    var ic := Probe(permp, k, random, x);
    permp[512 + k] := ic;
    permp[512 + ic] := k;
    assert permp[..] == perm[512 + k := ic][512 + ic := k];
    PairedOff(perm, k, ic, permp[..]);
    SameIndex(perm, permp[..], inv);
  }

  /** The probe for a byte without a partner; `x` is one. */
  method Probe(permp: array<int>, k: nat, random: nat, ghost x: nat) returns (ic: nat)
    requires permp.Length == 768 && x < k < 256 && permp[512 + x] == 0
    ensures ic < k && permp[512 + ic] == 0 && ic == Probed(permp[512..], random % 256 % k, k, k)
  {
    ic := random % 256 % k;
    hide Probed;
    ghost var t, n: nat, start := permp[512..], k, ic;
    while permp[512 + ic] != 0
      invariant 0 <= ic < k && Probed(t, start, k, k) == Probed(t, ic, k, n)
      invariant n > if ic <= x then x - ic else x - ic + k
      decreases if ic <= x then x - ic else x - ic + k
    {
      assert t[ic] == permp[512 + ic];
      ProbedNext(t, ic, k, n);
      Next(ic, k);
      ic := (ic + 1) % k;
      n := n - 1;
    }
    ProbedHere(t, ic, k, n);
    assert t[ic] == permp[512 + ic];
  }

  lemma ProbedNext(t: seq<int>, ic: nat, k: nat, n: nat)
    requires ic < k <= |t| && n > 0 && t[ic] != 0
    ensures Probed(t, ic, k, n) == Probed(t, (ic + 1) % k, k, n - 1)
  {
  }

  lemma ProbedHere(t: seq<int>, ic: nat, k: nat, n: nat)
    requires ic < k <= |t| && t[ic] == 0
    ensures Probed(t, ic, k, n) == ic
  {
  }

  lemma Next(ic: nat, k: nat)
    requires ic < k
    ensures (ic + 1) % k == if ic + 1 == k then 0 else ic + 1
  {
  }

  lemma SameIndex(perm: seq<int>, perm': seq<int>, inv: seq<int>)
    requires Inverse(perm, inv) && Tables(perm') && forall x :: 0 <= x < 256 ==> T1(perm', x) == T1(perm, x)
    ensures Inverse(perm', inv) == true
  {
    forall x | 0 <= x < 256 ensures IsIndex(perm', inv, x) {
      assert IsIndex(perm, inv, x);
    }
  }

  /** `t2[t1[i]] = i` */
  method Invert(permp: array<int>, ghost inv: seq<int>)
    requires permp.Length == 768 && Inverse(permp[..], inv) && Paired(permp[..], 0)
    modifies permp
    ensures Machine(permp[..]) == true && permp[..256] == old(permp[..256]) && permp[512..] == old(permp[512..])
  {
    ghost var perm := permp[..];
    for i := 0 to 256
      invariant permp.Length == 768 && permp[..256] == perm[..256] && permp[512..] == perm[512..]
      invariant permp.Length == 768 && Filling(perm, permp[..], i) == true
    {
      ghost var was := permp[..];
      assert T1(was, i) == permp[i];
      permp[256 + permp[i]] := i;
      assert permp[..] == was[256 + T1(was, i) := i];
      Fill(perm, inv, was, i);
    }
    Inverted(perm, inv, permp[..]);
  }

  /** The first `i` entries of the first table have been entered in the second. */
  ghost predicate Filling(perm: seq<int>, perm': seq<int>, i: nat) {
    && Tables(perm) && SamePairs(perm, perm') && i <= 256
    && (forall x :: 0 <= x < 256 ==> T1(perm', x) == T1(perm, x))
    && (forall j :: 0 <= j < i ==> T2(perm', T1(perm, j)) == j)
  }

  lemma Fill(perm: seq<int>, inv: seq<int>, perm': seq<int>, i: nat)
    requires Inverse(perm, inv) && Filling(perm, perm', i) && i < 256
    ensures Filling(perm, perm'[256 + T1(perm', i) := i], i + 1) == true
  {
    var p := perm'[256 + T1(perm', i) := i];
    assert IsIndex(perm, inv, i);
    forall j | 0 <= j < i ensures T1(perm, j) != T1(perm, i) {
      assert IsIndex(perm, inv, j);
    }
    assert forall x :: 0 <= x < 256 ==> T1(p, x) == T1(perm', x) && T3(p, x) == T3(perm', x);
    assert forall x :: 0 <= x < 256 ==> T2(p, x) == if x == T1(perm, i) then i else T2(perm', x);
  }

  lemma Inverted(perm: seq<int>, inv: seq<int>, perm': seq<int>)
    requires Inverse(perm, inv) && Paired(perm, 0) && Filling(perm, perm', 256)
    ensures Machine(perm') == true
  {
    forall x | 0 <= x < 256 ensures IsInverse(perm', x) {
      assert IsIndex(perm, inv, x);
      assert T2(perm', T1(perm, inv[x])) == inv[x];
    }
    forall x | 0 <= x < 256 ensures IsPair(perm', x) {
      assert IsPair(perm, x);
    }
  }
}
