/** The csh storage allocator (bin/csh/alloc.c): power-of-two buckets with a
    four-byte header before each block. */
module CshMalloc {

  const NBUCKETS := 30
  const MAGIC := 0xef
  const OVERHEAD := 4
  const TWO32 := 0x1_0000_0000

  function Pow2(n: nat): (p: nat)
    ensures p >= 1
  {
    if n == 0 then 1 else 2 * Pow2(n - 1)
  }

  /** `1 << (b + 3)` */
  function Size(b: nat): nat {
    Pow2(b + 3)
  }

  /** How much memory a block of bucket `b` really has. */
  function Extent(b: nat, pagebucket: nat): nat {
    if b < pagebucket then Size(b) else Size(b) + Size(pagebucket)
  }

  /** How many bytes of it the caller may use. */
  function Capacity(b: nat, pagebucket: nat): int {
    Extent(b, pagebucket) - OVERHEAD
  }

  lemma {:induction false} Pow2Monotone(a: nat, b: nat)
    requires a <= b
    ensures Pow2(a) <= Pow2(b)
    ensures a < b ==> 2 * Pow2(a) <= Pow2(b)
    decreases b
  {
    if a < b {
      Pow2Monotone(a, b - 1);
    }
  }

  lemma SizeFacts(b: nat)
    ensures Size(b) >= 8 && Size(b) % 4 == 0 && Size(b + 1) == 2 * Size(b)
  {
    Pow2Monotone(3, b + 3);
    Pow2Multiple(b);
  }

  lemma Pow2Multiple(b: nat)
    ensures Pow2(b + 3) % 4 == 0
  {
    assert Pow2(b + 3) == 2 * Pow2(b + 2) == 4 * Pow2(b + 1);
    FourTimes(Pow2(b + 1));
  }

  lemma FourTimes(x: int)
    ensures 4 * x % 4 == 0
  {
  }

  lemma Size28()
    ensures Size(27) == 0x4000_0000 && Size(28) == 0x8000_0000
  {
    var p := [1, 2, 4, 8, 16, 32];
    Pow2Sum(16, 8);
    Pow2Sum(8, 8);
    Pow2Sum(24, 6);
    Pow2Sum(4, 4);
    Pow2Sum(2, 2);
    assert Pow2(2) == 4;
    assert Pow2(4) == 16 && Pow2(8) == 256 && Pow2(16) == 65536 && Pow2(24) == 0x100_0000;
    Pow2Sum(4, 2);
    assert Pow2(30) == 0x4000_0000;
  }

  /** `n` blocks of `sz` bytes. */
  function Times(n: nat, sz: nat): nat {
    if n == 0 then 0 else sz + Times(n - 1, sz)
  }

  lemma {:induction false} TimesIs(n: nat, sz: nat)
    ensures Times(n, sz) == n * sz
  {
    if n > 0 {
      TimesIs(n - 1, sz);
    }
  }

  lemma Quotient(x: nat, y: nat)
    requires y > 0
    ensures x / y * y <= x
    ensures y <= x ==> x / y >= 1
  {
    assert x == x / y * y + x % y;
  }

  lemma {:induction false} Pow2Sum(a: nat, b: nat)
    ensures Pow2(a + b) == Pow2(a) * Pow2(b)
  {
    if b > 0 {
      Pow2Sum(a, b - 1);
      assert Pow2(a + b) == 2 * (Pow2(a) * Pow2(b - 1)) == Pow2(a) * (2 * Pow2(b - 1));
    }
  }

  lemma CapacityMonotone(a: nat, b: nat, pagebucket: nat)
    requires a <= b
    ensures Capacity(a, pagebucket) <= Capacity(b, pagebucket)
    ensures a < b ==> Capacity(a, pagebucket) < Capacity(b, pagebucket)
  {
    Pow2Monotone(a + 3, b + 3);
  }

  lemma SizePage(pagebucket: nat)
    requires pagebucket <= 26
    ensures Size(pagebucket) <= 0x2000_0000
  {
    hide Pow2;
    Size28();
    Pow2Monotone(pagebucket + 3, 30);
  }

  /** Where the 32-bit arithmetic of `malloc` wraps around. */
  lemma Wrapping(b: nat, pagebucket: nat)
    requires b <= 28 && pagebucket <= 26
    ensures 8 <= Size(b) <= 0x8000_0000 && 8 <= Size(pagebucket) <= 0x2000_0000
    ensures Size(b) * 2 % TWO32 == if b == 28 then 0 else Size(b + 1)
    ensures (Size(b) + (TWO32 - OVERHEAD)) % TWO32 == Size(b) - OVERHEAD
    ensures (Size(b) + (Size(pagebucket) - OVERHEAD)) % TWO32 == Size(b) + Size(pagebucket) - OVERHEAD
  {
    hide Size;
    SizeSmall(b);
    SizeFacts(b);
    SizeSmall(pagebucket);
    SizePage(pagebucket);
  }

  lemma SizeSmall(b: nat)
    requires b <= 28
    ensures if b == 28 then Size(b) == 0x8000_0000 else 8 <= Size(b) <= 0x4000_0000
    ensures Size(b) % 4 == 0
  {
    hide Pow2;
    Size28();
    SizeFacts(b);
    if b < 28 {
      Pow2Monotone(b + 3, 30);
    }
  }

  lemma Smallest()
    ensures Size(0) == 8
  {
  }

  /** The bucket of `malloc`: the first whose blocks can hold `nbytes`.  The
      shifted size runs out of 32 bits after bucket 28. */
  method Bucket(nbytes: nat, pagesz: nat, pagebucket: nat) returns (found: bool, bucket: nat)
    requires nbytes < TWO32 && pagebucket <= 26 && pagesz == Size(pagebucket)
    ensures found <==> nbytes <= Capacity(28, pagebucket)
    ensures found ==> bucket <= 28 && nbytes <= Capacity(bucket, pagebucket)
    ensures found ==> forall b: nat :: b < bucket ==> nbytes > Capacity(b, pagebucket)
  {
    hide Size;
    var amt, n;
    Smallest();
    if nbytes <= pagesz - OVERHEAD {
      amt, bucket, n := 8, 0, TWO32 - OVERHEAD;
    } else {
      amt, bucket, n := pagesz, pagebucket, pagesz - OVERHEAD;
      if bucket > 0 {
        SizeFacts(bucket - 1);
      }
    }
    ghost var small := nbytes <= pagesz - OVERHEAD;
    found := true;
    Wrapping(bucket, pagebucket);
    while nbytes > (amt + n) % TWO32
      invariant bucket <= 28 && amt == Size(bucket)
      invariant (amt + n) % TWO32 == Size(bucket) - OVERHEAD + if small then 0 else pagesz
      invariant small ==> bucket <= pagebucket && n == TWO32 - OVERHEAD
      invariant !small ==> bucket >= pagebucket && n == pagesz - OVERHEAD
      invariant bucket > 0 ==> nbytes > Capacity(bucket - 1, pagebucket)
      decreases 28 - bucket
    {
      Wrapping(bucket, pagebucket);
      SizeFacts(bucket + 1);
      amt := amt * 2 % TWO32;
      if amt == 0 {
        return false, 0;
      }
      bucket := bucket + 1;
      Wrapping(bucket, pagebucket);
    }
    Leading(nbytes, bucket, pagebucket);
  }

  /** If the bucket below is too small, so are all buckets further down. */
  lemma Leading(nbytes: nat, bucket: nat, pagebucket: nat)
    requires bucket <= 28 && (bucket > 0 ==> nbytes > Capacity(bucket - 1, pagebucket))
    ensures Capacity(bucket, pagebucket) <= Capacity(28, pagebucket)
    ensures forall b: nat :: b < bucket ==> nbytes > Capacity(b, pagebucket)
  {
    CapacityMonotone(bucket, 28, pagebucket);
    forall b: nat | b < bucket ensures nbytes > Capacity(b, pagebucket) {
      CapacityMonotone(b, bucket - 1, pagebucket);
    }
  }

  // ------------------------------------------------------ blocks and headers

  type Byte = x: int | 0 <= x < 256

  /** Memory by address; what was never written reads as zero. */
  type Memory = map<int, Byte>

  function At(m: Memory, x: int): (b: int)
    ensures 0 <= b < 256
  {
    if x in m then m[x] else 0
  }

  /** The four bytes at `a` as a number. */
  function Long(m: Memory, a: int): int {
    At(m, a) + 0x100 * At(m, a + 1) + 0x1_0000 * At(m, a + 2) + 0x100_0000 * At(m, a + 3)
  }

  function PutLong(m: Memory, a: int, w: int): Memory
    requires 0 <= w < TWO32
  {
    m[a := w % 0x100][a + 1 := w / 0x100 % 0x100][a + 2 := w / 0x1_0000 % 0x100][a + 3 := w / 0x100_0000]
  }

  /** The header words of the blocks, as memory has them. */
  type Headers = map<int, int>

  ghost function HeadersOf(m: Memory, blocks: Blocks): Headers {
    map a | a in blocks :: Long(m, a)
  }

  function Word(hdr: Headers, a: int): int {
    if a in hdr then hdr[a] else 0
  }

  /** The magic number overlays the low byte of the link of a free block. */
  predicate IsLive(w: int) {
    w % 256 == MAGIC
  }

  function Index(w: int): int {
    w / 256 % 256
  }

  /** A header after `ov_magic` and `ov_index` have been stored over `w`. */
  function LiveHeader(w: int, b: nat): int {
    w / 65536 * 65536 + b * 256 + MAGIC
  }

  lemma LiveHeaderFacts(w: int, b: nat)
    requires b < 256
    ensures IsLive(LiveHeader(w, b)) && Index(LiveHeader(w, b)) == b
  {
    var k := w / 65536;
    assert LiveHeader(w, b) == 256 * (256 * k + b) + MAGIC;
    assert LiveHeader(w, b) / 256 == 256 * k + b;
  }

  /** Every block handed out or free: where it is, and its bucket. */
  type Blocks = map<int, nat>

  /** The blocks lie below `top`, apart from each other. */
  ghost predicate Laid(blocks: Blocks, top: int, pb: nat) {
    && (forall a :: a in blocks ==> a > 0 && a % 4 == 0 && blocks[a] <= 27 && a + Extent(blocks[a], pb) <= top)
    && (forall a, b :: a in blocks && b in blocks && a < b ==> a + Extent(blocks[a], pb) <= b)
  }

  /** Every header tells what its block is. */
  ghost predicate Told(blocks: Blocks, hdr: Headers, lists: seq<seq<int>>) {
    && |lists| == NBUCKETS
    && (forall a :: a in blocks ==> HeaderTells(blocks, hdr, lists, a))
  }

  ghost predicate HeaderTells(blocks: Blocks, hdr: Headers, lists: seq<seq<int>>, a: int)
    requires a in blocks && |lists| == NBUCKETS
  {
    && blocks[a] <= 27
    && if IsLive(Word(hdr, a)) then Index(Word(hdr, a)) == blocks[a] else a in lists[blocks[a]]
  }

  /** Element `j` of a free list and its link. */
  ghost predicate Link(blocks: Blocks, hdr: Headers, l: seq<int>, i: nat, j: nat)
    requires j < |l|
  {
    l[j] in blocks && blocks[l[j]] == i && Word(hdr, l[j]) == if j + 1 < |l| then l[j + 1] else 0
  }

  /** The free list of bucket `i`, from its head. */
  ghost predicate FreeList(blocks: Blocks, hdr: Headers, l: seq<int>, i: nat, head: int) {
    && head == (if l == [] then 0 else l[0])
    && (forall j, k :: 0 <= j < k < |l| ==> l[j] != l[k])
    && (forall j :: 0 <= j < |l| ==> Link(blocks, hdr, l, i, j))
  }

  ghost predicate FreeLists(blocks: Blocks, hdr: Headers, lists: seq<seq<int>>, nextf: seq<int>) {
    && |lists| == NBUCKETS && |nextf| == NBUCKETS
    && (forall i :: 0 <= i < NBUCKETS ==> FreeList(blocks, hdr, lists[i], i, nextf[i]))
  }

  /** The live blocks. */
  ghost function Live(blocks: Blocks, hdr: Headers): set<int> {
    set a | a in blocks && IsLive(Word(hdr, a))
  }

  /** The live blocks of one bucket. */
  ghost function LiveIn(blocks: Blocks, hdr: Headers, i: int): set<int> {
    set a | a in blocks && blocks[a] == i && IsLive(Word(hdr, a))
  }

  ghost predicate Counted(blocks: Blocks, hdr: Headers, nmalloc: seq<int>) {
    && |nmalloc| == NBUCKETS
    && (forall i :: 0 <= i < NBUCKETS ==> nmalloc[i] == |LiveIn(blocks, hdr, i)|)
  }

  ghost predicate Sound(blocks: Blocks, hdr: Headers, lists: seq<seq<int>>, nextf: seq<int>, nmalloc: seq<int>, top: int, pb: nat) {
    && Laid(blocks, top, pb) && Told(blocks, hdr, lists)
    && FreeLists(blocks, hdr, lists, nextf) && Counted(blocks, hdr, nmalloc)
  }

  /** A link, which is the address of a block or zero, never looks like a live header. */
  lemma ListNotLive(blocks: Blocks, hdr: Headers, l: seq<int>, i: nat, head: int, top: int, pb: nat)
    requires Laid(blocks, top, pb) && FreeList(blocks, hdr, l, i, head)
    ensures forall a :: a in l ==> a in blocks && blocks[a] == i && !IsLive(Word(hdr, a))
  {
    forall a | a in l ensures a in blocks && blocks[a] == i && !IsLive(Word(hdr, a)) {
      var j :| 0 <= j < |l| && l[j] == a;
      assert Link(blocks, hdr, l, i, j);
      if j + 1 < |l| {
        assert Link(blocks, hdr, l, i, j + 1);
      }
    }
  }

  /** A free list does not notice changes to other blocks. */
  lemma ListFrame(blocks: Blocks, blocks': Blocks, hdr: Headers, hdr': Headers, l: seq<int>, i: nat, head: int)
    requires FreeList(blocks, hdr, l, i, head)
    requires forall a :: a in l && a in blocks ==> a in blocks' && blocks'[a] == blocks[a] && Word(hdr', a) == Word(hdr, a)
    ensures FreeList(blocks', hdr', l, i, head)
  {
    forall j | 0 <= j < |l| ensures Link(blocks', hdr', l, i, j) {
      assert Link(blocks, hdr, l, i, j) && l[j] in l;
    }
  }

  lemma ListPop(blocks: Blocks, hdr: Headers, hdr': Headers, l: seq<int>, i: nat, head: int)
    requires FreeList(blocks, hdr, l, i, head) && l != []
    requires forall a :: a in blocks && a != l[0] ==> Word(hdr', a) == Word(hdr, a)
    ensures FreeList(blocks, hdr', l[1..], i, Word(hdr, l[0]))
  {
    var r := l[1..];
    assert Link(blocks, hdr, l, i, 0);
    forall j | 0 <= j < |r| ensures Link(blocks, hdr', r, i, j) {
      assert Link(blocks, hdr, l, i, j + 1) && l[0] != l[j + 1];
    }
  }

  lemma ListPush(blocks: Blocks, hdr: Headers, hdr': Headers, l: seq<int>, i: nat, head: int, op: int)
    requires FreeList(blocks, hdr, l, i, head) && op !in l
    requires op in blocks && blocks[op] == i && Word(hdr', op) == head
    requires forall a :: a in blocks && a != op ==> Word(hdr', a) == Word(hdr, a)
    ensures FreeList(blocks, hdr', [op] + l, i, op)
  {
    var r := [op] + l;
    forall j | 0 <= j < |r| ensures Link(blocks, hdr', r, i, j) {
      if j > 0 {
        assert Link(blocks, hdr, l, i, j - 1) && l[j - 1] in l;
      }
    }
    forall j, k | 0 <= j < k < |r| ensures r[j] != r[k] {
      assert r[k] == l[k - 1] && l[k - 1] in l;
      if j > 0 {
        assert r[j] == l[j - 1];
      }
    }
  }

  /** Taking the first block off a free list makes it live. */
  lemma PopFacts(blocks: Blocks, hdr: Headers, lists: seq<seq<int>>, nextf: seq<int>, nmalloc: seq<int>, top: int, pb: nat, i: nat)
    requires Sound(blocks, hdr, lists, nextf, nmalloc, top, pb) && i <= 27 && nextf[i] != 0
    ensures lists[i] != [] && lists[i][0] == nextf[i] && nextf[i] in blocks && blocks[nextf[i]] == i
    ensures var op := nextf[i]; var hdr' := hdr[op := LiveHeader(Word(hdr, op), i)];
      && Sound(blocks, hdr', lists[i := lists[i][1..]], nextf[i := Word(hdr, op)], nmalloc[i := nmalloc[i] + 1], top, pb)
      && op !in Live(blocks, hdr) && Live(blocks, hdr') == Live(blocks, hdr) + {op}
  {
    var op := nextf[i];
    var hdr' := hdr[op := LiveHeader(Word(hdr, op), i)];
    var lists' := lists[i := lists[i][1..]];
    assert FreeList(blocks, hdr, lists[i], i, nextf[i]);
    ListNotLive(blocks, hdr, lists[i], i, nextf[i], top, pb);
    assert op in lists[i];
    LiveHeaderFacts(Word(hdr, op), i);
    forall k | 0 <= k < NBUCKETS ensures FreeList(blocks, hdr', lists'[k], k, nextf[i := Word(hdr, op)][k]) {
      assert FreeList(blocks, hdr, lists[k], k, nextf[k]);
      if k == i {
        ListPop(blocks, hdr, hdr', lists[i], i, op);
      } else {
        ListNotLive(blocks, hdr, lists[k], k, nextf[k], top, pb);
        ListFrame(blocks, blocks, hdr, hdr', lists[k], k, nextf[k]);
      }
    }
    forall a | a in blocks ensures HeaderTells(blocks, hdr', lists', a) {
      assert HeaderTells(blocks, hdr, lists, a);
      if a != op && blocks[a] == i && a in lists[i] {
        assert a in lists[i][1..];
      }
    }
    LiveMore(blocks, hdr, hdr', op, nmalloc);
  }

  lemma LiveInMore(blocks: Blocks, hdr: Headers, hdr': Headers, op: int, i: int)
    requires op in blocks && !IsLive(Word(hdr, op)) && IsLive(Word(hdr', op))
    requires forall a :: a in blocks && a != op ==> Word(hdr', a) == Word(hdr, a)
    ensures |LiveIn(blocks, hdr', i)| == |LiveIn(blocks, hdr, i)| + if i == blocks[op] then 1 else 0
  {
    hide IsLive, Word;
    if i == blocks[op] {
      assert op !in LiveIn(blocks, hdr, i);
      assert LiveIn(blocks, hdr', i) == LiveIn(blocks, hdr, i) + {op};
    } else {
      assert LiveIn(blocks, hdr', i) == LiveIn(blocks, hdr, i);
    }
  }

  /** One more live block. */
  lemma LiveMore(blocks: Blocks, hdr: Headers, hdr': Headers, op: int, nmalloc: seq<int>)
    requires op in blocks && blocks[op] <= 27 && !IsLive(Word(hdr, op)) && IsLive(Word(hdr', op))
    requires forall a :: a in blocks && a != op ==> Word(hdr', a) == Word(hdr, a)
    requires Counted(blocks, hdr, nmalloc)
    ensures Live(blocks, hdr') == Live(blocks, hdr) + {op} && op !in Live(blocks, hdr)
    ensures Counted(blocks, hdr', nmalloc[blocks[op] := nmalloc[blocks[op]] + 1])
  {
    var n := nmalloc[blocks[op] := nmalloc[blocks[op]] + 1];
    forall i | 0 <= i < NBUCKETS ensures n[i] == |LiveIn(blocks, hdr', i)| {
      LiveInMore(blocks, hdr, hdr', op, i);
    }
  }

  /** Putting a live block on its free list. */
  lemma PushFacts(blocks: Blocks, hdr: Headers, lists: seq<seq<int>>, nextf: seq<int>, nmalloc: seq<int>, top: int, pb: nat, op: int)
    requires Sound(blocks, hdr, lists, nextf, nmalloc, top, pb) && op in blocks && IsLive(Word(hdr, op))
    ensures Index(Word(hdr, op)) == blocks[op] <= 27
    ensures var i := blocks[op]; var hdr' := hdr[op := nextf[i]];
      && Sound(blocks, hdr', lists[i := [op] + lists[i]], nextf[i := op], nmalloc[i := nmalloc[i] - 1], top, pb)
      && Live(blocks, hdr') == Live(blocks, hdr) - {op}
  {
    var i := blocks[op];
    assert HeaderTells(blocks, hdr, lists, op);
    var hdr' := hdr[op := nextf[i]];
    var lists' := lists[i := [op] + lists[i]];
    PushLists(blocks, hdr, lists, nextf, top, pb, op);
    LiveLess(blocks, hdr, hdr', op, nmalloc);
    assert Told(blocks, hdr', lists') by {
      forall a | a in blocks ensures HeaderTells(blocks, hdr', lists', a) {
        assert HeaderTells(blocks, hdr, lists, a);
        assert op in [op] + lists[i] && forall x :: x in lists[i] ==> x in [op] + lists[i];
      }
    }
  }

  lemma PushLists(blocks: Blocks, hdr: Headers, lists: seq<seq<int>>, nextf: seq<int>, top: int, pb: nat, op: int)
    requires Laid(blocks, top, pb) && FreeLists(blocks, hdr, lists, nextf) && op in blocks && IsLive(Word(hdr, op))
    requires blocks[op] <= 27
    ensures var i := blocks[op];
      && FreeLists(blocks, hdr[op := nextf[i]], lists[i := [op] + lists[i]], nextf[i := op])
      && !IsLive(nextf[i])
  {
    var i := blocks[op];
    var hdr', lists' := hdr[op := nextf[i]], lists[i := [op] + lists[i]];
    assert FreeList(blocks, hdr, lists[i], i, nextf[i]);
    ListNotLive(blocks, hdr, lists[i], i, nextf[i], top, pb);
    assert nextf[i] != 0 ==> nextf[i] in lists[i];
    forall k | 0 <= k < NBUCKETS ensures FreeList(blocks, hdr', lists'[k], k, nextf[i := op][k]) {
      assert FreeList(blocks, hdr, lists[k], k, nextf[k]);
      ListNotLive(blocks, hdr, lists[k], k, nextf[k], top, pb);
      if k == i {
        ListPush(blocks, hdr, hdr', lists[i], i, nextf[i], op);
      } else {
        ListFrame(blocks, blocks, hdr, hdr', lists[k], k, nextf[k]);
      }
    }
  }

  /** One live block fewer. */
  lemma LiveLess(blocks: Blocks, hdr: Headers, hdr': Headers, op: int, nmalloc: seq<int>)
    requires op in blocks && blocks[op] <= 27 && IsLive(Word(hdr, op)) && !IsLive(Word(hdr', op))
    requires forall a :: a in blocks && a != op ==> Word(hdr', a) == Word(hdr, a)
    requires Counted(blocks, hdr, nmalloc)
    ensures Live(blocks, hdr') == Live(blocks, hdr) - {op}
    ensures Counted(blocks, hdr', nmalloc[blocks[op] := nmalloc[blocks[op]] - 1])
  {
    hide IsLive, Word;
    var n := nmalloc[blocks[op] := nmalloc[blocks[op]] - 1];
    forall i | 0 <= i < NBUCKETS ensures n[i] == |LiveIn(blocks, hdr', i)| {
      LiveInMore(blocks, hdr', hdr, op, i);
    }
    LiveInLess(blocks, hdr, hdr', op);
  }

  lemma LiveInLess(blocks: Blocks, hdr: Headers, hdr': Headers, op: int)
    requires op in blocks && IsLive(Word(hdr, op)) && !IsLive(Word(hdr', op))
    requires forall a :: a in blocks && a != op ==> Word(hdr', a) == Word(hdr, a)
    ensures Live(blocks, hdr') == Live(blocks, hdr) - {op}
  {
  }

  /** The memory after `op` has been linked in behind the last block of a list. */
  function Appended(hdr: Headers, l: seq<int>, op: int): Headers {
    (if l == [] then hdr else hdr[l[|l| - 1] := op])[op := 0]
  }

  /** A new block from the system goes to the end of its free list. */
  lemma CarveFacts(blocks: Blocks, hdr: Headers, lists: seq<seq<int>>, nextf: seq<int>, nmalloc: seq<int>, top: int, pb: nat, i: nat, op: int)
    requires Sound(blocks, hdr, lists, nextf, nmalloc, top, pb) && i <= 27
    requires op >= top && op > 0 && op % 4 == 0
    ensures var l := lists[i]; var blocks', hdr' := blocks[op := i], Appended(hdr, l, op);
      && Sound(blocks', hdr', lists[i := l + [op]], if l == [] then nextf[i := op] else nextf, nmalloc, op + Extent(i, pb), pb)
      && op !in blocks && Live(blocks', hdr') == Live(blocks, hdr)
  {
    var l := lists[i];
    CarveLaid(blocks, top, pb, i, op);
    CarveLists(blocks, hdr, lists, nextf, top, pb, i, op);
    CarveWords(blocks, hdr, l, i, nextf[i], top, pb, op);
    CarveTold(blocks, hdr, Appended(hdr, l, op), lists, i, op);
    CarveLive(blocks, hdr, Appended(hdr, l, op), nmalloc, i, op);
  }

  lemma CarveLive(blocks: Blocks, hdr: Headers, hdr': Headers, nmalloc: seq<int>, i: nat, op: int)
    requires Counted(blocks, hdr, nmalloc) && op !in blocks && !IsLive(Word(hdr', op))
    requires forall a :: a in blocks ==> IsLive(Word(hdr', a)) == IsLive(Word(hdr, a))
    ensures Counted(blocks[op := i], hdr', nmalloc) && Live(blocks[op := i], hdr') == Live(blocks, hdr)
  {
    forall k | 0 <= k < NBUCKETS ensures nmalloc[k] == |LiveIn(blocks[op := i], hdr', k)| {
      assert LiveIn(blocks[op := i], hdr', k) == LiveIn(blocks, hdr, k);
    }
  }

  /** Which headers are live is as before. */
  lemma CarveWords(blocks: Blocks, hdr: Headers, l: seq<int>, i: nat, head: int, top: int, pb: nat, op: int)
    requires Laid(blocks, top, pb) && FreeList(blocks, hdr, l, i, head) && op !in blocks && op % 4 == 0
    ensures !IsLive(Word(Appended(hdr, l, op), op))
    ensures forall a :: a in blocks ==> IsLive(Word(Appended(hdr, l, op), a)) == IsLive(Word(hdr, a))
    ensures forall a :: a in blocks && IsLive(Word(hdr, a)) ==> Word(Appended(hdr, l, op), a) == Word(hdr, a)
  {
    ListNotLive(blocks, hdr, l, i, head, top, pb);
    if l != [] {
      assert l[|l| - 1] in l;
      assert Link(blocks, hdr, l, i, |l| - 1);
    }
  }

  lemma CarveTold(blocks: Blocks, hdr: Headers, hdr': Headers, lists: seq<seq<int>>, i: nat, op: int)
    requires Told(blocks, hdr, lists) && i <= 27 && op !in blocks && !IsLive(Word(hdr', op))
    requires forall a :: a in blocks ==> IsLive(Word(hdr', a)) == IsLive(Word(hdr, a))
    requires forall a :: a in blocks && IsLive(Word(hdr, a)) ==> Word(hdr', a) == Word(hdr, a)
    ensures Told(blocks[op := i], hdr', lists[i := lists[i] + [op]])
  {
    var blocks', lists' := blocks[op := i], lists[i := lists[i] + [op]];
    forall a | a in blocks' ensures HeaderTells(blocks', hdr', lists', a) {
      assert (lists[i] + [op])[|lists[i]|] == op;
      if a != op {
        assert HeaderTells(blocks, hdr, lists, a);
      }
    }
  }

  lemma CarveLists(blocks: Blocks, hdr: Headers, lists: seq<seq<int>>, nextf: seq<int>, top: int, pb: nat, i: nat, op: int)
    requires Laid(blocks, top, pb) && Told(blocks, hdr, lists) && FreeLists(blocks, hdr, lists, nextf) && i <= 27
    requires op !in blocks
    ensures var l := lists[i];
      FreeLists(blocks[op := i], Appended(hdr, l, op), lists[i := l + [op]], if l == [] then nextf[i := op] else nextf)
  {
    var l := lists[i];
    var blocks', hdr', lists' := blocks[op := i], Appended(hdr, l, op), lists[i := l + [op]];
    var nextf' := if l == [] then nextf[i := op] else nextf;
    assert FreeList(blocks, hdr, l, i, nextf[i]);
    ListNotLive(blocks, hdr, l, i, nextf[i], top, pb);
    assert l != [] ==> l[|l| - 1] in l;
    forall k | 0 <= k < NBUCKETS ensures FreeList(blocks', hdr', lists'[k], k, nextf'[k]) {
      assert FreeList(blocks, hdr, lists[k], k, nextf[k]);
      ListNotLive(blocks, hdr, lists[k], k, nextf[k], top, pb);
      if k == i {
        ListAppend(blocks, hdr, l, i, nextf[i], op);
      } else {
        ListFrame(blocks, blocks', hdr, hdr', lists[k], k, nextf[k]);
      }
    }
  }

  lemma CarveLaid(blocks: Blocks, top: int, pb: nat, i: nat, op: int)
    requires Laid(blocks, top, pb) && i <= 27 && op >= top && op > 0 && op % 4 == 0
    ensures Laid(blocks[op := i], op + Extent(i, pb), pb) && op !in blocks
  {
    SizeFacts(i);
    forall a | a in blocks ensures a < op {
      SizeFacts(blocks[a]);
    }
  }

  lemma ListAppend(blocks: Blocks, hdr: Headers, l: seq<int>, i: nat, head: int, op: int)
    requires FreeList(blocks, hdr, l, i, head) && op !in blocks
    ensures FreeList(blocks[op := i], Appended(hdr, l, op), l + [op], i, if l == [] then op else head)
  {
    var r, blocks', hdr' := l + [op], blocks[op := i], Appended(hdr, l, op);
    forall j | 0 <= j < |l| ensures l[j] in blocks {
      assert Link(blocks, hdr, l, i, j);
    }
    forall j | 0 <= j < |r| ensures Link(blocks', hdr', r, i, j) {
      if j < |l| {
        assert Link(blocks, hdr, l, i, j);
      }
    }
  }

  /** `1 << (bucket + 3)` as a signed 32-bit number. */
  function SignedSize(b: nat): int {
    if Size(b) < 0x8000_0000 then Size(b) else Size(b) - TWO32
  }

  function Min(a: int, b: int): int {
    if a < b then a else b
  }

  /** The memory from `top` on is as the system handed it out. */
  ghost predicate Unwritten(m: Memory, top: int) {
    forall x :: x in m ==> x < top
  }

  /** The bytes behind the header of a block are what they were. */
  ghost predicate SameBody(m: Memory, m': Memory, a: int, end: int) {
    forall x :: a + OVERHEAD <= x < end ==> At(m', x) == At(m, x)
  }

  /** The blocks of `blocks` are still there, with all the bytes their callers
      may have put into them. */
  ghost predicate Kept(blocks: Blocks, m: Memory, blocks': Blocks, m': Memory, pb: nat) {
    forall a :: a in blocks ==> a in blocks' && blocks'[a] == blocks[a] && SameBody(m, m', a, a + Extent(blocks[a], pb))
  }

  lemma KeptTwice(b0: Blocks, m0: Memory, b1: Blocks, m1: Memory, b2: Blocks, m2: Memory, pb: nat)
    requires Kept(b0, m0, b1, m1, pb) && Kept(b1, m1, b2, m2, pb)
    ensures Kept(b0, m0, b2, m2, pb)
  {
    forall a | a in b0 ensures SameBody(m0, m2, a, a + Extent(b0[a], pb)) {
      assert SameBody(m0, m1, a, a + Extent(b0[a], pb)) && SameBody(m1, m2, a, a + Extent(b1[a], pb));
    }
  }

  lemma KeptSelf(blocks: Blocks, m: Memory, pb: nat)
    ensures Kept(blocks, m, blocks, m, pb)
  {
  }

  /** The first `n` bytes at `src` are now at `dst`. */
  ghost predicate Arrived(m: Memory, m': Memory, src: int, dst: int, n: int) {
    forall x :: dst <= x < dst + n ==> At(m', x) == At(m, x - dst + src)
  }

  /** Only the `n` bytes at `dst` may have changed. */
  ghost predicate Elsewhere(m: Memory, m': Memory, dst: int, n: int) {
    forall x :: !(dst <= x < dst + n) ==> At(m', x) == At(m, x)
  }

  /** Of the bytes in blocks only the `n` at `dst` may have changed. */
  ghost predicate KeptBut(blocks: Blocks, m: Memory, m': Memory, pb: nat, dst: int, n: int) {
    forall a :: a in blocks ==> SameBut(m, m', a, a + Extent(blocks[a], pb), dst, n)
  }

  ghost predicate SameBut(m: Memory, m': Memory, a: int, end: int, dst: int, n: int) {
    forall x :: a + OVERHEAD <= x < end && !(dst <= x < dst + n) ==> At(m', x) == At(m, x)
  }

  /** First the blocks keep their bytes, then `n` of them are copied. */
  lemma Bring(blocks: Blocks, m: Memory, blocks': Blocks, m1: Memory, m2: Memory, src: int, dst: int, n: int, pb: nat)
    requires Kept(blocks, m, blocks', m1, pb)
    requires n > 0 ==> src - OVERHEAD in blocks && n <= Capacity(blocks[src - OVERHEAD], pb)
    requires Arrived(m1, m2, src, dst, n) && Elsewhere(m1, m2, dst, n)
    ensures Arrived(m, m2, src, dst, n) && KeptBut(blocks, m, m2, pb, dst, n)
  {
    if n > 0 {
      var a := src - OVERHEAD;
      assert SameBody(m, m1, a, a + Extent(blocks[a], pb));
    }
    forall a | a in blocks ensures SameBut(m, m2, a, a + Extent(blocks[a], pb), dst, n) {
      assert SameBody(m, m1, a, a + Extent(blocks[a], pb));
    }
  }

  /** A block that has stayed where it was, and nothing copied. */
  lemma Stay(blocks: Blocks, m: Memory, blocks': Blocks, m1: Memory, src: int, dst: int, n: int, pb: nat)
    requires Kept(blocks, m, blocks', m1, pb)
    requires n > 0 ==> src == dst && src - OVERHEAD in blocks && n <= Capacity(blocks[src - OVERHEAD], pb)
    ensures Arrived(m, m1, src, dst, n) && KeptBut(blocks, m, m1, pb, dst, n)
  {
    Bring(blocks, m, blocks', m1, m1, src, dst, n, pb);
  }

  lemma KeptBlocks(blocks: Blocks, m: Memory, blocks': Blocks, m': Memory, pb: nat)
    requires Kept(blocks, m, blocks', m', pb)
    ensures SameBlocks(blocks, blocks')
  {
  }

  ghost predicate SameBlocks(blocks: Blocks, blocks': Blocks) {
    forall a :: a in blocks ==> a in blocks' && blocks'[a] == blocks[a]
  }

  /** A number survives being stored as four bytes, and no other byte notices. */
  lemma PutLongFacts(m: Memory, a: int, w: int)
    requires 0 <= w < TWO32
    ensures Long(PutLong(m, a, w), a) == w
    ensures forall x :: !(a <= x < a + 4) ==> At(PutLong(m, a, w), x) == At(m, x)
  {
    Digits(w);
  }

  lemma Digits(w: int)
    requires 0 <= w < TWO32
    ensures w % 0x100 + 0x100 * (w / 0x100 % 0x100) + 0x1_0000 * (w / 0x1_0000 % 0x100) + 0x100_0000 * (w / 0x100_0000) == w
  {
    assert w / 0x1_0000 == w / 0x100 / 0x100 && w / 0x100_0000 == w / 0x1_0000 / 0x100;
  }

  /** A store into the header of a block changes that header and no other, and
      no byte of any caller. */
  lemma HeaderStore(m: Memory, m': Memory, blocks: Blocks, top: int, pb: nat, op: int)
    requires Laid(blocks, top, pb) && op in blocks
    requires forall x :: !(op <= x < op + 4) ==> At(m', x) == At(m, x)
    ensures HeadersOf(m', blocks) == HeadersOf(m, blocks)[op := Long(m', op)]
    ensures Kept(blocks, m, blocks, m', pb)
  {
    hide At, Extent, Laid;
    forall a | a in blocks && a != op ensures Long(m', a) == Long(m, a) {
      Apart(blocks, top, pb, a, op);
    }
    HeaderStoreKeeps(m, m', blocks, top, pb, op);
  }

  lemma HeaderStoreKeeps(m: Memory, m': Memory, blocks: Blocks, top: int, pb: nat, op: int)
    requires Laid(blocks, top, pb) && op in blocks
    requires forall x :: !(op <= x < op + 4) ==> At(m', x) == At(m, x)
    ensures Kept(blocks, m, blocks, m', pb)
  {
    hide At, Extent, Laid;
    forall a | a in blocks ensures SameBody(m, m', a, a + Extent(blocks[a], pb)) {
      if a != op {
        Apart(blocks, top, pb, a, op);
      }
    }
  }

  /** Neither block reaches into the other, and both have room for a header. */
  lemma Apart(blocks: Blocks, top: int, pb: nat, a: int, b: int)
    requires Laid(blocks, top, pb) && a in blocks && b in blocks && a != b
    ensures a + Extent(blocks[a], pb) <= b || b + Extent(blocks[b], pb) <= a
    ensures Extent(blocks[a], pb) >= 8 && Extent(blocks[b], pb) >= 8
  {
    SizeFacts(blocks[a]);
    SizeFacts(blocks[b]);
  }

  lemma BlockInside(blocks: Blocks, top: int, pb: nat, a: int)
    requires Laid(blocks, top, pb) && a in blocks
    ensures 0 < a && a + 8 <= a + Extent(blocks[a], pb) <= top
  {
    SizeFacts(blocks[a]);
  }

  /** A link stored in a header. */
  lemma LinkStore(m: Memory, blocks: Blocks, top: int, pb: nat, op: int, w: int)
    requires Laid(blocks, top, pb) && op in blocks && Unwritten(m, top) && 0 <= w < TWO32
    ensures HeadersOf(PutLong(m, op, w), blocks) == HeadersOf(m, blocks)[op := w]
    ensures Kept(blocks, m, blocks, PutLong(m, op, w), pb) && Unwritten(PutLong(m, op, w), top)
  {
    BlockInside(blocks, top, pb, op);
    PutLongFacts(m, op, w);
    HeaderStore(m, PutLong(m, op, w), blocks, top, pb, op);
  }

  /** The magic number and the bucket stored over a link. */
  function PutMagic(m: Memory, op: int, b: nat): Memory
    requires b < 256
  {
    m[op := MAGIC][op + 1 := b]
  }

  lemma MagicBytes(m: Memory, op: int, b: nat)
    requires b < 256
    ensures Long(PutMagic(m, op, b), op) == MAGIC + 0x100 * b + 0x1_0000 * At(m, op + 2) + 0x100_0000 * At(m, op + 3)
    ensures forall x :: !(op <= x < op + 4) ==> At(PutMagic(m, op, b), x) == At(m, x)
  {
  }

  lemma MagicStore(m: Memory, blocks: Blocks, top: int, pb: nat, op: int, b: nat)
    requires Laid(blocks, top, pb) && op in blocks && Unwritten(m, top) && b < 256
    ensures HeadersOf(PutMagic(m, op, b), blocks) == HeadersOf(m, blocks)[op := LiveHeader(Word(HeadersOf(m, blocks), op), b)]
    ensures Kept(blocks, m, blocks, PutMagic(m, op, b), pb) && Unwritten(PutMagic(m, op, b), top)
  {
    BlockInside(blocks, top, pb, op);
    MagicBytes(m, op, b);
    HeaderStore(m, PutMagic(m, op, b), blocks, top, pb, op);
    assert Word(HeadersOf(m, blocks), op) == Long(m, op);
    MagicWord(m, op, b);
    hide Laid, HeadersOf, Word, LiveHeader, Kept, Long, At;
  }

  lemma MagicWord(m: Memory, op: int, b: nat)
    requires b < 256
    ensures Long(PutMagic(m, op, b), op) == LiveHeader(Long(m, op), b)
  {
    MagicBytes(m, op, b);
    MagicOver(At(m, op), At(m, op + 1), At(m, op + 2), At(m, op + 3), b);
  }

  lemma MagicOver(b0: int, b1: int, b2: int, b3: int, b: nat)
    requires 0 <= b0 < 256 && 0 <= b1 < 256 && 0 <= b2 < 256
    ensures LiveHeader(b0 + 0x100 * b1 + 0x1_0000 * b2 + 0x100_0000 * b3, b) == MAGIC + 0x100 * b + 0x1_0000 * b2 + 0x100_0000 * b3
  {
  }

  /** Fresh memory reads as a header without a link. */
  lemma FreshHeader(m: Memory, blocks: Blocks, top: int, pb: nat, op: int, i: nat)
    requires Unwritten(m, top) && op >= top && op !in blocks
    ensures HeadersOf(m, blocks[op := i]) == HeadersOf(m, blocks)[op := 0]
    ensures Kept(blocks, m, blocks[op := i], m, pb)
  {
  }

  /** Bytes stored behind the header of a block change no header and no byte of
      another block. */
  lemma BodyStore(m: Memory, m': Memory, blocks: Blocks, top: int, pb: nat, op: int)
    requires Laid(blocks, top, pb) && op in blocks
    requires forall x :: !(op + OVERHEAD <= x < op + Extent(blocks[op], pb)) ==> At(m', x) == At(m, x)
    ensures HeadersOf(m', blocks) == HeadersOf(m, blocks)
    ensures forall a :: a in blocks && a != op ==> SameBody(m, m', a, a + Extent(blocks[a], pb))
  {
    hide At, Extent;
    forall a | a in blocks ensures Long(m', a) == Long(m, a) {
      if a != op {
        Apart(blocks, top, pb, a, op);
      }
    }
    forall a | a in blocks && a != op ensures SameBody(m, m', a, a + Extent(blocks[a], pb)) {
      Apart(blocks, top, pb, a, op);
    }
  }

  /** The heads of the free lists are addresses. */
  lemma HeadRange(blocks: Blocks, hdr: Headers, lists: seq<seq<int>>, nextf: seq<int>, top: int, pb: nat, i: nat)
    requires Laid(blocks, top, pb) && FreeLists(blocks, hdr, lists, nextf) && i < NBUCKETS && top > 0
    ensures 0 <= nextf[i] <= top
  {
    assert FreeList(blocks, hdr, lists[i], i, nextf[i]);
    if lists[i] != [] {
      assert Link(blocks, hdr, lists[i], i, 0);
      BlockInside(blocks, top, pb, lists[i][0]);
    }
  }

  /** What reading the two overlaid bytes of a header tells. */
  lemma HeaderBytes(m: Memory, blocks: Blocks, a: int)
    requires a in blocks
    ensures IsLive(Word(HeadersOf(m, blocks), a)) <==> At(m, a) == MAGIC
    ensures Index(Word(HeadersOf(m, blocks), a)) == At(m, a + 1)
  {
    LongParts(At(m, a), At(m, a + 1), At(m, a + 2), At(m, a + 3));
  }

  lemma LongParts(b0: int, b1: int, b2: int, b3: int)
    requires 0 <= b0 < 256 && 0 <= b1 < 256 && 0 <= b2 < 256
    ensures (b0 + 0x100 * b1 + 0x1_0000 * b2 + 0x100_0000 * b3) % 256 == b0
    ensures Index(b0 + 0x100 * b1 + 0x1_0000 * b2 + 0x100_0000 * b3) == b1
  {
    assert (b0 + 0x100 * b1 + 0x1_0000 * b2 + 0x100_0000 * b3) / 256 == b1 + 256 * (b2 + 256 * b3);
  }

  /** Memory with everything known about it. */
  ghost predicate Stored(m: Memory, blocks: Blocks, lists: seq<seq<int>>, nextf: seq<int>, nmalloc: seq<int>, top: int, pb: nat) {
    Sound(blocks, HeadersOf(m, blocks), lists, nextf, nmalloc, top, pb) && Unwritten(m, top) && top > 0
  }

  /** Taking a block off its free list, in memory. */
  lemma Popped(m: Memory, blocks: Blocks, lists: seq<seq<int>>, nextf: seq<int>, nmalloc: seq<int>, top: int, pb: nat, i: nat)
    requires Stored(m, blocks, lists, nextf, nmalloc, top, pb) && i <= 27 && |nextf| == |nmalloc| == |lists| == NBUCKETS && nextf[i] != 0
    ensures lists[i] != [] && nextf[i] in blocks && blocks[nextf[i]] == i && nextf[i] > 0
    ensures var op := nextf[i]; var m' := PutMagic(m, op, i);
      && Stored(m', blocks, lists[i := lists[i][1..]], nextf[i := Long(m, op)], nmalloc[i := nmalloc[i] + 1], top, pb)
      && op !in Live(blocks, HeadersOf(m, blocks)) && Live(blocks, HeadersOf(m', blocks)) == Live(blocks, HeadersOf(m, blocks)) + {op}
      && Kept(blocks, m, blocks, m', pb)
  {
    PopFacts(blocks, HeadersOf(m, blocks), lists, nextf, nmalloc, top, pb, i);
    BlockInside(blocks, top, pb, nextf[i]);
    MagicStore(m, blocks, top, pb, nextf[i], i);
  }

  /** Putting a block on its free list, in memory. */
  lemma Pushed(m: Memory, blocks: Blocks, lists: seq<seq<int>>, nextf: seq<int>, nmalloc: seq<int>, top: int, pb: nat, op: int)
    requires Stored(m, blocks, lists, nextf, nmalloc, top, pb) && |nextf| == |nmalloc| == |lists| == NBUCKETS && top < TWO32
    requires op in Live(blocks, HeadersOf(m, blocks))
    ensures At(m, op + 1) == blocks[op] <= 27 && 0 <= nextf[blocks[op]] < TWO32
    ensures var i := blocks[op]; var m' := PutLong(m, op, nextf[i]);
      && Stored(m', blocks, lists[i := [op] + lists[i]], nextf[i := op], nmalloc[i := nmalloc[i] - 1], top, pb)
      && Live(blocks, HeadersOf(m', blocks)) == Live(blocks, HeadersOf(m, blocks)) - {op}
      && Kept(blocks, m, blocks, m', pb)
  {
    PushFacts(blocks, HeadersOf(m, blocks), lists, nextf, nmalloc, top, pb, op);
    HeaderBytes(m, blocks, op);
    HeadRange(blocks, HeadersOf(m, blocks), lists, nextf, top, pb, blocks[op]);
    LinkStore(m, blocks, top, pb, op, nextf[blocks[op]]);
  }

  /** The memory after `op` has been linked in behind the last block of a list. */
  function Linked(m: Memory, l: seq<int>, op: int): Memory
    requires 0 <= op < TWO32
  {
    if l == [] then m else PutLong(m, l[|l| - 1], op)
  }

  /** A new block at the end of a free list, in memory. */
  lemma Carved(m: Memory, blocks: Blocks, lists: seq<seq<int>>, nextf: seq<int>, nmalloc: seq<int>, top: int, pb: nat, i: nat, op: int)
    requires Stored(m, blocks, lists, nextf, nmalloc, top, pb) && i <= 27 && |nextf| == |nmalloc| == |lists| == NBUCKETS
    requires top <= op < TWO32 && op % 4 == 0
    ensures var l := lists[i]; var m', blocks' := Linked(m, l, op), blocks[op := i];
      && Stored(m', blocks', lists[i := l + [op]], if l == [] then nextf[i := op] else nextf, nmalloc, op + Extent(i, pb), pb)
      && Live(blocks', HeadersOf(m', blocks')) == Live(blocks, HeadersOf(m, blocks))
      && Kept(blocks, m, blocks', m', pb)
  {
    var l := lists[i];
    var m', blocks' := Linked(m, l, op), blocks[op := i];
    CarveFacts(blocks, HeadersOf(m, blocks), lists, nextf, nmalloc, top, pb, i, op);
    CarveStore(m, blocks, HeadersOf(m, blocks), l, i, nextf[i], top, pb, op);
  }

  lemma CarveStore(m: Memory, blocks: Blocks, hdr: Headers, l: seq<int>, i: nat, head: int, top: int, pb: nat, op: int)
    requires Laid(blocks, top, pb) && Unwritten(m, top) && hdr == HeadersOf(m, blocks) && FreeList(blocks, hdr, l, i, head)
    requires 0 < top <= op < TWO32 && op !in blocks
    ensures HeadersOf(Linked(m, l, op), blocks[op := i]) == Appended(hdr, l, op)
    ensures Kept(blocks, m, blocks[op := i], Linked(m, l, op), pb) && Unwritten(Linked(m, l, op), op + Extent(i, pb))
  {
    if l != [] {
      assert Link(blocks, hdr, l, i, |l| - 1);
      LinkStore(m, blocks, top, pb, l[|l| - 1], op);
    }
    var m' := Linked(m, l, op);
    FreshHeader(m', blocks, top, pb, op, i);
    KeptTwice(blocks, m, blocks, m', blocks[op := i], m', pb);
  }

  class Malloc {
    const pagesz: nat
    const pagebucket: nat
    const limit: nat             // the system refuses to move the break beyond this
    const nextf: array<int>      // heads of the free lists
    const nmalloc: array<int>    // live blocks per bucket
    var mem: Memory              // headers and callers' bytes alike
    var brk: int                 // the end of memory
    ghost var blocks: Blocks
    ghost var lists: seq<seq<int>>
    ghost var top: int           // the end of the last block

    ghost predicate Valid()
      reads this, nextf, nmalloc
    {
      && nextf.Length == NBUCKETS && nmalloc.Length == NBUCKETS && nextf != nmalloc
      && pagebucket <= 26 && pagesz == Size(pagebucket)
      && top <= brk <= limit < TWO32 && brk % 4 == 0
      && Stored(mem, blocks, lists, nextf[..], nmalloc[..], top, pagebucket)
    }

    /** The blocks in use. */
    ghost function Alive(): set<int>
      reads this
    {
      Live(blocks, HeadersOf(mem, blocks))
    }

    /** The blocks there were are still there, and so are the bytes in them. */
    twostate predicate BlocksKept()
      reads this
    {
      Kept(old(blocks), old(mem), blocks, mem, pagebucket)
    }

    constructor (pagebucket: nat, start: nat, limit: nat)
      requires pagebucket <= 26 && 0 < start <= limit < TWO32 && start % 4 == 0
      ensures Valid() && Alive() == {} && brk == start && fresh(nextf) && fresh(nmalloc)
    {
      this.pagebucket, this.pagesz, this.limit := pagebucket, Size(pagebucket), limit;
      nextf := new int[NBUCKETS](_ => 0);
      nmalloc := new int[NBUCKETS](_ => 0);
      mem, brk := map[], start;
      blocks, top := map[], start;
      lists := seq(NBUCKETS, _ => []);
    }

    /** `sbrk(amt)` */
    method Sbrk(amt: nat) returns (p: int)
      requires brk <= limit
      modifies this`brk
      ensures brk <= limit
      ensures (p == -1 && brk == old(brk) > limit - amt) || (p == old(brk) && brk == p + amt)
    {
      if brk + amt > limit {
        return -1;
      }
      p := brk;
      brk := brk + amt;
    }

    /** `morecore(bucket)` */
    method Morecore(bucket: nat)
      requires Valid() && bucket <= 28 && nextf[bucket] == 0
      modifies this`mem, this`brk, this`blocks, this`lists, this`top, nextf
      ensures Valid() == true && Alive() == old(Alive()) && BlocksKept()
      ensures bucket <= 27 && old(brk) + Extent(bucket, pagebucket) + pagesz <= limit ==> nextf[bucket] != 0
    {
      var ok, sz, amt, nblks := Request(bucket);
      if !ok {
        return;
      }
      var op := Sbrk(amt);
      hide Stored, Kept, HeadersOf, Live;
      if op != -1 {
        AddMultiple(op, amt);
        CarveAll(bucket, op, sz, nblks);
      }
    }

    /** How much `morecore` asks the system for, and what it makes of it; a
        signed block size stops it at bucket 28. */
    method Request(bucket: nat) returns (ok: bool, sz: int, amt: int, nblks: int)
      requires pagebucket <= 26 && pagesz == Size(pagebucket) && bucket <= 28
      ensures ok <==> bucket <= 27
      ensures ok ==> sz == Size(bucket) && amt % 4 == 0 && 0 < amt <= Extent(bucket, pagebucket) + pagesz
      ensures ok ==> if bucket < pagebucket then nblks >= 1 && Times(nblks, sz) <= amt else nblks == 1 && sz + pagesz == amt
    {
      SignedFacts(bucket);
      SignedFacts(pagebucket);
      SmallBlocks(bucket);
      ok, sz, amt, nblks := true, SignedSize(bucket), 0, 0;
      if sz <= 0 {
        return false, sz, amt, nblks;
      }
      AddMultiple(sz, pagesz);
      if sz < pagesz {
        amt := pagesz;
        nblks := amt / sz;
        TimesIs(nblks, sz);
      } else {
        amt := sz + pagesz;
        nblks := 1;
      }
    }

    /** The rest of `morecore`: `nblks` blocks of `sz` bytes from `op0` on. */
    method CarveAll(bucket: nat, op0: int, sz: int, nblks0: int)
      requires nextf.Length == NBUCKETS && nmalloc.Length == NBUCKETS && nextf != nmalloc && bucket <= 27
      requires pagebucket <= 26 && pagesz == Size(pagebucket) && brk % 4 == 0 && brk <= limit < TWO32 && sz == Size(bucket)
      requires Stored(mem, blocks, lists, nextf[..], nmalloc[..], top, pagebucket) && nextf[bucket] == 0
      requires op0 >= top && op0 % 4 == 0
      requires if bucket < pagebucket then nblks0 >= 1 && op0 + Times(nblks0, sz) <= brk
               else nblks0 == 1 && op0 + sz + pagesz <= brk
      modifies this`mem, this`blocks, this`lists, this`top, nextf
      ensures Valid() == true && Alive() == old(Alive()) && BlocksKept() && nextf[bucket] != 0
    {
      hide Stored, Kept, HeadersOf, Live, Size;
      SizeAligned(bucket, sz);
      var op, nblks := op0, nblks0;
      Carve(bucket, op);
      nblks := nblks - 1;
      while nblks > 0
        invariant nblks >= 0 && Valid() == true && Alive() == old(Alive()) && BlocksKept()
        invariant nextf[bucket] != 0 && Last(bucket, op)
        invariant nblks > 0 ==> bucket < pagebucket && top == op + sz && op % 4 == 0
        invariant nblks > 0 ==> top + Times(nblks, sz) <= brk
      {
        AddMultiple(op, sz);
        CarveNext(bucket, op, op + sz, old(blocks), old(mem));
        op := op + sz;
        nblks := nblks - 1;
      }
    }

    /** `op` is the last block of its free list. */
    ghost predicate Last(bucket: nat, op: int)
      reads this
    {
      |lists| == NBUCKETS && bucket < NBUCKETS && lists[bucket] != [] && lists[bucket][|lists[bucket]| - 1] == op
    }

    lemma SizeAligned(b: nat, sz: int)
      requires sz == Size(b)
      ensures sz % 4 == 0 && sz >= 8
    {
      SizeFacts(b);
    }

    lemma AddMultiple(a: int, b: int)
      requires a % 4 == 0 && b % 4 == 0
      ensures (a + b) % 4 == 0
    {
    }

    lemma SignedFacts(b: nat)
      requires b <= 28
      ensures SignedSize(b) > 0 <==> b <= 27
      ensures b <= 27 ==> SignedSize(b) == Size(b)
      ensures Size(b) % 4 == 0 && Size(b) >= 8
    {
      hide Size;
      SizeSmall(b);
    }

    /** The first new block becomes the head of its free list. */
    method Carve(bucket: nat, op: int)
      requires nextf.Length == NBUCKETS && nmalloc.Length == NBUCKETS && nextf != nmalloc && bucket <= 27
      requires Stored(mem, blocks, lists, nextf[..], nmalloc[..], top, pagebucket) && nextf[bucket] == 0
      requires top <= op < TWO32 && op % 4 == 0
      modifies this`blocks, this`lists, this`top, nextf
      ensures Stored(mem, blocks, lists, nextf[..], nmalloc[..], top, pagebucket) == true
      ensures Alive() == old(Alive()) && BlocksKept()
      ensures nextf[bucket] == op > 0 && Last(bucket, op) && top == op + Extent(bucket, pagebucket)
    {
      EmptyList(bucket);
      Carved(mem, blocks, lists, nextf[..], nmalloc[..], top, pagebucket, bucket, op);
      ghost var was := nextf[..];
      nextf[bucket] := op;
      assert nextf[..] == was[bucket := op];
      blocks, lists, top := blocks[op := bucket], lists[bucket := [] + [op]], op + Extent(bucket, pagebucket);
    }

    lemma EmptyList(i: nat)
      requires nextf.Length == NBUCKETS && i < NBUCKETS
      requires Stored(mem, blocks, lists, nextf[..], nmalloc[..], top, pagebucket)
      ensures |lists| == NBUCKETS && top > 0 && (nextf[i] == 0 <==> lists[i] == [])
      ensures nextf[i] != 0 ==> i <= 27
    {
      assert FreeList(blocks, HeadersOf(mem, blocks), lists[i], i, nextf[..][i]);
      if lists[i] != [] {
        assert Link(blocks, HeadersOf(mem, blocks), lists[i], i, 0);
      }
    }

    /** `op->ov_next = op + sz` */
    method CarveNext(bucket: nat, op: int, next: int, ghost blocks0: Blocks, ghost mem0: Memory)
      requires Valid() && bucket <= 27 && Last(bucket, op)
      requires next == top && next % 4 == 0 && bucket < pagebucket && top + Size(bucket) <= brk
      modifies this`mem, this`blocks, this`lists, this`top
      requires Kept(blocks0, mem0, blocks, mem, pagebucket)
      ensures Valid() == true && Alive() == old(Alive()) && Kept(blocks0, mem0, blocks, mem, pagebucket)
      ensures Last(bucket, next) && top == next + Size(bucket)
    {
      SizeFacts(bucket);
      Carved(mem, blocks, lists, nextf[..], nmalloc[..], top, pagebucket, bucket, next);
      hide Stored, Kept, HeadersOf, Live, PutLong, Size;
      assert Linked(mem, lists[bucket], next) == PutLong(mem, op, next);
      mem := PutLong(mem, op, next);
      blocks, lists, top := blocks[next := bucket], lists[bucket := lists[bucket] + [next]], next + Extent(bucket, pagebucket);
      KeptTwice(blocks0, mem0, old(blocks), old(mem), blocks, mem, pagebucket);
    }

    /** `malloc(nbytes)`: zero if there is no room, and otherwise the address of
        a block that was not in use and has room for what was asked for. */
    method Alloc(nbytes: nat) returns (r: int)
      requires Valid() && nbytes < TWO32
      modifies this`mem, this`brk, this`blocks, this`lists, this`top, nextf, nmalloc
      ensures Valid() == true && BlocksKept()
      ensures r == 0 ==> Alive() == old(Alive())
      ensures r != 0 ==> r - OVERHEAD !in old(Alive()) && Alive() == old(Alive()) + {r - OVERHEAD}
      ensures r != 0 ==> r - OVERHEAD in blocks && nbytes <= Capacity(blocks[r - OVERHEAD], pagebucket)
      ensures nbytes <= Capacity(27, pagebucket) && old(brk) + Size(27) + 2 * pagesz <= limit ==> r != 0
    {
      var found, bucket := Bucket(nbytes, pagesz, pagebucket);
      if !found {
        CapacityMonotone(27, 28, pagebucket);
        return 0;
      }
      BucketAtMost(nbytes, bucket, pagebucket);
      hide Stored, Kept, HeadersOf, Live, Size;
      if nextf[bucket] == 0 {
        Morecore(bucket);
        if nextf[bucket] == 0 {
          return 0;
        }
      }
      EmptyList(bucket);
      label L:
      r := Unlink(bucket);
      KeptTwice(old(blocks), old(mem), old@L(blocks), old@L(mem), blocks, mem, pagebucket);
      r := r + OVERHEAD;
    }

    /** `remove from linked list` */
    method Unlink(bucket: nat) returns (op: int)
      requires Valid() && bucket <= 27 && nextf[bucket] != 0
      modifies this`mem, this`lists, nextf, nmalloc
      ensures Valid() == true && BlocksKept() && op > 0 && op !in old(Alive()) && Alive() == old(Alive()) + {op}
      ensures op in blocks && blocks[op] == bucket
    {
      hide Stored, Kept, HeadersOf, Live, Long, PutMagic, Extent, Size;
      EmptyList(bucket);
      Popped(mem, blocks, lists, nextf[..], nmalloc[..], top, pagebucket, bucket);
      op := TakeFirst(bucket);
    }

    method TakeFirst(bucket: nat) returns (op: int)
      requires bucket < NBUCKETS && |lists| == nextf.Length == nmalloc.Length == NBUCKETS && nextf != nmalloc && lists[bucket] != []
      modifies this`mem, this`lists, nextf, nmalloc
      ensures op == old(nextf[bucket]) && mem == PutMagic(old(mem), op, bucket)
      ensures nextf[..] == old(nextf[..])[bucket := Long(old(mem), op)]
      ensures nmalloc[..] == old(nmalloc[..])[bucket := old(nmalloc[bucket]) + 1]
      ensures lists == old(lists)[bucket := old(lists)[bucket][1..]]
    {
      op := nextf[bucket];
      nextf[bucket] := Long(mem, op);
      mem := PutMagic(mem, op, bucket);
      nmalloc[bucket] := nmalloc[bucket] + 1;
      lists := lists[bucket := lists[bucket][1..]];
    }

    /** `free(cp)`, which ignores a block that is free already. */
    method Free(cp: int)
      requires Valid() && (cp == 0 || cp - OVERHEAD in blocks)
      modifies this`mem, this`lists, nextf, nmalloc
      ensures Valid() == true && Alive() == old(Alive()) - {cp - OVERHEAD} && BlocksKept()
      ensures cp == 0 || cp - OVERHEAD !in old(Alive()) ==> unchanged(this) && unchanged(nextf) && unchanged(nmalloc)
    {
      hide Stored, Kept, HeadersOf, Live, PutLong, At, Extent, Size;
      KeptSelf(blocks, mem, pagebucket);
      if cp == 0 {
        NoBlock();
        assert Alive() - {cp - OVERHEAD} == Alive();
        return;
      }
      var op := cp - OVERHEAD;
      LiveByte(op);
      if At(mem, op) != MAGIC {
        assert Alive() - {op} == Alive();
        return;
      }
      EmptyList(0);
      Pushed(mem, blocks, lists, nextf[..], nmalloc[..], top, pagebucket, op);
      PutFirst(op, At(mem, op + 1));
    }

    lemma LiveByte(op: int)
      requires op in blocks
      ensures op in Alive() <==> At(mem, op) == MAGIC
    {
      HeaderBytes(mem, blocks, op);
    }

    method PutFirst(op: int, size: nat)
      requires size < NBUCKETS && |lists| == nextf.Length == nmalloc.Length == NBUCKETS && nextf != nmalloc
      requires 0 <= nextf[size] < TWO32
      modifies this`mem, this`lists, nextf, nmalloc
      ensures mem == PutLong(old(mem), op, old(nextf[size]))
      ensures nextf[..] == old(nextf[..])[size := op]
      ensures nmalloc[..] == old(nmalloc[..])[size := old(nmalloc[size]) - 1]
      ensures lists == old(lists)[size := [op] + old(lists)[size]]
    {
      mem := PutLong(mem, op, nextf[size]);
      nextf[size] := op;
      nmalloc[size] := nmalloc[size] - 1;
      lists := lists[size := [op] + lists[size]];
    }

    /** A caller stores a byte into a block that was handed out to it. */
    method Put(op: int, x: int, v: Byte)
      requires Valid() && op in Alive() && op + OVERHEAD <= x < op + Extent(blocks[op], pagebucket)
      modifies this`mem
      ensures Valid() == true && Alive() == old(Alive())
      ensures At(mem, x) == v && forall y :: y != x ==> At(mem, y) == At(old(mem), y)
    {
      Within(op, x);
      BodyStore(mem, mem[x := v], blocks, top, pagebucket, op);
      mem := mem[x := v];
    }

    lemma Within(op: int, x: int)
      requires Valid() && op in blocks && op + OVERHEAD <= x < op + Extent(blocks[op], pagebucket)
      ensures 0 < x < top && Laid(blocks, top, pagebucket)
    {
    }

    /** `bcopy(src, dst, n)` into a block from a place that it does not overlap. */
    method Bcopy(src: int, dst: int, n: nat)
      requires Valid() && dst - OVERHEAD in Alive() && n <= Capacity(blocks[dst - OVERHEAD], pagebucket)
      requires src + n <= dst || dst + n <= src
      modifies this`mem
      ensures Valid() == true && Alive() == old(Alive()) && Carried(src, dst, n)
    {
      hide Stored, HeadersOf, Live, At, Extent;
      for k := 0 to n
        invariant Valid() == true && Alive() == old(Alive()) && Carried(src, dst, k)
      {
        ghost var was := mem;
        assert At(mem, src + k) == At(old(mem), src + k);
        Put(dst - OVERHEAD, dst + k, At(mem, src + k));
        assert forall x :: x != dst + k ==> At(mem, x) == At(was, x);
      }
    }

    /** The first `n` bytes at `src` are now at `dst`, and no other byte has changed. */
    twostate predicate Carried(src: int, dst: int, n: int)
      reads this
    {
      Arrived(old(mem), mem, src, dst, n) && Elsewhere(old(mem), mem, dst, n)
    }

    /** The first `n` bytes at `src` are now at `dst`, and no other byte of the
        blocks there were has changed. */
    twostate predicate Brought(src: int, dst: int, n: int)
      reads this
    {
      Arrived(old(mem), mem, src, dst, n) && KeptBut(old(blocks), old(mem), mem, pagebucket, dst, n)
    }

    /** The block at `cp` is live no more, and if `r` is not zero the block there
        is, with room for `nbytes`. */
    twostate predicate Moved(cp: int, r: int, nbytes: nat)
      reads this
    {
      && SameBlocks(old(blocks), blocks)
      && (r == 0 ==> Alive() == old(Alive()) - {cp - OVERHEAD} && BlocksKept())
      && (r != 0 ==> Alive() == old(Alive()) - {cp - OVERHEAD} + {r - OVERHEAD})
      && (r != 0 ==> r == cp || r - OVERHEAD !in old(Alive()))
      && (r != 0 ==> r - OVERHEAD in blocks && nbytes <= Capacity(blocks[r - OVERHEAD], pagebucket))
    }

    /** `realloc(cp, nbytes)`. A live block moves unless its bucket is still the right
        one, and what both sizes have room for moves with it, although the old block
        is freed first. Of a block that is free already the bytes come back if it is
        the one of its bucket that was freed last; otherwise nothing is copied. */
    method Realloc(cp: int, nbytes: nat) returns (r: int)
      requires Valid() && nbytes < TWO32 && (cp == 0 || cp - OVERHEAD in blocks)
      modifies this, nextf, nmalloc
      ensures Valid() == true && Moved(cp, r, nbytes)
      ensures Brought(cp, r, if r == 0 || cp == 0 || !old(Known(cp)) then 0
                             else Min(nbytes, Capacity(old(blocks)[cp - OVERHEAD], pagebucket)))
    {
      hide Stored, Kept, HeadersOf, Live, Size, Arrived, KeptBut, SameBlocks, Known;
      if cp == 0 {
        NoBlock();
        assert Alive() - {cp - OVERHEAD} == Alive();
        r := Alloc(nbytes);
        Stay(old(blocks), old(mem), blocks, mem, cp, r, 0, pagebucket);
        KeptBlocks(old(blocks), old(mem), blocks, mem, pagebucket);
      } else {
        LiveByte(cp - OVERHEAD);
        KnownIs(cp);
        if At(mem, cp - OVERHEAD) == MAGIC {
          r := ReallocLive(cp, nbytes);
        } else {
          r := ReallocFree(cp, nbytes);
        }
      }
    }

    /** A live block, or the first of its free list. */
    ghost predicate Known(cp: int)
      reads this, nextf
    {
      cp - OVERHEAD in Alive()
      || (cp - OVERHEAD in blocks && blocks[cp - OVERHEAD] < nextf.Length && nextf[blocks[cp - OVERHEAD]] == cp - OVERHEAD)
    }

    lemma KnownIs(cp: int)
      requires Valid() && cp - OVERHEAD in blocks
      ensures blocks[cp - OVERHEAD] < nextf.Length
      ensures Known(cp) <==> cp - OVERHEAD in Alive() || nextf[blocks[cp - OVERHEAD]] == cp - OVERHEAD
    {
    }

    /** `findbucket(freep, srchlen)` */
    method Findbucket(freep: int, srchlen: int) returns (i: int)
      requires Valid() && freep in blocks
      ensures -1 <= i < NBUCKETS
      ensures i >= 0 ==> exists k :: ListedAt(i, k, freep) && (srchlen < 0 || k < srchlen)
      ensures i == -1 ==> forall b, k :: ListedAt(b, k, freep) ==> 0 <= srchlen <= k
    {
      hide Stored;
      ListFacts(0);
      i := 0;
      while i < NBUCKETS
        invariant 0 <= i <= NBUCKETS
        invariant forall b, k :: b < i && ListedAt(b, k, freep) ==> 0 <= srchlen <= k
      {
        ListFacts(i);
        var j := 0;
        var p := nextf[i];
        while p != 0 && j != srchlen
          invariant 0 <= j <= |lists[i]| && p == (if j < |lists[i]| then lists[i][j] else 0)
          invariant forall k :: k < j && ListedAt(i, k, freep) ==> 0 <= srchlen <= k
          invariant srchlen < 0 || j <= srchlen
          decreases |lists[i]| - j
        {
          if p == freep {
            assert ListedAt(i, j, freep);
            return;
          }
          p := Long(mem, p);
          j := j + 1;
        }
        i := i + 1;
      }
      i := -1;
    }

    /** Element `k` of free list `b` */
    ghost predicate ListedAt(b: int, k: int, op: int)
      reads this`lists
    {
      0 <= b < |lists| && 0 <= k < |lists[b]| && lists[b][k] == op
    }

    /** A free list can be followed from its head. */
    lemma ListFacts(i: nat)
      requires Valid() && i < NBUCKETS
      ensures |lists| == NBUCKETS && nextf[i] == (if lists[i] == [] then 0 else lists[i][0])
      ensures forall j :: 0 <= j < |lists[i]| ==> lists[i][j] != 0 && Long(mem, lists[i][j]) == if j + 1 < |lists[i]| then lists[i][j + 1] else 0
    {
      var hdr := HeadersOf(mem, blocks);
      assert FreeList(blocks, hdr, lists[i], i, nextf[..][i]);
      forall j | 0 <= j < |lists[i]|
        ensures lists[i][j] != 0 && Long(mem, lists[i][j]) == if j + 1 < |lists[i]| then lists[i][j + 1] else 0
      {
        assert Link(blocks, hdr, lists[i], i, j);
      }
    }

    /** The first search finds exactly the first block of a free list, in its bucket. */
    lemma FirstOnly(op: int, i: int)
      requires Valid() && op in blocks
      requires i >= 0 ==> exists k :: ListedAt(i, k, op) && k < 1
      requires i == -1 ==> forall b, k :: ListedAt(b, k, op) ==> 1 <= k
      requires -1 <= i < NBUCKETS
      ensures i >= 0 ==> i == blocks[op] && nextf[blocks[op]] == op
      ensures i < 0 ==> blocks[op] < NBUCKETS && nextf[blocks[op]] != op
    {
      var hdr := HeadersOf(mem, blocks);
      if i >= 0 {
        ListFacts(i);
        assert FreeList(blocks, hdr, lists[i], i, nextf[..][i]);
        assert Link(blocks, hdr, lists[i], i, 0);
      } else {
        ListFacts(blocks[op]);
        if nextf[blocks[op]] == op {
          BlockInside(blocks, top, pagebucket, op);
          assert ListedAt(blocks[op], 0, op);
        }
      }
    }

    lemma NoBucket()
      requires pagesz == Size(pagebucket)
      ensures Pow2((-1 + 3) % TWO32) == OVERHEAD < pagesz
    {
      Pow2Monotone(3, pagebucket + 3);
    }

    /** `realloc` of a block that is free already. The test for a failed search is made
        on an unsigned number, so the second, longer search is never made; then 4 bytes
        are taken for the size of the block, and nothing is left of them. */
    method ReallocFree(cp: int, nbytes: nat) returns (r: int)
      requires Valid() && nbytes < TWO32 && cp - OVERHEAD in blocks && cp - OVERHEAD !in Alive()
      modifies this, nextf, nmalloc
      ensures Valid() == true && Moved(cp, r, nbytes) == true
      ensures Brought(cp, r, if r == 0 || !old(Known(cp)) then 0
                             else Min(nbytes, Capacity(old(blocks)[cp - OVERHEAD], pagebucket))) == true
    {
      hide Stored, Kept, HeadersOf, Live, Size, Arrived, KeptBut, SameBlocks, Elsewhere, Known, ListedAt;
      var op := cp - OVERHEAD;
      KnownIs(cp);
      var i := Findbucket(op, 1);
      FirstOnly(op, i);
      var onb := 0;
      if i >= 0 {
        onb := Usable(i);
      } else {
        NoBucket();
        onb := Pow2((i + 3) % TWO32);
        onb := if onb < pagesz then onb - OVERHEAD else onb + (pagesz - OVERHEAD);
      }
      assert Alive() - {op} == Alive();
      r := Alloc(nbytes);
      KeptBlocks(old(blocks), old(mem), blocks, mem, pagebucket);
      if r == 0 || cp == r {
        Stay(old(blocks), old(mem), blocks, mem, cp, r, if r == 0 || i < 0 then 0 else Min(nbytes, onb), pagebucket);
      } else {
        BlockAt(op, old(blocks));
        BlocksApart(op, r - OVERHEAD);
        label M:
        Bcopy(cp, r, if nbytes < onb then nbytes else onb);
        Bring(old(blocks), old(mem), old@M(blocks), old@M(mem), mem, cp, r, Min(nbytes, onb), pagebucket);
      }
    }

    lemma NoBlock()
      requires Valid()
      ensures -OVERHEAD !in Alive()
    {
      if -OVERHEAD in blocks {
        BlockInside(blocks, top, pagebucket, -OVERHEAD);
      }
    }

    /** `realloc` from its test of the magic number on. */
    method ReallocLive(cp: int, nbytes: nat) returns (r: int)
      requires Valid() && nbytes < TWO32 && cp - OVERHEAD in Alive()
      modifies this, nextf, nmalloc
      ensures Valid() == true && Moved(cp, r, nbytes) == true
      ensures Brought(cp, r, if r == 0 then 0 else Min(nbytes, Capacity(old(blocks)[cp - OVERHEAD], pagebucket))) == true
    {
      var op := cp - OVERHEAD;
      LiveBucket(op);
      hide Stored, Kept, HeadersOf, Live, Size, Arrived, KeptBut, SameBlocks, At;
      var i := At(mem, op + 1);
      var onb := Usable(i);
      var low := i;
      if i != 0 {
        low := Usable(i - 1);
      }
      if nbytes <= onb && nbytes > low {
        assert Alive() - {op} + {op} == Alive();
        KeptSelf(blocks, mem, pagebucket);
        Stay(blocks, mem, blocks, mem, cp, cp, nbytes, pagebucket);
        KeptBlocks(blocks, mem, blocks, mem, pagebucket);
        return cp;
      }
      r := Move(cp, nbytes, onb);
    }

    /** The header of a live block names its bucket. */
    lemma LiveBucket(op: int)
      requires Valid() && op in Alive()
      ensures op in blocks && At(mem, op + 1) == blocks[op]
    {
      HeaderBytes(mem, blocks, op);
      assert HeaderTells(blocks, HeadersOf(mem, blocks), lists, op);
    }

    /** What a block of bucket `i` has room for, as `realloc` computes it. */
    method Usable(i: nat) returns (n: int)
      requires pagebucket <= 26 && pagesz == Size(pagebucket)
      ensures n == Capacity(i, pagebucket)
    {
      SmallBlocks(i);
      n := Size(i);
      if n < pagesz {
        n := n - OVERHEAD;
      } else {
        n := n + (pagesz - OVERHEAD);
      }
    }

    /** The part of `realloc` that frees, allocates and copies. */
    method Move(cp: int, nbytes: nat, onb: int) returns (r: int)
      requires Valid() == true && nbytes < TWO32 && cp - OVERHEAD in Alive() && cp - OVERHEAD in blocks
      requires onb == Capacity(blocks[cp - OVERHEAD], pagebucket)
      modifies this, nextf, nmalloc
      ensures Valid() == true && Moved(cp, r, nbytes) == true
      ensures Brought(cp, r, if r == 0 then 0 else Min(nbytes, onb)) == true
    {
      hide Stored, Kept, HeadersOf, Live, Size, Arrived, KeptBut, SameBlocks, Elsewhere;
      Free(cp);
      label L:
      r := Alloc(nbytes);
      KeptTwice(old(blocks), old(mem), old@L(blocks), old@L(mem), blocks, mem, pagebucket);
      KeptBlocks(old(blocks), old(mem), blocks, mem, pagebucket);
      if r == 0 || cp == r {
        Stay(old(blocks), old(mem), blocks, mem, cp, r, if r == 0 then 0 else Min(nbytes, onb), pagebucket);
      } else {
        BlockAt(cp - OVERHEAD, old(blocks));
        BlocksApart(cp - OVERHEAD, r - OVERHEAD);
        label M:
        Bcopy(cp, r, if nbytes < onb then nbytes else onb);
        Bring(old(blocks), old(mem), old@M(blocks), old@M(mem), mem, cp, r, Min(nbytes, onb), pagebucket);
      }
    }

    lemma BlockAt(a: int, before: Blocks)
      requires SameBlocks(before, blocks) && a in before
      ensures a in blocks && blocks[a] == before[a]
    {
    }

    /** Different blocks, and the bytes their callers may use, never overlap. */
    lemma BlocksApart(a: int, b: int)
      requires Valid() && a in blocks && b in blocks && a != b
      ensures a + OVERHEAD + Capacity(blocks[a], pagebucket) <= b || b + OVERHEAD + Capacity(blocks[b], pagebucket) <= a
      ensures Capacity(blocks[a], pagebucket) >= 4 && Capacity(blocks[b], pagebucket) >= 4
    {
      Apart(blocks, top, pagebucket, a, b);
    }

    lemma BucketAtMost(nbytes: nat, bucket: nat, pb: nat)
      requires forall b: nat :: b < bucket ==> nbytes > Capacity(b, pb)
      ensures nbytes <= Capacity(27, pb) ==> bucket <= 27
      ensures bucket <= 27 ==> Extent(bucket, pb) <= Size(27) + Size(pb)
    {
      if bucket <= 27 {
        Pow2Monotone(bucket + 3, 30);
      }
    }

    lemma SmallBlocks(bucket: nat)
      requires pagebucket <= 26 && pagesz == Size(pagebucket)
      ensures Size(bucket) < pagesz <==> bucket < pagebucket
      ensures pagesz / Size(bucket) * Size(bucket) <= pagesz
      ensures bucket < pagebucket ==> pagesz / Size(bucket) >= 1
    {
      if bucket < pagebucket {
        Pow2Monotone(bucket + 3, pagebucket + 3);
      } else {
        Pow2Monotone(pagebucket + 3, bucket + 3);
      }
      Quotient(pagesz, Size(bucket));
    }
  }
}
