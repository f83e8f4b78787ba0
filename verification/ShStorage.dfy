/** Storage of the Bourne shell: the circular first-fit heap (bin/sh/blok.c)
    below the growing stack (bin/sh/stak.c).  An invariant written `P == true`
    is meant to be proved in one piece. */
module ShStorage {

  const WORD := 4
  const BRKINCR := 512
  const BRKMAX := 2048

  /** A pointer stored in memory, with the low bit that marks a busy block. */
  datatype Cell = Cell(to: int, busy: bool)

  /** `round(a, BYTESPERWORD)` */
  function Round(a: int): int {
    (a + WORD - 1) / WORD * WORD
  }

  lemma RoundUp(a: int)
    ensures Round(a) % WORD == 0 && a <= Round(a) < a + WORD
  {
  }

  /** Bitwise and of two unsigned numbers. */
  function BitAnd(x: nat, y: nat): nat
    decreases x
  {
    if x == 0 then 0 else x % 2 * (y % 2) + 2 * BitAnd(x / 2, y / 2)
  }

  /** `x & ~(m - 1)` */
  function MaskOff(x: nat, m: nat): int
    requires m > 0
  {
    x - BitAnd(x, m - 1)
  }

  lemma {:induction false} BitAndBounds(x: nat, y: nat)
    ensures BitAnd(x, y) <= x && BitAnd(x, y) <= y
  {
    if x != 0 {
      BitAndBounds(x / 2, y / 2);
    }
  }

  lemma BitAndLow(x: nat, y: nat)
    requires y % 4 == 3
    ensures (x - BitAnd(x, y)) % 4 == 0
  {
    if x != 0 {
      var a := BitAnd(x / 2, y / 2);
      assert x % 2 * (y % 2) == x % 2;
      if x / 2 != 0 {
        assert x / 2 % 2 * (y / 2 % 2) == x / 2 % 2;
      }
    }
  }

  lemma WholeWords(n: nat)
    requires n % 256 == 0
    ensures n % 4 == 0
  {
    var m := n / 256;
    assert n == 256 * m;
    assert n / 4 == 64 * m;
  }

  /** Rounding up to the increment leaves more than was asked for, in whole
      words, whether or not the increment is a power of two. */
  lemma MaskOffEnough(reqd: nat, incr: nat)
    requires incr > 0 && incr % 4 == 0
    ensures reqd < MaskOff(reqd + incr, incr) <= reqd + incr
    ensures MaskOff(reqd + incr, incr) % 4 == 0
  {
    BitAndBounds(reqd + incr, incr - 1);
    assert (incr - 1) % 4 == 3;
    BitAndLow(reqd + incr, incr - 1);
    hide BitAnd;
  }

  ghost predicate Ascending(s: seq<int>) {
    forall i, j :: 0 <= i < j < |s| ==> s[i] < s[j]
  }

  type Memory = map<int, Cell>

  function Last(s: seq<int>): int {
    if s == [] then 0 else s[|s| - 1]
  }

  /** Two memories agree below an address. */
  ghost predicate SameBelow<T>(m: map<int, T>, m': map<int, T>, limit: int) {
    forall x :: x < limit ==> (x in m <==> x in m') && (x in m ==> m'[x] == m[x])
  }

  /** Two memories agree from an address on. */
  ghost predicate SameAbove<T>(m: map<int, T>, m': map<int, T>, limit: int) {
    forall x :: x >= limit ==> (x in m <==> x in m') && (x in m ==> m'[x] == m[x])
  }

  /** The bytes from `a` up to `b` are what they were. */
  ghost predicate SameBytes(m: map<int, int>, m': map<int, int>, a: int, b: int) {
    forall x :: a <= x < b ==> (x in m <==> x in m') && (x in m ==> m'[x] == m[x])
  }

  /** So are the bytes of all busy blocks. */
  ghost predicate SameBlocks(busy: map<int, int>, m: map<int, int>, m': map<int, int>) {
    forall h :: h in busy ==> SameBytes(m, m', h, busy[h])
  }

  /** Nothing has happened to the bytes of busy blocks and above the top. */
  ghost predicate Aside(busy: map<int, int>, top: int, m: map<int, int>, m': map<int, int>) {
    SameBlocks(busy, m, m') && SameAbove(m, m', top)
  }

  lemma AsideTwice(busy: map<int, int>, top: int, m0: map<int, int>, m1: map<int, int>, m2: map<int, int>)
    requires Aside(busy, top, m0, m1) && Aside(busy, top, m1, m2)
    ensures Aside(busy, top, m0, m2)
  {
    SameBlocksTwice(busy, m0, m1, m2);
  }

  lemma AsideSelf(busy: map<int, int>, top: int, m: map<int, int>)
    ensures Aside(busy, top, m, m)
  {
  }

  lemma SameBlocksTwice(busy: map<int, int>, m0: map<int, int>, m1: map<int, int>, m2: map<int, int>)
    requires SameBlocks(busy, m0, m1) && SameBlocks(busy, m1, m2)
    ensures SameBlocks(busy, m0, m2)
  {
    forall h | h in busy ensures SameBytes(m0, m2, h, busy[h]) {
      assert SameBytes(m0, m1, h, busy[h]) && SameBytes(m1, m2, h, busy[h]);
    }
  }

  /** A string of `n` characters starts at `a`. */
  ghost predicate NulTerminated(bytes: map<int, int>, a: int, n: nat) {
    forall x :: a <= x <= a + n ==> x in bytes && (bytes[x] == 0 <==> x == a + n)
  }

  /** The characters from `a` up to `b`. */
  ghost function Text(bytes: map<int, int>, a: int, b: int): seq<int> {
    if b <= a then [] else seq(b - a, i requires 0 <= i < b - a => if a + i in bytes then bytes[a + i] else 0)
  }

  lemma SameText(m: map<int, int>, a: int, b: int, m': map<int, int>, a': int, b': int)
    requires b - a == b' - a'
    requires forall x :: a' <= x < b' ==> x in m' && x - a' + a in m && m'[x] == m[x - a' + a]
    ensures Text(m', a', b') == Text(m, a, b)
  {
    forall i | 0 <= i < b - a ensures Text(m', a', b')[i] == Text(m, a, b)[i] {
      assert a' + i in m' && m'[a' + i] == m[a + i];
    }
  }

  lemma TextIs(m: map<int, int>, a: int, s: seq<int>)
    requires forall x :: a <= x < a + |s| ==> x in m && m[x] == s[x - a]
    ensures Text(m, a, a + |s|) == s
  {
    forall i | 0 <= i < |s| ensures Text(m, a, a + |s|)[i] == s[i] {
      assert a + i in m && m[a + i] == s[i];
    }
  }

  /** A string whose first NUL comes after `n` characters. */
  lemma ItemTerminated(bytes: map<int, int>, a: int, b: int, n: nat)
    requires n < |Text(bytes, a, b)| && Text(bytes, a, b)[n] == 0
    requires forall i :: 0 <= i < n ==> Text(bytes, a, b)[i] != 0
    requires forall x :: a <= x < b ==> x in bytes
    ensures NulTerminated(bytes, a, n)
    ensures Text(bytes, a, a + n) == Text(bytes, a, b)[..n]
  {
    forall x | a <= x <= a + n ensures x in bytes && (bytes[x] == 0 <==> x == a + n) {
      assert Text(bytes, a, b)[x - a] == bytes[x];
    }
  }

  /** The headers `blocks` are linked in address order, starting at `end`. */
  ghost predicate Linked(end: int, word: Memory, blocks: seq<int>) {
    && blocks != [] && blocks[0] == end && Ascending(blocks)
    && (forall i :: 0 <= i < |blocks| ==> blocks[i] % WORD == 0)
    && (forall i :: 0 <= i < |blocks| - 1 ==> blocks[i] in word && word[blocks[i]].to == blocks[i + 1])
  }

  /** The busy blocks: from where to where.  The last header belongs to no block. */
  ghost function BusyBlocks(word: Memory, blocks: seq<int>): map<int, int> {
    map h | h in blocks && h != Last(blocks) && h in word && word[h].busy :: word[h].to
  }

  /** The covered stack blocks are busy blocks, chained downwards through their second words. */
  ghost predicate Chained(word: Memory, busy: map<int, int>, head: int, covered: seq<int>) {
    && head == (if covered == [] then 0 else covered[0])
    && (forall i, j :: 0 <= i < j < |covered| ==> covered[i] > covered[j])
    && (forall i :: 0 <= i < |covered| ==> IsCovered(word, busy, covered, i))
  }

  ghost predicate IsCovered(word: Memory, busy: map<int, int>, covered: seq<int>, i: nat)
    requires i < |covered|
  {
    var c := covered[i];
    && c > 0 && c in word && c - WORD in busy && c < busy[c - WORD]
    && word[c].to == if i + 1 < |covered| then covered[i + 1] else 0
  }

  /** `word'` is `word` with cell `c` in the last header. */
  ghost predicate Extends(word: Memory, word': Memory, blocks: seq<int>, c: Cell) {
    && Last(blocks) in word' && word'[Last(blocks)] == c
    && (forall h :: h in blocks && h != Last(blocks) ==> h in word && h in word' && word'[h] == word[h])
  }

  /** A busy or free block appended at the top. */
  lemma AppendLinked(end: int, word: Memory, word': Memory, blocks: seq<int>, c: Cell)
    requires Linked(end, word, blocks) && c.to > Last(blocks) && c.to % WORD == 0
    requires Extends(word, word', blocks, c)
    ensures Linked(end, word', blocks + [c.to])
  {
    var b := blocks + [c.to];
    forall i | 0 <= i < |b| - 1 ensures b[i] in word' && word'[b[i]].to == b[i + 1] {
      if i < |blocks| - 1 {
        assert blocks[i] in blocks && blocks[i] < Last(blocks);
      }
    }
  }

  lemma AppendBusy(end: int, word: Memory, word': Memory, blocks: seq<int>, c: Cell)
    requires Linked(end, word, blocks) && c.to > Last(blocks)
    requires Extends(word, word', blocks, c)
    ensures BusyBlocks(word', blocks + [c.to])
         == if c.busy then BusyBlocks(word, blocks)[Last(blocks) := c.to] else BusyBlocks(word, blocks)
  {
    HeadersBelow(end, word, blocks);
    assert Last(blocks + [c.to]) == c.to;
    assert forall h :: h in blocks + [c.to] <==> h in blocks || h == c.to;
    assert Last(blocks) in blocks;
  }

  lemma ChainFrame(word: Memory, word': Memory, busy: map<int, int>, busy': map<int, int>, head: int, covered: seq<int>)
    requires Chained(word, busy, head, covered)
    requires forall c :: c in covered ==> c in word && c in word' && word'[c] == word[c]
    requires forall c :: c in covered ==> c - WORD in busy && c - WORD in busy' && busy'[c - WORD] == busy[c - WORD]
    ensures Chained(word', busy', head, covered)
  {
    forall i | 0 <= i < |covered| ensures IsCovered(word', busy', covered, i) {
      assert covered[i] in covered && IsCovered(word, busy, covered, i);
    }
  }

  lemma HeadersBelow(end: int, word: Memory, blocks: seq<int>)
    requires Linked(end, word, blocks)
    ensures forall h :: h in blocks ==> end <= h <= Last(blocks) && h % WORD == 0
  {
    forall h | h in blocks ensures end <= h <= Last(blocks) && h % WORD == 0 {
      var i :| 0 <= i < |blocks| && blocks[i] == h;
      assert blocks[0] <= blocks[i];
    }
  }

  lemma HeadersInWord(end: int, word: Memory, blocks: seq<int>)
    requires Linked(end, word, blocks)
    ensures forall h :: h in blocks && h != Last(blocks) ==> h in word
  {
    forall h | h in blocks && h != Last(blocks) ensures h in word {
      var i :| 0 <= i < |blocks| && blocks[i] == h;
      assert i < |blocks| - 1;
    }
  }

  /** What a header is linked to lies within the arena, above the header. */
  lemma BusyInside(end: int, word: Memory, blocks: seq<int>, h: int)
    requires Linked(end, word, blocks) && h in BusyBlocks(word, blocks)
    ensures end <= h < word[h].to <= Last(blocks) && BusyBlocks(word, blocks)[h] == word[h].to
  {
    var i :| 0 <= i < |blocks| && blocks[i] == h;
    assert i < |blocks| - 1;
    assert blocks[0] <= blocks[i] < blocks[i + 1] <= blocks[|blocks| - 1];
  }

  /** No header lies inside a block. */
  lemma NoHeaderInside(end: int, word: Memory, blocks: seq<int>, h: int, x: int)
    requires Linked(end, word, blocks) && h in BusyBlocks(word, blocks)
    requires h < x < word[h].to
    ensures x !in blocks
  {
    var i :| 0 <= i < |blocks| && blocks[i] == h;
    forall j | 0 <= j < |blocks| ensures blocks[j] != x {
      if j > i + 1 {
        assert blocks[i + 1] < blocks[j];
      } else if j < i {
        assert blocks[j] < blocks[i];
      }
    }
  }

  /** The links of the chain lie inside blocks. */
  lemma CoveredInside(end: int, word: Memory, blocks: seq<int>, head: int, covered: seq<int>)
    requires Linked(end, word, blocks) && Chained(word, BusyBlocks(word, blocks), head, covered)
    ensures forall c :: c in covered ==> c < Last(blocks) && c !in blocks && c in word
  {
    forall c | c in covered ensures c < Last(blocks) && c !in blocks && c in word {
      var i :| 0 <= i < |covered| && covered[i] == c;
      assert IsCovered(word, BusyBlocks(word, blocks), covered, i);
      BusyInside(end, word, blocks, c - WORD);
      NoHeaderInside(end, word, blocks, c - WORD, c);
    }
  }

  lemma ChainPush(word: Memory, busy: map<int, int>, head: int, covered: seq<int>, c: int)
    requires Chained(word, busy, head, covered)
    requires c > 0 && c in word && c - WORD in busy && c < busy[c - WORD] && word[c].to == head
    requires forall d :: d in covered ==> d < c
    ensures Chained(word, busy, c, [c] + covered)
  {
    var cs := [c] + covered;
    forall i, j | 0 <= i < j < |cs| ensures cs[i] > cs[j] {
      assert cs[j] == covered[j - 1] && covered[j - 1] in covered;
      if i > 0 {
        assert cs[i] == covered[i - 1];
      }
    }
    forall i | 0 <= i < |cs| ensures IsCovered(word, busy, cs, i) {
      if i > 0 {
        assert IsCovered(word, busy, covered, i - 1);
      }
    }
  }

  /** The memory after a non-empty stack at the top has become a busy block
      whose first free word links it into the chain. */
  function CoveredMemory(word: Memory, top: int, chain: int, rndstak: int, item: int): Memory {
    (word - {item - item % WORD})[top + WORD := Cell(chain, false)][top := Cell(rndstak, true)]
  }

  lemma CoverFacts(end: int, word: Memory, blocks: seq<int>, chain: int, covered: seq<int>, rndstak: int, item: int)
    requires Linked(end, word, blocks) && Chained(word, BusyBlocks(word, blocks), chain, covered)
    requires end > 0 && item >= Last(blocks) + 2 * WORD && rndstak > item && rndstak % WORD == 0
    ensures var word' := CoveredMemory(word, Last(blocks), chain, rndstak, item);
      && Linked(end, word', blocks + [rndstak])
      && BusyBlocks(word', blocks + [rndstak]) == BusyBlocks(word, blocks)[Last(blocks) := rndstak]
      && Chained(word', BusyBlocks(word', blocks + [rndstak]), Last(blocks) + WORD, [Last(blocks) + WORD] + covered)
  {
    var top, c := Last(blocks), Last(blocks) + WORD;
    var word' := CoveredMemory(word, top, chain, rndstak, item);
    HeadersBelow(end, word, blocks);
    HeadersInWord(end, word, blocks);
    CoveredInside(end, word, blocks, chain, covered);
    assert Last(blocks) in blocks;
    assert Extends(word, word', blocks, Cell(rndstak, true));
    AppendLinked(end, word, word', blocks, Cell(rndstak, true));
    AppendBusy(end, word, word', blocks, Cell(rndstak, true));
    CoverChain(word, word', BusyBlocks(word, blocks), top, rndstak, chain, covered);
  }

  lemma CoverChain(word: Memory, word': Memory, busy: map<int, int>, top: int, rndstak: int, chain: int, covered: seq<int>)
    requires Chained(word, busy, chain, covered) && top > 0 && top + WORD < rndstak
    requires forall c :: c in covered ==> c < top && c in word && c in word' && word'[c] == word[c]
    requires top + WORD in word' && word'[top + WORD].to == chain
    ensures Chained(word', busy[top := rndstak], top + WORD, [top + WORD] + covered)
  {
    forall c | c in covered ensures c - WORD in busy {
      var i :| 0 <= i < |covered| && covered[i] == c;
      assert IsCovered(word, busy, covered, i);
    }
    ChainFrame(word, word', busy, busy[top := rndstak], chain, covered);
    ChainPush(word', busy[top := rndstak], chain, covered, top + WORD);
  }

  /** A free block added at the top. */
  lemma ExtendFacts(end: int, word: Memory, word': Memory, blocks: seq<int>, chain: int, covered: seq<int>, size: int)
    requires Linked(end, word, blocks) == true && Chained(word, BusyBlocks(word, blocks), chain, covered) == true
    requires size > 0 && size % WORD == 0
    requires SameBelow(word, word', Last(blocks))
    requires Last(blocks) in word' && word'[Last(blocks)] == Cell(Last(blocks) + size, false)
    ensures Linked(end, word', blocks + [Last(blocks) + size])
    ensures BusyBlocks(word', blocks + [Last(blocks) + size]) == BusyBlocks(word, blocks)
    ensures Chained(word', BusyBlocks(word, blocks), chain, covered)
  {
    var c := Cell(Last(blocks) + size, false);
    assert blocks != [] && Last(blocks) % WORD == 0;
    ExtendSteps(end, word, word', blocks, c);
    ExtendChain(end, word, word', blocks, chain, covered);
  }

  lemma ExtendSteps(end: int, word: Memory, word': Memory, blocks: seq<int>, c: Cell)
    requires Linked(end, word, blocks) && blocks != [] && c.to > Last(blocks) && c.to % WORD == 0 && !c.busy
    requires SameBelow(word, word', Last(blocks)) && Last(blocks) in word' && word'[Last(blocks)] == c
    ensures Linked(end, word', blocks + [c.to]) && BusyBlocks(word', blocks + [c.to]) == BusyBlocks(word, blocks)
  {
    hide Linked, BusyBlocks;
    HeadersBelow(end, word, blocks);
    HeadersInWord(end, word, blocks);
    assert Last(blocks) in blocks;
    assert Extends(word, word', blocks, c);
    AppendLinked(end, word, word', blocks, c);
    AppendBusy(end, word, word', blocks, c);
  }

  lemma ExtendChain(end: int, word: Memory, word': Memory, blocks: seq<int>, chain: int, covered: seq<int>)
    requires Linked(end, word, blocks) && Chained(word, BusyBlocks(word, blocks), chain, covered)
    requires SameBelow(word, word', Last(blocks))
    ensures Chained(word', BusyBlocks(word, blocks), chain, covered)
  {
    hide Linked, BusyBlocks, Chained;
    CoveredInside(end, word, blocks, chain, covered);
    CoveredBusy(word, BusyBlocks(word, blocks), chain, covered);
    ChainFrame(word, word', BusyBlocks(word, blocks), BusyBlocks(word, blocks), chain, covered);
  }

  /** A free block swallows the free block after it: no busy block changes. */
  lemma MergeFacts(end: int, word: Memory, blocks: seq<int>, k: nat, chain: int, covered: seq<int>)
    requires Linked(end, word, blocks) == true && Chained(word, BusyBlocks(word, blocks), chain, covered) == true
    requires k + 2 < |blocks|
    requires !word[blocks[k]].busy && !word[blocks[k + 1]].busy
    ensures var word', blocks' := word[blocks[k] := word[blocks[k + 1]]], blocks[..k + 1] + blocks[k + 2..];
      && Linked(end, word', blocks') && Last(blocks') == Last(blocks)
      && BusyBlocks(word', blocks') == BusyBlocks(word, blocks)
      && Chained(word', BusyBlocks(word, blocks), chain, covered)
  {
    var word', blocks' := word[blocks[k] := word[blocks[k + 1]]], blocks[..k + 1] + blocks[k + 2..];
    MergeLinked(end, word, blocks, k);
    MergeBusy(end, word, blocks, k);
    CoveredInside(end, word, blocks, chain, covered);
    CoveredBusy(word, BusyBlocks(word, blocks), chain, covered);
    assert blocks[k] in blocks;
    ChainFrame(word, word', BusyBlocks(word, blocks), BusyBlocks(word, blocks), chain, covered);
  }

  /** What `Merge` leaves, seen from the two headers. */
  lemma MergeAt(end: int, word: Memory, blocks: seq<int>, p: int, q: int, chain: int, covered: seq<int>) returns (blocks': seq<int>)
    requires Linked(end, word, blocks) == true && Chained(word, BusyBlocks(word, blocks), chain, covered) == true
    requires p in blocks && p != Last(blocks) && p in word && word[p] == Cell(q, false) && q in word && !word[q].busy
    requires Last(blocks) in word && word[Last(blocks)].busy
    ensures var word' := word[p := word[q]];
      && Linked(end, word', blocks') && Last(blocks') == Last(blocks) && BusyBlocks(word', blocks') == BusyBlocks(word, blocks)
      && Chained(word', BusyBlocks(word, blocks), chain, covered)
    ensures p in blocks' && |blocks'| < |blocks| && p + WORD <= q < Last(blocks)
  {
    var k :| 0 <= k < |blocks| && blocks[k] == p;
    assert k + 1 < |blocks| && blocks[k + 1] == q && k + 2 < |blocks|;
    MergeFacts(end, word, blocks, k, chain, covered);
    blocks' := blocks[..k + 1] + blocks[k + 2..];
    assert blocks'[k] == p;
  }

  lemma MergeLinked(end: int, word: Memory, blocks: seq<int>, k: nat)
    requires Linked(end, word, blocks) && k + 2 < |blocks|
    ensures var word', blocks' := word[blocks[k] := word[blocks[k + 1]]], blocks[..k + 1] + blocks[k + 2..];
      Linked(end, word', blocks') && Last(blocks') == Last(blocks)
  {
    var word', b := word[blocks[k] := word[blocks[k + 1]]], blocks[..k + 1] + blocks[k + 2..];
    forall i | 0 <= i < |b| - 1 ensures b[i] in word' && word'[b[i]].to == b[i + 1] {
      if i < k {
        assert b[i] == blocks[i] < blocks[k];
      } else if i > k {
        assert b[i] == blocks[i + 1] > blocks[k];
      }
    }
  }

  lemma MergeBusy(end: int, word: Memory, blocks: seq<int>, k: nat)
    requires Linked(end, word, blocks) && k + 2 < |blocks|
    requires !word[blocks[k]].busy && !word[blocks[k + 1]].busy
    ensures var word', blocks' := word[blocks[k] := word[blocks[k + 1]]], blocks[..k + 1] + blocks[k + 2..];
      BusyBlocks(word', blocks') == BusyBlocks(word, blocks)
  {
    MergeMembers(end, word, blocks, k);
  }

  lemma MergeMembers(end: int, word: Memory, blocks: seq<int>, k: nat)
    requires Linked(end, word, blocks) && k + 2 < |blocks|
    ensures var b := blocks[..k + 1] + blocks[k + 2..];
      && Last(b) == Last(blocks) && blocks[k + 1] < Last(blocks)
      && (forall h :: h in b <==> h in blocks && h != blocks[k + 1])
  {
    var b := blocks[..k + 1] + blocks[k + 2..];
    forall h | h in blocks && h != blocks[k + 1] ensures h in b {
      var i :| 0 <= i < |blocks| && blocks[i] == h;
      assert h == b[if i <= k then i else i - 1];
    }
    forall h | h in b ensures h in blocks && h != blocks[k + 1] {
      var i :| 0 <= i < |b| && b[i] == h;
      assert h == blocks[if i <= k then i else i + 1];
    }
  }

  lemma CoveredBusy(word: Memory, busy: map<int, int>, chain: int, covered: seq<int>)
    requires Chained(word, busy, chain, covered)
    ensures forall d :: d in covered ==> d in word && d - WORD in busy && d < busy[d - WORD]
  {
    forall d | d in covered ensures d in word && d - WORD in busy && d < busy[d - WORD] {
      var i :| 0 <= i < |covered| && covered[i] == d;
      assert IsCovered(word, busy, covered, i);
    }
  }

  /** The memory after `size` bytes of the free block `p`, up to `q`, have become busy. */
  function TakenMemory(word: Memory, p: int, q: int, size: int): Memory {
    if q > p + size then word[p + size := Cell(q, false)][p := Cell(p + size, true)]
    else word[p := Cell(p + size, true)]
  }

  function TakenBlocks(blocks: seq<int>, k: nat, size: int): seq<int>
    requires k + 1 < |blocks|
  {
    if blocks[k + 1] > blocks[k] + size then blocks[..k + 1] + [blocks[k] + size] + blocks[k + 1..] else blocks
  }

  /** Taking the front of a free block adds exactly one busy block. */
  lemma TakeFacts(end: int, word: Memory, blocks: seq<int>, k: nat, size: int, chain: int, covered: seq<int>)
    requires Linked(end, word, blocks) == true && Chained(word, BusyBlocks(word, blocks), chain, covered) == true
    requires k + 1 < |blocks| && !word[blocks[k]].busy
    requires 0 < size <= blocks[k + 1] - blocks[k] && size % WORD == 0
    ensures var word', blocks' := TakenMemory(word, blocks[k], blocks[k + 1], size), TakenBlocks(blocks, k, size);
      && Linked(end, word', blocks') && Last(blocks') == Last(blocks)
      && BusyBlocks(word', blocks') == BusyBlocks(word, blocks)[blocks[k] := blocks[k] + size]
      && Chained(word', BusyBlocks(word', blocks'), chain, covered)
      && blocks[k] + size in blocks'
  {
    hide Linked, BusyBlocks, Chained, TakenBlocks;
    var word', blocks' := TakenMemory(word, blocks[k], blocks[k + 1], size), TakenBlocks(blocks, k, size);
    var busy, busy' := BusyBlocks(word, blocks), BusyBlocks(word', blocks');
    TakeLinked(end, word, blocks, k, size);
    TakeBusy(end, word, blocks, k, size);
    CoveredInside(end, word, blocks, chain, covered);
    CoveredBusy(word, busy, chain, covered);
    forall c | c in covered ensures c != blocks[k] && c != blocks[k] + size && c - WORD != blocks[k] {
      assert blocks[k] in blocks;
      BusyInside(end, word, blocks, c - WORD);
      TakeApart(end, word, blocks, k, size, c - WORD);
    }
    ChainFrame(word, word', busy, busy', chain, covered);
  }

  /** What `Take` leaves, seen from the two headers. */
  lemma TakeAt(end: int, word: Memory, blocks: seq<int>, k: nat, p: int, q: int, size: int, chain: int, covered: seq<int>)
    returns (blocks': seq<int>)
    requires Linked(end, word, blocks) == true && Chained(word, BusyBlocks(word, blocks), chain, covered) == true
    requires k + 1 < |blocks| && p == blocks[k] && q == blocks[k + 1] && !word[p].busy
    requires 0 < size <= q - p && size % WORD == 0
    ensures var word' := TakenMemory(word, p, q, size);
      && Linked(end, word', blocks') && Last(blocks') == Last(blocks)
      && BusyBlocks(word', blocks') == BusyBlocks(word, blocks)[p := p + size]
      && Chained(word', BusyBlocks(word', blocks'), chain, covered)
    ensures p + size in blocks' && p !in BusyBlocks(word, blocks)
  {
    TakeFacts(end, word, blocks, k, size, chain, covered);
    blocks' := TakenBlocks(blocks, k, size);
  }

  /** A free block lies apart from every busy block. */
  lemma TakeApart(end: int, word: Memory, blocks: seq<int>, k: nat, size: int, h: int)
    requires Linked(end, word, blocks) && k + 1 < |blocks| && !word[blocks[k]].busy
    requires 0 < size <= blocks[k + 1] - blocks[k] && h in BusyBlocks(word, blocks)
    ensures h != blocks[k] && (word[h].to <= blocks[k] || h >= blocks[k + 1])
  {
    var i :| 0 <= i < |blocks| && blocks[i] == h;
    if i < k {
      assert blocks[i + 1] <= blocks[k];
    } else if i > k {
      assert blocks[k + 1] <= blocks[i];
    }
  }

  /** Stores into a free block leave the bytes of busy blocks alone. */
  lemma FreeStores(end: int, word: Memory, blocks: seq<int>, p: int, q: int, m: map<int, int>, m': map<int, int>)
    requires Linked(end, word, blocks) && p in blocks && p != Last(blocks) && p in word && word[p] == Cell(q, false)
    requires forall x :: x < p || x >= q ==> (x in m <==> x in m') && (x in m ==> m'[x] == m[x])
    ensures Aside(BusyBlocks(word, blocks), Last(blocks), m, m')
  {
    var k :| 0 <= k < |blocks| && blocks[k] == p;
    var busy := BusyBlocks(word, blocks);
    assert k + 1 < |blocks| && blocks[k + 1] == q <= Last(blocks);
    forall h | h in busy ensures SameBytes(m, m', h, busy[h]) {
      TakeApart(end, word, blocks, k, q - p, h);
    }
  }

  function Insert(blocks: seq<int>, k: nat, x: int): seq<int>
    requires k + 1 < |blocks|
  {
    blocks[..k + 1] + [x] + blocks[k + 1..]
  }

  /** A new header between two neighbours. */
  lemma InsertFacts(blocks: seq<int>, k: nat, x: int)
    requires Ascending(blocks) && k + 1 < |blocks| && blocks[k] < x < blocks[k + 1]
    ensures var b := Insert(blocks, k, x);
      && |b| == |blocks| + 1
      && (forall i {:trigger b[i]} :: 0 <= i < |b| ==> b[i] == if i <= k then blocks[i] else if i == k + 1 then x else blocks[i - 1])
      && Ascending(b) && x !in blocks && Last(b) == Last(blocks) && blocks[k] != Last(blocks) && (forall h :: h in b <==> h in blocks || h == x)
  {
    var b := Insert(blocks, k, x);
    forall i, j | 0 <= i < j < |b| ensures b[i] < b[j] {
      if i <= k {
        assert b[i] <= blocks[k];
      }
      if j > k + 1 {
        assert blocks[k + 1] <= b[j];
      }
    }
    forall i | 0 <= i < |blocks| ensures blocks[i] != x {
      if i <= k {
        assert blocks[i] <= blocks[k];
      } else {
        assert blocks[k + 1] <= blocks[i];
      }
    }
    forall h | h in blocks ensures h in b {
      var i :| 0 <= i < |blocks| && blocks[i] == h;
      assert h == b[if i <= k then i else i + 1];
    }
  }

  lemma TakeLinked(end: int, word: Memory, blocks: seq<int>, k: nat, size: int)
    requires Linked(end, word, blocks) && k + 1 < |blocks|
    requires 0 < size <= blocks[k + 1] - blocks[k] && size % WORD == 0
    ensures var word', blocks' := TakenMemory(word, blocks[k], blocks[k + 1], size), TakenBlocks(blocks, k, size);
      Linked(end, word', blocks') && Last(blocks') == Last(blocks) && blocks[k] + size in blocks'
  {
    if blocks[k + 1] > blocks[k] + size {
      TakeSplit(end, word, blocks, k, size);
    } else {
      assert blocks[k + 1] == blocks[k] + size;
      assert blocks[k + 1] in blocks;
    }
  }

  lemma LinkedAscending(end: int, word: Memory, blocks: seq<int>)
    requires Linked(end, word, blocks)
    ensures Ascending(blocks) && forall i :: 0 <= i < |blocks| ==> blocks[i] % WORD == 0
  {
  }

  /** The case in which a free block is left over. */
  lemma TakeSplit(end: int, word: Memory, blocks: seq<int>, k: nat, size: int)
    requires Linked(end, word, blocks) && k + 1 < |blocks|
    requires 0 < size < blocks[k + 1] - blocks[k] && size % WORD == 0
    ensures var x := blocks[k] + size; var word', b := TakenMemory(word, blocks[k], blocks[k + 1], size), Insert(blocks, k, x);
      Linked(end, word', b) && Last(b) == Last(blocks) && x in b
  {
    hide Linked, Last;
    LinkedAscending(end, word, blocks);
    InsertFacts(blocks, k, blocks[k] + size);
    LinkedInsert(end, word, blocks, Insert(blocks, k, blocks[k] + size), k, blocks[k] + size);
  }

  lemma LinkedInsert(end: int, word: Memory, blocks: seq<int>, b: seq<int>, k: nat, x: int)
    requires Linked(end, word, blocks) && k + 1 < |blocks| && x % WORD == 0 && blocks[k] < x < blocks[k + 1]
    requires |b| == |blocks| + 1 && Ascending(b)
    requires forall i {:trigger b[i]} :: 0 <= i < |b| ==> b[i] == if i <= k then blocks[i] else if i == k + 1 then x else blocks[i - 1]
    ensures Linked(end, word[x := Cell(blocks[k + 1], false)][blocks[k] := Cell(x, true)], b)
  {
    var word' := word[x := Cell(blocks[k + 1], false)][blocks[k] := Cell(x, true)];
    forall i | 0 <= i < |b| - 1 ensures b[i] in word' && word'[b[i]].to == b[i + 1] {
      if i < k {
        assert b[i] == blocks[i] < blocks[k] && word[blocks[i]].to == blocks[i + 1] == b[i + 1];
      } else if i == k + 1 {
        assert b[i] == x && b[i + 1] == blocks[k + 1];
      } else if i > k + 1 {
        var j := i - 1;
        assert b[i] == blocks[j] >= blocks[k + 1] && word[blocks[j]].to == blocks[j + 1] == b[i + 1];
      }
    }
    assert b[0] == blocks[0];
    forall i | 0 <= i < |b| ensures b[i] % WORD == 0 {
      assert b[i] == x || b[i] == blocks[if i <= k then i else i - 1];
    }
  }

  lemma TakeBusy(end: int, word: Memory, blocks: seq<int>, k: nat, size: int)
    requires Linked(end, word, blocks) && k + 1 < |blocks| && !word[blocks[k]].busy
    requires 0 < size <= blocks[k + 1] - blocks[k] && size % WORD == 0
    ensures var word', blocks' := TakenMemory(word, blocks[k], blocks[k + 1], size), TakenBlocks(blocks, k, size);
      BusyBlocks(word', blocks') == BusyBlocks(word, blocks)[blocks[k] := blocks[k] + size]
  {
    assert blocks[k] in blocks && blocks[k] < Last(blocks) && blocks[k] in word;
    hide BusyBlocks;
    if blocks[k + 1] > blocks[k] + size {
      TakeBusySplit(word, blocks, k, size);
    } else {
      BusyChange(word, word[blocks[k] := Cell(blocks[k] + size, true)], blocks, blocks, blocks[k], blocks[k] + size);
    }
  }

  lemma TakeBusySplit(word: Memory, blocks: seq<int>, k: nat, size: int)
    requires Ascending(blocks) && k + 1 < |blocks| && blocks[k] in word && !word[blocks[k]].busy
    requires 0 < size < blocks[k + 1] - blocks[k]
    ensures var x := blocks[k] + size;
      BusyBlocks(TakenMemory(word, blocks[k], blocks[k + 1], size), Insert(blocks, k, x))
        == BusyBlocks(word, blocks)[blocks[k] := x]
  {
    hide Insert, BusyBlocks, Ascending;
    var b := Inserted(blocks, k, blocks[k] + size);
    BusyInsert(word, blocks, b, blocks[k], blocks[k] + size, blocks[k + 1]);
  }

  lemma Inserted(blocks: seq<int>, k: nat, x: int) returns (b: seq<int>)
    requires Ascending(blocks) && k + 1 < |blocks| && blocks[k] < x < blocks[k + 1]
    ensures b == Insert(blocks, k, x) && x !in blocks && Last(b) == Last(blocks) && blocks[k] != Last(blocks)
    ensures forall h :: h in b <==> h in blocks || h == x
  {
    InsertFacts(blocks, k, x);
    b := Insert(blocks, k, x);
  }

  lemma BusyInsert(word: Memory, blocks: seq<int>, b: seq<int>, p: int, x: int, q: int)
    requires p in blocks && p != Last(blocks) && p in word && !word[p].busy && p != x
    requires Last(b) == Last(blocks) && x !in blocks && forall h :: h in b <==> h in blocks || h == x
    ensures BusyBlocks(word[x := Cell(q, false)][p := Cell(x, true)], b) == BusyBlocks(word, blocks)[p := x]
  {
    BusyChange(word, word[x := Cell(q, false)][p := Cell(x, true)], blocks, b, p, x);
  }

  lemma BusyChange(word: Memory, word': Memory, blocks: seq<int>, b: seq<int>, p: int, x: int)
    requires Last(b) == Last(blocks) && p in blocks && p in b && p != Last(blocks)
    requires p in word && !word[p].busy && p in word' && word'[p] == Cell(x, true)
    requires forall h :: h in blocks && h != p ==> (h in word <==> h in word') && (h in word ==> word'[h] == word[h])
    requires forall h :: h in blocks ==> h in b
    requires forall h :: h in b && h !in blocks ==> h in word' && !word'[h].busy
    ensures BusyBlocks(word', b) == BusyBlocks(word, blocks)[p := x]
  {
  }

  /** Freeing a block removes exactly it from the busy blocks. */
  lemma FreeFacts(end: int, word: Memory, blocks: seq<int>, h: int)
    requires Linked(end, word, blocks) && h in BusyBlocks(word, blocks)
    ensures var word' := word[h := Cell(word[h].to, false)];
      Linked(end, word', blocks) && BusyBlocks(word', blocks) == BusyBlocks(word, blocks) - {h}
  {
  }

  lemma FreeChain(end: int, word: Memory, blocks: seq<int>, h: int, chain: int, covered: seq<int>)
    requires Linked(end, word, blocks) && h in BusyBlocks(word, blocks) && h + WORD !in covered
    requires Chained(word, BusyBlocks(word, blocks), chain, covered)
    ensures Chained(word[h := Cell(word[h].to, false)], BusyBlocks(word, blocks) - {h}, chain, covered)
  {
    CoveredInside(end, word, blocks, chain, covered);
    CoveredBusy(word, BusyBlocks(word, blocks), chain, covered);
    ChainFrame(word, word[h := Cell(word[h].to, false)], BusyBlocks(word, blocks), BusyBlocks(word, blocks) - {h}, chain, covered);
  }

  /** Freeing the first block of the chain and following its link. */
  lemma ChainPop(end: int, word: Memory, blocks: seq<int>, chain: int, covered: seq<int>)
    requires Linked(end, word, blocks) && Chained(word, BusyBlocks(word, blocks), chain, covered) && covered != []
    ensures chain == covered[0] && chain > 0 && chain in word && chain - WORD in BusyBlocks(word, blocks) && chain < Last(blocks)
    ensures var h := chain - WORD;
      Chained(word[h := Cell(word[h].to, false)], BusyBlocks(word, blocks) - {h}, word[chain].to, covered[1..])
  {
    var busy, h := BusyBlocks(word, blocks), chain - WORD;
    CoveredInside(end, word, blocks, chain, covered);
    CoveredBusy(word, busy, chain, covered);
    assert IsCovered(word, busy, covered, 0);
    var rest := covered[1..];
    forall i | 0 <= i < |rest| ensures IsCovered(word, busy, rest, i) {
      assert IsCovered(word, busy, covered, i + 1);
    }
    forall c | c in rest ensures c != chain && c in covered {
      var i :| 0 <= i < |rest| && rest[i] == c;
      assert covered[0] > covered[i + 1];
    }
    ChainFrame(word, word[h := Cell(word[h].to, false)], busy, busy - {h}, word[chain].to, rest);
  }

  /** Nothing above the top header matters to the heap. */
  lemma FrameFacts(end: int, word: Memory, word': Memory, blocks: seq<int>, chain: int, covered: seq<int>)
    requires Linked(end, word, blocks) == true && Chained(word, BusyBlocks(word, blocks), chain, covered) == true
    requires SameBelow(word, word', Last(blocks) + 1)
    ensures Linked(end, word', blocks) && BusyBlocks(word', blocks) == BusyBlocks(word, blocks)
    ensures Chained(word', BusyBlocks(word, blocks), chain, covered)
  {
    HeadersBelow(end, word, blocks);
    assert forall i :: 0 <= i < |blocks| ==> blocks[i] in blocks;
    CoveredInside(end, word, blocks, chain, covered);
    CoveredBusy(word, BusyBlocks(word, blocks), chain, covered);
    ChainFrame(word, word', BusyBlocks(word, blocks), BusyBlocks(word, blocks), chain, covered);
  }

  /** Busy blocks lie in the arena and never overlap. */
  lemma BusyApart(end: int, word: Memory, blocks: seq<int>, g: int, h: int)
    requires Linked(end, word, blocks) && g in BusyBlocks(word, blocks) && h in BusyBlocks(word, blocks) && g != h
    ensures word[g].to <= h || word[h].to <= g
    ensures end <= g < word[g].to <= Last(blocks)
  {
    BusyInside(end, word, blocks, g);
    var i :| 0 <= i < |blocks| && blocks[i] == g;
    var j :| 0 <= j < |blocks| && blocks[j] == h;
    if i < j {
      assert blocks[i + 1] <= blocks[j];
    } else {
      assert blocks[j + 1] <= blocks[i];
    }
  }

  class Storage {
    const end: int             // start of the arena
    var word: Memory           // memory last written as pointers
    var bytes: map<int, int>   // memory last written as characters
    var blokp: int             // current search pointer
    var bloktop: int           // top of arena (last block)
    var brkincr: nat
    var stakbsy: int           // chain of covered stack blocks
    var stakbas: int           // base of the entire stack
    var stakbot: int           // base of the current item
    var staktop: int           // top of the current item

    ghost var blocks: seq<int>   // the headers, in address order; the last is `bloktop`
    ghost var covered: seq<int>  // the chain from `stakbsy`

    ghost function Busy(): map<int, int>
      reads this
    {
      BusyBlocks(word, blocks)
    }

    /** What `addblok` starts from and keeps: everything but the top block, the
        search pointer and the stack. */
    ghost predicate Core()
      reads this
    {
      && end > 0 && brkincr % 256 == 0 && brkincr >= BRKINCR
      && Linked(end, word, blocks) && Last(blocks) == bloktop
      && Chained(word, Busy(), stakbsy, covered)
    }

    /** The stack lies above the arena, and the item being built is in memory. */
    ghost predicate StackOk()
      reads this
    {
      && bloktop + 2 * WORD == stakbas <= stakbot <= staktop
      && stakbas % WORD == 0 && stakbot % WORD == 0
      && (forall a :: stakbot <= a < staktop ==> a in bytes)
    }

    /** The blocks tile the arena and the last one closes the circle; the search
        pointer is a header. */
    ghost predicate Valid()
      reads this
    {
      Core() && bloktop in word && word[bloktop] == Cell(end, true) && blokp in blocks && StackOk()
    }

    /** The item being built. */
    ghost function Item(): seq<int>
      reads this
    {
      Text(bytes, stakbot, staktop)
    }

    method StoreWord(a: int, c: Cell)
      modifies this`word, this`bytes
      ensures word == old(word)[a := c]
      ensures bytes == old(bytes) - {a, a + 1, a + 2, a + 3}
    {
      word := word[a := c];
      bytes := bytes - {a, a + 1, a + 2, a + 3};
    }

    method StoreByte(a: int, c: int)
      modifies this`word, this`bytes
      ensures word == old(word) - {a - a % WORD}
      ensures bytes == old(bytes)[a := c]
    {
      word := word - {a - a % WORD};
      bytes := bytes[a := c];
    }

    /** `movstr(a, b)`, for a string of length `n` and a place above it. */
    method Movstr(a: int, b: int, ghost n: nat) returns (top: int)
      requires NulTerminated(bytes, a, n)
      requires a + n < b && b % WORD == 0
      modifies this`word, this`bytes
      ensures top == b + n
      ensures forall x :: b <= x <= b + n ==> x in bytes && bytes[x] == old(bytes)[x - b + a]
      ensures SameBelow(old(bytes), bytes, b)
      ensures SameBelow(old(word), word, b)
    {
      var k := 0;
      var c := bytes[a];
      StoreByte(b, c);
      while c != 0
        invariant 0 <= k <= n && c == old(bytes)[a + k]
        invariant forall x :: b <= x <= b + k ==> x in bytes && bytes[x] == old(bytes)[x - b + a]
        invariant SameBelow(old(bytes), bytes, b)
        invariant SameBelow(old(word), word, b)
        decreases n - k
      {
        k := k + 1;
        c := bytes[a + k];
        StoreByte(b + k, c);
      }
      top := b + k;
    }

    /** The first half of `addblok`: a stack that is not empty becomes a busy block. */
    method Cover()
      requires Core() && StackOk() && stakbas != staktop
      modifies this
      ensures Core() == true && brkincr == old(brkincr) && stakbot == old(stakbot) && staktop == old(staktop) + 1 <= bloktop
      ensures Busy() == old(Busy())[old(bloktop) := bloktop]
      ensures covered == [old(bloktop) + WORD] + old(covered)
      ensures forall x :: stakbot <= x < staktop ==> x in bytes
      ensures Item() == old(Item()) + [0]
      ensures SameBelow(old(bytes), bytes, old(bloktop)) && SameBytes(old(bytes), bytes, old(stakbas), old(staktop))
    {
      hide Linked, Chained, BusyBlocks, Text, CoveredMemory, SameBelow, SameBytes;
      CoverFacts(end, word, blocks, stakbsy, covered, Round(staktop + 1), staktop);
      CoverStores();
      ExtendLast(old(blocks), blocks);
    }

    /** The stores of the first half of `addblok`. */
    method CoverStores()
      requires bloktop + 2 * WORD == stakbas <= stakbot <= staktop
      requires forall x :: stakbot <= x < staktop ==> x in bytes
      modifies this`word, this`bytes, this`staktop, this`stakbsy, this`bloktop, this`blocks, this`covered
      ensures staktop == old(staktop) + 1 && bloktop == Round(staktop) && stakbsy == old(bloktop) + WORD
      ensures word == CoveredMemory(old(word), old(bloktop), old(stakbsy), bloktop, old(staktop))
      ensures blocks == old(blocks) + [bloktop] && covered == [stakbsy] + old(covered)
      ensures forall x :: stakbot <= x < staktop ==> x in bytes
      ensures Item() == old(Item()) + [0]
      ensures SameBelow(old(bytes), bytes, old(bloktop)) && SameBytes(old(bytes), bytes, old(stakbas), old(staktop))
    {
      CloseItem();
      var rndstak := Round(staktop);
      CoverLinks(rndstak);
      stakbsy := stakbas - WORD;
      bloktop := rndstak;
      blocks := blocks + [rndstak];
      covered := [stakbsy] + covered;
    }

    /** `*staktop++ = 0` */
    method CloseItem()
      requires stakbot <= staktop && forall x :: stakbot <= x < staktop ==> x in bytes
      modifies this`word, this`bytes, this`staktop
      ensures staktop == old(staktop) + 1 && word == old(word) - {old(staktop) - old(staktop) % WORD}
      ensures forall x :: stakbot <= x < staktop ==> x in bytes
      ensures Item() == old(Item()) + [0] && SameBelow(old(bytes), bytes, old(staktop))
    {
      StoreByte(staktop, 0);
      staktop := staktop + 1;
      SameText(old(bytes), stakbot, staktop - 1, bytes, stakbot, staktop - 1);
      assert Item() == Text(bytes, stakbot, staktop - 1) + [bytes[staktop - 1]];
    }

    /** The headers of the covered stack. */
    method CoverLinks(rndstak: int)
      requires bloktop + 2 * WORD == stakbas <= stakbot && forall x :: stakbot <= x < staktop ==> x in bytes
      modifies this`word, this`bytes
      ensures word == old(word)[stakbas - WORD := Cell(stakbsy, false)][bloktop := Cell(rndstak, true)]
      ensures forall x :: stakbot <= x < staktop ==> x in bytes
      ensures Item() == old(Item()) && SameBelow(old(bytes), bytes, bloktop) && SameAbove(old(bytes), bytes, stakbas)
    {
      StoreWord(stakbas - WORD, Cell(stakbsy, false));
      StoreWord(bloktop, Cell(rndstak, true));
      SameText(old(bytes), stakbot, staktop, bytes, stakbot, staktop);
    }

    /** The second half of `addblok`: a new free block at the top, and the item
        being built, of length `n`, moves above it.  If nothing is being built,
        what is found in its place is copied all the same. */
    method Extend(reqd: nat, ghost n: nat, copy: bool, left: seq<int>)
      requires Core()
      requires copy ==> stakbot + n < bloktop
      requires copy ==> NulTerminated(bytes, stakbot, n)
      modifies this
      ensures Valid() == true && Busy() == old(Busy()) && covered == old(covered) && brkincr == old(brkincr)
      ensures blokp == old(bloktop) && FreshTop(reqd)
      ensures stakbot == stakbas && staktop == stakbot + if copy then n else |left|
      ensures Item() == if copy then Text(old(bytes), old(stakbot), old(stakbot) + n) else left
      ensures SameBelow(old(bytes), bytes, old(bloktop))
    {
      var size := Increment(reqd);
      LastHeader(end, word, blocks);
      ExtendStores(size, n, copy, left);
      ExtendFacts(end, old(word), word, old(blocks), stakbsy, covered, size);
      ExtendLast(old(blocks), blocks);
    }

    lemma ExtendLast(was: seq<int>, now: seq<int>)
      requires now == was + [bloktop]
      ensures Last(now) == bloktop && bloktop in now && (was != [] ==> Last(was) in now)
    {
      assert now[|was|] == bloktop && (was != [] ==> now[|was| - 1] == Last(was));
    }

    /** How much `addblok` adds to the arena for `reqd` bytes. */
    method Increment(reqd: nat) returns (size: int)
      requires brkincr % 256 == 0 && brkincr > 0
      ensures size > reqd && size >= WORD && size % WORD == 0
    {
      WholeWords(brkincr);
      MaskOffEnough(reqd, brkincr);
      hide MaskOff;
      size := MaskOff(reqd + brkincr, brkincr);
    }

    lemma LastHeader(end: int, word: Memory, blocks: seq<int>)
      requires Linked(end, word, blocks)
      ensures Last(blocks) in blocks && Last(blocks) >= end && Last(blocks) % WORD == 0
    {
      HeadersBelow(end, word, blocks);
    }

    /** The search pointer is at a free block with room for `reqd`, and the next block is the top. */
    ghost predicate FreshTop(reqd: int)
      reads this
    {
      blokp in word && word[blokp] == Cell(bloktop, false) && bloktop - blokp > reqd && blokp < bloktop
    }

    /** The stores of the second half of `addblok`. */
    method ExtendStores(size: int, ghost n: nat, copy: bool, left: seq<int>)
      requires size >= WORD && (bloktop + size) % WORD == 0
      requires copy ==> stakbot + n < bloktop && NulTerminated(bytes, stakbot, n)
      modifies this`word, this`bytes, this`blokp, this`bloktop, this`blocks, this`stakbas, this`stakbot, this`staktop
      ensures blokp == old(bloktop) && bloktop == old(bloktop) + size && blocks == old(blocks) + [bloktop]
      ensures SameBelow(old(word), word, blokp) && SameBelow(old(bytes), bytes, blokp)
      ensures blokp in word && word[blokp] == Cell(bloktop, false) && bloktop in word && word[bloktop] == Cell(end, true)
      ensures StackOk() && stakbot == stakbas && staktop == stakbot + if copy then n else |left|
      ensures Item() == if copy then Text(old(bytes), old(stakbot), old(stakbot) + n) else left
    {
      TopStores(size);
      if copy {
        SameText(old(bytes), stakbot, stakbot + n, bytes, stakbot, stakbot + n);
        MoveItem(n);
      } else {
        MoveLeft(left);
      }
    }

    /** The header of the new free block and the new top. */
    method TopStores(size: int)
      requires size >= WORD
      modifies this`word, this`bytes, this`blokp, this`bloktop, this`blocks
      ensures blokp == old(bloktop) && bloktop == old(bloktop) + size && blocks == old(blocks) + [bloktop]
      ensures word == old(word)[blokp := Cell(bloktop, false)][bloktop := Cell(end, true)]
      ensures SameBelow(old(bytes), bytes, blokp)
    {
      blokp := bloktop;
      StoreWord(blokp, Cell(bloktop + size, false));
      bloktop := bloktop + size;
      blocks := blocks + [bloktop];
      StoreWord(bloktop, Cell(end, true));
    }

    /** The item being built moves to its new place above the arena. */
    method MoveItem(ghost n: nat)
      requires bloktop % WORD == 0 && stakbot + n < bloktop && NulTerminated(bytes, stakbot, n)
      modifies this`word, this`bytes, this`stakbas, this`stakbot, this`staktop
      ensures SameBelow(old(word), word, bloktop + 2 * WORD) && SameBelow(old(bytes), bytes, bloktop + 2 * WORD)
      ensures StackOk() && stakbot == stakbas && staktop == stakbot + n
      ensures Item() == Text(old(bytes), old(stakbot), old(stakbot) + n)
    {
      var stakadr := bloktop + 2 * WORD;
      staktop := Movstr(stakbot, stakadr, n);
      stakbas, stakbot := stakadr, stakadr;
      SameText(old(bytes), old(stakbot), old(stakbot) + n, bytes, stakbot, staktop);
    }

    /** The string `left` that is found at `stakbot` is copied above the arena. */
    method MoveLeft(left: seq<int>)
      requires bloktop % WORD == 0
      modifies this`word, this`bytes, this`stakbas, this`stakbot, this`staktop
      ensures SameBelow(old(word), word, bloktop + 2 * WORD) && SameBelow(old(bytes), bytes, bloktop + 2 * WORD)
      ensures StackOk() && stakbot == stakbas && staktop == stakbot + |left| && Item() == left
    {
      hide Text, SameBelow;
      var stakadr := bloktop + 2 * WORD;
      CopyLeft(stakadr, left);
      staktop := stakadr + |left|;
      stakbas, stakbot := stakadr, stakadr;
      TextIs(bytes, stakadr, left);
    }

    /** `movstr(stakbot, b)` where it copies `left`. */
    method CopyLeft(b: int, left: seq<int>)
      requires b % WORD == 0
      modifies this`word, this`bytes
      ensures forall x :: b <= x < b + |left| ==> x in bytes && bytes[x] == left[x - b]
      ensures SameBelow(old(bytes), bytes, b) && SameBelow(old(word), word, b)
    {
      for k := 0 to |left|
        invariant forall x :: b <= x < b + k ==> x in bytes && bytes[x] == left[x - b]
        invariant SameBelow(old(bytes), bytes, b) && SameBelow(old(word), word, b)
      {
        StoreByte(b + k, left[k]);
      }
      StoreByte(b + |left|, 0);
    }

    /** `addblok(reqd)`: a non-empty stack becomes a busy block of the heap, a
        free block larger than `reqd` is added, and the item being built moves
        above it.  With an empty stack there is no item: whatever string `left`
        lies at `stakbot` then becomes one; it ends before its copy begins, as
        the copy would have no end otherwise. */
    method AddBlok(reqd: nat, left: seq<int>)
      requires Core() && StackOk()
      requires stakbas == staktop ==> |left| < MaskOff(reqd + brkincr, brkincr)
      modifies this
      ensures Valid() == true && brkincr == old(brkincr)
      ensures blokp > old(staktop) || old(stakbas == staktop)
      ensures FreshTop(reqd)
      ensures Busy() == if old(stakbas == staktop) then old(Busy()) else old(Busy())[old(bloktop) := blokp]
      ensures covered == if old(stakbas == staktop) then old(covered) else [old(bloktop) + WORD] + old(covered)
      ensures stakbot == stakbas && Item() == if old(stakbas == staktop) then left else UpToNul(old(Item()))
      ensures SameBelow(old(bytes), bytes, old(bloktop)) && SameBytes(old(bytes), bytes, old(stakbas), old(staktop))
    {
      hide Linked, Chained, BusyBlocks, UpToNul, MaskOff, Text, NulTerminated;
      ghost var item := Item();
      ItemLength();
      ghost var n := |UpToNul(item)|;
      ItemEnds(item, item + [0]);
      var copy := stakbas != staktop;
      if copy {
        Cover();
        ItemLength();
        ItemTerminated(bytes, stakbot, staktop, n);
      }
      Extend(reqd, n, copy, left);
    }

    lemma ItemLength()
      requires stakbot <= staktop
      ensures |Item()| == staktop - stakbot
    {
    }

    // -------------------------------------------------------------- the heap

    /** What a search keeps: the heap but for the search pointer, and the stack. */
    ghost predicate Circle()
      reads this
    {
      Core() && bloktop in word && word[bloktop] == Cell(end, true) && StackOk()
    }

    /** `WHILE !busy(q = p->word) DO p->word = q->word OD` */
    method Coalesce(p: int)
      requires Circle() && p in blocks && p != bloktop && !word[p].busy
      modifies this`word, this`bytes, this`blocks
      ensures Circle() == true && p in blocks && Busy() == old(Busy()) && Item() == old(Item())
      ensures p in word && !word[p].busy && word[p].to in blocks && word[p].to > p
      ensures old(FirstFit(p)) ==> word == old(word)
      ensures Aside(Busy(), bloktop, old(bytes), bytes)
    {
      NextHeader(end, word, blocks, p);
      AsideSelf(Busy(), bloktop, bytes);
      var q := word[p].to;
      while !word[q].busy
        invariant Circle() == true && p in blocks && p != bloktop && Busy() == old(Busy()) && Item() == old(Item())
        invariant p in word && !word[p].busy && word[p].to == q && q in blocks && q in word && q > p
        invariant old(FirstFit(p)) ==> word == old(word)
        invariant Aside(Busy(), bloktop, old(bytes), bytes)
        decreases |blocks|
      {
        ghost var was := bytes;
        Merge(p, q);
        AsideTwice(Busy(), bloktop, old(bytes), was, bytes);
        NextHeader(end, word, blocks, p);
        q := word[p].to;
      }
    }

    /** The block after the free block `p` is busy already. */
    ghost predicate FirstFit(p: int)
      reads this
    {
      p in word && word[p].to in word && word[word[p].to].busy
    }

    /** `p->word = q->word` */
    method Merge(p: int, q: int)
      requires Circle() && p in blocks && p != bloktop && p in word && q in word && q == word[p].to
      requires !word[p].busy && !word[q].busy && q in blocks
      modifies this`word, this`bytes, this`blocks
      ensures Circle() == true && p in blocks && p in word && !word[p].busy
      ensures Busy() == old(Busy()) && Item() == old(Item()) && |blocks| < old(|blocks|)
      ensures Aside(Busy(), bloktop, old(bytes), bytes)
    {
      hide Linked, Chained, BusyBlocks, Text;
      ghost var blocks' := MergeAt(end, word, blocks, p, q, stakbsy, covered);
      ghost var word0, blocks0 := word, blocks;
      StoreHeader(p, word[q]);
      blocks := blocks';
      FreeStores(end, word0, blocks0, p, q, old(bytes), bytes);
    }

    /** A header stored below the stack. */
    method StoreHeader(a: int, c: Cell)
      requires StackOk() && a + WORD <= stakbas
      modifies this`word, this`bytes
      ensures word == old(word)[a := c] && StackOk() == true && Item() == old(Item())
      ensures SameBelow(old(bytes), bytes, a) && SameAbove(old(bytes), bytes, a + WORD)
    {
      StoreWord(a, c);
      SameText(old(bytes), stakbot, staktop, bytes, stakbot, staktop);
    }

    /** Take `rbytes` from the front of the free block `p`, which ends at `q`. */
    method Take(p: int, q: int, rbytes: int)
      requires Circle() && p in blocks && p != bloktop && !word[p].busy && q == word[p].to
      requires 0 < rbytes <= q - p && rbytes % WORD == 0
      modifies this`word, this`bytes, this`blocks, this`blokp
      ensures Valid() == true && Item() == old(Item())
      ensures p !in old(Busy()) && Busy() == old(Busy())[p := p + rbytes]
      ensures Aside(old(Busy()), bloktop, old(bytes), bytes)
    {
      ghost var k :| 0 <= k < |blocks| && blocks[k] == p;
      assert k + 1 < |blocks| && blocks[k + 1] == q;
      HeadersBelow(end, word, blocks);
      assert blocks[k + 1] in blocks;
      ghost var blocks' := TakeAt(end, word, blocks, k, p, q, rbytes, stakbsy, covered);
      TakeStores(p, q, rbytes);
      FreeStores(end, old(word), old(blocks), p, q, old(bytes), bytes);
      blocks := blocks';
    }

    /** The stores that take `rbytes` from a free block. */
    method TakeStores(p: int, q: int, rbytes: int)
      requires p in word && word[p] == Cell(q, false) && rbytes >= WORD && p + rbytes <= q <= bloktop && p % WORD == 0
      requires StackOk() && rbytes % WORD == 0 && bloktop % WORD == 0 && q % WORD == 0
      modifies this`word, this`bytes, this`blokp
      ensures blokp == p + rbytes && word == TakenMemory(old(word), p, q, rbytes)
      ensures StackOk() && Item() == old(Item())
      ensures SameAbove(old(word), word, q)
      ensures SameBelow(old(bytes), bytes, p) && SameAbove(old(bytes), bytes, q)
    {
      hide Text, Round;
      blokp := p + rbytes;
      if q > blokp {
        StoreHeader(blokp, word[p]);
      }
      StoreHeader(p, Cell(blokp, true));
    }

    /** Look at one block: if it is free, make it as large as possible and take it if it is large enough. */
    method Probe(p: int, rbytes: int) returns (r: int)
      requires Circle() && p in blocks && p in word && rbytes > 0 && rbytes % WORD == 0
      modifies this`word, this`bytes, this`blocks, this`blokp
      ensures Circle() == true && Item() == old(Item())
      ensures r == 0 ==> Busy() == old(Busy()) && p in blocks && p in word && blokp == old(blokp)
      ensures r != 0 ==> Valid() == true && Allocated(old(Busy()), Busy(), r, rbytes)
      ensures old(FreshTop(rbytes) && p == blokp) ==> r != 0
      ensures Aside(old(Busy()), bloktop, old(bytes), bytes)
    {
      hide Chained, BusyBlocks, Text, Aside;
      r := 0;
      AsideSelf(Busy(), bloktop, bytes);
      if !word[p].busy {
        HeadersBelow(end, word, blocks);
        Coalesce(p);
        var q := word[p].to;
        if q - p >= rbytes {
          ghost var was := bytes;
          Take(p, q, rbytes);
          AsideTwice(old(Busy()), bloktop, old(bytes), was, bytes);
          r := p + WORD;
        }
      }
    }

    /** The search of `alloc`: twice round the circle at most. */
    method Search(rbytes: int) returns (r: int)
      requires Valid() && rbytes > 0 && rbytes % WORD == 0
      modifies this`word, this`bytes, this`blocks, this`blokp
      ensures Circle() == true && Item() == old(Item())
      ensures r == 0 ==> Busy() == old(Busy())
      ensures r != 0 ==> Valid() == true && Allocated(old(Busy()), Busy(), r, rbytes)
      ensures old(FreshTop(rbytes)) ==> r != 0
      ensures Aside(old(Busy()), bloktop, old(bytes), bytes)
    {
      AsideSelf(Busy(), bloktop, bytes);
      var c, p := 0, blokp;
      var more, first := true, true;
      while more
        invariant Circle() == true && Item() == old(Item()) && Busy() == old(Busy())
        invariant p in blocks && p in word && 0 <= c && (more ==> c <= 1)
        invariant first ==> p == blokp && word == old(word) && more && blokp == old(blokp)
        invariant old(FreshTop(rbytes)) ==> first
        invariant Aside(old(Busy()), bloktop, old(bytes), bytes)
        decreases more, 1 - c, bloktop - p
      {
        HeadersBelow(end, word, blocks);
        ghost var was := bytes;
        r := Probe(p, rbytes);
        AsideTwice(old(Busy()), bloktop, old(bytes), was, bytes);
        if r != 0 {
          return;
        }
        NextHeader(end, word, blocks, p);
        first := false;
        var q := p;
        p := word[p].to;
        if !(p > q) {
          more := c == 0;
          c := c + 1;
        }
      }
      return 0;
    }

    /** `alloc(nbytes)`: a block of at least `nbytes` bytes, apart from every
        busy block, whose bytes stay as they are.  `before` is what was busy
        when it was taken: if the heap had to grow, that includes the stack as
        it was.  `left` is the string that lies at `stakbot` if the stack is
        empty. */
    method Alloc(nbytes: nat, left: seq<int>) returns (r: int, ghost before: map<int, int>)
      requires Valid()
      requires stakbas == staktop ==> |left| < MaskOff(Round(nbytes + WORD) + brkincr, brkincr)
      modifies this
      ensures Valid() == true
      ensures Allocated(before, Busy(), r, Round(nbytes + WORD)) && Round(nbytes + WORD) - WORD >= nbytes
      ensures AfterGrowth(old(Busy()), old(bloktop), old(staktop), before)
      ensures forall h :: h in before ==> before[h] <= r - WORD || r - WORD + Round(nbytes + WORD) <= h
      ensures 0 !in old(Item()) ==> Item() == old(Item()) || (old(stakbas == staktop) && Item() == left)
      ensures SameBlocks(old(Busy()), old(bytes), bytes)
      ensures before != old(Busy()) ==> SameBytes(old(bytes), bytes, old(stakbas), old(staktop))
    {
      hide Linked, Chained, BusyBlocks, Text, UpToNul, Grown, AfterGrowth, SameBlocks, SameBytes, Aside, MaskOff;
      var rbytes := Round(nbytes + WORD);
      ghost var grown := false;
      r, before := 0, Busy();
      TopNotBusy();
      GrownNot(Busy(), bloktop, stakbas, staktop, bytes);
      while r == 0
        invariant r == 0 ==> Valid() == true && before == Busy()
        invariant r == 0 && grown ==> FreshTop(rbytes)
        invariant r != 0 ==> Valid() == true && Allocated(before, Busy(), r, rbytes)
        invariant !grown ==> brkincr == old(brkincr) && bloktop == old(bloktop)
        invariant !grown ==> stakbas == old(stakbas) && staktop == old(staktop) && Item() == old(Item())
        invariant grown ==> ItemMoved(old(Item()), old(stakbas == staktop), left)
        invariant Grown(old(Busy()), old(bloktop), old(stakbas), old(staktop), before, old(bytes), bytes, grown)
        decreases !grown, r == 0
      {
        ghost var was := bytes;
        r := Search(rbytes);
        GrownMore(old(Busy()), old(bloktop), old(stakbas), old(staktop), before, old(bytes), was, bytes, grown, bloktop);
        if r == 0 {
          was := bytes;
          Grow(rbytes, left);
          before, grown := Busy(), true;
          GrownOnce(old(Busy()), old(bloktop), old(stakbas), old(staktop), before, old(bytes), was, bytes);
        }
      }
      UpToNulFacts(old(Item()));
      GrownMeans(old(Busy()), old(bloktop), old(stakbas), old(staktop), before, old(bytes), bytes, grown);
      AllocatedApart(before, r, rbytes);
    }

    /** What becomes of the item when the heap grows. */
    ghost predicate ItemMoved(item: seq<int>, empty: bool, left: seq<int>)
      reads this
    {
      Item() == if empty then left else UpToNul(item)
    }

    lemma TopNotBusy()
      requires Valid()
      ensures bloktop !in Busy() && bloktop < stakbas
    {
    }

    /** `addblok`, as `alloc` uses it. */
    method Grow(rbytes: nat, left: seq<int>)
      requires Circle()
      requires stakbas == staktop ==> |left| < MaskOff(rbytes + brkincr, brkincr)
      modifies this
      ensures Valid() == true && FreshTop(rbytes) && ItemMoved(old(Item()), old(stakbas == staktop), left)
      ensures AfterGrowth(old(Busy()), old(bloktop), old(staktop), Busy())
      ensures SameBlocks(old(Busy()), old(bytes), bytes) && SameBytes(old(bytes), bytes, old(stakbas), old(staktop))
    {
      AddBlok(rbytes, left);
      BelowTop(end, old(word), old(blocks), old(bytes), bytes);
    }

    lemma AllocatedApart(before: map<int, int>, r: int, rbytes: int)
      requires Valid() && Allocated(before, Busy(), r, rbytes)
      ensures forall h :: h in before ==> before[h] <= r - WORD || r - WORD + rbytes <= h
    {
      forall h | h in before ensures before[h] <= r - WORD || r - WORD + rbytes <= h {
        assert h in Busy() && r - WORD in Busy() && h != r - WORD;
        assert Busy()[h] == before[h];
        BusyApart(end, word, blocks, h, r - WORD);
      }
    }

    // ------------------------------------------------------------- freeing

    /** The heap without the chain of covered stack blocks. */
    ghost predicate Arena()
      reads this
    {
      end > 0 && Linked(end, word, blocks) && Last(blocks) == bloktop && bloktop in word && word[bloktop] == Cell(end, true)
    }

    /** `free(ap)`: pointers at or above the top of the arena are not heap blocks. */
    method Free(ap: int)
      requires Arena() && (ap == 0 || ap >= bloktop || ap - WORD in Busy())
      modifies this`word, this`bytes
      ensures Arena() == true
      ensures Busy() == if ap == 0 || ap >= bloktop then old(Busy()) else old(Busy()) - {ap - WORD}
      ensures ap == 0 || ap >= bloktop ==> unchanged(this)
      ensures ap != 0 && ap < bloktop ==> word == old(word)[ap - WORD := Cell(old(word)[ap - WORD].to, false)]
      ensures SameBelow(old(bytes), bytes, ap - WORD) && SameAbove(old(bytes), bytes, ap)
      ensures old(Valid()) && ap !in covered ==> Valid() == true && Item() == old(Item())
    {
      if ap != 0 && ap < bloktop {
        FreeFacts(end, word, blocks, ap - WORD);
        if Valid() && ap !in covered {
          FreeChain(end, word, blocks, ap - WORD, stakbsy, covered);
        }
        BusyInside(end, word, blocks, ap - WORD);
        FreeStore(ap);
      }
    }

    method FreeStore(ap: int)
      requires ap - WORD in word
      modifies this`word, this`bytes
      ensures word == old(word)[ap - WORD := Cell(old(word)[ap - WORD].to, false)]
      ensures old(StackOk()) && ap <= bloktop ==> StackOk() && Item() == old(Item())
      ensures SameBelow(old(bytes), bytes, ap - WORD) && SameAbove(old(bytes), bytes, ap)
    {
      StoreWord(ap - WORD, word[ap - WORD].(busy := false));
      if old(StackOk()) && ap <= bloktop {
        SameText(old(bytes), stakbot, staktop, bytes, stakbot, staktop);
      }
    }

    /** The body of the loop of `tdystak`. */
    method Uncover()
      requires Arena() && Chained(word, Busy(), stakbsy, covered) && covered != []
      modifies this`word, this`bytes, this`stakbsy, this`covered
      ensures Arena() == true && Chained(word, Busy(), stakbsy, covered) == true
      ensures covered == old(covered)[1..] && Busy() == old(Busy()) - {old(stakbsy) - WORD}
    {
      ChainPop(end, word, blocks, stakbsy, covered);
      var t := stakbsy;
      Free(t);
      stakbsy := word[t].to;
      covered := covered[1..];
    }

    /** The loop of `tdystak`. */
    method UncoverAbove(x: int) returns (ghost i: nat)
      requires Arena() && Chained(word, Busy(), stakbsy, covered) && x >= 0
      modifies this`word, this`bytes, this`stakbsy, this`covered
      ensures Arena() == true && Chained(word, Busy(), stakbsy, covered) == true
      ensures i <= |old(covered)| && covered == old(covered)[i..]
      ensures forall j :: 0 <= j < i ==> old(covered)[j] > x
      ensures stakbsy <= x
      ensures Busy() == old(Busy()) - Headers(old(covered)[..i])
    {
      hide Chained, BusyBlocks, Headers, Linked;
      i := 0;
      assert covered[0..] == covered;
      HeadersNone(covered);
      while stakbsy > x
        invariant i <= |old(covered)| && covered == old(covered)[i..]
        invariant Arena() == true && Chained(word, Busy(), stakbsy, covered) == true
        invariant Busy() == old(Busy()) - Headers(old(covered)[..i])
        invariant forall j :: 0 <= j < i ==> old(covered)[j] > x
        decreases |covered|
      {
        ChainHead(word, Busy(), stakbsy, covered);
        HeadersMore(old(Busy()), old(covered), i, stakbsy);
        Uncover();
        i := i + 1;
      }
    }

    /** `tdystak(x)`: give back the covered stack blocks above `x`, and make `x`,
        if it is still on the stack, the place of the next item. */
    method Tdystak(x: int) returns (ghost i: nat)
      requires Valid() && x >= 0 && x % WORD == 0
      modifies this
      ensures Valid() == true && Item() == []
      ensures i <= |old(covered)| && covered == old(covered)[i..]
      ensures forall j :: 0 <= j < |old(covered)| ==> (old(covered)[j] > x <==> j < i)
      ensures Busy() == old(Busy()) - Headers(old(covered)[..i])
      ensures stakbas == old(stakbas) && stakbot == staktop == if x > stakbas then x else stakbas
    {
      i := UncoverAbove(x);
      staktop := if x > stakbas then x else stakbas;
      stakbot := staktop;
    }

    // ------------------------------------------------------------- the stack

    /** `pushstak(c)` */
    method Pushstak(c: int)
      requires Valid()
      modifies this
      ensures Valid() == true && Busy() == old(Busy()) && covered == old(covered)
      ensures Item() == old(Item()) + [c] && stakbot == old(stakbot) && stakbas == old(stakbas)
    {
      PushStore(c);
      FrameFacts(end, old(word), word, blocks, stakbsy, covered);
    }

    method PushStore(c: int)
      requires StackOk()
      modifies this`word, this`bytes, this`staktop
      ensures StackOk() && SameBelow(old(word), word, bloktop + 1)
      ensures Item() == old(Item()) + [c]
    {
      StoreByte(staktop, c);
      staktop := staktop + 1;
      SameText(old(bytes), stakbot, staktop - 1, bytes, stakbot, staktop - 1);
      assert Item() == Text(bytes, stakbot, staktop - 1) + [c];
    }

    /** `endstak(argp)`: close the item that ends at `argp` with a NUL, and start the next one. */
    method Endstak(argp: int) returns (oldstak: int)
      requires Valid() && stakbot <= argp && forall x :: stakbot <= x < argp ==> x in bytes
      modifies this
      ensures Valid() == true && Busy() == old(Busy()) && covered == old(covered) && stakbas == old(stakbas)
      ensures oldstak == old(stakbot) && stakbot == staktop > argp && Item() == []
      ensures Text(bytes, oldstak, argp + 1) == Text(old(bytes), oldstak, argp) + [0]
    {
      hide Linked, Chained, BusyBlocks, Round;
      RoundUp(argp + 1);
      EndStore(argp);
      EndFrame(end, old(word), word, blocks, bloktop, argp);
      FrameFacts(end, old(word), word, blocks, stakbsy, covered);
      oldstak := stakbot;
      staktop := Round(argp + 1);
      stakbot := staktop;
    }

    lemma EndFrame(end: int, word: Memory, word': Memory, blocks: seq<int>, top: int, argp: int)
      requires word' == word - {argp - argp % WORD} && argp >= top + 2 * WORD
      ensures SameBelow(word, word', top + 1) && (top in word ==> top in word' && word'[top] == word[top])
    {
    }

    /** `*argp = 0` */
    method EndStore(argp: int)
      requires stakbot <= argp && forall x :: stakbot <= x < argp ==> x in bytes
      modifies this`word, this`bytes
      ensures word == old(word) - {argp - argp % WORD}
      ensures Text(bytes, stakbot, argp + 1) == Text(old(bytes), stakbot, argp) + [0]
    {
      StoreByte(argp, 0);
      SameText(old(bytes), stakbot, argp, bytes, stakbot, argp);
      assert Text(bytes, stakbot, argp + 1) == Text(bytes, stakbot, argp) + [0];
    }

    /** `getstak(asize)` */
    method Getstak(asize: nat) returns (oldstak: int)
      requires Valid()
      modifies this`stakbot, this`staktop
      ensures Valid() == true && Item() == []
      ensures oldstak == old(stakbot) && stakbot == staktop >= oldstak + asize
    {
      var size := Round(asize);
      oldstak := stakbot;
      stakbot := stakbot + size;
      staktop := stakbot;
    }

    /** `locstak()`, when the break is near enough for `near` to hold. */
    method Locstak(near: bool) returns (r: int)
      requires Valid()
      modifies this`brkincr
      ensures Valid() == true && r == stakbot
    {
      if near && brkincr < BRKMAX {
        brkincr := brkincr + 256;
      }
      r := stakbot;
    }

    /** Storage as the shell sets it up: `addblok(0)` on an empty arena. */
    constructor (end: int)
      requires end > 0 && end % WORD == 0
      ensures Valid() && Busy() == map[] && covered == [] && Item() == []
    {
      this.end := end;
      word, bytes, blokp, bloktop, brkincr := map[], map[], 0, end, BRKINCR;
      stakbsy, stakbas, stakbot, staktop := 0, 0, 0, 0;
      blocks, covered := [end], [];
      new;
      Extend(0, 0, false, []);
    }
  }

  ghost function Headers(s: seq<int>): set<int> {
    if s == [] then {} else Headers(s[..|s| - 1]) + {Last(s) - WORD}
  }

  lemma HeadersNone(s: seq<int>)
    ensures Headers(s[..0]) == {}
  {
  }

  lemma ChainHead(word: Memory, busy: map<int, int>, head: int, covered: seq<int>)
    requires Chained(word, busy, head, covered)
    ensures if covered == [] then head == 0 else head == covered[0]
  {
  }

  lemma HeadersMore(busy: map<int, int>, s: seq<int>, i: nat, t: int)
    requires i < |s| && s[i] == t
    ensures busy - Headers(s[..i]) - {t - WORD} == busy - Headers(s[..i + 1])
    ensures s[i..][1..] == s[i + 1..]
  {
    var a := s[..i + 1];
    assert a[..i] == s[..i] && Last(a) == t;
  }

  /** The busy blocks when a new one is taken: those there were, and if the
      heap has grown the old top, which then covers the stack. */
  ghost predicate AfterGrowth(busy: map<int, int>, top: int, stack: int, before: map<int, int>) {
    before == busy || (top in before && before[top] > stack && before == busy[top := before[top]])
  }

  /** The bytes of the busy blocks are as before the search, and if the heap has
      grown, so are those of the stack. */
  ghost predicate Grown(busy: map<int, int>, top: int, base: int, stack: int, before: map<int, int>,
                        m: map<int, int>, m': map<int, int>, grown: bool) {
    && top !in busy && top < base && AfterGrowth(busy, top, stack, before) && (!grown ==> before == busy)
    && SameBlocks(busy, m, m') && (before != busy || !grown ==> SameBytes(m, m', base, stack))
  }

  lemma GrownNot(busy: map<int, int>, top: int, base: int, stack: int, m: map<int, int>)
    requires top !in busy && top < base
    ensures Grown(busy, top, base, stack, busy, m, m, false)
  {
  }

  lemma GrownMeans(busy: map<int, int>, top: int, base: int, stack: int, before: map<int, int>,
                   m: map<int, int>, m': map<int, int>, grown: bool)
    requires Grown(busy, top, base, stack, before, m, m', grown)
    ensures AfterGrowth(busy, top, stack, before) && SameBlocks(busy, m, m')
    ensures before != busy ==> SameBytes(m, m', base, stack)
  {
  }

  lemma GrownMore(busy: map<int, int>, top: int, base: int, stack: int, before: map<int, int>,
                  m: map<int, int>, m': map<int, int>, m'': map<int, int>, grown: bool, at: int)
    requires Grown(busy, top, base, stack, before, m, m', grown) && Aside(before, at, m', m'') && (!grown ==> at == top)
    ensures Grown(busy, top, base, stack, before, m, m'', grown)
  {
    assert SameBlocks(busy, m', m'') by {
      forall h | h in busy ensures SameBytes(m', m'', h, busy[h]) {
        assert h in before && before[h] == busy[h];
      }
    }
    SameBlocksTwice(busy, m, m', m'');
    if before != busy {
      assert SameBytes(m', m'', top, before[top]);
    }
  }

  lemma GrownOnce(busy: map<int, int>, top: int, base: int, stack: int, before: map<int, int>,
                  m: map<int, int>, m': map<int, int>, m'': map<int, int>)
    requires Grown(busy, top, base, stack, busy, m, m', false) && AfterGrowth(busy, top, stack, before)
    requires SameBlocks(busy, m', m'') && SameBytes(m', m'', base, stack)
    ensures Grown(busy, top, base, stack, before, m, m'', true)
  {
    SameBlocksTwice(busy, m, m', m'');
  }

  /** What leaves memory below the top alone leaves the busy blocks alone. */
  lemma BelowTop(end: int, word: Memory, blocks: seq<int>, m: map<int, int>, m': map<int, int>)
    requires Linked(end, word, blocks) && SameBelow(m, m', Last(blocks))
    ensures SameBlocks(BusyBlocks(word, blocks), m, m')
  {
    forall h | h in BusyBlocks(word, blocks) ensures SameBytes(m, m', h, BusyBlocks(word, blocks)[h]) {
      BusyInside(end, word, blocks, h);
    }
  }

  /** Block `r - WORD` is new among the busy blocks, and has `rbytes` bytes in all. */
  ghost predicate Allocated(busy: map<int, int>, busy': map<int, int>, r: int, rbytes: int) {
    r - WORD !in busy && busy' == busy[r - WORD := r - WORD + rbytes]
  }

  /** A header is linked to a header; only the last one is not linked upwards. */
  lemma NextHeader(end: int, word: Memory, blocks: seq<int>, p: int)
    requires Linked(end, word, blocks) && p in blocks
    ensures p != Last(blocks) ==> p in word && word[p].to in blocks && p < word[p].to
    ensures p != Last(blocks) && word[p].to != Last(blocks) ==> word[p].to in word
    ensures end in blocks && end <= p
  {
    var k :| 0 <= k < |blocks| && blocks[k] == p;
    assert blocks[0] <= blocks[k];
    if p != Last(blocks) {
      assert k + 1 < |blocks| && word[blocks[k]].to == blocks[k + 1] && blocks[k + 1] in blocks;
    }
  }

  /** Where a string ends once a NUL has been put behind it. */
  lemma ItemEnds(item: seq<int>, t: seq<int>)
    requires t == item + [0]
    ensures var n := |UpToNul(item)|;
      n < |t| && t[n] == 0 && t[..n] == UpToNul(item) && forall i :: 0 <= i < n ==> t[i] != 0
  {
    UpToNulFacts(item);
  }

  /** The part of a string before its first NUL. */
  function UpToNul(s: seq<int>): seq<int> {
    if s == [] || s[0] == 0 then [] else [s[0]] + UpToNul(s[1..])
  }

  lemma {:induction false} UpToNulFacts(s: seq<int>)
    ensures |UpToNul(s)| <= |s| && UpToNul(s) == s[..|UpToNul(s)|]
    ensures forall i :: 0 <= i < |UpToNul(s)| ==> s[i] != 0
    ensures |UpToNul(s)| < |s| ==> s[|UpToNul(s)|] == 0
    ensures 0 !in s ==> UpToNul(s) == s
  {
    if s != [] && s[0] != 0 {
      UpToNulFacts(s[1..]);
      assert forall i :: 0 < i < |s| ==> s[i] == s[1..][i - 1];
    }
  }
}
