/** The temporary file of `ed` (bin/ed/ed.c): lines are kept in blocks of 512
    bytes, of which at most one that is being read and one that is being written
    are in memory. */
module EdTemp {
  import opened EdCrypt

  const SIZE := 512
  const NEWLINE := 10

  /** The last block that may not be used. */
  const NBLOCKS := 255

  /** `(atl >> 8) & 0377`; the address of a line may carry a mark in its low bit. */
  function Bno(atl: nat): (b: nat)
    ensures b < 256
  {
    atl / 256 % 256
  }

  /** `(atl << 1) & 0774` */
  function Off(atl: nat): (o: nat)
    ensures o <= 508
  {
    atl / 2 % 128 * 4
  }

  /** An address and its place in the file. */
  lemma Place(atl: nat)
    requires atl < 65536
    ensures SIZE * Bno(atl) + Off(atl) == 4 * (atl / 2)
  {
    assert atl / 256 == atl / 2 / 128;
    assert atl / 2 == 128 * (atl / 2 / 128) + atl / 2 % 128;
  }

  /** `(n + 3 >> 1) & 077776` for the length of a line with its NUL. */
  function Units(n: nat): (u: nat) {
    (n + 3) / 2 - (n + 3) / 2 % 2
  }

  lemma UnitsFacts(n: nat)
    ensures Units(n) % 2 == 0 && n <= 2 * Units(n) <= n + 3 && Units(n) == (n + 3) / 4 * 2
  {
  }

  /** The part of a line in `linebuf` that `putline` takes: up to a NUL or a newline. */
  function Upto(s: seq<int>): (r: seq<int>)
    ensures |r| <= |s| && r == s[..|r|]
    ensures |r| < |s| ==> s[|r|] == 0 || s[|r|] == NEWLINE
    ensures forall i :: 0 <= i < |r| ==> r[i] != 0 && r[i] != NEWLINE
  {
    if s == [] || s[0] == 0 || s[0] == NEWLINE then [] else [s[0]] + Upto(s[1..])
  }

  lemma {:induction false} UptoIs(s: seq<int>, n: nat)
    requires n < |s| && (s[n] == 0 || s[n] == NEWLINE)
    requires forall i :: 0 <= i < n ==> s[i] != 0 && s[i] != NEWLINE
    ensures Upto(s) == s[..n]
  {
    if n > 0 {
      UptoIs(s[1..], n - 1);
    }
  }

  /** Blocks by number. */
  type Blocks = map<int, seq<int>>

  /** Byte `x` of block `b`: block `oblock` is in memory and holds `ob`. */
  ghost function Cell(plain: Blocks, oblock: int, ob: seq<int>, b: int, x: int): int {
    if b == oblock then if 0 <= x < |ob| then ob[x] else 0
    else if b in plain && 0 <= x < |plain[b]| then plain[b][x]
    else 0
  }

  /** Byte `x` counted from the start of block `b`, which may be in the next block. */
  ghost function Along(plain: Blocks, oblock: int, ob: seq<int>, b: int, x: int): int {
    if x < SIZE then Cell(plain, oblock, ob, b, x) else Cell(plain, oblock, ob, b + 1, x - SIZE)
  }

  /** The first `n` bytes of `t` lie in the file from byte `o` of block `b` on. */
  ghost predicate Laid(plain: Blocks, oblock: int, ob: seq<int>, b: nat, o: nat, t: seq<int>, n: nat) {
    forall j {:trigger t[j]} :: 0 <= j < n && j < |t| ==> Along(plain, oblock, ob, b, o + j) == t[j]
  }

  /** The text `t` lies in the file at address `a`. */
  ghost predicate TextAt(plain: Blocks, oblock: int, ob: seq<int>, a: nat, t: seq<int>) {
    Laid(plain, oblock, ob, Bno(a), Off(a), t, |t|)
  }

  /** The bytes of the file before `limit` are the same; no line starts before
      byte 4. */
  ghost predicate SameBefore(plain: Blocks, oblock: int, ob: seq<int>, plain': Blocks, oblock': int, ob': seq<int>, limit: int) {
    forall b, x :: 0 <= b && 0 <= x < SIZE && 4 <= SIZE * b + x < limit ==> Cell(plain', oblock', ob', b, x) == Cell(plain, oblock, ob, b, x)
  }

  /** A line that has been put before `tline`. */
  ghost predicate Kept(plain: Blocks, oblock: int, ob: seq<int>, tline: nat, a: int, s: seq<int>) {
    && 2 <= a && a % 2 == 0 && 2 * a + |s| < 2 * tline && |s| < SIZE && 0 !in s
    && TextAt(plain, oblock, ob, a, s + [0])
  }

  /** What was put stays, as long as the bytes before `tline` stay. */
  lemma KeptSame(plain: Blocks, oblock: int, ob: seq<int>, plain': Blocks, oblock': int, ob': seq<int>,
                 tline: nat, tline': nat, a: int, s: seq<int>)
    requires Kept(plain, oblock, ob, tline, a, s) && tline <= tline' < 65536
    requires SameBefore(plain, oblock, ob, plain', oblock', ob', 2 * tline)
    ensures Kept(plain', oblock', ob', tline', a, s) == true
  {
    Place(a);
    var t := s + [0];
    forall i | 0 <= i < |t| ensures Along(plain', oblock', ob', Bno(a), Off(a) + i) == t[i] {
      assert Along(plain, oblock, ob, Bno(a), Off(a) + i) == t[i];
    }
  }

  lemma SameSelf(plain: Blocks, oblock: int, ob: seq<int>, limit: int)
    ensures SameBefore(plain, oblock, ob, plain, oblock, ob, limit)
  {
  }

  ghost predicate AllKept(plain: Blocks, oblock: int, ob: seq<int>, tline: nat, lines: map<int, seq<int>>) {
    forall a :: a in lines ==> Kept(plain, oblock, ob, tline, a, lines[a])
  }

  lemma AllKeptBelow(plain: Blocks, oblock: int, ob: seq<int>, tline: nat, lines: map<int, seq<int>>)
    requires AllKept(plain, oblock, ob, tline, lines)
    ensures forall a :: a in lines ==> a < tline
  {
  }

  /** Where the next line goes after a line of `n` bytes that ends in block `oblock`. */
  lemma NextLine(tline: nat, n: nat, oblock: int)
    requires tline % 2 == 0 && SIZE * oblock < 2 * tline + n <= SIZE * (oblock + 1)
    ensures (tline + Units(n)) % 2 == 0 && SIZE * oblock <= 2 * (tline + Units(n)) <= SIZE * (oblock + 1)
  {
    hide Units, Half;
    UnitsFacts(n);
    var k, u := Half(tline), Half(Units(n));
    InFours(k + u, oblock + 1);
    Even(k + u);
    assert tline + Units(n) == 2 * (k + u);
  }

  function Half(n: nat): (h: nat)
    requires n % 2 == 0
    ensures n == 2 * h
  {
    n / 2
  }

  lemma Even(n: int)
    ensures 2 * n % 2 == 0
  {
  }

  lemma InFours(m: int, b: int)
    requires 4 * m < SIZE * b + 4
    ensures 4 * m <= SIZE * b
  {
  }

  lemma AllKeptSame(plain: Blocks, oblock: int, ob: seq<int>, plain': Blocks, oblock': int, ob': seq<int>,
                    tline: nat, tline': nat, lines: map<int, seq<int>>)
    requires AllKept(plain, oblock, ob, tline, lines) && tline <= tline' < 65536
    requires SameBefore(plain, oblock, ob, plain', oblock', ob', 2 * tline) == true
    ensures AllKept(plain', oblock', ob', tline', lines) == true
  {
    forall a | a in lines ensures Kept(plain', oblock', ob', tline', a, lines[a]) {
      KeptSame(plain, oblock, ob, plain', oblock', ob', tline, tline', a, lines[a]);
    }
  }

  /** A new line, at `tline`. */
  lemma AllKeptMore(plain: Blocks, oblock: int, ob: seq<int>, tline: nat, tline': nat, lines: map<int, seq<int>>, s: seq<int>)
    requires AllKept(plain, oblock, ob, tline', lines) == true && forall a :: a in lines ==> a < tline
    requires tline >= 2 && tline % 2 == 0 && 2 * tline + |s| < 2 * tline' && |s| < SIZE && 0 !in s
    requires TextAt(plain, oblock, ob, tline, s + [0]) == true
    ensures AllKept(plain, oblock, ob, tline', lines[tline := s]) == true
  {
    assert Kept(plain, oblock, ob, tline', tline, s);
  }

  /** What the tables of the cipher do to a block on its way to the disk and back. */
  ghost function Coded(xtflag: bool, perm: seq<int>, s: seq<int>): seq<int> {
    if xtflag && Tables(perm) then Crypt(perm, s, 0) else s
  }

  class Temp {
    var disk: Blocks                 // the file behind `tfile`
    const ibuff: array<int>
    const obuff: array<int>
    const crbuf: array<int>
    const linebuf: array<int>
    const tperm: array<int>
    const xtflag: bool
    var iblock: int
    var oblock: int
    var ichanged: bool
    var nleft: int
    var tline: nat
    var linebp: int
    ghost var plain: Blocks          // what the blocks on the disk say
    ghost var lines: map<int, seq<int>>  // what has been put, by address

    ghost predicate Shaped() {
      && ibuff.Length == SIZE && obuff.Length == SIZE && crbuf.Length == SIZE && linebuf.Length == SIZE && tperm.Length == 768
      && ibuff !in {obuff, crbuf, linebuf, tperm} && obuff !in {crbuf, linebuf, tperm}
      && crbuf !in {linebuf, tperm} && linebuf != tperm
    }

    /** The blocks before the one being written are on the disk, and the block
        being read is one of them: it is never dirty. */
    ghost predicate Blocked()
      reads this, ibuff, obuff, tperm
    {
      && Shaped() && (xtflag ==> Machine(tperm[..])) && Bytes(obuff[..])
      && -1 <= oblock < NBLOCKS && -1 <= iblock && (oblock == -1 ==> iblock == -1)
      && (forall b :: 0 <= b < oblock ==> OnDisk(b))
      && (iblock >= 0 ==> iblock < oblock && OnDisk(iblock) && ibuff[..] == plain[iblock])
      && !ichanged
    }

    ghost predicate OnDisk(b: int)
      reads this`disk, this`plain, tperm
    {
      b in disk && b in plain && |plain[b]| == SIZE && Bytes(plain[b]) && disk[b] == Coded(xtflag, tperm[..], plain[b])
    }

    /** The next line goes into the block being written or to the start of the
        block after it. */
    ghost predicate Ready()
      reads this`oblock, this`tline
    {
      && tline % 2 == 0 && 2 <= tline && 2 * tline <= SIZE * NBLOCKS
      && (if oblock == -1 then tline == 2 else SIZE * oblock <= 2 * tline <= SIZE * (oblock + 1))
    }

    /** Every line that has been put is in the file, and the next one goes
        behind them all. */
    ghost predicate Placed()
      reads this`oblock, this`tline, this`plain, this`lines, obuff
    {
      Ready() && AllKept(plain, oblock, obuff[..], tline, lines)
    }

    ghost predicate Valid()
      reads this, ibuff, obuff, tperm
    {
      Blocked() && Placed()
    }

    constructor (perm: seq<int>, xtflag: bool)
      requires Tables(perm) && (xtflag ==> Machine(perm))
      ensures Valid() && lines == map[]
    {
      this.xtflag := xtflag;
      ibuff := new int[SIZE](_ => 0);
      obuff := new int[SIZE](_ => 0);
      crbuf := new int[SIZE](_ => 0);
      linebuf := new int[SIZE](_ => 0);
      tperm := new int[768](i requires 0 <= i < |perm| => perm[i]);
      disk, plain, lines := map[], map[], map[];
      iblock, oblock, ichanged, nleft, tline, linebp := -1, -1, false, 0, 2, 0;
      new;
      assert tperm[..] == perm;
    }

    /** The part of `init()` that empties the file. */
    method Init()
      requires Valid()
      modifies this`disk, this`plain, this`lines, this`iblock, this`oblock, this`ichanged, this`tline
      ensures Valid() && lines == map[] && tline == 2
    {
      tline, iblock, oblock, ichanged := 2, -1, -1, false;
      disk, plain, lines := map[], map[], map[];
    }

    /** `crblock(tperm, buf, 512, 0)` */
    method Recode(buf: array<int>)
      requires buf.Length == SIZE && buf != tperm && Tables(tperm[..])
      modifies buf
      ensures buf[..] == Crypt(tperm[..], old(buf[..]), 0)
    {
      assert old(buf[..SIZE]) == old(buf[..]);
      Crblock(tperm, buf, SIZE, 0);
      assert buf[..SIZE] == buf[..];
    }

    method CopyTo(src: array<int>, dst: array<int>)
      requires src.Length == SIZE == dst.Length && src != dst
      modifies dst
      ensures dst[..] == src[..]
    {
      for n := 0 to SIZE
        invariant dst[..n] == src[..n]
      {
        dst[n] := src[n];
      }
    }

    /** `blkio(oblock, ..., write)`, through `crbuf` if the file is encrypted. */
    method Flush()
      requires Blocked() && 0 <= oblock
      modifies this`disk, this`plain, crbuf
      ensures disk == old(disk)[oblock := Coded(xtflag, tperm[..], obuff[..])]
      ensures plain == old(plain)[oblock := obuff[..]]
    {
      if xtflag {
        CopyTo(obuff, crbuf);
        Recode(crbuf);
        disk := disk[oblock := crbuf[..]];
      } else {
        disk := disk[oblock := obuff[..]];
      }
      plain := plain[oblock := obuff[..]];
    }

    /** `getblock(atl, READ)` */
    method GetRead(atl: nat) returns (buf: array<int>, off: nat)
      requires Blocked() && atl < SIZE * NBLOCKS / 2 && Bno(atl) <= oblock
      modifies this`iblock, this`ichanged, this`nleft, ibuff
      ensures Blocked() == true && nleft == SIZE - off && off == Off(atl)
      ensures buf == ibuff || buf == obuff
      ensures forall x :: 0 <= x < SIZE ==> buf[x] == Cell(plain, oblock, obuff[..], Bno(atl), x)
    {
      var bno := Bno(atl);
      off := Off(atl);
      nleft := SIZE - off;
      if bno == iblock {
        return ibuff, off;
      }
      if bno == oblock {
        return obuff, off;
      }
      if ichanged {
        assert false;
      }
      assert OnDisk(bno);
      ichanged := false;
      iblock := bno;
      forall x | 0 <= x < SIZE {
        ibuff[x] := disk[bno][x];
      }
      assert ibuff[..] == disk[bno];
      if xtflag {
        Recode(ibuff);
        assert tperm[..] == old(tperm[..]);
        CryptTwice(tperm[..], plain[bno], 0);
      }
      buf := ibuff;
    }

    /** `getblock(atl, WRITE)`, for the block being written or the one after it. */
    method GetWrite(atl: nat) returns (ok: bool, off: nat)
      requires Blocked() && Bno(atl) <= oblock + 1 && (oblock >= 0 ==> oblock <= Bno(atl))
      modifies this`disk, this`oblock, this`nleft, this`plain, crbuf
      ensures Blocked() == true && (ok <==> Bno(atl) < NBLOCKS)
      ensures ok ==> oblock == Bno(atl) && off == Off(atl) && nleft == SIZE - off
      ensures !ok ==> oblock == old(oblock) && plain == old(plain)
      ensures obuff[..] == old(obuff[..])
      ensures SameBefore(old(plain), old(oblock), obuff[..], plain, oblock, obuff[..], SIZE * (old(oblock) + 1))
    {
      var bno := Bno(atl);
      off := Off(atl);
      if bno >= NBLOCKS {
        return false, off;
      }
      ok := true;
      nleft := SIZE - off;
      if bno == iblock {
        assert false;
      }
      if bno == oblock {
        return;
      }
      if oblock >= 0 {
        Flush();
        assert tperm[..] == old(tperm[..]) && obuff[..] == old(obuff[..]);
      }
      oblock := bno;
      forall b | 0 <= b < oblock ensures OnDisk(b) {
        assert b < old(oblock) ==> old(OnDisk(b));
      }
    }

    /** What the address of a line says about the place of its text. */
    lemma LinePlace(tl: nat, t: seq<int>)
      requires Placed() && oblock < NBLOCKS && tl - tl % 2 in lines && t == lines[tl - tl % 2] + [0]
      ensures var a := tl - tl % 2; var b, o := Bno(a), Off(a);
        && b == Bno(tl) && o == Off(tl) && tl - tl % 256 == 256 * b && tl < SIZE * NBLOCKS / 2
        && 1 <= |t| <= SIZE && SIZE * b + o + |t| <= SIZE * (oblock + 1)
        && Laid(plain, oblock, obuff[..], b, o, t, |t|) && forall j :: 0 <= j < |t| ==> (t[j] == 0 <==> j == |t| - 1)
    {
      var a := tl - tl % 2;
      assert Kept(plain, oblock, obuff[..], tline, a, lines[a]);
      Marked(tl);
      Place(a);
      Place(tl);
    }

    /** `getline(tl)`, where `tl` is the address of a line that has been put,
        marked or not: the line is back in `linebuf`. */
    method Getline(tl: nat)
      requires Valid() && tl - tl % 2 in lines
      modifies this`iblock, this`ichanged, this`nleft, ibuff, linebuf
      ensures Valid() == true && lines == old(lines) && tline == old(tline)
      ensures var s := lines[tl - tl % 2]; linebuf[..|s| + 1] == s + [0]
    {
      ghost var a, s := tl - tl % 2, lines[tl - tl % 2];
      ghost var t := s + [0];
      LinePlace(tl, t);
      Fetch(tl, Bno(a), Off(a), t);
    }

    /** The loop of `getline`. */
    method Fetch(tl: nat, ghost b: nat, ghost o: nat, ghost t: seq<int>)
      requires Shaped() && Blocked() == true && Laid(plain, oblock, obuff[..], b, o, t, |t|) == true
      requires 1 <= |t| <= SIZE && o < SIZE && SIZE * b + o + |t| <= SIZE * (oblock + 1) && oblock < NBLOCKS
      requires b == Bno(tl) && o == Off(tl) && tl - tl % 256 == 256 * b && tl < SIZE * NBLOCKS / 2
      requires forall j :: 0 <= j < |t| ==> (t[j] == 0 <==> j == |t| - 1)
      modifies this`iblock, this`ichanged, this`nleft, ibuff, linebuf
      ensures Blocked() == true && linebuf[..|t|] == t
    {
      hide Blocked, Bno, Off, Along;
      var lp := 0;
      var bp, off := ReadPart(tl, b, o, t, 0, 0);
      var nl := nleft;
      var tl' := tl - tl % 256;
      ghost var k := 0;
      while true
        invariant Blocked() == true && 0 <= lp < |t| <= SIZE && 0 <= off < SIZE && nl == SIZE - off
        invariant Laid(plain, oblock, obuff[..], b, o, t, |t|) == true
        invariant (bp == ibuff || bp == obuff) && Reading(bp[..], off, t, lp) == true
        invariant o + lp == SIZE * k + off && tl' == 256 * (b + k) && 0 <= k <= 1
        invariant forall j {:trigger t[j]} :: 0 <= j < lp ==> linebuf[j] == t[j]
        decreases |t| - lp
      {
        var c := bp[off];
        assert c == t[lp];
        linebuf[lp] := c;
        lp, off := lp + 1, off + 1;
        if c == 0 {
          break;
        }
        nl := nl - 1;
        if nl == 0 {
          tl', k := tl' + 256, k + 1;
          bp, off := ReadPart(tl', b, o, t, lp, k);
          nl := nleft;
        }
      }
    }

    /** The block with the rest of the text of a line, from its byte `lp` on. */
    method ReadPart(tl: nat, ghost b: nat, ghost o: nat, ghost t: seq<int>, ghost lp: nat, ghost k: nat)
      returns (buf: array<int>, off: nat)
      requires Blocked() == true && lp < |t| <= SIZE && k <= 1 && b + k < NBLOCKS && SIZE * b + o + |t| <= SIZE * (oblock + 1)
      requires Laid(plain, oblock, obuff[..], b, o, t, |t|) == true
      requires if k == 0 then Bno(tl) == b && Off(tl) == o < SIZE && lp == 0 && tl < SIZE * NBLOCKS / 2
               else tl == 256 * (b + 1) && o + lp == SIZE
      modifies this`iblock, this`ichanged, this`nleft, ibuff
      ensures Blocked() == true && (buf == ibuff || buf == obuff) && Reading(buf[..], off, t, lp) == true
      ensures nleft == SIZE - off && off == if k == 0 then o else 0
    {
      if k == 1 {
        BlockStart(b + 1);
      }
      hide Placed, AllKept;
      buf, off := GetRead(tl);
      forall j | lp <= j < |t| && off + j - lp < SIZE ensures buf[off + j - lp] == t[j] {
        assert Along(plain, oblock, obuff[..], b, o + j) == t[j];
      }
    }

    /** `putline()`: unless the file is full, the line in `linebuf` is kept, at
        an address that no line has had before. */
    method Putline() returns (ok: bool, nl: nat)
      requires Valid() && |Upto(linebuf[..])| < SIZE && Bytes(Upto(linebuf[..]))
      modifies this`disk, this`oblock, this`nleft, this`tline, this`linebp, this`plain, this`lines, crbuf, obuff
      ensures Valid() == true
      ensures ok <==> 2 * old(tline) + |Upto(linebuf[..])| + 1 <= SIZE * NBLOCKS
      ensures ok ==> nl == old(tline) && nl !in old(lines) && lines == old(lines)[nl := Upto(linebuf[..])]
      ensures ok ==> var n := |Upto(linebuf[..])|; linebp == if linebuf[n] == NEWLINE then n + 1 else old(linebp)
      ensures !ok ==> lines == old(lines) && tline == old(tline)
    {
      hide AllKept, TextAt, SameBefore, Upto;
      ghost var text := Upto(linebuf[..]);
      nl := tline;
      AllKeptBelow(plain, oblock, obuff[..], tline, lines);
      var lp;
      ok, lp := Store(text + [0]);
      if ok {
        UnitsFacts(lp);
        AllKeptSame(old(plain), old(oblock), old(obuff[..]), plain, oblock, obuff[..], tline, tline + Units(lp), lines);
        AllKeptMore(plain, oblock, obuff[..], tline, tline + Units(lp), lines, text);
        NextLine(tline, lp, oblock);
        tline := tline + Units(lp);
        lines := lines[nl := text];
      } else {
        AllKeptSame(old(plain), old(oblock), old(obuff[..]), plain, oblock, obuff[..], tline, tline, lines);
      }
    }

    /** The loop of `putline`. */
    method Store(ghost t: seq<int>) returns (ok: bool, lp: nat)
      requires Valid() == true && t == Upto(linebuf[..]) + [0] && |t| <= SIZE && Bytes(t) == true
      modifies this`disk, this`oblock, this`nleft, this`linebp, this`plain, crbuf, obuff
      ensures Blocked() == true
      ensures SameBefore(old(plain), old(oblock), old(obuff[..]), plain, oblock, obuff[..], 2 * tline) == true
      ensures ok ==> lp == |t| && TextAt(plain, oblock, obuff[..], tline, t) == true
      ensures ok ==> 0 <= oblock < NBLOCKS && SIZE * oblock < 2 * tline + |t| <= SIZE * (oblock + 1)
      ensures ok ==> linebp == if linebuf[|t| - 1] == NEWLINE then |t| else old(linebp)
      ensures !ok ==> Ready() && 2 * tline + |t| > SIZE * NBLOCKS
    {
      hide SameBefore, AllKept, Along, Upto, Laid;
      ghost var P, Q, ob, b, o := plain, oblock, obuff[..], Bno(tline), Off(tline);
      lp := 0;
      var tl := tline - tline % 256;
      var off: nat;
      ok, off := FirstBlock(t);
      if !ok {
        SameSelf(P, Q, ob, 2 * tline);
        return;
      }
      var nl := nleft;
      assert Shaped() && obuff[..] == ob && linebuf[..] == old(linebuf[..]);
      while true
        invariant Blocked() == true && Storing(P, Q, ob, b, o, t, lp, off, nl, tl) == true
        invariant t == Upto(linebuf[..]) + [0] && linebp == old(linebp)
        decreases |t| - lp
      {
        var more := StoreByte(off, P, Q, ob, b, o, t, lp);
        lp := lp + 1;
        if !more {
          break;
        }
        off, nl := off + 1, nl - 1;
        if nl == 0 {
          tl := tl + 256;
          ok, off := NextBlock(tl, P, Q, ob, b, o, t, lp);
          if !ok {
            return;
          }
          nl := nleft;
        }
      }
    }

    /** `putline` is about to store byte `lp` of `t`. */
    ghost predicate Storing(P: Blocks, Q: int, ob: seq<int>, b: nat, o: nat, t: seq<int>, lp: nat, off: nat, nl: int, tl: int)
      reads this`plain, this`oblock, obuff
    {
      && Written(P, Q, ob, plain, oblock, obuff[..], b, o, t, lp, off) && Spot(off, oblock, b, o, t, lp)
      && 0 <= oblock < NBLOCKS && nl == SIZE - off && tl == 256 * oblock && Bytes(t)
    }

    /** The first block that `putline` writes to. */
    method FirstBlock(ghost t: seq<int>) returns (ok: bool, off: nat)
      requires Valid() && 1 <= |t| <= SIZE
      modifies this`disk, this`oblock, this`nleft, this`plain, crbuf
      ensures Blocked() == true && (ok <==> 2 * tline < SIZE * NBLOCKS)
      ensures ok ==> var b, o := Bno(tline), Off(tline);
        Written(old(plain), old(oblock), obuff[..], plain, oblock, obuff[..], b, o, t, 0, off) == true
      ensures ok ==> oblock == Bno(tline) && off == Off(tline) && nleft == SIZE - off && tline - tline % 256 == 256 * oblock
      ensures ok ==> SIZE * oblock + off == 2 * tline && oblock < NBLOCKS
      ensures !ok ==> oblock == old(oblock) && plain == old(plain)
    {
      Place(tline);
      hide AllKept;
      ok, off := GetWrite(tline);
    }

    /** One byte of `putline`: the end of a line is stored as a NUL. */
    method StoreByte(off: nat, ghost P: Blocks, ghost Q: int, ghost ob: seq<int>, ghost b: nat, ghost o: nat, ghost t: seq<int>, lp: nat)
      returns (more: bool)
      requires Blocked() == true && t == Upto(linebuf[..]) + [0] && Bytes(t) == true
      requires Written(P, Q, ob, plain, oblock, obuff[..], b, o, t, lp, off) == true
      modifies this`linebp, obuff
      ensures Blocked() == true && SameBefore(P, Q, ob, plain, oblock, obuff[..], SIZE * b + o) == true
      ensures Laid(plain, oblock, obuff[..], b, o, t, lp + 1) == true
      ensures more <==> lp < |t| - 1
      ensures linebp == if !more && linebuf[lp] == NEWLINE then lp + 1 else old(linebp)
    {
      WriteByte(P, Q, ob, plain, oblock, obuff[..], b, o, t, lp, off);
      ghost var was := obuff[..];
      var c := linebuf[lp];
      obuff[off] := c;
      more := c != 0;
      if c == NEWLINE {
        obuff[off] := 0;
        linebp := lp + 1;
        more := false;
      }
      assert obuff[..] == was[off := t[lp]];
    }

    /** `putline` goes on in the next block. */
    method NextBlock(tl: nat, ghost P: Blocks, ghost Q: int, ghost ob: seq<int>, ghost b: nat, ghost o: nat, ghost t: seq<int>, ghost n: nat)
      returns (ok: bool, off: nat)
      requires Blocked() == true && oblock == b < NBLOCKS && tl == 256 * (b + 1) && o + n == SIZE && 4 <= SIZE * b + o && n < |t| <= SIZE
      requires SameBefore(P, Q, ob, plain, oblock, obuff[..], SIZE * b + o) == true
      requires Laid(plain, oblock, obuff[..], b, o, t, n) == true
      modifies this`disk, this`oblock, this`nleft, this`plain, crbuf
      ensures Blocked() == true && (ok <==> b + 1 < NBLOCKS)
      ensures ok ==> Written(P, Q, ob, plain, oblock, obuff[..], b, o, t, n, off) == true
      ensures ok ==> oblock == b + 1 && nleft == SIZE - off
      ensures !ok ==> oblock == b && SameBefore(P, Q, ob, plain, oblock, obuff[..], SIZE * b + o) == true
    {
      BlockStart(b + 1);
      ghost var plain0, ob0 := plain, obuff[..];
      ok, off := GetWrite(tl);
      if ok {
        WriteOn(P, Q, ob, plain0, b, ob0, plain, b, o, t, n);
      }
    }

    /** A line comes into `linebuf` from somewhere else. */
    method Enter(s: seq<int>)
      requires Shaped() && IsLine(s)
      modifies linebuf
      ensures Upto(linebuf[..]) == s
    {
      for i := 0 to |s|
        invariant forall j :: 0 <= j < i ==> linebuf[j] == s[j]
      {
        linebuf[i] := s[i];
      }
      linebuf[|s|] := 0;
      UptoIs(linebuf[..], |s|);
      assert linebuf[..][..|s|] == s;
    }

    /** What `linebuf` holds, up to its NUL. */
    method Line(ghost t: seq<int>) returns (s: seq<int>)
      requires Shaped() && |t| < SIZE && linebuf[..|t| + 1] == t + [0] && 0 !in t
      ensures s == t
    {
      s := [];
      assert linebuf[|t|] == linebuf[..|t| + 1][|t|] == 0;
      forall j | 0 <= j < |t| ensures linebuf[j] == t[j] && linebuf[j] != 0 {
        assert linebuf[j] == linebuf[..|t| + 1][j] && t[j] in t;
      }
      while linebuf[|s|] != 0
        invariant |s| <= |t| && s == t[..|s|]
        decreases |t| - |s|
      {
        s := s + [linebuf[|s|]];
      }
    }

    /** Any run of `putline` and `getline`, until the file is full: asking for
        the line that was put as number `k` gives that line. */
    method Run(ops: seq<Op>) returns (full: bool, out: seq<seq<int>>)
      requires Valid() && lines == map[]
      requires forall i :: 0 <= i < |ops| && ops[i].Put? ==> IsLine(ops[i].s)
      modifies this`disk, this`iblock, this`oblock, this`ichanged, this`nleft, this`tline, this`linebp, this`plain, this`lines
      modifies ibuff, obuff, crbuf, linebuf
      ensures Valid()
      ensures if full then exists n :: 0 <= n <= |ops| && out == Replies(ops[..n]) else out == Replies(ops)
    {
      full, out := false, [];
      var addrs: seq<nat> := [];
      assert ops[..0] == [];
      for i := 0 to |ops|
        invariant Valid() == true && out == Replies(ops[..i]) && Holds(addrs, Puts(ops[..i]), lines) == true
      {
        assert ops[..i + 1][..i] == ops[..i];
        match ops[i] {
          case Put(s) =>
            var ok, a := PutOne(s, addrs, Puts(ops[..i]));
            if !ok {
              return true, out;
            }
            addrs := addrs + [a];
          case Get(k) =>
            if k < |addrs| {
              var line := GetOne(k, addrs, Puts(ops[..i]));
              out := out + [line];
            }
        }
      }
      assert ops[..|ops|] == ops;
    }

    method PutOne(s: seq<int>, ghost addrs: seq<nat>, ghost puts: seq<seq<int>>) returns (ok: bool, a: nat)
      requires Valid() == true && IsLine(s) && Holds(addrs, puts, lines) == true
      modifies this`disk, this`oblock, this`nleft, this`tline, this`linebp, this`plain, this`lines, crbuf, obuff, linebuf
      ensures Valid() == true && (ok ==> Holds(addrs + [a], puts + [s], lines) == true)
    {
      assert Shaped() && tline % 2 == 0;
      hide Blocked, AllKept;
      ghost var was := lines;
      Enter(s);
      ok, a := Putline();
      assert forall j :: 0 <= j < |addrs| ==> addrs[j] in was;
    }

    method GetOne(k: nat, addrs: seq<nat>, ghost puts: seq<seq<int>>) returns (line: seq<int>)
      requires Valid() == true && Holds(addrs, puts, lines) == true && k < |addrs|
      modifies this`iblock, this`ichanged, this`nleft, ibuff, linebuf
      ensures Valid() == true && line == puts[k] && lines == old(lines)
    {
      assert Kept(plain, oblock, obuff[..], tline, addrs[k], lines[addrs[k]]);
      assert Shaped();
      hide Blocked, AllKept, Kept;
      Getline(addrs[k]);
      line := Line(puts[k]);
    }
  }

  datatype Op = Put(s: seq<int>) | Get(k: nat)

  predicate IsLine(s: seq<int>) {
    |s| < SIZE && Bytes(s) && 0 !in s && NEWLINE !in s
  }

  /** The lines put so far. */
  function Puts(ops: seq<Op>): seq<seq<int>> {
    if ops == [] then []
    else
      var n := |ops| - 1;
      Puts(ops[..n]) + if ops[n].Put? then [ops[n].s] else []
  }

  /** What the requests should give. */
  function Replies(ops: seq<Op>): seq<seq<int>> {
    if ops == [] then []
    else
      var n := |ops| - 1;
      Replies(ops[..n]) + if ops[n].Get? && ops[n].k < |Puts(ops[..n])| then [Puts(ops[..n])[ops[n].k]] else []
  }

  /** The lines are at their addresses. */
  ghost predicate Holds(addrs: seq<nat>, puts: seq<seq<int>>, lines: map<int, seq<int>>) {
    |addrs| == |puts| && forall j :: 0 <= j < |addrs| ==> addrs[j] % 2 == 0 && addrs[j] in lines && lines[addrs[j]] == puts[j]
  }

  /** From `off` on, `buf` holds the text from byte `lp` on, as far as it goes. */
  ghost predicate Reading(buf: seq<int>, off: nat, t: seq<int>, lp: nat) {
    |buf| == SIZE && forall j {:trigger t[j]} :: lp <= j < |t| && off + j - lp < SIZE ==> buf[off + j - lp] == t[j]
  }

  /** The address of the start of a block. */
  lemma BlockStart(b: nat)
    requires b < 256
    ensures Bno(256 * b) == b && Off(256 * b) == 0
  {
  }

  /** The first `n` bytes of `t` have been written behind everything that was
      before them; the next one goes to place `off` of block `oblock`. */
  ghost predicate Written(plain0: Blocks, oblock0: int, ob0: seq<int>, plain: Blocks, oblock: int, ob: seq<int>,
                          b: nat, o: nat, t: seq<int>, n: nat, off: nat) {
    && Spot(off, oblock, b, o, t, n) && |ob| == SIZE
    && SameBefore(plain0, oblock0, ob0, plain, oblock, ob, SIZE * b + o)
    && Laid(plain, oblock, ob, b, o, t, n)
  }

  /** Where byte `n` of a text goes. */
  ghost predicate Spot(off: nat, oblock: int, b: nat, o: nat, t: seq<int>, n: nat) {
    && n < |t| <= SIZE && off < SIZE && 4 <= SIZE * b + o
    && ((oblock == b && o + n == off) || (oblock == b + 1 && o + n == SIZE + off))
  }

  /** One more byte. */
  lemma WriteByte(plain0: Blocks, oblock0: int, ob0: seq<int>, plain: Blocks, oblock: int, ob: seq<int>,
                  b: nat, o: nat, t: seq<int>, n: nat, off: nat)
    requires Written(plain0, oblock0, ob0, plain, oblock, ob, b, o, t, n, off)
    ensures var ob' := ob[off := t[n]];
      && SameBefore(plain0, oblock0, ob0, plain, oblock, ob', SIZE * b + o)
      && Laid(plain, oblock, ob', b, o, t, n + 1)
  {
    var ob' := ob[off := t[n]];
    assert forall c, x :: c != oblock || x != off ==> Cell(plain, oblock, ob', c, x) == Cell(plain, oblock, ob, c, x);
    assert Along(plain, oblock, ob', b, o + n) == t[n];
  }

  /** Going on in the next block. */
  lemma WriteOn(plain0: Blocks, oblock0: int, ob0: seq<int>, plain: Blocks, oblock: int, ob: seq<int>,
                plain': Blocks, b: nat, o: nat, t: seq<int>, n: nat)
    requires SameBefore(plain0, oblock0, ob0, plain, oblock, ob, SIZE * b + o) && oblock == b && o + n == SIZE
    requires SameBefore(plain, oblock, ob, plain', b + 1, ob, SIZE * (b + 1)) && n < |t| <= SIZE == |ob| && 4 <= SIZE * b + o
    requires Laid(plain, oblock, ob, b, o, t, n)
    ensures Written(plain0, oblock0, ob0, plain', b + 1, ob, b, o, t, n, 0) == true
  {
    forall j | 0 <= j < n ensures Along(plain', b + 1, ob, b, o + j) == t[j] {
      assert Along(plain, oblock, ob, b, o + j) == t[j];
    }
  }

  /** A mark does not change the place of a line. */
  lemma Marked(tl: nat)
    ensures Bno(tl) == Bno(tl - tl % 2) && Off(tl) == Off(tl - tl % 2)
  {
    var a := tl - tl % 2;
    assert tl / 2 == a / 2;
    assert tl / 256 == tl / 2 / 128 && a / 256 == a / 2 / 128;
  }
}
