/** The archives of tar (bin/tar/tar.c): blocks that go through a buffer of one
    tape record, files that change while they are read, and reading them back. */
module Tar {
  import opened Wrappers

  const TBLOCK: nat := 512
  const NBLOCK: nat := 20
  const NAMSIZ: nat := 100

  newtype Byte = x: int | 0 <= x < 256

  datatype Kind = Regular | HardLink | Other

  /** A block is a header, or 512 bytes; the text of a header is not looked into. */
  datatype Block = Head(name: string, size: nat, kind: Kind, link: string) | Data(bytes: seq<Byte>)

  const EMPTY: Block := Data(seq(TBLOCK, _ => 0 as Byte))

  predicate Whole(b: Block) {
    b.Data? && |b.bytes| == TBLOCK
  }

  /** The blocks that so many bytes take. */
  function Blocks(size: nat): (n: nat)
    ensures n * TBLOCK >= size
    ensures size > 0 ==> (n - 1) * TBLOCK < size
  {
    (size + (TBLOCK - 1)) / TBLOCK
  }

  /** Records one after the other. */
  function Flat(rs: seq<seq<Block>>): seq<Block> {
    if rs == [] then [] else Flat(rs[..|rs| - 1]) + rs[|rs| - 1]
  }

  lemma FlatSnoc(rs: seq<seq<Block>>, r: seq<Block>)
    ensures Flat(rs + [r]) == Flat(rs) + r
  {
    assert (rs + [r])[..|rs|] == rs;
  }

  lemma FlatNone()
    ensures Flat([]) == []
  {
  }

  lemma {:induction false} FlatCons(rs: seq<seq<Block>>)
    requires rs != []
    ensures Flat(rs) == rs[0] + Flat(rs[1..])
  {
    hide Flat;
    FlatNone();
    var n := |rs| - 1;
    var front, last := rs[..n], rs[n];
    FlatSnoc(front, last);
    assert rs == front + [last];
    if n == 0 {
      assert front == [] && rs[1..] == [];
      assert rs[0] == last;
    } else {
      FlatCons(front);
      FlatSnoc(front[1..], last);
      assert rs[1..] == front[1..] + [last];
    }
  }

  // ------------------------------------------------------------ archives

  /** The blocks behind a header: none if it is that of a link to a file stored before. */
  function Behind(h: Block): nat
    requires h.Head?
  {
    if h.kind == HardLink then 0 else Blocks(h.size)
  }

  /** What is stored of a file, which is known by its inode and device. */
  datatype Member = Member(head: Block, data: seq<Block>, inum: int, devnum: int)

  ghost predicate Proper(m: Member) {
    m.head.Head? && (m.head.kind == Other ==> m.head.size == 0) && |m.data| == Behind(m.head) && forall k :: 0 <= k < |m.data| ==> Whole(m.data[k])
  }

  function Archive(ms: seq<Member>): seq<Block> {
    if ms == [] then [] else [ms[0].head] + ms[0].data + Archive(ms[1..])
  }

  lemma {:induction false} ArchiveSnoc(ms: seq<Member>, m: Member)
    ensures Archive(ms + [m]) == Archive(ms) + [m.head] + m.data
  {
    if ms == [] {
      assert (ms + [m])[1..] == [];
    } else {
      assert (ms + [m])[1..] == ms[1..] + [m];
      ArchiveSnoc(ms[1..], m);
    }
  }

  /** The bytes of data blocks. */
  function Bytes(bs: seq<Block>): (r: seq<Byte>) {
    if bs == [] then [] else (if bs[0].Data? then bs[0].bytes else []) + Bytes(bs[1..])
  }

  lemma {:induction false} BytesAdd(a: seq<Block>, b: seq<Block>)
    ensures Bytes(a + b) == Bytes(a) + Bytes(b)
  {
    if a == [] {
      assert a + b == b;
    } else {
      assert (a + b)[1..] == a[1..] + b;
      BytesAdd(a[1..], b);
    }
  }

  lemma {:induction false} BytesLength(bs: seq<Block>)
    requires forall k :: 0 <= k < |bs| ==> Whole(bs[k])
    ensures |Bytes(bs)| == |bs| * TBLOCK
  {
    if bs != [] {
      BytesLength(bs[1..]);
    }
  }

  // ------------------------------------------------------------ writing

  /** Cutting a buffer into blocks. */
  function Cut(buf: seq<Byte>, n: nat): (r: seq<Block>)
    requires n * TBLOCK <= |buf|
    ensures |r| == n
  {
    if n == 0 then [] else Cut(buf, n - 1) + [Data(buf[(n - 1) * TBLOCK..n * TBLOCK])]
  }

  lemma {:induction false} CutFacts(buf: seq<Byte>, n: nat)
    requires n * TBLOCK <= |buf|
    ensures Bytes(Cut(buf, n)) == buf[..n * TBLOCK]
    ensures forall k :: 0 <= k < n ==> Whole(Cut(buf, n)[k])
  {
    if n > 0 {
      CutFacts(buf, n - 1);
      var last := Data(buf[(n - 1) * TBLOCK..n * TBLOCK]);
      BytesAdd(Cut(buf, n - 1), [last]);
      assert Bytes([last]) == last.bytes + Bytes([]) == last.bytes;
      assert buf[..n * TBLOCK] == buf[..(n - 1) * TBLOCK] + last.bytes;
    }
  }

  /** An open file, by what `read` will give: some bytes at a time, or an error. */
  class Source {
    var script: seq<Option<seq<Byte>>>

    constructor (script: seq<Option<seq<Byte>>>)
      ensures this.script == script
    {
      this.script := script;
    }

    /** Every read is full until the end. */
    ghost predicate Steady()
      reads this
    {
      script == [] || (|script| == 1 && script[0].Some?)
    }

    ghost function Ahead(): seq<Byte>
      reads this
    {
      if script == [] || script[0].None? then [] else script[0].value
    }

    method Read(buf: array<Byte>, n: nat) returns (i: int)
      requires n <= buf.Length
      modifies this, buf
      ensures -1 <= i <= n
      ensures old(Steady()) ==> Steady() && i == Min(n, |old(Ahead())|)
                                && buf[..i] == old(Ahead())[..i] && Ahead() == old(Ahead())[i..]
    {
      if script == [] {
        return 0;
      }
      if script[0] == None {
        script := script[1..];
        return -1;
      }
      var c := script[0].value;
      i := Min(n, |c|);
      forall k | 0 <= k < i {
        buf[k] := c[k];
      }
      script := if i == |c| then script[1..] else [Some(c[i..])] + script[1..];
    }
  }

  function Min(a: int, b: int): int {
    if a < b then a else b
  }

  // ------------------------------------------------------------ copying a file

  /** As far as both go. */
  ghost predicate Agree(d: seq<Byte>, content: seq<Byte>) {
    forall x :: 0 <= x < |d| && x < |content| ==> d[x] == content[x]
  }

  /** Where the copying stands: `i` bytes have been read behind those written, and
      there are more only if that is a whole number of blocks. */
  ghost predicate Copying(d: seq<Byte>, buf: seq<Byte>, i: int, ahead: seq<Byte>, content: seq<Byte>) {
    && Agree(d, content) && i <= |buf|
    && (i > 0 ==> |d| + i <= |content| && buf[..i] == content[|d|..|d| + i] && ahead == content[|d| + i..])
    && (i > 0 && i % TBLOCK != 0 ==> ahead == [])
    && (i <= 0 ==> |d| >= |content|)
  }

  /** As much is read as keeps in step with the records; that is a whole number of blocks. */
  lemma ReadFits(hint: nat, nblock: nat, maxread: nat, i: int) returns (q: nat)
    requires 0 < hint <= nblock && (maxread >= nblock * TBLOCK || maxread == TBLOCK) && i <= Min(hint * TBLOCK, maxread)
    ensures Min(hint * TBLOCK, maxread) == q * TBLOCK && 0 < q && (i > 0 ==> ((i - 1) / TBLOCK + 1) * TBLOCK <= q * TBLOCK <= maxread)
  {
    q := if maxread >= nblock * TBLOCK then hint else 1;
    if i > 0 {
      assert (i - 1) / TBLOCK < q;
    }
  }

  /** What is still to be read of the file, behind what has been written. */
  ghost predicate Following(d: seq<Byte>, ahead: seq<Byte>, content: seq<Byte>) {
    Agree(d, content) && if |d| <= |content| then ahead == content[|d|..] else ahead == []
  }

  lemma FollowingNone(content: seq<Byte>)
    ensures Following(Bytes([]), content, content) && Agree(Bytes([]), content)
  {
  }

  lemma CopiedAll(d: seq<Byte>, buf: seq<Byte>, i: int, ahead: seq<Byte>, content: seq<Byte>)
    requires Copying(d, buf, i, ahead, content) && i <= 0
    ensures |d| >= |content|
  {
  }

  lemma Read1(d: seq<Byte>, buf: seq<Byte>, q: nat, i: int, ahead: seq<Byte>, content: seq<Byte>, was: seq<Byte>)
    requires Following(d, was, content) && 0 < q && i == Min(q * TBLOCK, |was|) && i <= |buf| && buf[..i] == was[..i] && ahead == was[i..]
    ensures Copying(d, buf, i, ahead, content)
  {
    if i > 0 {
      assert content[|d|..][..i] == content[|d|..|d| + i];
      assert content[|d|..][i..] == content[|d| + i..];
    }
  }

  lemma Wrote(d: seq<Byte>, buf: seq<Byte>, i: int, n: nat, ahead: seq<Byte>, content: seq<Byte>)
    requires Copying(d, buf, i, ahead, content) && i > 0 && n * TBLOCK <= |buf| && (n - 1) * TBLOCK < i
    ensures Agree(d + buf[..n * TBLOCK], content)
    ensures n == (i - 1) / TBLOCK + 1 ==> Following(d + buf[..n * TBLOCK], ahead, content)
  {
    var d' := d + buf[..n * TBLOCK];
    Whole1(i, n);
    if i % TBLOCK != 0 {
      assert |content[|d| + i..]| == 0;
    }
    forall x | 0 <= x < |d'| && x < |content| ensures d'[x] == content[x] {
      if x >= |d| {
        var k := x - |d|;
        if k < i {
          assert buf[..i][k] == content[|d|..|d| + i][k];
        }
      }
    }
  }

  /** The blocks that have been read, at least in part, but no more than are called for. */
  function Taken(i: int, blocks: int): (n: int)
    requires i > 0 && blocks > 0
    ensures 0 < n <= blocks && (n - 1) * TBLOCK < i && n <= (i - 1) / TBLOCK + 1
    ensures n < blocks ==> n == (i - 1) / TBLOCK + 1
  {
    var nblks := (i - 1) / TBLOCK + 1;
    if nblks > blocks then blocks else nblks
  }

  lemma Whole1(i: int, n: nat)
    requires i > 0 && (n - 1) * TBLOCK < i
    ensures n * TBLOCK > i ==> i % TBLOCK != 0
    ensures n == (i - 1) / TBLOCK + 1 ==> n * TBLOCK >= i && (i % TBLOCK == 0 ==> n * TBLOCK == i)
  {
  }

  /** `struct linkbuf` */
  datatype Link = Link(inum: int, devnum: int, count: int, pathname: string)

  predicate Names(l: Link, inum: int, devnum: int) {
    l.inum == inum && l.devnum == devnum
  }

  /** The bytes of the file are stored under the name that is remembered for it. */
  ghost predicate Stands(ms: seq<Member>, l: Link) {
    exists k :: 0 <= k < |ms| && StandsAt(ms[k], l)
  }

  predicate StandsAt(m: Member, l: Link) {
    m.head.Head? && m.head.kind == Regular && m.head.name == l.pathname && m.inum == l.inum && m.devnum == l.devnum
  }

  lemma StandMore(ms: seq<Member>, m: Member)
    ensures forall l :: Stands(ms, l) ==> Stands(ms + [m], l)
  {
    forall l | Stands(ms, l) ensures Stands(ms + [m], l) {
      var k :| 0 <= k < |ms| && StandsAt(ms[k], l);
      assert (ms + [m])[k] == ms[k];
    }
  }

  ghost predicate AllStand(ihead: seq<Link>, ms: seq<Member>) {
    forall k :: 0 <= k < |ihead| ==> Stands(ms, ihead[k])
  }

  lemma StandCounted(ihead: seq<Link>, ms: seq<Member>, m: Member, k: nat)
    requires AllStand(ihead, ms) && k < |ihead|
    ensures AllStand(ihead[k := ihead[k].(count := ihead[k].count - 1)], ms + [m])
  {
    hide Stands;
    StandMore(ms, m);
    StandsCount(ms + [m], ihead[k], ihead[k].count - 1);
  }

  lemma StandFirst(ihead: seq<Link>, ms: seq<Member>, m: Member, l: Link)
    requires AllStand(ihead, ms)
    ensures AllStand(ihead, ms + [m]) && (StandsAt(m, l) ==> AllStand([l] + ihead, ms + [m]))
  {
    StandMore(ms, m);
    if StandsAt(m, l) {
      assert (ms + [m])[|ms|] == m;
      assert Stands(ms + [m], l);
    }
  }

  /** Where the first link to a file is, or how many there are. */
  function FirstLink(ihead: seq<Link>, inum: int, devnum: int): (k: nat)
    ensures k <= |ihead| && (k < |ihead| ==> Names(ihead[k], inum, devnum))
    ensures forall x :: 0 <= x < k ==> !Names(ihead[x], inum, devnum)
  {
    if ihead == [] || Names(ihead[0], inum, devnum) then 0 else 1 + FirstLink(ihead[1..], inum, devnum)
  }

  /** The name remembered for a file. */
  function Path(ihead: seq<Link>, inum: int, devnum: int): Option<string> {
    var k := FirstLink(ihead, inum, devnum);
    if k < |ihead| then Some(ihead[k].pathname) else None
  }

  /** The list of links once another name of a file has been stored. */
  function Remember(ihead: seq<Link>, inum: int, devnum: int, nlink: int, memory: bool, name: string): seq<Link> {
    var k := FirstLink(ihead, inum, devnum);
    if nlink <= 1 then ihead
    else if k < |ihead| then ihead[k := ihead[k].(count := ihead[k].count - 1)]
    else if memory then [Link(inum, devnum, nlink - 1, name)] + ihead
    else ihead
  }

  lemma RememberIs(ihead: seq<Link>, inum: int, devnum: int, nlink: int, memory: bool, name: string)
    ensures var k := FirstLink(ihead, inum, devnum);
            Remember(ihead, inum, devnum, nlink, memory, name)
            == if nlink > 1 && k < |ihead| then ihead[k := ihead[k].(count := ihead[k].count - 1)]
               else if nlink > 1 && memory then [Link(inum, devnum, nlink - 1, name)] + ihead
               else ihead
  {
  }

  lemma StandsCount(ms: seq<Member>, l: Link, count: int)
    requires Stands(ms, l)
    ensures Stands(ms, l.(count := count))
  {
    var k :| 0 <= k < |ms| && StandsAt(ms[k], l);
    assert StandsAt(ms[k], l.(count := count));
  }

  /** What is stored of a file: its bytes, or a link to the name they are stored under. */
  ghost predicate Put(m: Member, name: string, size: nat, inum: int, devnum: int, path: Option<string>) {
    && Proper(m) && m.inum == inum && m.devnum == devnum
    && m.head == (if path.Some? then Head(name, size, HardLink, path.value) else Head(name, size, Regular, ""))
  }

  /** It remembers the first name of each file that has more than one. */
  lemma Remembered(ihead: seq<Link>, inum: int, devnum: int, nlink: int, memory: bool, name: string, x: int, d: int)
    ensures Path(Remember(ihead, inum, devnum, nlink, memory, name), x, d)
            == if x == inum && d == devnum && nlink > 1 && memory && Path(ihead, x, d).None? then Some(name) else Path(ihead, x, d)
  {
    var k := FirstLink(ihead, inum, devnum);
    if nlink > 1 && k < |ihead| {
      var more := ihead[k := ihead[k].(count := ihead[k].count - 1)];
      var y, z := FirstLink(ihead, x, d), FirstLink(more, x, d);
      assert forall q :: 0 <= q < |ihead| ==> Names(more[q], x, d) == Names(ihead[q], x, d) && more[q].pathname == ihead[q].pathname;
      assert y == z;
    } else if nlink > 1 && memory {
      var more := [Link(inum, devnum, nlink - 1, name)] + ihead;
      assert more[1..] == ihead;
    }
  }

  class Writer {
    var ihead: seq<Link>
    const nblock: nat
    const tbuf: array<Block>
    var recno: nat
    var tape: seq<seq<Block>>

    ghost predicate Valid()
      reads this`tape, this`recno
    {
      tbuf.Length == nblock > 0 && recno <= nblock && forall k :: 0 <= k < |tape| ==> |tape[k]| == nblock
    }

    /** All blocks written, in the records of the tape and in the buffer. */
    ghost function Stream(): seq<Block>
      requires Valid()
      reads this`tape, this`recno, tbuf
    {
      Flat(tape) + tbuf[..recno]
    }

    constructor (nblock: nat)
      requires nblock > 0
      ensures Valid() && fresh(tbuf) && this.nblock == nblock && Stream() == [] && ihead == []
    {
      this.nblock := nblock;
      tbuf := new Block[nblock](_ => EMPTY);
      recno := 0;
      tape := [];
      ihead := [];
    }

    /** `write`, when nothing is in the buffer. */
    method Write(r: seq<Block>)
      requires Valid() && |r| == nblock && recno == 0
      modifies this`tape
      ensures Valid() && Stream() == old(Stream()) + r
    {
      FlatSnoc(tape, r);
      assert tbuf[..0] == [];
      tape := tape + [r];
    }

    /** `write`, of a full buffer. */
    method Flush()
      requires Valid() && recno >= nblock
      modifies this`tape, this`recno
      ensures Valid() && recno == 0 && Stream() == old(Stream())
    {
      assert tbuf[..] == tbuf[..recno];
      FlatSnoc(tape, tbuf[..]);
      tape := tape + [tbuf[..]];
      recno := 0;
      assert tbuf[..0] == [];
    }

    method Push(b: Block)
      requires Valid() && recno < nblock
      modifies this`recno, tbuf
      ensures Valid() && recno == old(recno) + 1 && Stream() == old(Stream()) + [b]
    {
      ghost var was := tbuf[..recno];
      tbuf[recno] := b;
      recno := recno + 1;
      assert tbuf[..recno] == was + [b];
    }

    /** The records stay whole, whether blocks go through the buffer or past it. */
    method Writetbuf(buffer: seq<Block>) returns (hint: nat)
      requires Valid()
      modifies this`tape, this`recno, tbuf
      ensures Valid() && Stream() == old(Stream()) + buffer
      ensures recno < nblock && hint == nblock - recno
    {
      hide Flat;
      if recno >= nblock {
        Flush();
      }
      var n, b := |buffer|, 0;
      assert buffer[..0] == [];
      while recno == 0 && n >= nblock
        invariant Valid() && recno < nblock && 0 <= b <= |buffer| && n == |buffer| - b
        invariant Stream() == old(Stream()) + buffer[..b]
      {
        assert buffer[..b] + buffer[b..b + nblock] == buffer[..b + nblock];
        Write(buffer[b..b + nblock]);
        n, b := n - nblock, b + nblock;
      }
      while n > 0
        invariant Valid() && recno < nblock && 0 <= b <= |buffer| && n == |buffer| - b
        invariant Stream() == old(Stream()) + buffer[..b]
        decreases n
      {
        assert buffer[..b] + [buffer[b]] == buffer[..b + 1];
        Push(buffer[b]);
        n, b := n - 1, b + 1;
        if recno >= nblock {
          Flush();
        }
      }
      assert buffer[..b] == buffer;
      hint := nblock - recno;
    }

    method Putempty()
      requires Valid()
      modifies this`tape, this`recno, tbuf
      ensures Valid() && Stream() == old(Stream()) + [EMPTY]
    {
      var _ := Writetbuf([EMPTY]);
    }

    /** A header, and so many blocks less behind it than its size calls for. */
    ghost predicate Stored(ms: seq<Member>, h: Block, data: seq<Block>, blocks: int)
      requires Valid() && h.Head?
      reads this`tape, this`recno, tbuf
    {
      && Stream() == Archive(ms) + [h] + data
      && blocks >= 0 && |data| + blocks == Blocks(h.size)
      && forall k :: 0 <= k < |data| ==> Whole(data[k])
    }

    /** Blocks of the file. */
    method Append(ghost ms: seq<Member>, ghost h: Block, ghost data: seq<Block>, ghost blocks: int, part: seq<Block>) returns (hint: nat)
      requires Valid() && h.Head? && Stored(ms, h, data, blocks) && |part| <= blocks
      requires forall k :: 0 <= k < |part| ==> Whole(part[k])
      modifies this`tape, this`recno, tbuf
      ensures Valid() && Stored(ms, h, data + part, blocks - |part|) && 0 < hint <= nblock
    {
      hint := Writetbuf(part);
      assert Archive(ms) + [h] + data + part == Archive(ms) + [h] + (data + part);
    }

    /** `read(infile, bigbuf, min(hint * TBLOCK, maxread))` */
    method ReadMore(file: Source, bigbuf: array<Byte>, hint: nat, ghost d: seq<Byte>, ghost content: seq<Byte>, ghost steady: bool)
      returns (i: int)
      requires Valid() && 0 < hint <= nblock && (bigbuf.Length >= nblock * TBLOCK || bigbuf.Length == TBLOCK)
      requires steady ==> file.Steady() && Following(d, file.Ahead(), content)
      modifies file, bigbuf
      ensures i > 0 ==> ((i - 1) / TBLOCK + 1) * TBLOCK <= bigbuf.Length
      ensures steady ==> file.Steady() && Copying(d, bigbuf[..], i, file.Ahead(), content)
    {
      var maxread := bigbuf.Length;
      assert Min(hint * TBLOCK, maxread) >= 0;
      ghost var was := file.Ahead();
      i := file.Read(bigbuf, Min(hint * TBLOCK, maxread));
      ghost var q := ReadFits(hint, nblock, maxread, i);
      if steady {
        Read1(d, bigbuf[..], q, i, file.Ahead(), content, was);
      }
    }

    /** `putfile`, for a regular file of so many bytes when it was looked at. It adds
        one member of just that size, however the file changes while it is read; and
        with its bytes, as far as there were any, if every read is full. */
    method PutRegular(name: string, size: nat, file: Source, blksize: nat, room: bool, inum: int, devnum: int, ghost ms: seq<Member>) returns (ghost m: Member)
      requires Valid() && Stream() == Archive(ms)
      modifies this`tape, this`recno, tbuf, file
      ensures Valid() && Stream() == Archive(ms + [m]) && Proper(m) && m.head == Head(name, size, Regular, "")
      ensures m.inum == inum && m.devnum == devnum
      ensures old(file.Steady()) ==> Agree(Bytes(m.data), old(file.Ahead()))
    {
      hide Stream, Stored, Archive, Following, Copying, Agree, Bytes, Cut, Blocks, Taken, Whole, Proper;
      ghost var h := Head(name, size, Regular, "");
      ghost var data: seq<Block> := [];
      ghost var content := file.Ahead();
      ghost var steady := file.Steady();
      var blocks := (size + (TBLOCK - 1)) / TBLOCK;
      var hint := Writetbuf([Head(name, size, Regular, "")]);
      StoredNone(ms, h);
      FollowingNone(content);
      var maxread := if blksize > nblock * TBLOCK then blksize else nblock * TBLOCK;
      if !room {
        maxread := TBLOCK;
      }
      var bigbuf := new Byte[maxread];
      var i := ReadMore(file, bigbuf, hint, Bytes(data), content, steady);
      while i > 0 && blocks > 0
        invariant Valid() && bigbuf.Length == maxread && fresh(bigbuf)
        invariant Stored(ms, h, data, blocks)
        invariant i > 0 ==> ((i - 1) / TBLOCK + 1) * TBLOCK <= maxread
        invariant steady && blocks > 0 ==> file.Steady() && Copying(Bytes(data), bigbuf[..], i, file.Ahead(), content)
        invariant steady ==> Agree(Bytes(data), content)
        decreases blocks
      {
        var nblks := Taken(i, blocks);
        assert nblks * TBLOCK <= maxread;
        CutFacts(bigbuf[..], nblks);
        BytesAdd(data, Cut(bigbuf[..], nblks));
        if steady {
          Wrote(Bytes(data), bigbuf[..], i, nblks, file.Ahead(), content);
        }
        hint := Append(ms, h, data, blocks, Cut(bigbuf[..], nblks));
        data := data + Cut(bigbuf[..], nblks);
        blocks := blocks - nblks;
        i := ReadMore(file, bigbuf, hint, Bytes(data), content, steady && blocks > 0);
      }
      if steady && blocks > 0 {
        CopiedAll(Bytes(data), bigbuf[..], i, file.Ahead(), content);
      }
      data := Pad(ms, h, data, blocks, content, steady);
      m := Member(h, data, inum, devnum);
      ArchiveOne(ms, m);
    }

    /** `putfile` for what needs no blocks: a further link to a file, a directory or a symbolic link. */
    method PutHead(name: string, size: nat, kind: Kind, link: string, inum: int, devnum: int, ghost ms: seq<Member>) returns (ghost m: Member)
      requires Valid() && Stream() == Archive(ms) && (kind == HardLink || (kind == Other && size == 0))
      modifies this`tape, this`recno, tbuf
      ensures Valid() && Stream() == Archive(ms + [m]) && Proper(m) && m == Member(Head(name, size, kind, link), [], inum, devnum)
    {
      var _ := Writetbuf([Head(name, size, kind, link)]);
      m := Member(Head(name, size, kind, link), [], inum, devnum);
      ArchiveSnoc(ms, m);
      assert Archive(ms) + [m.head] + m.data == Archive(ms) + [m.head];
    }

    /** The links remembered are to files in the archive. */
    ghost predicate Linked(ms: seq<Member>)
      reads this`ihead
    {
      AllStand(ihead, ms)
    }

    /** `putfile`, for a regular file: nothing is written of one that cannot be read or
        whose name is too long; a file that has been stored before under another name
        becomes a link to that name. */
    method PutFile(name: string, readable: bool, inum: int, devnum: int, nlink: int, memory: bool,
                   size: nat, file: Source, blksize: nat, room: bool, ghost ms: seq<Member>) returns (ghost ms': seq<Member>)
      requires Valid() && Stream() == Archive(ms) && Linked(ms)
      modifies this`tape, this`recno, this`ihead, tbuf, file
      ensures Valid() && Stream() == Archive(ms') && Linked(ms')
      ensures !readable || |name| >= NAMSIZ ==> ms' == ms && ihead == old(ihead)
      ensures readable && |name| < NAMSIZ ==> |ms'| == |ms| + 1 && ms'[..|ms|] == ms
      ensures readable && |name| < NAMSIZ ==>
                Put(ms'[|ms|], name, size, inum, devnum, if nlink > 1 then Path(old(ihead), inum, devnum) else None)
      ensures readable && |name| < NAMSIZ ==> ihead == Remember(old(ihead), inum, devnum, nlink, memory, name)
      ensures readable && |name| < NAMSIZ && ms'[|ms|].head.kind == Regular && old(file.Steady()) ==> Agree(Bytes(ms'[|ms|].data), old(file.Ahead()))
    {
      hide Stream, Archive, Agree, Proper, Bytes, Blocks, Remember, FirstLink, Names, AllStand;
      ms' := ms;
      if !readable || |name| >= NAMSIZ {
        return;
      }
      ghost var m;
      ghost var was := ihead;
      var k := |ihead|;
      if nlink > 1 {
        k := SearchLink(inum, devnum);
      }
      RememberIs(ihead, inum, devnum, nlink, memory, name);
      if k < |ihead| {
        m := PutHead(name, size, HardLink, ihead[k].pathname, inum, devnum, ms);
        StandCounted(ihead, ms, m, k);
        ihead := ihead[k := ihead[k].(count := ihead[k].count - 1)];
        ms' := ms + [m];
        return;
      }
      if nlink > 1 && memory {
        ihead := [Link(inum, devnum, nlink - 1, name)] + ihead;
      }
      m := PutRegular(name, size, file, blksize, room, inum, devnum, ms);
      ms' := ms + [m];
      StandFirst(was, ms, m, Link(inum, devnum, nlink - 1, name));
      assert ms'[|ms|] == m;
    }

    /** The search of the list of links. */
    method SearchLink(inum: int, devnum: int) returns (k: nat)
      ensures k == FirstLink(ihead, inum, devnum)
    {
      k := 0;
      while k < |ihead| && !Names(ihead[k], inum, devnum)
        invariant 0 <= k <= |ihead| && FirstLink(ihead, inum, devnum) == k + FirstLink(ihead[k..], inum, devnum)
      {
        assert ihead[k..][1..] == ihead[k + 1..];
        k := k + 1;
      }
    }

    /** The end of `dorep`. */
    method Finish(ghost ms: seq<Member>) returns (ghost tail: seq<Block>)
      requires Valid() && Stream() == Archive(ms)
      modifies this`tape, this`recno, tbuf
      ensures Valid() && Flat(tape) == Archive(ms) + [EMPTY] + tail && tail != [] && tail[0] == EMPTY
    {
      hide Flat, Archive;
      Putempty();
      Putempty();
      tail := [EMPTY] + tbuf[recno..];
      EndParts(Flat(tape), tbuf[..], recno, Archive(ms));
      Emit();
    }

    lemma EndParts(f: seq<Block>, buf: seq<Block>, n: nat, a: seq<Block>)
      requires n <= |buf| && f + buf[..n] == a + [EMPTY] + [EMPTY]
      ensures f + buf == a + [EMPTY] + ([EMPTY] + buf[n..])
    {
      assert buf == buf[..n] + buf[n..];
      assert f + (buf[..n] + buf[n..]) == f + buf[..n] + buf[n..];
      assert a + [EMPTY] + [EMPTY] + buf[n..] == a + [EMPTY] + ([EMPTY] + buf[n..]);
    }

    /** `flushtape` */
    method Emit()
      requires Valid()
      modifies this`tape
      ensures Valid() && Flat(tape) == old(Flat(tape)) + tbuf[..]
    {
      FlatSnoc(tape, tbuf[..]);
      tape := tape + [tbuf[..]];
    }

    /** The rest of a file that has shrunk. */
    method Pad(ghost ms: seq<Member>, ghost h: Block, ghost data: seq<Block>, blocks: int, ghost content: seq<Byte>, ghost steady: bool)
      returns (ghost data': seq<Block>)
      requires Valid() && h.Head? && Stored(ms, h, data, blocks)
      requires steady ==> Agree(Bytes(data), content) && (blocks > 0 ==> |Bytes(data)| >= |content|)
      modifies this`tape, this`recno, tbuf
      ensures Valid() && Stored(ms, h, data', 0) && (steady ==> Agree(Bytes(data'), content))
    {
      var n := blocks - 1;
      data' := data;
      while n >= 0
        invariant Valid() && n >= -1 && Stored(ms, h, data', n + 1)
        invariant steady ==> Agree(Bytes(data'), content) && (n >= 0 ==> |Bytes(data')| >= |content|)
        decreases n
      {
        var _ := Append(ms, h, data', n + 1, [EMPTY]);
        BytesAdd(data', [EMPTY]);
        data' := data' + [EMPTY];
        n := n - 1;
      }
    }

    lemma StoredNone(ms: seq<Member>, h: Block)
      requires Valid() && h.Head? && Stream() == Archive(ms) + [h]
      ensures Stored(ms, h, [], (h.size + (TBLOCK - 1)) / TBLOCK)
    {
      assert Archive(ms) + [h] + [] == Archive(ms) + [h];
    }

    lemma ArchiveOne(ms: seq<Member>, m: Member)
      requires Valid() && m.head.Head? && m.head.kind == Regular && Stored(ms, m.head, m.data, 0)
      ensures Stream() == Archive(ms + [m]) && Proper(m)
    {
      ArchiveSnoc(ms, m);
    }
  }

  // ------------------------------------------------------------ reading

  class Reader {
    const nblock: nat
    const tbuf: array<Block>
    var recno: nat
    var first: bool
    var tape: seq<seq<Block>>

    ghost predicate Valid()
      reads this
    {
      tbuf.Length == nblock > 0 && recno <= nblock && forall k :: 0 <= k < |tape| ==> |tape[k]| == nblock
    }

    /** The blocks not yet read, in the buffer and on the tape. */
    ghost function Rest(): seq<Block>
      requires Valid()
      reads this, tbuf
    {
      (if first then tbuf[recno..] else []) + Flat(tape)
    }

    constructor (nblock: nat, tape: seq<seq<Block>>)
      requires nblock > 0 && forall k :: 0 <= k < |tape| ==> |tape[k]| == nblock
      ensures Valid() && fresh(tbuf) && Rest() == Flat(tape)
    {
      this.nblock := nblock;
      this.tape := tape;
      tbuf := new Block[nblock](_ => EMPTY);
      recno := 0;
      first := false;
    }

    /** `bread`: at the end of the tape nothing is read. */
    method Bread()
      requires Valid() && (recno >= nblock || !first)
      modifies this`tape, this`recno, this`first, tbuf
      ensures Valid() && recno == 0 && first && (old(Rest()) != [] ==> Rest() == old(Rest()))
    {
      if tape != [] {
        FlatCons(tape);
        forall k | 0 <= k < nblock {
          tbuf[k] := tape[0][k];
        }
        assert tbuf[0..] == tape[0];
        tape := tape[1..];
      } else {
        FlatNone();
      }
      first := true;
      recno := 0;
    }

    method Readtbuf(size0: nat) returns (b: seq<Block>, size: nat)
      requires Valid() && size0 % TBLOCK == 0 && size0 > 0
      modifies this`tape, this`recno, this`first, tbuf
      ensures Valid() && size == |b| * TBLOCK && 0 < size <= size0
      ensures old(Rest()) != [] ==> old(Rest()) == b + Rest()
    {
      hide Flat;
      size := size0;
      if recno >= nblock || !first {
        Bread();
      }
      if size > (nblock - recno) * TBLOCK {
        size := (nblock - recno) * TBLOCK;
        InBlocks(nblock - recno);
      }
      var n := size / TBLOCK;
      b := tbuf[recno..recno + n];
      Parts(tbuf[..], recno, n, Flat(tape));
      assert tbuf[..][recno..] == tbuf[recno..] && tbuf[..][recno + n..] == tbuf[recno + n..];
      recno := recno + n;
    }

    lemma Parts(buf: seq<Block>, i: nat, n: nat, rest: seq<Block>)
      requires i + n <= |buf|
      ensures buf[i..] + rest == buf[i..i + n] + (buf[i + n..] + rest)
    {
    }

    /** Past a file that is not wanted. */
    method Passtape(h: Block)
      requires Valid() && h.Head?
      modifies this`tape, this`recno, this`first, tbuf
      ensures Valid() && (Behind(h) <= |old(Rest())| ==> Rest() == old(Rest())[Behind(h)..])
    {
      hide Flat;
      ghost var was := Rest();
      if h.kind == HardLink {
        return;
      }
      var blocks := (h.size + (TBLOCK - 1)) / TBLOCK;
      ghost var k := 0;
      while blocks > 0
        invariant Valid() && blocks >= 0 && k + blocks == Behind(h)
        invariant Behind(h) <= |was| ==> Rest() == was[k..]
        decreases blocks
      {
        blocks := blocks - 1;
        var b, n := Readtbuf(TBLOCK);
        assert |b| == 1;
        if Behind(h) <= |was| {
          assert was[k..] == b + Rest();
          assert was[k + 1..] == was[k..][1..] == Rest();
        }
        k := k + 1;
      }
    }

    /** The copy loop of `doxtract`. */
    method Extract(h: Block) returns (out: seq<Byte>)
      requires Valid() && h.Head? && h.kind == Regular
      modifies this`tape, this`recno, this`first, tbuf
      ensures Valid()
      ensures var n, was := Behind(h), old(Rest());
              n <= |was| && AllWhole(was[..n]) ==> Rest() == was[n..] && |Bytes(was[..n])| >= h.size && out == Bytes(was[..n])[..h.size]
    {
      hide Flat, Bytes, Copied;
      ghost var was := Rest();
      var bytes: int := h.size;
      var blocks: int := (bytes + TBLOCK - 1) / TBLOCK;
      ghost var k := 0;
      ghost var good := Behind(h) <= |was| && AllWhole(was[..Behind(h)]);
      out := [];
      if good {
        CopiedNone(was, h.size);
      }
      while blocks > 0
        invariant Valid() && blocks >= 0 && k + blocks == Behind(h) && bytes == h.size - k * TBLOCK
        invariant good ==> Copied(was, k, h.size, out) && Rest() == was[k..]
        decreases blocks
      {
        var nwant := NBLOCK * TBLOCK;
        if nwant > blocks * TBLOCK {
          nwant := blocks * TBLOCK;
        }
        var b, nread := Readtbuf(nwant);
        if good {
          CopiedMore(was, k, b, h.size, out);
        }
        out := out + Upto(Bytes(b), Min(nread, bytes));
        k := k + |b|;
        bytes := bytes - nread;
        blocks := blocks - ((nread - 1) / TBLOCK + 1);
      }
      if good {
        CopiedEnd(was, k, h.size, out);
      }
    }
  }

  ghost predicate AllWhole(bs: seq<Block>) {
    forall k :: 0 <= k < |bs| ==> Whole(bs[k])
  }

  function Upto(s: seq<Byte>, n: int): seq<Byte> {
    if 0 <= n <= |s| then s[..n] else s
  }

  /** What has been copied out of the first so many blocks. */
  ghost predicate Copied(was: seq<Block>, k: nat, size: nat, out: seq<Byte>)
    requires k <= |was|
  {
    out == Upto(Bytes(was[..k]), size)
  }

  lemma CopiedMore(was: seq<Block>, k: nat, b: seq<Block>, size: nat, out: seq<Byte>)
    requires k + |b| <= Blocks(size) <= |was| && was[k..k + |b|] == b && AllWhole(was[..Blocks(size)]) && Copied(was, k, size, out)
    requires k * TBLOCK < size
    ensures Copied(was, k + |b|, size, out + Upto(Bytes(b), Min(|b| * TBLOCK, size - k * TBLOCK)))
  {
    hide Bytes, Upto, Blocks, AllWhole;
    WholeParts(was, k, b, Blocks(size));
    BytesAdd(was[..k], b);
    WholeBytes(was[..k]);
    WholeBytes(b);
    UptoAdd(Bytes(was[..k]), Bytes(b), size);
  }

  lemma WholeParts(was: seq<Block>, k: nat, b: seq<Block>, n: nat)
    requires k + |b| <= n <= |was| && was[k..k + |b|] == b && AllWhole(was[..n])
    ensures was[..k + |b|] == was[..k] + b && AllWhole(was[..k]) && AllWhole(b)
  {
    forall x | 0 <= x < k ensures Whole(was[..k][x]) {
      assert Whole(was[..n][x]);
    }
    forall x | 0 <= x < |b| ensures Whole(b[x]) {
      assert b[x] == was[k..k + |b|][x] && Whole(was[..n][k + x]);
    }
  }

  lemma WholeBytes(bs: seq<Block>)
    requires AllWhole(bs)
    ensures |Bytes(bs)| == |bs| * TBLOCK
  {
    BytesLength(bs);
  }

  lemma CopiedNone(was: seq<Block>, size: nat)
    ensures Copied(was, 0, size, []) && was[0..] == was
  {
  }

  lemma CopiedEnd(was: seq<Block>, k: nat, size: nat, out: seq<Byte>)
    requires k == Blocks(size) <= |was| && AllWhole(was[..k]) && Copied(was, k, size, out)
    ensures |Bytes(was[..k])| >= size && out == Bytes(was[..k])[..size]
  {
    BytesLength(was[..k]);
  }

  lemma UptoAdd(a: seq<Byte>, b: seq<Byte>, size: nat)
    requires |a| < size
    ensures Upto(a + b, size) == Upto(a, size) + Upto(b, Min(|b|, size - |a|))
  {
  }

  lemma InBlocks(n: nat)
    ensures n * TBLOCK / TBLOCK == n && n * TBLOCK % TBLOCK == 0
  {
  }

  // ------------------------------------------------------------ archives written and read back

  datatype Entry = File(name: string, bytes: seq<Byte>) | Linked(name: string, link: string) | Made(name: string)

  function EntryOf(m: Member): Entry
    requires m.head.Head?
  {
    match m.head.kind
    case Regular => File(m.head.name, Upto(Bytes(m.data), m.head.size))
    case HardLink => Linked(m.head.name, m.head.link)
    case Other => Made(m.head.name)
  }

  /** What is extracted: the members whose names are wanted. */
  function Entries(ms: seq<Member>, want: set<string>): seq<Entry> {
    if ms == [] then []
    else (if ms[0].head.Head? && ms[0].head.name in want then [EntryOf(ms[0])] else []) + Entries(ms[1..], want)
  }

  /** `doxtract`: whatever is wanted, from every header it gets to the next. */
  method Doxtract(r: Reader, want: set<string>, ghost ms: seq<Member>, ghost tail: seq<Block>) returns (got: seq<Entry>)
    requires r.Valid() && r.Rest() == Archive(ms) + [EMPTY] + tail && forall k :: 0 <= k < |ms| ==> Proper(ms[k])
    modifies r`tape, r`recno, r`first, r.tbuf
    ensures got == Entries(ms, want)
  {
    hide Flat, Bytes, EntryOf, Blocks, Whole, Archive, Entries, AllWhole;
    got := [];
    NoEntries(want);
    assert ms[0..] == ms && ms[|ms|..] == [];
    ghost var k := 0;
    while true
      invariant r.Valid() && 0 <= k <= |ms| && r.Rest() == Archive(ms[k..]) + [EMPTY] + tail
      invariant got + Entries(ms[k..], want) == Entries(ms, want)
      decreases |ms| - k
    {
      ghost var was := r.Rest();
      ArchiveNext(ms[k..], tail);
      var b, n := r.Readtbuf(TBLOCK);
      assert |b| == 1 && b[0] == was[0];
      var h := b[0];
      assert r.Rest() == was[1..];
      if h.Data? {
        assert k == |ms|;
        return;
      }
      ghost var m := ms[k];
      EntriesNext(ms, k, want);
      ProperFacts(m, was[1..]);
      if h.name !in want {
        r.Passtape(h);
      } else if h.kind == Regular {
        var out := r.Extract(h);
        got := got + [File(h.name, out)];
      } else {
        got := got + [if h.kind == HardLink then Linked(h.name, h.link) else Made(h.name)];
      }
      k := k + 1;
    }
  }

  lemma ProperFacts(m: Member, rest: seq<Block>)
    requires Proper(m) && |m.data| <= |rest| && rest[..|m.data|] == m.data
    ensures Behind(m.head) == |m.data| && AllWhole(rest[..Behind(m.head)]) && (m.head.kind != Regular ==> m.data == [])
    ensures m.head.kind == Regular && |Bytes(m.data)| >= m.head.size ==> EntryOf(m) == File(m.head.name, Bytes(m.data)[..m.head.size])
    ensures m.head.kind == HardLink ==> EntryOf(m) == Linked(m.head.name, m.head.link)
    ensures m.head.kind == Other ==> EntryOf(m) == Made(m.head.name)
  {
    hide Bytes;
  }

  /** The first block of an archive, and what is behind it. */
  lemma ArchiveNext(ms: seq<Member>, tail: seq<Block>)
    ensures var bs := Archive(ms) + [EMPTY] + tail;
            && bs != []
            && (ms == [] ==> bs[0] == EMPTY)
            && (ms != [] ==> bs[0] == ms[0].head && |ms[0].data| <= |bs| - 1 && bs[1..][..|ms[0].data|] == ms[0].data
                             && bs[1..][|ms[0].data|..] == Archive(ms[1..]) + [EMPTY] + tail)
  {
    if ms != [] {
      ArchiveParts(ms[0].head, ms[0].data, Archive(ms[1..]), tail);
    }
  }

  lemma ArchiveParts(h: Block, data: seq<Block>, rest: seq<Block>, tail: seq<Block>)
    ensures var bs := [h] + data + rest + [EMPTY] + tail;
            && bs[0] == h && bs[1..][..|data|] == data && bs[1..][|data|..] == rest + [EMPTY] + tail
  {
  }

  lemma NoEntries(want: set<string>)
    ensures Entries([], want) == []
  {
  }

  lemma EntriesNext(ms: seq<Member>, k: nat, want: set<string>)
    requires k < |ms| && ms[k].head.Head?
    ensures ms[k..] != [] && ms[k..][0] == ms[k] && ms[k..][1..] == ms[k + 1..]
    ensures Entries(ms[k..], want) == (if ms[k].head.name in want then [EntryOf(ms[k])] else []) + Entries(ms[k + 1..], want)
  {
    assert ms[k..][1..] == ms[k + 1..];
  }

  /** A name of a file, and a file itself. */
  datatype Name = Name(name: string, inum: int, devnum: int)

  datatype Inode = Inode(nlink: int, content: seq<Byte>)

  /** Where the first name of a file is, or how many names there are. */
  function FirstName(files: seq<Name>, inum: int, devnum: int): (k: nat)
    ensures k <= |files| && (k < |files| ==> files[k].inum == inum && files[k].devnum == devnum)
    ensures forall x :: 0 <= x < k ==> files[x].inum != inum || files[x].devnum != devnum
  {
    if files == [] || (files[0].inum == inum && files[0].devnum == devnum) then 0 else 1 + FirstName(files[1..], inum, devnum)
  }

  /** What comes back for a name: the bytes of its file, or a link to the first name of it. */
  function Restored(files: seq<Name>, disk: (int, int) -> Inode, memory: bool, k: nat): Entry
    requires k < |files|
  {
    var f := files[k];
    var j := FirstName(files, f.inum, f.devnum);
    if memory && disk(f.inum, f.devnum).nlink > 1 && j < k then Linked(f.name, files[j].name)
    else File(f.name, disk(f.inum, f.devnum).content)
  }

  lemma FirstNameSnoc(files: seq<Name>, i: nat, inum: int, devnum: int)
    requires i < |files|
    ensures var j := FirstName(files[..i], inum, devnum);
            FirstName(files[..i + 1], inum, devnum)
            == if j < i then j else if files[i].inum == inum && files[i].devnum == devnum then i else i + 1
  {
    var a, b := files[..i], files[..i + 1];
    assert forall x :: 0 <= x < i ==> a[x] == b[x];
  }

  lemma FirstNameHere(files: seq<Name>, i: nat)
    requires i < |files|
    ensures var j, n := FirstName(files, files[i].inum, files[i].devnum), FirstName(files[..i], files[i].inum, files[i].devnum);
            j <= i && j == n
  {
    var a := files[..i];
    assert forall x :: 0 <= x < i ==> a[x] == files[x];
  }

  /** Several names archived and read back: the bytes of each file once, and further
      names of it as links to the first. */
  method RoundTrip(files: seq<Name>, disk: (int, int) -> Inode, memory: bool, blksize: nat, room: bool, nblock: nat) returns (got: seq<Entry>)
    requires nblock > 0 && forall k :: 0 <= k < |files| ==> |files[k].name| < NAMSIZ
    ensures |got| == |files| && forall k :: 0 <= k < |got| ==> got[k] == Restored(files, disk, memory, k)
  {
    hide Flat, Bytes, Archive, Agree, Restored, FirstName, Holds, Known;
    var w := new Writer(nblock);
    ghost var ms: seq<Member> := [];
    ArchiveNone();
    NothingKnown(files, disk, memory);
    var i := 0;
    while i < |files|
      invariant 0 <= i <= |files| && w.Valid() && fresh(w) && fresh(w.tbuf) && w.Stream() == Archive(ms) && w.Linked(ms) && w.nblock == nblock
      invariant Known(w.ihead, files, disk, memory, i)
      invariant |ms| == i && forall k :: 0 <= k < i ==> Holds(ms[k], Restored(files, disk, memory, k))
    {
      ms := PutName(w, files, disk, memory, blksize, room, i, ms);
      i := i + 1;
    }
    ghost var tail := w.Finish(ms);
    var r := new Reader(nblock, w.tape);
    var want := set f | f in files :: f.name;
    ghost var es := seq(|files|, k requires 0 <= k < |files| => Restored(files, disk, memory, k));
    RestoredNames(files, disk, memory);
    HoldProper(ms, es);
    got := Doxtract(r, want, ms, tail);
    EntriesAll(ms, es, want);
  }

  /** One name more. */
  method PutName(w: Writer, files: seq<Name>, disk: (int, int) -> Inode, memory: bool, blksize: nat, room: bool, i: nat, ghost ms: seq<Member>)
    returns (ghost ms': seq<Member>)
    requires i < |files| && |files[i].name| < NAMSIZ && w.Valid() && w.Stream() == Archive(ms) && w.Linked(ms)
    requires Known(w.ihead, files, disk, memory, i) && |ms| == i && forall k :: 0 <= k < i ==> Holds(ms[k], Restored(files, disk, memory, k))
    modifies w`tape, w`recno, w`ihead, w.tbuf
    ensures w.Valid() && w.Stream() == Archive(ms') && w.Linked(ms')
    ensures Known(w.ihead, files, disk, memory, i + 1) && |ms'| == i + 1
    ensures forall k :: 0 <= k < i + 1 ==> Holds(ms'[k], Restored(files, disk, memory, k))
  {
    hide Flat, Bytes, Archive, Agree, Put, Path, Remember, Restored, FirstName, Holds, AllStand, Known;
    var f := files[i];
    var node := disk(f.inum, f.devnum);
    var file := new Source([Some(node.content)]);
    KnownMore(w.ihead, files, disk, memory, i);
    ghost var was := w.ihead;
    ms' := w.PutFile(f.name, true, f.inum, f.devnum, node.nlink, memory, |node.content|, file, blksize, room, ms);
    Comes(was, files, disk, memory, i, ms'[i]);
    assert forall k :: 0 <= k < i ==> ms'[k] == ms'[..i][k] == ms[k];
  }

  /** The names remembered are the first ones of the files that have more than one. */
  ghost predicate Known(ihead: seq<Link>, files: seq<Name>, disk: (int, int) -> Inode, memory: bool, i: nat)
    requires i <= |files|
  {
    forall x, d :: Path(ihead, x, d) == FirstKnown(files[..i], disk, memory, x, d)
  }

  function FirstKnown(files: seq<Name>, disk: (int, int) -> Inode, memory: bool, x: int, d: int): Option<string> {
    var j := FirstName(files, x, d);
    if memory && disk(x, d).nlink > 1 && j < |files| then Some(files[j].name) else None
  }

  lemma NothingKnown(files: seq<Name>, disk: (int, int) -> Inode, memory: bool)
    ensures Known([], files, disk, memory, 0)
  {
  }

  lemma KnownMore(ihead: seq<Link>, files: seq<Name>, disk: (int, int) -> Inode, memory: bool, i: nat)
    requires i < |files| && Known(ihead, files, disk, memory, i)
    ensures var f := files[i];
            Known(Remember(ihead, f.inum, f.devnum, disk(f.inum, f.devnum).nlink, memory, f.name), files, disk, memory, i + 1)
  {
    hide Path, Remember, FirstName;
    var f := files[i];
    var more := Remember(ihead, f.inum, f.devnum, disk(f.inum, f.devnum).nlink, memory, f.name);
    forall x, d ensures Path(more, x, d) == FirstKnown(files[..i + 1], disk, memory, x, d) {
      Remembered(ihead, f.inum, f.devnum, disk(f.inum, f.devnum).nlink, memory, f.name, x, d);
      FirstNameSnoc(files, i, x, d);
      assert Path(ihead, x, d) == FirstKnown(files[..i], disk, memory, x, d);
    }
  }

  /** What has been stored is what is to come back. */
  lemma Comes(ihead: seq<Link>, files: seq<Name>, disk: (int, int) -> Inode, memory: bool, i: nat, m: Member)
    requires i < |files| && Known(ihead, files, disk, memory, i)
    requires var f := files[i]; var node := disk(f.inum, f.devnum);
             && Put(m, f.name, |node.content|, f.inum, f.devnum, if node.nlink > 1 then Path(ihead, f.inum, f.devnum) else None)
             && (m.head.kind == Regular ==> Agree(Bytes(m.data), node.content))
    ensures Holds(m, Restored(files, disk, memory, i))
  {
    hide Path, FirstName, Bytes;
    var f := files[i];
    assert Path(ihead, f.inum, f.devnum) == FirstKnown(files[..i], disk, memory, f.inum, f.devnum);
    FirstNameHere(files, i);
    if m.head.kind == Regular {
      AllCopied(m, disk(f.inum, f.devnum).content);
    }
  }

  /** A member that comes back as this. */
  ghost predicate Holds(m: Member, e: Entry) {
    Proper(m) && m.head.name == e.name && EntryOf(m) == e
  }

  lemma AllCopied(m: Member, content: seq<Byte>)
    requires Proper(m) && m.head.size == |content| && m.head.kind == Regular && Agree(Bytes(m.data), content)
    ensures EntryOf(m) == File(m.head.name, content)
  {
    BytesLength(m.data);
    assert Bytes(m.data)[..|content|] == content;
  }

  lemma ArchiveNone()
    ensures Archive([]) == []
  {
  }

  lemma RestoredNames(files: seq<Name>, disk: (int, int) -> Inode, memory: bool)
    ensures forall k :: 0 <= k < |files| ==> Restored(files, disk, memory, k).name == files[k].name
  {
  }

  lemma HoldProper(ms: seq<Member>, es: seq<Entry>)
    requires |ms| == |es| && forall k :: 0 <= k < |ms| ==> Holds(ms[k], es[k])
    ensures forall k :: 0 <= k < |ms| ==> Proper(ms[k])
  {
    forall k | 0 <= k < |ms| ensures Proper(ms[k]) {
      assert Holds(ms[k], es[k]);
    }
  }

  lemma {:induction false} EntriesAll(ms: seq<Member>, es: seq<Entry>, want: set<string>)
    requires |ms| == |es| && forall k :: 0 <= k < |ms| ==> es[k].name in want && Holds(ms[k], es[k])
    ensures Entries(ms, want) == es
  {
    hide EntryOf, Proper;
    if ms != [] {
      assert Holds(ms[0], es[0]);
      HoldsHead(ms[0], es[0]);
      EntriesAll(ms[1..], es[1..], want);
    }
  }

  lemma HoldsHead(m: Member, e: Entry)
    requires Holds(m, e)
    ensures m.head.Head? && m.head.name == e.name
  {
  }
}
