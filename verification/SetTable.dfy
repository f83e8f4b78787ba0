/** The csh variable and alias tables (bin/csh/sh.set.c): a height-balanced tree
    of `struct varent` with parent links, hanging off the left link of a header. */
module SetTable {
  import opened Names
  import opened AvlTree

  class VarEnt {
    var vec: Words
    var name: Name
    var left: VarEnt?
    var right: VarEnt?
    var parent: VarEnt?
    var bal: int

    constructor (name: Name, parent: VarEnt?)
      ensures this.name == name && this.vec == [] && this.parent == parent
      ensures left == null && right == null && bal == 0
    {
      this.name, this.parent := name, parent;
      vec, left, right, bal := [], null, null, 0;
    }

    /** `v_link[f]` */
    function Link(f: bool): VarEnt?
      reads this
    {
      if f then right else left
    }

    method SetLink(f: bool, c: VarEnt?)
      modifies this`left, this`right
      ensures Link(f) == c && Link(!f) == old(Link(!f))
    {
      if f { right := c; } else { left := c; }
    }
  }

  type VTree = Tree<VarEnt>
  type VPath = Path<VarEnt>

  /** The subtree linked from `p` at `c` is exactly what `t` records. */
  ghost predicate Mirror(t: VTree, c: VarEnt?, p: VarEnt?)
    reads Nodes(t)
  {
    match t
    case Leaf => c == null
    case Node(l, e, bal, r) =>
      && c == e.n && Holds(e, bal) && e.n.parent == p
      && Mirror(l, e.n.left, e.n) && Mirror(r, e.n.right, e.n)
  }

  ghost predicate Holds(e: Entry<VarEnt>, bal: int)
    reads e.n
  {
    e.n.name == e.key && e.n.vec == e.val && e.n.bal == bal
  }

  /** The link of its last node from which a path goes on downwards. */
  function Dir(q: VPath): bool {
    q.Up? && q.right
  }

  /** `p` is the last node of path `q`; everything on the path is as recorded,
      except that the link of `p` in direction `Dir(q)` may be anything. */
  ghost predicate OnPath(q: VPath, p: VarEnt)
    reads PathNodes(q)
  {
    match q
    case Top(h) => p == h && h.parent == null && h.right == null
    case Up(right, e, bal, sib, up) =>
      && p == e.n && Holds(e, bal)
      && Mirror(sib, p.Link(!right), p)
      && p.parent != null && OnPath(up, p.parent) && p.parent.Link(Dir(up)) == p
  }

  /** The nodes of a snapshot exist. */
  lemma NodesAllocated(t: VTree)
    ensures forall o :: o in Nodes(t) ==> allocated(o)
  {
    if t.Node? {
      NodesAllocated(t.l);
      NodesAllocated(t.r);
    }
  }

  lemma PathAllocated(q: VPath)
    ensures forall o :: o in PathNodes(q) ==> allocated(o)
  {
    if q.Up? {
      NodesAllocated(q.sib);
      PathAllocated(q.up);
    }
  }

  // -------------------------------------------------------------- rotations

  /** `rleft` */
  method RotateLeft(p: VarEnt, ghost l: VTree, ghost e: Entry<VarEnt>, ghost bal: int, ghost r: VTree,
                    ghost par: VarEnt?) returns (t: VarEnt)
    requires r.Node?
    requires Mirror(Node(l, e, bal, r), p, par) && Distinct(Node(l, e, bal, r))
    modifies Nodes(Node(l, e, bal, r))
    ensures Mirror(Node(Node(l, e, bal, r.l), r.e, r.bal, r.r), t, par)
  {
    t := p.right;
    assert Distinct(r) && Mirror(r, t, p);
    assert Mirror(r.l, t.left, t) && Distinct(r.l);
    t.parent := p.parent;
    p.right := t.left;
    if t.left != null {
      t.left.parent := p;
    }
    assert Mirror(r.l, p.right, p);
    t.left := p;
    p.parent := t;
    assert Mirror(Node(l, e, bal, r.l), p, t);
  }

  /** `rright` */
  method RotateRight(p: VarEnt, ghost l: VTree, ghost e: Entry<VarEnt>, ghost bal: int, ghost r: VTree,
                     ghost par: VarEnt?) returns (t: VarEnt)
    requires l.Node?
    requires Mirror(Node(l, e, bal, r), p, par) && Distinct(Node(l, e, bal, r))
    modifies Nodes(Node(l, e, bal, r))
    ensures Mirror(Node(l.l, l.e, l.bal, Node(l.r, e, bal, r)), t, par)
  {
    t := p.left;
    assert Distinct(l) && Mirror(l, t, p);
    assert Mirror(l.r, t.right, t) && Distinct(l.r);
    t.parent := p.parent;
    p.left := t.right;
    if t.right != null {
      t.right.parent := p;
    }
    assert Mirror(l.r, p.left, p);
    t.right := p;
    p.parent := t;
    assert Mirror(Node(l.r, e, bal, r), p, t);
  }

  // ---------------------------------------------------------------- balance

  /** The two balances after `rleft`. */
  method SetLeftPair(q: VarEnt, bl: int, b: int, ghost l: VTree, ghost e: Entry<VarEnt>, ghost bal: int, ghost r: VTree,
                     ghost par: VarEnt?)
    requires r.Node? && Distinct(Node(l, e, bal, r))
    requires Mirror(Node(Node(l, e, bal, r.l), r.e, r.bal, r.r), q, par)
    modifies Nodes(Node(l, e, bal, r))
    ensures Mirror(Node(Node(l, e, bl, r.l), r.e, b, r.r), q, par)
  {
    assert Distinct(r) && Mirror(Node(l, e, bal, r.l), q.left, q);
    q.left.bal := bl;
    q.bal := b;
    assert Mirror(Node(l, e, bl, r.l), q.left, q);
  }

  /** The two balances after `rright`. */
  method SetRightPair(q: VarEnt, br: int, b: int, ghost l: VTree, ghost e: Entry<VarEnt>, ghost bal: int, ghost r: VTree,
                      ghost par: VarEnt?)
    requires l.Node? && Distinct(Node(l, e, bal, r))
    requires Mirror(Node(l.l, l.e, l.bal, Node(l.r, e, bal, r)), q, par)
    modifies Nodes(Node(l, e, bal, r))
    ensures Mirror(Node(l.l, l.e, b, Node(l.r, e, br, r)), q, par)
  {
    assert Distinct(l) && Mirror(Node(l.r, e, bal, r), q.right, q);
    q.right.bal := br;
    q.bal := b;
    assert Mirror(Node(l.r, e, br, r), q.right, q);
  }

  /** The arm of `balance` for a node whose right side became heavier. */
  method StepRight(p: VarEnt, ghost l: VTree, ghost e: Entry<VarEnt>, ghost bal: int, ghost r: VTree,
                   ghost par: VarEnt?) returns (q: VarEnt)
    requires -1 <= bal <= 1 && CanRotateLeft(bal, r) && Balanced(r)
    requires Mirror(Node(l, e, bal, r), p, par) && Distinct(Node(l, e, bal, r))
    modifies Nodes(Node(l, e, bal, r))
    ensures Mirror(RightHeavier(l, e, bal, r), q, par)
  {
    q := p;
    if p.bal == -1 {
      p.bal := 0;
    } else if p.bal == 0 {
      p.bal := 1;
    } else {
      assert Distinct(r) && Mirror(r, p.right, p);
      if p.right.bal == 1 {
        q := RotateLeft(p, l, e, bal, r, par);
        SetLeftPair(q, 0, 0, l, e, bal, r, par);
      } else if p.right.bal == 0 {
        q := RotateLeft(p, l, e, bal, r, par);
        SetLeftPair(q, 1, -1, l, e, bal, r, par);
      } else {
        q := DoubleLeft(p, l, e, bal, r, par);
      }
    }
  }

  /** `rright(p->v_right)` */
  method RotateRightChild(p: VarEnt, ghost l: VTree, ghost e: Entry<VarEnt>, ghost bal: int, ghost r: VTree,
                          ghost par: VarEnt?)
    requires r.Node? && r.l.Node?
    requires Mirror(Node(l, e, bal, r), p, par) && Distinct(Node(l, e, bal, r))
    modifies Nodes(Node(l, e, bal, r))
    ensures var r' := Node(r.l.l, r.l.e, r.l.bal, Node(r.l.r, r.e, r.bal, r.r));
      && Mirror(Node(l, e, bal, r'), p, par) && Distinct(Node(l, e, bal, r'))
      && Nodes(r') == Nodes(r)
  {
    ghost var m := r.l;
    assert Distinct(r) && Mirror(r, p.right, p) && Distinct(m);
    assert Nodes(m) == Nodes(m.l) + {m.e.n} + Nodes(m.r);
    assert Mirror(l, p.left, p);
    NodesAllocated(l);
    p.right := RotateRight(p.right, r.l, r.e, r.bal, r.r, p);
    ghost var r' := Node(m.l, m.e, m.bal, Node(m.r, r.e, r.bal, r.r));
    assert Nodes(r'.r) == Nodes(m.r) + {r.e.n} + Nodes(r.r);
    assert Distinct(r'.r);
  }

  /** `rleft(p->v_left)` */
  method RotateLeftChild(p: VarEnt, ghost l: VTree, ghost e: Entry<VarEnt>, ghost bal: int, ghost r: VTree,
                         ghost par: VarEnt?)
    requires l.Node? && l.r.Node?
    requires Mirror(Node(l, e, bal, r), p, par) && Distinct(Node(l, e, bal, r))
    modifies Nodes(Node(l, e, bal, r))
    ensures var l' := Node(Node(l.l, l.e, l.bal, l.r.l), l.r.e, l.r.bal, l.r.r);
      && Mirror(Node(l', e, bal, r), p, par) && Distinct(Node(l', e, bal, r))
      && Nodes(l') == Nodes(l)
  {
    ghost var m := l.r;
    assert Distinct(l) && Mirror(l, p.left, p) && Distinct(m);
    assert Nodes(m) == Nodes(m.l) + {m.e.n} + Nodes(m.r);
    assert Mirror(r, p.right, p);
    NodesAllocated(r);
    p.left := RotateLeft(p.left, l.l, l.e, l.bal, l.r, p);
    ghost var l' := Node(Node(l.l, l.e, l.bal, m.l), m.e, m.bal, m.r);
    assert Nodes(l'.l) == Nodes(l.l) + {l.e.n} + Nodes(m.l);
    assert Distinct(l'.l);
  }

  /** The three balances after a double rotation. */
  method SetBalances(q: VarEnt, ghost l: VTree, ghost e: Entry<VarEnt>, ghost bal: int, ghost r: VTree,
                     ghost par: VarEnt?)
    requires l.Node? && r.Node?
    requires Mirror(Node(l, e, bal, r), q, par) && Distinct(Node(l, e, bal, r))
    modifies Nodes(Node(l, e, bal, r))
    ensures Mirror(Node(Node(l.l, l.e, if bal < 1 then 0 else -1, l.r), e, 0,
                        Node(r.l, r.e, if bal > -1 then 0 else 1, r.r)), q, par)
  {
    assert Distinct(l) && Distinct(r) && Mirror(l, q.left, q) && Mirror(r, q.right, q);
    q.left.bal := if q.bal < 1 then 0 else -1;
    q.right.bal := if q.bal > -1 then 0 else 1;
    q.bal := 0;
    assert Mirror(Node(l.l, l.e, if bal < 1 then 0 else -1, l.r), q.left, q);
    assert Mirror(Node(r.l, r.e, if bal > -1 then 0 else 1, r.r), q.right, q);
  }

  /** The double rotation of a right-heavy node with a left-heavy right child. */
  method DoubleLeft(p: VarEnt, ghost l: VTree, ghost e: Entry<VarEnt>, ghost bal: int, ghost r: VTree,
                    ghost par: VarEnt?) returns (q: VarEnt)
    requires bal == 1 && r.Node? && r.bal == -1 && r.l.Node?
    requires Mirror(Node(l, e, bal, r), p, par) && Distinct(Node(l, e, bal, r))
    modifies Nodes(Node(l, e, bal, r))
    ensures Mirror(RightHeavier(l, e, bal, r), q, par)
  {
    RotateRightChild(p, l, e, bal, r, par);
    ghost var m := r.l;
    ghost var r' := Node(m.l, m.e, m.bal, Node(m.r, r.e, r.bal, r.r));
    q := RotateLeft(p, l, e, bal, r', par);
    SetBalances(q, Node(l, e, bal, m.l), m.e, m.bal, r'.r, par);
  }

  /** The arm of `balance` for a node whose left side became heavier. */
  method StepLeft(p: VarEnt, ghost l: VTree, ghost e: Entry<VarEnt>, ghost bal: int, ghost r: VTree,
                  ghost par: VarEnt?) returns (q: VarEnt)
    requires -1 <= bal <= 1 && CanRotateRight(l, bal) && Balanced(l)
    requires Mirror(Node(l, e, bal, r), p, par) && Distinct(Node(l, e, bal, r))
    modifies Nodes(Node(l, e, bal, r))
    ensures Mirror(LeftHeavier(l, e, bal, r), q, par)
  {
    q := p;
    if p.bal == 1 {
      p.bal := 0;
    } else if p.bal == 0 {
      p.bal := -1;
    } else {
      assert Distinct(l) && Mirror(l, p.left, p);
      if p.left.bal == -1 {
        q := RotateRight(p, l, e, bal, r, par);
        SetRightPair(q, 0, 0, l, e, bal, r, par);
      } else if p.left.bal == 0 {
        q := RotateRight(p, l, e, bal, r, par);
        SetRightPair(q, -1, 1, l, e, bal, r, par);
      } else {
        q := DoubleRight(p, l, e, bal, r, par);
      }
    }
  }

  /** The double rotation of a left-heavy node with a right-heavy left child. */
  method DoubleRight(p: VarEnt, ghost l: VTree, ghost e: Entry<VarEnt>, ghost bal: int, ghost r: VTree,
                     ghost par: VarEnt?) returns (q: VarEnt)
    requires bal == -1 && l.Node? && l.bal == 1 && l.r.Node?
    requires Mirror(Node(l, e, bal, r), p, par) && Distinct(Node(l, e, bal, r))
    modifies Nodes(Node(l, e, bal, r))
    ensures Mirror(LeftHeavier(l, e, bal, r), q, par)
  {
    RotateLeftChild(p, l, e, bal, r, par);
    ghost var m := l.r;
    ghost var l' := Node(Node(l.l, l.e, l.bal, m.l), m.e, m.bal, m.r);
    q := RotateRight(p, l', e, bal, r, par);
    SetBalances(q, l'.l, m.e, m.bal, Node(m.r, e, bal, r), par);
  }

  /** One round of the loop of `balance`, up to storing the new subtree in the parent. */
  method StepAt(p: VarEnt, f: bool, d: bool, ghost e: Entry<VarEnt>, ghost bal: int, ghost sib: VTree,
                ghost t: VTree, ghost par: VarEnt?) returns (q: VarEnt)
    requires -1 <= bal <= 1 && Balanced(sib) && Balanced(t) && CanStep(f, bal, sib, d, t)
    requires Mirror(Join(f, e, bal, sib, t), p, par) && Distinct(Join(f, e, bal, sib, t))
    modifies Nodes(Join(f, e, bal, sib, t))
    ensures Mirror(Step(f, e, bal, sib, d, t), q, par)
  {
    if f != d {
      q := StepRight(p, if f then sib else t, e, bal, if f then t else sib, par);
    } else {
      q := StepLeft(p, if f then sib else t, e, bal, if f then t else sib, par);
    }
  }

  /** What a whole table looks like: `t` hangs off the left link of header `h`. */
  ghost predicate IsTable(t: VTree, h: VarEnt)
    reads Nodes(t), h
  {
    && h !in Nodes(t) && h.parent == null && h.right == null
    && Mirror(t, h.left, h) && Distinct(t)
  }

  lemma {:induction false} CloseTable(q: VPath, p: VarEnt, t: VTree)
    requires OnPath(q, p) && Mirror(t, p.Link(Dir(q)), p)
    requires DistinctPath(q) && Distinct(t) && Nodes(t) !! PathNodes(q)
    ensures IsTable(Plug(q, t), Header(q))
  {
    match q
    case Top(h) =>
    case Up(right, e, bal, sib, up) =>
      CloseTable(up, p.parent, Join(right, e, bal, sib, t));
  }

  /** The state of `balance` at the top of its loop, at link `f` of `p`. */
  ghost predicate AtLink(p: VarEnt, f: bool, q: VPath, t: VTree)
    reads PathNodes(q), Nodes(t)
  {
    && OnPath(q, p) && f == Dir(q) && Mirror(t, p.Link(f), p)
    && DistinctPath(q) && Distinct(t) && Nodes(t) !! PathNodes(q)
  }

  /** `pp->v_link[ff] = x` does not disturb the path that ends at `pp`. */
  method Relink(pp: VarEnt, ff: bool, x: VarEnt?, ghost q: VPath, ghost t: VTree)
    requires OnPath(q, pp) && DistinctPath(q) && ff == Dir(q)
    requires Mirror(t, x, pp) && Distinct(t) && Nodes(t) !! PathNodes(q)
    modifies pp
    ensures AtLink(pp, ff, q, t)
  {
    NodesAllocated(t);
    if q.Up? {
      assert OnPath(q.up, pp.parent) && pp.parent in PathNodes(q.up);
      NodesAllocated(q.sib);
      PathAllocated(q.up);
    }
    pp.SetLink(ff, x);
  }

  /** One round of the loop of `balance`. */
  method Round(p: VarEnt, f: bool, d: bool, ghost q: VPath, ghost t: VTree)
    returns (x: VarEnt, pp: VarEnt, ff: bool)
    requires AtLink(p, f, q, t) && q.Up? && CanStep(f, q.bal, q.sib, d, t)
    requires Balanced(t) && Balanced(q.sib) && -1 <= q.bal <= 1
    modifies PathNodes(q), Nodes(t)
    ensures AtLink(pp, ff, q.up, StepUp(q, d, t)) && x.bal == StepUp(q, d, t).bal
  {
    hide Balanced, Height, Inorder, Before, After, Plug, CanStep, Step, Header;
    pp := p.parent;
    ff := pp.right == p;
    assert OnPath(q.up, pp) && pp in PathNodes(q.up);
    StepUpDistinct(q, d, t);
    assert Nodes(Join(f, q.e, q.bal, q.sib, t)) == Nodes(t) + {p} + Nodes(q.sib);
    PathAllocated(q.up);
    x := StepAt(p, f, d, q.e, q.bal, q.sib, t, pp);
    Relink(pp, ff, x, q.up, StepUp(q, d, t));
  }

  lemma AtTop(p: VarEnt, f: bool, q: VPath, t: VTree)
    requires AtLink(p, f, q, t)
    ensures p.parent != null <==> q.Up?
  {
  }

  /** `balance(p, f, d)`: the subtree at link `f` of `p` has grown by one, or
      has shrunk by one when `d`; make the whole tree balanced again. */
  method Balance(p0: VarEnt, f0: bool, d: bool, ghost q0: VPath, ghost t0: VTree, ghost old_h: nat)
    returns (ghost tree: VTree)
    requires AtLink(p0, f0, q0, t0)
    requires Uneven(q0, t0, old_h, false, d)
    modifies PathNodes(q0), Nodes(t0)
    ensures IsTable(tree, Header(q0)) && Balanced(tree)
    ensures Nodes(tree) == Nodes(t0) + PathNodes(q0) - {Header(q0)}
    ensures Inorder(tree) == Before(q0) + Inorder(t0) + After(q0)
  {
    hide Mirror, OnPath, Distinct, DistinctPath, Balanced, BalancedPath, Inorder, Nodes, PathNodes, Height, Before, After, Plug, Step;
    hide CanStep, Header;
    var p: VarEnt, f := p0, f0;
    ghost var q, t, h: nat := q0, t0, old_h;
    AtTop(p, f, q, t);
    var stop := false;
    while !stop && p.parent != null
      invariant AtLink(p, f, q, t) == true
      invariant SameWhole(q, t, q0, t0) == true
      invariant Uneven(q, t, h, stop, d) == true
      invariant p.parent != null <==> q.Up?
      decreases q
    {
      StepUpFacts(q, d, t, h);
      SameWholeTwice(q.up, StepUp(q, d, t), q, t, q0, t0);
      var x, pp, ff := Round(p, f, d, q, t);
      stop := (x.bal == 0) != d;
      q, t, h := q.up, StepUp(q, d, t), 1 + Max(h, Height(q.sib));
      p, f := pp, ff;
      AtTop(p, f, q, t);
    }
    UnevenEnd(q, t, h, stop, d);
    tree := Plug(q, t);
    CloseTable(q, p, t);
    PlugFacts(q, t);
  }

  // ------------------------------------------------------------ moving about

  lemma Descend(p: VarEnt, f: bool, q: VPath, t: VTree, g: bool)
    requires AtLink(p, f, q, t) && t.Node?
    ensures AtLink(t.e.n, g, Below(q, t, g), if g then t.r else t.l)
  {
  }

  lemma Ascend(p: VarEnt, f: bool, q: VPath, t: VTree)
    requires AtLink(p, f, q, t) && q.Up?
    ensures p == q.e.n && p.parent != null
    ensures AtLink(p.parent, Dir(q.up), q.up, Join(f, q.e, q.bal, q.sib, t))
  {
  }

  /** Every node of a table can be reached by following links from the header. */
  lemma {:induction false} Locate(p: VarEnt, f: bool, q: VPath, t: VTree, n: VarEnt)
    returns (p': VarEnt, f': bool, q': VPath, t': VTree)
    requires AtLink(p, f, q, t) && n in Nodes(t)
    ensures AtLink(p', f', q', t') && t'.Node? && t'.e.n == n
    ensures Plug(q', t') == Plug(q, t) && Header(q') == Header(q)
    decreases t
  {
    if t.e.n == n {
      p', f', q', t' := p, f, q, t;
    } else {
      var g := n in Nodes(t.r);
      Descend(p, f, q, t, g);
      p', f', q', t' := Locate(t.e.n, g, Below(q, t, g), if g then t.r else t.l, n);
    }
  }

  /** Every entry of a snapshot is what its node holds. */
  lemma {:induction false} MirrorEntries(t: VTree, c: VarEnt?, p: VarEnt?)
    requires Mirror(t, c, p)
    ensures forall x :: x in Inorder(t) ==> x.n.name == x.key && x.n.vec == x.val
  {
    if t.Node? {
      MirrorEntries(t.l, t.e.n.left, t.e.n);
      MirrorEntries(t.r, t.e.n.right, t.e.n);
    }
  }

  /** Hang a new node on a missing link and rebalance. */
  method AddLeaf(p: VarEnt, f: bool, name: Name, ghost q: VPath) returns (c: VarEnt, ghost tree: VTree)
    requires AtLink(p, f, q, Leaf) && Uneven(q, Leaf, 0, true, false)
    modifies PathNodes(q)
    ensures IsTable(tree, Header(q)) && Balanced(tree)
    ensures fresh(c) && Nodes(tree) == {c} + PathNodes(q) - {Header(q)}
    ensures Inorder(tree) == Before(q) + [Entry(c, name, [])] + After(q) && c.name == name
  {
    PathAllocated(q);
    c := new VarEnt(name, p);
    ghost var t := Node(Leaf, Entry(c, name, []), 0, Leaf);
    assert Inorder(t) == [t.e];
    Relink(p, f, c, q, t);
    tree := Balance(p, f, false, q, t, 0);
    MirrorEntries(tree, Header(q).left, Header(q));
    assert Inorder(tree)[|Before(q)|] == t.e;
  }

  /** Move the only child `c` of `p` into where `p` is, and rebalance. */
  method Unlink(p: VarEnt, c: VarEnt?, ghost par: VarEnt, ghost f: bool, ghost q: VPath, ghost t: VTree)
    returns (ghost tree: VTree)
    requires AtLink(par, f, q, t) && t.Node? && t.e.n == p
    requires p.left == null || p.right == null
    requires c == if p.right == null then p.left else p.right
    requires Balanced(t) && BalancedPath(q, Height(t))
    modifies PathNodes(q), Nodes(t)
    ensures IsTable(tree, Header(q)) && Balanced(tree)
    ensures Nodes(tree) == Nodes(t) - {p} + PathNodes(q) - {Header(q)}
    ensures Inorder(tree) == (Before(q) + Inorder(t.l)) + (Inorder(t.r) + After(q))
  {
    ghost var s := if p.right == null then t.l else t.r;
    assert Mirror(t.l, p.left, p) && Mirror(t.r, p.right, p);
    PathLeafInorder(q, t.l, t.r, s);
    var pp, ff := Bypass(p, c, par, f, q, t, s);
    tree := Balance(pp, ff, true, q, s, Height(t));
  }

  /** `if (pp->v_link[f] = c) c->v_parent = pp` */
  method Bypass(p: VarEnt, c: VarEnt?, ghost par: VarEnt, ghost f: bool, ghost q: VPath, ghost t: VTree, ghost s: VTree)
    returns (pp: VarEnt, ff: bool)
    requires AtLink(par, f, q, t) && t.Node? && t.e.n == p
    requires Mirror(s, c, p) && s in {t.l, t.r}
    modifies PathNodes(q), Nodes(s)
    ensures AtLink(pp, ff, q, s)
  {
    PathAllocated(q);
    pp := p.parent;
    ff := pp.right == p;
    if c != null {
      assert Distinct(s);
      c.parent := pp;
    }
    assert Mirror(s, c, pp);
    Relink(pp, ff, c, q, s);
  }

  /** The predecessor of a node in the order is the rightmost node below its left child. */
  method Rightmost(c0: VarEnt, ghost s0: VTree, ghost p: VarEnt) returns (c: VarEnt, ghost before: seq<Entry<VarEnt>>)
    requires Mirror(s0, c0, p) && s0.Node?
    ensures c in Nodes(s0) && c.right == null
    ensures Inorder(s0) == before + [Entry(c, c.name, c.vec)]
  {
    c := c0;
    before := [];
    ghost var s, par := s0, p;
    while c.right != null
      invariant Mirror(s, c, par) && s.Node? && Nodes(s) <= Nodes(s0)
      invariant Inorder(s0) == before + Inorder(s)
      decreases s
    {
      before := before + Inorder(s.l) + [s.e];
      par := c;
      c := c.right;
      s := s.r;
    }
    before := before + Inorder(s.l);
  }

  // ------------------------------------------------------- searching by pattern

  /** `Gmatch(name, pat)`, for whatever pattern language. */
  type Matcher = (Name, Name) -> bool

  /** `r` is the node of the first entry that the pattern matches, null if there is none. */
  ghost predicate FirstMatch(s: seq<Entry<VarEnt>>, r: VarEnt?, pat: Name, gmatch: Matcher) {
    if r == null then forall x :: x in s ==> !gmatch(x.key, pat)
    else exists i :: 0 <= i < |s| && s[i].n == r && gmatch(s[i].key, pat)
                     && forall j :: 0 <= j < i ==> !gmatch(s[j].key, pat)
  }

  lemma FirstMatchAfter(a: seq<Entry<VarEnt>>, b: seq<Entry<VarEnt>>, c: seq<Entry<VarEnt>>, r: VarEnt?,
                        pat: Name, gmatch: Matcher)
    requires forall x :: x in a ==> !gmatch(x.key, pat)
    requires FirstMatch(b, r, pat, gmatch) && (r == null ==> c == [])
    ensures FirstMatch(a + b + c, r, pat, gmatch)
  {
    if r != null {
      var i :| 0 <= i < |b| && b[i].n == r && gmatch(b[i].key, pat) && forall j :: 0 <= j < i ==> !gmatch(b[j].key, pat);
      var s := a + b + c;
      assert s[|a| + i] == b[i];
      forall j | 0 <= j < |a| + i ensures !gmatch(s[j].key, pat) {
        if j < |a| {
          assert s[j] in a;
        } else {
          assert s[j] == b[j - |a|];
        }
      }
    }
  }

  /** `madrof(pat, vp)` */
  method Madrof(pat: Name, vp0: VarEnt?, gmatch: Matcher, ghost t0: VTree, ghost par0: VarEnt) returns (r: VarEnt?)
    requires Mirror(t0, vp0, par0)
    ensures FirstMatch(Inorder(t0), r, pat, gmatch)
    decreases t0
  {
    NodesAllocated(t0);
    var vp := vp0;
    ghost var t, par, seen: seq<Entry<VarEnt>> := t0, par0, [];
    while vp != null
      invariant Mirror(t, vp, par) && Nodes(t) <= Nodes(t0)
      invariant Inorder(t0) == seen + Inorder(t)
      invariant forall x :: x in seen ==> !gmatch(x.key, pat)
      invariant t == t0 || t < t0
      decreases t
    {
      if vp.left != null {
        r := Madrof(pat, vp.left, gmatch, t.l, vp);
        if r != null {
          FirstMatchAfter(seen, Inorder(t.l), [t.e] + Inorder(t.r), r, pat, gmatch);
          Assoc(Inorder(t.l), [t.e], Inorder(t.r));
          Assoc(seen, Inorder(t.l), [t.e] + Inorder(t.r));
          return;
        }
      }
      Assoc(seen, Inorder(t.l), [t.e]);
      Assoc(seen, Inorder(t.l) + [t.e], Inorder(t.r));
      if gmatch(vp.name, pat) {
        r := vp;
        assert FirstMatch([t.e], r, pat, gmatch) by {
          assert [t.e][0].n == r;
        }
        FirstMatchAfter(seen + Inorder(t.l), [t.e], Inorder(t.r), r, pat, gmatch);
        return;
      }
      seen := seen + Inorder(t.l) + [t.e];
      par := vp;
      vp := vp.right;
      t := t.r;
    }
    r := null;
  }

  // ---------------------------------------------------------------- printing

  /** A printed line: a name and its words. */
  datatype Line = Line(key: Name, val: Words)

  ghost function Lines(s: seq<Entry<VarEnt>>): seq<Line> {
    seq(|s|, i requires 0 <= i < |s| => Line(s[i].key, s[i].val))
  }

  lemma PrintStep(out: seq<Line>, e: Entry<VarEnt>, rest: seq<Entry<VarEnt>>)
    ensures out + Lines([e] + rest) == out + [Line(e.key, e.val)] + Lines(rest)
  {
    assert Lines([e] + rest) == [Line(e.key, e.val)] + Lines(rest);
  }

  /** `while (p->v_left) p = p->v_left` */
  method Leftmost(p0: VarEnt, ghost q0: VPath, ghost t0: VTree) returns (p: VarEnt, ghost q: VPath)
    requires AtLink(p0, false, q0, t0)
    ensures AtLink(p, false, q, Leaf) && Header(q) == Header(q0)
    ensures Plug(q, Leaf) == Plug(q0, t0)
    ensures After(q) == Inorder(t0) + After(q0)
  {
    p := p0;
    q := q0;
    ghost var t := t0;
    while p.left != null
      invariant AtLink(p, false, q, t) && Header(q) == Header(q0)
      invariant Plug(q, t) == Plug(q0, t0)
      invariant Inorder(t) + After(q) == Inorder(t0) + After(q0)
      decreases t
    {
      assert Mirror(t, p.left, p);
      Descend(p, false, q, t, false);
      LeftRest(q, t);
      p := p.left;
      q, t := Below(q, t, false), t.l;
    }
    assert t == Leaf;
  }

  /** `do { c = p; p = p->v_parent; } while (p->v_right == c)`, from a node without a right child. */
  method Climb(p0: VarEnt, ghost q0: VPath, ghost t0: VTree) returns (p: VarEnt, ghost q: VPath, ghost t: VTree)
    requires AtLink(p0, true, q0, t0) && q0.Up?
    ensures AtLink(p, false, q, t) && Header(q) == Header(q0)
    ensures Plug(q, t) == Plug(q0, t0)
    ensures After(q) == After(q0)
  {
    Ascend(p0, true, q0, t0);
    var c := p0;
    p := p0.parent;
    q, t := q0.up, Join(true, q0.e, q0.bal, q0.sib, t0);
    while p.right == c
      invariant AtLink(p, Dir(q), q, t) && Header(q) == Header(q0) && p.Link(Dir(q)) == c
      invariant Plug(q, t) == Plug(q0, t0) && t.Node? && t.e.n == c
      invariant After(q) == After(q0)
      decreases q
    {
      Ascend(p, true, q, t);
      c := p;
      p := p.parent;
      q, t := q.up, Join(true, q.e, q.bal, q.sib, t);
    }
  }

  /** From the left link of a node to its right link. */
  lemma TurnRight(p: VarEnt, q: VPath, t: VTree)
    requires AtLink(p, false, q, t) && q.Up?
    ensures AtLink(p, true, Up(true, q.e, q.bal, t, q.up), q.sib)
    ensures Plug(Up(true, q.e, q.bal, t, q.up), q.sib) == Plug(q, t)
  {
  }

  /** What the walk still has to print: nothing of the subtree at the left link
      of the current node unless it is on its way `down`. */
  ghost function Rest(q: VPath, t: VTree, down: bool): seq<Entry<VarEnt>> {
    if down then Inorder(t) + After(q) else After(q)
  }

  /** From a node that has been printed to the right child, or up. */
  method Onward(p0: VarEnt, ghost q0: VPath, ghost t0: VTree)
    returns (p: VarEnt, down: bool, ghost q: VPath, ghost t: VTree)
    requires AtLink(p0, false, q0, t0) && q0.Up?
    ensures AtLink(p, false, q, t) && Header(q) == Header(q0) && Plug(q, t) == Plug(q0, t0)
    ensures [q0.e] + Rest(q, t, down) == After(q0)
  {
    TurnRight(p0, q0, t0);
    ghost var q', s := Up(true, q0.e, q0.bal, t0, q0.up), q0.sib;
    assert Mirror(s, p0.right, p0);
    Assoc([q0.e], Inorder(s), After(q0.up));
    if p0.right != null {
      Descend(p0, true, q', s, false);
      LeftRest(q', s);
      p, down := p0.right, true;
      q, t := Below(q', s, false), s.l;
    } else {
      p, q, t := Climb(p0, q', s);
      down := false;
    }
  }

  /** `plist(p)`: a walk over the whole table by its links alone. */
  method Walk(head: VarEnt, ghost tree: VTree) returns (out: seq<Line>)
    requires IsTable(tree, head)
    ensures out == Lines(Inorder(tree))
  {
    var p: VarEnt, down := head, true;
    ghost var q, t := Top(head), tree;
    out := [];
    NodesAllocated(tree);
    while true
      invariant AtLink(p, false, q, t) && Header(q) == head && Plug(q, t) == tree
      invariant out + Lines(Rest(q, t, down)) == Lines(Inorder(tree))
      decreases |Rest(q, t, down)|
    {
      if down {
        p, q := Leftmost(p, q, t);
        t := Leaf;
      }
      if p.parent == null {
        return;
      }
      ghost var e, before := q.e, out;
      out := out + [Line(p.name, p.vec)];
      p, down, q, t := Onward(p, q, t);
      PrintStep(before, e, Rest(q, t, down));
    }
  }

  // ------------------------------------------------------------- the table

  /** `trim`: strip the quote bit of every byte. */
  function Trim(w: Words): Words {
    seq(|w|, i requires 0 <= i < |w| => TrimWord(w[i]))
  }

  /** A byte that is only a quote bit becomes a terminator. */
  function TrimWord(s: Name): Name {
    if s == [] then [] else
    var b: int := s[0];
    if b % 128 == 0 then [] else [b % 128] + TrimWord(s[1..])
  }

  /** A word without its quote bits: every byte keeps its lower seven, and the word
      ends at the first byte of which nothing else is left. */
  predicate Trimmed(s: Name, r: Name) {
    && |r| <= |s| && (|r| < |s| ==> s[|r|] == 128)
    && forall k :: 0 <= k < |r| ==> s[k] != 128 && r[k] == s[k] % 128
  }

  lemma {:induction false} TrimWordIs(s: Name)
    ensures Trimmed(s, TrimWord(s))
  {
    if s != [] && s[0] != 128 {
      TrimWordIs(s[1..]);
    }
  }

  /** Words without quote bits. */
  predicate Unquoted(w: Words) {
    forall i, k :: 0 <= i < |w| && 0 <= k < |w[i]| ==> w[i][k] < 128
  }

  lemma TrimFacts(w: Words)
    ensures |Trim(w)| == |w| && forall i :: 0 <= i < |w| ==> Trimmed(w[i], Trim(w)[i])
    ensures Unquoted(w) ==> Trim(w) == w
  {
    hide TrimWord;
    forall i | 0 <= i < |w| ensures Trimmed(w[i], Trim(w)[i]) && (Unquoted(w) ==> Trim(w)[i] == w[i]) {
      TrimWordIs(w[i]);
    }
  }

  /** Store a new name and value in the node at the end of a link. */
  method Overwrite(c: VarEnt, key: Name, val: Words, ghost p: VarEnt, ghost f: bool, ghost q: VPath, ghost t: VTree)
    returns (ghost tree: VTree)
    requires AtLink(p, f, q, t) && t.Node? && t.e.n == c
    modifies c
    ensures tree == Replaced(q, t, Entry(c, key, val))
    ensures IsTable(tree, Header(q))
    ensures c.left == old(c.left) && c.right == old(c.right)
  {
    ghost var t' := Node(t.l, Entry(c, key, val), t.bal, t.r);
    NodesAllocated(t);
    PathAllocated(q);
    c.name := key;
    c.vec := val;
    assert Nodes(t') == Nodes(t) && OnPath(q, p) && Mirror(t', p.Link(f), p);
    CloseTable(q, p, t');
    tree := Plug(q, t');
  }

  class Table {
    const head: VarEnt
    ghost var tree: VTree

    ghost predicate Valid()
      reads this, head, Nodes(tree)
    {
      IsTable(tree, head) && Balanced(tree) && Sorted(Inorder(tree))
    }

    /** The variables and their values. */
    ghost function Contents(): map<Name, Words>
      reads this
    {
      ToMap(Inorder(tree))
    }

    constructor ()
      ensures Valid() && Contents() == map[] && tree == Leaf && fresh(head)
    {
      head := new VarEnt([], null);
      tree := Leaf;
    }

    lemma AtHead()
      requires Valid()
      ensures AtLink(head, false, Top(head), tree) && Header<VarEnt>(Top(head)) == head && Plug(Top(head), tree) == tree
    {
    }

    /** The descent that `setq` and `adrof1` share: the link at which `name`
        is, or at which it would have to be added. */
    method Search(name: Name) returns (p: VarEnt, f: bool, c: VarEnt?, ghost q: VPath, ghost t: VTree)
      requires Valid()
      ensures AtLink(p, f, q, t) && c == p.Link(f)
      ensures Plug(q, t) == tree && Header(q) == head
      ensures c == null ==> Brackets(q, name)
      ensures c != null ==> t.Node? && t.e.n == c && t.e.key == name
    {
      p, f, c := head, false, head.left;
      q, t := Top(head), tree;
      while c != null
        invariant AtLink(p, f, q, t) && c == p.Link(f)
        invariant Plug(q, t) == tree && Header(q) == head
        invariant Brackets(q, name)
        decreases t
      {
        assert Mirror(t, c, p);
        var cmp := Compare(name, c.name);
        CompareTrichotomy(name, c.name);
        CompareTrichotomy(c.name, name);
        if cmp == 0 {
          break;
        }
        Descend(p, f, q, t, cmp > 0);
        Position(q, t);
        BelowBrackets(q, t, cmp > 0, name);
        p, f := c, cmp > 0;
        c := p.Link(f);
        q, t := Below(q, t, f), if f then t.r else t.l;
      }
    }

    /** `setq(name, vec, p)` */
    method Setq(name: Name, vec: Words)
      requires Valid()
      modifies this, head, Nodes(tree)
      ensures Valid()
      ensures forall o :: o in Nodes(tree) ==> o in old(Nodes(tree)) || fresh(o)
      ensures Contents() == old(Contents())[name := Trim(vec)]
      ensures |Contents()[name]| == |vec| && forall i :: 0 <= i < |vec| ==> Trimmed(vec[i], Contents()[name][i])
      ensures Unquoted(vec) ==> Contents() == old(Contents())[name := vec]
    {
      hide Trim, Trimmed, Unquoted;
      TrimFacts(vec);
      var c := Slot(name);
      Store(c, Trim(vec));
    }

    /** What is set is what is found: for words without quotes, these words. */
    method SetAndFind(name: Name, vec: Words) returns (c: VarEnt?)
      requires Valid()
      modifies this, head, Nodes(tree)
      ensures Valid() && c != null && c.name == name && |c.vec| == |vec|
      ensures forall i :: 0 <= i < |vec| ==> Trimmed(vec[i], c.vec[i])
      ensures Unquoted(vec) ==> c.vec == vec
    {
      hide Trim, Trimmed, Unquoted;
      Setq(name, vec);
      NodesAllocated(tree);
      assert name in Contents();
      c := Adrof(name);
    }

    /** Find the node of `name`, or add one. */
    method Slot(name: Name) returns (c: VarEnt)
      requires Valid()
      modifies this, head, Nodes(tree)
      ensures Valid() && c in Nodes(tree)
      ensures forall o :: o in Nodes(tree) ==> o in old(Nodes(tree)) || fresh(o)
      ensures c.name == name
      ensures Contents() == old(Contents()) || Contents() == old(Contents())[name := []]
    {
      NodesAllocated(tree);
      var p, f, found;
      ghost var q, t;
      p, f, found, q, t := Search(name);
      PlugNodes(q, t);
      if found == null {
        c := Insert(p, f, name, q);
      } else {
        c := found;
      }
    }

    /** Add a fresh node at a missing link and rebalance. */
    method Insert(p: VarEnt, f: bool, name: Name, ghost q: VPath) returns (c: VarEnt)
      requires Valid() && AtLink(p, f, q, Leaf) && Brackets(q, name)
      requires Plug(q, Leaf) == tree && Header(q) == head
      modifies this`tree, head, Nodes(tree)
      ensures Valid() && Nodes(tree) == old(Nodes(tree)) + {c} && fresh(c)
      ensures c.name == name && Contents() == old(Contents())[name := []]
    {
      hide Mirror, OnPath, Distinct, DistinctPath, Inorder, Before, After, Plug, ToMap, Sorted, Brackets;
      Position(q, Leaf);
      ghost var after;
      c, after := AddLeaf(p, f, name, q);
      InsertFacts(q, Entry(c, name, []));
      tree := after;
    }

    /** `c->vec = vec` for a node of the table. */
    method Store(c: VarEnt, val: Words)
      requires Valid() && c in Nodes(tree)
      modifies this`tree, c
      ensures Valid() && Nodes(tree) == old(Nodes(tree))
      ensures Contents() == old(Contents())[old(c.name) := val]
    {
      var p, f, q, t := Locate(head, false, Top(head), tree, c);
      StoreFacts(q, t, val);
      ReplacedShape(q, t, t.e.(val := val));
      PlugNodes(q, t);
      tree := Overwrite(c, c.name, val, p, f, q, t);
    }

    /** `adrof1(name, v)` */
    method Adrof(name: Name) returns (c: VarEnt?)
      requires Valid()
      ensures c == null <==> name !in Contents()
      ensures c != null ==> c in Nodes(tree) && c.name == name && c.vec == Contents()[name]
    {
      var p, f;
      ghost var q, t;
      p, f, c, q, t := Search(name);
      if c == null {
        AbsentFacts(q, Entry(head, name, []));
      } else {
        PresentFacts(q, t);
        PlugNodes(q, t);
      }
    }

    /** `unsetv1(p)` */
    method Unsetv1(p: VarEnt)
      requires Valid() && p in Nodes(tree)
      modifies this, head, Nodes(tree)
      ensures Valid() && Nodes(tree) <= old(Nodes(tree))
      ensures Contents() == old(Contents()) - {old(p.name)}
      ensures |Inorder(tree)| + 1 == old(|Inorder(tree)|)
    {
      hide OnPath, Distinct, DistinctPath, Inorder, Before, After, Plug, ToMap, Sorted, Balanced, BalancedPath, Height, Header;
      AtHead();
      var par, f, q, t := Locate(head, false, Top(head), tree, p);
      ReplacedInorder(q, t, t.e);
      UnplugBalanced(q, t);
      PlugNodes(q, t);
      if p.right == null {
        tree := Unlink(p, p.left, par, f, q, t);
        DropFacts(Before(q) + Inorder(t.l), t.e, Inorder(t.r) + After(q));
      } else if p.left == null {
        tree := Unlink(p, p.right, par, f, q, t);
        DropFacts(Before(q) + Inorder(t.l), t.e, Inorder(t.r) + After(q));
      } else {
        UnsetInner(p, par, f, q, t);
      }
    }

    /** The arm of `unsetv1` for a node with two children. */
    method UnsetInner(p: VarEnt, ghost par: VarEnt, ghost f: bool, ghost q: VPath, ghost t: VTree)
      requires Valid() && AtLink(par, f, q, t) && t.Node? && t.e.n == p
      requires Plug(q, t) == tree && Header(q) == head
      requires p.left != null && p.right != null
      modifies this, head, Nodes(tree)
      ensures Valid() && Nodes(tree) <= old(Nodes(tree))
      ensures Contents() == old(Contents()) - {t.e.key}
      ensures |Inorder(tree)| + 1 == old(|Inorder(tree)|)
    {
      hide OnPath, Distinct, DistinctPath, Inorder, Before, After, Plug, ToMap, Sorted, Balanced, BalancedPath, Height, Header;
      NodesAllocated(tree);
      var c;
      ghost var x;
      c, x := Rightmost(p.left, t.l, p);
      ghost var old_t, ec := tree, Entry(c, c.name, c.vec);
      ghost var a, ep, b := Before(q) + x, Entry(p, c.name, c.vec), Inorder(t.r) + After(q);
      InnerInorder(q, t, x, ec, ep);
      InnerInorder(q, t, x, ec, t.e);
      Assoc(a + [ec], [ep], b);
      Assoc(a, [ep], b);
      ReplacedShape(q, t, ep);
      PlugNodes(q, t);
      tree := Overwrite(p, c.name, c.vec, par, f, q, t);
      tree := UnlinkNode(tree, c, a, ec, [ep] + b);
      MovedFacts(a, ec, t.e, b);
    }

    /** Unlink node `c`, which has no right child, wherever it is. */
    method UnlinkNode(ghost tree: VTree, c: VarEnt, ghost a: seq<Entry<VarEnt>>, ghost ec: Entry<VarEnt>,
                      ghost b: seq<Entry<VarEnt>>) returns (ghost tree': VTree)
      requires IsTable(tree, head) && Balanced(tree) && c in Nodes(tree) && c.right == null
      requires Inorder(tree) == a + [ec] + b && ec.n == c
      modifies head, Nodes(tree)
      ensures IsTable(tree', head) && Balanced(tree')
      ensures Nodes(tree') <= Nodes(tree)
      ensures Inorder(tree') == a + b
    {
      var par, f, q, t := Locate(head, false, Top(head), tree, c);
      ReplacedInorder(q, t, t.e);
      UnplugBalanced(q, t);
      PlugNodes(q, t);
      OnePlace(tree, a, ec, b, Before(q) + Inorder(t.l), t.e, Inorder(t.r) + After(q));
      tree' := Unlink(c, c.left, par, f, q, t);
    }

    /** `plist(p)`: print every variable once, in name order. */
    method Plist() returns (out: seq<Line>)
      requires Valid()
      ensures IsListing(out, Contents())
    {
      out := Walk(head, tree);
      ListingOf(Inorder(tree));
    }

    /** `unset1(v, head)`: remove every variable that some pattern matches, and
        complain about each pattern that matches nothing (any more). */
    method Unset1(v: seq<Name>, gmatch: Matcher) returns (complaints: seq<Name>)
      requires Valid()
      modifies this, head, Nodes(tree)
      ensures Valid() && Nodes(tree) <= old(Nodes(tree))
      ensures Contents() == Unmatched(old(Contents()), v, gmatch)
      ensures complaints == Complaints(old(Contents()), v, gmatch)
    {
      complaints := [];
      assert v[..0] == [];
      for i := 0 to |v|
        invariant Valid() && Nodes(tree) <= old(Nodes(tree))
        invariant Contents() == Unmatched(old(Contents()), v[..i], gmatch)
        invariant complaints == Complaints(old(Contents()), v[..i], gmatch)
      {
        OnePatternMore(old(Contents()), v, i, gmatch);
        var cnt := UnsetMatching(v[i], gmatch);
        if cnt == 0 {
          complaints := complaints + [v[i]];
        }
      }
      assert v[..|v|] == v;
    }

    /** The inner loop of `unset1`, for one pattern. */
    method UnsetMatching(pat: Name, gmatch: Matcher) returns (cnt: nat)
      requires Valid()
      modifies this, head, Nodes(tree)
      ensures Valid() && Nodes(tree) <= old(Nodes(tree))
      ensures Contents() == old(Contents()) - MatchedKeys(old(Contents()), pat, gmatch)
      ensures cnt == 0 <==> MatchedKeys(old(Contents()), pat, gmatch) == {}
    {
      hide Inorder, ToMap, Mirror, Distinct, Balanced, Sorted, MatchedKeys, FirstMatch;
      cnt := 0;
      ghost var m0, gone: set<Name> := Contents(), {};
      var vp := FindMatch(pat, gmatch);
      NoneGone(m0, pat, gmatch);
      while vp != null
        invariant Valid() == true && Nodes(tree) <= old(Nodes(tree))
        invariant FirstMatch(Inorder(tree), vp, pat, gmatch) == true
        invariant gone <= MatchedKeys(m0, pat, gmatch) && Contents() == m0 - gone
        invariant cnt == 0 <==> gone == {}
        decreases |Inorder(tree)|
      {
        MatchFacts(vp, pat, gmatch);
        InMatched(m0, vp.name, pat, gmatch);
        gone := gone + {vp.name};
        Unsetv1(vp);
        cnt := cnt + 1;
        vp := FindMatch(pat, gmatch);
      }
      NoMatch(pat, gmatch);
      AllGone(m0, gone, pat, gmatch);
    }

    method FindMatch(pat: Name, gmatch: Matcher) returns (vp: VarEnt?)
      requires Valid()
      ensures Valid() == true && FirstMatch(Inorder(tree), vp, pat, gmatch)
    {
      NodesAllocated(tree);
      vp := Madrof(pat, head.left, gmatch, tree, head);
    }

    /** A match is a variable of the table. */
    lemma MatchFacts(vp: VarEnt, pat: Name, gmatch: Matcher)
      requires Valid() && FirstMatch(Inorder(tree), vp, pat, gmatch)
      ensures vp in Nodes(tree) && vp.name in Contents() && gmatch(vp.name, pat)
    {
      hide Mirror, Balanced, Sorted, Distinct;
      InorderNodes(tree);
      MirrorEntries(tree, head.left, head);
      ToMapKeys(Inorder(tree), vp.name);
    }

    lemma NoMatch(pat: Name, gmatch: Matcher)
      requires FirstMatch(Inorder(tree), null, pat, gmatch)
      ensures forall k :: k in Contents() ==> !gmatch(k, pat)
    {
      forall k | k in Contents() ensures !gmatch(k, pat) {
        ToMapKeys(Inorder(tree), k);
      }
    }
  }

  lemma NoneGone(m: map<Name, Words>, pat: Name, gmatch: Matcher)
    ensures {} <= MatchedKeys(m, pat, gmatch) && m - {} == m
  {
  }

  lemma InMatched(m: map<Name, Words>, k: Name, pat: Name, gmatch: Matcher)
    requires gmatch(k, pat)
    ensures k in m <==> k in MatchedKeys(m, pat, gmatch)
  {
  }

  lemma AllGone(m: map<Name, Words>, gone: set<Name>, pat: Name, gmatch: Matcher)
    requires gone <= MatchedKeys(m, pat, gmatch) && forall k :: k in m - gone ==> !gmatch(k, pat)
    ensures gone == MatchedKeys(m, pat, gmatch)
  {
  }

  ghost function MatchedKeys(m: map<Name, Words>, pat: Name, gmatch: Matcher): set<Name> {
    set k | k in m && gmatch(k, pat)
  }

  /** What is left when every variable that one of the patterns matches has gone. */
  ghost function Unmatched(m: map<Name, Words>, v: seq<Name>, gmatch: Matcher): map<Name, Words> {
    map k | k in m && (forall i :: 0 <= i < |v| ==> !gmatch(k, v[i])) :: m[k]
  }

  lemma OnePatternMore(m: map<Name, Words>, v: seq<Name>, n: nat, gmatch: Matcher)
    requires n < |v|
    ensures var left := Unmatched(m, v[..n], gmatch); var keys := MatchedKeys(left, v[n], gmatch);
      && Unmatched(m, v[..n + 1], gmatch) == left - keys
      && Complaints(m, v[..n + 1], gmatch) == Complaints(m, v[..n], gmatch) + if keys == {} then [v[n]] else []
  {
    var w, left := v[..n + 1], Unmatched(m, v[..n], gmatch);
    assert w[..n] == v[..n] && w[n] == v[n];
    forall k | k in m ensures k in Unmatched(m, w, gmatch) <==> k in left && !gmatch(k, v[n]) {
      assert forall i :: 0 <= i < n ==> w[i] == v[..n][i];
    }
    assert (exists k :: k in left && gmatch(k, v[n])) <==> MatchedKeys(left, v[n], gmatch) != {} by {
      forall k | k in left && gmatch(k, v[n]) ensures k in MatchedKeys(left, v[n], gmatch) {
      }
    }
  }

  /** The patterns that match nothing that is left when their turn comes. */
  ghost function Complaints(m: map<Name, Words>, v: seq<Name>, gmatch: Matcher): seq<Name> {
    if v == [] then []
    else
      var n := |v| - 1;
      Complaints(m, v[..n], gmatch)
      + if exists k :: k in Unmatched(m, v[..n], gmatch) && gmatch(k, v[n]) then [] else [v[n]]
  }

  /** `out` lists exactly the bindings of `m`, each once, in name order. */
  ghost predicate IsListing(out: seq<Line>, m: map<Name, Words>) {
    && (forall i, j :: 0 <= i < j < |out| ==> Less(out[i].key, out[j].key))
    && (forall i :: 0 <= i < |out| ==> out[i].key in m && m[out[i].key] == out[i].val)
    && (forall k :: k in m ==> exists i :: 0 <= i < |out| && out[i].key == k)
  }

  lemma ListingOf(s: seq<Entry<VarEnt>>)
    requires Sorted(s)
    ensures IsListing(Lines(s), ToMap(s))
  {
    forall i | 0 <= i < |s| ensures s[i].key in ToMap(s) && ToMap(s)[s[i].key] == s[i].val {
      ToMapAt(s, i);
    }
    forall k | k in ToMap(s) ensures exists i :: 0 <= i < |Lines(s)| && Lines(s)[i].key == k {
      ToMapKeys(s, k);
      var i :| 0 <= i < |s| && s[i].key == k;
      assert Lines(s)[i].key == k;
    }
  }

  /** After a common beginning, the next key of one listing is not before that of another. */
  lemma NotBefore(a: seq<Line>, b: seq<Line>, m: map<Name, Words>, i: nat)
    requires IsListing(a, m) && IsListing(b, m)
    requires i < |a| && i <= |b| && a[..i] == b[..i]
    ensures i < |b| && !Less(a[i].key, b[i].key)
  {
    assert a[i].key in m;
    var j :| 0 <= j < |b| && b[j].key == a[i].key;
    if j < i {
      assert a[j] == a[..i][j] == b[..i][j] == b[j];
      CompareTrichotomy(a[j].key, a[i].key);
    } else {
      CompareTrichotomy(b[i].key, b[j].key);
      CompareTrichotomy(b[j].key, b[i].key);
    }
  }

  /** A map has only one listing. */
  lemma {:induction false} ListingUnique(a: seq<Line>, b: seq<Line>, m: map<Name, Words>, n: nat)
    requires IsListing(a, m) && IsListing(b, m) && n <= |a|
    ensures n <= |b| && a[..n] == b[..n]
    ensures n == |a| ==> a == b
  {
    if n > 0 {
      var i := n - 1;
      ListingUnique(a, b, m, i);
      NotBefore(a, b, m, i);
      NotBefore(b, a, m, i);
      CompareTrichotomy(a[i].key, b[i].key);
      CompareTrichotomy(b[i].key, a[i].key);
      assert a[..n] == a[..i] + [a[i]] && b[..n] == b[..i] + [b[i]];
    }
    if n == |a| && n < |b| {
      NotBefore(b, a, m, n);
    }
  }

  // -------------------------------------------------------------- whole runs

  /** A command that changes the table. */
  datatype Command = Assign(name: Name, vec: Words) | Unset(name: Name) | UnsetAll(patterns: seq<Name>)

  /** What a command does to the variables; unsetting an unknown one is an error that changes nothing. */
  ghost function Apply(m: map<Name, Words>, c: Command, gmatch: Matcher): map<Name, Words> {
    match c
    case Assign(name, vec) => m[name := Trim(vec)]
    case Unset(name) => m - {name}
    case UnsetAll(patterns) => Unmatched(m, patterns, gmatch)
  }

  ghost function ApplyAll(cs: seq<Command>, gmatch: Matcher): map<Name, Words> {
    if cs == [] then map[] else Apply(ApplyAll(cs[..|cs| - 1], gmatch), cs[|cs| - 1], gmatch)
  }

  /** Every run from an empty header leaves a sorted, balanced, properly linked
      tree that stands for the map the commands describe. */
  method Run(cs: seq<Command>, gmatch: Matcher) returns (table: Table)
    ensures fresh(table) && table.Valid()
    ensures table.Contents() == ApplyAll(cs, gmatch)
  {
    hide ToMap, Unmatched, Trim, Mirror, Distinct, Balanced, Sorted, Inorder, Complaints;
    table := new Table();
    for i := 0 to |cs|
      invariant fresh(table) && fresh(table.head) && fresh(Nodes(table.tree)) && table.Valid()
      invariant table.Contents() == ApplyAll(cs[..i], gmatch)
    {
      assert cs[..i + 1][..i] == cs[..i];
      match cs[i] {
        case Assign(name, vec) =>
          table.Setq(name, vec);
        case Unset(name) =>
          NodesAllocated(table.tree);
          var c := table.Adrof(name);
          if c != null {
            table.Unsetv1(c);
          }
        case UnsetAll(patterns) =>
          var complaints := table.Unset1(patterns, gmatch);
      }
    }
    assert cs[..|cs|] == cs;
  }
}
