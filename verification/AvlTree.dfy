/** Value-level theory of the csh variable table (bin/csh/sh.set.c): snapshots
    of the tree of `struct varent`, paths from a node up to the header, and one
    step of `balance`.  `N` is the type of node identities. */
module AvlTree {
  import opened Names

  /** A variable's word list. */
  type Words = seq<Name>

  /** What one node holds, with the node's identity. */
  datatype Entry<N> = Entry(n: N, key: Name, val: Words)

  /** A snapshot of a subtree, including the recorded balance `v_bal`. */
  datatype Tree<N> = Leaf | Node(l: Tree<N>, e: Entry<N>, bal: int, r: Tree<N>)

  /** The way from a node up to the header `h`.  In `Up`, the node is `e.n`, the
      path arrives from its right link when `right`, and `sib` is its other
      subtree. */
  datatype Path<N> = Top(h: N) | Up(right: bool, e: Entry<N>, bal: int, sib: Tree<N>, up: Path<N>)

  function Max(a: int, b: int): int {
    if a < b then b else a
  }

  function Height<N>(t: Tree<N>): nat {
    match t
    case Leaf => 0
    case Node(l, _, _, r) => 1 + Max(Height(l), Height(r))
  }

  /** Every recorded balance is right height minus left height, in -1..1. */
  ghost predicate Balanced<N>(t: Tree<N>) {
    match t
    case Leaf => true
    case Node(l, _, bal, r) =>
      Balanced(l) && Balanced(r) && bal == Height(r) - Height(l) && -1 <= bal <= 1
  }

  function Inorder<N>(t: Tree<N>): seq<Entry<N>> {
    match t
    case Leaf => []
    case Node(l, e, _, r) => Inorder(l) + [e] + Inorder(r)
  }

  ghost function Nodes<N>(t: Tree<N>): set<N> {
    match t
    case Leaf => {}
    case Node(l, e, _, r) => Nodes(l) + {e.n} + Nodes(r)
  }

  /** No node occurs twice. */
  ghost predicate Distinct<N>(t: Tree<N>) {
    match t
    case Leaf => true
    case Node(l, e, _, r) =>
      && Distinct(l) && Distinct(r)
      && e.n !in Nodes(l) && e.n !in Nodes(r) && Nodes(l) !! Nodes(r)
  }

  // ---------------------------------------------------------------- paths

  function Join<N>(right: bool, e: Entry<N>, bal: int, sib: Tree<N>, t: Tree<N>): Tree<N> {
    if right then Node(sib, e, bal, t) else Node(t, e, bal, sib)
  }

  /** The whole tree in which `t` hangs at the end of path `p`. */
  function Plug<N>(p: Path<N>, t: Tree<N>): Tree<N> {
    match p
    case Top(_) => t
    case Up(right, e, bal, sib, up) => Plug(up, Join(right, e, bal, sib, t))
  }

  ghost function PathNodes<N>(p: Path<N>): set<N> {
    match p
    case Top(h) => {h}
    case Up(_, e, _, sib, up) => {e.n} + Nodes(sib) + PathNodes(up)
  }

  ghost predicate DistinctPath<N>(p: Path<N>) {
    match p
    case Top(_) => true
    case Up(_, e, _, sib, up) =>
      && Distinct(sib) && DistinctPath(up)
      && e.n !in Nodes(sib) && e.n !in PathNodes(up) && Nodes(sib) !! PathNodes(up)
  }

  function Before<N>(p: Path<N>): seq<Entry<N>> {
    match p
    case Top(_) => []
    case Up(right, e, _, sib, up) => if right then Before(up) + Inorder(sib) + [e] else Before(up)
  }

  function After<N>(p: Path<N>): seq<Entry<N>> {
    match p
    case Top(_) => []
    case Up(right, e, _, sib, up) => if right then After(up) else [e] + Inorder(sib) + After(up)
  }

  function Header<N>(p: Path<N>): N {
    match p
    case Top(h) => h
    case Up(_, _, _, _, up) => Header(up)
  }

  /** All recorded balances on the path are right for a subtree of height `h`
      at its end. */
  ghost predicate BalancedPath<N>(p: Path<N>, h: nat) {
    match p
    case Top(_) => true
    case Up(right, _, bal, sib, up) =>
      && Balanced(sib) && -1 <= bal <= 1
      && bal == (if right then h - Height(sib) else Height(sib) - h)
      && BalancedPath(up, 1 + Max(h, Height(sib)))
  }

  lemma {:induction false} PlugInorder<N>(p: Path<N>, t: Tree<N>)
    ensures Inorder(Plug(p, t)) == Before(p) + Inorder(t) + After(p)
  {
    hide Inorder;
    match p
    case Top(_) =>
      assert [] + Inorder(t) + [] == Inorder(t);
    case Up(right, e, bal, sib, up) =>
      PlugInorder(up, Join(right, e, bal, sib, t));
      JoinInorder(Before(up), After(up), right, e, bal, sib, t);
  }

  lemma {:induction false} PlugBalanced<N>(p: Path<N>, t: Tree<N>)
    requires Balanced(t) && BalancedPath(p, Height(t))
    ensures Balanced(Plug(p, t))
  {
    match p
    case Top(_) =>
    case Up(right, e, bal, sib, up) =>
      PlugBalanced(up, Join(right, e, bal, sib, t));
  }

  lemma {:induction false} UnplugBalanced<N>(p: Path<N>, t: Tree<N>)
    requires Balanced(Plug(p, t))
    ensures Balanced(t) && BalancedPath(p, Height(t))
  {
    match p
    case Top(_) =>
    case Up(right, e, bal, sib, up) =>
      UnplugBalanced(up, Join(right, e, bal, sib, t));
  }

  lemma {:induction false} PlugNodes<N>(p: Path<N>, t: Tree<N>)
    ensures Nodes(Plug(p, t)) + {Header(p)} == Nodes(t) + PathNodes(p)
    ensures Header(p) in PathNodes(p)
  {
    match p
    case Top(_) =>
    case Up(right, e, bal, sib, up) =>
      PlugNodes(up, Join(right, e, bal, sib, t));
  }

  lemma {:induction false} PlugDistinct<N>(p: Path<N>, t: Tree<N>)
    requires Distinct(t) && DistinctPath(p) && Nodes(t) !! PathNodes(p)
    ensures Distinct(Plug(p, t)) && Header(p) !in Nodes(Plug(p, t))
  {
    match p
    case Top(_) =>
    case Up(right, e, bal, sib, up) =>
      PlugDistinct(up, Join(right, e, bal, sib, t));
  }

  // ------------------------------------------------------ one balance step

  /** A node that `balance` must rotate left has the children it rotates with. */
  predicate CanRotateLeft<N>(bal: int, r: Tree<N>) {
    bal == 1 ==> r.Node? && (r.bal !in {0, 1} ==> r.l.Node?)
  }

  predicate CanRotateRight<N>(l: Tree<N>, bal: int) {
    bal == -1 ==> l.Node? && (l.bal !in {-1, 0} ==> l.r.Node?)
  }

  /** What `balance` makes of a node whose left and right subtrees are `l` and
      `r`, when its right side has become heavier by one. */
  function RightHeavier<N>(l: Tree<N>, e: Entry<N>, bal: int, r: Tree<N>): Tree<N>
    requires CanRotateLeft(bal, r)
  {
    if bal != 1 then Node(l, e, bal + 1, r)
    else if r.bal == 1 then Node(Node(l, e, 0, r.l), r.e, 0, r.r)
    else if r.bal == 0 then Node(Node(l, e, 1, r.l), r.e, -1, r.r)
    else
      var m := r.l;
      Node(Node(l, e, if m.bal < 1 then 0 else -1, m.l), m.e, 0,
           Node(m.r, r.e, if m.bal > -1 then 0 else 1, r.r))
  }

  /** The mirror image of `RightHeavier`. */
  function LeftHeavier<N>(l: Tree<N>, e: Entry<N>, bal: int, r: Tree<N>): Tree<N>
    requires CanRotateRight(l, bal)
  {
    if bal != -1 then Node(l, e, bal - 1, r)
    else if l.bal == -1 then Node(l.l, l.e, 0, Node(l.r, e, 0, r))
    else if l.bal == 0 then Node(l.l, l.e, 1, Node(l.r, e, -1, r))
    else
      var m := l.r;
      Node(Node(l.l, l.e, if m.bal < 1 then 0 else -1, m.l), m.e, 0,
           Node(m.r, e, if m.bal > -1 then 0 else 1, r))
  }

  predicate CanStep<N>(right: bool, bal: int, sib: Tree<N>, del: bool, t: Tree<N>) {
    if right != del then CanRotateLeft(bal, if right then t else sib)
    else CanRotateRight(if right then sib else t, bal)
  }

  /** One round of the loop of `balance` at a node whose other subtree is `sib`,
      coming from its right link when `right`, after a deletion when `del`. */
  function Step<N>(right: bool, e: Entry<N>, bal: int, sib: Tree<N>, del: bool, t: Tree<N>): (s: Tree<N>)
    requires CanStep(right, bal, sib, del, t)
    ensures s.Node?
  {
    var l, r := if right then sib else t, if right then t else sib;
    if right != del then RightHeavier(l, e, bal, r) else LeftHeavier(l, e, bal, r)
  }

  lemma BalancedParts<N>(t: Tree<N>)
    requires Balanced(t) && t.Node?
    ensures Balanced(t.l) && Balanced(t.r) && t.bal == Height(t.r) - Height(t.l) && -1 <= t.bal <= 1
    ensures Height(t) == 1 + Max(Height(t.l), Height(t.r))
  {
  }

  lemma BalancedNode<N>(l: Tree<N>, e: Entry<N>, bal: int, r: Tree<N>)
    requires Balanced(l) && Balanced(r) && bal == Height(r) - Height(l) && -1 <= bal <= 1
    ensures Balanced(Node(l, e, bal, r)) && Height(Node(l, e, bal, r)) == 1 + Max(Height(l), Height(r))
  {
  }

  lemma NoHeight<N>(t: Tree<N>)
    ensures t.Leaf? <==> Height(t) == 0
  {
  }

  lemma RightHeavierBalanced<N>(l: Tree<N>, e: Entry<N>, bal: int, r: Tree<N>)
    requires Balanced(l) && Balanced(r) && -1 <= bal <= 1 && Height(r) - Height(l) == bal + 1
    ensures CanRotateLeft(bal, r)
    ensures var t := RightHeavier(l, e, bal, r);
      && Balanced(t)
      && Height(t) == Max(Height(l) + 1, Height(r)) + if t.bal == 0 then 0 else 1
  {
    hide Balanced, Height;
    if bal != 1 {
      BalancedNode(l, e, bal + 1, r);
    } else {
      NoHeight(r);
      BalancedParts(r);
      if r.bal in {0, 1} {
        BalancedNode(l, e, 1 - r.bal, r.l);
        BalancedNode(Node(l, e, 1 - r.bal, r.l), r.e, r.bal - 1, r.r);
      } else {
        var m := r.l;
        NoHeight(m);
        BalancedParts(m);
        BalancedNode(l, e, if m.bal < 1 then 0 else -1, m.l);
        BalancedNode(m.r, r.e, if m.bal > -1 then 0 else 1, r.r);
        var t := RightHeavier(l, e, bal, r);
        BalancedNode(t.l, m.e, 0, t.r);
      }
    }
  }

  lemma LeftHeavierBalanced<N>(l: Tree<N>, e: Entry<N>, bal: int, r: Tree<N>)
    requires Balanced(l) && Balanced(r) && -1 <= bal <= 1 && Height(r) - Height(l) == bal - 1
    ensures CanRotateRight(l, bal)
    ensures var t := LeftHeavier(l, e, bal, r);
      && Balanced(t)
      && Height(t) == Max(Height(l), Height(r) + 1) + if t.bal == 0 then 0 else 1
  {
    hide Balanced, Height;
    if bal != -1 {
      BalancedNode(l, e, bal - 1, r);
    } else {
      NoHeight(l);
      BalancedParts(l);
      if l.bal in {-1, 0} {
        BalancedNode(l.r, e, -1 - l.bal, r);
        BalancedNode(l.l, l.e, l.bal + 1, Node(l.r, e, -1 - l.bal, r));
      } else {
        var m := l.r;
        NoHeight(m);
        BalancedParts(m);
        BalancedNode(l.l, l.e, if m.bal < 1 then 0 else -1, m.l);
        BalancedNode(m.r, e, if m.bal > -1 then 0 else 1, r);
        var t := LeftHeavier(l, e, bal, r);
        BalancedNode(t.l, m.e, 0, t.r);
      }
    }
  }

  /** If subtree `t` has just grown (shrunk when `del`) by one, one step makes
      the node balanced again, and the subtree at that node still has its old
      height exactly when the loop test `(bal == 0) ^ del` says so; otherwise
      it has itself grown (shrunk) by one. */
  lemma StepBalanced<N>(right: bool, e: Entry<N>, bal: int, sib: Tree<N>, del: bool, t: Tree<N>, old_h: nat)
    requires Balanced(t) && Height(t) == if del then old_h - 1 else old_h + 1
    requires Balanced(sib) && -1 <= bal <= 1
    requires bal == if right then old_h - Height(sib) else Height(sib) - old_h
    ensures CanStep(right, bal, sib, del, t)
    ensures var s := Step(right, e, bal, sib, del, t); var whole := 1 + Max(old_h, Height(sib));
      && Balanced(s)
      && (((s.bal == 0) != del) <==> Height(s) == whole)
      && (Height(s) == whole || Height(s) == if del then whole - 1 else whole + 1)
  {
    var l, r := if right then sib else t, if right then t else sib;
    if right != del {
      RightHeavierBalanced(l, e, bal, r);
    } else {
      LeftHeavierBalanced(l, e, bal, r);
    }
  }

  lemma StepKeeps<N>(right: bool, e: Entry<N>, bal: int, sib: Tree<N>, del: bool, t: Tree<N>)
    requires CanStep(right, bal, sib, del, t)
    ensures var s := Step(right, e, bal, sib, del, t); var w := Join(right, e, bal, sib, t);
      && Inorder(s) == Inorder(w)
      && Nodes(s) == Nodes(w)
      && (Distinct(w) ==> Distinct(s))
  {
    var l, r := if right then sib else t, if right then t else sib;
    if right != del {
      RightHeavierInorder(l, e, bal, r);
      RightHeavierNodes(l, e, bal, r);
    } else {
      LeftHeavierInorder(l, e, bal, r);
      LeftHeavierNodes(l, e, bal, r);
    }
  }

  lemma RightHeavierNodes<N>(l: Tree<N>, e: Entry<N>, bal: int, r: Tree<N>)
    requires CanRotateLeft(bal, r)
    ensures var s := RightHeavier(l, e, bal, r); var w := Node(l, e, bal, r);
      Nodes(s) == Nodes(w) && (Distinct(w) ==> Distinct(s))
  {
    if bal == 1 {
      assert Nodes(r) == Nodes(r.l) + {r.e.n} + Nodes(r.r);
      if r.bal in {0, 1} {
        var s := RightHeavier(l, e, bal, r);
        if Distinct(Node(l, e, bal, r)) {
          assert Distinct(r) && Distinct(s.l);
        }
      } else {
        var m := r.l;
        assert Nodes(m) == Nodes(m.l) + {m.e.n} + Nodes(m.r);
        var s := RightHeavier(l, e, bal, r);
        assert Nodes(s.l) == Nodes(l) + {e.n} + Nodes(m.l);
        assert Nodes(s.r) == Nodes(m.r) + {r.e.n} + Nodes(r.r);
        if Distinct(Node(l, e, bal, r)) {
          assert Distinct(r) && Distinct(m);
          assert Distinct(s.l) && Distinct(s.r);
        }
      }
    }
  }

  lemma LeftHeavierNodes<N>(l: Tree<N>, e: Entry<N>, bal: int, r: Tree<N>)
    requires CanRotateRight(l, bal)
    ensures var s := LeftHeavier(l, e, bal, r); var w := Node(l, e, bal, r);
      Nodes(s) == Nodes(w) && (Distinct(w) ==> Distinct(s))
  {
    if bal == -1 {
      assert Nodes(l) == Nodes(l.l) + {l.e.n} + Nodes(l.r);
      if l.bal in {-1, 0} {
        var s := LeftHeavier(l, e, bal, r);
        if Distinct(Node(l, e, bal, r)) {
          assert Distinct(l) && Distinct(s.r);
        }
      } else {
        var m := l.r;
        assert Nodes(m) == Nodes(m.l) + {m.e.n} + Nodes(m.r);
        var s := LeftHeavier(l, e, bal, r);
        assert Nodes(s.l) == Nodes(l.l) + {l.e.n} + Nodes(m.l);
        assert Nodes(s.r) == Nodes(m.r) + {e.n} + Nodes(r);
        if Distinct(Node(l, e, bal, r)) {
          assert Distinct(l) && Distinct(m);
          assert Distinct(s.l) && Distinct(s.r);
        }
      }
    }
  }

  lemma RightHeavierInorder<N>(l: Tree<N>, e: Entry<N>, bal: int, r: Tree<N>)
    requires CanRotateLeft(bal, r)
    ensures Inorder(RightHeavier(l, e, bal, r)) == Inorder(l) + [e] + Inorder(r)
  {
    if bal == 1 && r.bal in {0, 1} {
      Regroup5(Inorder(l), [e], Inorder(r.l), [r.e], Inorder(r.r));
    } else if bal == 1 {
      var m := r.l;
      assert Inorder(r) == (Inorder(m.l) + [m.e] + Inorder(m.r)) + [r.e] + Inorder(r.r);
      Regroup7(Inorder(l), [e], Inorder(m.l), [m.e], Inorder(m.r), [r.e], Inorder(r.r));
    }
  }

  lemma LeftHeavierInorder<N>(l: Tree<N>, e: Entry<N>, bal: int, r: Tree<N>)
    requires CanRotateRight(l, bal)
    ensures Inorder(LeftHeavier(l, e, bal, r)) == Inorder(l) + [e] + Inorder(r)
  {
    if bal == -1 && l.bal in {-1, 0} {
      Regroup5(Inorder(l.l), [l.e], Inorder(l.r), [e], Inorder(r));
    } else if bal == -1 {
      var m := l.r;
      assert Inorder(l) == Inorder(l.l) + [l.e] + (Inorder(m.l) + [m.e] + Inorder(m.r));
      Regroup7(Inorder(l.l), [l.e], Inorder(m.l), [m.e], Inorder(m.r), [e], Inorder(r));
    }
  }

  lemma Regroup5<T>(a: seq<T>, b: seq<T>, c: seq<T>, d: seq<T>, e: seq<T>)
    ensures a + b + (c + d + e) == a + b + c + d + e
  {
  }

  lemma Regroup7<T>(a: seq<T>, b: seq<T>, c: seq<T>, d: seq<T>, e: seq<T>, f: seq<T>, g: seq<T>)
    ensures a + b + (c + d + e + f + g) == (a + b + c) + d + (e + f + g)
    ensures a + b + (c + d + e) + f + g == (a + b + c) + d + (e + f + g)
  {
  }

  /** The subtree that replaces the last node of path `q` and what hangs there. */
  function StepUp<N>(q: Path<N>, del: bool, t: Tree<N>): (s: Tree<N>)
    requires q.Up? && CanStep(q.right, q.bal, q.sib, del, t)
    ensures s.Node?
  {
    Step(q.right, q.e, q.bal, q.sib, del, t)
  }

  /** A step neither loses, adds nor reorders anything in the whole tree. */
  lemma StepUpInorder<N>(q: Path<N>, del: bool, t: Tree<N>)
    requires q.Up? && CanStep(q.right, q.bal, q.sib, del, t)
    ensures Before(q.up) + Inorder(StepUp(q, del, t)) + After(q.up) == Before(q) + Inorder(t) + After(q)
  {
    StepKeeps(q.right, q.e, q.bal, q.sib, del, t);
    JoinInorder(Before(q.up), After(q.up), q.right, q.e, q.bal, q.sib, t);
  }

  lemma JoinInorder<N>(b: seq<Entry<N>>, a: seq<Entry<N>>, right: bool, e: Entry<N>, bal: int, sib: Tree<N>, t: Tree<N>)
    ensures b + Inorder(Join(right, e, bal, sib, t)) + a
         == if right then b + Inorder(sib) + [e] + Inorder(t) + a
            else b + Inorder(t) + ([e] + Inorder(sib) + a)
  {
  }

  lemma StepUpDistinct<N>(q: Path<N>, del: bool, t: Tree<N>)
    requires q.Up? && CanStep(q.right, q.bal, q.sib, del, t)
    requires DistinctPath(q) && Distinct(t) && Nodes(t) !! PathNodes(q)
    ensures var s := StepUp(q, del, t);
      && Nodes(s) == Nodes(t) + {q.e.n} + Nodes(q.sib)
      && Distinct(s) && Nodes(s) !! PathNodes(q.up)
  {
    StepKeeps(q.right, q.e, q.bal, q.sib, del, t);
    var w := Join(q.right, q.e, q.bal, q.sib, t);
    assert Nodes(w) == Nodes(t) + {q.e.n} + Nodes(q.sib);
  }

  /** Two positions in one tree. */
  ghost predicate SameWhole<N>(q: Path<N>, t: Tree<N>, q0: Path<N>, t0: Tree<N>) {
    && Header(q) == Header(q0)
    && Nodes(t) + PathNodes(q) == Nodes(t0) + PathNodes(q0)
    && Before(q) + Inorder(t) + After(q) == Before(q0) + Inorder(t0) + After(q0)
  }

  /** Everything is balanced, except that unless `even` the subtree `t`, whose
      path was made for height `h`, has grown by one (shrunk when `del`). */
  ghost predicate Uneven<N>(q: Path<N>, t: Tree<N>, h: nat, even: bool, del: bool) {
    && Balanced(t) && BalancedPath(q, h)
    && Height(t) == if even then h else if del then h - 1 else h + 1
  }

  /** When the loop of `balance` ends. */
  lemma UnevenEnd<N>(q: Path<N>, t: Tree<N>, h: nat, even: bool, del: bool)
    requires Uneven(q, t, h, even, del) && (even || q.Top?)
    ensures Balanced(t) && BalancedPath(q, Height(t))
  {
  }

  lemma SameWholeTwice<N>(q: Path<N>, t: Tree<N>, q1: Path<N>, t1: Tree<N>, q0: Path<N>, t0: Tree<N>)
    requires SameWhole(q, t, q1, t1) && SameWhole(q1, t1, q0, t0)
    ensures SameWhole(q, t, q0, t0)
  {
  }

  lemma StepUpFacts<N>(q: Path<N>, del: bool, t: Tree<N>, h: nat)
    requires q.Up? && Uneven(q, t, h, false, del)
    requires DistinctPath(q) && Distinct(t) && Nodes(t) !! PathNodes(q)
    ensures CanStep(q.right, q.bal, q.sib, del, t) && Balanced(q.sib) && -1 <= q.bal <= 1
    ensures SameWhole(q.up, StepUp(q, del, t), q, t)
    ensures Uneven(q.up, StepUp(q, del, t), 1 + Max(h, Height(q.sib)), (StepUp(q, del, t).bal == 0) != del, del)
  {
    StepBalanced(q.right, q.e, q.bal, q.sib, del, t, h);
    StepUpInorder(q, del, t);
    StepUpDistinct(q, del, t);
  }

  lemma PlugFacts<N>(q: Path<N>, t: Tree<N>)
    requires DistinctPath(q) && Distinct(t) && Nodes(t) !! PathNodes(q)
    requires Balanced(t) && BalancedPath(q, Height(t))
    ensures Balanced(Plug(q, t))
    ensures Nodes(Plug(q, t)) == Nodes(t) + PathNodes(q) - {Header(q)}
    ensures Inorder(Plug(q, t)) == Before(q) + Inorder(t) + After(q)
  {
    PlugInorder(q, t);
    PlugNodes(q, t);
    PlugDistinct(q, t);
    PlugBalanced(q, t);
  }

  lemma Regroup<T>(a: seq<T>, b: seq<T>, c: seq<T>, d: seq<T>, e: seq<T>)
    ensures a + (b + c + d) + e == (a + b) + c + (d + e)
  {
  }

  /** What surrounds the root of the subtree at the end of a path. */
  lemma Around<N>(q: Path<N>, t: Tree<N>)
    requires t.Node?
    ensures Before(q) + Inorder(t) + After(q) == (Before(q) + Inorder(t.l)) + [t.e] + (Inorder(t.r) + After(q))
  {
    Regroup(Before(q), Inorder(t.l), [t.e], Inorder(t.r), After(q));
  }

  /** The path one link further down, into the right subtree when `g`. */
  function Below<N>(q: Path<N>, t: Tree<N>, g: bool): Path<N>
    requires t.Node?
  {
    Up(g, t.e, t.bal, if g then t.l else t.r, q)
  }

  /** What a position in a tree says about the whole tree, and conversely. */
  lemma Position<N>(q: Path<N>, t: Tree<N>)
    ensures Inorder(Plug(q, t)) == Before(q) + Inorder(t) + After(q)
    ensures Nodes(Plug(q, t)) + {Header(q)} == Nodes(t) + PathNodes(q)
    ensures Balanced(Plug(q, t)) <==> Balanced(t) && BalancedPath(q, Height(t))
  {
    PlugInorder(q, t);
    PlugNodes(q, t);
    if Balanced(t) && BalancedPath(q, Height(t)) {
      PlugBalanced(q, t);
    }
    if Balanced(Plug(q, t)) {
      UnplugBalanced(q, t);
    }
  }

  // ------------------------------------------------ what the table denotes

  ghost predicate Sorted<N>(s: seq<Entry<N>>) {
    forall i, j :: 0 <= i < j < |s| ==> Less(s[i].key, s[j].key)
  }

  /** The finite map that a list of entries stands for. */
  function ToMap<N>(s: seq<Entry<N>>): map<Name, Words> {
    if s == [] then map[]
    else ToMap(s[..|s| - 1])[s[|s| - 1].key := s[|s| - 1].val]
  }

  lemma {:induction false} ToMapKeys<N>(s: seq<Entry<N>>, k: Name)
    ensures k in ToMap(s) <==> exists i :: 0 <= i < |s| && s[i].key == k
  {
    if s != [] {
      var n := |s| - 1;
      ToMapKeys(s[..n], k);
      if k in ToMap(s[..n]) {
        var i :| 0 <= i < n && s[..n][i].key == k;
        assert s[i].key == k;
      } else {
        assert forall i :: 0 <= i < n ==> s[i] == s[..n][i];
      }
    }
  }

  lemma {:induction false} ToMapConcat<N>(a: seq<Entry<N>>, b: seq<Entry<N>>)
    ensures ToMap(a + b) == ToMap(a) + ToMap(b)
  {
    if b == [] {
      assert a + b == a;
    } else {
      var n := |b| - 1;
      ToMapConcat(a, b[..n]);
      assert (a + b)[..|a + b| - 1] == a + b[..n];
    }
  }

  /** Dropping an entry keeps the order, and its key is gone. */
  lemma SortedDrop<N>(a: seq<Entry<N>>, e: Entry<N>, b: seq<Entry<N>>)
    requires Sorted(a + [e] + b)
    ensures Sorted(a + b)
    ensures forall x :: x in a + b ==> x.key != e.key
  {
    var s, t := a + [e] + b, a + b;
    assert s[|a|] == e;
    assert forall i :: 0 <= i < |t| ==> t[i] == s[if i < |a| then i else i + 1];
    forall i | 0 <= i < |t| ensures t[i].key != e.key {
      CompareTrichotomy(t[i].key, e.key);
      CompareTrichotomy(e.key, t[i].key);
    }
  }

  /** Entry `e` in the middle of a sorted list decides the value of its key. */
  lemma ToMapMiddle<N>(a: seq<Entry<N>>, e: Entry<N>, b: seq<Entry<N>>)
    requires Sorted(a + [e] + b)
    ensures Sorted(a + b)
    ensures e.key !in ToMap(a + b)
    ensures ToMap(a + [e] + b) == ToMap(a + b)[e.key := e.val]
  {
    hide ToMap, Sorted;
    SortedDrop(a, e, b);
    ToMapKeys(a + b, e.key);
    ToMapConcat(a, b);
    ToMapConcat(a, [e]);
    ToMapConcat(a + [e], b);
    ToMapOne(e);
  }

  lemma ToMapOne<N>(e: Entry<N>)
    ensures ToMap([e]) == map[e.key := e.val]
  {
  }

  /** An absent key belongs between the smaller and the larger entries. */
  lemma SortedInsert<N>(a: seq<Entry<N>>, e: Entry<N>, b: seq<Entry<N>>)
    requires Sorted(a + b)
    requires forall x :: x in a ==> Less(x.key, e.key)
    requires forall x :: x in b ==> Less(e.key, x.key)
    ensures Sorted(a + [e] + b)
  {
    var s := a + [e] + b;
    forall i, j | 0 <= i < j < |s| ensures Less(s[i].key, s[j].key) {
      if i < |a| {
        assert s[i] == (a + b)[i] && s[i] in a;
      }
      if j > |a| {
        assert s[j] == (a + b)[j - 1] && s[j] in b;
      }
      if i > |a| {
        assert s[i] == (a + b)[i - 1];
      } else if j < |a| {
        assert s[j] == (a + b)[j];
      }
    }
  }

  /** Replacing an entry by one with the same key keeps the order. */
  lemma SortedReplace<N>(a: seq<Entry<N>>, e: Entry<N>, e': Entry<N>, b: seq<Entry<N>>)
    requires Sorted(a + [e] + b) && e'.key == e.key
    ensures Sorted(a + [e'] + b)
  {
    var s, s' := a + [e] + b, a + [e'] + b;
    assert forall i :: 0 <= i < |s| ==> s'[i].key == s[i].key;
  }

  /** All entries of the list have their nodes in the set. */
  lemma {:induction false} InorderNodes<N>(t: Tree<N>)
    ensures forall x :: x in Inorder(t) ==> x.n in Nodes(t)
  {
    if t.Node? {
      InorderNodes(t.l);
      InorderNodes(t.r);
    }
  }

  lemma {:induction false} PathEntries<N>(q: Path<N>)
    ensures forall x :: x in Before(q) || x in After(q) ==> x.n in PathNodes(q)
  {
    if q.Up? {
      PathEntries(q.up);
      InorderNodes(q.sib);
    }
  }

  /** Everything before the path is smaller than `name`, everything after it larger. */
  ghost predicate Brackets<N>(q: Path<N>, name: Name) {
    && (forall x :: x in Before(q) ==> Less(x.key, name))
    && (forall x :: x in After(q) ==> Less(name, x.key))
  }

  lemma BelowBrackets<N>(q: Path<N>, t: Tree<N>, g: bool, name: Name)
    requires t.Node? && Brackets(q, name)
    requires Sorted(Before(q) + Inorder(t) + After(q))
    requires if g then Less(t.e.key, name) else Less(name, t.e.key)
    ensures Brackets(Below(q, t, g), name)
  {
    hide Inorder, Sorted;
    Around(q, t);
    SortedMiddle(Before(q) + Inorder(t.l), t.e, Inorder(t.r) + After(q));
    if g {
      forall x | x in Before(q) + Inorder(t.l) ensures Less(x.key, name) {
        CompareTransitive(x.key, t.e.key, name);
      }
    } else {
      forall x | x in Inorder(t.r) + After(q) ensures Less(name, x.key) {
        CompareTransitive(name, t.e.key, x.key);
      }
    }
    BelowSides(q, t, g);
  }

  lemma SortedMiddle<N>(a: seq<Entry<N>>, e: Entry<N>, b: seq<Entry<N>>)
    requires Sorted(a + [e] + b)
    ensures forall x :: x in a ==> Less(x.key, e.key)
    ensures forall x :: x in b ==> Less(e.key, x.key)
  {
    var s := a + [e] + b;
    assert s[|a|] == e;
    forall x | x in a ensures Less(x.key, e.key) {
      var i :| 0 <= i < |a| && a[i] == x;
      assert s[i] == x;
    }
    forall x | x in b ensures Less(e.key, x.key) {
      var i :| 0 <= i < |b| && b[i] == x;
      assert s[|a| + 1 + i] == x;
    }
  }

  lemma BelowSides<N>(q: Path<N>, t: Tree<N>, g: bool)
    requires t.Node?
    ensures g ==> Before(Below(q, t, g)) == Before(q) + Inorder(t.l) + [t.e] && After(Below(q, t, g)) == After(q)
    ensures !g ==> Before(Below(q, t, g)) == Before(q) && After(Below(q, t, g)) == [t.e] + (Inorder(t.r) + After(q))
  {
    hide Inorder;
    Assoc([t.e], Inorder(t.r), After(q));
  }

  /** Adding an entry where the search for its key ended. */
  lemma InsertFacts<N>(q: Path<N>, e: Entry<N>)
    requires Sorted(Inorder(Plug(q, Leaf))) && Brackets(q, e.key)
    ensures Sorted(Before(q) + [e] + After(q))
    ensures ToMap(Before(q) + [e] + After(q)) == ToMap(Inorder(Plug(q, Leaf)))[e.key := e.val]
  {
    var s := Inorder(Plug(q, Leaf));
    assert s == Before(q) + After(q) by {
      PlugInorder(q, Leaf);
    }
    SortedInsert(Before(q), e, After(q));
    ToMapMiddle(Before(q), e, After(q));
  }

  /** Storing a value in one node. */
  lemma StoreOrder<N>(a: seq<Entry<N>>, e: Entry<N>, b: seq<Entry<N>>, val: Words)
    requires Sorted(a + [e] + b)
    ensures var e' := e.(val := val);
      Sorted(a + [e'] + b) && ToMap(a + [e'] + b) == ToMap(a + [e] + b)[e.key := val]
  {
    SortedReplace(a, e, e.(val := val), b);
    ToMapMiddle(a, e, b);
    ToMapMiddle(a, e.(val := val), b);
  }

  /** The table in which the node at the end of `q` has been given a new entry. */
  function Replaced<N>(q: Path<N>, t: Tree<N>, e: Entry<N>): Tree<N>
    requires t.Node?
  {
    Plug(q, Node(t.l, e, t.bal, t.r))
  }

  lemma ReplacedShape<N>(q: Path<N>, t: Tree<N>, e: Entry<N>)
    requires t.Node? && Balanced(Plug(q, t)) && e.n == t.e.n
    ensures Balanced(Replaced(q, t, e))
    ensures Nodes(Replaced(q, t, e)) + {Header(q)} == Nodes(t) + PathNodes(q)
  {
    var t' := Node(t.l, e, t.bal, t.r);
    UnplugBalanced(q, t);
    assert Height(t') == Height(t);
    PlugBalanced(q, t');
    PlugNodes(q, t');
  }

  lemma ReplacedInorder<N>(q: Path<N>, t: Tree<N>, e: Entry<N>)
    requires t.Node?
    ensures Inorder(Replaced(q, t, e)) == (Before(q) + Inorder(t.l)) + [e] + (Inorder(t.r) + After(q))
  {
    PlugInorder(q, Node(t.l, e, t.bal, t.r));
    Around(q, Node(t.l, e, t.bal, t.r));
  }

  lemma StoreFacts<N>(q: Path<N>, t: Tree<N>, val: Words)
    requires t.Node? && Sorted(Inorder(Plug(q, t)))
    ensures var u := Replaced(q, t, t.e.(val := val));
      Sorted(Inorder(u)) && ToMap(Inorder(u)) == ToMap(Inorder(Plug(q, t)))[t.e.key := val]
  {
    ReplacedInorder(q, t, t.e.(val := val));
    ReplacedInorder(q, t, t.e);
    StoreOrder(Before(q) + Inorder(t.l), t.e, Inorder(t.r) + After(q), val);
  }

  /** Dropping an entry removes its key from the map. */
  lemma DropFacts<N>(a: seq<Entry<N>>, e: Entry<N>, b: seq<Entry<N>>)
    requires Sorted(a + [e] + b)
    ensures Sorted(a + b) && ToMap(a + b) == ToMap(a + [e] + b) - {e.key}
  {
    ToMapMiddle(a, e, b);
  }

  /** Which node holds an entry does not matter to the map. */
  lemma {:induction false} RehouseFacts<N>(s: seq<Entry<N>>, u: seq<Entry<N>>)
    requires |s| == |u| && forall i :: 0 <= i < |s| ==> s[i].key == u[i].key && s[i].val == u[i].val
    ensures ToMap(s) == ToMap(u) && (Sorted(s) ==> Sorted(u))
  {
    if s != [] {
      RehouseFacts(s[..|s| - 1], u[..|u| - 1]);
    }
  }

  lemma {:induction false} InorderDistinct<N>(t: Tree<N>, i: nat, j: nat)
    requires Distinct(t) && i < |Inorder(t)| && j < |Inorder(t)| && Inorder(t)[i].n == Inorder(t)[j].n
    ensures i == j
  {
    var s, k := Inorder(t), |Inorder(t.l)|;
    InorderNodes(t.l);
    InorderNodes(t.r);
    if i < k {
      assert s[i] == Inorder(t.l)[i] && s[i] in Inorder(t.l);
    } else if i > k {
      assert s[i] == Inorder(t.r)[i - k - 1] && s[i] in Inorder(t.r);
    }
    if j < k {
      assert s[j] == Inorder(t.l)[j] && s[j] in Inorder(t.l);
    } else if j > k {
      assert s[j] == Inorder(t.r)[j - k - 1] && s[j] in Inorder(t.r);
    }
    if i < k && j < k {
      InorderDistinct(t.l, i, j);
    } else if i > k && j > k {
      InorderDistinct(t.r, i - k - 1, j - k - 1);
    }
  }

  /** A node has one place in the list of entries. */
  lemma OnePlace<N>(t: Tree<N>, a: seq<Entry<N>>, e: Entry<N>, b: seq<Entry<N>>, a': seq<Entry<N>>, e': Entry<N>, b': seq<Entry<N>>)
    requires Distinct(t) && Inorder(t) == a + [e] + b && Inorder(t) == a' + [e'] + b' && e.n == e'.n
    ensures a == a' && e == e' && b == b'
  {
    var s := Inorder(t);
    assert s[|a|] == e && s[|a'|] == e';
    InorderDistinct(t, |a|, |a'|);
    assert a == s[..|a|] && a' == s[..|a'|];
    assert b == s[|a| + 1..] && b' == s[|a'| + 1..];
  }

  /** Deleting a node with two children: its predecessor's entry `c` moves into
      node `p`, and the predecessor's node goes. */
  lemma MovedFacts<N>(a: seq<Entry<N>>, c: Entry<N>, p: Entry<N>, b: seq<Entry<N>>)
    requires Sorted(a + [c] + [p] + b)
    ensures Sorted(a + [c.(n := p.n)] + b)
    ensures ToMap(a + [c.(n := p.n)] + b) == ToMap(a + [c] + [p] + b) - {p.key}
  {
    DropFacts(a + [c], p, b);
    RehouseFacts(a + [c] + b, a + [c.(n := p.n)] + b);
  }

  /** A search that ends at a missing link proves the name absent. */
  lemma AbsentFacts<N>(q: Path<N>, e: Entry<N>)
    requires Sorted(Inorder(Plug(q, Leaf))) && Brackets(q, e.key)
    ensures e.key !in ToMap(Inorder(Plug(q, Leaf)))
  {
    PlugInorder(q, Leaf);
    assert Inorder(Plug(q, Leaf)) == Before(q) + After(q);
    InsertFacts(q, e);
    ToMapMiddle(Before(q), e, After(q));
  }

  /** A search that ends at a node finds its value. */
  lemma PresentFacts<N>(q: Path<N>, t: Tree<N>)
    requires t.Node? && Sorted(Inorder(Plug(q, t)))
    ensures t.e.key in ToMap(Inorder(Plug(q, t))) && ToMap(Inorder(Plug(q, t)))[t.e.key] == t.e.val
  {
    ReplacedInorder(q, t, t.e);
    ToMapMiddle(Before(q) + Inorder(t.l), t.e, Inorder(t.r) + After(q));
  }

  lemma Assoc<T>(a: seq<T>, b: seq<T>, c: seq<T>)
    ensures (a + b) + c == a + (b + c)
  {
  }

  /** The entries around an inner node holding entry `p`, next to its predecessor's entry `c`. */
  lemma InnerInorder<N>(q: Path<N>, t: Tree<N>, x: seq<Entry<N>>, c: Entry<N>, p: Entry<N>)
    requires t.Node? && Inorder(t.l) == x + [c]
    ensures Inorder(Replaced(q, t, p)) == (Before(q) + x) + [c] + [p] + (Inorder(t.r) + After(q))
  {
    ReplacedInorder(q, t, p);
    Assoc(Before(q), x, [c]);
  }

  lemma {:induction false} PathLeafInorder<N>(q: Path<N>, l: Tree<N>, r: Tree<N>, s: Tree<N>)
    requires (s == l && r.Leaf?) || (s == r && l.Leaf?)
    ensures Before(q) + Inorder(s) + After(q) == (Before(q) + Inorder(l)) + (Inorder(r) + After(q))
  {
  }

  /** What is still to come when a walk steps down a left link. */
  lemma LeftRest<N>(q: Path<N>, t: Tree<N>)
    requires t.Node?
    ensures Inorder(t.l) + After(Below(q, t, false)) == Inorder(t) + After(q)
  {
    Assoc(Inorder(t.l), [t.e], Inorder(t.r));
    Assoc(Inorder(t.l), [t.e] + Inorder(t.r), After(q));
    Assoc([t.e], Inorder(t.r), After(q));
  }

  /** In a sorted list each entry gives the value of its key. */
  lemma {:induction false} ToMapAt<N>(s: seq<Entry<N>>, i: nat)
    requires Sorted(s) && i < |s|
    ensures s[i].key in ToMap(s) && ToMap(s)[s[i].key] == s[i].val
  {
    assert s == s[..i] + [s[i]] + s[i + 1..];
    ToMapMiddle(s[..i], s[i], s[i + 1..]);
  }
}
