/**
  The AVL tree in place: nodes with child links and stored balances, rewritten by rotations.
  The nodes of a subtree are described by a ghost value, its shape, that names the node object
  at every position.
 */
module Avl {
  import opened Bits
  import opened AvlSpec

  class AvlNode {
    var data: Data
    var balance: int
    var left: AvlNode?
    var right: AvlNode?

    constructor (d: Data)
      ensures data == d && balance == 0 && left == null && right == null
    {
      data, balance, left, right := d, 0, null, null;
    }
  }

  datatype Shape = Nil | Bin(node: AvlNode, l: Shape, r: Shape)

  ghost function Root(s: Shape): AvlNode? { if s.Nil? then null else s.node }

  ghost function Nodes(s: Shape): set<AvlNode> { if s.Nil? then {} else {s.node} + Nodes(s.l) + Nodes(s.r) }

  /** No node object occurs twice. */
  ghost predicate Apart(s: Shape) {
    s.Bin? ==>
      && s.node !in Nodes(s.l) && s.node !in Nodes(s.r) && Nodes(s.l) !! Nodes(s.r)
      && Apart(s.l) && Apart(s.r)
  }

  /** The child links of the nodes follow the shape. */
  ghost predicate Linked(s: Shape)
    reads Nodes(s)
  {
    s.Bin? ==> s.node.left == Root(s.l) && s.node.right == Root(s.r) && Linked(s.l) && Linked(s.r)
  }

  /** The tree that the nodes stand for. */
  ghost function Abs(s: Shape): Tree
    reads Nodes(s)
  {
    if s.Nil? then Leaf else Node(Abs(s.l), s.node.data, s.node.balance, Abs(s.r))
  }

  /** The shape s is laid out in the heap and stands for t. */
  ghost predicate Holds(s: Shape, t: Tree)
    reads Nodes(s)
  {
    Apart(s) && Linked(s) && Abs(s) == t
  }

  lemma {:induction false} NodesAllocated(s: Shape)
    ensures forall o :: o in Nodes(s) ==> allocated(o)
  {
    if s.Nil? {
    } else {
      NodesAllocated(s.l);
      NodesAllocated(s.r);
    }
  }

  lemma Opened(s: Shape, t: Tree)
    requires s.Bin? && Holds(s, t)
    ensures t.Node? && t.data == s.node.data && t.balance == s.node.balance
    ensures s.node.left == Root(s.l) && s.node.right == Root(s.r) && Holds(s.l, t.left) && Holds(s.r, t.right)
    ensures s.node !in Nodes(s.l) && s.node !in Nodes(s.r) && Nodes(s.l) !! Nodes(s.r)
    ensures Nodes(s) == {s.node} + Nodes(s.l) + Nodes(s.r)
    ensures (s.l.Bin? ==> s.l.node in Nodes(s.l)) && (s.r.Bin? ==> s.r.node in Nodes(s.r))
    ensures (t.left.Leaf? <==> s.l.Nil?) && (t.right.Leaf? <==> s.r.Nil?)
  {
  }

  lemma Closed(n: AvlNode, l: Shape, r: Shape, tl: Tree, tr: Tree)
    requires Holds(l, tl) && Holds(r, tr) && n.left == Root(l) && n.right == Root(r)
    requires n !in Nodes(l) && n !in Nodes(r) && Nodes(l) !! Nodes(r)
    ensures Holds(Bin(n, l, r), Node(tl, n.data, n.balance, tr))
    ensures Nodes(Bin(n, l, r)) == {n} + Nodes(l) + Nodes(r)
  {
  }

  // ---------------------------------------------------------------- rotations

  method RotateLeftAt(n: AvlNode, ghost s: Shape, ghost t: Tree) returns (r: AvlNode, ghost s': Shape)
    requires s.Bin? && s.r.Bin? && Root(s) == n && Holds(s, t)
    modifies n, s.r.node
    ensures s' == Bin(s.r.node, Bin(n, s.l, s.r.l), s.r.r) && Root(s') == r
    ensures t.Node? && t.right.Node? && Holds(s', RotateLeft(t)) && Nodes(s') == Nodes(s)
  {
    Opened(s, t);
    Opened(s.r, t.right);
    r := n.right;
    n.right := r.left;
    r.left := n;
    Closed(n, s.l, s.r.l, t.left, t.right.left);
    Closed(r, Bin(n, s.l, s.r.l), s.r.r, RotateLeft(t).left, t.right.right);
    s' := Bin(r, Bin(n, s.l, s.r.l), s.r.r);
  }

  method RotateRightAt(n: AvlNode, ghost s: Shape, ghost t: Tree) returns (r: AvlNode, ghost s': Shape)
    requires s.Bin? && s.l.Bin? && Root(s) == n && Holds(s, t)
    modifies n, s.l.node
    ensures s' == Bin(s.l.node, s.l.l, Bin(n, s.l.r, s.r)) && Root(s') == r
    ensures t.Node? && t.left.Node? && Holds(s', RotateRight(t)) && Nodes(s') == Nodes(s)
  {
    Opened(s, t);
    Opened(s.l, t.left);
    r := n.left;
    n.left := r.right;
    r.right := n;
    Closed(n, s.l.r, s.r, t.left.right, t.right);
    Closed(r, s.l.l, Bin(n, s.l.r, s.r), t.left.left, RotateRight(t).right);
    s' := Bin(r, s.l.l, Bin(n, s.l.r, s.r));
  }

  method SetBalance(n: AvlNode, b: int, ghost s: Shape, ghost t: Tree)
    requires s.Bin? && Root(s) == n && Holds(s, t)
    modifies n`balance
    ensures t.Node? && Holds(s, t.(balance := b))
  {
    Opened(s, t);
    n.balance := b;
    Closed(n, s.l, s.r, t.left, t.right);
  }

  method SetChildBalances(n: AvlNode, bl: int, br: int, ghost s: Shape, ghost t: Tree)
    requires s.Bin? && s.l.Bin? && s.r.Bin? && Root(s) == n && Holds(s, t)
    modifies s.l.node`balance, s.r.node`balance
    ensures t.Node? && t.left.Node? && t.right.Node?
    ensures Holds(s, t.(left := t.left.(balance := bl), right := t.right.(balance := br)))
  {
    Opened(s, t);
    NodesAllocated(s);
    SetBalance(n.left, bl, s.l, t.left);
    SetBalance(n.right, br, s.r, t.right);
    Closed(n, s.l, s.r, t.left.(balance := bl), t.right.(balance := br));
  }

  method AdjustBalanceAt(n: AvlNode, ghost s: Shape, ghost t: Tree)
    requires s.Bin? && s.l.Bin? && s.r.Bin? && Root(s) == n && Holds(s, t)
    modifies n`balance, s.l.node`balance, s.r.node`balance
    ensures t.Node? && t.left.Node? && t.right.Node? && Holds(s, AdjustBalance(t))
  {
    Opened(s, t);
    ghost var t1 := t;
    if n.balance == -1 {
      SetChildBalances(n, 0, 1, s, t);
      t1 := t.(left := t.left.(balance := 0), right := t.right.(balance := 1));
    } else if n.balance == 0 {
      SetChildBalances(n, 0, 0, s, t);
      t1 := t.(left := t.left.(balance := 0), right := t.right.(balance := 0));
    } else if n.balance == 1 {
      SetChildBalances(n, -1, 0, s, t);
      t1 := t.(left := t.left.(balance := -1), right := t.right.(balance := 0));
    }
    SetBalance(n, 0, s, t1);
  }

  method SetLeftBalance(n: AvlNode, b: int, ghost s: Shape, ghost t: Tree)
    requires s.Bin? && s.l.Bin? && Root(s) == n && Holds(s, t)
    modifies s.l.node`balance
    ensures t.Node? && t.left.Node? && Holds(s, t.(left := t.left.(balance := b)))
  {
    Opened(s, t);
    NodesAllocated(s);
    SetBalance(n.left, b, s.l, t.left);
    Closed(n, s.l, s.r, t.left.(balance := b), t.right);
  }

  method SetRightBalance(n: AvlNode, b: int, ghost s: Shape, ghost t: Tree)
    requires s.Bin? && s.r.Bin? && Root(s) == n && Holds(s, t)
    modifies s.r.node`balance
    ensures t.Node? && t.right.Node? && Holds(s, t.(right := t.right.(balance := b)))
  {
    Opened(s, t);
    NodesAllocated(s);
    SetBalance(n.right, b, s.r, t.right);
    Closed(n, s.l, s.r, t.left, t.right.(balance := b));
  }

  // ---------------------------------------------------------------- rebalancing

  method SingleRight(n: AvlNode, ghost s: Shape, ghost t: Tree) returns (r: AvlNode, ghost s': Shape)
    requires s.Bin? && Root(s) == n && Holds(s, t) && CanFixLeft(t) && t.left.balance < 0
    modifies Nodes(s)
    ensures Holds(s', FixLeft(t)) && Root(s') == r && Nodes(s') == Nodes(s)
  {
    Opened(s, t);
    r, s' := RotateRightAt(n, s, t);
    SetBalance(r, 0, s', RotateRight(t));
    SetRightBalance(r, 0, s', RotateRight(t).(balance := 0));
  }

  method SingleLeft(n: AvlNode, ghost s: Shape, ghost t: Tree) returns (r: AvlNode, ghost s': Shape)
    requires s.Bin? && Root(s) == n && Holds(s, t) && CanFixRight(t) && t.right.balance > 0
    modifies Nodes(s)
    ensures Holds(s', FixRight(t)) && Root(s') == r && Nodes(s') == Nodes(s)
  {
    Opened(s, t);
    r, s' := RotateLeftAt(n, s, t);
    SetBalance(r, 0, s', RotateLeft(t));
    SetLeftBalance(r, 0, s', RotateLeft(t).(balance := 0));
  }

  method DoubleRight(n: AvlNode, ghost s: Shape, ghost t: Tree) returns (r: AvlNode, ghost s': Shape)
    requires s.Bin? && Root(s) == n && Holds(s, t) && CanFixLeft(t) && t.left.balance >= 0
    modifies Nodes(s)
    ensures Holds(s', FixLeft(t)) && Root(s') == r && Nodes(s') == Nodes(s)
  {
    Opened(s, t);
    Opened(s.l, t.left);
    NodesAllocated(s);
    ghost var ls;
    var c;
    c, ls := RotateLeftAt(n.left, s.l, t.left);
    n.left := c;
    Closed(n, ls, s.r, RotateLeft(t.left), t.right);
    ghost var t1 := t.(left := RotateLeft(t.left));
    r, s' := RotateRightAt(n, Bin(n, ls, s.r), t1);
    AdjustBalanceAt(r, s', RotateRight(t1));
  }

  method DoubleLeft(n: AvlNode, ghost s: Shape, ghost t: Tree) returns (r: AvlNode, ghost s': Shape)
    requires s.Bin? && Root(s) == n && Holds(s, t) && CanFixRight(t) && t.right.balance <= 0
    modifies Nodes(s)
    ensures Holds(s', FixRight(t)) && Root(s') == r && Nodes(s') == Nodes(s)
  {
    Opened(s, t);
    Opened(s.r, t.right);
    NodesAllocated(s);
    ghost var rs;
    var c;
    c, rs := RotateRightAt(n.right, s.r, t.right);
    n.right := c;
    Closed(n, s.l, rs, t.left, RotateRight(t.right));
    ghost var t1 := t.(right := RotateRight(t.right));
    r, s' := RotateLeftAt(n, Bin(n, s.l, rs), t1);
    AdjustBalanceAt(r, s', RotateLeft(t1));
  }

  /** The end of avl_insert_intern: rotations if the node is out of balance. */
  method RebalanceAt(n: AvlNode, grew: bool, ghost s: Shape, ghost t: Tree)
      returns (r: AvlNode, insert: bool, ghost s': Shape)
    requires s.Bin? && Root(s) == n && Holds(s, t)
    requires grew && t.balance < -1 ==> CanFixLeft(t)
    requires grew && t.balance > 1 ==> CanFixRight(t)
    modifies Nodes(s)
    ensures t.Node? && Rebalance(t, grew) == Done(Rebalance(t, grew).tree, insert)
    ensures Holds(s', Rebalance(t, grew).tree) && Root(s') == r && Nodes(s') == Nodes(s)
  {
    Opened(s, t);
    r, s', insert := n, s, false;
    if grew && n.balance != 0 {
      if n.balance < -1 {
        Opened(s.l, t.left);
        if n.left.balance < 0 {
          r, s' := SingleRight(n, s, t);
        } else {
          r, s' := DoubleRight(n, s, t);
        }
      } else if n.balance > 1 {
        Opened(s.r, t.right);
        if n.right.balance > 0 {
          r, s' := SingleLeft(n, s, t);
        } else {
          r, s' := DoubleLeft(n, s, t);
        }
      } else {
        insert := true;
      }
    }
  }

  // ---------------------------------------------------------------- insertion

  /** A rotation never meets a missing node. */
  lemma LeftFixable(cmp: Comparator, t: Tree, d: Data)
    requires t.Node? && Balanced(t) && Insert(cmp, t.left, d).Done?
    ensures var r := Insert(cmp, t.left, d);
            var t' := t.(left := r.tree, balance := t.balance - (if r.grew then 1 else 0));
            r.grew ==> t'.balance <= 1 && (t'.balance < -1 ==> CanFixLeft(t'))
  {
    var r, h := Insert(cmp, t.left, d), Height(t);
    FitsExactly(t, h);
    InsertFits(cmp, t.left, d, LeftHeight(t.balance, h));
    if r.grew && t.balance == -1 { FixLeftOk(t.(left := r.tree, balance := -2), h); }
  }

  lemma RightFixable(cmp: Comparator, t: Tree, d: Data)
    requires t.Node? && Balanced(t) && Insert(cmp, t.right, d).Done?
    ensures var r := Insert(cmp, t.right, d);
            var t' := t.(right := r.tree, balance := t.balance + (if r.grew then 1 else 0));
            r.grew ==> t'.balance >= -1 && (t'.balance > 1 ==> CanFixRight(t'))
  {
    var r, h := Insert(cmp, t.right, d), Height(t);
    FitsExactly(t, h);
    InsertFits(cmp, t.right, d, RightHeight(t.balance, h));
    if r.grew && t.balance == 1 { FixRightOk(t.(right := r.tree, balance := 2), h); }
  }

  /** The nodes of s' are those of s and new ones. */
  twostate predicate Extends(s: Shape, new s': Shape) {
    forall o :: o in Nodes(s') ==> o in Nodes(s) || fresh(o)
  }

  /** A new node for d, or the insertion into an existing child. */
  method InsertChild(cmp: Comparator, c: AvlNode?, d: Data, ghost s: Shape, ghost t: Tree)
      returns (r: AvlNode?, grew: bool, aborted: bool, ghost s': Shape)
    requires Root(s) == c && Holds(s, t) && Balanced(t)
    modifies Nodes(s)
    ensures aborted <==> Insert(cmp, t, d).Aborted?
    ensures aborted ==> r == c && s' == s && Holds(s, t)
    ensures !aborted ==>
              && Insert(cmp, t, d) == Done(Insert(cmp, t, d).tree, grew)
              && Holds(s', Insert(cmp, t, d).tree) && Root(s') == r && Extends(s, s')
    decreases s, 3
  {
    if c != null {
      r, grew, aborted, s' := InsertAt(cmp, c, d, s, t);
    } else {
      var fresher := new AvlNode(d);
      r, grew, aborted, s' := fresher, true, false, Bin(fresher, Nil, Nil);
      Closed(fresher, Nil, Nil, Leaf, Leaf);
    }
  }

  method DescendLeft(cmp: Comparator, n: AvlNode, d: Data, ghost s: Shape, ghost t: Tree)
      returns (balance: bool, aborted: bool, ghost s': Shape, ghost t': Tree)
    requires s.Bin? && Root(s) == n && Holds(s, t) && Balanced(t)
    modifies Nodes(s)
    ensures t.Node? && (aborted <==> Insert(cmp, t.left, d).Aborted?)
    ensures aborted ==> Holds(s, t)
    ensures !aborted ==>
              && Insert(cmp, t.left, d) == Done(Insert(cmp, t.left, d).tree, balance)
              && t' == t.(left := Insert(cmp, t.left, d).tree, balance := t.balance - (if balance then 1 else 0))
              && Holds(s', t') && s'.Bin? && Root(s') == n && Extends(s, s')
    decreases s, 1
  {
    Opened(s, t);
    NodesAllocated(s);
    s', t' := s, t;
    var c;
    ghost var ls;
    c, balance, aborted, ls := InsertChild(cmp, n.left, d, s.l, t.left);
    if aborted {
      Closed(n, s.l, s.r, t.left, t.right);
    } else {
      n.left := c;
      n.balance := n.balance - (if balance then 1 else 0);
      Closed(n, ls, s.r, Insert(cmp, t.left, d).tree, t.right);
      s' := Bin(n, ls, s.r);
      t' := t.(left := Insert(cmp, t.left, d).tree, balance := t.balance - (if balance then 1 else 0));
    }
  }

  method DescendRight(cmp: Comparator, n: AvlNode, d: Data, ghost s: Shape, ghost t: Tree)
      returns (balance: bool, aborted: bool, ghost s': Shape, ghost t': Tree)
    requires s.Bin? && Root(s) == n && Holds(s, t) && Balanced(t)
    modifies Nodes(s)
    ensures t.Node? && (aborted <==> Insert(cmp, t.right, d).Aborted?)
    ensures aborted ==> Holds(s, t)
    ensures !aborted ==>
              && Insert(cmp, t.right, d) == Done(Insert(cmp, t.right, d).tree, balance)
              && t' == t.(right := Insert(cmp, t.right, d).tree, balance := t.balance + (if balance then 1 else 0))
              && Holds(s', t') && s'.Bin? && Root(s') == n && Extends(s, s')
    decreases s, 1
  {
    Opened(s, t);
    NodesAllocated(s);
    s', t' := s, t;
    var c;
    ghost var rs;
    c, balance, aborted, rs := InsertChild(cmp, n.right, d, s.r, t.right);
    if aborted {
      Closed(n, s.l, s.r, t.left, t.right);
    } else {
      n.right := c;
      n.balance := n.balance + (if balance then 1 else 0);
      Closed(n, s.l, rs, t.left, Insert(cmp, t.right, d).tree);
      s' := Bin(n, s.l, rs);
      t' := t.(right := Insert(cmp, t.right, d).tree, balance := t.balance + (if balance then 1 else 0));
    }
  }

  /** avl_insert_intern: it aborts, without a change, if there is an equal element. */
  method InsertAt(cmp: Comparator, n: AvlNode, d: Data, ghost s: Shape, ghost t: Tree)
      returns (r: AvlNode, insert: bool, aborted: bool, ghost s': Shape)
    requires s.Bin? && Root(s) == n && Holds(s, t) && Balanced(t)
    modifies Nodes(s)
    ensures aborted <==> Insert(cmp, t, d).Aborted?
    ensures aborted ==> r == n && s' == s && Holds(s, t)
    ensures !aborted ==>
              && Insert(cmp, t, d) == Done(Insert(cmp, t, d).tree, insert)
              && Holds(s', Insert(cmp, t, d).tree) && Root(s') == r && Extends(s, s')
    decreases s, 2
  {
    Opened(s, t);
    r, insert, aborted, s' := n, false, true, s;
    var res := Compare(cmp, n.data, d);
    if res == 0 { return; }
    var balance;
    ghost var s1, t1;
    if res < 0 {
      balance, aborted, s1, t1 := DescendLeft(cmp, n, d, s, t);
      if aborted { return; }
      LeftFixable(cmp, t, d);
    } else {
      balance, aborted, s1, t1 := DescendRight(cmp, n, d, s, t);
      if aborted { return; }
      RightFixable(cmp, t, d);
    }
    r, insert, s' := RebalanceAt(n, balance, s1, t1);
  }

  // ---------------------------------------------------------------- the tree

  class AvlTree {
    const comparator: Comparator
    var root: AvlNode?
    var entries: int
    ghost var shape: Shape

    /** The elements that have been inserted. */
    ghost function Contents(): set<Data>
      reads this, Nodes(shape)
    {
      Elements(Abs(shape))
    }

    ghost predicate Valid()
      reads this, Nodes(shape)
    {
      root == Root(shape) && Apart(shape) && Linked(shape) && SearchTree(comparator, Abs(shape), entries)
    }

    constructor (cmp: Comparator)
      requires TotalPreorder(cmp)
      ensures Valid() && comparator == cmp && Contents() == {} && entries == 0 && fresh(Nodes(shape))
    {
      comparator := cmp;
      root, entries, shape := null, 0, Nil;
    }

    /** avl_insert: an element is added unless there is an equal one; then the virtual machine is aborted. */
    method Add(d: Data) returns (aborted: bool)
      requires Valid()
      modifies this, Nodes(shape)
      ensures Valid() && forall o :: o in Nodes(shape) ==> o in old(Nodes(shape)) || fresh(o)
      ensures aborted <==> exists e :: e in old(Contents()) && Compare(comparator, e, d) == 0
      ensures aborted ==> Contents() == old(Contents()) && entries == old(entries)
      ensures !aborted ==> Contents() == old(Contents()) + {d} && entries == old(entries) + 1
    {
      ghost var t := Abs(shape);
      InsertKeeps(comparator, t, d, entries);
      var r, grew;
      ghost var s;
      r, grew, aborted, s := InsertChild(comparator, root, d, shape, t);
      if !aborted {
        root, shape := r, s;
        entries := entries + 1;
      }
    }

    /** avl_find: the loop down the tree; it takes at most 2 * log2(entries + 1) + 1 rounds. */
    method Find(d: Data) returns (found: Found, rounds: nat)
      requires Valid()
      ensures found.Missing? <==> forall e :: e in Contents() ==> Compare(comparator, e, d) != 0
      ensures found.Hit? ==> found.data in Contents() && Compare(comparator, found.data, d) == 0
      ensures rounds <= Height(Abs(shape)) && Pow2(Height(Abs(shape)) / 2) <= entries + 1
    {
      NodesAllocated(shape);
      LookupExact(comparator, Abs(shape), d);
      LogarithmicHeight(Abs(shape));
      found, rounds := SearchFrom(comparator, root, d, shape, Abs(shape));
    }
  }

  method SearchFrom(cmp: Comparator, start: AvlNode?, d: Data, ghost shape: Shape, ghost tree: Tree)
      returns (found: Found, rounds: nat)
    requires Root(shape) == start && Holds(shape, tree)
    ensures found == Lookup(cmp, tree, d) && rounds <= Height(tree)
  {
    NodesAllocated(shape);
    var node := start;
    ghost var s, t := shape, tree;
    rounds := 0;
    while node != null
      invariant node == Root(s) && Holds(s, t) && Lookup(cmp, t, d) == Lookup(cmp, tree, d)
      invariant rounds + Height(t) <= Height(tree)
      decreases s
    {
      Opened(s, t);
      rounds := rounds + 1;
      var res := Compare(cmp, node.data, d);
      if res == 0 { return Hit(node.data), rounds; }
      if res < 0 {
        node, s, t := node.left, s.l, t.left;
      } else {
        node, s, t := node.right, s.r, t.right;
      }
    }
    found := Missing;
  }
}
