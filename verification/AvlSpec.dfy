/**
  AVL trees as values: insertion with rotations on stored balance factors, and what it keeps, for
  every comparator that is a total preorder.
 */
module AvlSpec {
  import opened Bits

  /** The address of an element. */
  type Data = int

  type Comparator = (Data, Data) -> int

  datatype Tree = Leaf | Node(left: Tree, data: Data, balance: int, right: Tree)

  /** What avl_insert_intern does with an element: it aborts if there is an equal one. */
  datatype Inserted = Aborted | Done(tree: Tree, grew: bool)

  /** The comparator applied to the element of a node and a given one: negative means to the left. */
  function Compare(cmp: Comparator, node: Data, data: Data): int { cmp(node, data) }

  ghost predicate Opposite(cmp: Comparator, a: Data, b: Data) { Compare(cmp, a, b) < 0 <==> Compare(cmp, b, a) > 0 }

  ghost predicate Transitive(cmp: Comparator, a: Data, b: Data, c: Data) {
    Compare(cmp, a, b) <= 0 && Compare(cmp, b, c) <= 0 ==> Compare(cmp, a, c) <= 0
  }

  /** What the comparator has to be; elements that compare equal need not be the same. */
  ghost predicate TotalPreorder(cmp: Comparator) {
    && (forall a, b :: Opposite(cmp, a, b))
    && (forall a, b, c :: Transitive(cmp, a, b, c))
  }

  /** Both ways round: a strict step on either side makes the whole strict. */
  lemma Chain(cmp: Comparator, a: Data, b: Data, c: Data)
    requires TotalPreorder(cmp)
    ensures Compare(cmp, a, b) > 0 && Compare(cmp, b, c) >= 0 ==> Compare(cmp, a, c) > 0
    ensures Compare(cmp, a, b) < 0 && Compare(cmp, b, c) <= 0 ==> Compare(cmp, a, c) < 0
    ensures Compare(cmp, a, b) < 0 <==> Compare(cmp, b, a) > 0
    ensures Compare(cmp, a, b) == 0 <==> Compare(cmp, b, a) == 0
  {
    assert Opposite(cmp, a, b) && Opposite(cmp, b, a) && Opposite(cmp, b, c) && Opposite(cmp, c, b);
    assert Opposite(cmp, a, c) && Opposite(cmp, c, a);
    assert Transitive(cmp, a, c, b) && Transitive(cmp, b, c, a);
  }

  // ---------------------------------------------------------------- insertion

  function RotateLeft(t: Tree): Tree
    requires t.Node? && t.right.Node?
  {
    Node(Node(t.left, t.data, t.balance, t.right.left), t.right.data, t.right.balance, t.right.right)
  }

  function RotateRight(t: Tree): Tree
    requires t.Node? && t.left.Node?
  {
    Node(t.left.left, t.left.data, t.left.balance, Node(t.left.right, t.data, t.balance, t.right))
  }

  /** The balances of the two children after a double rotation follow from that of their new parent. */
  function AdjustBalance(t: Tree): Tree
    requires t.Node? && t.left.Node? && t.right.Node?
  {
    if t.balance == -1 then
      t.(left := t.left.(balance := 0), right := t.right.(balance := 1), balance := 0)
    else if t.balance == 0 then
      t.(left := t.left.(balance := 0), right := t.right.(balance := 0), balance := 0)
    else if t.balance == 1 then
      t.(left := t.left.(balance := -1), right := t.right.(balance := 0), balance := 0)
    else t.(balance := 0)
  }

  /** The nodes that the rotations look at are there. */
  predicate CanFixLeft(t: Tree) { t.Node? && t.left.Node? && (t.left.balance >= 0 ==> t.left.right.Node?) }

  predicate CanFixRight(t: Tree) { t.Node? && t.right.Node? && (t.right.balance <= 0 ==> t.right.left.Node?) }

  /** The left subtree is too tall. */
  function FixLeft(t: Tree): Tree
    requires CanFixLeft(t)
  {
    if t.left.balance < 0 then
      var r := RotateRight(t);
      r.(balance := 0, right := r.right.(balance := 0))
    else AdjustBalance(RotateRight(t.(left := RotateLeft(t.left))))
  }

  /** The right subtree is too tall. */
  function FixRight(t: Tree): Tree
    requires CanFixRight(t)
  {
    if t.right.balance > 0 then
      var r := RotateLeft(t);
      r.(balance := 0, left := r.left.(balance := 0))
    else AdjustBalance(RotateLeft(t.(right := RotateRight(t.right))))
  }

  /** What is left to do at a node after the insertion into a child, which grew or not. */
  function Rebalance(t: Tree, grew: bool): Inserted
    requires t.Node?
  {
    if !grew || t.balance == 0 then Done(t, false)
    else if t.balance < -1 && CanFixLeft(t) then Done(FixLeft(t), false)
    else if t.balance > 1 && CanFixRight(t) then Done(FixRight(t), false)
    else Done(t, true)
  }

  function Insert(cmp: Comparator, t: Tree, d: Data): Inserted {
    if t.Leaf? then Done(Node(Leaf, d, 0, Leaf), true)
    else if Compare(cmp, t.data, d) == 0 then Aborted
    else if Compare(cmp, t.data, d) < 0 then
      match Insert(cmp, t.left, d)
      case Aborted => Aborted
      case Done(l, grew) => Rebalance(t.(left := l, balance := t.balance - (if grew then 1 else 0)), grew)
    else
      match Insert(cmp, t.right, d)
      case Aborted => Aborted
      case Done(r, grew) => Rebalance(t.(right := r, balance := t.balance + (if grew then 1 else 0)), grew)
  }

  // ---------------------------------------------------------------- invariants

  ghost function Max(a: int, b: int): (m: int)
    ensures m >= a && m >= b
  {
    if a > b then a else b
  }

  ghost function Height(t: Tree): nat {
    if t.Leaf? then 0 else 1 + Max(Height(t.left), Height(t.right))
  }

  ghost function Elements(t: Tree): set<Data> {
    if t.Leaf? then {} else Elements(t.left) + {t.data} + Elements(t.right)
  }

  ghost function Size(t: Tree): nat { if t.Leaf? then 0 else Size(t.left) + 1 + Size(t.right) }

  /** Every stored balance is the height of the right subtree minus that of the left one, and is -1, 0 or 1. */
  ghost predicate Balanced(t: Tree) {
    t.Node? ==>
      && t.balance == Height(t.right) - Height(t.left) && -1 <= t.balance <= 1
      && Balanced(t.left) && Balanced(t.right)
  }

  ghost predicate Below(cmp: Comparator, s: set<Data>, d: Data) { forall e :: e in s ==> Compare(cmp, d, e) < 0 }

  ghost predicate Above(cmp: Comparator, s: set<Data>, d: Data) { forall e :: e in s ==> Compare(cmp, d, e) > 0 }

  ghost predicate Ordered(cmp: Comparator, t: Tree) {
    t.Node? ==>
      && Below(cmp, Elements(t.left), t.data) && Above(cmp, Elements(t.right), t.data)
      && Ordered(cmp, t.left) && Ordered(cmp, t.right)
  }

  /** A tree that has just grown is not balanced at its root, unless it is a single node. */
  ghost predicate JustGrown(t: Tree) { t.Node? && (t.balance == 0 ==> t.left.Leaf? && t.right.Leaf?) }

  // ---------------------------------------------------------------- balance

  /** The heights that the children of a node of height h have, going by its balance. */
  ghost function LeftHeight(balance: int, h: int): int { if balance == 1 then h - 2 else h - 1 }

  ghost function RightHeight(balance: int, h: int): int { if balance == -1 then h - 2 else h - 1 }

  /** The stored balances are in range and consistent with height h. */
  ghost predicate Fits(t: Tree, h: int) {
    if t.Leaf? then h == 0 else
      -1 <= t.balance <= 1 && Fits(t.left, LeftHeight(t.balance, h)) && Fits(t.right, RightHeight(t.balance, h))
  }

  /** They are consistent exactly if each of them is the difference of the heights. */
  lemma {:induction false} FitsExactly(t: Tree, h: int)
    ensures Fits(t, h) <==> Balanced(t) && Height(t) == h
  {
    if t.Leaf? {
    } else {
      FitsExactly(t.left, LeftHeight(t.balance, h));
      FitsExactly(t.right, RightHeight(t.balance, h));
    }
  }

  lemma {:induction false} FitsNonNegative(t: Tree, h: int)
    requires Fits(t, h)
    ensures h >= 0 && (t.Node? ==> h >= 1)
  {
    if t.Leaf? {
    } else {
      FitsNonNegative(t.left, LeftHeight(t.balance, h));
      FitsNonNegative(t.right, RightHeight(t.balance, h));
    }
  }

  /** A left subtree two levels too tall, which has just grown: the rotations restore balance and height. */
  lemma {:induction false} FixLeftOk(t: Tree, h: int)
    requires t.Node? && Fits(t.left, h) && JustGrown(t.left) && Fits(t.right, h - 2)
    ensures CanFixLeft(t) && Fits(FixLeft(t), h)
  {
    var l := t.left;
    FitsNonNegative(t.right, h - 2);
    if l.balance < 0 {
      assert Fits(Node(l.right, t.data, 0, t.right), h - 1);
    } else {
      FitsNonNegative(l.right, RightHeight(l.balance, h));
      DoubleOk(l.left, l.data, l.right, t.data, t.right, h);
    }
  }

  lemma {:induction false} FixRightOk(t: Tree, h: int)
    requires t.Node? && Fits(t.right, h) && JustGrown(t.right) && Fits(t.left, h - 2)
    ensures CanFixRight(t) && Fits(FixRight(t), h)
  {
    var r := t.right;
    FitsNonNegative(t.left, h - 2);
    if r.balance > 0 {
      assert Fits(Node(t.left, t.data, 0, r.left), h - 1);
    } else {
      FitsNonNegative(r.left, LeftHeight(r.balance, h));
      DoubleOk(t.left, t.data, r.left, r.data, r.right, h);
    }
  }

  /** A double rotation shares out the subtrees of the middle node m, with the balances that AdjustBalance sets. */
  lemma {:induction false} DoubleOk(a: Tree, x: Data, m: Tree, y: Data, b: Tree, h: int)
    requires m.Node? && Fits(a, h - 2) && Fits(m, h - 1) && Fits(b, h - 2)
    ensures Fits(Node(a, x, if m.balance == 1 then -1 else 0, m.left), h - 1)
    ensures Fits(Node(m.right, y, if m.balance == -1 then 1 else 0, b), h - 1)
  {
  }

  /** The result of an insertion into a tree of height h is balanced, and its height tells whether it grew. */
  ghost predicate FitsResult(r: Inserted, h: int) {
    r.Done? ==> Fits(r.tree, h + if r.grew then 1 else 0) && (r.grew ==> JustGrown(r.tree))
  }

  lemma {:induction false} RebalanceLeftOk(t: Tree, l: Tree, grew: bool, h: int)
    requires t.Node? && Fits(t, h) && FitsResult(Done(l, grew), LeftHeight(t.balance, h))
    ensures FitsResult(Rebalance(Node(l, t.data, t.balance - (if grew then 1 else 0), t.right), grew), h)
  {
    var t' := Node(l, t.data, t.balance - (if grew then 1 else 0), t.right);
    if t'.balance == -2 {
      FixLeftOk(t', h);
      assert Rebalance(t', grew) == Done(FixLeft(t'), false);
    } else {
      NoRotation(t', grew, h);
    }
  }

  /** Nothing has to be rotated. */
  lemma {:induction false} NoRotation(t: Tree, grew: bool, h: int)
    requires t.Node? && -1 <= t.balance <= 1 && Fits(t, h + if grew && t.balance != 0 then 1 else 0)
    ensures FitsResult(Rebalance(t, grew), h)
  {
    assert Rebalance(t, grew) == Done(t, grew && t.balance != 0);
  }

  lemma {:induction false} RebalanceRightOk(t: Tree, r: Tree, grew: bool, h: int)
    requires t.Node? && Fits(t, h) && FitsResult(Done(r, grew), RightHeight(t.balance, h))
    ensures FitsResult(Rebalance(Node(t.left, t.data, t.balance + (if grew then 1 else 0), r), grew), h)
  {
    var t' := Node(t.left, t.data, t.balance + (if grew then 1 else 0), r);
    if t'.balance == 2 {
      FixRightOk(t', h);
      assert Rebalance(t', grew) == Done(FixRight(t'), false);
    } else {
      NoRotation(t', grew, h);
    }
  }

  lemma {:induction false} InsertFits(cmp: Comparator, t: Tree, d: Data, h: int)
    requires Fits(t, h)
    ensures FitsResult(Insert(cmp, t, d), h)
  {
    if t.Leaf? {
    } else if Compare(cmp, t.data, d) < 0 {
      InsertFits(cmp, t.left, d, LeftHeight(t.balance, h));
      var r := Insert(cmp, t.left, d);
      if r.Done? { RebalanceLeftOk(t, r.tree, r.grew, h); }
    } else if Compare(cmp, t.data, d) > 0 {
      InsertFits(cmp, t.right, d, RightHeight(t.balance, h));
      var r := Insert(cmp, t.right, d);
      if r.Done? { RebalanceRightOk(t, r.tree, r.grew, h); }
    }
  }

  /** Insertion keeps the tree balanced, and reports growth exactly if the height has increased. */
  lemma {:induction false} InsertBalanced(cmp: Comparator, t: Tree, d: Data)
    requires Balanced(t)
    ensures var r := Insert(cmp, t, d);
            r.Done? ==> Balanced(r.tree) && Height(r.tree) == Height(t) + (if r.grew then 1 else 0)
  {
    FitsExactly(t, Height(t));
    InsertFits(cmp, t, d, Height(t));
    var r := Insert(cmp, t, d);
    if r.Done? { FitsExactly(r.tree, Height(t) + if r.grew then 1 else 0); }
  }

  // ---------------------------------------------------------------- order and elements

  /** Same elements, same number of nodes, still in order. */
  ghost predicate Rearranged(cmp: Comparator, t: Tree, t': Tree) {
    Elements(t') == Elements(t) && Size(t') == Size(t) && (Ordered(cmp, t) ==> Ordered(cmp, t'))
  }

  /** The order of two nodes, whichever of them is the upper one. */
  lemma {:induction false} PairKeeps(cmp: Comparator, a: Tree, x: Data, b: Tree, y: Data, c: Tree,
                                     u: int, v: int, u': int, v': int)
    requires TotalPreorder(cmp)
    ensures Rearranged(cmp, Node(Node(a, x, u, b), y, v, c), Node(a, x, u', Node(b, y, v', c)))
    ensures Ordered(cmp, Node(a, x, u', Node(b, y, v', c))) ==> Ordered(cmp, Node(Node(a, x, u, b), y, v, c))
  {
    var l, r := Node(a, x, u, b), Node(b, y, v', c);
    assert Elements(l) == Elements(a) + {x} + Elements(b) && Elements(r) == Elements(b) + {y} + Elements(c);
    assert Size(l) == Size(a) + 1 + Size(b) && Size(r) == Size(b) + 1 + Size(c);
    PairOrder(cmp, Elements(a), x, Elements(b), y, Elements(c));
    assert Ordered(cmp, l) <==>
           Below(cmp, Elements(a), x) && Above(cmp, Elements(b), x) && Ordered(cmp, a) && Ordered(cmp, b);
    assert Ordered(cmp, r) <==>
           Below(cmp, Elements(b), y) && Above(cmp, Elements(c), y) && Ordered(cmp, b) && Ordered(cmp, c);
  }

  /** Three sets of elements, separated by x and y. */
  lemma PairOrder(cmp: Comparator, a: set<Data>, x: Data, b: set<Data>, y: Data, c: set<Data>)
    requires TotalPreorder(cmp)
    ensures Below(cmp, a, x) && Above(cmp, b, x) && Below(cmp, a + {x} + b, y) && Above(cmp, c, y) <==>
            Below(cmp, a, x) && Above(cmp, b + {y} + c, x) && Below(cmp, b, y) && Above(cmp, c, y)
  {
    assert x in a + {x} + b && y in b + {y} + c;
    Chain(cmp, x, y, x);
    Chain(cmp, y, x, y);
    forall e | e in c ensures Compare(cmp, x, y) > 0 && Compare(cmp, y, e) > 0 ==> Compare(cmp, x, e) > 0 {
      Chain(cmp, x, y, e);
    }
    forall e | e in a ensures Compare(cmp, y, x) < 0 && Compare(cmp, x, e) < 0 ==> Compare(cmp, y, e) < 0 {
      Chain(cmp, y, x, e);
    }
  }

  /** Replacing a child by a rearrangement of it. */
  lemma {:induction false} ChildrenKeep(cmp: Comparator, l: Tree, l': Tree, d: Data, u: int, u': int, r: Tree, r': Tree)
    requires Rearranged(cmp, l, l') && Rearranged(cmp, r, r')
    ensures Rearranged(cmp, Node(l, d, u, r), Node(l', d, u', r'))
  {
  }

  lemma {:induction false} DoubleKeeps(cmp: Comparator, a: Tree, x: Data, u: int, m: Tree, y: Data, v: int, b: Tree,
                                       u': int, v': int)
    requires m.Node? && TotalPreorder(cmp)
    ensures Rearranged(cmp, Node(Node(a, x, u, m), y, v, b),
                       Node(Node(a, x, u', m.left), m.data, 0, Node(m.right, y, v', b)))
  {
    var l, l' := Node(a, x, u, m), Node(Node(a, x, u', m.left), m.data, 0, m.right);
    PairKeeps(cmp, a, x, m.left, m.data, m.right, u', 0, u, m.balance);
    ChildrenKeep(cmp, l, l', y, v, 0, b, b);
    PairKeeps(cmp, Node(a, x, u', m.left), m.data, m.right, y, b, 0, 0, 0, v');
  }

  lemma {:induction false} DoubleKeepsToo(cmp: Comparator, a: Tree, x: Data, u: int, m: Tree, y: Data, v: int, b: Tree,
                                          u': int, v': int)
    requires m.Node? && TotalPreorder(cmp)
    ensures Rearranged(cmp, Node(a, x, u, Node(m, y, v, b)),
                       Node(Node(a, x, u', m.left), m.data, 0, Node(m.right, y, v', b)))
  {
    var r, r' := Node(m, y, v, b), Node(m.left, m.data, 0, Node(m.right, y, v', b));
    PairKeeps(cmp, m.left, m.data, m.right, y, b, m.balance, v, 0, v');
    ChildrenKeep(cmp, a, a, x, u, 0, r, r');
    PairKeeps(cmp, a, x, m.left, m.data, Node(m.right, y, v', b), u', 0, 0, 0);
  }

  lemma {:induction false} FixLeftKeeps(cmp: Comparator, t: Tree)
    requires CanFixLeft(t) && TotalPreorder(cmp)
    ensures Rearranged(cmp, t, FixLeft(t))
  {
    var l, f := t.left, FixLeft(t);
    if l.balance < 0 {
      PairKeeps(cmp, l.left, l.data, l.right, t.data, t.right, l.balance, t.balance, 0, 0);
    } else {
      var m := l.right;
      assert f == Node(Node(l.left, l.data, f.left.balance, m.left), m.data, 0,
                       Node(m.right, t.data, f.right.balance, t.right));
      DoubleKeeps(cmp, l.left, l.data, l.balance, m, t.data, t.balance, t.right, f.left.balance, f.right.balance);
    }
  }

  lemma {:induction false} FixRightKeeps(cmp: Comparator, t: Tree)
    requires CanFixRight(t) && TotalPreorder(cmp)
    ensures Rearranged(cmp, t, FixRight(t))
  {
    var r, f := t.right, FixRight(t);
    if r.balance > 0 {
      PairKeeps(cmp, t.left, t.data, r.left, r.data, r.right, 0, 0, t.balance, r.balance);
    } else {
      var m := r.left;
      assert f == Node(Node(t.left, t.data, f.left.balance, m.left), m.data, 0,
                       Node(m.right, r.data, f.right.balance, r.right));
      DoubleKeepsToo(cmp, t.left, t.data, t.balance, m, r.data, r.balance, r.right, f.left.balance, f.right.balance);
    }
  }

  lemma {:induction false} RebalanceKeeps(cmp: Comparator, t: Tree, grew: bool)
    requires t.Node? && TotalPreorder(cmp)
    ensures Rebalance(t, grew).Done? && Rearranged(cmp, t, Rebalance(t, grew).tree)
  {
    if CanFixLeft(t) { FixLeftKeeps(cmp, t); }
    if CanFixRight(t) { FixRightKeeps(cmp, t); }
  }

  /** On the other side of a node there is nothing equal to d. */
  lemma {:induction false} NotBeyond(cmp: Comparator, t: Tree, d: Data)
    requires TotalPreorder(cmp) && t.Node? && Ordered(cmp, t) && Compare(cmp, t.data, d) != 0
    ensures Compare(cmp, t.data, d) < 0 ==> forall e :: e in Elements(t.right) ==> Compare(cmp, e, d) != 0
    ensures Compare(cmp, t.data, d) > 0 ==> forall e :: e in Elements(t.left) ==> Compare(cmp, e, d) != 0
  {
    forall e | e in Elements(t) && Compare(cmp, e, d) == 0
      ensures Compare(cmp, t.data, e) < 0 <==> Compare(cmp, t.data, d) < 0
    {
      Chain(cmp, t.data, e, d);
    }
  }

  /** Insertion adds the element, and nothing else; it aborts exactly if there is an equal one. */
  lemma {:induction false} InsertAdds(cmp: Comparator, t: Tree, d: Data)
    requires TotalPreorder(cmp) && Ordered(cmp, t)
    ensures Insert(cmp, t, d).Aborted? <==> exists e :: e in Elements(t) && Compare(cmp, e, d) == 0
    ensures var r := Insert(cmp, t, d);
            r.Done? ==> Ordered(cmp, r.tree) && Elements(r.tree) == Elements(t) + {d} && Size(r.tree) == Size(t) + 1
  {
    if t.Leaf? {
    } else if Compare(cmp, t.data, d) == 0 {
      assert t.data in Elements(t);
    } else if Compare(cmp, t.data, d) < 0 {
      NotBeyond(cmp, t, d);
      InsertAdds(cmp, t.left, d);
      match Insert(cmp, t.left, d)
      case Aborted =>
      case Done(l, grew) => RebalanceKeeps(cmp, t.(left := l, balance := t.balance - (if grew then 1 else 0)), grew);
    } else {
      NotBeyond(cmp, t, d);
      InsertAdds(cmp, t.right, d);
      match Insert(cmp, t.right, d)
      case Aborted =>
      case Done(r, grew) => RebalanceKeeps(cmp, t.(right := r, balance := t.balance + (if grew then 1 else 0)), grew);
    }
  }

  /** A search tree with the given number of nodes. */
  ghost predicate SearchTree(cmp: Comparator, t: Tree, entries: int) {
    TotalPreorder(cmp) && Balanced(t) && Ordered(cmp, t) && entries == Size(t)
  }

  /** Whatever is inserted into a search tree, the result is one: balanced, ordered, with one more element. */
  lemma {:induction false} InsertKeeps(cmp: Comparator, t: Tree, d: Data, entries: int)
    requires SearchTree(cmp, t, entries)
    ensures Insert(cmp, t, d).Aborted? <==> exists e :: e in Elements(t) && Compare(cmp, e, d) == 0
    ensures var r := Insert(cmp, t, d);
            r.Done? ==> SearchTree(cmp, r.tree, entries + 1) && Elements(r.tree) == Elements(t) + {d}
  {
    InsertBalanced(cmp, t, d);
    InsertAdds(cmp, t, d);
  }

  // ---------------------------------------------------------------- height

  ghost function Fib(n: nat): nat { if n < 2 then n else Fib(n - 1) + Fib(n - 2) }

  lemma {:induction false} FibMono(a: nat, b: nat)
    requires a <= b
    ensures Fib(a) <= Fib(b)
    decreases b - a
  {
    if a == b {
    } else {
      FibMono(a, b - 1);
    }
  }

  /** A balanced tree of height h has at least Fib(h + 2) - 1 nodes. */
  lemma {:induction false} SizeBound(t: Tree)
    requires Balanced(t)
    ensures Size(t) + 1 >= Fib(Height(t) + 2)
  {
    if t.Leaf? {
    } else {
      SizeBound(t.left);
      SizeBound(t.right);
      FibSum(Height(t.left), Height(t.right), Height(t));
    }
  }

  lemma {:induction false} FibSum(l: nat, r: nat, h: nat)
    requires -1 <= r - l <= 1 && h == 1 + Max(l, r)
    ensures Fib(l + 2) + Fib(r + 2) >= Fib(h + 2)
  {
    FibMono(h, l + 2);
    FibMono(h, r + 2);
    assert Fib(h + 2) == Fib(h + 1) + Fib(h);
  }

  lemma {:induction false} FibGrows(h: nat)
    ensures Pow2(h / 2) <= Fib(h + 2)
  {
    if h < 2 {
    } else {
      FibGrows(h - 2);
      assert Fib(h + 2) == Fib(h + 1) + Fib(h);
      FibMono(h, h + 1);
    }
  }

  /** The height, and with it every search, is at most twice the logarithm of the size, plus one. */
  lemma {:induction false} LogarithmicHeight(t: Tree)
    requires Balanced(t)
    ensures Pow2(Height(t) / 2) <= Size(t) + 1
  {
    SizeBound(t);
    FibGrows(Height(t));
  }

  // ---------------------------------------------------------------- searching

  datatype Found = Missing | Hit(data: Data)

  function Lookup(cmp: Comparator, t: Tree, d: Data): Found {
    if t.Leaf? then Missing
    else if Compare(cmp, t.data, d) == 0 then Hit(t.data)
    else if Compare(cmp, t.data, d) < 0 then Lookup(cmp, t.left, d)
    else Lookup(cmp, t.right, d)
  }

  /** A search finds the one element equal to d, exactly if there is one. */
  lemma {:induction false} LookupExact(cmp: Comparator, t: Tree, d: Data)
    requires TotalPreorder(cmp) && Ordered(cmp, t)
    ensures Lookup(cmp, t, d).Missing? <==> forall e :: e in Elements(t) ==> Compare(cmp, e, d) != 0
    ensures var f := Lookup(cmp, t, d);
            f.Hit? ==> f.data in Elements(t) && Compare(cmp, f.data, d) == 0
  {
    if t.Leaf? {
    } else {
      assert t.data in Elements(t);
      if Compare(cmp, t.data, d) != 0 { NotBeyond(cmp, t, d); }
      LookupExact(cmp, t.left, d);
      LookupExact(cmp, t.right, d);
    }
  }
}
