/** avl.c itself: nodes that rotations, insertion and marking update in place.  Every method is proved
    to do to the nodes what the corresponding function of AvlTree does to the tree they stand for. */
module AvlNodes {
  import opened Words
  import T = AvlTree

  class AvlNode {
    var key: nat
    var height: int
    var marked: bool
    var left: AvlNode?
    var right: AvlNode?

    constructor (k: nat)
      ensures key == k && height == 1 && !marked && left == null && right == null
    {
      key, height, marked, left, right := k, 1, false, null, null;
    }
  }

  /** Which nodes make up a tree, and how they are linked. */
  datatype Shape = Nil | Link(l: Shape, n: AvlNode, r: Shape)

  ghost function Nodes(sh: Shape): set<AvlNode> {
    if sh.Nil? then {} else Nodes(sh.l) + {sh.n} + Nodes(sh.r)
  }

  /** The pointers at and below p are linked as sh says, each node occurring once. */
  ghost predicate Linked(p: AvlNode?, sh: Shape)
    reads Nodes(sh)
  {
    match sh
    case Nil => p == null
    case Link(l, n, r) =>
      && p == n && n !in Nodes(l) && n !in Nodes(r) && Nodes(l) !! Nodes(r)
      && Linked(n.left, l) && Linked(n.right, r)
  }

  /** The tree that the nodes stand for. */
  ghost function Tree(sh: Shape): T.Tree
    reads Nodes(sh)
  {
    match sh
    case Nil => T.Leaf
    case Link(l, n, r) => T.Node(Tree(l), n.key, n.height, n.marked, Tree(r))
  }

  function Height(p: AvlNode?): int
    reads p
  {
    if p == null then 0 else p.height
  }

  lemma {:induction false} HeightOfTree(p: AvlNode?, sh: Shape)
    requires Linked(p, sh)
    ensures Height(p) == T.H(Tree(sh))
  {
  }

  lemma Allocated(sh: Shape)
    ensures allocated(Nodes(sh))
  {
  }

  /** Three subtrees around two nodes, all apart. */
  ghost predicate Apart(a: Shape, x: AvlNode, b: Shape, y: AvlNode, c: Shape) {
    && x != y && x !in Nodes(a) && x !in Nodes(b) && x !in Nodes(c)
    && y !in Nodes(a) && y !in Nodes(b) && y !in Nodes(c)
    && Nodes(a) !! Nodes(b) && Nodes(a) !! Nodes(c) && Nodes(b) !! Nodes(c)
  }

  lemma {:induction false} LinkedRight(a: Shape, x: AvlNode, b: Shape, y: AvlNode, c: Shape)
    requires Apart(a, x, b, y, c)
    requires Linked(x.left, a) && x.right == y && Linked(y.left, b) && Linked(y.right, c)
    ensures Linked(x, Link(a, x, Link(b, y, c)))
    ensures Tree(Link(a, x, Link(b, y, c))) ==
      T.Node(Tree(a), x.key, x.height, x.marked, T.Node(Tree(b), y.key, y.height, y.marked, Tree(c)))
  {
    assert Linked(y, Link(b, y, c));
  }

  lemma {:induction false} LinkedLeft(a: Shape, x: AvlNode, b: Shape, y: AvlNode, c: Shape)
    requires Apart(a, x, b, y, c)
    requires Linked(x.left, a) && y.left == x && Linked(x.right, b) && Linked(y.right, c)
    ensures Linked(y, Link(Link(a, x, b), y, c))
    ensures Tree(Link(Link(a, x, b), y, c)) ==
      T.Node(T.Node(Tree(a), x.key, x.height, x.marked, Tree(b)), y.key, y.height, y.marked, Tree(c))
  {
    assert Linked(x, Link(a, x, b));
  }

  lemma {:induction false} ApartLeft(a: Shape, x: AvlNode, b: Shape, y: AvlNode, c: Shape)
    requires Linked(y, Link(Link(a, x, b), y, c))
    ensures Apart(a, x, b, y, c) && y.left == x && Linked(x.left, a) && Linked(x.right, b) && Linked(y.right, c)
    ensures Tree(Link(Link(a, x, b), y, c)) ==
      T.Node(T.Node(Tree(a), x.key, x.height, x.marked, Tree(b)), y.key, y.height, y.marked, Tree(c))
  {
    assert Linked(y.left, Link(a, x, b));
    assert Nodes(Link(a, x, b)) == Nodes(a) + {x} + Nodes(b);
  }

  lemma {:induction false} ApartRight(a: Shape, x: AvlNode, b: Shape, y: AvlNode, c: Shape)
    requires Linked(x, Link(a, x, Link(b, y, c)))
    ensures Apart(a, x, b, y, c) && x.right == y && Linked(x.left, a) && Linked(y.left, b) && Linked(y.right, c)
    ensures Tree(Link(a, x, Link(b, y, c))) ==
      T.Node(Tree(a), x.key, x.height, x.marked, T.Node(Tree(b), y.key, y.height, y.marked, Tree(c)))
  {
    assert Linked(x.right, Link(b, y, c));
    assert Nodes(Link(b, y, c)) == Nodes(b) + {y} + Nodes(c);
  }

  method RightRotate(y: AvlNode, ghost a: Shape, ghost b: Shape, ghost c: Shape) returns (x: AvlNode)
    requires y.left != null && Linked(y, Link(Link(a, y.left, b), y, c))
    modifies y, y.left
    ensures x == old(y.left) && Linked(x, Link(a, x, Link(b, y, c)))
    ensures Tree(Link(a, x, Link(b, y, c))) == T.RotateRight(old(Tree(Link(Link(a, y.left, b), y, c))))
  {
    x := y.left;
    ApartLeft(a, x, b, y, c);
    RelinkRight(x, y, a, b, c);
    LinkedRight(a, x, b, y, c);
  }

  /** The assignments of right_rotate. */
  method RelinkRight(x: AvlNode, y: AvlNode, ghost a: Shape, ghost b: Shape, ghost c: Shape)
    requires Apart(a, x, b, y, c) && Linked(x.left, a) && Linked(x.right, b) && Linked(y.right, c)
    modifies x, y
    ensures Linked(x.left, a) && x.right == y && Linked(y.left, b) && Linked(y.right, c)
    ensures Tree(a) == old(Tree(a)) && Tree(b) == old(Tree(b)) && Tree(c) == old(Tree(c))
    ensures unchanged(x`key, x`marked) && unchanged(y`key, y`marked)
    ensures y.height == Max(T.H(Tree(b)), T.H(Tree(c))) + 1 && x.height == Max(T.H(Tree(a)), y.height) + 1
  {
    x.right, y.left := y, x.right;
    SetHeight(y, b, c, x.left, a);
    HeightOfTree(x.left, a);
    StoreHeight(x, Max(Height(x.left), Height(x.right)) + 1, x.left, a, y.left, b, y.right, c);
  }

  method LeftRotate(x: AvlNode, ghost a: Shape, ghost b: Shape, ghost c: Shape) returns (y: AvlNode)
    requires x.right != null && Linked(x, Link(a, x, Link(b, x.right, c)))
    modifies x, x.right
    ensures y == old(x.right) && Linked(y, Link(Link(a, x, b), y, c))
    ensures Tree(Link(Link(a, x, b), y, c)) == T.RotateLeft(old(Tree(Link(a, x, Link(b, x.right, c)))))
  {
    y := x.right;
    ApartRight(a, x, b, y, c);
    RelinkLeft(x, y, a, b, c);
    LinkedLeft(a, x, b, y, c);
  }

  /** The assignments of left_rotate. */
  method RelinkLeft(x: AvlNode, y: AvlNode, ghost a: Shape, ghost b: Shape, ghost c: Shape)
    requires Apart(a, x, b, y, c) && Linked(x.left, a) && Linked(y.left, b) && Linked(y.right, c)
    modifies x, y
    ensures Linked(x.left, a) && y.left == x && Linked(x.right, b) && Linked(y.right, c)
    ensures Tree(a) == old(Tree(a)) && Tree(b) == old(Tree(b)) && Tree(c) == old(Tree(c))
    ensures unchanged(x`key, x`marked) && unchanged(y`key, y`marked)
    ensures x.height == Max(T.H(Tree(a)), T.H(Tree(b))) + 1 && y.height == Max(x.height, T.H(Tree(c))) + 1
  {
    y.left, x.right := x, y.left;
    SetHeight(x, a, b, y.right, c);
    HeightOfTree(y.right, c);
    StoreHeight(y, Max(Height(y.left), Height(y.right)) + 1, x.left, a, x.right, b, y.right, c);
  }

  /** The height of a node from its children's; another tree is as before. */
  method SetHeight(n: AvlNode, ghost l: Shape, ghost r: Shape, ghost k: AvlNode?, ghost o: Shape)
    requires Linked(n.left, l) && Linked(n.right, r) && Linked(k, o)
    requires n !in Nodes(l) && n !in Nodes(r) && n !in Nodes(o)
    modifies n`height
    ensures n.height == Max(T.H(Tree(l)), T.H(Tree(r))) + 1
    ensures Linked(n.left, l) && Linked(n.right, r) && Linked(k, o)
    ensures Tree(l) == old(Tree(l)) && Tree(r) == old(Tree(r)) && Tree(o) == old(Tree(o))
  {
    HeightOfTree(n.left, l);
    HeightOfTree(n.right, r);
    StoreHeight(n, Max(Height(n.left), Height(n.right)) + 1, n.left, l, n.right, r, k, o);
  }

  /** The height of a node that is in none of three trees. */
  method StoreHeight(n: AvlNode, h: int, ghost p: AvlNode?, ghost a: Shape, ghost q: AvlNode?, ghost b: Shape,
      ghost r: AvlNode?, ghost c: Shape)
    requires Linked(p, a) && Linked(q, b) && Linked(r, c) && n !in Nodes(a) && n !in Nodes(b) && n !in Nodes(c)
    modifies n`height
    ensures n.height == h && Linked(p, a) && Linked(q, b) && Linked(r, c)
    ensures Tree(a) == old(Tree(a)) && Tree(b) == old(Tree(b)) && Tree(c) == old(Tree(c))
  {
    n.height := h;
  }

  lemma {:induction false} Regrouped(a: Shape, x: AvlNode, b: Shape, y: AvlNode, c: Shape)
    ensures Nodes(Link(Link(a, x, b), y, c)) == Nodes(a) + {x} + Nodes(b) + {y} + Nodes(c)
    ensures Nodes(Link(a, x, Link(b, y, c))) == Nodes(a) + {x} + Nodes(b) + {y} + Nodes(c)
  {
    var A, B, C := Nodes(a), Nodes(b), Nodes(c);
    assert Nodes(Link(a, x, b)) == A + {x} + B && Nodes(Link(b, y, c)) == B + {y} + C;
  }

  /** node->left = left_rotate(node->left) */
  method TurnLeftChild(n: AvlNode, ghost a: Shape, ghost x: AvlNode, ghost b: Shape, ghost z: AvlNode,
      ghost c: Shape, ghost d: Shape)
    requires Linked(n, Link(Link(a, x, Link(b, z, c)), n, d))
    modifies n, x, z
    ensures Linked(n, Link(Link(Link(a, x, b), z, c), n, d))
    ensures Tree(Link(Link(Link(a, x, b), z, c), n, d)) ==
      T.Node(T.RotateLeft(old(Tree(Link(a, x, Link(b, z, c))))), old(n.key), old(n.height), old(n.marked), old(Tree(d)))
  {
    LeftApart(n, a, x, b, z, c, d);
    ghost var td := Tree(d);
    var child := LeftRotate(n.left, a, b, c);
    assert Linked(n.right, d) && Tree(d) == td;
    n.left := child;
    assert Linked(n.right, d) && Tree(d) == td;
  }

  lemma {:induction false} ParentApart(n: AvlNode, l: Shape, r: Shape)
    requires Linked(n, Link(l, n, r))
    ensures Linked(n.left, l) && Linked(n.right, r) && n !in Nodes(l) && n !in Nodes(r) && Nodes(l) !! Nodes(r)
  {
  }

  lemma {:induction false} LeftApart(n: AvlNode, a: Shape, x: AvlNode, b: Shape, z: AvlNode, c: Shape, d: Shape)
    requires Linked(n, Link(Link(a, x, Link(b, z, c)), n, d))
    ensures n.left == x && x.right == z && Linked(x, Link(a, x, Link(b, z, c))) && Linked(n.right, d)
    ensures var turned := Nodes(Link(Link(a, x, b), z, c));
      n !in turned && turned !! Nodes(d) && n !in Nodes(d) && x !in Nodes(d) && z !in Nodes(d)
    ensures allocated(Nodes(d))
  {
    var l := Link(a, x, Link(b, z, c));
    ParentApart(n, l, d);
    Regrouped(a, x, b, z, c);
    assert x in Nodes(l) && z in Nodes(l);
    assert Linked(x.right, Link(b, z, c));
    Allocated(d);
  }

  /** node->right = right_rotate(node->right) */
  method TurnRightChild(n: AvlNode, ghost d: Shape, ghost a: Shape, ghost z: AvlNode, ghost b: Shape,
      ghost y: AvlNode, ghost c: Shape)
    requires Linked(n, Link(d, n, Link(Link(a, z, b), y, c)))
    modifies n, y, z
    ensures Linked(n, Link(d, n, Link(a, z, Link(b, y, c))))
    ensures Tree(Link(d, n, Link(a, z, Link(b, y, c)))) ==
      T.Node(old(Tree(d)), old(n.key), old(n.height), old(n.marked),
             T.RotateRight(old(Tree(Link(Link(a, z, b), y, c)))))
  {
    RightApart(n, d, a, z, b, y, c);
    ghost var td := Tree(d);
    var child := RightRotate(n.right, a, b, c);
    assert Linked(n.left, d) && Tree(d) == td;
    n.right := child;
    assert Linked(n.left, d) && Tree(d) == td;
  }

  lemma {:induction false} RightApart(n: AvlNode, d: Shape, a: Shape, z: AvlNode, b: Shape, y: AvlNode, c: Shape)
    requires Linked(n, Link(d, n, Link(Link(a, z, b), y, c)))
    ensures n.right == y && y.left == z && Linked(y, Link(Link(a, z, b), y, c)) && Linked(n.left, d)
    ensures var turned := Nodes(Link(a, z, Link(b, y, c)));
      n !in turned && turned !! Nodes(d) && n !in Nodes(d) && y !in Nodes(d) && z !in Nodes(d)
    ensures allocated(Nodes(d))
  {
    var r := Link(Link(a, z, b), y, c);
    ParentApart(n, d, r);
    Regrouped(a, z, b, y, c);
    assert y in Nodes(r) && z in Nodes(r);
    assert Linked(y.left, Link(a, z, b));
    Allocated(d);
  }

  method RotateLeftRight(n: AvlNode, ghost a: Shape, ghost x: AvlNode, ghost b: Shape, ghost z: AvlNode,
      ghost c: Shape, ghost d: Shape)
    returns (r: AvlNode, ghost sh': Shape)
    requires Linked(n, Link(Link(a, x, Link(b, z, c)), n, d))
    modifies n, x, z
    ensures Linked(r, sh') && Nodes(sh') == Nodes(Link(Link(a, x, Link(b, z, c)), n, d))
    ensures Tree(sh') ==
      T.RotateRight(T.Node(T.RotateLeft(old(Tree(Link(a, x, Link(b, z, c))))),
                           old(n.key), old(n.height), old(n.marked), old(Tree(d))))
  {
    TurnLeftChild(n, a, x, b, z, c, d);
    r := RightRotate(n, Link(a, x, b), c, d);
    sh' := Link(Link(a, x, b), r, Link(c, n, d));
    Regrouped(a, x, b, z, c);
    Regrouped(Link(a, x, b), z, c, n, d);
  }

  method RotateRightLeft(n: AvlNode, ghost d: Shape, ghost a: Shape, ghost z: AvlNode, ghost b: Shape,
      ghost y: AvlNode, ghost c: Shape)
    returns (r: AvlNode, ghost sh': Shape)
    requires Linked(n, Link(d, n, Link(Link(a, z, b), y, c)))
    modifies n, y, z
    ensures Linked(r, sh') && Nodes(sh') == Nodes(Link(d, n, Link(Link(a, z, b), y, c)))
    ensures Tree(sh') ==
      T.RotateLeft(T.Node(old(Tree(d)), old(n.key), old(n.height), old(n.marked),
                          T.RotateRight(old(Tree(Link(Link(a, z, b), y, c))))))
  {
    TurnRightChild(n, d, a, z, b, y, c);
    r := LeftRotate(n, d, a, Link(b, y, c));
    sh' := Link(Link(d, n, a), r, Link(b, y, c));
    Regrouped(a, z, b, y, c);
    Regrouped(d, n, a, z, Link(b, y, c));
  }

  /** The end of insert_node: the height is brought up to date, then one of the four rotation cases
      is applied. */
  method Rebalance(node: AvlNode, key: nat, ghost sh: Shape) returns (r: AvlNode, ghost sh': Shape)
    requires Linked(node, sh)
    requires T.InnerNodes(Tree(sh.l), Tree(sh.r), key)
    modifies Nodes(sh)
    ensures Linked(r, sh') && Nodes(sh') == Nodes(sh)
    ensures Tree(sh') == T.Rebalance(T.Make(old(Tree(sh.l)), old(node.key), old(node.marked), old(Tree(sh.r))), key)
  {
    UpdateHeight(node, sh);
    r, sh' := Rotate(node, key, sh);
  }

  method UpdateHeight(node: AvlNode, ghost sh: Shape)
    requires Linked(node, sh)
    modifies node`height
    ensures Linked(node, sh)
    ensures Tree(sh) == T.Make(old(Tree(sh.l)), old(node.key), old(node.marked), old(Tree(sh.r)))
  {
    HeightOfTree(node.left, sh.l);
    HeightOfTree(node.right, sh.r);
    node.height := 1 + Max(Height(node.left), Height(node.right));
  }

  /** The four cases. */
  method Rotate(node: AvlNode, key: nat, ghost sh: Shape) returns (r: AvlNode, ghost sh': Shape)
    requires Linked(node, sh) && T.InnerNodes(Tree(sh.l), Tree(sh.r), key)
    modifies Nodes(sh)
    ensures Linked(r, sh') && Nodes(sh') == Nodes(sh)
    ensures Tree(sh') == T.Rebalance(old(Tree(sh)), key)
  {
    r, sh' := node, sh;
    HeightOfTree(node.left, sh.l);
    HeightOfTree(node.right, sh.r);
    var balance := Height(node.left) - Height(node.right);
    if balance > 1 && node.left != null && key < node.left.key {
      r := RightRotate(node, sh.l.l, sh.l.r, sh.r);
      sh' := Link(sh.l.l, r, Link(sh.l.r, node, sh.r));
      Regrouped(sh.l.l, r, sh.l.r, node, sh.r);
    } else if balance < -1 && node.right != null && key > node.right.key {
      r := LeftRotate(node, sh.l, sh.r.l, sh.r.r);
      sh' := Link(Link(sh.l, node, sh.r.l), r, sh.r.r);
      Regrouped(sh.l, node, sh.r.l, r, sh.r.r);
    } else if balance > 1 && node.left != null && key > node.left.key {
      r, sh' := RotateLeftRight(node, sh.l.l, sh.l.n, sh.l.r.l, sh.l.r.n, sh.l.r.r, sh.r);
    } else if balance < -1 && node.right != null && key < node.right.key {
      r, sh' := RotateRightLeft(node, sh.l, sh.r.l.l, sh.r.l.n, sh.r.l.r, sh.r.n, sh.r.r);
    }
  }

  method InsertNode(node: AvlNode?, key: nat, ghost sh: Shape) returns (r: AvlNode, inserted: bool, ghost sh': Shape)
    requires Linked(node, sh) && T.Balanced(Tree(sh))
    modifies Nodes(sh)
    ensures Linked(r, sh') && Nodes(sh) <= Nodes(sh') && fresh(Nodes(sh') - Nodes(sh))
    ensures Tree(sh') == T.Insert(old(Tree(sh)), key)
    ensures inserted == !T.Contains(old(Tree(sh)), key)
    decreases sh, 1
  {
    if node == null {
      r := new AvlNode(key);
      inserted, sh' := true, Link(Nil, r, Nil);
    } else if key < node.key {
      r, inserted, sh' := InsertLeft(node, key, sh);
    } else if key > node.key {
      r, inserted, sh' := InsertRight(node, key, sh);
    } else {
      r, inserted, sh' := node, false, sh;
    }
  }

  method InsertLeft(node: AvlNode, key: nat, ghost sh: Shape) returns (r: AvlNode, inserted: bool, ghost sh': Shape)
    requires Linked(node, sh) && T.Balanced(Tree(sh)) && key < node.key
    modifies Nodes(sh)
    ensures Linked(r, sh') && Nodes(sh) <= Nodes(sh') && fresh(Nodes(sh') - Nodes(sh))
    ensures Tree(sh') == T.Insert(old(Tree(sh)), key)
    ensures inserted == !T.Contains(old(Tree(sh)), key)
    decreases sh, 0, 1
  {
    T.InsertStep(Tree(sh), key);
    ghost var l';
    inserted, l' := InsertIntoLeft(node, key, sh);
    r, sh' := Rebalance(node, key, Link(l', node, sh.r));
  }

  /** node->left = insert_node(node->left, key, inserted) */
  method InsertIntoLeft(node: AvlNode, key: nat, ghost sh: Shape) returns (inserted: bool, ghost l': Shape)
    requires Linked(node, sh) && T.Balanced(Tree(sh)) && key < node.key
    modifies Nodes(sh)
    ensures Linked(node, Link(l', node, sh.r)) && unchanged(node`key, node`marked)
    ensures var all := Nodes(Link(l', node, sh.r)); Nodes(sh) <= all && fresh(all - Nodes(sh))
    ensures Tree(l') == T.Insert(old(Tree(sh.l)), key) && Tree(sh.r) == old(Tree(sh.r))
    ensures inserted == !T.Contains(old(Tree(sh.l)), key)
    decreases sh, 0, 0
  {
    ParentApart(node, sh.l, sh.r);
    Allocated(sh);
    var child;
    child, inserted, l' := InsertNode(node.left, key, sh.l);
    node.left := child;
    assert Linked(node.right, sh.r);
  }

  method InsertRight(node: AvlNode, key: nat, ghost sh: Shape) returns (r: AvlNode, inserted: bool, ghost sh': Shape)
    requires Linked(node, sh) && T.Balanced(Tree(sh)) && key > node.key
    modifies Nodes(sh)
    ensures Linked(r, sh') && Nodes(sh) <= Nodes(sh') && fresh(Nodes(sh') - Nodes(sh))
    ensures Tree(sh') == T.Insert(old(Tree(sh)), key)
    ensures inserted == !T.Contains(old(Tree(sh)), key)
    decreases sh, 0, 1
  {
    T.InsertStep(Tree(sh), key);
    ghost var r';
    inserted, r' := InsertIntoRight(node, key, sh);
    r, sh' := Rebalance(node, key, Link(sh.l, node, r'));
  }

  /** node->right = insert_node(node->right, key, inserted) */
  method InsertIntoRight(node: AvlNode, key: nat, ghost sh: Shape) returns (inserted: bool, ghost r': Shape)
    requires Linked(node, sh) && T.Balanced(Tree(sh)) && key > node.key
    modifies Nodes(sh)
    ensures Linked(node, Link(sh.l, node, r')) && unchanged(node`key, node`marked)
    ensures var all := Nodes(Link(sh.l, node, r')); Nodes(sh) <= all && fresh(all - Nodes(sh))
    ensures Tree(r') == T.Insert(old(Tree(sh.r)), key) && Tree(sh.l) == old(Tree(sh.l))
    ensures inserted == !T.Contains(old(Tree(sh.r)), key)
    decreases sh, 0, 0
  {
    ParentApart(node, sh.l, sh.r);
    Allocated(sh);
    var child;
    child, inserted, r' := InsertNode(node.right, key, sh.r);
    node.right := child;
    assert Linked(node.left, sh.l);
  }

  method MarkNode(node: AvlNode?, key: nat, ghost sh: Shape) returns (found: bool)
    requires Linked(node, sh)
    modifies Nodes(sh)
    ensures Linked(node, sh) && Tree(sh) == T.Mark(old(Tree(sh)), key)
    ensures found == T.Contains(old(Tree(sh)), key)
    decreases sh
  {
    if node == null { return false; }
    if key == node.key {
      node.marked := true;
      ParentApart(node, sh.l, sh.r);
      return true;
    }
    ParentApart(node, sh.l, sh.r);
    Allocated(sh);
    if key < node.key {
      found := MarkNode(node.left, key, sh.l);
      assert Linked(node.right, sh.r);
    } else {
      found := MarkNode(node.right, key, sh.r);
      assert Linked(node.left, sh.l);
    }
  }
}
