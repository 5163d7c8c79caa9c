/** The AVL trees of avl.c as values, and what every sequence of insertions keeps.
    The nodes that avl.c updates in place are in AvlNodes, which is proved to follow these functions. */
module AvlTree {
  import opened Words

  datatype Tree = Leaf | Node(left: Tree, key: nat, height: int, marked: bool, right: Tree)

  /** The stored height, 0 for no node. */
  function H(t: Tree): int { if t.Leaf? then 0 else t.height }

  function GetBalance(t: Tree): int { if t.Leaf? then 0 else H(t.left) - H(t.right) }

  /** A node with its stored height brought up to date. */
  function Make(l: Tree, key: nat, marked: bool, r: Tree): Tree { Node(l, key, Max(H(l), H(r)) + 1, marked, r) }

  function RotateRight(y: Tree): Tree {
    if y.Node? && y.left.Node? then
      Make(y.left.left, y.left.key, y.left.marked, Make(y.left.right, y.key, y.marked, y.right))
    else y
  }

  function RotateLeft(x: Tree): Tree {
    if x.Node? && x.right.Node? then
      Make(Make(x.left, x.key, x.marked, x.right.left), x.right.key, x.right.marked, x.right.right)
    else x
  }

  /** The four rotation cases, chosen as insert_node does: by the balance and the inserted key. */
  function Rebalance(t: Tree, key: nat): Tree
    requires t.Node?
  {
    var balance := GetBalance(t);
    if balance > 1 && t.left.Node? && key < t.left.key then RotateRight(t)
    else if balance < -1 && t.right.Node? && key > t.right.key then RotateLeft(t)
    else if balance > 1 && t.left.Node? && key > t.left.key then RotateRight(t.(left := RotateLeft(t.left)))
    else if balance < -1 && t.right.Node? && key < t.right.key then RotateLeft(t.(right := RotateRight(t.right)))
    else t
  }

  function Insert(t: Tree, key: nat): Tree {
    match t
    case Leaf => Node(Leaf, key, 1, false, Leaf)
    case Node(l, k, h, m, r) =>
      if key < k then Rebalance(Make(Insert(l, key), k, m, r), key)
      else if key > k then Rebalance(Make(l, k, m, Insert(r, key)), key)
      else t
  }

  predicate Contains(t: Tree, key: nat) {
    t.Node? && (key == t.key || (if key < t.key then Contains(t.left, key) else Contains(t.right, key)))
  }

  function Mark(t: Tree, key: nat): Tree {
    if t.Leaf? then t
    else if key == t.key then t.(marked := true)
    else if key < t.key then t.(left := Mark(t.left, key))
    else t.(right := Mark(t.right, key))
  }

  function Inorder(t: Tree): seq<nat> {
    if t.Leaf? then [] else Inorder(t.left) + [t.key] + Inorder(t.right)
  }

  // ------------------------------------------------------------------ what a tree means

  /** Search order, with every key strictly between lo and hi. */
  predicate Within(t: Tree, lo: int, hi: int) {
    t.Node? ==> lo < t.key < hi && Within(t.left, lo, t.key) && Within(t.right, t.key, hi)
  }

  ghost predicate Ordered(t: Tree) { exists lo, hi :: Within(t, lo, hi) }

  /** The map from key to mark that the tree stands for, one key at a time. */
  function MarkOf(t: Tree, q: nat): Option<bool> {
    if t.Leaf? then None
    else if q == t.key then Some(t.marked)
    else if q < t.key then MarkOf(t.left, q) else MarkOf(t.right, q)
  }

  function TrueHeight(t: Tree): nat {
    if t.Leaf? then 0 else 1 + Max(TrueHeight(t.left), TrueHeight(t.right)) as nat
  }

  /** Every stored height is the true one and every balance is -1, 0 or 1. */
  ghost predicate Balanced(t: Tree) {
    t.Node? ==>
    && Balanced(t.left) && Balanced(t.right)
    && t.height == TrueHeight(t)
    && -1 <= GetBalance(t) <= 1
  }

  ghost predicate Avl(t: Tree) { Ordered(t) && Balanced(t) }

  // ------------------------------------------------------------------ rotations

  lemma RotateRightKeeps(t: Tree, lo: int, hi: int, q: nat)
    requires t.Node? && t.left.Node? && Within(t, lo, hi)
    ensures Within(RotateRight(t), lo, hi) && MarkOf(RotateRight(t), q) == MarkOf(t, q)
  {
    var l := t.left;
    assert Within(Make(l.right, t.key, t.marked, t.right), l.key, hi);
  }

  lemma RotateLeftKeeps(t: Tree, lo: int, hi: int, q: nat)
    requires t.Node? && t.right.Node? && Within(t, lo, hi)
    ensures Within(RotateLeft(t), lo, hi) && MarkOf(RotateLeft(t), q) == MarkOf(t, q)
  {
    var r := t.right;
    assert Within(Make(t.left, t.key, t.marked, r.left), lo, r.key);
  }

  lemma RebalanceKeeps(t: Tree, key: nat, lo: int, hi: int, q: nat)
    requires t.Node? && Within(t, lo, hi)
    ensures Within(Rebalance(t, key), lo, hi) && MarkOf(Rebalance(t, key), q) == MarkOf(t, q)
  {
    if t.left.Node? {
      RotateRightKeeps(t, lo, hi, q);
      if t.left.right.Node? { RotateLeftKeeps(t.left, lo, t.key, q); }
      RotateRightKeeps(t.(left := RotateLeft(t.left)), lo, hi, q);
    }
    if t.right.Node? {
      RotateLeftKeeps(t, lo, hi, q);
      if t.right.left.Node? { RotateRightKeeps(t.right, t.key, hi, q); }
      RotateLeftKeeps(t.(right := RotateRight(t.right)), lo, hi, q);
    }
  }

  /** Insertion adds the key, unmarked, and nothing else: the other keys and their marks are kept. */
  lemma {:induction false} InsertAddsKey(t: Tree, key: nat, lo: int, hi: int, q: nat)
    requires Within(t, lo, hi) && lo < key < hi
    ensures Within(Insert(t, key), lo, hi)
    ensures MarkOf(Insert(t, key), q) == if q == key && MarkOf(t, q).None? then Some(false) else MarkOf(t, q)
  {
    if t.Node? {
      if key < t.key {
        InsertAddsKey(t.left, key, lo, t.key, q);
        RebalanceKeeps(Make(Insert(t.left, key), t.key, t.marked, t.right), key, lo, hi, q);
      } else if key > t.key {
        InsertAddsKey(t.right, key, t.key, hi, q);
        RebalanceKeeps(Make(t.left, t.key, t.marked, Insert(t.right, key)), key, lo, hi, q);
      }
    }
  }

  // ------------------------------------------------------------------ balance

  /** What insertion leaves in a subtree that has grown: its balance is not 0 unless it is the new
      node, and it leans to the side of the key. */
  ghost predicate Leans(t: Tree, key: nat) {
    t.Node? && (key == t.key || (GetBalance(t) == 1 && key < t.key) || (GetBalance(t) == -1 && key > t.key))
  }

  lemma Heights(t: Tree)
    requires Balanced(t) && t.Node?
    ensures H(t.left) == TrueHeight(t.left) && H(t.right) == TrueHeight(t.right)
    ensures t.height == 1 + Max(H(t.left), H(t.right)) && H(t.left) >= 0 && H(t.right) >= 0
  {
    HeightIsTrue(t.left); HeightIsTrue(t.right);
  }

  lemma MakeBalanced(l: Tree, k: nat, m: bool, r: Tree)
    requires Balanced(l) && Balanced(r) && -1 <= H(l) - H(r) <= 1
    ensures Balanced(Make(l, k, m, r))
  {
    HeightIsTrue(l); HeightIsTrue(r);
  }

  lemma RebalanceLeft(l: Tree, k: nat, m: bool, r: Tree, key: nat)
    requires Balanced(l) && Balanced(r) && l.Node? && key < k
    requires -1 <= H(l) - H(r) <= 2 && (H(l) - H(r) == 2 ==> Leans(l, key) && key != l.key)
    ensures Balanced(Rebalance(Make(l, k, m, r), key))
    ensures H(l) - H(r) == 2 ==> H(Rebalance(Make(l, k, m, r), key)) == H(l)
  {
    Heights(l);
    if H(l) - H(r) < 2 {
      MakeBalanced(l, k, m, r);
    } else if key < l.key {
      MakeBalanced(l.right, k, m, r);
      MakeBalanced(l.left, l.key, l.marked, Make(l.right, k, m, r));
    } else {
      var c := l.right;
      Heights(c);
      MakeBalanced(l.left, l.key, l.marked, c.left);
      MakeBalanced(c.right, k, m, r);
      MakeBalanced(Make(l.left, l.key, l.marked, c.left), c.key, c.marked, Make(c.right, k, m, r));
    }
  }

  lemma RebalanceRight(l: Tree, k: nat, m: bool, r: Tree, key: nat)
    requires Balanced(l) && Balanced(r) && r.Node? && key > k
    requires -2 <= H(l) - H(r) <= 1 && (H(l) - H(r) == -2 ==> Leans(r, key) && key != r.key)
    ensures Balanced(Rebalance(Make(l, k, m, r), key))
    ensures H(l) - H(r) == -2 ==> H(Rebalance(Make(l, k, m, r), key)) == H(r)
  {
    Heights(r);
    if H(l) - H(r) > -2 {
      MakeBalanced(l, k, m, r);
    } else if key > r.key {
      MakeBalanced(l, k, m, r.left);
      MakeBalanced(Make(l, k, m, r.left), r.key, r.marked, r.right);
    } else {
      var c := r.left;
      Heights(c);
      MakeBalanced(l, k, m, c.left);
      MakeBalanced(c.right, r.key, r.marked, r.right);
      MakeBalanced(Make(l, k, m, c.left), c.key, c.marked, Make(c.right, r.key, r.marked, r.right));
    }
  }

  lemma HeightIsTrue(t: Tree)
    requires Balanced(t)
    ensures H(t) == TrueHeight(t)
  {
  }

  /** Insertion keeps stored heights exact and balances within one, through every rotation case; the
      height grows by at most one, and where it grows the subtree leans towards the key. */
  lemma {:induction false} InsertKeepsBalance(t: Tree, key: nat)
    requires Balanced(t)
    ensures Balanced(Insert(t, key))
    ensures H(t) <= H(Insert(t, key)) <= H(t) + 1
    ensures H(Insert(t, key)) == H(t) + 1 ==> Leans(Insert(t, key), key) && (t.Node? ==> key != Insert(t, key).key)
  {
    if t.Node? {
      HeightIsTrue(t.left); HeightIsTrue(t.right);
      if key < t.key {
        InsertKeepsBalance(t.left, key);
        RebalanceLeft(Insert(t.left, key), t.key, t.marked, t.right, key);
      } else if key > t.key {
        InsertKeepsBalance(t.right, key);
        RebalanceRight(t.left, t.key, t.marked, Insert(t.right, key), key);
      }
    }
  }

  /** Where a double rotation is chosen, the inner node it needs is there. */
  predicate InnerNodes(l: Tree, r: Tree, key: nat) {
    && (H(l) - H(r) > 1 && l.Node? && key > l.key ==> l.right.Node?)
    && (H(l) - H(r) < -1 && r.Node? && key < r.key ==> r.left.Node?)
  }

  lemma {:induction false} InsertStep(t: Tree, key: nat)
    requires Balanced(t) && t.Node?
    ensures key < t.key ==> InnerNodes(Insert(t.left, key), t.right, key)
                            && Insert(t, key) == Rebalance(Make(Insert(t.left, key), t.key, t.marked, t.right), key)
    ensures key > t.key ==> InnerNodes(t.left, Insert(t.right, key), key)
                            && Insert(t, key) == Rebalance(Make(t.left, t.key, t.marked, Insert(t.right, key)), key)
  {
    if key < t.key {
      InsertKeepsBalance(t.left, key);
      if Insert(t.left, key).Node? { Heights(Insert(t.left, key)); }
    } else if key > t.key {
      InsertKeepsBalance(t.right, key);
      if Insert(t.right, key).Node? { Heights(Insert(t.right, key)); }
    }
  }

  // ------------------------------------------------------------------ marking and searching

  lemma {:induction false} MarkSetsMark(t: Tree, key: nat, lo: int, hi: int, q: nat)
    requires Within(t, lo, hi)
    ensures Within(Mark(t, key), lo, hi)
    ensures MarkOf(Mark(t, key), q) == if q == key && MarkOf(t, q).Some? then Some(true) else MarkOf(t, q)
  {
    if t.Node? {
      if key < t.key { MarkSetsMark(t.left, key, lo, t.key, q); }
      else if key > t.key { MarkSetsMark(t.right, key, t.key, hi, q); }
    }
  }

  lemma {:induction false} MarkKeepsBalance(t: Tree, key: nat)
    requires Balanced(t)
    ensures Balanced(Mark(t, key)) && TrueHeight(Mark(t, key)) == TrueHeight(t) && H(Mark(t, key)) == H(t)
  {
    if t.Node? {
      if key < t.key { MarkKeepsBalance(t.left, key); }
      else if key > t.key { MarkKeepsBalance(t.right, key); }
    }
  }

  lemma {:induction false} ContainsIsPresence(t: Tree, key: nat)
    ensures Contains(t, key) <==> MarkOf(t, key).Some?
  {
    if t.Node? { ContainsIsPresence(t.left, key); ContainsIsPresence(t.right, key); }
  }

  datatype Op = Add(key: nat) | SetMark(key: nat)

  function Run(ops: seq<Op>): Tree {
    if ops == [] then Leaf
    else
      var t := Run(ops[..|ops| - 1]);
      match ops[|ops| - 1]
      case Add(k) => Insert(t, k)
      case SetMark(k) => Mark(t, k)
  }

  /** The map from key to mark that the same operations build. */
  function Meant(ops: seq<Op>): map<nat, bool> {
    if ops == [] then map[]
    else
      var m := Meant(ops[..|ops| - 1]);
      match ops[|ops| - 1]
      case Add(k) => if k in m then m else m[k := false]
      case SetMark(k) => if k in m then m[k := true] else m
  }

  function Lookup(m: map<nat, bool>, q: nat): Option<bool> { if q in m then Some(m[q]) else None }

  function Bound(ops: seq<Op>): nat {
    if ops == [] then 0 else Max(Bound(ops[..|ops| - 1]), ops[|ops| - 1].key + 1) as nat
  }

  lemma {:induction false} RunWithin(ops: seq<Op>, hi: nat, q: nat)
    requires Bound(ops) <= hi
    ensures Within(Run(ops), -1, hi) && Balanced(Run(ops)) && MarkOf(Run(ops), q) == Lookup(Meant(ops), q)
  {
    if ops != [] {
      var front, last := ops[..|ops| - 1], ops[|ops| - 1];
      RunWithin(front, hi, q);
      match last
      case Add(k) =>
        InsertAddsKey(Run(front), k, -1, hi, q);
        InsertKeepsBalance(Run(front), k);
      case SetMark(k) =>
        MarkSetsMark(Run(front), k, -1, hi, q);
        MarkKeepsBalance(Run(front), k);
    }
  }

  /** After every sequence of insertions and markings the tree is a search tree with exact heights and
      balances in {-1, 0, 1}, and stands for the map that the operations build. */
  lemma TreeRefinesMap(ops: seq<Op>, q: nat)
    ensures Avl(Run(ops)) && MarkOf(Run(ops), q) == Lookup(Meant(ops), q)
    ensures Contains(Run(ops), q) <==> q in Meant(ops)
  {
    RunWithin(ops, Bound(ops), q);
    ContainsIsPresence(Run(ops), q);
  }

  // ------------------------------------------------------------------ size

  function Size(t: Tree): nat { if t.Leaf? then 0 else 1 + Size(t.left) + Size(t.right) }

  function Fib(n: nat): nat { if n < 2 then n else Fib(n - 2) + Fib(n - 1) }

  lemma {:induction false} FibGrows(n: nat)
    ensures Fib(n) <= Fib(n + 1)
  {
    if n >= 2 { FibGrows(n - 2); FibGrows(n - 1); }
  }

  /** A balanced tree of height h has at least Fib(h + 2) - 1 nodes, so its height is logarithmic. */
  lemma {:induction false} SizeAtLeastFib(t: Tree)
    requires Balanced(t)
    ensures Size(t) + 1 >= Fib(TrueHeight(t) + 2)
  {
    if t.Node? {
      SizeAtLeastFib(t.left);
      SizeAtLeastFib(t.right);
      HeightIsTrue(t.left);
      HeightIsTrue(t.right);
      FibOfParent(TrueHeight(t.left), TrueHeight(t.right));
    }
  }

  lemma FibOfParent(a: nat, b: nat)
    requires -1 <= a - b <= 1
    ensures Fib(a + 2) + Fib(b + 2) >= Fib(1 + Max(a, b) + 2)
  {
    var h := 1 + Max(a, b);
    assert Fib(h + 2) == Fib(h) + Fib(h + 1);
    FibGrows(h);
    assert a + 2 == h || a + 2 == h + 1;
    assert b + 2 == h || b + 2 == h + 1;
  }

  // ------------------------------------------------------------------ in-order traversal

  lemma {:induction false} InorderIncreases(t: Tree, lo: int, hi: int)
    requires Within(t, lo, hi)
    ensures Increasing(Inorder(t)) && forall x :: x in Inorder(t) ==> lo < x < hi
  {
    if t.Node? {
      InorderIncreases(t.left, lo, t.key);
      InorderIncreases(t.right, t.key, hi);
      var l, r := Inorder(t.left), Inorder(t.right);
      forall i, j | 0 <= i < j < |Inorder(t)| ensures Inorder(t)[i] < Inorder(t)[j] {
        assert i < |l| ==> l[i] in l;
        assert j > |l| ==> r[j - |l| - 1] in r;
      }
    }
  }

  lemma {:induction false} InorderLists(t: Tree, lo: int, hi: int, q: nat)
    requires Within(t, lo, hi)
    ensures q in Inorder(t) <==> MarkOf(t, q).Some?
    ensures |Inorder(t)| == Size(t)
  {
    if t.Node? {
      InorderLists(t.left, lo, t.key, q);
      InorderLists(t.right, t.key, hi, q);
      InorderIncreases(t.left, lo, t.key);
      InorderIncreases(t.right, t.key, hi);
    }
  }

  // ------------------------------------------------------------------ the tree built from an array

  function Adds(keys: seq<nat>): seq<Op> { seq(|keys|, i requires 0 <= i < |keys| => Add(keys[i])) }

  function Build(keys: seq<nat>): Tree { Run(Adds(keys)) }

  lemma BuildAppends(keys: seq<nat>, k: nat)
    ensures Build(keys + [k]) == Insert(Build(keys), k)
  {
    assert Adds(keys + [k])[..|keys|] == Adds(keys);
  }

  lemma BuildBalanced(keys: seq<nat>)
    ensures Balanced(Build(keys))
  {
    RunWithin(Adds(keys), Bound(Adds(keys)), 0);
  }

  /** The distinct values of s in increasing order, as the traversal delivers them. */
  function Ascending(s: seq<nat>): seq<nat> { Inorder(Build(s)) }

  lemma {:induction false} MeantOfAdds(keys: seq<nat>, q: nat)
    ensures q in Meant(Adds(keys)) <==> q in keys
  {
    if keys != [] {
      var front := keys[..|keys| - 1];
      MeantOfAdds(front, q);
      assert Adds(keys)[..|keys| - 1] == Adds(front);
      assert keys == front + [keys[|keys| - 1]];
    }
  }

  lemma AscendingLists(s: seq<nat>)
    ensures Increasing(Ascending(s)) && |Ascending(s)| <= |s| && Balanced(Build(s))
    ensures forall q :: q in Ascending(s) <==> q in s
  {
    var ops := Adds(s);
    RunWithin(ops, Bound(ops), 0);
    InorderIncreases(Build(s), -1, Bound(ops));
    forall q ensures q in Ascending(s) <==> q in s {
      if q >= 0 {
        RunWithin(ops, Bound(ops), q);
        InorderLists(Build(s), -1, Bound(ops), q);
        MeantOfAdds(s, q);
      }
    }
    IncreasingIsShort(Ascending(s), s);
  }

  /** A sequence without repetition is no longer than any sequence with the same members. */
  lemma {:induction false} IncreasingIsShort(p: seq<nat>, s: seq<nat>)
    requires Increasing(p) && forall q :: q in p ==> q in s
    ensures |p| <= |s|
    ensures |p| == |s| ==> multiset(p) == multiset(s)
  {
    if p != [] {
      var x, front := p[|p| - 1], p[..|p| - 1];
      assert x in p;
      var i :| 0 <= i < |s| && s[i] == x;
      var rest := s[..i] + s[i + 1..];
      forall q | q in front ensures q in rest {
        var j :| 0 <= j < |front| && front[j] == q;
        assert q in p && q != x;
        StaysIn(s, i, q);
      }
      IncreasingIsShort(front, rest);
      WithOne(p, s, i);
    }
  }

  lemma StaysIn(s: seq<nat>, i: nat, q: nat)
    requires i < |s| && q in s && q != s[i]
    ensures q in s[..i] + s[i + 1..]
  {
    assert s == s[..i] + [s[i]] + s[i + 1..];
  }

  lemma WithOne(p: seq<nat>, s: seq<nat>, i: nat)
    requires p != [] && i < |s| && s[i] == p[|p| - 1]
    ensures multiset(p[..|p| - 1]) == multiset(s[..i] + s[i + 1..]) ==> multiset(p) == multiset(s)
  {
    assert p == p[..|p| - 1] + [p[|p| - 1]];
    assert s == s[..i] + [s[i]] + s[i + 1..];
  }
}
