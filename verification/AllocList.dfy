/** Forkscan's record of its own memory (alloc.c): a circular doubly linked list of blocks, sorted by
    address, and the carving of memory ranges around those blocks (alloc.c and collect_ranges of
    child.c).  Nodes live at addresses; the link fields of all nodes are two maps from node to node. */
module AllocList {
  import opened Words

  type Ptr = nat
  const NULL: Ptr := 0

  const ALLOC_BLOCKSIZE := 4096
  const NODE_SIZE := 40
  const MAX_RANGE_SIZE := 8 * 1024 * 1024
  const MAX_RANGES := 0x10000

  /** A range of addresses that Forkscan owns. */
  datatype Block = Block(addr: nat, length: nat)
  {
    function High(): nat { addr + length }
  }

  type Links = map<Ptr, Ptr>

  function NextIn(q: seq<Ptr>, i: nat): Ptr
    requires i < |q|
  {
    if i + 1 < |q| then q[i + 1] else q[0]
  }

  /** next and prev link the nodes q into a circle, in this order. */
  ghost predicate Linked(next: Links, prev: Links, q: seq<Ptr>) {
    && Distinct(q)
    && forall i :: 0 <= i < |q| ==> LinkedAt(next, prev, q, i)
  }

  ghost predicate Distinct(q: seq<Ptr>) {
    forall i, j :: 0 <= i < j < |q| ==> Differ(q, i, j)
  }

  ghost predicate Differ(q: seq<Ptr>, i: nat, j: nat)
    requires i < j < |q|
  {
    q[i] != q[j]
  }

  lemma AllDiffer(q: seq<Ptr>)
    requires Distinct(q)
    ensures forall i, j :: 0 <= i < |q| && 0 <= j < |q| && i != j ==> q[i] != q[j]
  {
    forall i, j | 0 <= i < |q| && 0 <= j < |q| && i != j ensures q[i] != q[j] {
      if i < j { assert Differ(q, i, j); } else { assert Differ(q, j, i); }
    }
  }

  ghost predicate LinkedAt(next: Links, prev: Links, q: seq<Ptr>, i: nat)
    requires i < |q|
  {
    q[i] in next && NextIn(q, i) in prev && next[q[i]] == NextIn(q, i) && prev[NextIn(q, i)] == q[i]
  }

  function Inserted<T>(q: seq<T>, k: nat, x: T): seq<T>
    requires k <= |q|
  {
    q[..k] + [x] + q[k..]
  }

  function Without<T>(q: seq<T>, k: nat): seq<T>
    requires k < |q|
  {
    q[..k] + q[k + 1..]
  }

  /** The place before place k of the circle. */
  function Before(q: seq<Ptr>, k: nat): nat
    requires k <= |q| && |q| > 0
  {
    if k > 0 then k - 1 else |q| - 1
  }

  lemma LinkedInAt(next: Links, prev: Links, q: seq<Ptr>, k: nat, m: Ptr, c: Ptr, i: nat)
    requires Linked(next, prev, q) && m !in q && k <= |q| && |q| > 0 && c == (if k < |q| then q[k] else q[0])
    requires i <= |q|
    ensures LinkedAt(next[m := c][q[Before(q, k)] := m], prev[m := q[Before(q, k)]][c := m], Inserted(q, k, m), i)
  {
    AllDiffer(q);
    var r := Inserted(q, k, m);
    if i < k {
      assert r[i] == q[i] && LinkedAt(next, prev, q, i);
      if i + 1 < k { assert NextIn(r, i) == q[i + 1] == NextIn(q, i); } else { assert NextIn(r, i) == m; }
    } else if i == k {
      assert r[i] == m && NextIn(r, i) == c;
    } else {
      assert r[i] == q[i - 1] && LinkedAt(next, prev, q, i - 1);
      if i < |q| { assert NextIn(r, i) == q[i] == NextIn(q, i - 1); }
      else { assert NextIn(r, i) == r[0] && NextIn(q, i - 1) == q[0]; }
    }
  }

  /** Linking m in before c: with c the node at k it gets place k; with c the first node it can also be
      seen to get the last place. */
  lemma LinkedIn(next: Links, prev: Links, q: seq<Ptr>, k: nat, m: Ptr, c: Ptr)
    requires Linked(next, prev, q) && m !in q && k <= |q| && |q| > 0 && c == (if k < |q| then q[k] else q[0])
    ensures c in prev && prev[c] in next
    ensures Linked(next[m := c][prev[c] := m], prev[m := prev[c]][c := m], Inserted(q, k, m))
  {
    AllDiffer(q);
    var r, b := Inserted(q, k, m), q[Before(q, k)];
    assert LinkedAt(next, prev, q, Before(q, k)) && NextIn(q, Before(q, k)) == c;
    var next', prev' := next[m := c][b := m], prev[m := b][c := m];
    forall i | 0 <= i < |r| ensures LinkedAt(next', prev', r, i) {
      LinkedInAt(next, prev, q, k, m, c, i);
    }
    assert forall i :: 0 <= i < |r| ==> r[i] == (if i < k then q[i] else if i == k then m else q[i - 1]);
  }

  lemma LinkedOutAt(next: Links, prev: Links, q: seq<Ptr>, k: nat, i: nat)
    requires Linked(next, prev, q) && k < |q| && |q| > 1 && i + 1 < |q|
    ensures LinkedAt(next[q[Before(q, k)] := NextIn(q, k)], prev[NextIn(q, k) := q[Before(q, k)]], Without(q, k), i)
  {
    AllDiffer(q);
    var r := Without(q, k);
    if i < k {
      assert r[i] == q[i] && LinkedAt(next, prev, q, i);
      if i + 1 < k { assert NextIn(r, i) == q[i + 1]; } else { assert NextIn(r, i) == NextIn(q, k); }
    } else {
      assert r[i] == q[i + 1] && LinkedAt(next, prev, q, i + 1);
      if i + 2 < |q| { assert NextIn(r, i) == q[i + 2]; } else { assert NextIn(r, i) == r[0]; }
    }
  }

  /** Taking the node at k out of a circle of at least two. */
  lemma LinkedOut(next: Links, prev: Links, q: seq<Ptr>, k: nat)
    requires Linked(next, prev, q) && k < |q| && |q| > 1
    ensures q[k] in next && q[k] in prev && next[q[k]] == NextIn(q, k) && next[q[k]] in prev && prev[q[k]] in next
    ensures Linked(next[prev[q[k]] := next[q[k]]], prev[next[q[k]] := prev[q[k]]], Without(q, k))
  {
    AllDiffer(q);
    var r, a, b := Without(q, k), NextIn(q, k), q[Before(q, k)];
    assert LinkedAt(next, prev, q, k) && LinkedAt(next, prev, q, Before(q, k)) && NextIn(q, Before(q, k)) == q[k];
    var next', prev' := next[b := a], prev[a := b];
    forall i | 0 <= i < |r| ensures LinkedAt(next', prev', r, i) { LinkedOutAt(next, prev, q, k, i); }
    assert forall i :: 0 <= i < |r| ==> r[i] == (if i < k then q[i] else q[i + 1]);
  }

  lemma InsertedMembers<T>(q: seq<T>, k: nat, x: T)
    requires k <= |q|
    ensures forall m :: m in Inserted(q, k, x) <==> m == x || m in q
  {
    assert q == q[..k] + q[k..];
  }

  lemma WithoutMembers(q: seq<Ptr>, k: nat)
    requires k < |q| && Distinct(q)
    ensures forall m :: m in Without(q, k) <==> m in q && m != q[k]
  {
    AllDiffer(q);
    var r := Without(q, k);
    forall m | m in q && m != q[k] ensures m in r {
      var i :| 0 <= i < |q| && q[i] == m;
      assert i < k ==> r[i] == m;
      assert i > k ==> r[i - 1] == m;
    }
  }

  /** after is before with b inserted somewhere. */
  ghost predicate Gained(before: seq<Block>, after: seq<Block>, b: Block) {
    exists k :: 0 <= k <= |before| && after == Inserted(before, k, b)
  }

  ghost predicate GainedBoth(before: seq<Block>, after: seq<Block>, page: Block, b: Block) {
    exists mid :: Gained(before, mid, page) && Gained(mid, after, b)
  }

  lemma StillClear(before: seq<Block>, after: seq<Block>, page: Block, b: Block)
    requires Gained(before, after, page) && Clear(before, b) && (page.High() <= b.addr || b.High() <= page.addr)
    ensures Clear(after, b)
  {
    var k :| 0 <= k <= |before| && after == Inserted(before, k, page);
    InsertedMembers(before, k, page);
    forall i | 0 <= i < |after| ensures after[i].High() <= b.addr || b.High() <= after[i].addr {
      assert after[i] in after;
    }
  }

  // ------------------------------------------------------------------ blocks in order

  /** Blocks are not empty, apart, and in order of address. */
  ghost predicate Sorted(q: seq<Block>) {
    forall i, j :: 0 <= i <= j < |q| ==> Below(q, i, j)
  }

  ghost predicate Below(q: seq<Block>, i: nat, j: nat)
    requires i <= j < |q|
  {
    if i < j then q[i].High() <= q[j].addr else q[i].length > 0
  }

  lemma AllBelow(q: seq<Block>)
    requires Sorted(q)
    ensures forall i :: 0 <= i < |q| ==> q[i].length > 0
    ensures forall i, j :: 0 <= i < j < |q| ==> q[i].High() <= q[j].addr
  {
    forall i | 0 <= i < |q| ensures q[i].length > 0 { assert Below(q, i, i); }
    forall i, j | 0 <= i < j < |q| ensures q[i].High() <= q[j].addr { assert Below(q, i, j); }
  }

  /** b overlaps none of q. */
  ghost predicate Clear(q: seq<Block>, b: Block) {
    forall i :: 0 <= i < |q| ==> q[i].High() <= b.addr || b.High() <= q[i].addr
  }

  /** Where b belongs among the blocks. */
  ghost predicate Fits(q: seq<Block>, k: nat, b: Block) {
    && k <= |q| && b.length > 0 && Clear(q, b)
    && (forall i :: 0 <= i < k ==> q[i].addr < b.High()) && (k < |q| ==> b.High() <= q[k].addr)
  }

  lemma SortedInserted(q: seq<Block>, k: nat, b: Block)
    requires Sorted(q) && Fits(q, k, b)
    ensures Sorted(Inserted(q, k, b))
  {
    AllBelow(q);
    var r := Inserted(q, k, b);
    assert forall i :: 0 <= i < |r| ==> r[i] == (if i < k then q[i] else if i == k then b else q[i - 1]);
    forall i | 0 <= i < k ensures q[i].High() <= b.addr {}
    forall i | k <= i < |q| ensures b.High() <= q[i].addr { if i > k { assert q[k].High() <= q[i].addr; } }
  }

  lemma SortedWithout(q: seq<Block>, k: nat)
    requires Sorted(q) && k < |q|
    ensures Sorted(Without(q, k))
  {
    AllBelow(q);
    var r := Without(q, k);
    assert forall i :: 0 <= i < |r| ==> r[i] == (if i < k then q[i] else q[i + 1]);
  }

  lemma LastFits(q: seq<Block>, b: Block)
    requires Sorted(q) && q != [] && q[|q| - 1].High() <= b.addr && b.length > 0
    ensures Fits(q, |q|, b)
  {
    AllBelow(q);
    forall i | 0 <= i < |q| ensures q[i].High() <= b.addr {
      if i < |q| - 1 { assert q[i].High() <= q[|q| - 1].addr; }
    }
  }

  /** The nodes q hold the blocks bs. */
  ghost predicate Records(block: map<Ptr, Block>, q: seq<Ptr>, bs: seq<Block>) {
    |q| == |bs| && forall i :: 0 <= i < |q| ==> q[i] in block && block[q[i]] == bs[i]
  }

  lemma RecordsInserted(block: map<Ptr, Block>, q: seq<Ptr>, bs: seq<Block>, k: nat, m: Ptr)
    requires Records(block, q, bs) && k <= |q| && m in block
    ensures Records(block, Inserted(q, k, m), Inserted(bs, k, block[m]))
  {
  }

  ghost predicate ListOk(head: Ptr, next: Links, prev: Links, block: map<Ptr, Block>, q: seq<Ptr>, bs: seq<Block>) {
    && head == (if q == [] then NULL else q[0]) && NULL !in q
    && Linked(next, prev, q) && Records(block, q, bs) && Sorted(bs)
  }

  lemma InsertOk(head: Ptr, next: Links, prev: Links, block: map<Ptr, Block>, q: seq<Ptr>, bs: seq<Block>,
      k: nat, m: Ptr, c: Ptr)
    requires ListOk(head, next, prev, block, q, bs) && q != [] && m != NULL && m !in q && m in block
    requires Fits(bs, k, block[m])
    requires c == (if k < |q| then q[k] else q[0])
    ensures c in prev && prev[c] in next
    ensures ListOk(if k == 0 then m else head, next[m := c][prev[c] := m], prev[m := prev[c]][c := m], block,
                   Inserted(q, k, m), Inserted(bs, k, block[m]))
  {
    LinkedIn(next, prev, q, k, m, c);
    SortedInserted(bs, k, block[m]);
    RecordsInserted(block, q, bs, k, m);
  }

  lemma FreshBlockOk(head: Ptr, next: Links, prev: Links, block: map<Ptr, Block>, q: seq<Ptr>, bs: seq<Block>,
      m: Ptr, b: Block)
    requires ListOk(head, next, prev, block, q, bs) && m !in q
    ensures ListOk(head, next, prev, block[m := b], q, bs)
  {
  }

  lemma FirstOk(next: Links, prev: Links, block: map<Ptr, Block>, m: Ptr)
    requires m != NULL && m in block && block[m].length > 0
    ensures ListOk(m, next[m := m], prev[m := m], block, [m], [block[m]])
  {
    assert LinkedAt(next[m := m], prev[m := m], [m], 0);
  }

  lemma RemoveOk(head: Ptr, next: Links, prev: Links, block: map<Ptr, Block>, q: seq<Ptr>, bs: seq<Block>, k: nat)
    requires ListOk(head, next, prev, block, q, bs) && k < |q| && |q| > 1
    ensures q[k] in next && q[k] in prev
    ensures ListOk(if q[k] == head then next[q[k]] else head,
                   next[prev[q[k]] := next[q[k]]], prev[next[q[k]] := prev[q[k]]], block,
                   Without(q, k), Without(bs, k))
  {
    LinkedOut(next, prev, q, k);
    SortedWithout(bs, k);
    AllDiffer(q);
    assert q[k] == head <==> k == 0;
  }

  /** The case that must not arise: unlinking the only node leaves the head on it. */
  lemma RemoveOnlyKeepsHead(head: Ptr, next: Links, prev: Links, block: map<Ptr, Block>, m: Ptr, b: Block)
    requires ListOk(head, next, prev, block, [m], [b])
    ensures m in next && m in prev && head == m && next[m] == m
    ensures forall next', prev' :: !ListOk(next[m], next', prev', block, [], [])
  {
    assert LinkedAt(next, prev, [m], 0);
  }

  lemma StepNext(head: Ptr, next: Links, prev: Links, block: map<Ptr, Block>, q: seq<Ptr>, bs: seq<Block>, k: nat)
    requires ListOk(head, next, prev, block, q, bs) && k < |q|
    ensures q[k] in next && q[k] in block && block[q[k]] == bs[k] && next[q[k]] == NextIn(q, k)
    ensures head in prev && prev[head] in block && block[prev[head]] == bs[|q| - 1]
  {
    assert LinkedAt(next, prev, q, k) && LinkedAt(next, prev, q, |q| - 1);
  }

  /** [low, lo) is owned; the first k blocks end at or before lo, unless lo is the end of the range, and
      block k after it. */
  ghost predicate Skipped(q: seq<Block>, low: nat, high: nat, lo: nat, k: nat) {
    && k < |q| && low <= lo <= high && q[k].High() > lo && OwnedUpTo(q, low, lo) && EndBefore(q, k, lo, high)
  }

  ghost predicate OwnedUpTo(q: seq<Block>, low: nat, lo: nat) { forall x :: low <= x < lo ==> Owned(q, x) }

  ghost predicate EndBefore(q: seq<Block>, k: nat, lo: nat, high: nat)
    requires k <= |q|
  {
    forall i :: 0 <= i < k ==> q[i].High() <= lo || lo == high
  }

  /** Stepping over block k, which begins at or before lo. */
  lemma SkipOne(q: seq<Block>, low: nat, high: nat, lo: nat, k: nat)
    requires Sorted(q) && Skipped(q, low, high, lo, k) && q[k].addr <= lo
    ensures var next := Min(q[k].High(), high);
      && low <= next <= high && OwnedUpTo(q, low, next) && EndBefore(q, k + 1, next, high)
      && (if k + 1 < |q| then q[k + 1].High() > next else q[0].addr <= next)
  {
    var next := Min(q[k].High(), high);
    forall x | low <= x < next ensures Owned(q, x) {
      if x >= lo { assert q[k].addr <= x < q[k].High(); } else { assert Owned(q, x); }
    }
    if k + 1 < |q| {
      assert Below(q, k, k + 1) && Below(q, k + 1, k + 1);
    } else {
      assert Below(q, 0, k) && Below(q, 0, 0);
    }
  }

  /** As many nodes as begin before the last whole node of a page. */
  const NODES_PER_PAGE := 102

  /** The nodes of the page at p from the second to the one before the k-th; the first records the page. */
  ghost function CutTo(p: Ptr, k: nat): set<Ptr> { set j: nat | 1 <= j < k :: p + NODE_SIZE * j }

  ghost function PageNodes(p: Ptr): set<Ptr> { CutTo(p, NODES_PER_PAGE) }

  lemma CutNone(p: Ptr)
    ensures CutTo(p, 1) == {}
  {
  }

  lemma CutMore(p: Ptr, k: nat)
    requires k >= 1
    ensures CutTo(p, k + 1) == CutTo(p, k) + {p + NODE_SIZE * k}
  {
  }

  lemma PageHasNodes(p: Ptr)
    ensures PageNodes(p) != {} && forall m :: m in PageNodes(p) ==> p < m < p + ALLOC_BLOCKSIZE
  {
    CutMore(p, NODES_PER_PAGE - 1);
  }

  class List {
    var head: Ptr
    var next: Links
    var prev: Links
    var block: map<Ptr, Block>
    /** The nodes not in use; the order in which they are taken is left open. */
    var free: set<Ptr>

    /** The nodes on the list in order, their blocks, and the nodes that stand for pages of nodes. */
    ghost var nodes: seq<Ptr>
    ghost var blocks: seq<Block>
    ghost var pages: set<Ptr>

    ghost predicate InOrder()
      reads this
    {
      ListOk(head, next, prev, block, nodes, blocks)
    }

    /** A page of nodes is on the list as soon as there is any node, and stays on it. */
    ghost predicate Valid()
      reads this
    {
      && InOrder()
      && (forall m :: m in pages ==> m in nodes)
      && (nodes != [] || free != {} ==> pages != {})
      && (forall m :: m in free ==> m !in nodes && m != NULL)
    }

    constructor ()
      ensures Valid() && nodes == [] && free == {} && blocks == [] && pages == {}
    {
      head, next, prev, block, free := NULL, map[], map[], map[], {};
      nodes, blocks, pages := [], [], {};
    }

    /** metadata_do_insert.  The walk of the last case ends because the last block then lies above. */
    method DoInsert(meta: Ptr) returns (ghost k: nat)
      requires InOrder() && meta != NULL && meta !in nodes && meta in block && block[meta].length > 0
      requires Clear(blocks, block[meta])
      modifies this`head, this`next, this`prev, this`nodes, this`blocks
      ensures InOrder() && k <= |old(nodes)| && k <= |old(blocks)|
      ensures nodes == Inserted(old(nodes), k, meta) && blocks == Inserted(old(blocks), k, block[meta])
    {
      if head == NULL {
        k := 0;
        FirstOk(next, prev, block, meta);
        head := meta;
        next, prev := next[meta := meta], prev[meta := meta];
        nodes, blocks := [meta], [block[meta]];
        return;
      }
      StepNext(head, next, prev, block, nodes, blocks, 0);
      if block[prev[head]].High() <= block[meta].addr {
        k := |nodes|;
        LastFits(blocks, block[meta]);
        InsertOk(head, next, prev, block, nodes, blocks, k, meta, head);
        LinkBefore(head, meta);
      } else {
        var curr;
        curr, k := Walk(meta);
        InsertOk(head, next, prev, block, nodes, blocks, k, meta, curr);
        LinkBefore(curr, meta);
        if curr == head { head := meta; }
      }
      nodes, blocks := Inserted(nodes, k, meta), Inserted(blocks, k, block[meta]);
    }

    /** The four assignments that put meta into the circle before curr. */
    method LinkBefore(curr: Ptr, meta: Ptr)
      requires curr in prev
      modifies this`next, this`prev
      ensures next == old(next)[meta := curr][old(prev)[curr] := meta]
      ensures prev == old(prev)[meta := old(prev)[curr]][curr := meta]
    {
      var before := prev[curr];
      next := next[meta := curr];
      prev := prev[meta := before];
      next := next[before := meta];
      prev := prev[curr := meta];
    }

    method Walk(meta: Ptr) returns (curr: Ptr, ghost k: nat)
      requires InOrder() && nodes != [] && meta in block && block[meta].length > 0 && Clear(blocks, block[meta])
      requires !(blocks[|blocks| - 1].High() <= block[meta].addr)
      ensures k < |nodes| && curr == nodes[k] && Fits(blocks, k, block[meta]) && (curr == head <==> k == 0)
    {
      curr, k := head, 0;
      StepNext(head, next, prev, block, nodes, blocks, k);
      while block[curr].addr < block[meta].High()
        invariant k < |nodes| && curr == nodes[k] && curr in block && block[curr] == blocks[k]
        invariant forall i :: 0 <= i < k ==> blocks[i].addr < block[meta].High()
        decreases |nodes| - k
      {
        StepNext(head, next, prev, block, nodes, blocks, k);
        curr := next[curr];
        k := k + 1;
        StepNext(head, next, prev, block, nodes, blocks, k);
      }
    }

    method FindAt(addr: nat, ghost at: nat) returns (curr: Ptr)
      requires InOrder() && at < |nodes| && blocks[at].addr == addr
      ensures curr == nodes[at]
    {
      curr := head;
      ghost var k := 0;
      StepNext(head, next, prev, block, nodes, blocks, k);
      while block[curr].addr != addr
        invariant k <= at && curr == nodes[k] && curr in block && block[curr] == blocks[k]
        decreases at - k
      {
        StepNext(head, next, prev, block, nodes, blocks, k);
        curr := next[curr];
        k := k + 1;
        StepNext(head, next, prev, block, nodes, blocks, k);
      }
      assert Below(blocks, k, k) && Below(blocks, k, at);
    }

    /** metadata_remove.  It demands that a block was recorded at addr by alloc_mmap, that is, by a node
        that is not a page of nodes; so the list never loses its only node. */
    method Remove(addr: nat, ghost at: nat) returns (curr: Ptr)
      requires Valid() && at < |nodes| && blocks[at].addr == addr && nodes[at] !in pages
      modifies this`head, this`next, this`prev, this`nodes, this`blocks
      ensures Valid() && at < |old(nodes)| && at < |old(blocks)| && curr == old(nodes)[at] && curr !in nodes
      ensures nodes == Without(old(nodes), at) && blocks == Without(old(blocks), at) && nodes != []
    {
      curr := FindAt(addr, at);
      ghost var was := nodes;
      MoreThanPages(at);
      RemoveOk(head, next, prev, block, nodes, blocks, at);
      var a, b := next[curr], prev[curr];
      prev := prev[a := b];
      next := next[b := a];
      if curr == head { head := a; }
      nodes, blocks := Without(nodes, at), Without(blocks, at);
      WithoutMembers(was, at);
    }

    lemma MoreThanPages(at: nat)
      requires Valid() && at < |nodes| && nodes[at] !in pages
      ensures |nodes| > 1
    {
      var page :| page in pages;
      var i :| 0 <= i < |nodes| && nodes[i] == page;
    }

    /** metadata_new.  When no node is free, a page at p is recorded and cut into nodes of 40 bytes; p is
        what mmap returns, so it overlaps no recorded block and no node lies in it yet. */
    method New(p: Ptr) returns (meta: Ptr)
      requires Valid() && p != NULL && Clear(blocks, Block(p, ALLOC_BLOCKSIZE))
      requires forall m :: m in nodes ==> m < p || p + ALLOC_BLOCKSIZE <= m
      modifies this
      ensures Valid() && meta != NULL && meta !in nodes && meta !in free && pages != {}
      ensures free + {meta} == if old(free) != {} then old(free) else PageNodes(p)
      ensures old(free) != {} ==> nodes == old(nodes) && blocks == old(blocks) && pages == old(pages)
      ensures old(free) == {} ==> pages == old(pages) + {p} && Gained(old(blocks), blocks, Block(p, ALLOC_BLOCKSIZE))
    {
      if free == {} { MakePage(p); }
      meta :| meta in free;
      free := free - {meta};
    }

    method MakePage(p: Ptr)
      requires Valid() && free == {} && p != NULL && Clear(blocks, Block(p, ALLOC_BLOCKSIZE))
      requires forall m :: m in nodes ==> m < p || p + ALLOC_BLOCKSIZE <= m
      modifies this
      ensures Valid() && free == PageNodes(p) && free != {} && pages == old(pages) + {p}
      ensures Gained(old(blocks), blocks, Block(p, ALLOC_BLOCKSIZE))
    {
      PageHasNodes(p);
      RecordPage(p);
      pages := pages + {p};
      CutPage(p);
    }

    /** The page's own first node records the page. */
    method RecordPage(p: Ptr)
      requires InOrder() && p != NULL && p !in nodes && Clear(blocks, Block(p, ALLOC_BLOCKSIZE))
      modifies this`head, this`next, this`prev, this`block, this`nodes, this`blocks
      ensures InOrder() && (forall m :: m in nodes <==> m in old(nodes) || m == p)
      ensures Gained(old(blocks), blocks, Block(p, ALLOC_BLOCKSIZE))
    {
      block := block[p := Block(p, ALLOC_BLOCKSIZE)];
      ghost var k := DoInsert(p);
      InsertedMembers(old(nodes), k, p);
    }

    /** The rest of the page at p, cut into free nodes. */
    method CutPage(p: Ptr)
      modifies this`free
      ensures free == old(free) + PageNodes(p)
    {
      var offset := NODE_SIZE;
      ghost var k := 1;
      CutNone(p);
      while offset < ALLOC_BLOCKSIZE - NODE_SIZE
        invariant 1 <= k <= NODES_PER_PAGE && offset == NODE_SIZE * k && free == old(free) + CutTo(p, k)
      {
        CutMore(p, k);
        free := free + {p + offset};
        offset := offset + NODE_SIZE;
        k := k + 1;
      }
    }

    /** alloc_mmap: a node is taken and the block that mmap returned, at addr, is recorded. */
    method AllocMmap(p: Ptr, addr: nat, size: nat) returns (meta: Ptr)
      requires Valid() && p != NULL && size > 0 && Clear(blocks, Block(p, ALLOC_BLOCKSIZE))
      requires Clear(blocks, Block(addr, size))
      requires forall m :: m in nodes ==> m < p || p + ALLOC_BLOCKSIZE <= m
      requires p + ALLOC_BLOCKSIZE <= addr || addr + size <= p
      modifies this
      ensures Valid() && meta in nodes && meta !in pages && meta in block && block[meta] == Block(addr, size)
      ensures old(free) != {} ==> Gained(old(blocks), blocks, Block(addr, size))
      ensures old(free) == {} ==> GainedBoth(old(blocks), blocks, Block(p, ALLOC_BLOCKSIZE), Block(addr, size))
      ensures meta !in free && free + {meta} == if old(free) != {} then old(free) else PageNodes(p)
    {
      ghost var was := blocks;
      meta := New(p);
      if was != blocks { StillClear(was, blocks, Block(p, ALLOC_BLOCKSIZE), Block(addr, size)); }
      Record(meta, Block(addr, size));
    }

    /** A node in neither list is given a block and put on the list. */
    method Record(meta: Ptr, b: Block)
      requires Valid() && pages != {} && meta != NULL && meta !in nodes && meta !in free && b.length > 0
      requires Clear(blocks, b)
      modifies this`head, this`next, this`prev, this`block, this`nodes, this`blocks
      ensures Valid() && meta in nodes && meta !in pages && meta in block && block[meta] == b
      ensures Gained(old(blocks), blocks, b)
    {
      FreshBlockOk(head, next, prev, block, nodes, blocks, meta, b);
      block := block[meta := b];
      assert meta !in pages;
      ghost var k := DoInsert(meta);
      InsertedMembers(old(nodes), k, meta);
    }

    /** forkscan_alloc_munmap: the node is taken off the list and returned to the free nodes. */
    method AllocMunmap(addr: nat, ghost at: nat)
      requires Valid() && at < |nodes| && blocks[at].addr == addr && nodes[at] !in pages
      modifies this
      ensures Valid() && at < |old(blocks)| && blocks == Without(old(blocks), at) && nodes != []
      ensures at < |old(nodes)| && free == old(free) + {old(nodes)[at]}
    {
      var meta := Remove(addr, at);
      free := free + {meta};
    }

    // ---------------------------------------------------------------- carving

    /** The node at place k, where the place after the last is the first again. */
    ghost function At(k: nat): Ptr
      reads this
      requires nodes != [] && k <= |nodes|
    {
      if k < |nodes| then nodes[k] else nodes[0]
    }

    lemma StepAt(k: nat)
      requires InOrder() && nodes != [] && k <= |nodes|
      ensures At(k) in next && At(k) in block && block[At(k)] == blocks[if k < |nodes| then k else 0]
      ensures k < |nodes| ==> next[At(k)] == At(k + 1) && (next[At(k)] == head <==> k + 1 == |nodes|)
    {
      StepNext(head, next, prev, block, nodes, blocks, if k < |nodes| then k else 0);
      AllDiffer(nodes);
    }

    method SkipBelow(low: nat) returns (curr: Ptr, ghost k: nat)
      requires InOrder() && nodes != []
      ensures k <= |nodes| && curr == At(k) && curr in block
      ensures (forall i :: 0 <= i < k ==> blocks[i].High() <= low) && (k < |nodes| ==> blocks[k].High() > low)
    {
      curr, k := head, 0;
      StepAt(0);
      while block[curr].High() <= low
        invariant k < |nodes| && curr == At(k) && curr in block
        invariant forall i :: 0 <= i < k ==> blocks[i].High() <= low
        decreases |nodes| - k
      {
        StepAt(k);
        curr := next[curr];
        k := k + 1;
        StepAt(k);
        if curr == head { break; }
      }
      StepAt(k);
    }

    method SkipOwned(from: Ptr, low: nat, high: nat, ghost fromK: nat) returns (lo: nat, curr: Ptr, ghost k: nat)
      requires InOrder() && fromK < |nodes| && from == At(fromK) && low < high
      requires (forall i :: 0 <= i < fromK ==> blocks[i].High() <= low) && blocks[fromK].High() > low
      requires blocks[fromK].addr < high
      ensures low <= lo <= high && fromK <= k <= |nodes| && curr == At(k) && curr in block
      ensures forall x :: low <= x < lo ==> Owned(blocks, x)
      ensures lo < high ==> forall i :: 0 <= i < k ==> blocks[i].High() <= lo
      ensures if k < |nodes| then blocks[k].addr > lo else blocks[0].addr <= lo
    {
      lo, curr, k := low, from, fromK;
      StepAt(k);
      while block[curr].addr <= lo
        invariant fromK <= k < |nodes| && curr == At(k) && curr in block && Skipped(blocks, low, high, lo, k)
        decreases |nodes| - k
      {
        StepAt(k);
        SkipOne(blocks, low, high, lo, k);
        if block[curr].High() >= lo { lo := Min(block[curr].High(), high); }
        curr := next[curr];
        k := k + 1;
        StepAt(k);
        if curr == head { break; }
      }
      StepAt(k);
    }

    /** metadata_break_range.  The chunk returned begins at the first address of the range that Forkscan
        does not own, is free throughout and ends where Forkscan owns the next address or the range ends;
        what comes before it in the range is owned; the rest of the range starts where the chunk ends, and
        is strictly smaller. */
    method BreakRange(low: nat, high: nat) returns (lo: nat, hi: nat)
      requires InOrder() && nodes != [] && low < high
      ensures low <= lo <= hi <= high && low < hi
      ensures forall x :: low <= x < lo ==> Owned(blocks, x)
      ensures forall x :: lo <= x < hi ==> !Owned(blocks, x)
      ensures hi == high || (lo < hi && Owned(blocks, hi))
    {
      lo, hi := low, high;
      var curr;
      ghost var k;
      curr, k := SkipBelow(low);
      StepAt(k);
      if block[curr].High() > lo && block[curr].addr < hi {
        lo, curr, k := SkipOwned(curr, lo, hi, k);
        StepAt(k);
        if block[curr].addr > lo {
          hi := Min(block[curr].addr, hi);
          StartIsOwned(blocks, k);
        }
      }
      FreeBetween(blocks, k, lo, hi);
    }
  }

  ghost predicate Owned(q: seq<Block>, x: nat) { exists i :: 0 <= i < |q| && q[i].addr <= x < q[i].High() }

  lemma StartIsOwned(q: seq<Block>, k: nat)
    requires Sorted(q) && q != [] && k <= |q|
    ensures var b := q[if k < |q| then k else 0]; Owned(q, b.addr)
  {
    var i := if k < |q| then k else 0;
    assert Below(q, i, i);
  }

  lemma FreeBetween(q: seq<Block>, k: nat, lo: nat, hi: nat)
    requires Sorted(q) && k <= |q| && (lo < hi ==> forall i :: 0 <= i < k ==> q[i].High() <= lo)
    requires (k < |q| ==> hi <= q[k].addr)
    ensures forall x :: lo <= x < hi ==> !Owned(q, x)
  {
    forall x | lo <= x < hi ensures !Owned(q, x) {
      forall i | 0 <= i < |q| ensures !(q[i].addr <= x < q[i].High()) {
        if i > k { assert Below(q, k, i) && Below(q, k, k); }
      }
    }
  }

  // ------------------------------------------------------------------ the ranges to scan

  ghost predicate Covers(q: seq<Range>, x: nat) { exists i :: 0 <= i < |q| && q[i].low <= x < q[i].high }

  /** Ascending, apart, none empty, none larger than a scanner's share. */
  ghost predicate Pieces(q: seq<Range>) {
    && (forall i :: 0 <= i < |q| ==> q[i].low < q[i].high <= q[i].low + MAX_RANGE_SIZE)
    && (forall i, j :: 0 <= i < j < |q| ==> q[i].high <= q[j].low)
  }

  function Bytes(q: seq<Range>): nat
    requires forall i :: 0 <= i < |q| ==> q[i].low <= q[i].high
  {
    if q == [] then 0 else Bytes(q[..|q| - 1]) + (q[|q| - 1].high - q[|q| - 1].low)
  }

  /** `q` is exactly the part of [low, high) outside `owned`, cut into pieces. */
  ghost predicate Carves(q: seq<Range>, owned: seq<Block>, low: nat, high: nat) {
    && Pieces(q)
    && (forall i :: 0 <= i < |q| ==> low <= q[i].low && q[i].high <= high)
    && (forall x :: low <= x < high ==> (Covers(q, x) <==> !Owned(owned, x)))
  }

  lemma CoversMore(q: seq<Range>, r: Range, x: nat)
    ensures Covers(q + [r], x) <==> Covers(q, x) || r.low <= x < r.high
  {
    if Covers(q, x) {
      var i :| 0 <= i < |q| && q[i].low <= x < q[i].high;
      assert (q + [r])[i] == q[i];
    }
    assert (q + [r])[|q|] == r;
  }

  /** A further piece, next to the last or further up. */
  lemma MorePieces(q: seq<Range>, owned: seq<Block>, low: nat, mid: nat, r: Range)
    requires Carves(q, owned, low, mid) && low <= mid && r.low == mid && r.low < r.high <= r.low + MAX_RANGE_SIZE
    requires forall x :: r.low <= x < r.high ==> !Owned(owned, x)
    ensures Carves(q + [r], owned, low, r.high) && Bytes(q + [r]) == Bytes(q) + (r.high - r.low)
  {
    var p := q + [r];
    assert p[..|q|] == q;
    forall x | low <= x < r.high ensures Covers(p, x) <==> !Owned(owned, x) { CoversMore(q, r, x); }
  }

  lemma SkipsOwned(q: seq<Range>, owned: seq<Block>, low: nat, mid: nat, next: nat)
    requires Carves(q, owned, low, mid) && low <= mid <= next && forall x :: mid <= x < next ==> Owned(owned, x)
    ensures Carves(q, owned, low, next)
  {
  }

  ghost predicate OnWords(owned: seq<Block>) {
    forall i :: 0 <= i < |owned| ==> owned[i].addr % 8 == 0 && owned[i].High() % 8 == 0
  }

  ghost predicate Aligned(q: seq<Range>) { forall i :: 0 <= i < |q| ==> q[i].low % 8 == 0 && q[i].high % 8 == 0 }

  /** A chunk begins and ends at word boundaries if the range and the recorded blocks do. */
  lemma ChunkAligned(owned: seq<Block>, low: nat, high: nat, lo: nat, hi: nat)
    requires OnWords(owned) && low % 8 == 0 && high % 8 == 0 && low <= lo <= hi <= high
    requires (forall x :: low <= x < lo ==> Owned(owned, x)) && (forall x :: lo <= x < hi ==> !Owned(owned, x))
    requires hi == high || (lo < hi && Owned(owned, hi))
    ensures hi % 8 == 0 && (lo < hi ==> lo % 8 == 0)
  {
    if lo < hi {
      assert !Owned(owned, lo) && !Owned(owned, hi - 1);
      if low < lo { assert Owned(owned, lo - 1); }
    }
  }

  lemma PieceAligned(at: nat)
    ensures at % 8 == 0 ==> (at + MAX_RANGE_SIZE) % 8 == 0
  {
    var pieces := MAX_RANGE_SIZE / 8;
    if at % 8 == 0 { assert at + 8 * pieces == 8 * (at / 8 + pieces); }
  }

  /** The inner loop of collect_ranges: a free chunk is cut into pieces of at most 8 MB. */
  method SplitChunk(q: seq<Range>, chunk: Range, ghost owned: seq<Block>, ghost low: nat) returns (r: seq<Range>)
    requires Carves(q, owned, low, chunk.low) && low <= chunk.low < chunk.high
    requires forall x :: chunk.low <= x < chunk.high ==> !Owned(owned, x)
    ensures Carves(r, owned, low, chunk.high) && Bytes(r) == Bytes(q) + (chunk.high - chunk.low)
    ensures |r| > |q|
    ensures Aligned(q) && chunk.low % 8 == 0 && chunk.high % 8 == 0 ==> Aligned(r)
  {
    r := q;
    var at := chunk.low;
    while at + MAX_RANGE_SIZE < chunk.high
      invariant |r| >= |q| && chunk.low <= at < chunk.high && Carves(r, owned, low, at)
      invariant Bytes(r) == Bytes(q) + (at - chunk.low)
      invariant Aligned(q) && chunk.low % 8 == 0 ==> Aligned(r) && at % 8 == 0
      decreases chunk.high - at
    {
      PieceAligned(at);
      r, at := OnePiece(r, at, at + MAX_RANGE_SIZE, owned, low);
    }
    r, at := OnePiece(r, at, chunk.high, owned, low);
  }

  method OnePiece(q: seq<Range>, at: nat, end: nat, ghost owned: seq<Block>, ghost low: nat)
    returns (r: seq<Range>, next: nat)
    requires Carves(q, owned, low, at) && low <= at < end <= at + MAX_RANGE_SIZE
    requires forall x :: at <= x < end ==> !Owned(owned, x)
    ensures next == end && |r| == |q| + 1 && Carves(r, owned, low, end) && Bytes(r) == Bytes(q) + (end - at)
    ensures Aligned(q) && at % 8 == 0 && end % 8 == 0 ==> Aligned(r)
  {
    MorePieces(q, owned, low, at, Range(at, end));
    r, next := q + [Range(at, end)], end;
  }

  /** The carving loop of collect_ranges, when `taken` entries of the table of ranges are in use.  The
      pieces are ascending and disjoint, none is larger than 8 MB, together they are exactly the range up to
      `at` minus everything Forkscan owns, and the byte total is the sum of their sizes.  The loop goes to
      the end of the range unless it has filled the table, which is fatal; the code tests that after each
      chunk, when all pieces of the chunk have been stored.  The pieces consist of whole words if the range
      and Forkscan's own blocks do. */
  method CollectRange(list: List, low: nat, high: nat, taken: nat)
    returns (r: seq<Range>, bytes: nat, fatal: bool, ghost at: nat)
    requires list.InOrder() && list.nodes != [] && low <= high
    ensures low <= at <= high && Carves(r, list.blocks, low, at) && bytes == Bytes(r)
    ensures !fatal ==> at == high
    ensures fatal <==> r != [] && taken + |r| >= MAX_RANGES
    ensures OnWords(list.blocks) && low % 8 == 0 && high % 8 == 0 ==> Aligned(r)
  {
    r, bytes, fatal := [], 0, false;
    at := low;
    var from := low;
    while from != high
      invariant low <= from <= high && at == from && Carves(r, list.blocks, low, from) && bytes == Bytes(r)
      invariant !fatal && (r != [] ==> taken + |r| < MAX_RANGES)
      invariant OnWords(list.blocks) && low % 8 == 0 && high % 8 == 0 ==> Aligned(r) && from % 8 == 0
      decreases high - from
    {
      var lo, hi := list.BreakRange(from, high);
      SkipsOwned(r, list.blocks, low, from, lo);
      if OnWords(list.blocks) && from % 8 == 0 && high % 8 == 0 { ChunkAligned(list.blocks, from, high, lo, hi); }
      from, at := hi, hi;
      if lo != hi {
        bytes := bytes + (hi - lo);
        r := SplitChunk(r, Range(lo, hi), list.blocks, low);
        if taken + |r| >= MAX_RANGES {
          fatal := true;
          return;
        }
      }
    }
  }
}
