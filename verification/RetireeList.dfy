/** The retiree list of buffer.c on its pointers: g_first_retiree_buffer, g_last_retiree_buffer and the next
    field of every buffer, and the walk that collects the dead references.  The operations are the list
    steps of the machine in module Retirees. */
module RetireeList {
  import opened Words
  import opened Retirees

  type Nexts = map<BufId, Option<BufId>>

  function FirstOf(q: seq<BufId>): Option<BufId> { if q == [] then None else Some(q[0]) }

  /** The pointers from first on lead through the buffers q, which are different, and end there. */
  ghost predicate Chained(first: Option<BufId>, next: Nexts, q: seq<BufId>)
    decreases |q|
  {
    && first == FirstOf(q)
    && (q != [] ==> q[0] in next && q[0] !in q[1..] && Chained(next[q[0]], next, q[1..]))
  }

  lemma {:induction false} ChainedAt(first: Option<BufId>, next: Nexts, q: seq<BufId>, k: nat)
    requires Chained(first, next, q) && k < |q|
    ensures q[k] in next && Chained(Some(q[k]), next, q[k..]) && next[q[k]] == FirstOf(q[k + 1..])
    ensures q[k] !in q[..k]
    decreases k
  {
    if k > 0 {
      ChainedAt(next[q[0]], next, q[1..], k - 1);
      assert q[1..][k - 1..] == q[k..] && q[1..][k..] == q[k + 1..];
      assert q[..k] == [q[0]] + q[1..][..k - 1];
    } else {
      assert q[0..] == q;
    }
  }

  /** Pointers outside a chain do not matter to it. */
  lemma {:induction false} ChainKept(first: Option<BufId>, next: Nexts, q: seq<BufId>, b: BufId, p: Option<BufId>)
    requires Chained(first, next, q) && b !in q
    ensures Chained(first, next[b := p], q)
    decreases |q|
  {
    if q != [] { ChainKept(next[q[0]], next, q[1..], b, p); }
  }

  /** Redirecting the pointer of buffer k to another chain replaces what follows. */
  lemma {:induction false} ChainRedirected(first: Option<BufId>, next: Nexts, q: seq<BufId>, k: nat,
      p: Option<BufId>, r: seq<BufId>)
    requires Chained(first, next, q) && k < |q| && Chained(p, next, r) && forall i :: 0 <= i <= k ==> q[i] !in r
    ensures Chained(first, next[q[k] := p], q[..k + 1] + r)
    decreases k
  {
    ChainedAt(first, next, q, k);
    var s := q[..k + 1] + r;
    assert q[0] in q[..k + 1] && s[0] == q[0];
    if k == 0 {
      assert s[1..] == r;
      ChainKept(p, next, r, q[0], p);
    } else {
      assert s[1..] == q[1..][..k] + r;
      ChainRedirected(next[q[0]], next, q[1..], k - 1, p, r);
      assert forall b :: b in q[1..][..k] ==> b in q[1..];
    }
  }

  lemma ChainDistinct(first: Option<BufId>, next: Nexts, q: seq<BufId>, i: nat, j: nat)
    requires Chained(first, next, q) && i < j < |q|
    ensures q[i] != q[j]
  {
    ChainedAt(first, next, q, j);
    assert q[i] in q[..j];
  }

  lemma {:induction false} IndexIs(first: Option<BufId>, next: Nexts, q: seq<BufId>, k: nat)
    requires Chained(first, next, q) && k < |q|
    ensures IndexOf(q, q[k]) == k
  {
    var i := IndexOf(q, q[k]);
    if i < k { ChainDistinct(first, next, q, i, k); }
    if k < i { ChainDistinct(first, next, q, k, i); }
  }

  class List {
    var first: Option<BufId>
    var last: Option<BufId>
    var next: Nexts

    /** The buffers on the list. */
    ghost var chain: seq<BufId>

    ghost predicate Valid()
      reads this
    {
      Chained(first, next, chain) && (last.None? ==> chain == [])
    }

    constructor ()
      ensures Valid() && chain == [] && last == None
    {
      first, last, next, chain := None, None, map[], [];
    }

    /** forkscan_buffer_push_back, whatever g_last_retiree_buffer is. */
    method PushBack(ab: BufId)
      requires Valid() && ab !in chain && last != Some(ab)
      modifies this
      ensures Valid() && last == Some(ab)
      ensures chain == Retirees.PushBack(old(chain), old(last), ab)
    {
      ChainKept(first, next, chain, ab, None);
      next := next[ab := None];
      if last == None {
        last, first := Some(ab), Some(ab);
        chain := [ab];
      } else {
        var l := last.value;
        if l in chain {
          ChainRedirected(first, next, chain, IndexOf(chain, l), Some(ab), [ab]);
          chain := chain[..IndexOf(chain, l) + 1] + [ab];
        } else {
          ChainKept(first, next, chain, l, Some(ab));
        }
        next := next[l := Some(ab)];
        last := Some(ab);
      }
    }

    /** forkscan_buffer_pop_retiree_buffer: ab is spliced out wherever it is, and the last pointer is
        cleared only when the list is empty. */
    method Pop(ab: BufId)
      requires Valid()
      modifies this
      ensures Valid() && chain == Without(old(chain), ab)
      ensures last == if ab in old(chain) && chain == [] then None else old(last)
    {
      var curr, prev := first, None;
      ghost var k := 0;
      assert chain[0..] == chain;
      while curr != None && curr != Some(ab)
        invariant Valid() && chain == old(chain) && last == old(last)
        invariant k <= |chain| && Chained(curr, next, chain[k..]) && ab !in chain[..k]
        invariant if k == 0 then prev == None else prev == Some(chain[k - 1])
        decreases |chain| - k
      {
        ChainedAt(first, next, chain, k);
        prev := curr;
        curr := next[curr.value];
        assert chain[k..][1..] == chain[k + 1..] && chain[..k + 1] == chain[..k] + [chain[k]];
        k := k + 1;
      }
      if curr == Some(ab) {
        assert chain[k] == ab;
        IndexIs(first, next, chain, k);
        ChainedAt(first, next, chain, k);
        assert chain[k..][1..] == chain[k + 1..];
        if prev.Some? {
          Splice(k);
          next := next[prev.value := next[ab]];
        } else {
          assert chain[..k] + chain[k + 1..] == chain[k + 1..];
          first := next[ab];
        }
        chain := chain[..k] + chain[k + 1..];
        assert Chained(first, next, chain);
        assert ab in old(chain);
        if first == None { last := None; }
      } else {
        assert chain[..k] == chain;
        assert ab !in chain;
      }
    }

    lemma Splice(k: nat)
      requires Valid() && 0 < k < |chain| && chain[k] in next && Chained(next[chain[k]], next, chain[k + 1..])
      ensures Chained(first, next[chain[k - 1] := next[chain[k]]], chain[..k] + chain[k + 1..])
    {
      forall i | 0 <= i <= k - 1 ensures chain[i] !in chain[k + 1..] {
        forall j | k + 1 <= j < |chain| ensures chain[j] != chain[i] { ChainDistinct(first, next, chain, i, j); }
      }
      ChainRedirected(first, next, chain, k - 1, next[chain[k]], chain[k + 1..]);
      assert chain[..k - 1 + 1] == chain[..k];
    }

    /** forkscan_buffer_get_dead_references: the unmarked, unconsumed entries of the buffers on the list,
        in order, as many as there is room for. */
    method DeadReferences(addrs: map<BufId, seq<nat>>, capacity: nat) returns (dead: seq<nat>)
      requires Valid() && capacity > 0 && forall b :: b in chain ==> b in addrs
      ensures dead == AllDead(chain, addrs)[..Min(capacity, |AllDead(chain, addrs)|)]
    {
      dead := [];
      var ab := first;
      ghost var k := 0;
      assert chain[0..] == chain;
      while ab != None
        invariant k <= |chain| && Chained(ab, next, chain[k..])
        invariant dead == AllDead(chain[..k], addrs) && |dead| < capacity
        decreases |chain| - k
      {
        ChainedAt(first, next, chain, k);
        DeadGoesOn(chain, addrs, k, capacity);
        dead := AddDead(dead, addrs[ab.value], capacity);
        if |dead| >= capacity { return; }
        ab := next[ab.value];
        k := k + 1;
      }
      assert chain[..k] == chain;
    }
  }

  /** The entries of one buffer, until there is no room. */
  method AddDead(dead: seq<nat>, a: seq<nat>, capacity: nat) returns (r: seq<nat>)
    requires |dead| < capacity
    ensures r == (dead + Dead(a))[..Min(capacity, |dead| + |Dead(a)|)]
  {
    r := dead;
    for i := 0 to |a|
      invariant r == dead + Dead(a[..i]) && |r| < capacity
    {
      DeadPrefixOf(a, i);
      if a[i] % 4 == 0 {
        r := r + [a[i]];
        if |r| >= capacity { return; }
      }
    }
    assert a[..|a|] == a;
  }

  /** The entries of a buffer that are neither marked nor consumed: both low bits are clear. */
  function Dead(a: seq<nat>): (r: seq<nat>) {
    if a == [] then [] else
    var n := |a| - 1;
    if a[n] % 4 == 0 then Dead(a[..n]) + [a[n]] else Dead(a[..n])
  }

  function AllDead(q: seq<BufId>, addrs: map<BufId, seq<nat>>): seq<nat>
    requires forall b :: b in q ==> b in addrs
  {
    if q == [] then [] else AllDead(q[..|q| - 1], addrs) + Dead(addrs[q[|q| - 1]])
  }

  lemma {:induction false} DeadPrefixOf(a: seq<nat>, i: nat)
    requires i < |a|
    ensures Dead(a[..i + 1]) == Dead(a[..i]) + if a[i] % 4 == 0 then [a[i]] else []
    ensures Dead(a[..i + 1]) <= Dead(a)
    decreases |a| - i
  {
    assert a[..i + 1][..i] == a[..i];
    if i + 1 < |a| { DeadPrefixOf(a, i + 1); } else { assert a[..i + 1] == a; }
  }

  lemma {:induction false} DeadPrefix(q: seq<BufId>, addrs: map<BufId, seq<nat>>, k: nat)
    requires k < |q| && forall b :: b in q ==> b in addrs
    ensures AllDead(q[..k + 1], addrs) == AllDead(q[..k], addrs) + Dead(addrs[q[k]])
    ensures AllDead(q[..k + 1], addrs) <= AllDead(q, addrs)
    decreases |q| - k
  {
    assert q[..k + 1][..k] == q[..k];
    if k + 1 < |q| { DeadPrefix(q, addrs, k + 1); } else { assert q[..k + 1] == q; }
  }

  /** What the entries of buffer k add, when there is room for this many in all. */
  lemma DeadGoesOn(q: seq<BufId>, addrs: map<BufId, seq<nat>>, k: nat, room: nat)
    requires k < |q| && (forall b :: b in q ==> b in addrs) && |AllDead(q[..k], addrs)| < room
    ensures var d := AllDead(q[..k], addrs) + Dead(addrs[q[k]]);
      && (|d| < room ==> d[..Min(room, |d|)] == AllDead(q[..k + 1], addrs))
      && (|d| >= room ==> d[..Min(room, |d|)] == AllDead(q, addrs)[..Min(room, |AllDead(q, addrs)|)])
  {
    DeadPrefix(q, addrs, k);
  }

  /** A dead reference is an entry of a buffer on the list. */
  lemma {:induction false} DeadAreEntries(a: seq<nat>, x: nat)
    ensures x in Dead(a) <==> x in a && x % 4 == 0
  {
    if a != [] {
      DeadAreEntries(a[..|a| - 1], x);
      assert a == a[..|a| - 1] + [a[|a| - 1]];
    }
  }
}
