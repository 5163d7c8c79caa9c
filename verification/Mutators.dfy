/** What the threads of the program can do: a thread can get hold of every block that it can reach, and no step
    of anybody makes an allocated block reachable that was not. */
module Mutators {
  import opened Words
  import opened Lifecycle
  import opened Paths
  import G = Reclaim

  // ------------------------------------------------------------------ what a thread can reach it can hold

  /** Thread t loads a word, or computes one. */
  ghost predicate ReadNext(s: State, s': State, t: nat) {
    || (exists w, k: nat :: Enabled(s, Load(t, w, k)) && s' == Step(s, Load(t, w, k)))
    || (exists v :: Enabled(s, Compute(t, v)) && s' == Step(s, Compute(t, v)))
  }

  ghost function Reads(t: nat): (State, State) -> bool { (s, s') => ReadNext(s, s', t) }

  ghost predicate IsChain(s: State, p: seq<Addr>) {
    |p| > 0 && forall i :: 0 <= i < |p| - 1 ==> Linked(s, p[i], p[i + 1])
  }

  ghost predicate Linked(s: State, x: Addr, y: Addr) { x in s.heap && Refers(s.heap[x], y) }

  ghost predicate Has(s: State, t: nat, x: Addr) { t < |s.stacks| && exists w :: w in s.stacks[t] && PtrMask(w) == x }

  /** s' is s but that thread t holds more words. */
  ghost predicate HoldsMore(s: State, s': State, t: nat) {
    && t < |s.stacks| && t < |s'.stacks| && s.stacks[t] <= s'.stacks[t]
    && s' == s.(stacks := s.stacks[t := s'.stacks[t]])
  }

  lemma LoadNext(s: State, t: nat, x: Addr, y: Addr) returns (s': State)
    requires Has(s, t, x) && Linked(s, x, y)
    ensures Leads(Reads(t), s, s') && HoldsMore(s, s', t) && Has(s', t, y)
  {
    var w :| w in s.stacks[t] && PtrMask(w) == x;
    var k: nat :| k < |s.heap[x]| && PtrMask(s.heap[x][k]) == y;
    s' := Step(s, Load(t, w, k));
    assert s.heap[x][k] in s'.stacks[t];
    assert ReadNext(s, s', t);
    Paths.One(Reads(t), s, s');
  }

  lemma {:induction false} LoadAlong(s: State, t: nat, p: seq<Addr>) returns (s': State)
    requires IsChain(s, p) && Has(s, t, p[0])
    ensures Leads(Reads(t), s, s') && HoldsMore(s, s', t) && Has(s', t, p[|p| - 1])
    decreases |p|
  {
    if |p| == 1 {
      Stay(Reads(t), s);
      s' := s;
    } else {
      assert Linked(s, p[0], p[1]);
      var m := LoadNext(s, t, p[0], p[1]);
      var q := p[1..];
      forall i | 0 <= i < |q| - 1 ensures Linked(m, q[i], q[i + 1]) { assert Linked(s, p[i + 1], p[i + 2]); }
      s' := LoadAlong(m, t, q);
      Join(Reads(t), s, m, s');
    }
  }

  /** A thread can get every word that refers, low bits aside, to a block that references lead to from a word
      it holds; nothing else changes. */
  lemma ReachableCanBeHeld(s: State, t: nat, p: seq<Addr>, v: nat) returns (s': State)
    requires IsChain(s, p) && Has(s, t, p[0]) && PtrMask(v) == p[|p| - 1]
    ensures Leads(Reads(t), s, s') && HoldsMore(s, s', t) && v in s'.stacks[t]
  {
    var m := LoadAlong(s, t, p);
    s' := Step(m, Compute(t, v));
    assert ReadNext(m, s', t);
    Then(Reads(t), s, m, s');
  }

  // ------------------------------------------------------------------ and what is unreachable stays so

  /** Of the blocks of s, every root and every referent in s' was reachable. */
  ghost predicate RootsWere(s: State, s': State) {
    && (forall x :: StackRefers(s', x) && x in s.heap ==> Reachable(s, x))
    && (forall c, x :: c in s'.heap && c !in s'.owner && x in s.heap && Refers(s'.heap[c], x) ==> Reachable(s, x))
  }

  ghost predicate LinksWere(s: State, s': State) {
    forall c, x :: c in s'.heap && (c in s.heap ==> Reachable(s, c)) && x in s.heap && Refers(s'.heap[c], x) ==>
      Reachable(s, x)
  }

  lemma {:induction false} PathWas(s: State, s': State, p: seq<Addr>, i: nat)
    requires RootsWere(s, s') && LinksWere(s, s') && IsPath(s', p) && i < |p| && p[i] in s.heap
    ensures Reachable(s, p[i])
  {
    if i > 0 {
      var x, y := p[i - 1], p[i];
      assert x in s'.heap && Refers(s'.heap[x], y);
      if x in s.heap { PathWas(s, s', p, i - 1); }
    }
  }

  lemma ReachableWas(s: State, s': State, a: Addr)
    requires RootsWere(s, s') && LinksWere(s, s') && Reachable(s', a) && a in s.heap
    ensures Reachable(s, a)
  {
    var p :| IsPath(s', p) && p[|p| - 1] == a;
    PathWas(s, s', p, |p| - 1);
  }

  /** A step that leaves memory alone, and with which no thread gets a word that refers to another block. */
  lemma SameMemory(s: State, s': State)
    requires s'.heap == s.heap && (forall c :: c in s.owner ==> c in s'.owner)
    requires forall x :: StackRefers(s', x) && x in s.heap ==> Reachable(s, x)
    ensures RootsWere(s, s') && LinksWere(s, s')
  {
    forall c, x | c in s'.heap && c !in s'.owner && x in s.heap && Refers(s'.heap[c], x) ensures Reachable(s, x) {
      G.OneStep(s, x);
    }
    forall c, x | c in s'.heap && (c in s.heap ==> Reachable(s, c)) && x in s.heap && Refers(s'.heap[c], x)
      ensures Reachable(s, x)
    {
      G.OneMore(s, c, x);
    }
  }

  lemma StackReachable(s: State, t: nat, w: nat)
    requires t < |s.stacks| && w in s.stacks[t]
    ensures Reachable(s, PtrMask(w))
  {
    G.OneStep(s, PtrMask(w));
  }

  /** A thread that gets one more word. */
  lemma MoreStack(s: State, t: nat, v: nat, x: Addr)
    requires t < |s.stacks| && StackRefers(s.(stacks := s.stacks[t := s.stacks[t] + {v}]), x)
    ensures PtrMask(v) == x || StackRefers(s, x)
  {
    var s' := s.(stacks := s.stacks[t := s.stacks[t] + {v}]);
    var u, w :| 0 <= u < |s'.stacks| && w in s'.stacks[u] && PtrMask(w) == x;
    if w != v || u != t { assert w in s.stacks[u]; }
  }

  lemma LoadStep(s: State, t: nat, w: nat, k: nat)
    requires Enabled(s, Load(t, w, k))
    ensures RootsWere(s, Step(s, Load(t, w, k))) && LinksWere(s, Step(s, Load(t, w, k)))
  {
    var s', v := Step(s, Load(t, w, k)), s.heap[PtrMask(w)][k];
    StackReachable(s, t, w);
    G.OneMore(s, PtrMask(w), PtrMask(v));
    forall x | StackRefers(s', x) ensures Reachable(s, x) {
      MoreStack(s, t, v, x);
      if StackRefers(s, x) { G.OneStep(s, x); }
    }
    SameMemory(s, s');
  }

  lemma ComputeStep(s: State, t: nat, v: nat)
    requires Enabled(s, Compute(t, v))
    ensures RootsWere(s, Step(s, Compute(t, v))) && LinksWere(s, Step(s, Compute(t, v)))
  {
    var s' := Step(s, Compute(t, v));
    forall x | StackRefers(s', x) && x in s.heap ensures Reachable(s, x) {
      MoreStack(s, t, v, x);
      if x == PtrMask(v) {
        var w :| w in s.stacks[t] && PtrMask(w) == PtrMask(v);
        StackReachable(s, t, w);
      } else {
        G.OneStep(s, x);
      }
    }
    SameMemory(s, s');
  }

  lemma ForgetStep(s: State, t: nat, v: nat)
    requires Enabled(s, Forget(t, v))
    ensures RootsWere(s, Step(s, Forget(t, v))) && LinksWere(s, Step(s, Forget(t, v)))
  {
    var s' := Step(s, Forget(t, v));
    forall x | StackRefers(s', x) ensures Reachable(s, x) {
      var u, w :| 0 <= u < |s'.stacks| && w in s'.stacks[u] && PtrMask(w) == x;
      StackReachable(s, u, w);
    }
    SameMemory(s, s');
  }

  lemma RetireStep(s: State, t: nat, p: Addr)
    requires Enabled(s, Retire(t, p))
    ensures RootsWere(s, Step(s, Retire(t, p))) && LinksWere(s, Step(s, Retire(t, p)))
  {
    var s' := Step(s, Retire(t, p));
    forall x | StackRefers(s', x) ensures Reachable(s, x) { G.OneStep(s, x); }
    SameMemory(s, s');
  }

  lemma ZerosRefer(n: nat, x: Addr)
    requires Refers(Zeros(n), x)
    ensures x == 0
  {
    assert PtrMask(0) == 0;
  }

  lemma AllocStep(s: State, t: nat, p: Addr, n: nat)
    requires Enabled(s, Alloc(t, p, n)) && 0 !in s.heap
    ensures RootsWere(s, Step(s, Alloc(t, p, n))) && LinksWere(s, Step(s, Alloc(t, p, n)))
  {
    var s' := Step(s, Alloc(t, p, n));
    assert PtrMask(p) == p;
    forall x | StackRefers(s', x) && x in s.heap ensures Reachable(s, x) {
      MoreStack(s, t, p, x);
      G.OneStep(s, x);
    }
    forall c, x | c in s'.heap && c !in s'.owner && x in s.heap && Refers(s'.heap[c], x) ensures Reachable(s, x) {
      if c == p { ZerosRefer(n, x); } else { G.OneStep(s, x); }
    }
    forall c, x | c in s'.heap && (c in s.heap ==> Reachable(s, c)) && x in s.heap && Refers(s'.heap[c], x)
      ensures Reachable(s, x)
    {
      if c == p { ZerosRefer(n, x); } else { G.OneMore(s, c, x); }
    }
  }

  /** What a block refers to after one of its words has been replaced. */
  lemma UpdatedRefers(words: seq<nat>, k: nat, v: nat, x: Addr)
    requires k < |words| && Refers(Updated(words, k, v), x)
    ensures PtrMask(v) == x || Refers(words, x)
  {
    var i :| 0 <= i < |words| && PtrMask(Updated(words, k, v)[i]) == x;
    if i != k { assert Updated(words, k, v)[i] == words[i]; }
  }

  lemma StoreStep(s: State, t: nat, w: nat, k: nat, v: nat)
    requires Enabled(s, Store(t, w, k, v))
    ensures RootsWere(s, Step(s, Store(t, w, k, v))) && LinksWere(s, Step(s, Store(t, w, k, v)))
  {
    var s', b := Step(s, Store(t, w, k, v)), PtrMask(w);
    StackReachable(s, t, v);
    forall c, x | c in s'.heap && Refers(s'.heap[c], x) && !Reachable(s, x) ensures Refers(s.heap[c], x) {
      if c == b { UpdatedRefers(s.heap[b], k, v, x); }
    }
    forall x | StackRefers(s', x) ensures Reachable(s, x) { G.OneStep(s, x); }
    forall c, x | c in s'.heap && c !in s'.owner && x in s.heap && Refers(s'.heap[c], x) ensures Reachable(s, x) {
      if !Reachable(s, x) { G.OneStep(s, x); }
    }
    forall c, x | c in s'.heap && (c in s.heap ==> Reachable(s, c)) && x in s.heap && Refers(s'.heap[c], x)
      ensures Reachable(s, x)
    {
      if !Reachable(s, x) { G.OneMore(s, c, x); }
    }
  }

  lemma MemoryStep(s: State, a: Action)
    requires Enabled(s, a) && IsMemory(a) && 0 !in s.heap
    ensures RootsWere(s, Step(s, a)) && LinksWere(s, Step(s, a))
  {
    match a
    case Alloc(t, p, n) => AllocStep(s, t, p, n);
    case Load(t, w, k) => LoadStep(s, t, w, k);
    case Store(t, w, k, v) => StoreStep(s, t, w, k, v);
    case Compute(t, v) => ComputeStep(s, t, v);
    case Forget(t, v) => ForgetStep(s, t, v);
  }

  lemma NextReachableWas(s: State, s': State, a: Addr)
    requires Inv(s) && Next(s, s') && Reachable(s', a) && a in s.heap
    ensures Reachable(s, a)
  {
    var act :| Enabled(s, act) && s' == Step(s, act);
    if G.IsCollector(act) {
      G.StepShrinks(s, act);
      G.StillUnreachable(s, s', a);
    } else {
      if act.Retire? { RetireStep(s, act.t, act.a); } else { MemoryStep(s, act); }
      ReachableWas(s, s', a);
    }
  }

  /** Garbage stays garbage: an allocated block that is not reachable is not reachable in any later state of
      the run, for as long as it stays allocated. */
  lemma {:induction false} UnreachableStays(run: seq<State>, j: nat, k: nat, a: Addr)
    requires IsRun(run) && j <= k < |run| && !Reachable(run[j], a)
    requires forall i :: j <= i < k ==> a in run[i].heap
    ensures !Reachable(run[k], a)
    decreases k
  {
    if j < k {
      UnreachableStays(run, j, k - 1, a);
      RunInv(run, k - 1);
      assert NextAt(run, k);
      if Reachable(run[k], a) { NextReachableWas(run[k - 1], run[k], a); }
    }
  }
}
