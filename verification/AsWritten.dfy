/** The scan with the recursion as child.c:170 is written: on the block that is being scanned.  What it
    marks, when that is all that is reachable, and a run in which it is not. */
module AsWritten {
  import opened Words
  import opened ParallelScan

  /** With recursion on the block being scanned, every activation scans a root. */
  ghost predicate Shallow(c: Config, s: State)
    requires c.snap.Valid()
  {
    && (forall x :: x in s.marked ==> IsDirect(c.snap, x))
    && forall i :: 0 <= i < |s.sibs| ==> SiblingShallow(c.snap, s.sibs[i])
  }

  ghost predicate SiblingShallow(sn: Snapshot, b: Sibling) {
    && (forall x :: x in b.lookaside && x in sn.tracked ==> IsRoot(sn, x))
    && (forall f :: 0 <= f < |b.stack| ==> IsRoot(sn, b.stack[f].block))
    && (b.pending.Some? && b.stack == [] ==> IsRoot(sn, b.pending.value))
  }

  lemma StepShallow(c: Config, s: State, i: nat, a: Action)
    requires c.snap.Valid() && SiblingsOk(c, s) && Shallow(c, s) && Enabled(c, s, i, a)
    requires c.recursion.OnScanned?
    ensures Shallow(c, Step(c, s, i, a))
  {
    var s' := Step(c, s, i, a);
    assert SiblingOk(c, s, s.sibs[i]) && SiblingShallow(c.snap, s.sibs[i]);
    if a.Write? && s.sibs[i].stack != [] {
      assert s.sibs[i].pending.value in c.snap.words[Top(s.sibs[i]).block];
    }
    forall j | 0 <= j < |s'.sibs| ensures SiblingShallow(c.snap, s'.sibs[j]) {
      assert SiblingShallow(c.snap, s.sibs[j]);
    }
  }

  // ------------------------------------------------------------------ when that is everything

  /** y is no root, but a root or a direct referent of one refers to it. */
  ghost predicate Beyond(sn: Snapshot, y: Addr)
    requires sn.Valid()
  {
    y in sn.tracked && !IsRoot(sn, y) && exists b :: IsDirect(sn, b) && y in sn.words[b]
  }

  /** The root r refers to y, and so does every root that refers to r. */
  ghost predicate Carries(sn: Snapshot, r: Addr, y: Addr)
    requires sn.Valid()
  {
    IsRoot(sn, r) && y in sn.words[r] && forall q :: IsRoot(sn, q) && r in sn.words[q] ==> y in sn.words[q]
  }

  /** The graphs on which line 170 as written is enough, whatever the division into ranges and the
      interleaving (CompleteIff). */
  ghost predicate Complete(sn: Snapshot)
    requires sn.Valid()
  {
    forall y :: Beyond(sn, y) ==> exists r :: Carries(sn, r, y)
  }

  /** Every tracked word of q is marked or still ahead of an activation on q. */
  ghost predicate BlockCovered(c: Config, s: State, q: Addr)
    requires c.snap.Valid()
  {
    q in c.snap.tracked && forall k: nat :: k < |c.snap.words[q]| ==> WordCovered(c, s, q, k)
  }

  ghost predicate WordCovered(c: Config, s: State, q: Addr, k: nat)
    requires c.snap.Valid() && q in c.snap.tracked && k < |c.snap.words[q]|
  {
    c.snap.words[q][k] in c.snap.tracked ==>
      c.snap.words[q][k] in s.marked || exists i :: 0 <= i < |s.sibs| && s.sibs[i].Visits(q, k)
  }

  /** q is a root that has been scanned or is being scanned, and the root r is q or was met in q. */
  ghost predicate MetFrom(c: Config, s: State, r: Addr, q: Addr)
    requires c.snap.Valid()
  {
    IsRoot(c.snap, q) && (q == r || r in c.snap.words[q]) && BlockCovered(c, s, q)
  }

  ghost predicate Started(c: Config, s: State)
    requires c.snap.Valid()
  {
    forall r :: r in s.marked && IsRoot(c.snap, r) ==> exists q :: MetFrom(c, s, r, q)
  }

  lemma StepBlockCovered(c: Config, s: State, i: nat, a: Action, q: Addr)
    requires c.snap.Valid() && SiblingsOk(c, s) && Enabled(c, s, i, a) && BlockCovered(c, s, q)
    ensures BlockCovered(c, Step(c, s, i, a), q)
  {
    var s' := Step(c, s, i, a);
    forall k: nat | k < |c.snap.words[q]| ensures WordCovered(c, s', q, k) {
      assert WordCovered(c, s, q, k);
      if c.snap.words[q][k] in c.snap.tracked && c.snap.words[q][k] !in s.marked {
        var j :| 0 <= j < |s.sibs| && s.sibs[j].Visits(q, k);
        if j == i { StepVisits(c, s, i, a, q, k); } else { assert s'.sibs[j].Visits(q, k); }
      }
    }
  }

  /** A new activation covers its block. */
  lemma WriteCovers(c: Config, s: State, i: nat, q: Addr)
    requires c.snap.Valid() && i < |s.sibs| && s.sibs[i].stack != [] && Top(s.sibs[i]) == Frame(q, 0)
    requires q in c.snap.tracked
    ensures BlockCovered(c, s, q)
  {
    var f := |s.sibs[i].stack| - 1;
    assert s.sibs[i].stack[f] == Frame(q, 0);
    forall k: nat | k < |c.snap.words[q]| ensures WordCovered(c, s, q, k) { assert s.sibs[i].Visits(q, k); }
  }

  lemma StepStarted(c: Config, s: State, i: nat, a: Action)
    requires c.snap.Valid() && SiblingsOk(c, s) && Shallow(c, s) && Started(c, s) && Enabled(c, s, i, a)
    requires c.recursion.OnScanned?
    ensures Started(c, Step(c, s, i, a))
  {
    var s' := Step(c, s, i, a);
    forall r | r in s'.marked && IsRoot(c.snap, r) ensures exists q :: MetFrom(c, s', r, q) {
      if r in s.marked {
        var q :| MetFrom(c, s, r, q);
        StepBlockCovered(c, s, i, a, q);
        assert MetFrom(c, s', r, q);
      } else {
        var q := WrittenFrom(c, s, i, a, r);
        assert MetFrom(c, s', r, q);
      }
    }
  }

  /** A root that gets its mark is scanned itself, or was met in a root that is then scanned again. */
  lemma WrittenFrom(c: Config, s: State, i: nat, a: Action, r: Addr) returns (q: Addr)
    requires c.snap.Valid() && SiblingsOk(c, s) && Shallow(c, s) && Enabled(c, s, i, a) && c.recursion.OnScanned?
    requires r !in s.marked && r in Step(c, s, i, a).marked && IsRoot(c.snap, r)
    ensures MetFrom(c, Step(c, s, i, a), r, q)
  {
    var b, s' := s.sibs[i], Step(c, s, i, a);
    assert SiblingOk(c, s, b) && SiblingShallow(c.snap, b);
    assert a.Write? && b.pending == Some(r);
    q := if b.stack == [] then r else Top(b).block;
    assert Top(s'.sibs[i]) == Frame(q, 0);
    if b.stack != [] {
      assert FrameOk(c, s, b.stack[|b.stack| - 1]);
      assert r == c.snap.words[q][Top(b).next];
    }
    WriteCovers(c, s', i, q);
  }

  // ------------------------------------------------------------------ both recursions

  /** What every reachable state of a scan satisfies, with either recursion. */
  ghost predicate Settled(c: Config, s: State)
    requires c.snap.Valid()
  {
    Meets(c, s) && (c.recursion.OnScanned? ==> Shallow(c, s) && Started(c, s))
  }

  lemma InitSettled(c: Config, s: State)
    requires c.snap.Valid() && Init(s)
    ensures Settled(c, s)
  {
    InitInv(c, s);
  }

  lemma NextSettled(c: Config, s: State, s': State)
    requires c.snap.Valid() && Settled(c, s) && Next(c, s, s')
    ensures Settled(c, s')
    ensures s.notifications > 0 ==> s'.marked == s.marked && s'.notifications > 0
  {
    NextMeets(c, s, s');
    if c.recursion.OnScanned? {
      var i: nat, a: Action :| Enabled(c, s, i, a) && s' == Step(c, s, i, a);
      StepShallow(c, s, i, a);
      StepStarted(c, s, i, a);
    }
  }

  lemma {:induction false} RunSettled(c: Config, run: seq<State>, k: nat)
    requires c.snap.Valid() && IsRun(c, run) && k < |run|
    ensures Settled(c, run[k])
  {
    if k == 0 {
      InitSettled(c, run[0]);
    } else {
      RunSettled(c, run, k - 1);
      assert NextAt(c, run, k);
      NextSettled(c, run[k - 1], run[k]);
    }
  }

  lemma RootsMarked(c: Config, s: State, x: Addr)
    requires c.snap.Valid() && Meets(c, s) && s.notifications > 0 && IsRoot(c.snap, x)
    ensures x in s.marked
  {
    NotifiedIsQuiet(c, s);
    var r, p :| 0 <= r < |c.snap.ranges| && 0 <= p < |c.snap.ranges[r]| && c.snap.ranges[r][p] == x;
    assert Waits(s, r, p) || Covered(c, s, c.snap.ranges[r][p]);
  }

  /** Once the parent has been told, the tracked words of every block that was scanned are marked. */
  lemma CoveredIsMarked(c: Config, s: State, q: Addr, y: Addr)
    requires c.snap.Valid() && Meets(c, s) && s.notifications > 0 && BlockCovered(c, s, q)
    requires y in c.snap.words[q] && y in c.snap.tracked
    ensures y in s.marked
  {
    NotifiedIsQuiet(c, s);
    var k: nat :| k < |c.snap.words[q]| && c.snap.words[q][k] == y;
    assert WordCovered(c, s, q, k);
  }

  lemma WrittenClosed(c: Config, s: State, b: Addr, y: Addr)
    requires c.snap.Valid() && Settled(c, s) && c.recursion.OnScanned? && s.notifications > 0 && Complete(c.snap)
    requires b in s.marked && b in c.snap.tracked && y in c.snap.words[b] && y in c.snap.tracked
    ensures y in s.marked
  {
    if IsRoot(c.snap, y) {
      RootsMarked(c, s, y);
    } else {
      assert IsDirect(c.snap, b) && Beyond(c.snap, y);
      var r :| Carries(c.snap, r, y);
      RootsMarked(c, s, r);
      var q :| MetFrom(c, s, r, q);
      CoveredIsMarked(c, s, q, y);
    }
  }

  /** As child.c:170 is written, a completed scan marks every tracked root and nothing beyond the
      roots and the tracked blocks they refer to directly. */
  lemma AsWrittenMarks(c: Config, run: seq<State>, k: nat)
    requires c.snap.Valid() && IsRun(c, run) && c.recursion.OnScanned? && k < |run|
    ensures forall x :: x in run[k].marked ==> IsDirect(c.snap, x)
    ensures run[k].notifications > 0 ==> forall x :: IsRoot(c.snap, x) ==> x in run[k].marked
  {
    RunSettled(c, run, k);
    if run[k].notifications > 0 {
      forall x | IsRoot(c.snap, x) ensures x in run[k].marked { RootsMarked(c, run[k], x); }
    }
  }

  /** The marks of a completed scan are the least set if the recursion goes to the block just marked, and
      if it goes to the scanned block and the graph is complete. */
  lemma SettledLeast(c: Config, s: State)
    requires c.snap.Valid() && Settled(c, s) && s.notifications > 0
    requires c.recursion.OnTarget? || Complete(c.snap)
    ensures s.marked == LeastMarks(c.snap)
  {
    if c.recursion.OnTarget? {
      MeetsLeast(c, s);
    } else {
      forall x | IsRoot(c.snap, x) ensures x in s.marked { RootsMarked(c, s, x); }
      forall r, p | 0 <= r < |c.snap.ranges| && 0 <= p < |c.snap.ranges[r]| && c.snap.ranges[r][p] in c.snap.tracked
        ensures c.snap.ranges[r][p] in s.marked
      {
        assert IsRoot(c.snap, c.snap.ranges[r][p]);
      }
      forall b, k | b in s.marked && b in c.snap.tracked && 0 <= k < |c.snap.words[b]|
                    && c.snap.words[b][k] in c.snap.tracked
        ensures c.snap.words[b][k] in s.marked
      {
        WrittenClosed(c, s, b, c.snap.words[b][k]);
      }
      assert Closed(c.snap, s.marked);
      LeastMarksIsClosed(c.snap);
      assert Within(c, s, LeastMarks(c.snap));
      forall a | a in LeastMarks(c.snap) ensures a in s.marked {}
    }
  }

  /** Three tracked blocks in a chain, the first of which is referenced from outside. */
  const CHAIN := Snapshot({8, 16, 24}, map[8 := [16], 16 := [24], 24 := [0]], [[8]])

  /** Reading the only root of CHAIN into the batch and out again. */
  lemma ChainRootTaken(c: Config) returns (run: seq<State>)
    requires c == Config(CHAIN, OnScanned)
    ensures c.snap.Valid() && IsRun(c, run)
    ensures run[|run| - 1] == State(2, 0, {}, [Sibling(Draining, [], [], Some(8), 1)], 0)
  {
    run := Extend(c, [State(0, 0, {}, [FRESH], 0)], 0, Claim);
    run := Extend(c, run, 0, Batch);
    run := Extend(c, run, 0, EndRange);
    run := Extend(c, run, 0, Claim);
    run := Extend(c, run, 0, Take(0));
    assert run[|run| - 1].sibs[0].lookaside == [];
  }

  /** Marking the root and its referent; the recursion then starts over on the root. */
  lemma ChainMarked(c: Config) returns (run: seq<State>)
    requires c == Config(CHAIN, OnScanned)
    ensures c.snap.Valid() && IsRun(c, run)
    ensures run[|run| - 1] == State(2, 0, {8, 16}, [Sibling(Draining, [], [Frame(8, 1), Frame(8, 0)], None, 1)], 0)
  {
    run := ChainRootTaken(c);
    run := Extend(c, run, 0, Write);
    assert run[|run| - 1].sibs[0].stack == [Frame(8, 0)];
    run := Extend(c, run, 0, Test);
    run := Extend(c, run, 0, Write);
    assert run[|run| - 1].sibs[0].stack == [Frame(8, 1), Frame(8, 0)];
  }

  lemma ChainReachable()
    ensures CHAIN.Valid() && 24 in LeastMarks(CHAIN)
  {
    forall X: set<Addr> | Closed(CHAIN, X) ensures 24 in X {
      assert CHAIN.ranges[0][0] in X;
      assert CHAIN.words[8][0] in X;
      assert CHAIN.words[16][0] in X;
    }
  }

  /** The failure of line 170 as written: a completed scan that leaves a reachable block unmarked. */
  lemma AsWrittenMissesReachable() returns (run: seq<State>)
    ensures CHAIN.Valid() && IsRun(Config(CHAIN, OnScanned), run)
    ensures run[|run| - 1].notifications > 0
    ensures 24 in LeastMarks(CHAIN) && run[|run| - 1].marked == {8, 16}
  {
    var c := Config(CHAIN, OnScanned);
    run := ChainMarked(c);
    run := Extend(c, run, 0, Test);
    run := Extend(c, run, 0, Return);
    run := Extend(c, run, 0, Return);
    run := Extend(c, run, 0, Report);
    ChainReachable();
  }
}
