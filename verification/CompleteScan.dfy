/** The other half of AsWritten.Complete: on a graph that is not complete, line 170 as written leaves a
    reachable block unmarked in some scan.  The scan gives each root its own range and each range its own
    sibling, which empties its batch, the one root, when no range is left; the siblings whose roots do not
    refer to the block test their roots before any mark is written, scan them, and so mark the roots that
    do refer to it, which are then never scanned. */
module CompleteScan {
  import opened Words
  import opened ParallelScan
  import opened AsWritten

  ghost predicate Reachable(c: Config, s: State)
    requires c.snap.Valid()
  {
    exists run :: IsRun(c, run) && run[|run| - 1] == s
  }

  lemma ReachStep(c: Config, s: State, i: nat, a: Action)
    requires c.snap.Valid() && Reachable(c, s) && Enabled(c, s, i, a)
    ensures Reachable(c, Step(c, s, i, a))
  {
    var run :| IsRun(c, run) && run[|run| - 1] == s;
    var longer := Extend(c, run, i, a);
  }

  // ------------------------------------------------------------------ scanning one block

  /** Sibling i is in the middle of block x, alone: every activation is on x, and what the outermost one
      has passed is marked. */
  ghost predicate InBlock(c: Config, s: State, i: nat, x: Addr)
    requires c.snap.Valid()
  {
    && i < |s.sibs| && x in c.snap.tracked && s.sibs[i].pending.None?
    && Activations(s.sibs[i].stack, x, |c.snap.words[x]|)
    && (s.sibs[i].stack != [] ==> Passed(c.snap, s.marked, x, s.sibs[i].stack[0].next))
    && (s.sibs[i].stack == [] ==> Passed(c.snap, s.marked, x, |c.snap.words[x]|))
  }

  ghost predicate Activations(q: seq<Frame>, x: Addr, len: nat) {
    forall f :: 0 <= f < |q| ==> q[f].block == x && q[f].next <= len
  }

  ghost predicate Passed(sn: Snapshot, marked: set<Addr>, x: Addr, n: nat)
    requires sn.Valid() && x in sn.tracked
  {
    forall k :: 0 <= k < n && k < |sn.words[x]| && sn.words[x][k] in sn.tracked ==> sn.words[x][k] in marked
  }

  /** t is s but for marks on words of x and for the activations of sibling i. */
  ghost predicate OnlyMarks(c: Config, s: State, t: State, i: nat, x: Addr)
    requires c.snap.Valid() && x in c.snap.tracked
  {
    && i < |s.sibs| && i < |t.sibs|
    && t == s.(marked := t.marked, sibs := s.sibs[i := s.sibs[i].(stack := t.sibs[i].stack)])
    && s.marked <= t.marked && forall y :: y in t.marked && y !in s.marked ==> y in c.snap.words[x]
  }

  function Left(q: seq<Frame>, len: nat): nat {
    if q == [] then 0 else Left(q[..|q| - 1], len) + 1 + (if q[|q| - 1].next <= len then len - q[|q| - 1].next else 0)
  }

  ghost function Unmarked(c: Config, s: State): nat { |c.snap.tracked - s.marked| }

  /** One turn: pass a word, finish an activation, or mark a word and start over. */
  lemma Turn(c: Config, s: State, i: nat, x: Addr) returns (t: State)
    requires c.snap.Valid() && c.recursion.OnScanned? && Reachable(c, s) && InBlock(c, s, i, x) && s.sibs[i].stack != []
    ensures Reachable(c, t) && InBlock(c, t, i, x) && OnlyMarks(c, s, t, i, x)
    ensures Unmarked(c, t) < Unmarked(c, s)
         || (t.marked == s.marked
             && Left(t.sibs[i].stack, |c.snap.words[x]|) < Left(s.sibs[i].stack, |c.snap.words[x]|))
  {
    var b := s.sibs[i];
    if Top(b).next == |c.snap.words[x]| {
      t := Step(c, s, i, Return);
      ReachStep(c, s, i, Return);
    } else if c.snap.words[x][Top(b).next] in c.snap.tracked && c.snap.words[x][Top(b).next] !in s.marked {
      t := TurnMarks(c, s, i, x);
    } else {
      t := Step(c, s, i, Test);
      ReachStep(c, s, i, Test);
      assert t.sibs[i].stack[..|b.stack| - 1] == b.stack[..|b.stack| - 1];
    }
  }

  lemma TurnMarks(c: Config, s: State, i: nat, x: Addr) returns (t: State)
    requires c.snap.Valid() && c.recursion.OnScanned? && Reachable(c, s) && InBlock(c, s, i, x) && s.sibs[i].stack != []
    requires Top(s.sibs[i]).next < |c.snap.words[x]|
    requires c.snap.words[x][Top(s.sibs[i]).next] in c.snap.tracked && c.snap.words[x][Top(s.sibs[i]).next] !in s.marked
    ensures Reachable(c, t) && InBlock(c, t, i, x) && OnlyMarks(c, s, t, i, x) && Unmarked(c, t) < Unmarked(c, s)
  {
    var y := c.snap.words[x][Top(s.sibs[i]).next];
    var u := Step(c, s, i, Test);
    ReachStep(c, s, i, Test);
    t := Step(c, u, i, Write);
    ReachStep(c, u, i, Write);
    MarkedIn(c, s, i, x);
    FewerUnmarked(c, s, t, y);
  }

  lemma FewerUnmarked(c: Config, s: State, t: State, y: Addr)
    requires t.marked == s.marked + {y} && y in c.snap.tracked && y !in s.marked
    ensures Unmarked(c, t) < Unmarked(c, s)
  {
    assert c.snap.tracked - s.marked == (c.snap.tracked - t.marked) + {y};
  }

  /** The test and the write, together. */
  lemma MarkedIn(c: Config, s: State, i: nat, x: Addr)
    requires c.snap.Valid() && c.recursion.OnScanned? && InBlock(c, s, i, x) && s.sibs[i].stack != []
    requires Top(s.sibs[i]).next < |c.snap.words[x]|
    requires c.snap.words[x][Top(s.sibs[i]).next] in c.snap.tracked && c.snap.words[x][Top(s.sibs[i]).next] !in s.marked
    ensures Enabled(c, s, i, Test) && Enabled(c, Step(c, s, i, Test), i, Write)
    ensures var t := Step(c, Step(c, s, i, Test), i, Write);
      && t.marked == s.marked + {c.snap.words[x][Top(s.sibs[i]).next]}
      && InBlock(c, t, i, x) && OnlyMarks(c, s, t, i, x)
  {
    var t := Step(c, Step(c, s, i, Test), i, Write);
    assert t.sibs == s.sibs[i := s.sibs[i].(stack := t.sibs[i].stack)];
  }

  /** A sibling that has begun a block can go on to its end, with all tracked words of it marked. */
  lemma {:induction false} FinishBlock(c: Config, s: State, i: nat, x: Addr) returns (t: State)
    requires c.snap.Valid() && c.recursion.OnScanned? && Reachable(c, s) && InBlock(c, s, i, x)
    ensures Reachable(c, t) && InBlock(c, t, i, x) && OnlyMarks(c, s, t, i, x) && t.sibs[i].stack == []
    decreases Unmarked(c, s), Left(s.sibs[i].stack, |c.snap.words[x]|)
  {
    t := s;
    if s.sibs[i].stack != [] {
      var u := Turn(c, s, i, x);
      t := FinishBlock(c, u, i, x);
    }
  }

  // ------------------------------------------------------------------ the scan

  function OwnRanges(roots: seq<Addr>): seq<seq<Addr>> { seq(|roots|, i requires 0 <= i < |roots| => [roots[i]]) }

  /** How far a sibling has got. */
  datatype Stage = Start | Read | Batched | Tested | Quiet | Done

  ghost predicate At(b: Sibling, j: nat, root: Addr, g: Stage) {
    match g
    case Start => b == FRESH
    case Read => b == Sibling(Scanning(j, 1), [root], [], None, 0)
    case Batched => b == Sibling(Draining, [root], [], None, 1)
    case Tested => b == Sibling(Draining, [], [], Some(root), 1)
    case Quiet => b == Sibling(Draining, [], [], None, 1)
    case Done => b.phase.Reported?
  }

  /** The siblings are at the stages g; y is not marked. */
  ghost predicate Along(c: Config, roots: seq<Addr>, y: Addr, s: State, g: seq<Stage>)
    requires c.snap.Valid()
  {
    && Reachable(c, s) && |s.sibs| == |roots| == |g| && y !in s.marked
    && forall j :: 0 <= j < |roots| ==> At(s.sibs[j], j, roots[j], g[j])
  }

  ghost predicate Setting(c: Config, roots: seq<Addr>, y: Addr) {
    && c.snap.Valid() && c.recursion.OnScanned? && roots != [] && c.snap.ranges == OwnRanges(roots)
    && (forall j :: 0 <= j < |roots| ==> roots[j] in c.snap.tracked && roots[j] != y)
  }

  predicate Refers(c: Config, r: Addr, y: Addr)
    requires c.snap.Valid() && r in c.snap.tracked
  {
    y in c.snap.words[r]
  }

  function Stages(n: nat, g: Stage): seq<Stage> { seq(n, _ => g) }

  lemma OneReads(c: Config, roots: seq<Addr>, y: Addr, s: State, g: seq<Stage>, j: nat) returns (t: State)
    requires Setting(c, roots, y) && Along(c, roots, y, s, g) && j < |roots| && g[j] == Start
    requires s.marked == {} && s.rootCounter == j
    ensures Along(c, roots, y, t, g[j := Read]) && t.marked == {} && t.rootCounter == j + 1
  {
    assert At(s.sibs[j], j, roots[j], Start);
    var u := Step(c, s, j, Claim);
    ReachStep(c, s, j, Claim);
    assert u.sibs[j] == Sibling(Scanning(j, 0), [], [], None, 0);
    t := Step(c, u, j, Batch);
    ReachStep(c, u, j, Batch);
    assert t.sibs[j].lookaside == [roots[j]];
  }

  lemma AtStart(c: Config, roots: seq<Addr>, y: Addr) returns (s: State)
    requires Setting(c, roots, y)
    ensures Along(c, roots, y, s, Stages(|roots|, Start)) && s.marked == {} && s.rootCounter == 0
  {
    s := State(0, 0, {}, seq(|roots|, _ => FRESH), 0);
    assert IsRun(c, [s]) && [s][|[s]| - 1] == s;
  }

  /** Every sibling claims its range and puts its root aside. */
  lemma AllRead(c: Config, roots: seq<Addr>, y: Addr) returns (s: State)
    requires Setting(c, roots, y)
    ensures Along(c, roots, y, s, Stages(|roots|, Read)) && s.marked == {} && s.rootCounter == |roots|
  {
    s := AtStart(c, roots, y);
    var g := Stages(|roots|, Start);
    for j := 0 to |roots|
      invariant Along(c, roots, y, s, g) && s.marked == {} && s.rootCounter == j
      invariant forall k :: 0 <= k < |roots| ==> g[k] == if k < j then Read else Start
    {
      s := OneReads(c, roots, y, s, g, j);
      g := g[j := Read];
    }
    assert g == Stages(|roots|, Read);
  }

  /** The sibling finds no range left: it goes on with its batch. */
  lemma OneDrains(c: Config, roots: seq<Addr>, y: Addr, s: State, g: seq<Stage>, j: nat) returns (t: State)
    requires Setting(c, roots, y) && Along(c, roots, y, s, g) && j < |roots| && g[j] == Read
    requires s.marked == {} && s.rootCounter >= |roots|
    ensures Along(c, roots, y, t, g[j := Batched]) && t.marked == {} && t.rootCounter >= |roots|
  {
    assert At(s.sibs[j], j, roots[j], Read);
    var u := Step(c, s, j, EndRange);
    ReachStep(c, s, j, EndRange);
    assert u.sibs[j] == Sibling(Claiming, [roots[j]], [], None, 1);
    t := Step(c, u, j, Claim);
    ReachStep(c, u, j, Claim);
  }

  lemma AllBatch(c: Config, roots: seq<Addr>, y: Addr) returns (s: State)
    requires Setting(c, roots, y)
    ensures Along(c, roots, y, s, Stages(|roots|, Batched)) && s.marked == {}
  {
    s := AllRead(c, roots, y);
    var g := Stages(|roots|, Read);
    for j := 0 to |roots|
      invariant Along(c, roots, y, s, g) && s.marked == {} && s.rootCounter >= |roots|
      invariant forall k :: 0 <= k < |roots| ==> g[k] == if k < j then Batched else Read
    {
      s := OneDrains(c, roots, y, s, g, j);
      g := g[j := Batched];
    }
    assert g == Stages(|roots|, Batched);
  }

  /** Taking a root out of the batch: it is to be marked if it is not, and dropped if it is. */
  lemma OneTakes(c: Config, roots: seq<Addr>, y: Addr, s: State, g: seq<Stage>, j: nat) returns (t: State)
    requires Setting(c, roots, y) && Along(c, roots, y, s, g) && j < |roots| && g[j] == Batched
    ensures Along(c, roots, y, t, g[j := if roots[j] in s.marked then Quiet else Tested])
    ensures t.marked == s.marked
  {
    assert At(s.sibs[j], j, roots[j], Batched);
    ReachStep(c, s, j, Take(0));
    t := Step(c, s, j, Take(0));
    assert t.sibs[j].lookaside == [];
  }

  /** The siblings whose roots do not refer to y test their roots, while nothing is marked. */
  lemma OthersTest(c: Config, roots: seq<Addr>, y: Addr, s0: State) returns (s: State, g: seq<Stage>)
    requires Setting(c, roots, y)
    requires Along(c, roots, y, s0, Stages(|roots|, Batched)) && s0.marked == {}
    ensures Along(c, roots, y, s, g) && s.marked == {}
    ensures forall k :: 0 <= k < |roots| ==> g[k] == if Refers(c, roots[k], y) then Batched else Tested
  {
    s, g := s0, Stages(|roots|, Batched);
    for j := 0 to |roots|
      invariant Along(c, roots, y, s, g) && s.marked == {}
      invariant forall k :: 0 <= k < |roots| ==> g[k] == if k < j && !Refers(c, roots[k], y) then Tested else Batched
    {
      if !Refers(c, roots[j], y) {
        s := OneTakes(c, roots, y, s, g, j);
        g := g[j := Tested];
      }
    }
  }

  /** One of them marks its root and scans it. */
  lemma OneScans(c: Config, roots: seq<Addr>, y: Addr, s: State, g: seq<Stage>, j: nat) returns (t: State)
    requires Setting(c, roots, y) && Along(c, roots, y, s, g) && j < |roots| && g[j] == Tested
    requires !Refers(c, roots[j], y)
    ensures Along(c, roots, y, t, g[j := Quiet]) && s.marked <= t.marked
    ensures Passed(c.snap, t.marked, roots[j], |c.snap.words[roots[j]]|)
  {
    var x := roots[j];
    var u := Step(c, s, j, Write);
    ReachStep(c, s, j, Write);
    assert u.sibs[j].stack == [Frame(x, 0)];
    t := FinishBlock(c, u, j, x);
  }

  /** All of them do.  Afterwards everything that their roots refer to is marked. */
  lemma OthersScan(c: Config, roots: seq<Addr>, y: Addr, s0: State, g0: seq<Stage>) returns (s: State, g: seq<Stage>)
    requires Setting(c, roots, y) && Along(c, roots, y, s0, g0)
    requires forall k :: 0 <= k < |roots| ==> g0[k] == if Refers(c, roots[k], y) then Batched else Tested
    ensures Along(c, roots, y, s, g)
    ensures forall k :: 0 <= k < |roots| ==> g[k] == if Refers(c, roots[k], y) then Batched else Quiet
    ensures forall k :: 0 <= k < |roots| && !Refers(c, roots[k], y) ==>
              Passed(c.snap, s.marked, roots[k], |c.snap.words[roots[k]]|)
  {
    s, g := s0, g0;
    for j := 0 to |roots|
      invariant Along(c, roots, y, s, g)
      invariant forall k :: 0 <= k < |roots| ==>
                  g[k] == if Refers(c, roots[k], y) then Batched else if k < j then Quiet else Tested
      invariant forall k :: 0 <= k < j && !Refers(c, roots[k], y) ==>
                  Passed(c.snap, s.marked, roots[k], |c.snap.words[roots[k]]|)
    {
      if !Refers(c, roots[j], y) {
        s := OneScans(c, roots, y, s, g, j);
        g := g[j := Quiet];
      }
    }
  }

  /** The other siblings find their roots marked and leave them. */
  lemma RestIsMarked(c: Config, roots: seq<Addr>, y: Addr, s0: State, g0: seq<Stage>) returns (s: State)
    requires Setting(c, roots, y) && Along(c, roots, y, s0, g0)
    requires forall k :: 0 <= k < |roots| ==> g0[k] == if Refers(c, roots[k], y) then Batched else Quiet
    requires forall k :: 0 <= k < |roots| && Refers(c, roots[k], y) ==> roots[k] in s0.marked
    ensures Along(c, roots, y, s, Stages(|roots|, Quiet))
  {
    s := s0;
    var g := g0;
    for j := 0 to |roots|
      invariant Along(c, roots, y, s, g) && s.marked == s0.marked
      invariant forall k :: 0 <= k < |roots| ==> g[k] == if k >= j && Refers(c, roots[k], y) then Batched else Quiet
    {
      if Refers(c, roots[j], y) {
        s := OneTakes(c, roots, y, s, g, j);
        g := g[j := Quiet];
      }
    }
    assert g == Stages(|roots|, Quiet);
  }

  lemma OneReports(c: Config, roots: seq<Addr>, y: Addr, s: State, g: seq<Stage>, j: nat) returns (t: State)
    requires Setting(c, roots, y) && Along(c, roots, y, s, g) && j < |roots| && g[j] == Quiet
    ensures Along(c, roots, y, t, g[j := Done])
  {
    assert At(s.sibs[j], j, roots[j], Quiet);
    t := Step(c, s, j, Report);
    ReachStep(c, s, j, Report);
  }

  /** Everybody reports. */
  lemma AllReport(c: Config, roots: seq<Addr>, y: Addr, s0: State) returns (s: State)
    requires Setting(c, roots, y) && Along(c, roots, y, s0, Stages(|roots|, Quiet))
    ensures Along(c, roots, y, s, Stages(|roots|, Done))
  {
    s := s0;
    var g := Stages(|roots|, Quiet);
    for j := 0 to |roots|
      invariant Along(c, roots, y, s, g)
      invariant forall k :: 0 <= k < |roots| ==> g[k] == if k < j then Done else Quiet
    {
      s := OneReports(c, roots, y, s, g, j);
      g := g[j := Done];
    }
    assert g == Stages(|roots|, Done);
  }

  /** Every root that refers to y is met in a root that does not. */
  ghost predicate Shielded(c: Config, roots: seq<Addr>, y: Addr)
    requires Setting(c, roots, y)
  {
    forall k :: 0 <= k < |roots| && Refers(c, roots[k], y) ==> exists q :: Shields(c, roots, y, k, q)
  }

  ghost predicate Shields(c: Config, roots: seq<Addr>, y: Addr, k: nat, q: nat)
    requires Setting(c, roots, y) && k < |roots|
  {
    q < |roots| && !Refers(c, roots[q], y) && Refers(c, roots[q], roots[k])
  }

  lemma ShieldedAreMarked(c: Config, roots: seq<Addr>, y: Addr, marked: set<Addr>, k: nat)
    requires Setting(c, roots, y) && Shielded(c, roots, y) && k < |roots| && Refers(c, roots[k], y)
    requires forall q :: 0 <= q < |roots| && !Refers(c, roots[q], y) ==>
               Passed(c.snap, marked, roots[q], |c.snap.words[roots[q]]|)
    ensures roots[k] in marked
  {
    var q: nat :| Shields(c, roots, y, k, q);
    var i :| 0 <= i < |c.snap.words[roots[q]]| && c.snap.words[roots[q]][i] == roots[k];
    assert Passed(c.snap, marked, roots[q], |c.snap.words[roots[q]]|);
  }

  lemma AllQuiet(c: Config, roots: seq<Addr>, y: Addr) returns (s: State)
    requires Setting(c, roots, y) && Shielded(c, roots, y)
    ensures Along(c, roots, y, s, Stages(|roots|, Quiet))
  {
    s := AllBatch(c, roots, y);
    var g;
    s, g := OthersTest(c, roots, y, s);
    s, g := OthersScan(c, roots, y, s, g);
    forall k | 0 <= k < |roots| && Refers(c, roots[k], y) ensures roots[k] in s.marked {
      ShieldedAreMarked(c, roots, y, s.marked, k);
    }
    s := RestIsMarked(c, roots, y, s, g);
  }

  /** The whole run, after which y is not marked. */
  lemma MissedBy(c: Config, roots: seq<Addr>, y: Addr) returns (run: seq<State>)
    requires Setting(c, roots, y) && Shielded(c, roots, y)
    ensures IsRun(c, run) && run[|run| - 1].notifications > 0 && y !in run[|run| - 1].marked
  {
    var s := AllQuiet(c, roots, y);
    s := AllReport(c, roots, y, s);
    run := Witness(c, s);
    RunMeets(c, run, |run| - 1);
    forall j | 0 <= j < |s.sibs| ensures s.sibs[j].phase.Reported? { assert At(s.sibs[j], j, roots[j], Done); }
    AllReported(c, s);
  }

  lemma Witness(c: Config, s: State) returns (run: seq<State>)
    requires c.snap.Valid() && Reachable(c, s)
    ensures IsRun(c, run) && run[|run| - 1] == s
  {
    run :| IsRun(c, run) && run[|run| - 1] == s;
  }

  // ------------------------------------------------------------------ the theorem

  /** The same tracked blocks, references and tracked roots; the roots may be divided into ranges, and met
      in them, in any other way. */
  ghost predicate SameGraph(sn: Snapshot, sn': Snapshot) {
    && sn'.tracked == sn.tracked && sn'.words == sn.words
    && forall x :: IsRoot(sn', x) <==> IsRoot(sn, x)
  }

  /** A run of line 170 as written after which the parent has been told. */
  ghost predicate Scan(sn: Snapshot, run: seq<State>)
    requires sn.Valid()
  {
    IsRun(Config(sn, OnScanned), run) && run[|run| - 1].notifications > 0
  }

  lemma SameClosed(sn: Snapshot, sn': Snapshot, X: set<Addr>)
    requires sn.Valid() && sn'.Valid() && SameGraph(sn, sn') && Closed(sn, X)
    ensures Closed(sn', X)
  {
    forall r, p | 0 <= r < |sn'.ranges| && 0 <= p < |sn'.ranges[r]| && sn'.ranges[r][p] in sn'.tracked
      ensures sn'.ranges[r][p] in X
    {
      assert IsRoot(sn', sn'.ranges[r][p]);
    }
  }

  lemma SameLeast(sn: Snapshot, sn': Snapshot)
    requires sn.Valid() && sn'.Valid() && SameGraph(sn, sn')
    ensures LeastMarks(sn') == LeastMarks(sn)
  {
    forall X: set<Addr> ensures Closed(sn, X) <==> Closed(sn', X) {
      if Closed(sn, X) { SameClosed(sn, sn', X); }
      if Closed(sn', X) { SameClosed(sn', sn, X); }
    }
  }

  lemma SameComplete(sn: Snapshot, sn': Snapshot)
    requires sn.Valid() && sn'.Valid() && SameGraph(sn, sn') && Complete(sn)
    ensures Complete(sn')
  {
    forall y | Beyond(sn', y) ensures exists r :: Carries(sn', r, y) {
      assert Beyond(sn, y);
      var r :| Carries(sn, r, y);
      assert Carries(sn', r, y);
    }
  }

  lemma {:induction false} Listed(xs: set<Addr>) returns (q: seq<Addr>)
    ensures forall x :: x in q <==> x in xs
  {
    q := [];
    if xs != {} {
      var x :| x in xs;
      q := Listed(xs - {x});
      q := q + [x];
    }
  }

  lemma BeyondIsReachable(sn: Snapshot, y: Addr)
    requires sn.Valid() && Beyond(sn, y)
    ensures y in LeastMarks(sn) && exists b :: IsRoot(sn, b)
  {
    LeastMarksIsClosed(sn);
    var b :| IsDirect(sn, b) && y in sn.words[b];
    DirectIsReachable(sn, b);
    var k :| 0 <= k < |sn.words[b]| && sn.words[b][k] == y;
  }

  lemma DirectIsReachable(sn: Snapshot, b: Addr)
    requires sn.Valid() && IsDirect(sn, b)
    ensures b in sn.tracked && b in LeastMarks(sn) && exists r :: IsRoot(sn, r)
  {
    LeastMarksIsClosed(sn);
    if !IsRoot(sn, b) {
      var r :| IsRoot(sn, r) && b in sn.words[r];
      var k :| 0 <= k < |sn.words[r]| && sn.words[r][k] == b;
      assert r in LeastMarks(sn);
    }
  }

  /** The block y keeps the graph from being complete. */
  ghost predicate Uncarried(sn: Snapshot, y: Addr)
    requires sn.Valid()
  {
    Beyond(sn, y) && !exists r :: Carries(sn, r, y)
  }

  /** A graph that is not complete has a scan that leaves a reachable block unmarked: any block that keeps
      it from being complete. */
  lemma IncompleteMisses(sn: Snapshot, y: Addr) returns (sn': Snapshot, run: seq<State>)
    requires sn.Valid() && Uncarried(sn, y)
    ensures sn'.Valid() && SameGraph(sn, sn') && Scan(sn', run)
    ensures y in LeastMarks(sn) && y !in run[|run| - 1].marked
  {
    BeyondIsReachable(sn, y);
    var roots := Listed(set x | x in sn.tracked && IsRoot(sn, x));
    var root :| IsRoot(sn, root);
    assert root in roots;
    sn' := sn.(ranges := OwnRanges(roots));
    forall x ensures IsRoot(sn', x) <==> IsRoot(sn, x) {
      if x in roots {
        var k :| 0 <= k < |roots| && roots[k] == x;
        assert sn'.ranges[k][0] == x;
      }
    }
    var c := Config(sn', OnScanned);
    forall j | 0 <= j < |roots| ensures roots[j] in sn.tracked && roots[j] != y { assert roots[j] in roots; }
    forall k | 0 <= k < |roots| && Refers(c, roots[k], y) ensures exists q :: Shields(c, roots, y, k, q) {
      assert roots[k] in roots && !Carries(sn, roots[k], y);
      var r :| IsRoot(sn, r) && roots[k] in sn.words[r] && y !in sn.words[r];
      assert r in roots;
      var q :| 0 <= q < |roots| && roots[q] == r;
      assert Shields(c, roots, y, k, q);
    }
    run := MissedBy(c, roots, y);
  }

  /** The exact condition for line 170 as written: every completed scan marks exactly the reachable
      blocks, for every number of siblings, division of the roots and interleaving, if and only if the
      graph is complete. */
  lemma CompleteIff(sn: Snapshot)
    requires sn.Valid()
    ensures Complete(sn) <==>
      forall sn': Snapshot, run: seq<State> :: sn'.Valid() && SameGraph(sn, sn') && Scan(sn', run) ==>
        run[|run| - 1].marked == LeastMarks(sn)
  {
    if Complete(sn) {
      forall sn': Snapshot, run: seq<State> | sn'.Valid() && SameGraph(sn, sn') && Scan(sn', run)
        ensures run[|run| - 1].marked == LeastMarks(sn)
      {
        SameComplete(sn, sn');
        SameLeast(sn, sn');
        RunSettled(Config(sn', OnScanned), run, |run| - 1);
        SettledLeast(Config(sn', OnScanned), run[|run| - 1]);
      }
    } else {
      var y :| Beyond(sn, y) && !exists r :: Carries(sn, r, y);
      var sn', run := IncompleteMisses(sn, y);
    }
  }
}
