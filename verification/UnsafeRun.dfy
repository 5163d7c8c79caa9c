/** A run of the whole machine in which a reachable block is freed, because the recursion of
    recursive_mark goes where child.c:170 sends it. */
module UnsafeRun {
  import opened Words
  import opened Lifecycle
  import R = Retirees
  import P = ParallelScan
  import W = AsWritten
  import C = CompleteScan

  lemma Extend(run: seq<State>, a: Action) returns (longer: seq<State>)
    requires IsRun(run) && Enabled(run[|run| - 1], a)
    ensures IsRun(longer) && run <= longer && longer[|longer| - 1] == Step(run[|run| - 1], a)
  {
    longer := run + [Step(run[|run| - 1], a)];
    forall k: nat | 0 < k < |longer| ensures NextAt(longer, k) {
      if k < |run| { assert NextAt(run, k); } else { assert Next(run[|run| - 1], longer[k]); }
    }
  }

  // ------------------------------------------------------------------ from any incomplete snapshot

  lemma ScanStep(run: seq<State>, after: P.State) returns (longer: seq<State>)
    requires IsRun(run) && run[|run| - 1].gc.Scanning? && run[|run| - 1].gc.snap.Valid()
    requires P.Next(ScanConfig(run[|run| - 1]), run[|run| - 1].gc.scan, after)
    ensures IsRun(longer) && run <= longer && longer[|longer| - 1] == ScanAt(run[|run| - 1], after)
  {
    var s := run[|run| - 1];
    var c := ScanConfig(s);
    var i: nat, a: P.Action :| P.Enabled(c, s.gc.scan, i, a) && after == P.Step(c, s.gc.scan, i, a);
    longer := Extend(run, Scan(i, a));
  }

  function ScanAt(s: State, scan: P.State): State
    requires s.gc.Scanning?
  {
    s.(gc := s.gc.(scan := scan))
  }

  /** The scan of the machine can take any run of the scanner. */
  lemma {:induction false} Follow(run: seq<State>, scans: seq<P.State>, k: nat) returns (longer: seq<State>)
    requires IsRun(run) && run[|run| - 1].gc.Scanning? && run[|run| - 1].gc.snap.Valid() && k < |scans|
    requires P.IsRun(ScanConfig(run[|run| - 1]), scans) && run[|run| - 1].gc.scan == scans[0]
    ensures IsRun(longer) && run <= longer && longer[|longer| - 1] == ScanAt(run[|run| - 1], scans[k])
  {
    longer := run;
    if k > 0 {
      longer := Follow(run, scans, k - 1);
      assert P.NextAt(ScanConfig(run[|run| - 1]), scans, k);
      longer := ScanStep(longer, scans[k]);
    }
  }

  lemma StartOf(s: P.State)
    requires P.Init(s)
    ensures s == P.State(0, 0, {}, seq(|s.sibs|, _ => P.FRESH), 0)
  {
    assert s.sibs == seq(|s.sibs|, _ => P.FRESH);
  }

  lemma SameSnapshot(s: State, order: seq<Addr>, dead: set<Addr>, sn: P.Snapshot, sn': P.Snapshot)
    requires Enabled(s, Snap(order, dead, sn, 1)) && C.SameGraph(sn, sn')
    ensures Enabled(s, Snap(order, dead, sn', 1)) && forall y :: y in order <==> y in sn.tracked
  {
    assert IsSnapshot(s, order, dead, sn');
  }

  /** The snapshot and a scan of it by as many siblings as the scan takes. */
  lemma SnapAndScan(run: seq<State>, order: seq<Addr>, dead: set<Addr>, sn: P.Snapshot, scans: seq<P.State>)
    returns (longer: seq<State>)
    requires IsRun(run) && Enabled(run[|run| - 1], Snap(order, dead, sn, 1))
    requires P.IsRun(P.Config(sn, run[|run| - 1].recursion), scans)
    ensures IsRun(longer) && run <= longer
    ensures var s, t := run[|run| - 1], longer[|longer| - 1];
      t == s.(gc := Scanning(order, sn, scans[|scans| - 1]), adequate := t.adequate)
  {
    StartOf(scans[0]);
    longer := Extend(run, Snap(order, dead, sn, |scans[0].sibs|));
    longer := Follow(longer, scans, |scans| - 1);
  }

  /** What the scan has left unmarked waits to be freed once the buffer is published. */
  lemma PublishUnmarked(run: seq<State>, y: Addr) returns (longer: seq<State>)
    requires IsRun(run) && run[|run| - 1].gc.Scanning? && run[|run| - 1].gc.scan.notifications > 0
    requires y in run[|run| - 1].gc.work && y !in run[|run| - 1].gc.scan.marked
    ensures IsRun(longer) && run <= longer && ToBeFreed(longer[|longer| - 1], y)
    ensures var s, t := run[|run| - 1], longer[|longer| - 1];
      t.heap == s.heap && t.stacks == s.stacks && t.owner.Keys == s.owner.Keys
  {
    var s := run[|run| - 1];
    RunInv(run, |run| - 1);
    var b := R.FreshBuffer(s.r.buffers.Keys);
    longer := Extend(run, Publish(b));
    var k: nat :| k < |s.gc.work| && s.gc.work[k] == y;
    assert R.Occupied(longer[|longer| - 1].r, b, k, y) && R.LiveAt(longer[|longer| - 1].r.buffers, b, k);
  }

  lemma SameReach(s: State, t: State, y: Addr)
    requires t.heap == s.heap && t.stacks == s.stacks && t.owner.Keys == s.owner.Keys && Reachable(s, y)
    ensures Reachable(t, y)
  {
    var p :| IsPath(s, p) && p[|p| - 1] == y;
    if !StackRefers(s, p[0]) {
      var c :| c in s.heap && c !in s.owner && Refers(s.heap[c], p[0]);
      assert c in t.heap && c !in t.owner.Keys;
    }
    assert StackRefers(s, p[0]) ==> StackRefers(t, p[0]);
    forall i | 0 <= i < |p| - 1 ensures p[i] in t.heap {
      var x, y := p[i], p[i + 1];
      assert x in s.heap && Refers(s.heap[x], y);
    }
    assert IsPath(t, p);
  }

  /** The safety theorem needs its condition on the snapshots.  Whenever, in any run with line 170 as written,
      the GC thread is about to take a snapshot that a reachable block keeps from being complete, the run can
      go on so that this block waits to be freed while it is still reachable. */
  lemma IncompleteIsUnsafe(run: seq<State>, order: seq<Addr>, dead: set<Addr>, sn: P.Snapshot, y: Addr)
    returns (longer: seq<State>)
    requires IsRun(run) && run[|run| - 1].recursion.OnScanned?
    requires Enabled(run[|run| - 1], Snap(order, dead, sn, 1))
    requires C.Uncarried(sn, y) && Reachable(run[|run| - 1], y)
    ensures IsRun(longer) && run <= longer
    ensures ToBeFreed(longer[|longer| - 1], y) && Reachable(longer[|longer| - 1], y)
  {
    var s := run[|run| - 1];
    var sn', scans := C.IncompleteMisses(sn, y);
    SameSnapshot(s, order, dead, sn, sn');
    longer := SnapAndScan(run, order, dead, sn', scans);
    var t := longer[|longer| - 1];
    longer := PublishUnmarked(longer, y);
    SameReach(s, t, y);
    SameReach(t, longer[|longer| - 1], y);
  }

  // ------------------------------------------------------------------ one such run

  function Quiet(): R.State { R.State(map[], [], None, [R.Worker(None, 0, 0, R.Outside)], R.Resting) }

  /** One thread, which knows the words `stack` and has retired `retired`; nothing has been drained. */
  ghost predicate Mutating(s: State, heap: map<Addr, seq<nat>>, stack: set<nat>, retired: seq<Addr>) {
    && s.recursion.OnScanned? && s.heap == heap && s.stacks == [stack] && s.queues == [retired] && s.r == Quiet()
    && s.drained == [] && s.pending == [] && s.uncollected == [] && s.gc == Idle
    && forall x :: x in s.owner <==> x in retired
  }

  lemma Allocates(run: seq<State>, heap: map<Addr, seq<nat>>, stack: set<nat>, p: Addr) returns (longer: seq<State>)
    requires IsRun(run) && Mutating(run[|run| - 1], heap, stack, []) && p !in heap && p > 0 && p % 8 == 0
    ensures IsRun(longer) && Mutating(longer[|longer| - 1], heap[p := [0]], stack + {p}, [])
  {
    longer := Extend(run, Alloc(0, p, 1));
    assert Zeros(1) == [0];
  }

  lemma Stores(run: seq<State>, heap: map<Addr, seq<nat>>, stack: set<nat>, p: Addr, v: nat)
    returns (longer: seq<State>)
    requires IsRun(run) && Mutating(run[|run| - 1], heap, stack, []) && p in heap && |heap[p]| == 1
    requires PtrMask(p) == p && p in stack && v in stack
    ensures IsRun(longer) && Mutating(longer[|longer| - 1], heap[p := [v]], stack, [])
  {
    longer := Extend(run, Store(0, p, 0, v));
    assert Updated(heap[p], 0, v) == [v];
  }

  /** The thread retires the block and forgets it, if it is to. */
  lemma Retires(run: seq<State>, heap: map<Addr, seq<nat>>, stack: set<nat>, retired: seq<Addr>, p: Addr, keep: bool)
    returns (longer: seq<State>)
    requires IsRun(run) && Mutating(run[|run| - 1], heap, stack, retired) && p in heap && p in stack && p !in retired
    ensures IsRun(longer)
    ensures Mutating(longer[|longer| - 1], heap, if keep then stack else stack - {p}, retired + [p])
  {
    longer := Extend(run, Retire(0, p));
    assert Mutating(longer[|longer| - 1], heap, stack, retired + [p]);
    if !keep { longer := Extend(longer, Forget(0, p)); }
  }

  lemma Start() returns (run: seq<State>)
    ensures IsRun(run) && Mutating(run[|run| - 1], map[], {}, [])
  {
    run := [State(P.OnScanned, true, map[], [{}], [[]], [], [], [], Idle, Quiet(), map[])];
  }

  /** Three blocks in a chain, the first in a thread's hands. */
  lemma Chained() returns (run: seq<State>)
    ensures IsRun(run)
    ensures Mutating(run[|run| - 1], map[8 := [16], 16 := [24], 24 := [0]], {8, 16, 24}, [])
  {
    run := Start();
    var heap, stack := map[], {};
    run := Allocates(run, heap, stack, 8);
    heap, stack := heap[8 := [0]], stack + {8};
    run := Allocates(run, heap, stack, 16);
    heap, stack := heap[16 := [0]], stack + {16};
    run := Allocates(run, heap, stack, 24);
    heap, stack := heap[24 := [0]], stack + {24};
    run := Stores(run, heap, stack, 8, 16);
    heap := heap[8 := [16]];
    run := Stores(run, heap, stack, 16, 24);
    heap := heap[16 := [24]];
    assert heap == map[8 := [16], 16 := [24], 24 := [0]] && stack == {8, 16, 24};
  }

  /** All three are retired; the thread keeps the first. */
  lemma Retired() returns (run: seq<State>)
    ensures IsRun(run)
    ensures Mutating(run[|run| - 1], map[8 := [16], 16 := [24], 24 := [0]], {8}, [8, 16, 24])
  {
    var heap := map[8 := [16], 16 := [24], 24 := [0]];
    run := Chained();
    run := Retires(run, heap, {8, 16, 24}, [], 8, true);
    var stack := {8, 16, 24};
    run := Retires(run, heap, stack, [] + [8], 16, false);
    stack := stack - {16};
    run := Retires(run, heap, stack, [] + [8] + [16], 24, false);
    stack := stack - {24};
    assert stack == {8} && [] + [8] + [16] + [24] == [8, 16, 24];
  }

  /** The GC thread has gathered the three. */
  ghost predicate Collecting(s: State) {
    && s.recursion.OnScanned? && s.heap == map[8 := [16], 16 := [24], 24 := [0]] && s.stacks == [{8}]
    && s.r == Quiet() && forall x :: x in s.owner <==> x in [8, 16, 24]
  }

  lemma Collected() returns (run: seq<State>)
    ensures IsRun(run) && Collecting(run[|run| - 1]) && run[|run| - 1].gc == Gathered([8, 16, 24])
  {
    run := Retired();
    run := Extend(run, Drain(0, 3));
    run := Extend(run, Submit);
    assert run[|run| - 1].pending == [8, 16, 24];
    run := Extend(run, Gather);
    assert run[|run| - 1].gc.work == [8, 16, 24];
  }

  lemma ChainWords()
    ensures Masked([16]) == [16] && Masked([24]) == [24] && Masked([0]) == [0] && PtrMask(8) == 8
  {
    assert PtrMask(16) == 16 && PtrMask(24) == 24 && PtrMask(0) == 0 && PtrMask(8) == 8;
  }

  lemma ChainRoots(s: State, x: Addr)
    requires Collecting(s) && x in W.CHAIN.tracked
    ensures P.IsRoot(W.CHAIN, x) <==> x == 8
    ensures Scanned(s, W.CHAIN.tracked, {}, x) <==> x == 8
  {
    ChainWords();
    assert W.CHAIN.ranges[0][0] == 8;
    assert 8 in s.stacks[0];
  }

  lemma ChainOrder()
    ensures Increasing([8, 16, 24]) && W.CHAIN.Valid()
    ensures forall x :: x in W.CHAIN.tracked <==> x in [8, 16, 24]
  {
  }

  lemma ChainHeap(s: State, x: Addr)
    requires Collecting(s) && x in W.CHAIN.tracked
    ensures W.CHAIN.Valid() && x in s.heap && W.CHAIN.words[x] == Masked(s.heap[x])
  {
    ChainWords();
    assert x == 8 || x == 16 || x == 24;
  }

  lemma ChainIsSnapshot(s: State)
    requires Collecting(s) && s.gc == Gathered([8, 16, 24])
    ensures IsSnapshot(s, [8, 16, 24], {}, W.CHAIN)
  {
    var sn, order := W.CHAIN, [8, 16, 24];
    ChainOrder();
    assert s.gc.Work() == order;
    forall x | x in sn.tracked ensures x in s.heap && sn.words[x] == Masked(s.heap[x]) { ChainHeap(s, x); }
    forall x | x in sn.tracked ensures Scanned(s, sn.tracked, {}, x) ==> P.IsRoot(sn, x) { ChainRoots(s, x); }
  }

  /** The scan is complete; 24 is not marked. */
  lemma ScannedRun() returns (run: seq<State>)
    ensures IsRun(run) && Collecting(run[|run| - 1])
    ensures var gc := run[|run| - 1].gc;
      gc.Scanning? && gc.work == [8, 16, 24] && gc.scan.marked == {8, 16} && gc.scan.notifications > 0
  {
    run := Collected();
    ChainIsSnapshot(run[|run| - 1]);
    var scans := W.AsWrittenMissesReachable();
    run := SnapAndScan(run, [8, 16, 24], {}, W.CHAIN, scans);
  }

  // ------------------------------------------------------------------ freeing

  const SLOTS := [R.Marked(8), R.Marked(16), R.Live(24)]

  /** The retiree buffer is published and not exhausted; the thread is the worker w. */
  function Listed(slots: seq<R.Slot>, freeIdx: nat, refs: int, w: R.Worker): R.State {
    R.State(map[7 := R.Buffer(slots, freeIdx, refs)], [7], Some(7), [w], R.Carrying(7, 0))
  }

  ghost predicate Freeing(s: State, r: R.State) {
    s.heap == map[8 := [16], 16 := [24], 24 := [0]] && s.stacks == [{8}] && s.r == r
  }

  lemma Published() returns (run: seq<State>)
    ensures IsRun(run) && Freeing(run[|run| - 1], Listed(SLOTS, 0, 1, R.Worker(None, 0, 0, R.Outside)))
  {
    run := ScannedRun();
    var s := run[|run| - 1];
    assert Slots(s.gc.work, s.gc.scan.marked) == SLOTS;
    run := Extend(run, Publish(7));
  }

  /** A step of the worker other than taking an entry and freeing. */
  lemma Works(run: seq<State>, r: R.State, op: R.Op, r': R.State) returns (longer: seq<State>)
    requires IsRun(run) && Freeing(run[|run| - 1], r) && !op.WipeSlot? && !op.FreeBlock?
    requires |r.workers| == 1 && R.EnabledOp(r, r.workers[0], op) && r' == R.StepOp(r, 0, op)
    ensures IsRun(longer) && Freeing(longer[|longer| - 1], r')
  {
    longer := Extend(run, Worker(0, op));
  }

  /** The thread claims the three entries. */
  lemma Claimed() returns (run: seq<State>)
    ensures IsRun(run) && Freeing(run[|run| - 1], Listed(SLOTS, 3, 2, R.Worker(Some(7), 0, 3, R.Take)))
  {
    run := Published();
    var r := Listed(SLOTS, 0, 1, R.Worker(None, 0, 0, R.Outside));
    run := Works(run, r, R.Enter, Listed(SLOTS, 0, 1, R.Worker(None, 0, 0, R.Loop)));
    run := Works(run, Listed(SLOTS, 0, 1, R.Worker(None, 0, 0, R.Loop)), R.Get,
                 Listed(SLOTS, 0, 2, R.Worker(Some(7), 0, 0, R.Check)));
    run := Works(run, Listed(SLOTS, 0, 2, R.Worker(Some(7), 0, 0, R.Check)), R.Examine,
                 Listed(SLOTS, 0, 2, R.Worker(Some(7), 0, 0, R.Reread)));
    run := Works(run, Listed(SLOTS, 0, 2, R.Worker(Some(7), 0, 0, R.Reread)), R.ReadAgain,
                 Listed(SLOTS, 0, 2, R.Worker(Some(7), 0, 0, R.Cas(0))));
    run := Works(run, Listed(SLOTS, 0, 2, R.Worker(Some(7), 0, 0, R.Cas(0))), R.TryClaim,
                 Listed(SLOTS, 3, 2, R.Worker(Some(7), 0, 3, R.Take)));
  }

  /** A marked entry is passed. */
  lemma Passes(run: seq<State>, i: nat) returns (longer: seq<State>)
    requires i < 2 && IsRun(run) && Freeing(run[|run| - 1], Listed(SLOTS, 3, 2, R.Worker(Some(7), i, 3, R.Take)))
    ensures IsRun(longer) && Freeing(longer[|longer| - 1], Listed(SLOTS, 3, 2, R.Worker(Some(7), i + 1, 3, R.Take)))
  {
    longer := Works(run, Listed(SLOTS, 3, 2, R.Worker(Some(7), i, 3, R.Take)), R.TakeSlot,
                    Listed(SLOTS, 3, 2, R.Worker(Some(7), i + 1, 3, R.Loop)));
    longer := Works(longer, Listed(SLOTS, 3, 2, R.Worker(Some(7), i + 1, 3, R.Loop)), R.Resume,
                    Listed(SLOTS, 3, 2, R.Worker(Some(7), i + 1, 3, R.Check)));
    longer := Works(longer, Listed(SLOTS, 3, 2, R.Worker(Some(7), i + 1, 3, R.Check)), R.Examine,
                    Listed(SLOTS, 3, 2, R.Worker(Some(7), i + 1, 3, R.Take)));
  }

  lemma ChainRefers(s: State)
    requires s.heap == map[8 := [16], 16 := [24], 24 := [0]] && s.stacks == [{8}]
    ensures StackRefers(s, 8) && Refers(s.heap[8], 16) && Refers(s.heap[16], 24)
  {
    assert PtrMask(8) == 8 && PtrMask(16) == 16 && PtrMask(24) == 24;
    assert 8 in s.stacks[0];
    assert s.heap[8][0] == 16 && s.heap[16][0] == 24;
  }

  /** Three steps along references from a stack. */
  lemma PathOfThree(s: State, x: Addr, y: Addr, z: Addr)
    requires StackRefers(s, x) && x in s.heap && y in s.heap && Refers(s.heap[x], y) && Refers(s.heap[y], z)
    ensures Reachable(s, z)
  {
    var p := [x, y, z];
    assert IsPath(s, p) && p[|p| - 1] == z;
  }

  lemma Taken() returns (run: seq<State>)
    ensures IsRun(run) && Freeing(run[|run| - 1], Listed(SLOTS, 3, 2, R.Worker(Some(7), 3, 3, R.Wipe(24))))
  {
    run := Claimed();
    run := Passes(run, 0);
    run := Passes(run, 1);
    run := Works(run, Listed(SLOTS, 3, 2, R.Worker(Some(7), 2, 3, R.Take)), R.TakeSlot,
                 Listed(SLOTS, 3, 2, R.Worker(Some(7), 3, 3, R.Wipe(24))));
  }

  lemma Wiped24() returns (run: seq<State>)
    ensures IsRun(run)
    ensures var s := run[|run| - 1];
      && s.heap == map[8 := [16], 16 := [24], 24 := [0]] && s.stacks == [{8}]
      && |s.r.workers| == 1 && s.r.workers[0].pc == R.Free(24)
  {
    run := Taken();
    run := Extend(run, Worker(0, R.WipeSlot));
  }

  lemma FreeIsNext(s: State)
    requires |s.r.workers| == 1 && s.r.workers[0].pc == R.Free(24)
    ensures Enabled(s, Worker(0, R.FreeBlock)) && ToBeFreed(s, 24)
  {
    assert Holds(s, InHand(0), 24);
  }

  /** With line 170 as written the thread is about to free a block that it can still reach: it holds 8,
      which refers to 16, which refers to 24. */
  lemma AsWrittenFreesReachable() returns (run: seq<State>)
    ensures IsRun(run) && Enabled(run[|run| - 1], Worker(0, R.FreeBlock))
    ensures ToBeFreed(run[|run| - 1], 24) && Reachable(run[|run| - 1], 24)
  {
    run := Wiped24();
    ChainRefers(run[|run| - 1]);
    PathOfThree(run[|run| - 1], 8, 16, 24);
    FreeIsNext(run[|run| - 1]);
  }
}
