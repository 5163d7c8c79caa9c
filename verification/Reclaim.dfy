/** What the collector can do by itself: while no thread of the program moves, it can bring any round to its
    end, begin another and free every retired block that is not reachable. */
module Reclaim {
  import opened Words
  import opened Lifecycle
  import opened Paths
  import C = CompleteScan
  import E = ScanEnds
  import P = ParallelScan
  import R = Retirees
  import T = AvlTree
  import U = UnsafeRun
  import V = Releases
  import W = AsWritten

  /** The steps of the reclaimer, of the GC thread and its children, and of the threads that free. */
  predicate IsCollector(a: Action) { !IsMemory(a) && !a.Retire? }

  ghost predicate CollectorNext(s: State, t: State) { exists a :: IsCollector(a) && Enabled(s, a) && t == Step(s, a) }

  ghost function Collects(): (State, State) -> bool { (s, t) => CollectorNext(s, t) }

  /** Beyond the places of retired blocks nothing has changed but that some have been freed. */
  ghost predicate Shrinks(s: State, t: State) {
    && t.recursion == s.recursion && t.stacks == s.stacks && |t.queues| == |s.queues|
    && t.owner.Keys <= s.owner.Keys && t.heap.Keys == s.heap.Keys - (s.owner.Keys - t.owner.Keys)
    && forall x :: x in t.heap ==> t.heap[x] == s.heap[x]
  }

  /** A working set is not empty, and a program that has retired a block has threads. */
  ghost predicate WorkOk(s: State) {
    && (s.gc.Gathered? || s.gc.Scanning? ==> s.gc.work != [])
    && (s.owner.Keys != {} ==> |s.queues| > 0)
  }

  ghost predicate Good(s: State) { Inv(s) && WorkOk(s) }

  lemma StepShrinks(s: State, a: Action)
    requires Inv(s) && Enabled(s, a) && IsCollector(a)
    ensures Shrinks(s, Step(s, a))
  {
    BooksChangeByRetireAndFree(s, a);
    if a.Worker? && a.op.FreeBlock? { OneFreed(s, a.t); } else { OthersKeep(s, a); }
  }

  lemma OneFreed(s: State, t: nat)
    requires Enabled(s, Worker(t, R.FreeBlock)) && s.owner.Keys <= s.heap.Keys
    requires s.r.workers[t].pc.addr in s.owner
    ensures Shrinks(s, Step(s, Worker(t, R.FreeBlock)))
  {
    var p, s' := s.r.workers[t].pc.addr, Step(s, Worker(t, R.FreeBlock));
    assert s.owner.Keys - s'.owner.Keys == {p};
  }

  lemma OthersKeep(s: State, a: Action)
    requires Enabled(s, a) && IsCollector(a) && !(a.Worker? && a.op.FreeBlock?)
    ensures var t := Step(s, a);
      t.recursion == s.recursion && t.stacks == s.stacks && |t.queues| == |s.queues| && t.heap == s.heap
  {
  }

  lemma StepWork(s: State, a: Action)
    requires Inv(s) && WorkOk(s) && Enabled(s, a)
    ensures WorkOk(Step(s, a))
  {
    BooksChangeByRetireAndFree(s, a);
    if a.Snap? { assert s.gc.work[0] in a.order; } else { OtherWork(s, a); }
  }

  lemma OtherWork(s: State, a: Action)
    requires WorkOk(s) && Enabled(s, a) && !a.Snap?
    ensures var t := Step(s, a);
      && (t.gc.Gathered? || t.gc.Scanning? ==> t.gc.work != []) && |t.queues| == |s.queues|
      && (a.Retire? ==> |s.queues| > 0)
  {
  }

  lemma NextWork(s: State, t: State)
    requires Inv(s) && WorkOk(s) && Next(s, t)
    ensures WorkOk(t)
  {
    var a :| Enabled(s, a) && t == Step(s, a);
    StepWork(s, a);
  }

  lemma NoWorkYet(s: State)
    requires Init(s)
    ensures WorkOk(s)
  {
  }

  lemma {:induction false} RunWork(run: seq<State>, k: nat)
    requires IsRun(run) && k < |run|
    ensures WorkOk(run[k])
  {
    if k == 0 {
      NoWorkYet(run[0]);
    } else {
      RunWork(run, k - 1);
      RunInv(run, k - 1);
      assert NextAt(run, k);
      NextWork(run[k - 1], run[k]);
    }
  }

  lemma RunGood(run: seq<State>, k: nat)
    requires IsRun(run) && k < |run|
    ensures Good(run[k])
  {
    RunInv(run, k);
    RunWork(run, k);
  }

  lemma ShrinksOn(s: State, m: State, t: State)
    requires Shrinks(s, m) && Shrinks(m, t)
    ensures Shrinks(s, t)
  {
  }

  lemma NextGood(s: State, t: State)
    requires Good(s) && CollectorNext(s, t)
    ensures Good(t)
  {
    var a :| IsCollector(a) && Enabled(s, a) && t == Step(s, a);
    StepInv(s, a);
    StepWork(s, a);
  }

  lemma NextShrinks(s: State, t: State)
    requires Good(s) && CollectorNext(s, t)
    ensures Shrinks(s, t)
  {
    var a :| IsCollector(a) && Enabled(s, a) && t == Step(s, a);
    StepShrinks(s, a);
  }

  lemma LeadsGood(s: State, t: State)
    requires Good(s) && Leads(Collects(), s, t)
    ensures Good(t)
  {
    forall x, y | Good(x) && CollectorNext(x, y) ensures Good(y) { NextGood(x, y); }
    Keeps(Collects(), x => Good(x), s, t);
  }

  lemma LeadsShrinks(s: State, t: State)
    requires Good(s) && Leads(Collects(), s, t)
    ensures Shrinks(s, t)
  {
    forall x, y | Good(x) && Shrinks(s, x) && CollectorNext(x, y) ensures Good(y) && Shrinks(s, y) {
      NextGood(x, y);
      NextShrinks(x, y);
      ShrinksOn(s, x, y);
    }
    Keeps(Collects(), x => Good(x) && Shrinks(s, x), s, t);
  }

  lemma Does(s: State, a: Action)
    requires Enabled(s, a) && IsCollector(a)
    ensures Leads(Collects(), s, Step(s, a))
  {
    assert CollectorNext(s, Step(s, a));
    Paths.One(Collects(), s, Step(s, a));
  }

  // ------------------------------------------------------------------ condemned blocks

  /** Freed, or on its way: in a thread's hand, or an unmarked entry of a retiree buffer. */
  ghost predicate Condemned(s: State, x: Addr) { x !in s.owner || (Doomed(s, x) && s.owner[x] != InWorking) }

  ghost predicate KeepsCondemned(s: State, t: State) { forall x :: Condemned(s, x) ==> Condemned(t, x) }

  /** The places outside the retiree buffers and the hands of threads. */
  ghost predicate SamePlaces(s: State, t: State) {
    t.gc == s.gc && t.queues == s.queues && t.drained == s.drained && t.pending == s.pending
    && t.uncollected == s.uncollected
  }

  lemma WorkerCondemned(s: State, t: nat, op: R.Op)
    requires Inv(s) && Enabled(s, Worker(t, op))
    ensures KeepsCondemned(s, Step(s, Worker(t, op))) && SamePlaces(s, Step(s, Worker(t, op)))
  {
    var s' := Step(s, Worker(t, op));
    if op.WipeSlot? {
      R.EachWorkerOk(s.r, t);
      WipeMoves(s, t);
      WipeWipes(s, t);
      assert s'.owner == Moved(s.owner, [s.r.workers[t].pc.addr], InHand(t));
    } else if op.FreeBlock? {
      FreeDoomed(s, t);
    } else {
      R.OccupiedKept(s.r, R.By(t, op));
      assert s'.owner == s.owner && s'.gc == s.gc;
    }
  }

  lemma CarryCondemned(s: State)
    requires Inv(s) && Enabled(s, Carry)
    ensures KeepsCondemned(s, Step(s, Carry))
  {
    CarryDoomed(s);
  }

  lemma GcDropCondemned(s: State)
    requires Inv(s) && Enabled(s, GcDrop)
    ensures KeepsCondemned(s, Step(s, GcDrop))
  {
    R.OccupiedKept(s.r, R.GcDrop);
    GcDropOwned(s);
  }

  // ------------------------------------------------------------------ the threads that free

  ghost predicate WorkerNext(s: State, t: State) {
    exists i: nat, op: R.Op :: Enabled(s, Worker(i, op)) && t == Step(s, Worker(i, op))
  }

  ghost function Works(): (State, State) -> bool { (s, t) => WorkerNext(s, t) }

  lemma LiftOne(s: State, r: R.State) returns (t: State)
    requires V.WorkerNext(s.r, r)
    ensures WorkerNext(s, t) && t.r == r
  {
    var i: nat, op: R.Op :| i < |s.r.workers| && R.EnabledOp(s.r, s.r.workers[i], op) && r == R.StepOp(s.r, i, op);
    t := Step(s, Worker(i, op));
    assert Enabled(s, Worker(i, op));
  }

  function Retiring(): State -> R.State { (s: State) => s.r }

  /** Whatever the machine of the retiree buffers can do, the whole machine can. */
  lemma Lift(s: State, r: R.State) returns (t: State)
    requires Leads(V.Works(), s.r, r)
    ensures Leads(Works(), s, t) && t.r == r
  {
    forall x: State, y: R.State | V.WorkerNext(x.r, y) ensures exists z :: Works()(x, z) && Retiring()(z) == y {
      var z := LiftOne(x, y);
      assert Works()(x, z) && Retiring()(z) == y;
    }
    t := Follows(V.Works(), Works(), Retiring(), x => true, s, r);
  }

  lemma NextWorker(s: State, t: State)
    requires Good(s) && WorkerNext(s, t)
    ensures CollectorNext(s, t) && KeepsCondemned(s, t) && SamePlaces(s, t)
  {
    var i: nat, op: R.Op :| Enabled(s, Worker(i, op)) && t == Step(s, Worker(i, op));
    WorkerCondemned(s, i, op);
    assert IsCollector(Worker(i, op));
  }

  lemma CondemnedOn(s: State, m: State, t: State)
    requires KeepsCondemned(s, m) && KeepsCondemned(m, t)
    ensures KeepsCondemned(s, t)
  {
  }

  lemma WorkersKeep(s: State, t: State)
    requires Good(s) && Leads(Works(), s, t)
    ensures KeepsCondemned(s, t) && SamePlaces(s, t)
  {
    forall x, y | Good(x) && KeepsCondemned(s, x) && SamePlaces(s, x) && WorkerNext(x, y)
      ensures Good(y) && KeepsCondemned(s, y) && SamePlaces(s, y)
    {
      NextWorker(x, y);
      NextGood(x, y);
      CondemnedOn(s, x, y);
    }
    Keeps(Works(), x => Good(x) && KeepsCondemned(s, x) && SamePlaces(s, x), s, t);
  }

  lemma WorkersCollect(s: State, t: State)
    requires Leads(Works(), s, t)
    ensures Leads(Collects(), s, t)
  {
    forall x, y | WorkerNext(x, y) ensures CollectorNext(x, y) {
      var i: nat, op: R.Op :| Enabled(x, Worker(i, op)) && y == Step(x, Worker(i, op));
      assert IsCollector(Worker(i, op));
    }
    Wider(Works(), Collects(), s, t);
  }

  /** The threads finish. */
  lemma WorkersFinish(s: State) returns (t: State)
    requires Good(s) && V.Promising(s.r) && |s.r.workers| > 0
    ensures Leads(Collects(), s, t) && KeepsCondemned(s, t) && SamePlaces(s, t)
    ensures V.AllReleased(t.r) && t.r.gc == s.r.gc && |t.r.workers| == |s.r.workers|
  {
    var r := V.ReleasesAll(s.r);
    t := Lift(s, r);
    WorkersKeep(s, t);
    WorkersCollect(s, t);
  }

  ghost predicate AllRest(s: State) { forall t :: 0 <= t < |s.r.workers| ==> V.AtRest(s.r.workers[t]) }

  // ------------------------------------------------------------------ the scan

  function Scan(): State -> P.State {
    (s: State) => if s.gc.Scanning? then s.gc.scan else P.State(0, 0, {}, [], 0)
  }

  /** x is s but for how far the scan has got. */
  ghost predicate SameScan(s: State, x: State) { s.gc.Scanning? && x.gc.Scanning? && x == U.ScanAt(s, x.gc.scan) }

  lemma ScanOne(s: State, x: State, y: P.State) returns (z: State)
    requires s.gc.Scanning? && s.gc.snap.Valid() && SameScan(s, x) && P.Next(ScanConfig(s), x.gc.scan, y)
    ensures CollectorNext(x, z) && SameScan(s, z) && z.gc.scan == y
  {
    var i: nat, act: P.Action :| P.Enabled(ScanConfig(s), x.gc.scan, i, act)
      && y == P.Step(ScanConfig(s), x.gc.scan, i, act);
    z := Step(x, Action.Scan(i, act));
    assert IsCollector(Action.Scan(i, act));
  }

  lemma LiftScan(s: State, y: P.State) returns (t: State)
    requires s.gc.Scanning? && s.gc.snap.Valid() && Leads(E.Steps(ScanConfig(s)), s.gc.scan, y)
    ensures Leads(Collects(), s, t) && SameScan(s, t) && t.gc.scan == y
  {
    var inv := (x: State) => SameScan(s, x);
    forall x: State, y: P.State | inv(x) && E.Steps(ScanConfig(s))(Scan()(x), y)
      ensures exists z :: Collects()(x, z) && Scan()(z) == y && inv(z)
    {
      var z := ScanOne(s, x, y);
      assert Collects()(x, z) && Scan()(z) == y && inv(z);
    }
    t := Follows(E.Steps(ScanConfig(s)), Collects(), Scan(), inv, s, y);
  }

  /** The children finish; what they have marked is reachable in the snapshot. */
  lemma ChildrenFinish(s: State) returns (t: State)
    requires Good(s) && s.gc.Scanning?
    ensures Leads(Collects(), s, t) && SameScan(s, t) && t.gc.scan.notifications > 0
    ensures s.gc.snap.Valid() && t.gc.scan.marked <= P.LeastMarks(s.gc.snap)
  {
    var c := ScanConfig(s);
    var y := E.AllReport(c, s.gc.scan);
    E.LeadsMeets(c, s.gc.scan, y);
    P.AllReported(c, y);
    P.LeastMarksIsClosed(c.snap);
    assert P.Within(c, y, P.LeastMarks(c.snap));
    t := LiftScan(s, y);
  }

  lemma PublishCondemned(s: State, b: R.BufId, x: Addr)
    requires Owned(s) && Enabled(s, Publish(b)) && s.gc.Scanning? && Owned(Step(s, Publish(b)))
    requires Condemned(s, x) || (x in s.gc.work && x !in s.gc.scan.marked)
    ensures Condemned(Step(s, Publish(b)), x)
  {
    var t := Step(s, Publish(b));
    if x in s.gc.work {
      assert Holds(s, InWorking, x);
      var k: nat :| k < |s.gc.work| && s.gc.work[k] == x;
      if x !in s.gc.scan.marked { assert Holds(t, InSlot(b, k), x); }
    } else {
      OthersDoomed(s, b, x);
    }
  }

  lemma FinishScan(s: State) returns (t: State)
    requires Good(s) && s.gc.Scanning?
    ensures Leads(Collects(), s, t) && t.gc.Copying? && t.r.workers == s.r.workers && s.gc.snap.Valid()
    ensures forall x :: Condemned(s, x) || (x in s.gc.work && x !in P.LeastMarks(s.gc.snap)) ==> Condemned(t, x)
  {
    var m := ChildrenFinish(s);
    LeadsGood(s, m);
    var b := R.FreshBuffer(m.r.buffers.Keys);
    t := Step(m, Publish(b));
    Does(m, Publish(b));
    Join(Collects(), s, m, t);
    LeadsGood(m, t);
    forall x | Condemned(s, x) || (x in s.gc.work && x !in P.LeastMarks(s.gc.snap)) ensures Condemned(t, x) {
      PublishCondemned(m, b, x);
    }
  }

  // ------------------------------------------------------------------ carrying over

  function LeftToCopy(s: State): nat {
    if s.r.gc.Carrying? && s.r.gc.buf in s.r.buffers && s.r.gc.next <= |s.r.buffers[s.r.gc.buf].slots|
    then |s.r.buffers[s.r.gc.buf].slots| - s.r.gc.next else 0
  }

  lemma CarryNext(s: State) returns (t: State)
    requires Good(s) && s.gc.Copying? && LeftToCopy(s) > 0
    ensures Leads(Collects(), s, t) && t.gc.Copying? && t.r.workers == s.r.workers && KeepsCondemned(s, t)
    ensures LeftToCopy(t) < LeftToCopy(s)
  {
    CarryLess(s);
    t := Step(s, Carry);
    Does(s, Carry);
    CarryCondemned(s);
  }

  lemma CarryLess(s: State)
    requires s.gc.Copying? && LeftToCopy(s) > 0
    ensures Enabled(s, Carry)
    ensures var t := Step(s, Carry);
      t.gc.Copying? && t.r.workers == s.r.workers && LeftToCopy(t) < LeftToCopy(s)
  {
  }

  lemma {:induction false} CarryAll(s: State) returns (t: State)
    requires Good(s) && s.gc.Copying?
    ensures Leads(Collects(), s, t) && t.gc.Idle? && t.r.gc.Resting? && t.r.workers == s.r.workers
    ensures KeepsCondemned(s, t)
    decreases LeftToCopy(s)
  {
    if LeftToCopy(s) == 0 {
      t := Step(s, GcDrop);
      Does(s, GcDrop);
      GcDropCondemned(s);
    } else {
      var m := CarryNext(s);
      LeadsGood(s, m);
      t := CarryAll(m);
      Join(Collects(), s, m, t);
      CondemnedOn(s, m, t);
    }
  }

  // ------------------------------------------------------------------ the snapshot

  /** A snapshot whose roots are just the words that have to be scanned. */
  lemma ExactSnapshot(s: State) returns (order: seq<Addr>, sn: P.Snapshot)
    requires Inv(s) && s.gc.Gathered?
    ensures IsSnapshot(s, order, {}, sn) && forall x :: P.IsRoot(sn, x) ==> Scanned(s, sn.tracked, {}, x)
  {
    T.AscendingLists(s.gc.work);
    order := T.Ascending(s.gc.work);
    var tracked := set x | x in order;
    forall x | x in tracked ensures x in s.heap { assert Holds(s, InWorking, x); }
    var roots := C.Listed(set x | x in tracked && Scanned(s, tracked, {}, x));
    sn := P.Snapshot(tracked, map x | x in tracked :: Masked(s.heap[x]), [roots]);
    forall x ensures P.IsRoot(sn, x) <==> x in roots { OneRange(sn, roots, x); }
  }

  lemma OneRange(sn: P.Snapshot, roots: seq<Addr>, x: Addr)
    requires sn.ranges == [roots] && forall y :: y in roots ==> y in sn.tracked
    ensures P.IsRoot(sn, x) <==> x in roots
  {
    if x in roots {
      var p :| 0 <= p < |roots| && roots[p] == x;
      assert sn.ranges[0][p] == x;
    }
  }

  /** The snapshot is taken. */
  lemma TakeSnapshot(s: State) returns (t: State)
    requires Good(s) && s.gc.Gathered? && AllRest(s)
    ensures Leads(Collects(), s, t) && t.gc.Scanning? && t.r == s.r && t.heap == s.heap && t.stacks == s.stacks
    ensures t.owner == s.owner && (forall x :: x in t.gc.work <==> x in s.gc.work) && KeepsCondemned(s, t)
    ensures IsSnapshot(s, t.gc.work, {}, t.gc.snap)
    ensures forall x :: P.IsRoot(t.gc.snap, x) ==> Scanned(s, t.gc.snap.tracked, {}, x)
  {
    var order, sn := ExactSnapshot(s);
    t := Step(s, Snap(order, {}, sn, 1));
    Does(s, Snap(order, {}, sn, 1));
  }

  // ------------------------------------------------------------------ a round

  /** A round under way comes to its end. */
  lemma RoundEnds(s: State) returns (t: State)
    requires Good(s) && AllRest(s)
    ensures Leads(Collects(), s, t) && t.gc.Idle? && AllRest(t)
  {
    t := s;
    Stay(Collects(), s);
    if t.gc.Gathered? { t := TakeSnapshot(s); }
    LeadsGood(s, t);
    if t.gc.Scanning? {
      var m := t;
      t := FinishScan(m);
      Join(Collects(), s, m, t);
      LeadsGood(s, t);
    }
    if t.gc.Copying? {
      var m := t;
      t := CarryAll(m);
      Join(Collects(), s, m, t);
    }
  }

  /** Nothing is under way and no retiree buffer is left. */
  ghost predicate Quiet(s: State) { s.gc.Idle? && s.r.gc.Resting? && s.r.buffers == map[] && AllRest(s) }

  lemma RestFinishes(s: State) returns (t: State)
    requires Good(s) && AllRest(s) && s.r.gc.Resting? && |s.r.workers| > 0
    ensures Leads(Collects(), s, t) && KeepsCondemned(s, t) && SamePlaces(s, t)
    ensures t.r.gc.Resting? && t.r.buffers == map[] && AllRest(t)
  {
    t := WorkersFinish(s);
  }

  lemma Quiets(s: State) returns (t: State)
    requires Good(s) && V.Promising(s.r) && |s.r.workers| > 0
    ensures Leads(Collects(), s, t) && Good(t) && Quiet(t)
  {
    var x := WorkersFinish(s);
    LeadsGood(s, x);
    var y := RoundEnds(x);
    Join(Collects(), s, x, y);
    LeadsGood(s, y);
    LeadsShrinks(s, y);
    t := RestFinishes(y);
    Join(Collects(), s, y, t);
    LeadsGood(s, t);
  }

  // ------------------------------------------------------------------ the next round

  lemma DrainAll(s: State) returns (t: State)
    requires Good(s) && Quiet(s)
    ensures Leads(Collects(), s, t) && Quiet(t) && |t.r.workers| == |s.r.workers|
    ensures forall i :: 0 <= i < |t.queues| ==> t.queues[i] == []
  {
    t := s;
    Stay(Collects(), s);
    for i := 0 to |s.queues|
      invariant Leads(Collects(), s, t) && Quiet(t) && |t.queues| == |s.queues| && |t.r.workers| == |s.r.workers|
      invariant forall j :: 0 <= j < i ==> t.queues[j] == []
    {
      var m := t;
      Does(m, Drain(i, |m.queues[i]|));
      t := Step(m, Drain(i, |m.queues[i]|));
      assert m.queues[i][|m.queues[i]|..] == [];
      Join(Collects(), s, m, t);
    }
  }

  /** Every retired block is in the working set. */
  ghost predicate AllWorking(s: State) { s.gc.Gathered? && forall x :: x in s.owner ==> x in s.gc.work }

  /** With the queues drained and the rest quiet, whatever is retired waits for the next round. */
  lemma AllWait(s: State, x: Addr)
    requires Good(s) && Quiet(s) && (forall i :: 0 <= i < |s.queues| ==> s.queues[i] == []) && s.drained == []
    requires x in s.owner
    ensures x in s.uncollected + s.pending
  {
    assert Holds(s, s.owner[x], x);
  }

  lemma TakeAll(s: State, a: Addr) returns (t: State)
    requires Good(s) && Quiet(s) && (forall i :: 0 <= i < |s.queues| ==> s.queues[i] == []) && s.drained == []
    requires a in s.owner
    ensures Leads(Collects(), s, t) && AllWorking(t) && AllRest(t) && |t.r.workers| == |s.r.workers| && a in t.owner
    ensures t.r.gc.Resting?
  {
    forall x | x in s.owner ensures x in s.uncollected + s.pending { AllWait(s, x); }
    t := Step(s, Gather);
    Does(s, Gather);
  }

  lemma SubmitAll(s: State) returns (t: State)
    requires Good(s) && Quiet(s) && forall i :: 0 <= i < |s.queues| ==> s.queues[i] == []
    ensures Leads(Collects(), s, t) && Quiet(t) && t.drained == [] && |t.r.workers| == |s.r.workers|
    ensures forall i :: 0 <= i < |t.queues| ==> t.queues[i] == []
    ensures t.owner.Keys == s.owner.Keys
  {
    t := Step(s, Submit);
    Does(s, Submit);
  }

  // ------------------------------------------------------------------ what is unreachable

  /** The collector makes nothing reachable. */
  lemma StillUnreachable(s: State, t: State, a: Addr)
    requires Shrinks(s, t) && s.owner.Keys <= s.heap.Keys && Reachable(t, a)
    ensures Reachable(s, a)
  {
    var p :| IsPath(t, p) && p[|p| - 1] == a;
    if !StackRefers(t, p[0]) {
      var c :| c in t.heap && c !in t.owner && Refers(t.heap[c], p[0]);
      assert c in s.heap && c !in s.owner.Keys;
    }
    assert StackRefers(t, p[0]) ==> StackRefers(s, p[0]);
    forall i | 0 <= i < |p| - 1 ensures p[i] in s.heap {
      var x, y := p[i], p[i + 1];
      assert x in t.heap && Refers(t.heap[x], y);
    }
    assert IsPath(s, p);
  }

  lemma OneStep(s: State, x: Addr)
    requires StackRefers(s, x) || exists c :: c in s.heap && c !in s.owner && Refers(s.heap[c], x)
    ensures Reachable(s, x)
  {
    assert IsPath(s, [x]) && [x][|[x]| - 1] == x;
  }

  lemma OneMore(s: State, x: Addr, y: Addr)
    requires Reachable(s, x) && x in s.heap && Refers(s.heap[x], y)
    ensures Reachable(s, y)
  {
    var p :| IsPath(s, p) && p[|p| - 1] == x;
    var q := p + [y];
    forall i, j | 0 <= i < j < |q| && j == i + 1 ensures q[i] in s.heap && Refers(s.heap[q[i]], q[j]) {
      if j < |p| {
        var v, w := p[i], p[j];
        assert v in s.heap && Refers(s.heap[v], w);
      }
    }
    forall i | 0 <= i < |q| - 1 ensures q[i] in s.heap {
      var v, w := q[i], q[i + 1];
      assert v in s.heap && Refers(s.heap[v], w);
    }
    assert IsPath(s, q) && q[|q| - 1] == y;
  }

  lemma RootReachable(s: State, sn: P.Snapshot, x: Addr)
    requires (forall c :: c in s.owner ==> c in sn.tracked) && Scanned(s, sn.tracked, {}, x)
    ensures Reachable(s, x)
  {
    if !StackRefers(s, x) {
      var c :| c in s.heap && c !in sn.tracked && c !in {} && Refers(s.heap[c], x);
      assert c !in s.owner;
    }
    OneStep(s, x);
  }

  /** With every retired block in the working set, the marks that a snapshot asks for are reachable. */
  lemma MarkedIsReachable(s: State, order: seq<Addr>, sn: P.Snapshot, a: Addr)
    requires AllWorking(s) && IsSnapshot(s, order, {}, sn) && a in P.LeastMarks(sn)
    requires forall x :: P.IsRoot(sn, x) ==> Scanned(s, sn.tracked, {}, x)
    ensures Reachable(s, a)
  {
    var X := set x | x in sn.tracked && Reachable(s, x);
    forall r, p | 0 <= r < |sn.ranges| && 0 <= p < |sn.ranges[r]| && sn.ranges[r][p] in sn.tracked
      ensures sn.ranges[r][p] in X
    {
      assert P.IsRoot(sn, sn.ranges[r][p]);
      RootReachable(s, sn, sn.ranges[r][p]);
    }
    forall b, k | b in X && b in sn.tracked && 0 <= k < |sn.words[b]| && sn.words[b][k] in sn.tracked
      ensures sn.words[b][k] in X
    {
      assert PtrMask(s.heap[b][k]) == sn.words[b][k];
      OneMore(s, b, sn.words[b][k]);
    }
    assert P.Closed(sn, X);
  }

  // ------------------------------------------------------------------ the theorems

  /** The threads have freed all that was condemned. */
  lemma NothingCondemnedLeft(s: State, a: Addr)
    requires Good(s) && s.r.buffers == map[] && AllRest(s) && Condemned(s, a)
    ensures a !in s.owner
  {
    assert a in s.owner ==> Holds(s, s.owner[a], a);
  }

  lemma FreesUnreachable(s: State, a: Addr) returns (t: State)
    requires Good(s) && AllWorking(s) && AllRest(s) && s.r.gc.Resting? && |s.r.workers| > 0
    requires a in s.owner && !Reachable(s, a)
    ensures Leads(Collects(), s, t) && a !in t.owner
  {
    var x := TakeSnapshot(s);
    LeadsGood(s, x);
    if a in P.LeastMarks(x.gc.snap) { MarkedIsReachable(s, x.gc.work, x.gc.snap, a); }
    var y := FinishScan(x);
    Join(Collects(), s, x, y);
    LeadsGood(s, y);
    var z := CarryAll(y);
    Join(Collects(), s, y, z);
    LeadsGood(s, z);
    t := RestFinishes(z);
    Join(Collects(), s, z, t);
    LeadsGood(s, t);
    NothingCondemnedLeft(t, a);
  }

  /** One round after the present one. */
  lemma NextRoundFrees(s: State, a: Addr) returns (t: State)
    requires Good(s) && Quiet(s) && |s.r.workers| > 0 && a in s.owner && !Reachable(s, a)
    ensures Leads(Collects(), s, t) && a !in t.owner
  {
    var x := DrainAll(s);
    LeadsGood(s, x);
    var y := SubmitAll(x);
    Join(Collects(), s, x, y);
    LeadsGood(s, y);
    if a !in y.owner {
      t := y;
    } else {
      var z := TakeAll(y, a);
      Join(Collects(), s, y, z);
      LeadsGood(s, z);
      LeadsShrinks(s, z);
      if Reachable(z, a) { StillUnreachable(s, z, a); }
      t := FreesUnreachable(z, a);
      Join(Collects(), s, z, t);
    }
  }

  /** Reclamation is possible.  From every state of every run in which no thread is bound to go behind the
      entries of a buffer, whatever the GC thread, its children and the threads that free are doing, the
      collector can go on by itself so that a given retired block that is not reachable is freed; with either
      recursion. */
  lemma UnreachableCanBeFreed(run: seq<State>, k: nat, a: Addr) returns (t: State)
    requires IsRun(run) && k < |run| && V.Promising(run[k].r) && a in run[k].owner && !Reachable(run[k], a)
    ensures Leads(Collects(), run[k], t) && a !in t.owner && a !in t.heap
  {
    var s := run[k];
    RunGood(run, k);
    var x := Quiets(s);
    if a !in x.owner {
      t := x;
    } else {
      LeadsShrinks(s, x);
      if Reachable(x, a) { StillUnreachable(s, x, a); }
      t := NextRoundFrees(x, a);
      Join(Collects(), s, x, t);
    }
    LeadsShrinks(s, t);
  }

  // ------------------------------------------------------------------ and otherwise it is not

  lemma FreeKeepsPath(s: State, t: nat, p: seq<Addr>)
    requires Owned(s) && Isolated(s) && Enabled(s, Worker(t, R.FreeBlock)) && IsPath(s, p)
    ensures IsPath(Step(s, Worker(t, R.FreeBlock)), p)
  {
    var s', f := Step(s, Worker(t, R.FreeBlock)), s.r.workers[t].pc.addr;
    FreeDoomed(s, t);
    if !StackRefers(s, p[0]) {
      var c :| c in s.heap && c !in s.owner && Refers(s.heap[c], p[0]);
      assert c in s'.heap && c !in s'.owner;
    }
    assert StackRefers(s, p[0]) ==> StackRefers(s', p[0]);
    forall i | 0 <= i < |p| - 1 ensures p[i] in s'.heap {
      PathAvoidsDoomed(s, p, i);
      var x, y := p[i], p[i + 1];
      assert x in s.heap && Refers(s.heap[x], y);
    }
    assert IsPath(s', p);
  }

  /** The block is retired and reachable, and the snapshots are adequate. */
  ghost predicate InUse(s: State, a: Addr) {
    Good(s) && s.adequate && s.recursion.OnTarget? && a in s.owner && Reachable(s, a)
  }

  lemma FreeKeepsUse(s: State, t: nat, a: Addr)
    requires InUse(s, a) && Enabled(s, Worker(t, R.FreeBlock))
    ensures a in Step(s, Worker(t, R.FreeBlock)).owner && Reachable(Step(s, Worker(t, R.FreeBlock)), a)
  {
    var p :| IsPath(s, p) && p[|p| - 1] == a;
    PathAvoidsDoomed(s, p, |p| - 1);
    FreeDoomed(s, t);
    FreeKeepsPath(s, t, p);
  }

  lemma OtherKeepsUse(s: State, act: Action, a: Addr)
    requires InUse(s, a) && Enabled(s, act) && IsCollector(act) && !(act.Worker? && act.op.FreeBlock?)
    ensures a in Step(s, act).owner && Reachable(Step(s, act), a)
  {
    OtherBooks(s, act);
    OthersKeep(s, act);
    U.SameReach(s, Step(s, act), a);
  }

  lemma NextInUse(s: State, t: State, a: Addr)
    requires InUse(s, a) && CollectorNext(s, t)
    ensures InUse(t, a)
  {
    NextGood(s, t);
    var act :| IsCollector(act) && Enabled(s, act) && t == Step(s, act);
    if act.Worker? && act.op.FreeBlock? { FreeKeepsUse(s, act.t, a); } else { OtherKeepsUse(s, act, a); }
    StaysAdequate(s, act);
  }

  lemma StaysAdequate(s: State, a: Action)
    requires Enabled(s, a) && s.recursion.OnTarget? && s.adequate
    ensures Step(s, a).recursion.OnTarget? && Step(s, a).adequate
  {
  }

  lemma NextOnTarget(s: State, t: State)
    requires Next(s, t) && s.recursion.OnTarget? && s.adequate
    ensures t.recursion.OnTarget? && t.adequate
  {
    var a :| Enabled(s, a) && t == Step(s, a);
    StaysAdequate(s, a);
  }

  lemma {:induction false} OnTargetIsAdequate(run: seq<State>, k: nat)
    requires IsRun(run) && k < |run| && run[0].recursion.OnTarget?
    ensures run[k].recursion.OnTarget? && run[k].adequate
  {
    if k > 0 {
      OnTargetIsAdequate(run, k - 1);
      assert NextAt(run, k);
      NextOnTarget(run[k - 1], run[k]);
    }
  }

  /** The exact line between what the collector can and cannot free by itself, with the recursion on the block
      just marked: from any state of any run in which no thread is bound to go behind the entries of a buffer,
      it can free a retired block if and only if the block is not reachable. */
  lemma FreeableIff(run: seq<State>, k: nat, a: Addr)
    requires IsRun(run) && k < |run| && run[0].recursion.OnTarget? && V.Promising(run[k].r) && a in run[k].owner
    ensures !Reachable(run[k], a) <==> exists t :: Leads(Collects(), run[k], t) && a !in t.owner
  {
    if Reachable(run[k], a) {
      RunGood(run, k);
      OnTargetIsAdequate(run, k);
      forall t | Leads(Collects(), run[k], t) ensures a in t.owner {
        forall x, y | InUse(x, a) && CollectorNext(x, y) ensures InUse(y, a) { NextInUse(x, y, a); }
        Keeps(Collects(), x => InUse(x, a), run[k], t);
      }
    } else {
      var t := UnreachableCanBeFreed(run, k, a);
    }
  }
}
