/** The whole life of a retired block: mutators that allocate, copy and retire pointers; the reclaimer
    that drains the queues; the GC thread that gathers, takes a snapshot, has it scanned and publishes
    the result; and the threads that free.  The scan is the machine of ParallelScan, with either
    recursion, the freeing is the machine of Retirees, and both run step by step between the steps of
    the mutators.
    Models frontend.c, forkscan.c and the parts of buffer.c, util.c and child.c they drive. */
module Lifecycle {
  import opened Words
  import R = Retirees
  import P = ParallelScan
  import W = AsWritten
  import One = SecondRead

  /** Which place accounts for a block that is retired and not freed. */
  datatype Owner = InQueue(t: nat) | InDrain | InPending | InUncollected | InWorking
               | InSlot(b: R.BufId, k: nat) | InHand(w: nat)

  /** What the GC thread is doing. */
  datatype Gc = Idle | Gathered(work: seq<Addr>) | Scanning(work: seq<Addr>, snap: P.Snapshot, scan: P.State) | Copying
  {
    function Work(): seq<Addr> { if Gathered? || Scanning? then work else [] }
  }

  /** `heap` maps each allocated block to its words, `stacks[t]` are the words thread t holds.
      `recursion` is where recursive_mark goes, in every scan of the run.  `owner` is bookkeeping: its
      keys are the blocks retired and not freed; so is `adequate`: every snapshot so far was one on
      which that recursion marks all that is reachable. */
  datatype State = State(recursion: P.Recursion, adequate: bool,
                         heap: map<Addr, seq<nat>>, stacks: seq<set<nat>>, queues: seq<seq<Addr>>, drained: seq<Addr>,
                         pending: seq<Addr>, uncollected: seq<Addr>, gc: Gc, r: R.State, owner: map<Addr, Owner>)

  datatype Action =
    | Alloc(t: nat, a: Addr, n: nat) | Load(t: nat, w: nat, k: nat) | Store(t: nat, w: nat, k: nat, v: nat)
    | Compute(t: nat, v: nat) | Forget(t: nat, v: nat) | Retire(t: nat, a: Addr)
    | Drain(t: nat, n: nat) | Submit | Gather
    | Snap(order: seq<Addr>, dead: set<Addr>, snap: P.Snapshot, siblings: nat) | Scan(i: nat, act: P.Action)
    | Publish(b: R.BufId) | Worker(t: nat, op: R.Op) | Carry | GcDrop

  ghost predicate Refers(words: seq<nat>, x: Addr) {
    exists k :: 0 <= k < |words| && PtrMask(words[k]) == x
  }

  ghost predicate StackRefers(s: State, x: Addr) {
    exists t, w :: 0 <= t < |s.stacks| && w in s.stacks[t] && PtrMask(w) == x
  }

  /** What the root scan meets: thread stacks and every block that is neither tracked nor dead. */
  ghost predicate Scanned(s: State, tracked: set<Addr>, dead: set<Addr>, x: Addr) {
    StackRefers(s, x) || exists c :: c in s.heap && c !in tracked && c !in dead && Refers(s.heap[c], x)
  }

  function Masked(words: seq<nat>): seq<Addr> { seq(|words|, i requires 0 <= i < |words| => PtrMask(words[i])) }

  ghost predicate Distinct(q: seq<Addr>) { forall i, j :: 0 <= i < j < |q| ==> q[i] != q[j] }

  /** The snapshot taken of state s: the sorted working array, the words of the tracked blocks, and ranges,
      divided in any way, that hold at least the root words; the scanner may meet others that look like
      references. */
  ghost predicate IsSnapshot(s: State, order: seq<Addr>, dead: set<Addr>, sn: P.Snapshot) {
    && Increasing(order) && (forall a :: a in order <==> a in s.gc.Work())
    && sn.Valid() && (forall a :: a in sn.tracked <==> a in order)
    && (forall a :: a in sn.tracked ==> a in s.heap && sn.words[a] == Masked(s.heap[a]))
    && (forall x :: x in sn.tracked && Scanned(s, sn.tracked, dead, x) ==> P.IsRoot(sn, x))
  }

  /** forkscan_buffer_get_dead_references: unmarked entries of listed buffers, perhaps not all. */
  ghost predicate DeadReferences(s: State, dead: set<Addr>) {
    forall a :: a in dead ==>
      exists b, k: nat :: b in s.r.list && R.LiveAt(s.r.buffers, b, k) && s.r.buffers[b].slots[k] == R.Live(a)
  }

  function Slots(work: seq<Addr>, marked: set<Addr>): seq<R.Slot> {
    seq(|work|, i requires 0 <= i < |work| => if work[i] in marked then R.Marked(work[i]) else R.Live(work[i]))
  }

  function ScanConfig(s: State): P.Config
    requires s.gc.Scanning?
  {
    P.Config(s.gc.snap, s.recursion)
  }

  /** The recursion marks all that is reachable in the snapshot. */
  ghost predicate Adequate(recursion: P.Recursion, sn: P.Snapshot)
    requires sn.Valid()
  {
    recursion.OnTarget? || W.Complete(sn)
  }

  ghost predicate Enabled(s: State, a: Action) {
    match a
    case Alloc(t, p, n) => t < |s.stacks| && p !in s.heap && p > 0 && p % 8 == 0
    case Load(t, w, k) => t < |s.stacks| && w in s.stacks[t] && PtrMask(w) in s.heap && k < |s.heap[PtrMask(w)]|
    case Store(t, w, k, v) =>
      t < |s.stacks| && w in s.stacks[t] && v in s.stacks[t] && PtrMask(w) in s.heap && k < |s.heap[PtrMask(w)]|
    case Compute(t, v) =>
      t < |s.stacks| && (PtrMask(v) in s.heap ==> exists w :: w in s.stacks[t] && PtrMask(w) == PtrMask(v))
    case Forget(t, v) => t < |s.stacks|
    case Retire(t, p) => t < |s.stacks| && t < |s.queues| && p in s.stacks[t] && p in s.heap && p !in s.owner
    case Drain(t, n) => t < |s.queues| && n <= |s.queues[t]|
    case Submit => true
    case Gather => s.gc.Idle? && |s.uncollected + s.pending| > 0
    case Snap(order, dead, sn, siblings) =>
      && s.gc.Gathered? && siblings >= 1 && (forall t :: 0 <= t < |s.r.workers| ==> s.r.workers[t].pc.Outside?)
      && DeadReferences(s, dead) && IsSnapshot(s, order, dead, sn)
    case Scan(i, act) => s.gc.Scanning? && s.gc.snap.Valid() && P.Enabled(ScanConfig(s), s.gc.scan, i, act)
    case Publish(b) =>
      && s.gc.Scanning? && s.gc.scan.notifications > 0
      && R.Enabled(s.r, R.Publish(b, Slots(s.gc.work, s.gc.scan.marked)))
    case Worker(t, op) => R.Enabled(s.r, R.By(t, op))
    case Carry => s.gc.Copying? && R.Enabled(s.r, R.Carry)
    case GcDrop => s.gc.Copying? && R.Enabled(s.r, R.GcDrop)
  }

  function Moved(m: map<Addr, Owner>, q: seq<Addr>, o: Owner): map<Addr, Owner> {
    map a | a in m :: if a in q then o else m[a]
  }

  function Placed(m: map<Addr, Owner>, q: seq<Addr>, b: R.BufId): map<Addr, Owner> {
    map a | a in m :: if a in q then InSlot(b, R.IndexOf(q, a)) else m[a]
  }

  function Updated(words: seq<nat>, k: nat, v: nat): (r: seq<nat>)
    requires k < |words|
  {
    words[k := v]
  }

  function Zeros(n: nat): seq<nat> { seq(n, _ => 0) }

  ghost function Step(s: State, a: Action): State
    requires Enabled(s, a)
  {
    match a
    case Alloc(t, p, n) => s.(heap := s.heap[p := Zeros(n)], stacks := s.stacks[t := s.stacks[t] + {p}])
    case Load(t, w, k) => s.(stacks := s.stacks[t := s.stacks[t] + {s.heap[PtrMask(w)][k]}])
    case Store(t, w, k, v) => s.(heap := s.heap[PtrMask(w) := Updated(s.heap[PtrMask(w)], k, v)])
    case Compute(t, v) => s.(stacks := s.stacks[t := s.stacks[t] + {v}])
    case Forget(t, v) => s.(stacks := s.stacks[t := s.stacks[t] - {v}])
    case Retire(t, p) => s.(queues := s.queues[t := s.queues[t] + [p]], owner := s.owner[p := InQueue(t)])
    case Drain(t, n) =>
      s.(drained := s.drained + s.queues[t][..n], queues := s.queues[t := s.queues[t][n..]],
         owner := Moved(s.owner, s.queues[t][..n], InDrain))
    case Submit => s.(pending := s.pending + s.drained, drained := [], owner := Moved(s.owner, s.drained, InPending))
    case Gather =>
      s.(gc := Gathered(s.uncollected + s.pending), uncollected := [], pending := [],
         owner := Moved(s.owner, s.uncollected + s.pending, InWorking))
    case Snap(order, dead, sn, siblings) =>
      s.(gc := Scanning(order, sn, P.State(0, 0, {}, seq(siblings, _ => P.FRESH), 0)),
         adequate := s.adequate && Adequate(s.recursion, sn))
    case Scan(i, act) => s.(gc := s.gc.(scan := P.Step(ScanConfig(s), s.gc.scan, i, act)))
    case Publish(b) =>
      s.(r := R.Step(s.r, R.Publish(b, Slots(s.gc.work, s.gc.scan.marked))), gc := Copying,
         owner := Placed(s.owner, s.gc.work, b))
    case Worker(t, op) =>
      var r' := R.Step(s.r, R.By(t, op));
      if op.WipeSlot? then s.(r := r', owner := Moved(s.owner, [s.r.workers[t].pc.addr], InHand(t)))
      else if op.FreeBlock? then
        s.(r := r', heap := s.heap - {s.r.workers[t].pc.addr}, owner := s.owner - {s.r.workers[t].pc.addr})
      else s.(r := r')
    case Carry =>
      var slot := s.r.buffers[s.r.gc.buf].slots[s.r.gc.next];
      var s' := s.(r := R.Step(s.r, R.Carry));
      if slot.Marked?
      then s'.(uncollected := s.uncollected + [slot.addr], owner := Moved(s.owner, [slot.addr], InUncollected))
      else s'
    case GcDrop => s.(r := R.Step(s.r, R.GcDrop), gc := Idle)
  }

  /** At the start nothing is allocated; global variables are blocks that are never retired. */
  ghost predicate Init(s: State) {
    && s.adequate && s.heap == map[] && s.owner == map[] && s.gc == Idle
    && s.drained == s.pending == s.uncollected == []
    && R.Init(s.r) && |s.stacks| == |s.queues| == |s.r.workers|
    && (forall t :: 0 <= t < |s.queues| ==> s.queues[t] == [])
  }

  ghost predicate Next(s: State, s': State) { exists a :: Enabled(s, a) && s' == Step(s, a) }

  ghost predicate IsRun(run: seq<State>) {
    |run| > 0 && Init(run[0]) && forall k: nat :: 0 < k < |run| ==> NextAt(run, k)
  }

  ghost predicate NextAt(run: seq<State>, k: nat)
    requires 0 < k < |run|
  {
    Next(run[k - 1], run[k])
  }

  // ------------------------------------------------------------------ ownership

  /** Place o accounts for block a, read off the containers themselves. */
  ghost predicate Holds(s: State, o: Owner, a: Addr) {
    match o
    case InQueue(t) => t < |s.queues| && a in s.queues[t]
    case InDrain => a in s.drained
    case InPending => a in s.pending
    case InUncollected => a in s.uncollected
    case InWorking => a in s.gc.Work()
    case InSlot(b, k) => R.Occupied(s.r, b, k, a)
    case InHand(w) => w < |s.r.workers| && s.r.workers[w].pc == R.Free(a)
  }

  ghost predicate Owned(s: State) {
    forall o, a :: Holds(s, o, a) <==> a in s.owner && s.owner[a] == o
  }

  ghost predicate NoRepeats(s: State) {
    && (forall t :: 0 <= t < |s.queues| ==> Distinct(s.queues[t]))
    && Distinct(s.drained) && Distinct(s.pending) && Distinct(s.uncollected) && Distinct(s.gc.Work())
  }

  // ------------------------------------------------------------------ safety

  /** Blocks found unreachable: being freed, waiting to be freed, or unmarked by the scan under way. */
  ghost predicate Doomed(s: State, a: Addr) {
    a in s.owner &&
    match s.owner[a]
    case InHand(_) => true
    case InSlot(b, k) => R.LiveAt(s.r.buffers, b, k)
    case InWorking => s.gc.Scanning? && s.gc.snap.Valid() && a !in P.LeastMarks(s.gc.snap)
    case _ => false
  }

  /** No stack and no block outside the doomed ones refers to a doomed block. */
  ghost predicate Isolated(s: State) {
    && (forall t, w :: 0 <= t < |s.stacks| && w in s.stacks[t] ==> !Doomed(s, PtrMask(w)))
    && (forall c, k :: c in s.heap && !Doomed(s, c) && 0 <= k < |s.heap[c]| ==> !Doomed(s, PtrMask(s.heap[c][k])))
  }

  ghost predicate Safe(s: State) { s.adequate ==> Isolated(s) }

  ghost predicate ScanOk(s: State) {
    && (s.gc.Scanning? ==>
          s.gc.snap.Valid() && W.Settled(ScanConfig(s), s.gc.scan)
          && (s.adequate ==> Adequate(s.recursion, s.gc.snap))
          && forall a :: a in s.gc.snap.tracked <==> a in s.gc.work)
    && (s.gc.Copying? <==> s.r.gc.Carrying?)
  }

  ghost predicate ShapeOk(s: State) {
    |s.stacks| == |s.queues| == |s.r.workers| && s.owner.Keys <= s.heap.Keys && 0 !in s.heap
  }

  ghost predicate Inv(s: State) {
    R.Inv(s.r) && ShapeOk(s) && ScanOk(s) && Owned(s) && NoRepeats(s) && Safe(s)
  }

  // ------------------------------------------------------------------ mutator steps

  predicate IsMemory(a: Action) { a.Alloc? || a.Load? || a.Store? || a.Compute? || a.Forget? }

  /** Isolation depends on the books only through which blocks are doomed. */
  lemma SameSafe(s: State, s': State)
    requires Safe(s) && s'.adequate == s.adequate && s'.heap == s.heap && s'.stacks == s.stacks
    requires forall a :: Doomed(s', a) <==> Doomed(s, a)
    ensures Safe(s')
  {
  }

  ghost predicate SameBooks(s: State, s': State) {
    && s'.recursion == s.recursion && s'.adequate == s.adequate
    && s'.owner == s.owner && s'.r == s.r && s'.gc == s.gc && s'.queues == s.queues
    && s'.drained == s.drained && s'.pending == s.pending && s'.uncollected == s.uncollected
  }

  lemma SameBooksInv(s: State, s': State)
    requires Inv(s) && SameBooks(s, s') && ShapeOk(s') && Safe(s')
    ensures Inv(s')
  {
    forall o, a ensures Holds(s', o, a) <==> Holds(s, o, a) {}
  }

  lemma MemoryInv(s: State, a: Action)
    requires Inv(s) && Enabled(s, a) && IsMemory(a)
    ensures Inv(Step(s, a))
  {
    var s' := Step(s, a);
    assert SameBooks(s, s');
    forall x ensures Doomed(s', x) <==> Doomed(s, x) {}
    MemorySafe(s, a);
    SameBooksInv(s, s');
  }

  lemma MemorySafe(s: State, a: Action)
    requires Inv(s) && Enabled(s, a) && IsMemory(a)
    requires forall x :: Doomed(Step(s, a), x) <==> Doomed(s, x)
    ensures Safe(Step(s, a))
  {
    match a
    case Alloc(t, p, n) => AllocSafe(s, t, p, n);
    case Load(t, w, k) =>
    case Store(t, w, k, v) => StoreSafe(s, t, w, k, v);
    case Compute(t, v) =>
    case Forget(t, v) =>
  }

  lemma AllocSafe(s: State, t: nat, p: Addr, n: nat)
    requires Inv(s) && Enabled(s, Alloc(t, p, n))
    requires forall x :: Doomed(Step(s, Alloc(t, p, n)), x) <==> Doomed(s, x)
    ensures Safe(Step(s, Alloc(t, p, n)))
  {
    var s' := Step(s, Alloc(t, p, n));
    assert PtrMask(p) == p && PtrMask(0) == 0;
    assert !Doomed(s, p) && !Doomed(s, 0);
  }

  lemma StoreSafe(s: State, t: nat, w: nat, k: nat, v: nat)
    requires Inv(s) && Enabled(s, Store(t, w, k, v))
    requires forall x :: Doomed(Step(s, Store(t, w, k, v)), x) <==> Doomed(s, x)
    ensures Safe(Step(s, Store(t, w, k, v)))
  {
    var s' := Step(s, Store(t, w, k, v));
    if s.adequate {
      assert !Doomed(s, PtrMask(v));
      forall c, j | c in s'.heap && !Doomed(s', c) && 0 <= j < |s'.heap[c]|
        ensures !Doomed(s', PtrMask(s'.heap[c][j]))
      {
        if c != PtrMask(w) || j != k { assert s'.heap[c][j] == s.heap[c][j]; }
      }
    }
  }

  // ------------------------------------------------------------------ moving between places

  /** When exactly the blocks of q change place, to `o`, the books stay right. */
  lemma TransferOwned(s: State, s': State, q: seq<Addr>, o: Owner)
    requires Owned(s) && s'.owner == Moved(s.owner, q, o) && forall a :: a in q ==> a in s.owner
    requires forall p, a :: Holds(s', p, a) <==> if a in q then p == o else Holds(s, p, a)
    ensures Owned(s')
  {
    forall p, a ensures Holds(s', p, a) <==> a in s'.owner && s'.owner[a] == p {
      assert Holds(s, p, a) <==> a in s.owner && s.owner[a] == p;
    }
  }

  /** The elements of a container are owned by it, hence by nothing else. */
  lemma OwnedBy(s: State, q: seq<Addr>, o: Owner)
    requires Owned(s) && forall a :: a in q ==> Holds(s, o, a)
    ensures forall a :: a in q ==> a in s.owner && s.owner[a] == o
    ensures forall p, a :: a in q && p != o ==> !Holds(s, p, a)
  {
    forall a | a in q ensures a in s.owner && s.owner[a] == o { assert Holds(s, o, a); }
  }

  lemma JoinDistinct(p: seq<Addr>, q: seq<Addr>)
    requires Distinct(p) && Distinct(q) && forall a :: a in p ==> a !in q
    ensures Distinct(p + q)
  {
    forall i, j | 0 <= i < j < |p + q| ensures (p + q)[i] != (p + q)[j] {
      if i < |p| <= j { assert p[i] in p && q[j - |p|] in q; }
    }
  }

  /** The end of every step that leaves memory and the condemned blocks alone. */
  lemma MovedInv(s: State, s': State)
    requires Inv(s) && R.Inv(s'.r) && ShapeOk(s') && ScanOk(s') && Owned(s') && NoRepeats(s')
    requires s'.adequate == s.adequate && s'.heap == s.heap && s'.stacks == s.stacks
    requires forall x :: Doomed(s', x) <==> Doomed(s, x)
    ensures Inv(s')
  {
    SameSafe(s, s');
  }

  lemma RetireOwned(s: State, t: nat, p: Addr)
    requires Owned(s) && Enabled(s, Retire(t, p))
    ensures Owned(Step(s, Retire(t, p)))
    ensures forall x :: Doomed(Step(s, Retire(t, p)), x) <==> Doomed(s, x)
  {
    var s' := Step(s, Retire(t, p));
    assert forall o :: !Holds(s, o, p);
    forall o, a ensures Holds(s', o, a) <==> Holds(s, o, a) || (o == InQueue(t) && a == p) {}
    forall o, a ensures Holds(s', o, a) <==> a in s'.owner && s'.owner[a] == o {
      assert Holds(s, o, a) <==> a in s.owner && s.owner[a] == o;
    }
  }

  lemma RetireInv(s: State, t: nat, p: Addr)
    requires Inv(s) && Enabled(s, Retire(t, p))
    ensures Inv(Step(s, Retire(t, p)))
  {
    RetireOwned(s, t, p);
    assert !Holds(s, InQueue(t), p);
    JoinDistinct(s.queues[t], [p]);
    MovedInv(s, Step(s, Retire(t, p)));
  }

  lemma DrainOwned(s: State, t: nat, n: nat)
    requires Owned(s) && NoRepeats(s) && Enabled(s, Drain(t, n))
    ensures Owned(Step(s, Drain(t, n))) && NoRepeats(Step(s, Drain(t, n)))
  {
    var s' := Step(s, Drain(t, n));
    var q, moved := s.queues[t], s.queues[t][..n];
    assert q == moved + q[n..];
    OwnedBy(s, q, InQueue(t));
    OwnedBy(s, s.drained, InDrain);
    assert forall a :: a in moved ==> a in q && a !in q[n..];
    JoinDistinct(s.drained, moved);
    forall o, a ensures Holds(s', o, a) <==> if a in moved then o == InDrain else Holds(s, o, a) {
      assert a in moved && o != InQueue(t) ==> !Holds(s, o, a);
    }
    TransferOwned(s, s', moved, InDrain);
  }

  lemma DrainDoomed(s: State, t: nat, n: nat)
    requires Owned(s) && Enabled(s, Drain(t, n))
    ensures forall x :: Doomed(Step(s, Drain(t, n)), x) <==> Doomed(s, x)
  {
    OwnedBy(s, s.queues[t], InQueue(t));
  }

  lemma DrainInv(s: State, t: nat, n: nat)
    requires Inv(s) && Enabled(s, Drain(t, n))
    ensures Inv(Step(s, Drain(t, n)))
  {
    DrainOwned(s, t, n);
    DrainDoomed(s, t, n);
    MovedInv(s, Step(s, Drain(t, n)));
  }

  lemma SubmitOwned(s: State)
    requires Owned(s) && NoRepeats(s)
    ensures Owned(Step(s, Submit)) && NoRepeats(Step(s, Submit))
  {
    OwnedBy(s, s.drained, InDrain);
    OwnedBy(s, s.pending, InPending);
    JoinDistinct(s.pending, s.drained);
    forall o, a ensures Holds(Step(s, Submit), o, a) <==> if a in s.drained then o == InPending else Holds(s, o, a) {
      assert a in s.drained && o != InDrain ==> !Holds(s, o, a);
    }
    TransferOwned(s, Step(s, Submit), s.drained, InPending);
  }

  lemma SubmitInv(s: State)
    requires Inv(s)
    ensures Inv(Step(s, Submit))
  {
    SubmitOwned(s);
    OwnedBy(s, s.drained, InDrain);
    MovedInv(s, Step(s, Submit));
  }

  lemma GatherOwned(s: State)
    requires Owned(s) && NoRepeats(s) && Enabled(s, Gather)
    ensures Owned(Step(s, Gather)) && NoRepeats(Step(s, Gather))
  {
    var s' := Step(s, Gather);
    OwnedBy(s, s.uncollected, InUncollected);
    OwnedBy(s, s.pending, InPending);
    JoinDistinct(s.uncollected, s.pending);
    forall o, a ensures Holds(s', o, a) <==> if a in s.uncollected + s.pending then o == InWorking else Holds(s, o, a) {
      assert a in s.uncollected && o != InUncollected ==> !Holds(s, o, a);
      assert a in s.pending && o != InPending ==> !Holds(s, o, a);
    }
    TransferOwned(s, s', s.uncollected + s.pending, InWorking);
  }

  lemma GatherDoomed(s: State)
    requires Owned(s) && Enabled(s, Gather)
    ensures forall x :: Doomed(Step(s, Gather), x) <==> Doomed(s, x)
  {
    OwnedBy(s, s.uncollected, InUncollected);
    OwnedBy(s, s.pending, InPending);
  }

  lemma GatherInv(s: State)
    requires Inv(s) && Enabled(s, Gather)
    ensures Inv(Step(s, Gather))
  {
    GatherOwned(s);
    GatherDoomed(s);
    MovedInv(s, Step(s, Gather));
  }

  // ------------------------------------------------------------------ snapshot and scan

  lemma RootIsMarked(sn: P.Snapshot, x: Addr)
    requires sn.Valid() && P.IsRoot(sn, x)
    ensures x in P.LeastMarks(sn)
  {
    var r, p :| 0 <= r < |sn.ranges| && 0 <= p < |sn.ranges[r]| && sn.ranges[r][p] == x;
    forall X: set<Addr> | P.Closed(sn, X) ensures x in X {}
  }

  /** Dead references are entries waiting to be freed. */
  lemma DeadIsDoomed(s: State, dead: set<Addr>)
    requires Owned(s) && DeadReferences(s, dead)
    ensures forall a :: a in dead ==> Doomed(s, a)
  {
    forall a | a in dead ensures Doomed(s, a) {
      var b, k: nat :| b in s.r.list && R.LiveAt(s.r.buffers, b, k) && s.r.buffers[b].slots[k] == R.Live(a);
      assert Holds(s, InSlot(b, k), a);
    }
  }

  lemma SnapKeepsDoomed(s: State, a: Action)
    requires Enabled(s, a) && a.Snap?
    ensures forall x :: Doomed(s, x) ==> Doomed(Step(s, a), x)
  {
  }

  /** Whatever of a tracked block is referred to is marked, if the block is. */
  lemma ReferentIsMarked(s: State, a: Action, c: Addr, x: Addr)
    requires Enabled(s, a) && a.Snap? && c in a.snap.tracked && x in a.snap.tracked
    requires c in P.LeastMarks(a.snap) && Refers(s.heap[c], x)
    ensures x in P.LeastMarks(a.snap)
  {
    P.LeastMarksIsClosed(a.snap);
    var k :| 0 <= k < |s.heap[c]| && PtrMask(s.heap[c][k]) == x;
    assert a.snap.words[c][k] == x;
  }

  /** Where a block of the working set can be, once the snapshot is taken. */
  lemma TrackedDoomed(s: State, a: Action, c: Addr)
    requires Owned(s) && Enabled(s, a) && a.Snap? && c in a.snap.tracked
    ensures Doomed(Step(s, a), c) <==> c !in P.LeastMarks(a.snap)
  {
    assert Holds(s, InWorking, c);
  }

  /** A block of the working set met outside the doomed blocks is marked by a completed scan. */
  lemma MetIsMarked(s: State, a: Action, x: Addr)
    requires Inv(s) && Enabled(s, a) && a.Snap? && x in a.snap.tracked
    requires StackRefers(s, x)
          || exists c :: c in s.heap && !Doomed(Step(s, a), c) && Refers(s.heap[c], x)
    ensures x in P.LeastMarks(a.snap)
  {
    var sn := a.snap;
    DeadIsDoomed(s, a.dead);
    SnapKeepsDoomed(s, a);
    if StackRefers(s, x) {
      RootIsMarked(sn, x);
    } else {
      var c :| c in s.heap && !Doomed(Step(s, a), c) && Refers(s.heap[c], x);
      if c in sn.tracked {
        TrackedDoomed(s, a, c);
        ReferentIsMarked(s, a, c, x);
      } else {
        RootIsMarked(sn, x);
      }
    }
  }

  lemma SnapIsolated(s: State, a: Action)
    requires Inv(s) && Enabled(s, a) && a.Snap? && s.adequate
    ensures Isolated(Step(s, a))
  {
    var s' := Step(s, a);
    forall x | Doomed(s', x) ensures Doomed(s, x) || (x in a.snap.tracked && x !in P.LeastMarks(a.snap)) {
      if !Doomed(s, x) { assert Holds(s, InWorking, x) <==> x in s.owner && s.owner[x] == InWorking; }
    }
    forall t, w | 0 <= t < |s.stacks| && w in s.stacks[t] ensures !Doomed(s', PtrMask(w)) {
      if PtrMask(w) in a.snap.tracked { MetIsMarked(s, a, PtrMask(w)); }
    }
    forall c, k | c in s.heap && !Doomed(s', c) && 0 <= k < |s.heap[c]| ensures !Doomed(s', PtrMask(s.heap[c][k])) {
      assert Refers(s.heap[c], PtrMask(s.heap[c][k]));
      if PtrMask(s.heap[c][k]) in a.snap.tracked { MetIsMarked(s, a, PtrMask(s.heap[c][k])); }
    }
  }

  lemma SnapOwned(s: State, a: Action)
    requires Owned(s) && NoRepeats(s) && Enabled(s, a) && a.Snap?
    ensures Owned(Step(s, a)) && NoRepeats(Step(s, a))
  {
    forall o, x ensures Holds(Step(s, a), o, x) <==> Holds(s, o, x) {}
  }

  lemma SnapScanOk(s: State, a: Action)
    requires ScanOk(s) && Enabled(s, a) && a.Snap?
    ensures ScanOk(Step(s, a))
  {
    W.InitSettled(P.Config(a.snap, s.recursion), Step(s, a).gc.scan);
  }

  lemma SnapInv(s: State, a: Action)
    requires Inv(s) && Enabled(s, a) && a.Snap?
    ensures Inv(Step(s, a))
  {
    if s.adequate { SnapIsolated(s, a); }
    SnapScanOk(s, a);
    SnapOwned(s, a);
  }

  lemma ScanScanOk(s: State, a: Action)
    requires ScanOk(s) && Enabled(s, a) && a.Scan?
    ensures ScanOk(Step(s, a))
  {
    var c := ScanConfig(s);
    assert P.Next(c, s.gc.scan, Step(s, a).gc.scan);
    W.NextSettled(c, s.gc.scan, Step(s, a).gc.scan);
  }

  lemma ScanOwned(s: State, a: Action)
    requires Owned(s) && NoRepeats(s) && Enabled(s, a) && a.Scan?
    ensures Owned(Step(s, a)) && NoRepeats(Step(s, a))
    ensures forall x :: Doomed(Step(s, a), x) <==> Doomed(s, x)
  {
    forall o, x ensures Holds(Step(s, a), o, x) <==> Holds(s, o, x) {}
  }

  lemma ScanInv(s: State, a: Action)
    requires Inv(s) && Enabled(s, a) && a.Scan?
    ensures Inv(Step(s, a))
  {
    ScanScanOk(s, a);
    ScanOwned(s, a);
    MovedInv(s, Step(s, a));
  }

  // ------------------------------------------------------------------ publishing the result

  lemma PlacedAt(q: seq<Addr>, k: nat)
    requires Distinct(q) && k < |q|
    ensures R.IndexOf(q, q[k]) == k
  {
  }

  /** Where the blocks of the published buffer are afterwards. */
  lemma PublishHolds(s: State, b: R.BufId, o: Owner, a: Addr)
    requires Owned(s) && NoRepeats(s) && s.r.gc.Resting? && Enabled(s, Publish(b))
    ensures Holds(Step(s, Publish(b)), o, a) <==>
      if o.InSlot? && o.b == b then o.k < |s.gc.work| && s.gc.work[o.k] == a
      else o != InWorking && Holds(s, o, a)
  {
  }

  lemma PublishOwned(s: State, b: R.BufId)
    requires Owned(s) && NoRepeats(s) && s.r.gc.Resting? && Enabled(s, Publish(b))
    ensures Owned(Step(s, Publish(b))) && NoRepeats(Step(s, Publish(b)))
  {
    var s', work := Step(s, Publish(b)), s.gc.work;
    OwnedBy(s, work, InWorking);
    forall o, a ensures Holds(s', o, a) <==> a in s'.owner && s'.owner[a] == o {
      PublishHolds(s, b, o, a);
      assert Holds(s, o, a) <==> a in s.owner && s.owner[a] == o;
      if o.InSlot? && o.b == b {
        assert !Holds(s, o, a);
        if o.k < |work| { PlacedAt(work, o.k); }
      }
    }
  }

  lemma PublishInv(s: State, b: R.BufId)
    requires Inv(s) && Enabled(s, Publish(b))
    ensures Inv(Step(s, Publish(b)))
  {
    R.StepInv(s.r, R.Publish(b, Slots(s.gc.work, s.gc.scan.marked)));
    PublishOwned(s, b);
    if s.adequate {
      W.SettledLeast(ScanConfig(s), s.gc.scan);
      PublishDoomed(s, b);
      SameSafe(s, Step(s, Publish(b)));
    }
  }

  /** Publishing dooms nothing new: the unmarked entries are the blocks the snapshot condemned. */
  lemma PublishDoomed(s: State, b: R.BufId)
    requires Inv(s) && Enabled(s, Publish(b)) && s.gc.scan.marked == P.LeastMarks(s.gc.snap)
    ensures forall x :: Doomed(Step(s, Publish(b)), x) <==> Doomed(s, x)
  {
    forall x ensures Doomed(Step(s, Publish(b)), x) <==> Doomed(s, x) {
      if x in s.gc.work { PublishedDoomed(s, b, x); } else { OthersDoomed(s, b, x); }
    }
  }

  lemma PublishedDoomed(s: State, b: R.BufId, x: Addr)
    requires Owned(s) && Enabled(s, Publish(b)) && s.gc.snap.Valid() && s.gc.scan.marked == P.LeastMarks(s.gc.snap)
    requires x in s.gc.work
    ensures Doomed(Step(s, Publish(b)), x) <==> Doomed(s, x)
  {
    var s', k := Step(s, Publish(b)), R.IndexOf(s.gc.work, x);
    assert Holds(s, InWorking, x);
    assert s'.owner[x] == InSlot(b, k);
    assert s'.r.buffers[b].slots[k] == Slots(s.gc.work, s.gc.scan.marked)[k];
  }

  lemma OthersDoomed(s: State, b: R.BufId, x: Addr)
    requires Owned(s) && Enabled(s, Publish(b)) && x !in s.gc.work
    ensures Doomed(Step(s, Publish(b)), x) <==> Doomed(s, x)
  {
    if x in s.owner { assert Holds(s, s.owner[x], x); }
  }

  // ------------------------------------------------------------------ freeing and carrying over

  /** Changes of the retiree buffers that no place notices. */
  lemma UnnoticedInv(s: State, s': State)
    requires Inv(s) && s' == s.(r := s'.r) && R.Inv(s'.r) && |s'.r.workers| == |s.r.workers| && s'.r.gc == s.r.gc
    requires forall b, k, x :: R.Occupied(s'.r, b, k, x) <==> R.Occupied(s.r, b, k, x)
    requires forall b, k :: R.LiveAt(s'.r.buffers, b, k) <==> R.LiveAt(s.r.buffers, b, k)
    requires forall u, x :: 0 <= u < |s.r.workers| ==>
      (s'.r.workers[u].pc == R.Free(x) <==> s.r.workers[u].pc == R.Free(x))
    ensures Inv(s')
  {
    forall o, x ensures Holds(s', o, x) <==> Holds(s, o, x) {}
    forall x ensures Doomed(s', x) <==> Doomed(s, x) {}
    SameSafe(s, s');
  }

  /** Steps of a worker that neither take an address nor free one leave the books alone. */
  lemma WorkerBooks(s: State, t: nat, op: R.Op)
    requires Inv(s) && Enabled(s, Worker(t, op)) && !op.WipeSlot? && !op.FreeBlock?
    ensures Inv(Step(s, Worker(t, op)))
  {
    R.StepInv(s.r, R.By(t, op));
    R.OccupiedKept(s.r, R.By(t, op));
    R.SlotsSame(s.r, R.By(t, op));
    FreeingKept(s, t, op);
    UnnoticedInv(s, Step(s, Worker(t, op)));
  }

  lemma FreeingKept(s: State, t: nat, op: R.Op)
    requires R.Enabled(s.r, R.By(t, op)) && !op.WipeSlot? && !op.FreeBlock?
    ensures var r' := R.Step(s.r, R.By(t, op));
      |r'.workers| == |s.r.workers| && forall u, x :: 0 <= u < |s.r.workers| ==>
        (r'.workers[u].pc == R.Free(x) <==> s.r.workers[u].pc == R.Free(x))
  {
  }

  /** Taking an entry to free it moves its address from the entry to the worker's hand. */
  lemma WipeInv(s: State, t: nat)
    requires Inv(s) && Enabled(s, Worker(t, R.WipeSlot))
    ensures Inv(Step(s, Worker(t, R.WipeSlot)))
  {
    var s' := Step(s, Worker(t, R.WipeSlot));
    R.StepInv(s.r, R.By(t, R.WipeSlot));
    R.EachWorkerOk(s.r, t);
    WipeMoves(s, t);
    MovedInv(s, s');
  }

  /** The entry that worker t takes. */
  function WipedAt(s: State, t: nat): Owner
    requires t < |s.r.workers| && s.r.workers[t].buf.Some? && s.r.workers[t].begin > 0
  {
    InSlot(s.r.workers[t].buf.value, s.r.workers[t].begin - 1)
  }

  /** What a wipe changes in the entries and in what they account for (R.OccupiedWiped). */
  ghost predicate Wiped(s: State, t: nat, s': State) {
    && t < |s.r.workers| && s.r.workers[t].buf.Some? && s.r.workers[t].begin > 0 && s.r.workers[t].pc.Wipe?
    && Holds(s, WipedAt(s, t), s.r.workers[t].pc.addr)
    && R.LiveAt(s.r.buffers, WipedAt(s, t).b, WipedAt(s, t).k)
    && s'.r.workers == s.r.workers[t := s.r.workers[t].(pc := R.Free(s.r.workers[t].pc.addr))]
    && WipedEntries(s.r, s'.r, WipedAt(s, t))
  }

  ghost predicate WipedEntries(r: R.State, r': R.State, from: Owner) {
    && (forall b, k, x :: R.Occupied(r', b, k, x) <==> R.Occupied(r, b, k, x) && InSlot(b, k) != from)
    && (forall b, k: nat :: R.LiveAt(r'.buffers, b, k) <==> R.LiveAt(r.buffers, b, k) && InSlot(b, k) != from)
  }

  lemma WipeWipes(s: State, t: nat)
    requires Enabled(s, Worker(t, R.WipeSlot)) && R.WorkerOk(s.r.buffers, s.r.list, s.r.workers[t])
    ensures Wiped(s, t, Step(s, Worker(t, R.WipeSlot)))
  {
    R.OccupiedWiped(s.r, t);
    WipedWorker(s.r, t);
    WipedFrom(s, t);
  }

  lemma WipedFrom(s: State, t: nat)
    requires Enabled(s, Worker(t, R.WipeSlot))
    requires R.Occupied(s.r, s.r.workers[t].buf.value, s.r.workers[t].begin - 1, s.r.workers[t].pc.addr)
    ensures s.r.workers[t].pc.Wipe? && Holds(s, WipedAt(s, t), s.r.workers[t].pc.addr)
    ensures Step(s, Worker(t, R.WipeSlot)).r == R.StepOp(s.r, t, R.WipeSlot)
  {
  }

  lemma WipedWorker(r: R.State, t: nat)
    requires R.Enabled(r, R.By(t, R.WipeSlot))
    ensures R.StepOp(r, t, R.WipeSlot).workers == r.workers[t := r.workers[t].(pc := R.Free(r.workers[t].pc.addr))]
  {
  }

  lemma WipeMoves(s: State, t: nat)
    requires Enabled(s, Worker(t, R.WipeSlot)) && R.WorkerOk(s.r.buffers, s.r.list, s.r.workers[t])
    requires Owned(s) && NoRepeats(s) && ShapeOk(s) && ScanOk(s)
    ensures var s' := Step(s, Worker(t, R.WipeSlot));
      && Owned(s') && NoRepeats(s') && ShapeOk(s') && ScanOk(s')
      && s'.adequate == s.adequate && s'.heap == s.heap && s'.stacks == s.stacks
      && forall x :: Doomed(s', x) <==> Doomed(s, x)
  {
    var s' := Step(s, Worker(t, R.WipeSlot));
    WipeWipes(s, t);
    WipeOwned(s, t, s');
    WipeDoomed(s, t, s');
  }

  lemma WipeOwned(s: State, t: nat, s': State)
    requires Owned(s) && Wiped(s, t, s') && s'.owner == Moved(s.owner, [s.r.workers[t].pc.addr], InHand(t))
    requires s'.queues == s.queues && s'.drained == s.drained && s'.pending == s.pending
    requires s'.uncollected == s.uncollected
    requires s'.gc == s.gc
    ensures Owned(s')
  {
    var a, from := s.r.workers[t].pc.addr, WipedAt(s, t);
    OwnedBy(s, [a], from);
    forall o, x ensures Holds(s', o, x) <==> if x in [a] then o == InHand(t) else Holds(s, o, x) {
      assert x == a && o != from ==> !Holds(s, o, x);
      assert o == from ==> (Holds(s, o, x) <==> x in s.owner && s.owner[x] == o);
    }
    TransferOwned(s, s', [a], InHand(t));
  }

  lemma WipeDoomed(s: State, t: nat, s': State)
    requires Owned(s) && Wiped(s, t, s') && s'.owner == Moved(s.owner, [s.r.workers[t].pc.addr], InHand(t))
    requires s'.gc == s.gc
    ensures forall x :: Doomed(s', x) <==> Doomed(s, x)
  {
    forall x ensures Doomed(s', x) <==> Doomed(s, x) {
      if x in s.owner && s.owner[x] == WipedAt(s, t) { assert Holds(s, s.owner[x], x); }
    }
  }

  /** Freeing takes a doomed block out of the heap and of the books. */
  lemma FreeInv(s: State, t: nat)
    requires Inv(s) && Enabled(s, Worker(t, R.FreeBlock))
    ensures Inv(Step(s, Worker(t, R.FreeBlock)))
  {
    R.StepInv(s.r, R.By(t, R.FreeBlock));
    R.OccupiedKept(s.r, R.By(t, R.FreeBlock));
    FreeOwned(s, t);
    FreeDoomed(s, t);
  }

  lemma FreeHolds(s: State, t: nat, o: Owner, x: Addr)
    requires Owned(s) && Enabled(s, Worker(t, R.FreeBlock))
    ensures Holds(Step(s, Worker(t, R.FreeBlock)), o, x) <==> Holds(s, o, x) && o != InHand(t)
  {
  }

  lemma FreeOwned(s: State, t: nat)
    requires Owned(s) && Enabled(s, Worker(t, R.FreeBlock))
    ensures Owned(Step(s, Worker(t, R.FreeBlock)))
  {
    var s', a := Step(s, Worker(t, R.FreeBlock)), s.r.workers[t].pc.addr;
    assert Holds(s, InHand(t), a);
    forall o, x ensures Holds(s', o, x) <==> x in s'.owner && s'.owner[x] == o {
      FreeHolds(s, t, o, x);
      assert Holds(s, o, x) <==> x in s.owner && s.owner[x] == o;
    }
  }

  lemma FreeDoomed(s: State, t: nat)
    requires Owned(s) && Enabled(s, Worker(t, R.FreeBlock))
    ensures Doomed(s, s.r.workers[t].pc.addr)
    ensures forall x :: Doomed(Step(s, Worker(t, R.FreeBlock)), x) <==> Doomed(s, x) && x != s.r.workers[t].pc.addr
  {
    assert Holds(s, InHand(t), s.r.workers[t].pc.addr);
  }

  /** Copying a marked entry moves its address to the next round's buffer. */
  lemma CarryInv(s: State)
    requires Inv(s) && Enabled(s, Carry)
    ensures Inv(Step(s, Carry))
  {
    R.StepInv(s.r, R.Carry);
    CarryRest(s);
    CarryOwned(s);
    CarryDoomed(s);
    MovedInv(s, Step(s, Carry));
  }

  lemma CarryRest(s: State)
    requires Enabled(s, Carry)
    ensures var s' := Step(s, Carry);
      && s'.adequate == s.adequate && s'.heap == s.heap && s'.stacks == s.stacks && s'.owner.Keys == s.owner.Keys
      && s'.gc == s.gc && s'.r.gc.Carrying? && s.r.gc.Carrying? && s'.queues == s.queues && s'.r.workers == s.r.workers
  {
  }

  lemma CarryOwned(s: State)
    requires Owned(s) && NoRepeats(s) && Enabled(s, Carry)
    ensures Owned(Step(s, Carry)) && NoRepeats(Step(s, Carry))
  {
    var s', b, k := Step(s, Carry), s.r.gc.buf, s.r.gc.next;
    var slot := s.r.buffers[b].slots[k];
    if slot.Marked? {
      var q := [slot.addr];
      OwnedBy(s, q, InSlot(b, k));
      OwnedBy(s, s.uncollected, InUncollected);
      JoinDistinct(s.uncollected, q);
      forall o, x ensures Holds(s', o, x) <==> if x in q then o == InUncollected else Holds(s, o, x) {
        assert x in q && o != InSlot(b, k) ==> !Holds(s, o, x);
      }
      TransferOwned(s, s', q, InUncollected);
    } else {
      forall o, x ensures Holds(s', o, x) <==> Holds(s, o, x) {}
    }
  }

  lemma CarryDoomed(s: State)
    requires Owned(s) && Enabled(s, Carry)
    ensures forall x :: Doomed(Step(s, Carry), x) <==> Doomed(s, x)
  {
    var b, k := s.r.gc.buf, s.r.gc.next;
    var slot := s.r.buffers[b].slots[k];
    if slot.Marked? { assert Holds(s, InSlot(b, k), slot.addr); }
  }

  lemma GcDropInv(s: State)
    requires Inv(s) && Enabled(s, GcDrop)
    ensures Inv(Step(s, GcDrop))
  {
    R.StepInv(s.r, R.GcDrop);
    R.OccupiedKept(s.r, R.GcDrop);
    R.SlotsSame(s.r, R.GcDrop);
    GcDropOwned(s);
    MovedInv(s, Step(s, GcDrop));
  }

  lemma GcDropOwned(s: State)
    requires Owned(s) && NoRepeats(s) && Enabled(s, GcDrop)
    requires forall b, k, x :: R.Occupied(R.Step(s.r, R.GcDrop), b, k, x) <==> R.Occupied(s.r, b, k, x)
    requires forall b, k :: R.LiveAt(R.Step(s.r, R.GcDrop).buffers, b, k) <==> R.LiveAt(s.r.buffers, b, k)
    ensures Owned(Step(s, GcDrop)) && NoRepeats(Step(s, GcDrop))
    ensures forall x :: Doomed(Step(s, GcDrop), x) <==> Doomed(s, x)
  {
    forall o, x ensures Holds(Step(s, GcDrop), o, x) <==> Holds(s, o, x) {}
  }

  // ------------------------------------------------------------------ theorems over runs

  lemma InitInv(s: State)
    requires Init(s)
    ensures Inv(s)
  {
    forall o, a ensures !Holds(s, o, a) {}
  }

  predicate IsHandOver(a: Action) { a.Retire? || a.Drain? || a.Submit? || a.Gather? }

  lemma HandOverInv(s: State, a: Action)
    requires Inv(s) && Enabled(s, a) && IsHandOver(a)
    ensures Inv(Step(s, a))
  {
    match a
    case Retire(t, p) => RetireInv(s, t, p);
    case Drain(t, n) => DrainInv(s, t, n);
    case Submit => SubmitInv(s);
    case Gather => GatherInv(s);
  }

  lemma StepInv(s: State, a: Action)
    requires Inv(s) && Enabled(s, a)
    ensures Inv(Step(s, a))
  {
    if IsMemory(a) {
      MemoryInv(s, a);
    } else if IsHandOver(a) {
      HandOverInv(s, a);
    } else {
      match a
      case Snap(_, _, _, _) => SnapInv(s, a);
      case Scan(_, _) => ScanInv(s, a);
      case Publish(b) => PublishInv(s, b);
      case Worker(t, op) =>
        if op.WipeSlot? { WipeInv(s, t); }
        else if op.FreeBlock? { FreeInv(s, t); }
        else { WorkerBooks(s, t, op); }
      case Carry => CarryInv(s);
      case GcDrop => GcDropInv(s);
      case _ =>
    }
  }

  lemma NextInv(s: State, t: State)
    requires Inv(s) && Next(s, t)
    ensures Inv(t)
  {
    var a :| Enabled(s, a) && t == Step(s, a);
    StepInv(s, a);
  }

  lemma {:induction false} RunInv(run: seq<State>, k: nat)
    requires IsRun(run) && k < |run|
    ensures Inv(run[k])
  {
    if k == 0 {
      InitInv(run[0]);
    } else {
      RunInv(run, k - 1);
      assert NextAt(run, k);
      NextInv(run[k - 1], run[k]);
    }
  }

  /** A chain of references that starts in a thread stack or in a block that is not retired. */
  ghost predicate IsPath(s: State, p: seq<Addr>) {
    && |p| > 0
    && (StackRefers(s, p[0]) || exists c :: c in s.heap && c !in s.owner && Refers(s.heap[c], p[0]))
    && forall i, j :: 0 <= i < j < |p| && j == i + 1 ==> p[i] in s.heap && Refers(s.heap[p[i]], p[j])
  }

  ghost predicate Reachable(s: State, a: Addr) {
    exists p: seq<Addr> :: IsPath(s, p) && p[|p| - 1] == a
  }

  lemma {:induction false} PathAvoidsDoomed(s: State, p: seq<Addr>, i: nat)
    requires Isolated(s) && IsPath(s, p) && i < |p|
    ensures !Doomed(s, p[i])
  {
    if i > 0 { PathAvoidsDoomed(s, p, i - 1); }
  }

  // ------------------------------------------------------------------ the two conditions on a run

  /** On every snapshot of the run the recursion marks all that is reachable: it goes to the block just
      marked, or the snapshot is complete. */
  ghost predicate AdequateRun(run: seq<State>, k: nat)
    requires k < |run|
  {
    AdequateAt(run[k]) && (k > 0 ==> AdequateRun(run, k - 1))
  }

  ghost predicate AdequateAt(s: State) {
    s.gc.Scanning? ==> s.gc.snap.Valid() && Adequate(s.recursion, s.gc.snap)
  }

  lemma SnapAdequate(s: State, a: Action)
    requires Enabled(s, a) && a.Snap?
    ensures Step(s, a).recursion == s.recursion
    ensures Step(s, a).adequate <==> s.adequate && AdequateAt(Step(s, a))
  {
  }

  lemma SameScan(s: State, a: Action)
    requires Enabled(s, a) && !a.Snap?
    ensures var t := Step(s, a);
      && t.recursion == s.recursion && t.adequate == s.adequate
      && (t.gc.Scanning? ==> s.gc.Scanning? && t.gc.snap == s.gc.snap)
  {
  }

  lemma NextAdequate(s: State, t: State)
    requires ScanOk(s) && Next(s, t)
    ensures t.recursion == s.recursion
    ensures t.adequate <==> s.adequate && AdequateAt(t)
  {
    var a :| Enabled(s, a) && t == Step(s, a);
    if a.Snap? { SnapAdequate(s, a); } else { SameScan(s, a); }
  }

  lemma AdequateStart(run: seq<State>)
    requires |run| > 0 && Init(run[0])
    ensures run[0].adequate && AdequateRun(run, 0)
  {
  }

  lemma {:induction false} AdequateIff(run: seq<State>, k: nat)
    requires IsRun(run) && k < |run|
    ensures run[k].adequate <==> AdequateRun(run, k)
  {
    if k == 0 {
      AdequateStart(run);
    } else {
      AdequateIff(run, k - 1);
      RunScanOk(run, k - 1);
      assert NextAt(run, k);
      NextAdequate(run[k - 1], run[k]);
    }
  }

  lemma RunScanOk(run: seq<State>, k: nat)
    requires IsRun(run) && k < |run|
    ensures ScanOk(run[k])
  {
    RunInv(run, k);
  }

  /** Before state k, every thread that has read free_idx again (util.c:257) has found entries left. */
  ghost predicate SecondReadsHit(run: seq<State>, k: nat)
    requires k < |run|
  {
    k > 0 ==> R.SecondReadsInRange(run[k - 1].r) && SecondReadsHit(run, k - 1)
  }

  lemma NextFaultless(s: State, t: State)
    requires Inv(s) && Next(s, t) && R.Faultless(s.r) && R.SecondReadsInRange(s.r)
    ensures R.Faultless(t.r)
  {
    var a :| Enabled(s, a) && t == Step(s, a);
    if a.Worker? { R.StepFaultless(s.r, a.t, a.op); } else { SameWorkers(s, a); }
  }

  lemma SameWorkers(s: State, a: Action)
    requires Enabled(s, a) && !a.Worker?
    ensures Step(s, a).r.workers == s.r.workers
  {
  }

  /** Then no thread has gone, or is about to go, behind the last entry of a buffer. */
  lemma {:induction false} HitsAreFaultless(run: seq<State>, k: nat)
    requires IsRun(run) && k < |run| && SecondReadsHit(run, k)
    ensures R.Faultless(run[k].r)
  {
    if k > 0 {
      HitsAreFaultless(run, k - 1);
      RunInv(run, k - 1);
      assert NextAt(run, k);
      NextFaultless(run[k - 1], run[k]);
    }
  }

  /** A step leaves the retiree buffers alone or is a step of their machine. */
  lemma StepRetirees(s: State, a: Action)
    requires Enabled(s, a)
    ensures Step(s, a).r == s.r || R.Next(s.r, Step(s, a).r)
  {
    match a
    case Publish(b) => assert R.Enabled(s.r, R.Publish(b, Slots(s.gc.work, s.gc.scan.marked)));
    case Worker(t, op) => assert R.Enabled(s.r, R.By(t, op));
    case Carry => assert R.Enabled(s.r, R.Carry);
    case GcDrop => assert R.Enabled(s.r, R.GcDrop);
    case _ =>
  }

  lemma NextAlone(s: State, t: State)
    requires Inv(s) && Next(s, t)
    ensures |t.r.workers| == |s.r.workers|
    ensures |s.r.workers| <= 1 && One.AllAlone(s.r) ==> One.AllAlone(t.r)
  {
    var a :| Enabled(s, a) && t == Step(s, a);
    StepRetirees(s, a);
    if t.r != s.r { One.NextAlone(s.r, t.r); }
  }

  /** With one thread every second read of free_idx finds entries left. */
  lemma {:induction false} OneThreadHits(run: seq<State>, k: nat)
    requires IsRun(run) && k < |run| && |run[0].stacks| <= 1
    ensures |run[k].r.workers| <= 1 && One.AllAlone(run[k].r) && SecondReadsHit(run, k)
  {
    if k > 0 {
      OneThreadHits(run, k - 1);
      RunInv(run, k - 1);
      One.AloneInRange(run[k - 1].r);
      assert NextAt(run, k);
      NextAlone(run[k - 1], run[k]);
    }
  }

  // ------------------------------------------------------------------ the theorems

  /** Block a has been condemned: a thread is about to free it, or it is an unmarked entry that waits in a
      retiree buffer. */
  ghost predicate ToBeFreed(s: State, a: Addr) {
    (exists t :: Holds(s, InHand(t), a)) || exists b, i :: R.Occupied(s.r, b, i, a) && R.LiveAt(s.r.buffers, b, i)
  }

  lemma ToBeFreedIsDoomed(s: State, a: Addr)
    requires Inv(s) && ToBeFreed(s, a)
    ensures Doomed(s, a) && a in s.owner && a in s.heap
  {
    if t :| Holds(s, InHand(t), a) {
    } else {
      var b, i :| R.Occupied(s.r, b, i, a) && R.LiveAt(s.r.buffers, b, i);
      assert Holds(s, InSlot(b, i), a);
    }
  }

  /** Reclamation safety.  In every run of mutator, snapshot, scan, mark and free steps on whose snapshots
      the recursion is adequate, and in which every second read of free_idx finds entries left, a block
      that is about to be freed or waits to be is retired, still allocated, and unreachable from thread
      stacks and non-retired memory; and no thread leaves the entries of a buffer. */
  lemma FreedBlocksAreUnreachable(run: seq<State>, k: nat, a: Addr)
    requires IsRun(run) && k < |run| && AdequateRun(run, k) && SecondReadsHit(run, k) && ToBeFreed(run[k], a)
    ensures a in run[k].owner && a in run[k].heap && !Reachable(run[k], a)
    ensures R.Faultless(run[k].r)
  {
    HitsAreFaultless(run, k);
    CondemnedAreUnreachable(run, k, a);
  }

  /** A program with one thread needs no condition on the second reads. */
  lemma FreedByOneThread(run: seq<State>, k: nat, a: Addr)
    requires IsRun(run) && k < |run| && AdequateRun(run, k) && |run[0].stacks| <= 1 && ToBeFreed(run[k], a)
    ensures a in run[k].owner && a in run[k].heap && !Reachable(run[k], a)
    ensures R.Faultless(run[k].r)
  {
    OneThreadHits(run, k);
    FreedBlocksAreUnreachable(run, k, a);
  }

  /** The same without the second condition, for the machine, in which a thread that goes behind the last
      entry stops. */
  lemma CondemnedAreUnreachable(run: seq<State>, k: nat, a: Addr)
    requires IsRun(run) && k < |run| && AdequateRun(run, k) && ToBeFreed(run[k], a)
    ensures a in run[k].owner && a in run[k].heap && !Reachable(run[k], a)
  {
    RunInv(run, k);
    AdequateIff(run, k);
    var s := run[k];
    ToBeFreedIsDoomed(s, a);
    forall p: seq<Addr> | IsPath(s, p) ensures p[|p| - 1] != a { PathAvoidsDoomed(s, p, |p| - 1); }
  }

  /** Conservation, with either recursion.  In every reachable state a block that is retired and not freed
      is accounted for by exactly one place, once; any other block by none.  If every second read of
      free_idx has found entries left, no thread has left the entries of a buffer. */
  lemma EveryRetiredBlockHasOnePlace(run: seq<State>, k: nat, a: Addr)
    requires IsRun(run) && k < |run|
    ensures a in run[k].owner ==> exists o :: Holds(run[k], o, a) && forall p :: Holds(run[k], p, a) ==> p == o
    ensures a !in run[k].owner ==> forall o :: !Holds(run[k], o, a)
    ensures NoRepeats(run[k])
    ensures SecondReadsHit(run, k) ==> R.Faultless(run[k].r)
  {
    RunInv(run, k);
    if a in run[k].owner { assert Holds(run[k], run[k].owner[a], a); }
    if SecondReadsHit(run, k) { HitsAreFaultless(run, k); }
  }

  lemma OnlyGatherBegins(s: State, a: Action)
    requires ScanOk(s) && Enabled(s, a) && s.gc.Idle? && !Step(s, a).gc.Idle?
    ensures a.Gather?
  {
  }

  lemma GatherTakes(s: State, a: Addr)
    requires Enabled(s, Gather) && (a in s.pending || a in s.uncollected)
    ensures Holds(Step(s, Gather), InWorking, a)
  {
  }

  /** A round takes up everything that waits for one: when the GC thread begins, every block that is pending
      or was carried over becomes part of its working set. */
  lemma RoundTakesAll(run: seq<State>, k: nat, a: Addr)
    requires IsRun(run) && k + 1 < |run| && run[k].gc.Idle? && !run[k + 1].gc.Idle?
    requires Holds(run[k], InPending, a) || Holds(run[k], InUncollected, a)
    ensures Holds(run[k + 1], InWorking, a)
  {
    assert NextAt(run, k + 1);
    var act :| Enabled(run[k], act) && run[k + 1] == Step(run[k], act);
    RunScanOk(run, k);
    OnlyGatherBegins(run[k], act);
    GatherTakes(run[k], a);
  }

  /** A block enters the books when it is retired, being in none before, and leaves them only when a
      worker frees it, which also ends its allocation; so each retirement is followed by at most one
      free, and no other step frees or forgets a retired block. */
  lemma BooksChangeByRetireAndFree(s: State, a: Action)
    requires Inv(s) && Enabled(s, a)
    ensures Step(s, a).owner.Keys ==
      if a.Retire? then s.owner.Keys + {a.a}
      else if a.Worker? && a.op.FreeBlock? then s.owner.Keys - {s.r.workers[a.t].pc.addr}
      else s.owner.Keys
    ensures a.Retire? ==> a.a !in s.owner
    ensures a.Worker? && a.op.FreeBlock? ==>
      var p := s.r.workers[a.t].pc.addr;
      p in s.owner && p in s.heap && Step(s, a).heap.Keys == s.heap.Keys - {p}
    ensures !(a.Worker? && a.op.FreeBlock?) ==> s.heap.Keys <= Step(s, a).heap.Keys
    ensures forall x :: x in s.owner && x in Step(s, a).owner ==> x in Step(s, a).heap
  {
    if a.Worker? && a.op.FreeBlock? { FreeBooks(s, a.t); } else { OtherBooks(s, a); }
  }

  lemma FreeBooks(s: State, t: nat)
    requires Owned(s) && ShapeOk(s) && Enabled(s, Worker(t, R.FreeBlock))
    ensures var p, s' := s.r.workers[t].pc.addr, Step(s, Worker(t, R.FreeBlock));
      && s'.owner.Keys == s.owner.Keys - {p} && p in s.owner && p in s.heap && s'.heap.Keys == s.heap.Keys - {p}
  {
    assert Holds(s, InHand(t), s.r.workers[t].pc.addr);
  }

  lemma OtherBooks(s: State, a: Action)
    requires ShapeOk(s) && Enabled(s, a) && !(a.Worker? && a.op.FreeBlock?)
    ensures Step(s, a).owner.Keys == if a.Retire? then s.owner.Keys + {a.a} else s.owner.Keys
    ensures s.heap.Keys <= Step(s, a).heap.Keys
  {
    if a.Worker? {
      WorkerKeepsBooks(s, a.t, a.op);
    } else if !IsMemory(a) {
      assert Step(s, a).heap == s.heap;
    }
  }

  lemma WorkerKeepsBooks(s: State, t: nat, op: R.Op)
    requires Enabled(s, Worker(t, op)) && !op.FreeBlock?
    ensures var s' := Step(s, Worker(t, op)); s'.owner.Keys == s.owner.Keys && s'.heap == s.heap
  {
  }
}
