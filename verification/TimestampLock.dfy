/** The reclaimer lock and the helping flags: thread.c and the waiting loop of proc.c.  A timestamp word is
    a stamp and a flag in the top bit.  A run interleaves the loads, stores and compare-and-swaps of any
    number of threads. */
module TimestampLock {

  datatype Word = Word(stamp: nat, active: bool)

  /** Where a thread is.  Raised and Seen are inside forkscan_thread_cleanup_raise_flag, after its first
      store and after its load of the global timestamp; Trying holds the load of try_acquire; in
      Waiting the reclaimer-to-be has passed the first k threads of the list; Releasing holds the load
      of the release. */
  datatype Pc = Idle | Raised | Seen(curr: Word) | Trying(found: Word) | Waiting(attempt: nat, k: nat)
               | Reclaiming | Releasing(curr: Word)
  {
    predicate Holds() { Waiting? || Reclaiming? || Releasing? }
  }

  datatype Thread = Thread(pc: Pc, local: Word)

  /** acquired counts the acquisitions so far. */
  datatype State = State(global: Word, threads: seq<Thread>, acquired: nat)

  datatype Move = Raise | Load | Adopt | Lower | Try | Swap | Pass | Return | BeginRelease | Release

  predicate Init(s: State) {
    s.global == Word(1, false) && s.acquired == 0 && forall i :: 0 <= i < |s.threads| ==> AtStart(s.threads[i])
  }

  predicate AtStart(t: Thread) { t.pc.Idle? && t.local.stamp == 0 && !t.local.active }

  predicate Enabled(s: State, i: nat, m: Move) {
    i < |s.threads| && var t := s.threads[i];
    match m
    case Raise => t.pc.Idle?
    case Load => t.pc.Raised?
    case Adopt => t.pc.Seen?
    case Lower => t.pc.Idle?
    case Try => t.pc.Idle?
    case Swap => t.pc.Trying?
    case Pass => t.pc.Waiting? && t.pc.k < |s.threads| && !StillHelping(s.threads[t.pc.k].local, t.pc.attempt)
    case Return => t.pc.Waiting? && t.pc.k == |s.threads|
    case BeginRelease => t.pc.Reclaiming?
    case Release => t.pc.Releasing?
  }

  /** The test of the loop in forkscan_proc_wait_for_timestamp. */
  predicate StillHelping(local: Word, curr: nat) { local.active && local.stamp != curr }

  function At(s: State, i: nat, t: Thread): State
    requires i < |s.threads|
  {
    s.(threads := s.threads[i := t])
  }

  function Step(s: State, i: nat, m: Move): State
    requires Enabled(s, i, m)
  {
    var t := s.threads[i];
    match m
    case Raise => At(s, i, Thread(Raised, t.local.(active := true)))
    case Load => At(s, i, t.(pc := Seen(s.global)))
    case Adopt => At(s, i, Thread(Idle, Word(t.pc.curr.stamp, true)))
    case Lower => At(s, i, t.(local := t.local.(active := false)))
    case Try => At(s, i, t.(pc := if s.global.active then Idle else Trying(s.global)))
    case Swap =>
      if s.global == t.pc.found
      then At(s, i, t.(pc := Waiting(t.pc.found.stamp + 1, 0))).(
        global := Word(t.pc.found.stamp + 1, true), acquired := s.acquired + 1)
      else At(s, i, t.(pc := Idle))
    case Pass => At(s, i, t.(pc := Waiting(t.pc.attempt, t.pc.k + 1)))
    case Return => At(s, i, t.(pc := Reclaiming))
    case BeginRelease => At(s, i, t.(pc := Releasing(s.global)))
    case Release => At(s, i, t.(pc := Idle)).(global := Word(t.pc.curr.stamp, false))
  }

  ghost predicate Next(s: State, t: State) { exists i: nat, m: Move :: Enabled(s, i, m) && t == Step(s, i, m) }

  ghost predicate IsRun(run: seq<State>) {
    && |run| > 0 && Init(run[0])
    && forall k: nat :: 0 < k < |run| ==> NextAt(run, k)
  }

  ghost predicate NextAt(run: seq<State>, k: nat)
    requires 0 < k < |run|
  {
    Next(run[k - 1], run[k])
  }

  // ------------------------------------------------------------------ invariant

  /** The thread is not helping an older round: if its flag is up with another stamp, it is still raising
      the flag, and will adopt the stamp curr or has not loaded the global timestamp yet. */
  predicate UpToDate(t: Thread, curr: nat) {
    && (StillHelping(t.local, curr) ==> t.pc.Raised? || t.pc.Seen?)
    && (t.pc.Seen? ==> t.pc.curr.stamp == curr)
  }

  ghost predicate ThreadInv(t: Thread, global: Word) {
    && t.local.stamp <= global.stamp && (t.pc.Raised? || t.pc.Seen? ==> t.local.active)
    && (t.pc.Seen? ==> t.local.stamp <= t.pc.curr.stamp <= global.stamp)
    && (t.pc.Seen? && t.pc.curr.stamp == global.stamp && global.active ==> t.pc.curr.active)
    && (t.pc.Trying? ==> !t.pc.found.active) && (t.pc.Waiting? ==> t.pc.attempt == global.stamp)
    && (t.pc.Holds() ==> global.active) && (t.pc.Releasing? ==> t.pc.curr == global)
  }

  /** Of the threads i and j at most one holds the lock; and those that i has passed, or all when it has
      returned, are up to date. */
  ghost predicate PairInv(ts: seq<Thread>, global: Word, i: nat, j: nat)
    requires i < |ts| && j < |ts|
  {
    && (i != j && ts[i].pc.Holds() ==> !ts[j].pc.Holds())
    && ((ts[i].pc.Waiting? && j < ts[i].pc.k) || ts[i].pc.Reclaiming? || ts[i].pc.Releasing? ==>
          UpToDate(ts[j], global.stamp))
  }

  /** When the global timestamp is not active nobody holds the lock; when it is, somebody does. */
  ghost predicate Inv(s: State) {
    && s.global.stamp == 1 + s.acquired
    && (forall i :: 0 <= i < |s.threads| ==> ThreadInv(s.threads[i], s.global))
    && (forall i, j :: 0 <= i < |s.threads| && 0 <= j < |s.threads| ==> PairInv(s.threads, s.global, i, j))
    && (s.global.active ==> exists i :: 0 <= i < |s.threads| && s.threads[i].pc.Holds())
  }

  lemma StepThread(s: State, i: nat, m: Move, j: nat)
    requires Inv(s) && Enabled(s, i, m) && j < |s.threads|
    ensures ThreadInv(Step(s, i, m).threads[j], Step(s, i, m).global)
  {
    assert ThreadInv(s.threads[i], s.global) && ThreadInv(s.threads[j], s.global) && PairInv(s.threads, s.global, i, j);
  }

  lemma StepPair(s: State, i: nat, m: Move, j: nat, l: nat)
    requires Inv(s) && Enabled(s, i, m) && j < |s.threads| && l < |s.threads|
    ensures PairInv(Step(s, i, m).threads, Step(s, i, m).global, j, l)
  {
    assert ThreadInv(s.threads[i], s.global) && ThreadInv(s.threads[j], s.global) && ThreadInv(s.threads[l], s.global);
    assert PairInv(s.threads, s.global, j, l);
    assert PairInv(s.threads, s.global, i, j) && PairInv(s.threads, s.global, i, l);
    assert PairInv(s.threads, s.global, j, i) && PairInv(s.threads, s.global, l, i);
  }

  lemma StepHolder(s: State, i: nat, m: Move)
    requires Inv(s) && Enabled(s, i, m) && Step(s, i, m).global.active
    ensures exists j :: 0 <= j < |s.threads| && Step(s, i, m).threads[j].pc.Holds()
  {
    var t := Step(s, i, m);
    if s.global.active {
      var j :| 0 <= j < |s.threads| && s.threads[j].pc.Holds();
      assert PairInv(s.threads, s.global, i, j);
      assert t.threads[j].pc.Holds();
    } else {
      assert t.threads[i].pc.Holds();
    }
  }

  lemma NextInv(s: State, t: State)
    requires Inv(s) && Next(s, t)
    ensures Inv(t) && t.global.stamp >= s.global.stamp
  {
    var i: nat, m: Move :| Enabled(s, i, m) && t == Step(s, i, m);
    forall j | 0 <= j < |t.threads| ensures ThreadInv(t.threads[j], t.global) { StepThread(s, i, m, j); }
    forall j, l | 0 <= j < |t.threads| && 0 <= l < |t.threads| ensures PairInv(t.threads, t.global, j, l) {
      StepPair(s, i, m, j, l);
    }
    if t.global.active { StepHolder(s, i, m); }
    assert ThreadInv(s.threads[i], s.global);
  }

  lemma {:induction false} RunInv(run: seq<State>, k: nat)
    requires IsRun(run) && k < |run|
    ensures Inv(run[k])
  {
    if k == 0 {
      assert forall i :: 0 <= i < |run[0].threads| ==> AtStart(run[0].threads[i]);
    } else {
      RunInv(run, k - 1);
      assert NextAt(run, k);
      NextInv(run[k - 1], run[k]);
    }
  }

  // ------------------------------------------------------------------ the theorems

  /** At most one thread holds the lock, and the global timestamp is active exactly while one does. */
  lemma AtMostOneReclaimer(run: seq<State>, k: nat)
    requires IsRun(run) && k < |run|
    ensures forall i, j | 0 <= i < j < |run[k].threads| ::
      !(run[k].threads[i].pc.Holds() && run[k].threads[j].pc.Holds())
    ensures run[k].global.active <==> exists i :: 0 <= i < |run[k].threads| && run[k].threads[i].pc.Holds()
  {
    RunInv(run, k);
    var s := run[k];
    forall i, j | 0 <= i < j < |s.threads| ensures !(s.threads[i].pc.Holds() && s.threads[j].pc.Holds()) {
      assert PairInv(s.threads, s.global, i, j);
    }
  }

  /** The stamp never decreases: it is one more than the number of acquisitions. */
  lemma {:induction false} StampCountsAcquisitions(run: seq<State>, k: nat, k': nat)
    requires IsRun(run) && k <= k' < |run|
    ensures run[k'].global.stamp == 1 + run[k'].acquired && run[k].global.stamp <= run[k'].global.stamp
  {
    RunInv(run, k');
    if k < k' {
      StampCountsAcquisitions(run, k, k' - 1);
      RunInv(run, k' - 1);
      assert NextAt(run, k');
      NextInv(run[k' - 1], run[k']);
    }
  }

  /** An acquisition, which is what counts one more, happens only when nobody holds the lock; afterwards
      exactly one thread does, and the timestamp is active with the next stamp. */
  lemma AcquisitionIsExclusive(run: seq<State>, k: nat) returns (i: nat)
    requires IsRun(run) && k + 1 < |run| && run[k + 1].acquired != run[k].acquired
    ensures forall j :: 0 <= j < |run[k].threads| ==> !run[k].threads[j].pc.Holds()
    ensures i < |run[k + 1].threads| && OnlyHolder(run[k + 1].threads, i)
    ensures run[k + 1].global == Word(run[k].global.stamp + 1, true)
  {
    RunInv(run, k);
    assert NextAt(run, k + 1);
    i := NextAcquires(run[k], run[k + 1]);
    forall j | 0 <= j < |run[k].threads| ensures !run[k].threads[j].pc.Holds() {
      assert ThreadInv(run[k].threads[j], run[k].global);
    }
  }

  predicate OnlyHolder(ts: seq<Thread>, i: nat) {
    forall j :: 0 <= j < |ts| ==> (ts[j].pc.Holds() <==> j == i)
  }

  lemma NextAcquires(s: State, t: State) returns (i: nat)
    requires Inv(s) && Next(s, t) && t.acquired != s.acquired
    ensures i < |s.threads| == |t.threads| && !s.global.active && t.threads[i].pc.Holds()
    ensures forall j :: 0 <= j < |s.threads| && j != i ==> t.threads[j] == s.threads[j]
    ensures t.global == Word(s.global.stamp + 1, true)
  {
    var m: Move;
    i, m :| Enabled(s, i, m) && t == Step(s, i, m);
    assert ThreadInv(s.threads[i], s.global);
  }

  /** When try_acquire has returned 1, and until the release, no thread helps an older round: every thread
      whose flag is up has the current stamp, or is still inside raise_flag and will take the current one. */
  lemma ReclaimerHasNoOldHelpers(run: seq<State>, k: nat, i: nat, j: nat)
    requires IsRun(run) && k < |run| && i < |run[k].threads| && j < |run[k].threads|
    requires run[k].threads[i].pc.Reclaiming? || run[k].threads[i].pc.Releasing?
    ensures var t := run[k].threads[j];
            && (t.local.active && !t.pc.Raised? && !t.pc.Seen? ==> t.local.stamp == run[k].global.stamp)
            && (t.pc.Seen? ==> t.pc.curr == run[k].global)
  {
    RunInv(run, k);
    assert PairInv(run[k].threads, run[k].global, i, j);
  }
}
