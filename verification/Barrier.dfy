/** The stop-the-world handshake: reclaim_iteration and forkscan_acknowledge_signal (forkscan.c), the
    signal handler and the flags g_in_malloc and g_waiting_to_fork (frontend.c), and the signalling loop
    (proc.c).  A run interleaves the steps of the GC thread with those of any number of user threads,
    and a signal can interrupt a thread anywhere. */
module Barrier {

  /** Where a thread's own code is.  In Section g_in_malloc is set; After is the test of
      g_waiting_to_fork, Clearing the store that clears it, and the last three are
      forkscan_acknowledge_signal: the read of the counter, the increment and the wait. */
  datatype Pc = User | Section | After | Clearing | Reading | Acking(seen: nat) | Parked(seen: nat)

  /** Where its signal handler is: not running, or in forkscan_acknowledge_signal. */
  datatype Handler = Off | HReading | HAcking(seen: nat) | HParked(seen: nat)

  /** pending: a signal was sent and not delivered.  signals and acks count what the thread was sent and
      has acknowledged, in all. */
  datatype Thread = Thread(pc: Pc, handler: Handler, pending: bool, waitingToFork: bool, signals: nat, acks: nat)

  /** Signalling(k): the first k threads have been signalled.  In Snapshot the GC thread reads the dead
      references and forks. */
  datatype Gc = Idle | Signalling(k: nat) | Waiting | Snapshot

  datatype State = State(threads: seq<Thread>, gc: Gc, received: nat, counter: nat)

  datatype ThreadAction = Deliver | HandlerReads | HandlerAcks | HandlerLeaves
                        | Enter | Leave | Test | Clear | Reads | Acks | Resumes

  datatype Action = Start | Signal | Signalled | SeesAll | Bump | ByThread(i: nat, a: ThreadAction)

  predicate Init(s: State) {
    && s.gc.Idle? && s.counter == 0
    && forall i :: 0 <= i < |s.threads| ==> AtStart(s.threads[i])
  }

  predicate AtStart(t: Thread) {
    t.pc.User? && t.handler.Off? && !t.pending && !t.waitingToFork && t.signals == t.acks == 0
  }

  /** While its handler runs the thread's own code stands still, and further signals are held back. */
  predicate ThreadEnabled(t: Thread, a: ThreadAction, counter: nat) {
    match a
    case Deliver => t.handler.Off? && t.pending
    case HandlerReads => t.handler.HReading?
    case HandlerAcks => t.handler.HAcking?
    case HandlerLeaves => t.handler.HParked? && t.handler.seen != counter
    case Enter => t.handler.Off? && t.pc.User?
    case Leave => t.handler.Off? && t.pc.Section?
    case Test => t.handler.Off? && t.pc.After?
    case Clear => t.handler.Off? && t.pc.Clearing?
    case Reads => t.handler.Off? && t.pc.Reading?
    case Acks => t.handler.Off? && t.pc.Acking?
    case Resumes => t.handler.Off? && t.pc.Parked? && t.pc.seen != counter
  }

  function ThreadStep(t: Thread, a: ThreadAction, counter: nat): Thread
    requires ThreadEnabled(t, a, counter)
  {
    match a
    case Deliver =>
      if t.pc.Section? then t.(pending := false, waitingToFork := true) else t.(pending := false, handler := HReading)
    case HandlerReads => t.(handler := HAcking(counter))
    case HandlerAcks => t.(handler := HParked(t.handler.seen), acks := t.acks + 1)
    case HandlerLeaves => t.(handler := Off)
    case Enter => t.(pc := Section)
    case Leave => t.(pc := After)
    case Test => t.(pc := if t.waitingToFork then Clearing else User)
    case Clear => t.(pc := Reading, waitingToFork := false)
    case Reads => t.(pc := Acking(counter))
    case Acks => t.(pc := Parked(t.pc.seen), acks := t.acks + 1)
    case Resumes => t.(pc := User)
  }

  predicate Enabled(s: State, a: Action) {
    match a
    case Start => s.gc.Idle?
    case Signal => s.gc.Signalling? && s.gc.k < |s.threads|
    case Signalled => s.gc.Signalling? && s.gc.k == |s.threads|
    case SeesAll => s.gc.Waiting? && s.received >= |s.threads|
    case Bump => s.gc.Snapshot?
    case ByThread(i, ta) => i < |s.threads| && ThreadEnabled(s.threads[i], ta, s.counter)
  }

  function Step(s: State, a: Action): State
    requires Enabled(s, a)
  {
    match a
    case Start => s.(received := 0, gc := Signalling(0))
    case Signal =>
      var t := s.threads[s.gc.k];
      s.(threads := s.threads[s.gc.k := t.(pending := true, signals := t.signals + 1)], gc := Signalling(s.gc.k + 1))
    case Signalled => s.(gc := Waiting)
    case SeesAll => s.(gc := Snapshot)
    case Bump => s.(counter := s.counter + 1, gc := Idle)
    case ByThread(i, ta) =>
      s.(threads := s.threads[i := ThreadStep(s.threads[i], ta, s.counter)],
         received := s.received + if ta.HandlerAcks? || ta.Acks? then 1 else 0)
  }

  ghost predicate Next(s: State, t: State) { exists a :: Enabled(s, a) && t == Step(s, a) }

  ghost predicate IsRun(run: seq<State>) {
    && |run| > 0 && Init(run[0])
    && forall k: nat :: 0 < k < |run| ==> NextAt(run, k)
  }

  ghost predicate NextAt(run: seq<State>, k: nat)
    requires 0 < k < |run|
  {
    Next(run[k - 1], run[k])
  }

  // ------------------------------------------------------------------ invariant

  function One(b: bool): nat { if b then 1 else 0 }

  /** The thread has acknowledged this round's signal and waits for the counter to change. */
  predicate Stopped(t: Thread, counter: nat) {
    ParkedAt(t.pc, counter) || HandlerParkedAt(t.handler, counter)
  }

  predicate ParkedAt(pc: Pc, counter: nat) { pc.Parked? && pc.seen == counter }

  predicate HandlerParkedAt(h: Handler, counter: nat) { h.HParked? && h.seen == counter }

  /** The ways in which a thread can have a signal that it has not acknowledged. */
  function Unanswered(t: Thread): nat {
    (if t.pending then 1 else 0) + (if t.waitingToFork then 1 else 0)
    + (if t.pc.Reading? || t.pc.Acking? then 1 else 0) + (if t.handler.HReading? || t.handler.HAcking? then 1 else 0)
  }

  ghost predicate ThreadInv(t: Thread, counter: nat, signalled: bool) {
    && (Stopped(t, counter) ==> Unanswered(t) == 0 && signalled)
    && (!Stopped(t, counter) ==> Unanswered(t) == if signalled then 1 else 0)
    && !(ParkedAt(t.pc, counter) && HandlerParkedAt(t.handler, counter))
    && t.signals == counter + (if signalled then 1 else 0) && t.signals == t.acks + Unanswered(t)
    && (!t.handler.Off? ==> !t.pc.Section?)
    && (t.waitingToFork ==> t.handler.Off? && (t.pc.Section? || t.pc.After? || t.pc.Clearing?))
    && (t.pc.Clearing? ==> t.waitingToFork)
    && (t.pc.Reading? || t.pc.Acking? || ParkedAt(t.pc, counter) ==> t.handler.Off?)
    && (t.pc.Acking? ==> t.pc.seen == counter) && (t.pc.Parked? ==> t.pc.seen <= counter)
    && (t.handler.HAcking? ==> t.handler.seen == counter) && (t.handler.HParked? ==> t.handler.seen <= counter)
  }

  /** How many of the threads the GC thread has signalled in this round. */
  function Sent(gc: Gc, n: nat): nat {
    match gc
    case Idle => 0
    case Signalling(k) => k
    case Waiting => n
    case Snapshot => n
  }

  function StoppedCount(ts: seq<Thread>, counter: nat): nat {
    if ts == [] then 0 else StoppedCount(ts[..|ts| - 1], counter) + One(Stopped(ts[|ts| - 1], counter))
  }

  ghost predicate ThreadsInv(ts: seq<Thread>, counter: nat, sent: nat) {
    forall i :: 0 <= i < |ts| ==> ThreadInv(ts[i], counter, i < sent)
  }

  ghost predicate Inv(s: State) {
    && ThreadsInv(s.threads, s.counter, Sent(s.gc, |s.threads|)) && Sent(s.gc, |s.threads|) <= |s.threads|
    && (!s.gc.Idle? ==> s.received == StoppedCount(s.threads, s.counter))
    && (s.gc.Snapshot? ==> s.received == |s.threads|)
  }

  lemma {:induction false} CountAfter(ts: seq<Thread>, counter: nat, i: nat, t: Thread)
    requires i < |ts|
    ensures StoppedCount(ts[i := t], counter) + One(Stopped(ts[i], counter))
         == StoppedCount(ts, counter) + One(Stopped(t, counter))
  {
    var n := |ts| - 1;
    if i < n {
      CountAfter(ts[..n], counter, i, t);
      assert ts[i := t][..n] == ts[..n][i := t];
    } else {
      assert ts[i := t][..n] == ts[..n];
    }
  }

  lemma {:induction false} SomeStopped(ts: seq<Thread>, counter: nat) returns (i: nat)
    requires StoppedCount(ts, counter) > 0
    ensures i < |ts| && Stopped(ts[i], counter)
  {
    i := |ts| - 1;
    if !Stopped(ts[i], counter) { i := SomeStopped(ts[..i], counter); }
  }

  lemma {:induction false} CountAll(ts: seq<Thread>, counter: nat)
    ensures StoppedCount(ts, counter) <= |ts|
    ensures StoppedCount(ts, counter) == |ts| ==> forall i :: 0 <= i < |ts| ==> Stopped(ts[i], counter)
  {
    if ts != [] { CountAll(ts[..|ts| - 1], counter); }
  }

  lemma ThreadStepInv(t: Thread, a: ThreadAction, counter: nat, signalled: bool)
    requires ThreadInv(t, counter, signalled) && ThreadEnabled(t, a, counter)
    ensures ThreadInv(ThreadStep(t, a, counter), counter, signalled)
    ensures One(Stopped(ThreadStep(t, a, counter), counter))
         == One(Stopped(t, counter)) + One(a.HandlerAcks? || a.Acks?)
  {
  }

  lemma ByThreadInv(s: State, i: nat, ta: ThreadAction)
    requires Inv(s) && Enabled(s, ByThread(i, ta))
    ensures Inv(Step(s, ByThread(i, ta)))
  {
    ThreadStepInv(s.threads[i], ta, s.counter, i < Sent(s.gc, |s.threads|));
    CountAfter(s.threads, s.counter, i, ThreadStep(s.threads[i], ta, s.counter));
    if s.gc.Snapshot? { CountAll(s.threads, s.counter); }
  }

  lemma SignalInv(s: State)
    requires Inv(s) && Enabled(s, Signal)
    ensures Inv(Step(s, Signal))
  {
    var k := s.gc.k;
    var t := s.threads[k];
    assert ThreadInv(t, s.counter, false);
    CountAfter(s.threads, s.counter, k, t.(pending := true, signals := t.signals + 1));
  }

  lemma BumpInv(s: State)
    requires Inv(s) && Enabled(s, Bump)
    ensures Inv(Step(s, Bump))
  {
    CountAll(s.threads, s.counter);
    forall i | 0 <= i < |s.threads| ensures ThreadInv(s.threads[i], s.counter + 1, false) {
      assert ThreadInv(s.threads[i], s.counter, true) && Stopped(s.threads[i], s.counter);
    }
  }

  lemma StartInv(s: State)
    requires Inv(s) && Enabled(s, Start)
    ensures Inv(Step(s, Start))
  {
    forall i | 0 <= i < |s.threads| ensures !Stopped(s.threads[i], s.counter) {
      assert ThreadInv(s.threads[i], s.counter, false);
    }
    if StoppedCount(s.threads, s.counter) > 0 { var i := SomeStopped(s.threads, s.counter); }
  }

  lemma StepInv(s: State, a: Action)
    requires Inv(s) && Enabled(s, a)
    ensures Inv(Step(s, a))
  {
    match a
    case Start => StartInv(s);
    case Signal => SignalInv(s);
    case Signalled =>
    case SeesAll => CountAll(s.threads, s.counter);
    case Bump => BumpInv(s);
    case ByThread(i, ta) => ByThreadInv(s, i, ta);
  }

  lemma StartsOk(t: Thread)
    requires AtStart(t)
    ensures ThreadInv(t, 0, false)
  {
  }

  lemma InitInv(s: State)
    requires Init(s)
    ensures Inv(s)
  {
    forall i | 0 <= i < |s.threads| ensures ThreadInv(s.threads[i], s.counter, i < 0) { StartsOk(s.threads[i]); }
  }

  lemma NextInv(s: State, t: State)
    requires Inv(s) && Next(s, t)
    ensures Inv(t)
  {
    var a :| Enabled(s, a) && t == Step(s, a);
    StepInv(s, a);
  }

  lemma {:induction false} RunInv(run: seq<State>, k: nat)
    requires IsRun(run) && k < |run|
    ensures Inv(run[k])
  {
    if k == 0 {
      InitInv(run[0]);
    } else {
      RunInv(run, k - 1);
      assert NextAt(run, k);
      NextInv(run[k - 1], run[k]);
    }
  }

  // ------------------------------------------------------------------ the theorems

  /** When the GC thread reads the dead references and forks, every thread has acknowledged this round's
      signal, is parked until the counter changes, is outside every allocator and free section and can
      take no step at all. */
  lemma WorldIsStopped(run: seq<State>, k: nat, i: nat)
    requires IsRun(run) && k < |run| && run[k].gc.Snapshot? && i < |run[k].threads|
    ensures Stopped(run[k].threads[i], run[k].counter) && !run[k].threads[i].pc.Section?
    ensures forall a :: !ThreadEnabled(run[k].threads[i], a, run[k].counter)
  {
    RunInv(run, k);
    var s := run[k];
    CountAll(s.threads, s.counter);
    assert ThreadInv(s.threads[i], s.counter, true);
  }

  /** So nothing but the GC thread's own step leads out of that state, and the threads stay as they are. */
  lemma SnapshotIsStill(run: seq<State>, k: nat)
    requires IsRun(run) && k + 1 < |run| && run[k].gc.Snapshot?
    ensures run[k + 1] == Step(run[k], Bump) && run[k + 1].threads == run[k].threads
  {
    assert NextAt(run, k + 1);
    var a :| Enabled(run[k], a) && run[k + 1] == Step(run[k], a);
    if a.ByThread? { WorldIsStopped(run, k, a.i); }
  }

  /** Every signal is acknowledged exactly once: a thread has been sent one signal in each completed round
      and one in this round if it has been its turn, and has acknowledged all of them except one that is
      pending, deferred or under way. */
  lemma EverySignalIsAnsweredOnce(run: seq<State>, k: nat, i: nat)
    requires IsRun(run) && k < |run| && i < |run[k].threads|
    ensures var s := run[k]; var t := s.threads[i];
            && t.signals == s.counter + One(i < Sent(s.gc, |s.threads|))
            && t.signals == t.acks + Unanswered(t) && Unanswered(t) <= 1
            && (s.gc.Snapshot? ==> t.acks == t.signals == s.counter + 1)
            && (t.waitingToFork ==> !t.pc.User?)
  {
    RunInv(run, k);
    var s := run[k];
    assert ThreadInv(s.threads[i], s.counter, i < Sent(s.gc, |s.threads|));
    if s.gc.Snapshot? { WorldIsStopped(run, k, i); }
  }

  /** While the GC thread waits, some thread has still to answer, and it can take a step towards that:
      it takes the signal, or goes on in its section or its acknowledgement, or leaves the wait of an
      earlier round. */
  lemma WaitingCanEnd(run: seq<State>, k: nat) returns (i: nat, a: ThreadAction)
    requires IsRun(run) && k < |run| && run[k].gc.Waiting? && !Enabled(run[k], SeesAll)
    ensures i < |run[k].threads| && Unanswered(run[k].threads[i]) == 1
    ensures ThreadEnabled(run[k].threads[i], a, run[k].counter) && !a.Enter?
  {
    RunInv(run, k);
    var s := run[k];
    i := SomeRunning(s.threads, s.counter);
    var t := s.threads[i];
    assert ThreadInv(t, s.counter, true);
    if t.handler.HReading? { a := HandlerReads; }
    else if t.handler.HAcking? { a := HandlerAcks; }
    else if t.handler.HParked? { a := HandlerLeaves; }
    else if t.pending { a := Deliver; }
    else if t.pc.Section? { a := Leave; }
    else if t.pc.After? { a := Test; }
    else if t.pc.Clearing? { a := Clear; }
    else if t.pc.Reading? { a := Reads; }
    else { a := Acks; }
  }

  lemma {:induction false} SomeRunning(ts: seq<Thread>, counter: nat) returns (i: nat)
    requires StoppedCount(ts, counter) < |ts|
    ensures i < |ts| && !Stopped(ts[i], counter)
  {
    i := |ts| - 1;
    if Stopped(ts[i], counter) { i := SomeRunning(ts[..i], counter); }
  }
}
