/** The queue of work between the reclaimers and the GC thread: forkscan_initiate_collection and
    forkscan_thread (forkscan.c).  Two mutexes, two condition variables, a counter that is also read
    without a lock; a run interleaves the steps of any number of clients with those of the GC thread. */
module CollectionQueue {

  /** One call of forkscan_initiate_collection. */
  datatype Job = Job(ab: nat, autoRun: bool, force: bool)
  {
    predicate Counts() { autoRun || force }
  }

  /** Where a client is.  Locked, Counted and Linked hold g_gc_mutex; HoldTest, HoldSleep and HoldDone hold
      g_client_waiting_lock; HoldSleep is between the test and the wait. */
  datatype Client = Outside | WantGc(job: Job) | Locked(job: Job) | Counted(job: Job) | Linked(job: Job)
                  | Testing | WantLock | HoldTest | HoldSleep | Asleep | Woken | HoldDone
  {
    predicate HoldsGc() { Locked? || Counted? || Linked? }
    predicate HoldsClient() { HoldTest? || HoldSleep? || HoldDone? }
  }

  /** Where the GC thread is.  It holds g_gc_mutex from GcTest to GcUnlock except while it sleeps. */
  datatype Gc = GcLock | GcTest | GcAsleep | GcWoken | GcDrain | GcReset | GcWantClient | GcBroadcast
               | GcUnlock | GcReclaim
  {
    predicate HoldsGc() { GcTest? || GcDrain? || GcReset? || GcWantClient? || GcBroadcast? || GcUnlock? }
  }

  datatype Holder = Free | ByGc | ByClient(i: nat)

  /** list is g_addr_buffer, count g_waiting_collects, waitingFlag whether g_gc_waiting says that the GC
      thread waits.  inHand is what the GC thread has drained; enqueued and reclaimed are all buffers
      that were ever linked and all that reached reclaim_iteration, in order. */
  datatype State = State(clients: seq<Client>, gc: Gc, list: seq<nat>, count: nat, waitingFlag: bool,
                         gcMutex: Holder, clientLock: Holder,
                         inHand: seq<nat>, enqueued: seq<nat>, reclaimed: seq<nat>)

  datatype Action = Call(i: nat, job: Job) | ClientGoesOn(i: nat) | GcGoesOn

  predicate Init(s: State) {
    && (forall i :: 0 <= i < |s.clients| ==> s.clients[i].Outside?)
    && s.gc.GcLock? && s.list == [] && s.count == 0 && s.waitingFlag
    && s.gcMutex.Free? && s.clientLock.Free? && s.inHand == [] && s.enqueued == [] && s.reclaimed == []
  }

  predicate Enabled(s: State, a: Action) {
    match a
    case Call(i, job) => i < |s.clients| && s.clients[i].Outside?
    case ClientGoesOn(i) => i < |s.clients| && ClientEnabled(s, s.clients[i])
    case GcGoesOn => GcEnabled(s)
  }

  predicate ClientEnabled(s: State, c: Client) {
    match c
    case Outside => false
    case WantGc(_) => s.gcMutex.Free?
    case WantLock => s.clientLock.Free?
    case Asleep => false
    case Woken => s.clientLock.Free?
    case _ => true
  }

  predicate GcEnabled(s: State) {
    match s.gc
    case GcLock => s.gcMutex.Free?
    case GcAsleep => false
    case GcWoken => s.gcMutex.Free?
    case GcWantClient => s.clientLock.Free?
    case _ => true
  }

  /** The client's place becomes c. */
  function At(s: State, i: nat, c: Client): State
    requires i < |s.clients|
  {
    s.(clients := s.clients[i := c])
  }

  function Step(s: State, a: Action, limit: nat): State
    requires Enabled(s, a)
  {
    match a
    case Call(i, job) => At(s, i, WantGc(job))
    case ClientGoesOn(i) => ClientStep(s, i, limit)
    case GcGoesOn => GcStep(s, limit)
  }

  /** pthread_cond_signal on g_gc_cond. */
  function WakeGc(gc: Gc): Gc { if gc.GcAsleep? then GcWoken else gc }

  function ClientStep(s: State, i: nat, limit: nat): State
    requires i < |s.clients| && ClientEnabled(s, s.clients[i])
  {
    match s.clients[i]
    case WantGc(job) => At(s, i, Locked(job)).(gcMutex := ByClient(i))
    case Locked(job) => At(s, i, Counted(job)).(count := s.count + if job.Counts() then 1 else 0)
    case Counted(job) => At(s, i, Linked(job)).(list := [job.ab] + s.list, enqueued := s.enqueued + [job.ab])
    case Linked(job) =>
      At(s, i, if job.autoRun then Testing else Outside).(
        gcMutex := Free, gc := if s.waitingFlag && job.Counts() then WakeGc(s.gc) else s.gc)
    case Testing => At(s, i, if s.count >= limit then WantLock else Outside)
    case WantLock => At(s, i, HoldTest).(clientLock := ByClient(i))
    case HoldTest => At(s, i, if s.count >= limit then HoldSleep else HoldDone)
    case HoldSleep => At(s, i, Asleep).(clientLock := Free)
    case Woken => At(s, i, HoldDone).(clientLock := ByClient(i))
    case HoldDone => At(s, i, Testing).(clientLock := Free)
  }

  /** pthread_cond_broadcast on g_client_waiting_cond. */
  function Wake(cs: seq<Client>): (r: seq<Client>)
    ensures |r| == |cs|
  {
    seq(|cs|, i requires 0 <= i < |cs| => if cs[i].Asleep? then Woken else cs[i])
  }

  function GcStep(s: State, limit: nat): State
    requires GcEnabled(s)
  {
    match s.gc
    case GcLock => s.(gc := GcTest, gcMutex := ByGc)
    case GcTest =>
      if s.count < 1 then s.(gc := GcAsleep, waitingFlag := true, gcMutex := Free) else s.(gc := GcDrain)
    case GcWoken => s.(gc := GcDrain, waitingFlag := false, gcMutex := ByGc)
    case GcDrain => s.(gc := GcReset, inHand := s.list, list := [])
    case GcReset => s.(gc := if s.count >= limit then GcWantClient else GcUnlock, count := 0)
    case GcWantClient => s.(gc := GcBroadcast, clientLock := ByGc)
    case GcBroadcast => s.(gc := GcUnlock, clients := Wake(s.clients), clientLock := Free)
    case GcUnlock => s.(gc := GcReclaim, gcMutex := Free)
    case GcReclaim => s.(gc := GcLock, reclaimed := s.reclaimed + s.inHand, inHand := [])
  }

  ghost predicate Next(s: State, t: State, limit: nat) { exists a :: Enabled(s, a) && t == Step(s, a, limit) }

  ghost predicate IsRun(run: seq<State>, limit: nat) {
    && |run| > 0 && Init(run[0])
    && forall k: nat :: 0 < k < |run| ==> NextAt(run, k, limit)
  }

  ghost predicate NextAt(run: seq<State>, k: nat, limit: nat)
    requires 0 < k < |run|
  {
    Next(run[k - 1], run[k], limit)
  }

  // ------------------------------------------------------------------ invariant

  ghost predicate ClientInv(c: Client, i: nat, gc: Gc, count: nat, limit: nat, gcMutex: Holder, clientLock: Holder) {
    && (c.HoldsGc() <==> gcMutex == ByClient(i)) && (c.HoldsClient() <==> clientLock == ByClient(i))
    && (c.HoldSleep? ==> count >= limit || gc.GcWantClient?)
    && (c.Asleep? ==> count >= limit || gc.GcWantClient? || gc.GcBroadcast?)
    && (c.Counted? && c.job.Counts() ==> count > 0)
  }

  ghost predicate ClientsInv(cs: seq<Client>, gc: Gc, count: nat, limit: nat, gcMutex: Holder, clientLock: Holder) {
    forall i :: 0 <= i < |cs| ==> ClientInv(cs[i], i, gc, count, limit, gcMutex, clientLock)
  }

  /** The client that holds g_gc_mutex has counted its buffer and not linked it yet. */
  predicate Linking(cs: seq<Client>, h: Holder) { h.ByClient? && h.i < |cs| && cs[h.i].Counted? }

  /** It will signal the GC thread. */
  predicate Signalling(cs: seq<Client>, h: Holder) {
    h.ByClient? && h.i < |cs| && (cs[h.i].Counted? || cs[h.i].Linked?) && cs[h.i].job.Counts()
  }

  ghost predicate GcInv(s: State) {
    && (s.gc.HoldsGc() <==> s.gcMutex.ByGc?) && (s.gc.GcBroadcast? <==> s.clientLock.ByGc?)
    && (s.gcMutex.ByClient? ==> s.gcMutex.i < |s.clients|) && (s.clientLock.ByClient? ==> s.clientLock.i < |s.clients|)
    && (s.gc.GcAsleep? ==> s.waitingFlag && (s.count == 0 || Signalling(s.clients, s.gcMutex)))
    && (s.gc.GcWoken? ==> s.waitingFlag)
    && (s.gcMutex.ByClient? && s.clients[s.gcMutex.i].Linked? ==> s.list != [])
    && (s.gc.GcWoken? || s.gc.GcDrain? ==> s.list != [])
    && (s.count > 0 && !s.gc.GcReset? && !Linking(s.clients, s.gcMutex) ==> s.list != [])
    && (s.gc.GcWantClient? || s.gc.GcBroadcast? || s.gc.GcUnlock? ==> s.count == 0)
    && (s.inHand != [] ==> HasDrained(s.gc))
  }

  ghost predicate Books(s: State) {
    multiset(s.enqueued) == multiset(s.list) + multiset(s.inHand) + multiset(s.reclaimed)
  }

  ghost predicate Inv(s: State, limit: nat) {
    && ClientsInv(s.clients, s.gc, s.count, limit, s.gcMutex, s.clientLock)
    && GcInv(s) && Books(s)
  }

  lemma CallInv(s: State, i: nat, job: Job, limit: nat)
    requires Inv(s, limit) && Enabled(s, Call(i, job))
    ensures Inv(Step(s, Call(i, job), limit), limit)
  {
    assert ClientInv(s.clients[i], i, s.gc, s.count, limit, s.gcMutex, s.clientLock);
  }

  lemma ClientStepClients(s: State, i: nat, limit: nat, j: nat)
    requires Inv(s, limit) && i < |s.clients| && ClientEnabled(s, s.clients[i]) && j < |s.clients|
    ensures var t := ClientStep(s, i, limit);
            |t.clients| == |s.clients| && ClientInv(t.clients[j], j, t.gc, t.count, limit, t.gcMutex, t.clientLock)
  {
    assert ClientInv(s.clients[i], i, s.gc, s.count, limit, s.gcMutex, s.clientLock);
    assert ClientInv(s.clients[j], j, s.gc, s.count, limit, s.gcMutex, s.clientLock);
  }

  lemma ClientStepGc(s: State, i: nat, limit: nat)
    requires Inv(s, limit) && i < |s.clients| && ClientEnabled(s, s.clients[i])
    ensures GcInv(ClientStep(s, i, limit))
  {
    assert ClientInv(s.clients[i], i, s.gc, s.count, limit, s.gcMutex, s.clientLock);
    if s.clients[i].HoldsGc() { HolderStepGc(s, i, limit); }
  }

  lemma HolderStepGc(s: State, i: nat, limit: nat)
    requires GcInv(s) && i < |s.clients| && s.clients[i].HoldsGc() && s.gcMutex == ByClient(i)
    requires s.clients[i].Counted? && s.clients[i].job.Counts() ==> s.count > 0
    ensures GcInv(ClientStep(s, i, limit))
  {
  }

  lemma ClientStepBooks(s: State, i: nat, limit: nat)
    requires Books(s) && i < |s.clients| && ClientEnabled(s, s.clients[i])
    ensures Books(ClientStep(s, i, limit))
  {
  }

  lemma ClientStepInv(s: State, i: nat, limit: nat)
    requires Inv(s, limit) && i < |s.clients| && ClientEnabled(s, s.clients[i])
    ensures Inv(ClientStep(s, i, limit), limit)
  {
    var t := ClientStep(s, i, limit);
    forall j | 0 <= j < |t.clients| ensures ClientInv(t.clients[j], j, t.gc, t.count, limit, t.gcMutex, t.clientLock) {
      ClientStepClients(s, i, limit, j);
    }
    ClientStepGc(s, i, limit);
    ClientStepBooks(s, i, limit);
  }

  lemma GcStepClients(s: State, limit: nat, j: nat)
    requires Inv(s, limit) && GcEnabled(s) && j < |s.clients|
    ensures var t := GcStep(s, limit);
            |t.clients| == |s.clients| && ClientInv(t.clients[j], j, t.gc, t.count, limit, t.gcMutex, t.clientLock)
  {
    assert ClientInv(s.clients[j], j, s.gc, s.count, limit, s.gcMutex, s.clientLock);
  }

  lemma GcStepGc(s: State, limit: nat)
    requires GcInv(s) && GcEnabled(s)
    ensures GcInv(GcStep(s, limit))
  {
  }

  lemma GcStepBooks(s: State, limit: nat)
    requires Books(s) && GcInv(s) && GcEnabled(s)
    ensures Books(GcStep(s, limit))
  {
  }

  lemma GcStepInv(s: State, limit: nat)
    requires Inv(s, limit) && GcEnabled(s)
    ensures Inv(GcStep(s, limit), limit)
  {
    var t := GcStep(s, limit);
    forall j | 0 <= j < |t.clients| ensures ClientInv(t.clients[j], j, t.gc, t.count, limit, t.gcMutex, t.clientLock) {
      GcStepClients(s, limit, j);
    }
    GcStepGc(s, limit);
    GcStepBooks(s, limit);
  }

  lemma NextInv(s: State, t: State, limit: nat)
    requires Inv(s, limit) && Next(s, t, limit)
    ensures Inv(t, limit)
  {
    var a :| Enabled(s, a) && t == Step(s, a, limit);
    match a
    case Call(i, job) => CallInv(s, i, job, limit);
    case ClientGoesOn(i) => ClientStepInv(s, i, limit);
    case GcGoesOn => GcStepInv(s, limit);
  }

  lemma InitInv(s: State, limit: nat)
    requires Init(s)
    ensures Inv(s, limit)
  {
  }

  lemma {:induction false} RunInv(run: seq<State>, k: nat, limit: nat)
    requires IsRun(run, limit) && k < |run|
    ensures Inv(run[k], limit)
  {
    if k == 0 {
      InitInv(run[0], limit);
    } else {
      RunInv(run, k - 1, limit);
      assert NextAt(run, k, limit);
      NextInv(run[k - 1], run[k], limit);
    }
  }

  // ------------------------------------------------------------------ the theorems

  /** No work is lost and none is done twice: the buffers ever linked are those still on the list, those
      the GC thread has in hand and those that reached reclaim_iteration, each as often as it was linked;
      and the GC thread never drains an empty list. */
  lemma EveryBufferIsReclaimedOnce(run: seq<State>, k: nat, limit: nat)
    requires IsRun(run, limit) && k < |run|
    ensures multiset(run[k].enqueued) == multiset(run[k].list) + multiset(run[k].inHand) + multiset(run[k].reclaimed)
    ensures run[k].gc.GcDrain? ==> run[k].list != []
  {
    RunInv(run, k, limit);
  }

  /** Step k of the run is a drain. */
  ghost predicate DrainAt(run: seq<State>, k: nat) {
    k + 1 < |run| && run[k].gc.GcDrain? && !run[k + 1].gc.GcDrain?
  }

  predicate HasDrained(gc: Gc) { gc.GcReset? || gc.GcWantClient? || gc.GcBroadcast? || gc.GcUnlock? || gc.GcReclaim? }

  lemma HandStep(s: State, t: State, limit: nat)
    requires Next(s, t, limit)
    ensures HasDrained(t.gc) ==> (HasDrained(s.gc) && t.inHand == s.inHand) || (s.gc.GcDrain? && t.inHand == s.list)
    ensures t.reclaimed != s.reclaimed ==> s.gc.GcReclaim? && t.reclaimed == s.reclaimed + s.inHand
  {
    var a :| Enabled(s, a) && t == Step(s, a, limit);
    if a.ClientGoesOn? { ClientLeavesHand(s, a.i, limit); }
  }

  lemma ClientLeavesHand(s: State, i: nat, limit: nat)
    requires i < |s.clients| && ClientEnabled(s, s.clients[i])
    ensures var t := ClientStep(s, i, limit);
      t.inHand == s.inHand && t.reclaimed == s.reclaimed && (HasDrained(t.gc) <==> HasDrained(s.gc))
  {
  }

  /** What the GC thread has in hand is the whole list as it was at the latest drain. */
  lemma {:induction false} HandIsDrained(run: seq<State>, k: nat, limit: nat) returns (j: nat)
    requires IsRun(run, limit) && k < |run| && HasDrained(run[k].gc)
    ensures j < k && DrainAt(run, j) && run[k].inHand == run[j].list
    ensures forall m :: j < m < k ==> !DrainAt(run, m)
  {
    if k == 0 { assert false; }
    assert NextAt(run, k, limit);
    HandStep(run[k - 1], run[k], limit);
    if HasDrained(run[k - 1].gc) {
      j := HandIsDrained(run, k - 1, limit);
    } else {
      j := k - 1;
    }
  }

  /** What an iteration reclaims is exactly the whole list as it was at the latest drain. */
  lemma DrainedIsReclaimed(run: seq<State>, k: nat, limit: nat) returns (j: nat)
    requires IsRun(run, limit) && k + 1 < |run| && run[k + 1].reclaimed != run[k].reclaimed
    ensures j < k && DrainAt(run, j) && run[k + 1].reclaimed == run[k].reclaimed + run[j].list
    ensures forall m :: j < m < k ==> !DrainAt(run, m)
  {
    assert NextAt(run, k + 1, limit);
    HandStep(run[k], run[k + 1], limit);
    j := HandIsDrained(run, k, limit);
  }

  /** The GC thread's wakeup is never lost: when it sleeps and no client is inside g_gc_mutex, no counted
      buffer waits. */
  lemma GcSleepsOnlyWithoutWork(run: seq<State>, k: nat, limit: nat)
    requires IsRun(run, limit) && k < |run| && run[k].gc.GcAsleep? && run[k].gcMutex.Free?
    ensures run[k].count == 0
  {
    RunInv(run, k, limit);
  }

  /** A throttled client sleeps only while the count is at the limit or a broadcast is about to come. */
  lemma ClientSleepsOnlyWhileFull(run: seq<State>, k: nat, limit: nat, i: nat)
    requires IsRun(run, limit) && k < |run| && i < |run[k].clients| && run[k].clients[i].Asleep?
    ensures run[k].count >= limit || run[k].gc.GcWantClient? || run[k].gc.GcBroadcast?
  {
    RunInv(run, k, limit);
    var s := run[k];
    assert ClientInv(s.clients[i], i, s.gc, s.count, limit, s.gcMutex, s.clientLock);
  }

  /** So the two sides never sleep for each other; the limit is at least 1 (env_init). */
  lemma NeverAllAsleep(run: seq<State>, k: nat, limit: nat, i: nat)
    requires IsRun(run, limit) && k < |run| && i < |run[k].clients| && run[k].clients[i].Asleep?
    requires limit > 0 && run[k].gcMutex.Free?
    ensures !run[k].gc.GcAsleep?
  {
    ClientSleepsOnlyWhileFull(run, k, limit, i);
    if run[k].gc.GcAsleep? { GcSleepsOnlyWithoutWork(run, k, limit); }
  }

  /** Whoever waits for a lock waits for a thread that can go on. */
  lemma LocksAreReleased(run: seq<State>, k: nat, limit: nat)
    requires IsRun(run, limit) && k < |run|
    ensures run[k].gcMutex.ByClient? ==> Enabled(run[k], ClientGoesOn(run[k].gcMutex.i))
    ensures run[k].clientLock.ByClient? ==> Enabled(run[k], ClientGoesOn(run[k].clientLock.i))
    ensures run[k].clientLock.ByGc? ==> Enabled(run[k], GcGoesOn)
    ensures run[k].gcMutex.ByGc? ==> Enabled(run[k], GcGoesOn) || run[k].clientLock.ByClient?
  {
    RunInv(run, k, limit);
    var s := run[k];
    if s.gcMutex.ByClient? {
      assert ClientInv(s.clients[s.gcMutex.i], s.gcMutex.i, s.gc, s.count, limit, s.gcMutex, s.clientLock);
    }
    if s.clientLock.ByClient? {
      assert ClientInv(s.clients[s.clientLock.i], s.clientLock.i, s.gc, s.count, limit, s.gcMutex, s.clientLock);
    }
  }
}
