/** What the two sides of the queue of work do for each other: clients are held back while there is too much of
    it and only then, and all calls can always return with the work of the last one reclaimed. */
module QueueEnds {
  import opened CollectionQueue
  import Paths

  // ------------------------------------------------------------------ throttling

  predicate Waits(c: Client) {
    c.Testing? || c.WantLock? || c.HoldTest? || c.HoldSleep? || c.Asleep? || c.Woken? || c.HoldDone?
  }

  /** In a call that is to be throttled. */
  predicate InAutoCall(c: Client) {
    ((c.WantGc? || c.HoldsGc()) && c.job.autoRun) || Waits(c)
  }

  /** What happens to client i: nothing, its own step, a new call, or a broadcast. */
  lemma ClientMoves(s: State, a: Action, limit: nat, i: nat)
    requires Enabled(s, a) && i < |s.clients|
    ensures var t := Step(s, a, limit);
      && |t.clients| == |s.clients|
      && (t.clients[i] == s.clients[i] || a == ClientGoesOn(i) || (s.clients[i].Asleep? && t.clients[i].Woken?)
          || (s.clients[i].Outside? && t.clients[i].WantGc?))
  {
    match a
    case Call(j, job) =>
    case ClientGoesOn(j) => if j != i { OtherClient(s, j, limit, i); } else { OtherClient(s, j, limit, j); }
    case GcGoesOn => GcMovesClient(s, limit, i);
  }

  lemma OtherClient(s: State, j: nat, limit: nat, i: nat)
    requires j < |s.clients| && ClientEnabled(s, s.clients[j]) && i < |s.clients|
    ensures |ClientStep(s, j, limit).clients| == |s.clients|
    ensures i != j ==> ClientStep(s, j, limit).clients[i] == s.clients[i]
  {
  }

  lemma GcMovesClient(s: State, limit: nat, i: nat)
    requires GcEnabled(s) && i < |s.clients|
    ensures var t := GcStep(s, limit);
      && |t.clients| == |s.clients|
      && (t.clients[i] == s.clients[i] || (s.clients[i].Asleep? && t.clients[i].Woken?))
  {
  }

  lemma OwnStep(s: State, i: nat, limit: nat)
    requires i < |s.clients| && ClientEnabled(s, s.clients[i])
    ensures var c := ClientStep(s, i, limit).clients[i];
      && (InAutoCall(s.clients[i]) ==>
            InAutoCall(c) || (c.Outside? && s.clients[i].Testing? && s.count < limit))
      && (s.clients[i].Linked? && !s.clients[i].job.autoRun ==> c.Outside?)
  {
  }

  lemma NextInCall(s: State, t: State, limit: nat, i: nat)
    requires Next(s, t, limit) && i < |s.clients| && InAutoCall(s.clients[i])
    ensures |t.clients| == |s.clients|
    ensures InAutoCall(t.clients[i]) || (t.clients[i].Outside? && s.clients[i].Testing? && s.count < limit)
  {
    var a :| Enabled(s, a) && t == Step(s, a, limit);
    ClientMoves(s, a, limit, i);
    if a == ClientGoesOn(i) { OwnStep(s, i, limit); }
  }

  lemma NextCrew(s: State, t: State, limit: nat)
    requires Next(s, t, limit)
    ensures |t.clients| == |s.clients|
  {
    var a :| Enabled(s, a) && t == Step(s, a, limit);
    if |s.clients| > 0 { ClientMoves(s, a, limit, 0); }
  }

  lemma {:induction false} RunCrew(run: seq<State>, j: nat, k: nat, limit: nat)
    requires IsRun(run, limit) && j <= k < |run|
    ensures |run[k].clients| == |run[j].clients|
    decreases k
  {
    if j < k {
      RunCrew(run, j, k - 1, limit);
      assert NextAt(run, k, limit);
      NextCrew(run[k - 1], run[k], limit);
    }
  }

  /** A client whose call is to be throttled does not return before it has seen the count below the limit. */
  lemma {:induction false} ReturnsBelowLimit(run: seq<State>, j: nat, k: nat, limit: nat, i: nat) returns (m: nat)
    requires IsRun(run, limit) && j < k < |run| && i < |run[j].clients| && i < |run[k].clients|
    requires InAutoCall(run[j].clients[i]) && run[k].clients[i].Outside?
    ensures j <= m < k && run[m].count < limit
    ensures i < |run[m].clients| == |run[m + 1].clients| && Waits(run[m].clients[i]) && run[m + 1].clients[i].Outside?
    decreases k - j
  {
    assert NextAt(run, j + 1, limit);
    NextInCall(run[j], run[j + 1], limit, i);
    if run[j + 1].clients[i].Outside? { m := j; } else { m := ReturnsBelowLimit(run, j + 1, k, limit, i); }
  }

  /** A client that is not to be throttled returns when it has linked its buffer. */
  lemma ManualCallsReturn(run: seq<State>, k: nat, limit: nat, i: nat)
    requires IsRun(run, limit) && k + 1 < |run| && i < |run[k].clients| && run[k].clients[i].Linked?
    requires !run[k].clients[i].job.autoRun
    ensures i < |run[k + 1].clients|
    ensures run[k + 1].clients[i] != run[k].clients[i] ==> run[k + 1].clients[i].Outside?
  {
    assert NextAt(run, k + 1, limit);
    NextManual(run[k], run[k + 1], limit, i);
  }

  lemma NextManual(s: State, t: State, limit: nat, i: nat)
    requires Next(s, t, limit) && i < |s.clients| && s.clients[i].Linked? && !s.clients[i].job.autoRun
    ensures i < |t.clients| && (t.clients[i] != s.clients[i] ==> t.clients[i].Outside?)
  {
    var a :| Enabled(s, a) && t == Step(s, a, limit);
    ClientMoves(s, a, limit, i);
    if a == ClientGoesOn(i) { OwnStep(s, i, limit); }
  }

  // ------------------------------------------------------------------ steps

  ghost function Steps(limit: nat): (State, State) -> bool { (s, t) => Next(s, t, limit) }

  /** Client i goes on. */
  ghost function By(i: nat, limit: nat): (State, State) -> bool {
    (s, t) => Enabled(s, ClientGoesOn(i)) && t == Step(s, ClientGoesOn(i), limit)
  }

  lemma LeadsInv(s: State, t: State, limit: nat)
    requires Inv(s, limit) && Paths.Leads(Steps(limit), s, t)
    ensures Inv(t, limit)
  {
    forall x, y | Inv(x, limit) && Next(x, y, limit) ensures Inv(y, limit) { NextInv(x, y, limit); }
    Paths.Keeps(Steps(limit), x => Inv(x, limit), s, t);
  }

  lemma ClientDoes(s: State, i: nat, limit: nat)
    requires i < |s.clients| && ClientEnabled(s, s.clients[i])
    ensures Paths.Leads(Steps(limit), s, ClientStep(s, i, limit))
  {
    assert Step(s, ClientGoesOn(i), limit) == ClientStep(s, i, limit);
    assert Next(s, ClientStep(s, i, limit), limit);
    Paths.One(Steps(limit), s, ClientStep(s, i, limit));
  }

  lemma GcDoes(s: State, limit: nat)
    requires GcEnabled(s)
    ensures Paths.Leads(Steps(limit), s, GcStep(s, limit))
  {
    assert Step(s, GcGoesOn, limit) == GcStep(s, limit);
    assert Next(s, GcStep(s, limit), limit);
    Paths.One(Steps(limit), s, GcStep(s, limit));
  }

  lemma ByDoes(s: State, i: nat, limit: nat)
    requires i < |s.clients| && ClientEnabled(s, s.clients[i])
    ensures By(i, limit)(s, ClientStep(s, i, limit))
  {
    assert Step(s, ClientGoesOn(i), limit) == ClientStep(s, i, limit);
  }

  lemma TwoSteps(s: State, i: nat, limit: nat, x: State, t: State)
    requires i < |s.clients| && ClientEnabled(s, s.clients[i]) && x == ClientStep(s, i, limit)
    requires i < |x.clients| && ClientEnabled(x, x.clients[i]) && t == ClientStep(x, i, limit)
    ensures Paths.Leads(By(i, limit), s, t)
  {
    ByDoes(s, i, limit);
    ByDoes(x, i, limit);
    Paths.One(By(i, limit), s, x);
    Paths.Then(By(i, limit), s, x, t);
  }

  /** A client that finds the count at the limit goes to sleep, by steps of its own. */
  lemma ClientCanSleep(run: seq<State>, k: nat, limit: nat, i: nat) returns (t: State)
    requires IsRun(run, limit) && k < |run| && i < |run[k].clients| && run[k].clients[i].Testing?
    requires run[k].count >= limit && run[k].clientLock.Free?
    ensures Paths.Leads(By(i, limit), run[k], t) && |t.clients| == |run[k].clients| && t.clients[i].Asleep?
  {
    var s := run[k];
    var x := ClientStep(s, i, limit);
    var y := ClientStep(x, i, limit);
    var z := ClientStep(y, i, limit);
    t := ClientStep(z, i, limit);
    TwoSteps(s, i, limit, x, y);
    TwoSteps(y, i, limit, z, t);
    Paths.Join(By(i, limit), s, y, t);
  }

  // ------------------------------------------------------------------ the locks get free

  ghost predicate OthersSame(s: State, t: State, i: nat) {
    |t.clients| == |s.clients| && forall j :: 0 <= j < |s.clients| && j != i ==> t.clients[j] == s.clients[j]
  }

  function ClientRank(c: Client): nat {
    match c
    case WantGc(_) => 4
    case Locked(_) => 3
    case Counted(_) => 2
    case Linked(_) => 1
    case HoldTest => 2
    case HoldSleep => 1
    case HoldDone => 1
    case _ => 0
  }

  /** A client that is inside g_gc_mutex, or can get in. */
  predicate MayLink(s: State, i: nat) {
    i < |s.clients| && (s.clients[i].HoldsGc() || (s.clients[i].WantGc? && s.gcMutex.Free?))
  }

  lemma LinkStep(s: State, i: nat, limit: nat)
    requires MayLink(s, i)
    ensures var t := ClientStep(s, i, limit);
      && OthersSame(s, t, i) && |t.clients| == |s.clients|
      && (if s.clients[i].Linked? then t.gcMutex.Free? && (t.clients[i].Testing? || t.clients[i].Outside?)
          else t.clients[i].HoldsGc() && ClientRank(t.clients[i]) < ClientRank(s.clients[i]))
  {
  }

  /** It links its buffer and gets out. */
  lemma {:induction false} Links(s: State, i: nat, limit: nat) returns (t: State)
    requires MayLink(s, i)
    ensures Paths.Leads(Steps(limit), s, t) && OthersSame(s, t, i) && t.gcMutex.Free?
    ensures t.clients[i].Testing? || t.clients[i].Outside?
    decreases ClientRank(s.clients[i])
  {
    var m := ClientStep(s, i, limit);
    ClientDoes(s, i, limit);
    LinkStep(s, i, limit);
    if s.clients[i].Linked? {
      t := m;
    } else {
      t := Links(m, i, limit);
      Paths.Join(Steps(limit), s, m, t);
    }
  }

  /** The client that holds g_client_waiting_lock lets it go. */
  lemma {:induction false} Unlocks(s: State, i: nat, limit: nat) returns (t: State)
    requires Inv(s, limit) && i < |s.clients| && s.clients[i].HoldsClient()
    ensures Paths.Leads(Steps(limit), s, t) && OthersSame(s, t, i) && t.clientLock.Free?
    ensures t.gc == s.gc && t.gcMutex == s.gcMutex && Waits(t.clients[i])
    decreases ClientRank(s.clients[i])
  {
    var m := ClientStep(s, i, limit);
    ClientDoes(s, i, limit);
    if s.clients[i].HoldTest? {
      ClientStepInv(s, i, limit);
      t := Unlocks(m, i, limit);
      Paths.Join(Steps(limit), s, m, t);
    } else {
      t := m;
    }
  }

  predicate Calling(c: Client) { c.WantGc? || c.HoldsGc() }

  /** The buffer of no client's call is still to be linked, if none was in s. */
  ghost predicate NoMoreCalls(s: State, t: State) {
    |t.clients| == |s.clients| && forall j :: 0 <= j < |s.clients| && !Calling(s.clients[j]) ==> !Calling(t.clients[j])
  }

  lemma FreeClientLock(s: State, limit: nat) returns (t: State)
    requires Inv(s, limit) && !s.clientLock.ByGc?
    ensures Paths.Leads(Steps(limit), s, t) && NoMoreCalls(s, t) && t.clientLock.Free?
    ensures t.gc == s.gc && t.gcMutex == s.gcMutex
  {
    if s.clientLock.ByClient? {
      var i := s.clientLock.i;
      assert ClientInv(s.clients[i], i, s.gc, s.count, limit, s.gcMutex, s.clientLock);
      t := Unlocks(s, i, limit);
    } else {
      Paths.Stay(Steps(limit), s);
      t := s;
    }
  }

  function GcRank(gc: Gc): nat {
    match gc
    case GcTest => 7
    case GcDrain => 6
    case GcReset => 5
    case GcWantClient => 4
    case GcBroadcast => 3
    case GcUnlock => 2
    case _ => 0
  }

  lemma GcInside(s: State, limit: nat)
    requires s.gc.HoldsGc() && (s.gc.GcWantClient? ==> s.clientLock.Free?)
    ensures GcEnabled(s)
    ensures var t := GcStep(s, limit);
      GcRank(t.gc) < GcRank(s.gc) && NoMoreCalls(s, t) && (!t.gc.HoldsGc() ==> t.gcMutex.Free?)
  {
  }

  lemma GcMoves(s: State, limit: nat) returns (t: State)
    requires Inv(s, limit) && s.gc.HoldsGc()
    ensures Paths.Leads(Steps(limit), s, t) && NoMoreCalls(s, t)
    ensures GcRank(t.gc) < GcRank(s.gc) && (!t.gc.HoldsGc() ==> t.gcMutex.Free?)
  {
    var x := s;
    Paths.Stay(Steps(limit), s);
    if s.gc.GcWantClient? { x := FreeClientLock(s, limit); }
    GcInside(x, limit);
    GcDoes(x, limit);
    t := GcStep(x, limit);
    Paths.Join(Steps(limit), s, x, t);
  }

  /** The GC thread gets out of g_gc_mutex. */
  lemma {:induction false} GcGetsOut(s: State, limit: nat) returns (t: State)
    requires Inv(s, limit) && s.gc.HoldsGc()
    ensures Paths.Leads(Steps(limit), s, t) && NoMoreCalls(s, t) && !t.gc.HoldsGc() && t.gcMutex.Free?
    decreases GcRank(s.gc)
  {
    var m := GcMoves(s, limit);
    if m.gc.HoldsGc() {
      LeadsInv(s, m, limit);
      t := GcGetsOut(m, limit);
      Paths.Join(Steps(limit), s, m, t);
    } else {
      t := m;
    }
  }

  /** g_gc_mutex gets free. */
  lemma FreeGcMutex(s: State, limit: nat) returns (t: State)
    requires Inv(s, limit)
    ensures Paths.Leads(Steps(limit), s, t) && NoMoreCalls(s, t) && t.gcMutex.Free?
  {
    if s.gcMutex.ByClient? {
      var i := s.gcMutex.i;
      assert ClientInv(s.clients[i], i, s.gc, s.count, limit, s.gcMutex, s.clientLock);
      t := Links(s, i, limit);
    } else if s.gcMutex.ByGc? {
      t := GcGetsOut(s, limit);
    } else {
      Paths.Stay(Steps(limit), s);
      t := s;
    }
  }

  // ------------------------------------------------------------------ every call links its buffer

  lemma LinkOne(s: State, i: nat, limit: nat) returns (t: State)
    requires Inv(s, limit) && s.gcMutex.Free? && i < |s.clients|
    ensures Paths.Leads(Steps(limit), s, t) && NoMoreCalls(s, t) && t.gcMutex.Free? && !Calling(t.clients[i])
  {
    assert ClientInv(s.clients[i], i, s.gc, s.count, limit, s.gcMutex, s.clientLock);
    if s.clients[i].WantGc? {
      t := Links(s, i, limit);
    } else {
      Paths.Stay(Steps(limit), s);
      t := s;
    }
  }

  lemma LinkAll(s: State, limit: nat) returns (t: State)
    requires Inv(s, limit) && s.gcMutex.Free?
    ensures Paths.Leads(Steps(limit), s, t) && |t.clients| == |s.clients| && t.gcMutex.Free?
    ensures forall i :: 0 <= i < |t.clients| ==> !Calling(t.clients[i])
  {
    t := s;
    Paths.Stay(Steps(limit), s);
    for i := 0 to |s.clients|
      invariant Paths.Leads(Steps(limit), s, t) && |t.clients| == |s.clients| && t.gcMutex.Free?
      invariant forall j :: 0 <= j < i ==> !Calling(t.clients[j])
    {
      var m := t;
      LeadsInv(s, m, limit);
      t := LinkOne(m, i, limit);
      Paths.Join(Steps(limit), s, m, t);
    }
  }

  /** Outside, or waiting without a lock. */
  predicate Loose(c: Client) { c.Outside? || c.Testing? || c.WantLock? || c.Asleep? || c.Woken? }

  ghost predicate AllLoose(s: State) { forall i :: 0 <= i < |s.clients| ==> Loose(s.clients[i]) }

  lemma Loosens(s: State, limit: nat) returns (t: State)
    requires Inv(s, limit)
    ensures Paths.Leads(Steps(limit), s, t) && |t.clients| == |s.clients| && AllLoose(t)
  {
    var x := FreeGcMutex(s, limit);
    LeadsInv(s, x, limit);
    var y := LinkAll(x, limit);
    Paths.Join(Steps(limit), s, x, y);
    LeadsInv(s, y, limit);
    t := FreeClientLock(y, limit);
    Paths.Join(Steps(limit), s, y, t);
    LeadsInv(s, t, limit);
    forall i | 0 <= i < |t.clients| ensures Loose(t.clients[i]) {
      assert ClientInv(t.clients[i], i, t.gc, t.count, limit, t.gcMutex, t.clientLock);
    }
  }

  // ------------------------------------------------------------------ the GC thread finishes its work

  /** The GC thread is about to drain the list. */
  predicate Draining(s: State) {
    s.gc.GcWoken? || s.gc.GcDrain? || (s.count > 0 && (s.gc.GcTest? || s.gc.GcLock? || s.gc.GcReclaim?))
  }

  function WorkRank(s: State): nat {
    match s.gc
    case GcAsleep => 0
    case GcTest => if s.count == 0 then 1 else 9
    case GcLock => if s.count == 0 then 2 else 10
    case GcReclaim => if s.count == 0 then 3 else 11
    case GcUnlock => 4
    case GcBroadcast => 5
    case GcWantClient => 6
    case GcReset => 7
    case GcDrain => 8
    case GcWoken => 9
  }

  lemma LooseLocks(s: State, limit: nat)
    requires Inv(s, limit) && AllLoose(s)
    ensures !s.gcMutex.ByClient? && !s.clientLock.ByClient?
  {
    forall i | 0 <= i < |s.clients| ensures s.gcMutex != ByClient(i) && s.clientLock != ByClient(i) {
      assert ClientInv(s.clients[i], i, s.gc, s.count, limit, s.gcMutex, s.clientLock);
    }
  }

  lemma GcWorks(s: State, limit: nat)
    requires GcInv(s) && AllLoose(s) && !s.gcMutex.ByClient? && !s.clientLock.ByClient? && !s.gc.GcAsleep?
    ensures GcEnabled(s)
    ensures var t := GcStep(s, limit);
      && |t.clients| == |s.clients| && AllLoose(t) && WorkRank(t) < WorkRank(s) && t.enqueued == s.enqueued
      && (s.list == [] || Draining(s) ==> t.list == [] || Draining(t))
  {
  }

  lemma {:induction false} GcRuns(s: State, limit: nat) returns (t: State)
    requires Inv(s, limit) && AllLoose(s)
    ensures Paths.Leads(Steps(limit), s, t) && |t.clients| == |s.clients| && AllLoose(t) && t.gc.GcAsleep?
    ensures t.enqueued == s.enqueued && (s.list == [] || Draining(s) ==> t.list == [])
    decreases WorkRank(s)
  {
    if s.gc.GcAsleep? {
      Paths.Stay(Steps(limit), s);
      t := s;
    } else {
      LooseLocks(s, limit);
      GcWorks(s, limit);
      var m := GcStep(s, limit);
      GcDoes(s, limit);
      GcStepInv(s, limit);
      t := GcRuns(m, limit);
      Paths.Join(Steps(limit), s, m, t);
    }
  }

  // ------------------------------------------------------------------ every call returns

  /** The GC thread sleeps, no work is counted and both locks are free. */
  predicate Asleep(s: State) { s.gc.GcAsleep? && s.count == 0 && s.gcMutex.Free? && s.clientLock.Free? }

  lemma SleepsWithoutWork(s: State, limit: nat)
    requires Inv(s, limit) && AllLoose(s) && s.gc.GcAsleep? && limit > 0
    ensures Asleep(s) && s.inHand == [] && forall i :: 0 <= i < |s.clients| ==> !s.clients[i].Asleep?
  {
    LooseLocks(s, limit);
    forall i | 0 <= i < |s.clients| ensures !s.clients[i].Asleep? {
      assert ClientInv(s.clients[i], i, s.gc, s.count, limit, s.gcMutex, s.clientLock);
    }
  }

  function ReturnRank(c: Client): nat {
    match c
    case Testing => 1
    case HoldDone => 2
    case HoldTest => 3
    case Woken => 4
    case WantLock => 4
    case _ => 0
  }

  /** It waits, and not for anybody. */
  predicate Returning(s: State, i: nat) {
    && i < |s.clients| && s.count == 0 && s.gc.GcAsleep? && s.gcMutex.Free?
    && (s.clientLock.Free? || s.clientLock == ByClient(i))
    && (s.clients[i].HoldsClient() <==> s.clientLock == ByClient(i))
    && (s.clients[i].Outside? || ReturnRank(s.clients[i]) > 0)
  }

  lemma ReturnStep(s: State, i: nat, limit: nat)
    requires Returning(s, i) && !s.clients[i].Outside? && limit > 0
    ensures ClientEnabled(s, s.clients[i])
    ensures var t := ClientStep(s, i, limit);
      && Returning(t, i) && OthersSame(s, t, i) && t.list == s.list && t.enqueued == s.enqueued
      && ReturnRank(t.clients[i]) < ReturnRank(s.clients[i])
  {
  }

  lemma {:induction false} Returns(s: State, i: nat, limit: nat) returns (t: State)
    requires Returning(s, i) && limit > 0
    ensures Paths.Leads(Steps(limit), s, t) && OthersSame(s, t, i) && t.clients[i].Outside? && Asleep(t)
    ensures t.list == s.list && t.enqueued == s.enqueued
    decreases ReturnRank(s.clients[i])
  {
    if s.clients[i].Outside? {
      Paths.Stay(Steps(limit), s);
      t := s;
    } else {
      ReturnStep(s, i, limit);
      var m := ClientStep(s, i, limit);
      ClientDoes(s, i, limit);
      t := Returns(m, i, limit);
      Paths.Join(Steps(limit), s, m, t);
    }
  }

  /** All calls have returned and the GC thread sleeps. */
  predicate Rest(s: State) { Asleep(s) && forall i :: 0 <= i < |s.clients| ==> s.clients[i].Outside? }

  lemma AllReturn(s: State, limit: nat) returns (t: State)
    requires AllLoose(s) && Asleep(s) && limit > 0 && forall i :: 0 <= i < |s.clients| ==> !s.clients[i].Asleep?
    ensures Paths.Leads(Steps(limit), s, t) && Rest(t) && |t.clients| == |s.clients|
    ensures t.list == s.list && t.enqueued == s.enqueued
  {
    t := s;
    Paths.Stay(Steps(limit), s);
    for i := 0 to |s.clients|
      invariant Paths.Leads(Steps(limit), s, t) && |t.clients| == |s.clients| && Asleep(t)
      invariant t.list == s.list && t.enqueued == s.enqueued
      invariant forall j :: 0 <= j < i ==> t.clients[j].Outside?
      invariant forall j :: i <= j < |s.clients| ==> t.clients[j] == s.clients[j]
    {
      var m := t;
      assert Loose(s.clients[i]);
      t := Returns(m, i, limit);
      Paths.Join(Steps(limit), s, m, t);
    }
  }

  lemma Finishes(s: State, limit: nat) returns (t: State)
    requires Inv(s, limit) && AllLoose(s) && limit > 0
    ensures Paths.Leads(Steps(limit), s, t) && Rest(t) && |t.clients| == |s.clients| && t.inHand == []
    ensures t.enqueued == s.enqueued && (s.list == [] || Draining(s) ==> t.list == [])
  {
    var x := GcRuns(s, limit);
    LeadsInv(s, x, limit);
    SleepsWithoutWork(x, limit);
    t := AllReturn(x, limit);
    Paths.Join(Steps(limit), s, x, t);
    LeadsInv(s, t, limit);
  }

  // ------------------------------------------------------------------ the theorems

  lemma ToRest(s: State, limit: nat) returns (t: State)
    requires Inv(s, limit) && limit > 0
    ensures Paths.Leads(Steps(limit), s, t) && Rest(t) && |t.clients| == |s.clients|
  {
    var x := Loosens(s, limit);
    LeadsInv(s, x, limit);
    t := Finishes(x, limit);
    Paths.Join(Steps(limit), s, x, t);
  }

  /** Nobody is ever stuck: from every state of every run, with the limit of at least 1 that env_init sets, all
      calls can return and the GC thread can finish its work. */
  lemma AllCallsCanReturn(run: seq<State>, k: nat, limit: nat) returns (t: State)
    requires IsRun(run, limit) && k < |run| && limit > 0
    ensures Paths.Leads(Steps(limit), run[k], t) && Rest(t) && |t.clients| == |run[k].clients|
  {
    RunInv(run, k, limit);
    t := ToRest(run[k], limit);
  }

  /** A call from rest, up to where its buffer is linked and the GC thread woken. */
  lemma CallLinks(s: State, i: nat, job: Job, limit: nat) returns (t: State)
    requires Inv(s, limit) && Rest(s) && i < |s.clients| && job.Counts()
    ensures Paths.Leads(Steps(limit), s, t) && |t.clients| == |s.clients| && AllLoose(t) && t.gc.GcWoken?
    ensures t.enqueued == s.enqueued + [job.ab]
  {
    var v := Step(s, Call(i, job), limit);
    assert Next(s, v, limit);
    Paths.One(Steps(limit), s, v);
    var w := ClientStep(v, i, limit);
    ClientDoes(v, i, limit);
    Paths.Join(Steps(limit), s, v, w);
    var x := ClientStep(w, i, limit);
    ClientDoes(w, i, limit);
    Paths.Join(Steps(limit), s, w, x);
    var y := ClientStep(x, i, limit);
    ClientDoes(x, i, limit);
    Paths.Join(Steps(limit), s, x, y);
    t := ClientStep(y, i, limit);
    ClientDoes(y, i, limit);
    Paths.Join(Steps(limit), s, y, t);
  }

  /** From every state of every run any client can make a call that counts, and with it every buffer that has ever
      been linked can be reclaimed, and every call return. */
  lemma CallCanBeReclaimed(run: seq<State>, k: nat, limit: nat, i: nat, job: Job) returns (t: State)
    requires IsRun(run, limit) && k < |run| && limit > 0 && i < |run[k].clients| && job.Counts()
    ensures Paths.Leads(Steps(limit), run[k], t) && Rest(t)
    ensures t.enqueued != [] && t.enqueued[|t.enqueued| - 1] == job.ab
    ensures multiset(t.reclaimed) == multiset(t.enqueued)
  {
    RunInv(run, k, limit);
    var x := ToRest(run[k], limit);
    LeadsInv(run[k], x, limit);
    var y := CallLinks(x, i, job, limit);
    Paths.Join(Steps(limit), run[k], x, y);
    LeadsInv(run[k], y, limit);
    t := Finishes(y, limit);
    Paths.Join(Steps(limit), run[k], y, t);
    LeadsInv(run[k], t, limit);
    assert multiset(t.list) == multiset{} && multiset(t.inHand) == multiset{};
  }
}
