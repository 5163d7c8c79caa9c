/** The freeing threads can always finish: they can exhaust, unlink and release every buffer, in exactly
    those states in which no thread has gone, or is bound to go, behind the last entry. */
module Releases {
  import opened Words
  import opened Retirees
  import Paths

  ghost predicate WorkerNext(s: State, s': State) {
    exists t: nat, op: Op :: t < |s.workers| && EnabledOp(s, s.workers[t], op) && s' == StepOp(s, t, op)
  }

  ghost function Works(): (State, State) -> bool { (s, s') => WorkerNext(s, s') }

  /** Worker t alone has moved; the buffers that are left have as many entries as before. */
  ghost predicate OnlyBy(s: State, s': State, t: nat) {
    && |s'.workers| == |s.workers| && s'.gc == s.gc
    && (forall u :: 0 <= u < |s.workers| && u != t ==> s'.workers[u] == s.workers[u])
    && (forall b :: b in s'.buffers ==> b in s.buffers && |s'.buffers[b].slots| == |s.buffers[b].slots|)
  }

  ghost predicate Goes(s: State, s': State, t: nat) { Paths.Leads(Works(), s, s') && OnlyBy(s, s', t) }

  lemma GoesOn(s: State, m: State, s': State, t: nat)
    requires Goes(s, m, t) && Goes(m, s', t)
    ensures Goes(s, s', t)
  {
    Paths.Join(Works(), s, m, s');
  }

  lemma Stays(s: State, t: nat)
    ensures Goes(s, s, t)
  {
    Paths.Stay(Works(), s);
  }

  lemma OpOnly(s: State, t: nat, op: Op)
    requires t < |s.workers| && EnabledOp(s, s.workers[t], op)
    ensures OnlyBy(s, StepOp(s, t, op), t) && WorkerNext(s, StepOp(s, t, op))
  {
  }

  lemma Does(s: State, t: nat, op: Op) returns (m: State)
    requires Inv(s) && t < |s.workers| && EnabledOp(s, s.workers[t], op)
    ensures m == StepOp(s, t, op) && Inv(m) && Goes(s, m, t)
  {
    m := StepOp(s, t, op);
    StepInv(s, By(t, op));
    OpOnly(s, t, op);
    Paths.One(Works(), s, m);
  }

  // ------------------------------------------------------------------ one buffer

  /** The worker's buffer: its place in the list and what has been claimed of it are as before. */
  ghost predicate SameBuffer(s: State, m: State, t: nat)
    requires t < |s.workers| && t < |m.workers|
  {
    && m.list == s.list && m.workers[t].buf == s.workers[t].buf
    && HasBuffer(s, s.workers[t]) && HasBuffer(m, m.workers[t])
    && m.buffers[m.workers[t].buf.value].freeIdx == s.buffers[s.workers[t].buf.value].freeIdx
    && |m.buffers[m.workers[t].buf.value].slots| == |s.buffers[s.workers[t].buf.value].slots|
  }

  /** It is dealing with a claim, or about to look for one. */
  predicate Dealing(w: Worker) {
    w.buf.Some? && (w.pc.Loop? || w.pc.Check? || w.pc.Wipe? || w.pc.Free? || (w.pc.Take? && w.begin < w.end))
  }

  predicate Settled(w: Worker) { w.buf.Some? && w.pc.Check? && w.begin == w.end }

  function Rank(pc: Pc): nat {
    match pc
    case Wipe(_) => 4
    case Free(_) => 3
    case Loop => 2
    case Check => 1
    case _ => 0
  }

  function Claim(w: Worker): nat { if w.begin <= w.end then w.end - w.begin else 0 }

  function NextOp(w: Worker): Op {
    match w.pc
    case Wipe(_) => WipeSlot
    case Free(_) => FreeBlock
    case Loop => Resume
    case Check => Examine
    case _ => TakeSlot
  }

  lemma DealOnce(s: State, t: nat) returns (m: State)
    requires Inv(s) && t < |s.workers| && Dealing(s.workers[t]) && !Settled(s.workers[t])
    ensures Inv(m) && Goes(s, m, t) && SameBuffer(s, m, t) && Dealing(m.workers[t])
    ensures var w, w' := s.workers[t], m.workers[t];
      w'.end == w.end && (Claim(w') < Claim(w) || (Claim(w') == Claim(w) && Rank(w'.pc) < Rank(w.pc)))
  {
    EachWorkerOk(s, t);
    DealStep(s, t);
    m := Does(s, t, NextOp(s.workers[t]));
  }

  lemma DealStep(s: State, t: nat)
    requires t < |s.workers| && Dealing(s.workers[t]) && !Settled(s.workers[t])
    requires WorkerOk(s.buffers, s.list, s.workers[t]) && InBounds(s, s.workers[t])
    ensures EnabledOp(s, s.workers[t], NextOp(s.workers[t]))
    ensures var m := StepOp(s, t, NextOp(s.workers[t]));
      && SameBuffer(s, m, t) && Dealing(m.workers[t])
      && var w, w' := s.workers[t], m.workers[t];
         w'.end == w.end && (Claim(w') < Claim(w) || (Claim(w') == Claim(w) && Rank(w'.pc) < Rank(w.pc)))
  {
    var w := s.workers[t];
    if w.pc.Take? { assert w.Owns(w.buf.value, w.begin); }
  }

  /** A worker deals with all that it has claimed. */
  lemma {:induction false} Deal(s: State, t: nat) returns (m: State)
    requires Inv(s) && t < |s.workers| && Dealing(s.workers[t])
    ensures Inv(m) && Goes(s, m, t) && t < |m.workers| && HasBuffer(s, s.workers[t]) && SameBuffer(s, m, t)
    ensures Settled(m.workers[t])
    decreases Claim(s.workers[t]), Rank(s.workers[t].pc)
  {
    EachWorkerOk(s, t);
    if Settled(s.workers[t]) {
      Stays(s, t);
      m := s;
    } else {
      var x := DealOnce(s, t);
      m := Deal(x, t);
      GoesOn(s, x, m, t);
    }
  }

  function Unclaimed(s: State, t: nat): nat
    requires t < |s.workers| && HasBuffer(s, s.workers[t])
  {
    var buf := s.buffers[s.workers[t].buf.value];
    if buf.freeIdx <= |buf.slots| then |buf.slots| - buf.freeIdx else 0
  }

  /** While entries are left, it claims some. */
  lemma ClaimMore(s: State, t: nat) returns (m: State)
    requires Inv(s) && t < |s.workers| && Settled(s.workers[t]) && HasBuffer(s, s.workers[t]) && Unclaimed(s, t) > 0
    ensures Inv(m) && Goes(s, m, t) && t < |m.workers| && m.list == s.list && m.workers[t].buf == s.workers[t].buf
    ensures HasBuffer(m, m.workers[t]) && Dealing(m.workers[t]) && Unclaimed(m, t) < Unclaimed(s, t)
  {
    var x := Does(s, t, Examine);
    var y := Does(x, t, ReadAgain);
    GoesOn(s, x, y, t);
    m := Does(y, t, TryClaim);
    GoesOn(s, y, m, t);
  }

  /** It deals with all entries that are left. */
  lemma {:induction false} Exhaust(s: State, t: nat) returns (m: State)
    requires Inv(s) && t < |s.workers| && Dealing(s.workers[t])
    ensures Inv(m) && Goes(s, m, t) && t < |m.workers| && m.list == s.list && m.workers[t].buf == s.workers[t].buf
    ensures Settled(m.workers[t]) && HasBuffer(m, m.workers[t]) && Unclaimed(m, t) == 0
    decreases (EachWorkerOk(s, t); Unclaimed(s, t))
  {
    var x := Deal(s, t);
    if Unclaimed(x, t) == 0 {
      m := x;
    } else {
      var y := ClaimMore(x, t);
      GoesOn(s, x, y, t);
      m := Exhaust(y, t);
      GoesOn(s, y, m, t);
    }
  }

  /** It unlinks the exhausted buffer and gives it up. */
  lemma LetGo(s: State, t: nat) returns (m: State)
    requires Inv(s) && t < |s.workers| && (s.workers[t].pc.Unlink? || s.workers[t].pc.Unref?)
    ensures Inv(m) && Goes(s, m, t) && t < |m.workers| && m.workers[t].buf == None && m.workers[t].pc.Loop?
    ensures s.workers[t].buf.Some? && m.list == Without(s.list, s.workers[t].buf.value)
  {
    EachWorkerOk(s, t);
    var x := s;
    if s.workers[t].pc.Unlink? { x := Does(s, t, Pop); } else { Stays(s, t); }
    EachWorkerOk(x, t);
    m := Does(x, t, Drop);
    GoesOn(s, x, m, t);
  }

  lemma FinishBuffer(s: State, t: nat) returns (m: State)
    requires Inv(s) && t < |s.workers| && Dealing(s.workers[t])
    ensures Inv(m) && Goes(s, m, t) && t < |m.workers| && m.workers[t].buf == None && m.workers[t].pc.Loop?
    ensures m.list == Without(s.list, s.workers[t].buf.value)
  {
    var x := Exhaust(s, t);
    EachWorkerOk(x, t);
    var y := Does(x, t, Examine);
    GoesOn(s, x, y, t);
    m := LetGo(y, t);
    GoesOn(s, y, m, t);
  }

  // ------------------------------------------------------------------ one thread

  /** The worker has not gone behind the last entry, and has not read, and is not about to read, the end
      where it expects entries (util.c:257). */
  ghost predicate Hopeful(s: State, w: Worker) {
    && !w.pc.Fault? && (w.pc.Take? ==> w.begin < w.end)
    && (HasBuffer(s, w) ==>
          var buf := s.buffers[w.buf.value];
          (w.pc.Reread? ==> buf.freeIdx < |buf.slots|) && (w.pc.Cas? ==> w.pc.seen < |buf.slots|))
  }

  /** And whatever others claim meanwhile, it will not. */
  ghost predicate Steady(s: State, w: Worker) { Hopeful(s, w) && !w.pc.Reread? }

  predicate AtRest(w: Worker) { w.buf.None? && w.pc.Outside? }

  /** From anywhere it gets to where it deals with its buffer, or has unlinked it. */
  lemma Enters(s: State, t: nat) returns (m: State)
    requires Inv(s) && t < |s.workers| && Steady(s, s.workers[t]) && s.workers[t].buf.Some?
    ensures Inv(m) && Goes(s, m, t) && t < |m.workers| && m.list == s.list && m.workers[t].buf == s.workers[t].buf
    ensures Dealing(m.workers[t]) || m.workers[t].pc.Unlink? || m.workers[t].pc.Unref?
  {
    EachWorkerOk(s, t);
    if s.workers[t].pc.Outside? {
      m := Does(s, t, Enter);
    } else if s.workers[t].pc.Cas? {
      m := Does(s, t, TryClaim);
    } else {
      Stays(s, t);
      m := s;
    }
  }

  lemma GivesUp(s: State, t: nat) returns (m: State)
    requires Inv(s) && t < |s.workers| && Steady(s, s.workers[t])
    ensures Inv(m) && Goes(s, m, t) && t < |m.workers| && m.workers[t].buf == None
    ensures |m.list| <= |s.list|
  {
    if s.workers[t].buf.None? {
      Stays(s, t);
      m := s;
    } else {
      var x := Enters(s, t);
      if Dealing(x.workers[t]) { m := FinishBuffer(x, t); } else { m := LetGo(x, t); }
      GoesOn(s, x, m, t);
    }
  }

  /** The front buffer, from the beginning to its release by this worker. */
  lemma NextBuffer(s: State, t: nat) returns (m: State)
    requires Inv(s) && t < |s.workers| && s.workers[t].buf == None && s.workers[t].pc.Loop? && s.list != []
    ensures Inv(m) && Goes(s, m, t) && t < |m.workers| && m.workers[t].buf == None && m.workers[t].pc.Loop?
    ensures |m.list| < |s.list|
  {
    var x := Does(s, t, Get);
    m := FinishBuffer(x, t);
    GoesOn(s, x, m, t);
  }

  /** One after the other, until the list is empty. */
  lemma {:induction false} EmptyList(s: State, t: nat) returns (m: State)
    requires Inv(s) && t < |s.workers| && s.workers[t].buf == None && s.workers[t].pc.Loop?
    ensures Inv(m) && Goes(s, m, t) && t < |m.workers| && AtRest(m.workers[t]) && m.list == []
    decreases |s.list|
  {
    if s.list == [] {
      m := Does(s, t, Get);
    } else {
      var x := NextBuffer(s, t);
      m := EmptyList(x, t);
      GoesOn(s, x, m, t);
    }
  }

  /** A thread, going on alone, gives up what it holds and empties the list. */
  lemma Finishes(s: State, t: nat) returns (m: State)
    requires Inv(s) && t < |s.workers| && Steady(s, s.workers[t])
    ensures Inv(m) && Goes(s, m, t) && t < |m.workers| && AtRest(m.workers[t]) && m.list == []
  {
    var x := GivesUp(s, t);
    EachWorkerOk(x, t);
    var y := x;
    if x.workers[t].pc.Outside? { y := Does(x, t, Enter); } else { Stays(x, t); }
    GoesOn(s, x, y, t);
    m := EmptyList(y, t);
    GoesOn(s, y, m, t);
  }

  /** It touches no buffer but its own. */
  ghost predicate OwnOnly(s: State, m: State, b: Option<BufId>) {
    && (forall c :: c in s.buffers && b != Some(c) ==> c in m.buffers && m.buffers[c] == s.buffers[c])
    && (m.list == s.list || (b.Some? && m.list == Without(s.list, b.value)))
  }

  lemma OwnDoes(s: State, t: nat, op: Op) returns (m: State)
    requires Inv(s) && t < |s.workers| && EnabledOp(s, s.workers[t], op) && !op.Get?
    ensures m == StepOp(s, t, op) && Inv(m) && Goes(s, m, t) && OwnOnly(s, m, s.workers[t].buf)
  {
    m := Does(s, t, op);
    OwnStep(s, t, op);
  }

  lemma OwnStep(s: State, t: nat, op: Op)
    requires t < |s.workers| && EnabledOp(s, s.workers[t], op) && !op.Get?
    ensures OwnOnly(s, StepOp(s, t, op), s.workers[t].buf)
  {
  }

  /** How far it is from the top of the loop. */
  function ToLoop(s: State, w: Worker): nat {
    match w.pc
    case Loop => 0
    case Free(_) => 1
    case Wipe(_) => 2
    case Unref => 1
    case Unlink => 2
    case Take => 3
    case Cas(_) => 4
    case Reread => 5
    case Check => 6
    case _ => 7
  }

  function LoopOp(w: Worker): Op {
    match w.pc
    case Free(_) => FreeBlock
    case Wipe(_) => WipeSlot
    case Unref => Drop
    case Unlink => Pop
    case Take => TakeSlot
    case Cas(_) => TryClaim
    case Reread => ReadAgain
    case _ => Examine
  }

  lemma LoopStep(s: State, t: nat)
    requires t < |s.workers| && WorkerOk(s.buffers, s.list, s.workers[t]) && InBounds(s, s.workers[t])
    requires Hopeful(s, s.workers[t]) && !s.workers[t].pc.Loop? && !s.workers[t].pc.Outside?
    ensures EnabledOp(s, s.workers[t], LoopOp(s.workers[t]))
    ensures var m := StepOp(s, t, LoopOp(s.workers[t]));
      && ToLoop(m, m.workers[t]) < ToLoop(s, s.workers[t]) && Hopeful(m, m.workers[t])
      && !m.workers[t].pc.Outside? && (m.workers[t].buf == s.workers[t].buf || m.workers[t].pc.Loop?)
  {
    var w := s.workers[t];
    if w.pc.Take? { assert w.Owns(w.buf.value, w.begin); }
  }

  lemma OwnOn(s: State, x: State, m: State, b: Option<BufId>)
    requires OwnOnly(s, x, b) && OwnOnly(x, m, b) && ListOk(s)
    ensures OwnOnly(s, m, b)
  {
    if b.Some? && b.value in s.list { WithoutTwice(s.list, b.value); }
  }

  lemma WithoutTwice(q: seq<BufId>, b: BufId)
    requires b in q && forall j, k :: 0 <= j < k < |q| ==> q[j] != q[k]
    ensures Without(Without(q, b), b) == Without(q, b)
  {
    var i := IndexOf(q, b);
    forall k | 0 <= k < |Without(q, b)| ensures Without(q, b)[k] != b {
      assert Without(q, b)[k] == if k < i then q[k] else q[k + 1];
    }
  }

  lemma {:induction false} ComesRound(s: State, t: nat) returns (m: State)
    requires Inv(s) && t < |s.workers| && Hopeful(s, s.workers[t]) && !s.workers[t].pc.Outside?
    ensures Inv(m) && Goes(s, m, t) && OwnOnly(s, m, s.workers[t].buf) && t < |m.workers| && m.workers[t].pc.Loop?
    decreases ToLoop(s, s.workers[t])
  {
    EachWorkerOk(s, t);
    if s.workers[t].pc.Loop? {
      Stays(s, t);
      m := s;
    } else {
      LoopStep(s, t);
      var x := OwnDoes(s, t, LoopOp(s.workers[t]));
      if x.workers[t].pc.Loop? {
        m := x;
      } else {
        m := ComesRound(x, t);
        GoesOn(s, x, m, t);
        OwnOn(s, x, m, s.workers[t].buf);
      }
    }
  }

  /** A thread need not finish to get out: unless it is bound to go behind the entries it can leave, by itself and
      without touching any buffer but its own. */
  lemma CanLeave(run: seq<State>, k: nat, t: nat) returns (m: State)
    requires IsRun(run) && k < |run| && t < |run[k].workers| && Hopeful(run[k], run[k].workers[t])
    ensures Goes(run[k], m, t) && t < |m.workers| && m.workers[t].pc.Outside?
    ensures OwnOnly(run[k], m, run[k].workers[t].buf)
  {
    var s := run[k];
    RunInv(run, k);
    if s.workers[t].pc.Outside? {
      Stays(s, t);
      m := s;
    } else {
      var x := ComesRound(s, t);
      m := OwnDoes(x, t, Leave);
      GoesOn(s, x, m, t);
      LeavesAlone(x, t);
    }
  }

  lemma LeavesAlone(s: State, t: nat)
    requires t < |s.workers| && s.workers[t].pc.Loop?
    ensures StepOp(s, t, Leave).buffers == s.buffers && StepOp(s, t, Leave).list == s.list
  {
  }

  // ------------------------------------------------------------------ all threads

  ghost predicate AllSteady(s: State) { forall t :: 0 <= t < |s.workers| ==> Steady(s, s.workers[t]) }

  lemma StillSteady(s: State, m: State, t: nat, u: nat)
    requires Inv(s) && Inv(m) && OnlyBy(s, m, t) && u < |s.workers| && u != t && Steady(s, s.workers[u])
    ensures Steady(m, m.workers[u])
  {
    EachWorkerOk(s, u);
    EachWorkerOk(m, u);
  }

  ghost predicate Promising(s: State) { forall t :: 0 <= t < |s.workers| ==> Hopeful(s, s.workers[t]) }

  /** A thread that is about to read free_idx again reads it. */
  lemma Reads(s: State, t: nat) returns (m: State)
    requires Inv(s) && t < |s.workers| && Hopeful(s, s.workers[t])
    ensures Paths.Leads(Works(), s, m) && Inv(m) && |m.workers| == |s.workers| && m.gc == s.gc
    ensures m.buffers == s.buffers && Steady(m, m.workers[t])
    ensures forall u :: 0 <= u < |s.workers| && u != t ==> m.workers[u] == s.workers[u]
  {
    EachWorkerOk(s, t);
    if s.workers[t].pc.Reread? {
      m := Does(s, t, ReadAgain);
    } else {
      Paths.Stay(Works(), s);
      m := s;
    }
  }

  /** First all of them do. */
  lemma ReadAll(s: State) returns (m: State)
    requires Inv(s) && Promising(s)
    ensures Paths.Leads(Works(), s, m) && Inv(m) && AllSteady(m) && |m.workers| == |s.workers| && m.gc == s.gc
  {
    m := s;
    Paths.Stay(Works(), s);
    for t := 0 to |s.workers|
      invariant Paths.Leads(Works(), s, m) && Inv(m) && |m.workers| == |s.workers| && m.gc == s.gc
      invariant m.buffers == s.buffers
      invariant forall u :: 0 <= u < t ==> Steady(m, m.workers[u])
      invariant forall u :: t <= u < |s.workers| ==> Hopeful(m, m.workers[u])
    {
      var x := m;
      m := Reads(x, t);
      Paths.Join(Works(), s, x, m);
      forall u | 0 <= u < |s.workers| && u != t && Hopeful(x, x.workers[u]) ensures Hopeful(m, m.workers[u]) {}
    }
  }

  lemma AllFinish(s: State) returns (m: State)
    requires Inv(s) && AllSteady(s) && |s.workers| > 0
    ensures Paths.Leads(Works(), s, m) && Inv(m) && |m.workers| == |s.workers| && m.gc == s.gc && m.list == []
    ensures forall t :: 0 <= t < |m.workers| ==> AtRest(m.workers[t])
  {
    m := s;
    Paths.Stay(Works(), s);
    for t := 0 to |s.workers|
      invariant Paths.Leads(Works(), s, m) && Inv(m) && |m.workers| == |s.workers| && m.gc == s.gc
      invariant t > 0 ==> m.list == []
      invariant forall u :: 0 <= u < t ==> AtRest(m.workers[u])
      invariant forall u :: t <= u < |s.workers| ==> Steady(m, m.workers[u])
    {
      var x := m;
      m := Finishes(x, t);
      Paths.Join(Works(), s, x, m);
      forall u | t < u < |s.workers| ensures Steady(m, m.workers[u]) { StillSteady(x, m, t, u); }
    }
  }

  /** All threads are outside and every buffer has been released, but for one that the GC thread holds. */
  ghost predicate AllReleased(s: State) {
    && s.list == [] && (forall t :: 0 <= t < |s.workers| ==> AtRest(s.workers[t]))
    && forall b :: b in s.buffers ==> s.gc.Carrying? && s.gc.buf == b
  }

  lemma NobodyHolds(s: State)
    requires Inv(s) && s.list == [] && forall t :: 0 <= t < |s.workers| ==> AtRest(s.workers[t])
    ensures AllReleased(s)
  {
    forall b | b in s.buffers ensures s.gc.Carrying? && s.gc.buf == b { HoldersPositive(s.workers, b); }
  }

  lemma ReleasesAll(s: State) returns (m: State)
    requires Inv(s) && Promising(s) && |s.workers| > 0
    ensures Paths.Leads(Works(), s, m) && Inv(m) && AllReleased(m) && |m.workers| == |s.workers| && m.gc == s.gc
  {
    var x := ReadAll(s);
    m := AllFinish(x);
    Paths.Join(Works(), s, x, m);
    NobodyHolds(m);
  }

  // ------------------------------------------------------------------ and otherwise they cannot

  /** Worker t is behind the last entry of its buffer or bound to go there. */
  ghost predicate Stuck(s: State, t: nat) {
    t < |s.workers| && HasBuffer(s, s.workers[t]) && !Hopeful(s, s.workers[t])
  }

  lemma StuckOwn(s: State, t: nat, op: Op)
    requires Stuck(s, t) && EnabledOp(s, s.workers[t], op)
    requires WorkerOk(s.buffers, s.list, s.workers[t]) && InBounds(s, s.workers[t])
    ensures Stuck(StepOp(s, t, op), t)
  {
  }

  /** What has been claimed stays claimed. */
  lemma OtherStep(s: State, u: nat, op: Op, b: BufId)
    requires u < |s.workers| && EnabledOp(s, s.workers[u], op) && b in s.buffers && b in StepOp(s, u, op).buffers
    requires s.buffers[b].freeIdx >= |s.buffers[b].slots|
    requires s.workers[u].pc.Cas? ==> s.workers[u].pc.seen <= s.buffers[s.workers[u].buf.value].freeIdx
    ensures StepOp(s, u, op).buffers[b].freeIdx >= |s.buffers[b].slots|
  {
  }

  lemma StuckStays(s: State, t: nat, u: nat, op: Op)
    requires Inv(s) && Stuck(s, t) && u < |s.workers| && EnabledOp(s, s.workers[u], op) && Inv(StepOp(s, u, op))
    ensures Stuck(StepOp(s, u, op), t)
  {
    EachWorkerOk(s, u);
    if u == t {
      StuckOwn(s, t, op);
    } else {
      OpOnly(s, u, op);
      StillStuck(s, StepOp(s, u, op), t, u, op);
    }
  }

  lemma StillStuck(s: State, m: State, t: nat, u: nat, op: Op)
    requires Inv(m) && Stuck(s, t) && u < |s.workers| && u != t && EnabledOp(s, s.workers[u], op)
    requires m == StepOp(s, u, op) && OnlyBy(s, m, u)
    requires s.workers[u].pc.Cas? ==> s.workers[u].pc.seen <= s.buffers[s.workers[u].buf.value].freeIdx
    ensures Stuck(m, t)
  {
    EachWorkerOk(m, t);
    var b := s.workers[t].buf.value;
    if s.buffers[b].freeIdx >= |s.buffers[b].slots| { OtherStep(s, u, op, b); }
  }

  lemma StuckLeads(s: State, m: State, t: nat)
    requires Inv(s) && Stuck(s, t) && Paths.Leads(Works(), s, m)
    ensures Stuck(m, t)
  {
    var inv := (x: State) => Inv(x) && Stuck(x, t);
    forall x, y | inv(x) && WorkerNext(x, y) ensures inv(y) {
      var u: nat, op: Op :| u < |x.workers| && EnabledOp(x, x.workers[u], op) && y == StepOp(x, u, op);
      StepInv(x, By(u, op));
      StuckStays(x, t, u, op);
    }
    Paths.Keeps(Works(), inv, s, m);
  }

  lemma NotPromising(s: State) returns (t: nat)
    requires Inv(s) && !Promising(s)
    ensures Stuck(s, t)
  {
    t :| t < |s.workers| && !Hopeful(s, s.workers[t]);
    EachWorkerOk(s, t);
  }

  /** In every state of every run with some thread, the threads can go on, by themselves, until every buffer is
      exhausted, unlinked and released, if and only if no thread has gone or is bound to go behind the last
      entry of a buffer. */
  lemma AllCanBeReleasedIff(run: seq<State>, k: nat)
    requires IsRun(run) && k < |run| && |run[k].workers| > 0
    ensures Promising(run[k]) <==> exists m :: Paths.Leads(Works(), run[k], m) && AllReleased(m)
  {
    RunInv(run, k);
    if Promising(run[k]) {
      var m := ReleasesAll(run[k]);
    } else {
      var t := NotPromising(run[k]);
      forall m | Paths.Leads(Works(), run[k], m) ensures !AllReleased(m) { StuckLeads(run[k], m, t); }
    }
  }
}
