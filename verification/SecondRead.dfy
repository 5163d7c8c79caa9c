/** When the double read of free_idx (util.c:250 and 257) does harm: exactly when more than one thread
    frees. */
module SecondRead {
  import opened Words
  import opened Retirees

  // ------------------------------------------------------------------ one thread

  /** What a thread that frees alone has read of free_idx still holds. */
  ghost predicate Alone(s: State, w: Worker) {
    HasBuffer(s, w) ==>
      var buf := s.buffers[w.buf.value];
      && (w.pc.Reread? ==> buf.freeIdx < |buf.slots|)
      && (w.pc.Cas? ==> w.pc.seen == buf.freeIdx < |buf.slots|)
  }

  ghost predicate AllAlone(s: State) { forall t :: 0 <= t < |s.workers| ==> Alone(s, s.workers[t]) }

  lemma OpAlone(s: State, t: nat, op: Op)
    requires AllAlone(s) && t < |s.workers| <= 1 && EnabledOp(s, s.workers[t], op)
    ensures AllAlone(StepOp(s, t, op))
  {
    assert t == 0 && Alone(s, s.workers[0]);
  }

  lemma GcAlone(s: State, a: Action)
    requires AllAlone(s) && Enabled(s, a) && !a.By? && WorkersOk(s)
    ensures AllAlone(Step(s, a))
  {
    forall t | 0 <= t < |Step(s, a).workers| ensures Alone(Step(s, a), Step(s, a).workers[t]) {
      assert Alone(s, s.workers[t]) && WorkerOk(s.buffers, s.list, s.workers[t]);
    }
  }

  lemma StepCrew(s: State, a: Action)
    requires Enabled(s, a)
    ensures |Step(s, a).workers| == |s.workers|
  {
  }

  lemma NextAlone(s: State, t: State)
    requires Inv(s) && Next(s, t)
    ensures |t.workers| == |s.workers|
    ensures |s.workers| <= 1 && AllAlone(s) ==> AllAlone(t)
  {
    var a :| Enabled(s, a) && t == Step(s, a);
    StepCrew(s, a);
    if |s.workers| <= 1 && AllAlone(s) {
      if a.By? { OpAlone(s, a.t, a.op); } else { GcAlone(s, a); }
    }
  }

  lemma AloneInRange(s: State)
    requires AllAlone(s)
    ensures SecondReadsInRange(s)
  {
    forall t | 0 <= t < |s.workers| && s.workers[t].pc.Cas? && HasBuffer(s, s.workers[t])
      ensures s.workers[t].pc.seen < |s.buffers[s.workers[t].buf.value].slots|
    {
      assert Alone(s, s.workers[t]);
    }
  }

  /** With one thread every second read of free_idx finds entries left. */
  lemma {:induction false} OneThreadHits(run: seq<State>, k: nat)
    requires IsRun(run) && k < |run| && |run[0].workers| <= 1
    ensures |run[k].workers| == |run[0].workers| && AllAlone(run[k]) && SecondReadsHit(run, k)
  {
    if k > 0 {
      OneThreadHits(run, k - 1);
      RunInv(run, k - 1);
      AloneInRange(run[k - 1]);
      assert NextAt(run, k);
      NextAlone(run[k - 1], run[k]);
    }
  }

  // ------------------------------------------------------------------ two threads or more

  const IDLE := Worker(None, 0, 0, Outside)

  /** Two threads at work on the only buffer, and n - 2 that are not. */
  function Crew(v: Worker, w: Worker, n: nat): (q: seq<Worker>)
    requires n >= 2
    ensures |q| == n && q[0] == v && q[1] == w
  {
    [v, w] + seq(n - 2, _ => IDLE)
  }

  function Listed(freeIdx: nat, refs: int, v: Worker, w: Worker, n: nat): State
    requires n >= 2
  {
    State(map[7 := Buffer([Live(8)], freeIdx, refs)], [7], Some(7), Crew(v, w, n), Carrying(7, 0))
  }

  function Doing(pc: Pc): Worker { Worker(Some(7), 0, 0, pc) }

  lemma CrewChanges(v: Worker, w: Worker, x: Worker, n: nat)
    requires n >= 2
    ensures Crew(v, w, n)[0 := x] == Crew(x, w, n) && Crew(v, w, n)[1 := x] == Crew(v, x, n)
  {
  }

  /** A step of the first thread, and one of the second. */
  lemma First(run: seq<State>, s: State, op: Op, t: State) returns (longer: seq<State>)
    requires IsRun(run) && run[|run| - 1] == s && |s.workers| > 0 && EnabledOp(s, s.workers[0], op)
    requires t == StepOp(s, 0, op)
    ensures IsRun(longer) && longer[|longer| - 1] == t
  {
    longer := Extend(run, By(0, op));
  }

  lemma Second(run: seq<State>, s: State, op: Op, t: State) returns (longer: seq<State>)
    requires IsRun(run) && run[|run| - 1] == s && |s.workers| > 1 && EnabledOp(s, s.workers[1], op)
    requires t == StepOp(s, 1, op)
    ensures IsRun(longer) && longer[|longer| - 1] == t
  {
    longer := Extend(run, By(1, op));
  }

  lemma BothEntered(n: nat) returns (run: seq<State>)
    requires n >= 2
    ensures IsRun(run) && run[|run| - 1] == Listed(0, 1, IDLE.(pc := Loop), IDLE.(pc := Loop), n)
  {
    run := [State(map[], [], None, Crew(IDLE, IDLE, n), Resting)];
    run := Extend(run, Publish(7, [Live(8)]));
    CrewChanges(IDLE, IDLE, IDLE.(pc := Loop), n);
    CrewChanges(IDLE.(pc := Loop), IDLE, IDLE.(pc := Loop), n);
    run := First(run, Listed(0, 1, IDLE, IDLE, n), Enter, Listed(0, 1, IDLE.(pc := Loop), IDLE, n));
    run := Second(run, Listed(0, 1, IDLE.(pc := Loop), IDLE, n), Enter,
                  Listed(0, 1, IDLE.(pc := Loop), IDLE.(pc := Loop), n));
  }

  lemma BothHold(n: nat) returns (run: seq<State>)
    requires n >= 2
    ensures IsRun(run) && run[|run| - 1] == Listed(0, 3, Doing(Check), Doing(Check), n)
  {
    var loop := IDLE.(pc := Loop);
    run := BothEntered(n);
    CrewChanges(loop, loop, Doing(Check), n);
    CrewChanges(Doing(Check), loop, Doing(Check), n);
    run := First(run, Listed(0, 1, loop, loop, n), Get, Listed(0, 2, Doing(Check), loop, n));
    run := Second(run, Listed(0, 2, Doing(Check), loop, n), Get, Listed(0, 3, Doing(Check), Doing(Check), n));
  }

  /** Two workers have passed the check at line 250 for the only entry of a buffer. */
  lemma BothChecked(n: nat) returns (run: seq<State>)
    requires n >= 2
    ensures IsRun(run) && run[|run| - 1] == Listed(0, 3, Doing(Reread), Doing(Reread), n)
  {
    run := BothHold(n);
    CrewChanges(Doing(Check), Doing(Check), Doing(Reread), n);
    CrewChanges(Doing(Reread), Doing(Check), Doing(Reread), n);
    run := First(run, Listed(0, 3, Doing(Check), Doing(Check), n), Examine,
                 Listed(0, 3, Doing(Reread), Doing(Check), n));
    run := Second(run, Listed(0, 3, Doing(Reread), Doing(Check), n), Examine,
                  Listed(0, 3, Doing(Reread), Doing(Reread), n));
  }

  lemma FirstClaims(n: nat) returns (run: seq<State>)
    requires n >= 2
    ensures IsRun(run) && run[|run| - 1] == Listed(1, 3, Worker(Some(7), 0, 1, Take), Doing(Reread), n)
  {
    run := BothChecked(n);
    CrewChanges(Doing(Reread), Doing(Reread), Doing(Cas(0)), n);
    CrewChanges(Doing(Cas(0)), Doing(Reread), Worker(Some(7), 0, 1, Take), n);
    run := First(run, Listed(0, 3, Doing(Reread), Doing(Reread), n), ReadAgain,
                 Listed(0, 3, Doing(Cas(0)), Doing(Reread), n));
    run := First(run, Listed(0, 3, Doing(Cas(0)), Doing(Reread), n), TryClaim,
                 Listed(1, 3, Worker(Some(7), 0, 1, Take), Doing(Reread), n));
  }

  /** The failure: the second worker reads free_idx again after the first has claimed the last range. */
  lemma SecondReadCanFault(n: nat) returns (run: seq<State>)
    requires n >= 2
    ensures IsRun(run) && |run[0].workers| == |run[|run| - 1].workers| == n && run[|run| - 1].workers[1].pc.Fault?
  {
    var v := Worker(Some(7), 0, 1, Take);
    run := FirstClaims(n);
    CrewChanges(v, Doing(Reread), Doing(Cas(1)), n);
    CrewChanges(v, Doing(Cas(1)), Worker(Some(7), 1, 1, Take), n);
    CrewChanges(v, Worker(Some(7), 1, 1, Take), Worker(Some(7), 1, 1, Fault), n);
    run := Second(run, Listed(1, 3, v, Doing(Reread), n), ReadAgain, Listed(1, 3, v, Doing(Cas(1)), n));
    run := Second(run, Listed(1, 3, v, Doing(Cas(1)), n), TryClaim, Listed(1, 3, v, Worker(Some(7), 1, 1, Take), n));
    run := Second(run, Listed(1, 3, v, Worker(Some(7), 1, 1, Take), n), TakeSlot,
                  Listed(1, 3, v, Worker(Some(7), 1, 1, Fault), n));
    SameCrew(run, |run| - 1);
  }

  lemma {:induction false} SameCrew(run: seq<State>, k: nat)
    requires IsRun(run) && k < |run|
    ensures |run[k].workers| == |run[0].workers|
  {
    if k > 0 {
      SameCrew(run, k - 1);
      RunInv(run, k - 1);
      assert NextAt(run, k);
      NextAlone(run[k - 1], run[k]);
    }
  }

  // ------------------------------------------------------------------ the theorem

  /** Every run with n threads stays inside the entries of the buffers if and only if n is at most 1. */
  lemma FaultlessIff(n: nat)
    ensures n <= 1 <==>
      forall run: seq<State>, k: nat :: IsRun(run) && |run[0].workers| == n && k < |run| ==> Faultless(run[k])
  {
    if n <= 1 {
      forall run: seq<State>, k: nat | IsRun(run) && |run[0].workers| == n && k < |run| ensures Faultless(run[k]) {
        OneThreadHits(run, k);
        InRangeRunIsFaultless(run, k);
      }
    } else {
      var run := SecondReadCanFault(n);
      assert !Faultless(run[|run| - 1]);
    }
  }
}
