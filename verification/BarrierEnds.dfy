/** The handshake can always be completed: whatever the threads are doing, the world can be stopped, and after
    the snapshot every thread can go on. */
module BarrierEnds {
  import opened Barrier
  import Paths

  ghost function Steps(): (State, State) -> bool { (s, t) => Next(s, t) }

  lemma LeadsInv(s: State, t: State)
    requires Inv(s) && Paths.Leads(Steps(), s, t)
    ensures Inv(t)
  {
    forall x, y | Inv(x) && Next(x, y) ensures Inv(y) { NextInv(x, y); }
    Paths.Keeps(Steps(), x => Inv(x), s, t);
  }

  lemma Does(s: State, a: Action)
    requires Enabled(s, a)
    ensures Next(s, Step(s, a)) && Paths.Leads(Steps(), s, Step(s, a))
  {
    Paths.One(Steps(), s, Step(s, a));
  }

  // ------------------------------------------------------------------ one thread

  /** What a thread does next to answer its signal: it leaves an earlier wait, takes the signal, finishes its
      section, and acknowledges. */
  function Move(t: Thread): ThreadAction {
    match t.handler
    case HReading => HandlerReads
    case HAcking(_) => HandlerAcks
    case HParked(_) => HandlerLeaves
    case Off =>
      if t.pending then Deliver
      else match t.pc
        case Section => Leave
        case After => Test
        case Clearing => Clear
        case Reading => Reads
        case _ => Acks
  }

  function Rank(t: Thread): nat {
    match t.handler
    case HAcking(_) => 1
    case HReading => 2
    case HParked(_) => 4
    case Off =>
      if t.pending then (if t.pc.Section? then 6 else 3)
      else match t.pc
        case Section => 5
        case After => 4
        case Clearing => 3
        case Reading => 2
        case _ => 1
  }

  lemma MoveAnswers(t: Thread, counter: nat)
    requires ThreadInv(t, counter, true) && !Stopped(t, counter)
    ensures ThreadEnabled(t, Move(t), counter)
    ensures var t' := ThreadStep(t, Move(t), counter); Stopped(t', counter) || Rank(t') < Rank(t)
  {
  }

  /** Only thread i has moved. */
  ghost predicate OnlyBy(s: State, t: State, i: nat) {
    && i < |s.threads| == |t.threads| && t.gc == s.gc && t.counter == s.counter
    && forall j :: 0 <= j < |s.threads| && j != i ==> t.threads[j] == s.threads[j]
  }

  /** A thread that has been signalled can go on until it is parked. */
  lemma {:induction false} Stops(s: State, i: nat) returns (t: State)
    requires Inv(s) && i < |s.threads| && i < Sent(s.gc, |s.threads|)
    ensures Paths.Leads(Steps(), s, t) && OnlyBy(s, t, i) && Stopped(t.threads[i], t.counter)
    decreases Rank(s.threads[i])
  {
    if Stopped(s.threads[i], s.counter) {
      Paths.Stay(Steps(), s);
      t := s;
    } else {
      assert ThreadInv(s.threads[i], s.counter, true);
      MoveAnswers(s.threads[i], s.counter);
      var a := ByThread(i, Move(s.threads[i]));
      var m := Step(s, a);
      Does(s, a);
      if Stopped(m.threads[i], m.counter) {
        t := m;
      } else {
        StepInv(s, a);
        t := Stops(m, i);
        Paths.Join(Steps(), s, m, t);
      }
    }
  }

  // ------------------------------------------------------------------ stopping the world

  lemma {:induction false} AllCounted(ts: seq<Thread>, counter: nat)
    requires forall i :: 0 <= i < |ts| ==> Stopped(ts[i], counter)
    ensures StoppedCount(ts, counter) == |ts|
  {
    if ts != [] { AllCounted(ts[..|ts| - 1], counter); }
  }

  lemma AllStop(s: State) returns (t: State)
    requires Inv(s) && s.gc.Waiting?
    ensures Paths.Leads(Steps(), s, t) && t.gc.Waiting? && t.counter == s.counter && |t.threads| == |s.threads|
    ensures forall i :: 0 <= i < |t.threads| ==> Stopped(t.threads[i], t.counter)
  {
    t := s;
    Paths.Stay(Steps(), s);
    for i := 0 to |s.threads|
      invariant Paths.Leads(Steps(), s, t) && t.gc.Waiting? && t.counter == s.counter && |t.threads| == |s.threads|
      invariant forall j :: 0 <= j < i ==> Stopped(t.threads[j], t.counter)
    {
      var m := t;
      LeadsInv(s, m);
      t := Stops(m, i);
      Paths.Join(Steps(), s, m, t);
    }
  }

  lemma WaitEnds(s: State) returns (t: State)
    requires Inv(s) && s.gc.Waiting?
    ensures Paths.Leads(Steps(), s, t) && t.gc.Snapshot? && t.counter == s.counter && |t.threads| == |s.threads|
  {
    var m := AllStop(s);
    LeadsInv(s, m);
    AllCounted(m.threads, m.counter);
    t := Step(m, SeesAll);
    Does(m, SeesAll);
    Paths.Join(Steps(), s, m, t);
  }

  lemma {:induction false} SignalsAll(s: State) returns (t: State)
    requires Inv(s) && s.gc.Signalling?
    ensures Paths.Leads(Steps(), s, t) && t.gc.Waiting? && t.counter == s.counter && |t.threads| == |s.threads|
    decreases |s.threads| - s.gc.k
  {
    if s.gc.k == |s.threads| {
      t := Step(s, Signalled);
      Does(s, Signalled);
    } else {
      var m := Step(s, Signal);
      Does(s, Signal);
      StepInv(s, Signal);
      t := SignalsAll(m);
      Paths.Join(Steps(), s, m, t);
    }
  }

  lemma SignallingEnds(s: State) returns (t: State)
    requires Inv(s) && s.gc.Signalling?
    ensures Paths.Leads(Steps(), s, t) && t.gc.Snapshot? && t.counter == s.counter && |t.threads| == |s.threads|
  {
    var m := SignalsAll(s);
    LeadsInv(s, m);
    t := WaitEnds(m);
    Paths.Join(Steps(), s, m, t);
  }

  lemma ToSnapshot(s: State) returns (t: State)
    requires Inv(s)
    ensures Paths.Leads(Steps(), s, t) && t.gc.Snapshot? && t.counter == s.counter && |t.threads| == |s.threads|
  {
    match s.gc
    case Idle =>
      var m := Step(s, Start);
      Does(s, Start);
      StepInv(s, Start);
      t := SignallingEnds(m);
      Paths.Join(Steps(), s, m, t);
    case Signalling(_) => t := SignallingEnds(s);
    case Waiting => t := WaitEnds(s);
    case Snapshot =>
      Paths.Stay(Steps(), s);
      t := s;
  }

  /** From every state of every run the round under way, or the next, can come to its snapshot. */
  lemma SnapshotCanBeReached(run: seq<State>, k: nat) returns (t: State)
    requires IsRun(run) && k < |run|
    ensures Paths.Leads(Steps(), run[k], t) && t.gc.Snapshot? && t.counter == run[k].counter
  {
    RunInv(run, k);
    t := ToSnapshot(run[k]);
  }

  // ------------------------------------------------------------------ starting it again

  /** The GC thread's own step out of the snapshot, or a step of a thread; no new round. */
  ghost predicate ResumeNext(s: State, t: State) {
    exists a: Action :: (a.Bump? || a.ByThread?) && Enabled(s, a) && t == Step(s, a)
  }

  ghost function Resuming(): (State, State) -> bool { (s, t) => ResumeNext(s, t) }

  predicate Free(t: Thread) { t.pc.User? && t.handler.Off? && !t.pending && !t.waitingToFork }

  function Leaving(t: Thread): ThreadAction {
    if t.handler.HParked? then HandlerLeaves
    else if t.pc.Parked? then Resumes
    else if t.pc.Section? then Leave
    else Test
  }

  function ToLeave(t: Thread): nat {
    (if t.handler.Off? then 0 else 3) + (match t.pc case User => 0 case After => 1 case _ => 2)
  }

  lemma LeavingGoesOn(t: Thread, counter: nat)
    requires ThreadInv(t, counter, false) && !Free(t)
    ensures ThreadEnabled(t, Leaving(t), counter) && ToLeave(ThreadStep(t, Leaving(t), counter)) < ToLeave(t)
  {
  }

  /** Between rounds a thread can go on until it is back in the program's code. */
  lemma {:induction false} GoesOn(s: State, i: nat) returns (t: State)
    requires Inv(s) && s.gc.Idle? && i < |s.threads|
    ensures Paths.Leads(Resuming(), s, t) && OnlyBy(s, t, i) && Free(t.threads[i]) && Inv(t)
    decreases ToLeave(s.threads[i])
  {
    if Free(s.threads[i]) {
      Paths.Stay(Resuming(), s);
      t := s;
    } else {
      assert ThreadInv(s.threads[i], s.counter, false);
      LeavingGoesOn(s.threads[i], s.counter);
      var a := ByThread(i, Leaving(s.threads[i]));
      StepInv(s, a);
      t := GoesOn(Step(s, a), i);
      assert ResumeNext(s, Step(s, a));
      Paths.First(Resuming(), s, Step(s, a), t);
    }
  }

  lemma AllGoOn(s: State) returns (t: State)
    requires Inv(s) && s.gc.Idle?
    ensures Paths.Leads(Resuming(), s, t) && t.gc.Idle? && t.counter == s.counter && |t.threads| == |s.threads|
    ensures Inv(t) && forall i :: 0 <= i < |t.threads| ==> Free(t.threads[i])
  {
    t := s;
    Paths.Stay(Resuming(), s);
    for i := 0 to |s.threads|
      invariant Paths.Leads(Resuming(), s, t) && t.gc.Idle? && t.counter == s.counter && |t.threads| == |s.threads|
      invariant Inv(t) && forall j :: 0 <= j < i ==> Free(t.threads[j])
    {
      var m := t;
      t := GoesOn(m, i);
      Paths.Join(Resuming(), s, m, t);
    }
  }

  lemma Restarts(s: State) returns (t: State)
    requires Inv(s) && s.gc.Snapshot?
    ensures Paths.Leads(Resuming(), s, t) && t.gc.Idle? && t.counter == s.counter + 1 && |t.threads| == |s.threads|
    ensures Inv(t) && forall i :: 0 <= i < |t.threads| ==> Free(t.threads[i])
  {
    var m := Step(s, Bump);
    StepInv(s, Bump);
    t := AllGoOn(m);
    assert ResumeNext(s, m);
    Paths.First(Resuming(), s, m, t);
  }

  /** After the snapshot the world starts again: the GC thread bumps the counter, and every thread, also one that
      acknowledged late after its section, leaves its wait and is back in the program's code, with no other round
      begun. */
  lemma WorldStartsAgain(run: seq<State>, k: nat) returns (t: State)
    requires IsRun(run) && k < |run| && run[k].gc.Snapshot?
    ensures Paths.Leads(Resuming(), run[k], t) && t.gc.Idle? && t.counter == run[k].counter + 1
    ensures |t.threads| == |run[k].threads| && forall i :: 0 <= i < |t.threads| ==> Free(t.threads[i])
  {
    RunInv(run, k);
    t := Restarts(run[k]);
  }

  lemma ResumingSteps(s: State, t: State)
    requires Paths.Leads(Resuming(), s, t)
    ensures Paths.Leads(Steps(), s, t)
  {
    Paths.Wider(Resuming(), Steps(), s, t);
  }

  /** From every state of every run a given thread can come to enter a section of the allocator. */
  lemma SectionCanBeEntered(run: seq<State>, k: nat, i: nat) returns (t: State)
    requires IsRun(run) && k < |run| && i < |run[k].threads|
    ensures Paths.Leads(Steps(), run[k], t) && |t.threads| == |run[k].threads| && t.threads[i].pc.Section?
  {
    RunInv(run, k);
    var x := ToSnapshot(run[k]);
    LeadsInv(run[k], x);
    var y := Restarts(x);
    ResumingSteps(x, y);
    Paths.Join(Steps(), run[k], x, y);
    t := Step(y, ByThread(i, Enter));
    Does(y, ByThread(i, Enter));
    Paths.Join(Steps(), run[k], y, t);
  }
}
