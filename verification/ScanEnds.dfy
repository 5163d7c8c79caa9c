/** A scan can always be brought to its end: whatever the siblings have done so far, each can go on until it
    has reported, and then the parent has been told. */
module ScanEnds {
  import opened Words
  import opened ParallelScan
  import Paths

  ghost function Steps(c: Config): (State, State) -> bool
    requires c.snap.Valid()
  {
    (s, t) => Next(c, s, t)
  }

  function Remaining(sn: Snapshot, f: Frame): nat {
    1 + if f.block in sn.words && f.next <= |sn.words[f.block]| then |sn.words[f.block]| - f.next else 0
  }

  /** What is left to do of the activations on a stack. */
  function Left(sn: Snapshot, q: seq<Frame>): nat {
    if q == [] then 0 else Left(sn, q[..|q| - 1]) + Remaining(sn, q[|q| - 1])
  }

  function Unclaimed(c: Config, s: State): nat {
    if s.rootCounter < |c.snap.ranges| then |c.snap.ranges| - s.rootCounter else 0
  }

  function Unmarked(c: Config, s: State): nat { |c.snap.tracked - s.marked| }

  function Rank(p: Phase): nat {
    match p
    case Scanning(_, _) => 3
    case Claiming => 2
    case Draining => 1
    case Reported(_) => 0
  }

  function Ahead(c: Config, p: Phase): nat {
    if p.Scanning? && p.rid < |c.snap.ranges| && p.pos <= |c.snap.ranges[p.rid]|
    then |c.snap.ranges[p.rid]| - p.pos else 0
  }

  /** The target that is about to be marked is not marked yet. */
  predicate Fresh(s: State, b: Sibling) { b.pending.Some? ==> b.pending.value !in s.marked }

  /** What a sibling does next: it finishes its marking, claims and batches all ranges, and empties its batch
      at the end. */
  function Move(c: Config, b: Sibling): Action
    requires c.snap.Valid()
  {
    if b.pending.Some? then Write
    else if b.stack != [] then
      if Top(b).block in c.snap.tracked && Top(b).next < |c.snap.words[Top(b).block]| then Test else Return
    else match b.phase
      case Claiming => Claim
      case Scanning(_, _) => if Ahead(c, b.phase) > 0 then Batch else EndRange
      case _ => if b.lookaside != [] then Take(0) else Report
  }

  lemma MoveEnabled(c: Config, s: State, i: nat)
    requires c.snap.Valid() && i < |s.sibs| && SiblingOk(c, s, s.sibs[i]) && !s.sibs[i].phase.Reported?
    ensures Enabled(c, s, i, Move(c, s.sibs[i]))
  {
    var b := s.sibs[i];
    if b.stack != [] { assert FrameOk(c, s, b.stack[|b.stack| - 1]); }
  }

  /** Marking goes on: fewer blocks are unmarked, or the batch is shorter, or a target has been found, or
      less is left of the activations. */
  ghost predicate Marks(c: Config, s: State, t: State, b: Sibling, b': Sibling) {
    || Unmarked(c, t) < Unmarked(c, s)
    || (t.marked == s.marked
        && (|b'.lookaside| < |b.lookaside|
            || (b'.lookaside == b.lookaside
                && ((b.pending.None? && b'.pending.Some?)
                    || (b'.pending == b.pending && Left(c.snap, b'.stack) < Left(c.snap, b.stack))))))
  }

  /** The scan of the roots goes on. */
  ghost predicate Scans(c: Config, s: State, t: State, b: Sibling, b': Sibling) {
    || Unclaimed(c, t) < Unclaimed(c, s)
    || (Unclaimed(c, t) == Unclaimed(c, s)
        && (Rank(b'.phase) < Rank(b.phase)
            || (Rank(b'.phase) == Rank(b.phase) && Ahead(c, b'.phase) < Ahead(c, b.phase))))
  }

  lemma LeftAdvances(sn: Snapshot, b: Sibling)
    requires b.stack != [] && Top(b).block in sn.words && Top(b).next < |sn.words[Top(b).block]|
    ensures Left(sn, Advanced(b)) < Left(sn, b.stack)
  {
    assert Advanced(b)[..|b.stack| - 1] == b.stack[..|b.stack| - 1];
  }

  lemma FewerUnmarked(c: Config, s: State, t: State, x: Addr)
    requires x in c.snap.tracked && x !in s.marked && t.marked == s.marked + {x}
    ensures Unmarked(c, t) < Unmarked(c, s)
  {
    assert c.snap.tracked - s.marked == (c.snap.tracked - t.marked) + {x};
  }

  /** A move while there is marking to do. */
  lemma MarkingMove(c: Config, s: State, i: nat)
    requires c.snap.Valid() && i < |s.sibs| && SiblingOk(c, s, s.sibs[i]) && !s.sibs[i].phase.Reported?
    requires Fresh(s, s.sibs[i]) && !s.sibs[i].Idle() && Enabled(c, s, i, Move(c, s.sibs[i]))
    ensures var t := Step(c, s, i, Move(c, s.sibs[i]));
      && t.sibs[i].phase == s.sibs[i].phase && t.rootCounter == s.rootCounter
      && Marks(c, s, t, s.sibs[i], t.sibs[i]) && Fresh(t, t.sibs[i])
  {
    var b := s.sibs[i];
    if b.pending.Some? {
      FewerUnmarked(c, s, Step(c, s, i, Write), b.pending.value);
    } else if Top(b).next < |c.snap.words[Top(b).block]| {
      LeftAdvances(c.snap, b);
    }
  }

  lemma TakingMove(c: Config, s: State, i: nat)
    requires c.snap.Valid() && i < |s.sibs| && s.sibs[i].Idle() && s.sibs[i].phase.Draining?
    requires s.sibs[i].lookaside != []
    ensures Enabled(c, s, i, Take(0)) && Move(c, s.sibs[i]) == Take(0)
    ensures var t := Step(c, s, i, Take(0));
      && t.sibs[i].phase == s.sibs[i].phase && t.rootCounter == s.rootCounter
      && Marks(c, s, t, s.sibs[i], t.sibs[i]) && Fresh(t, t.sibs[i])
  {
  }

  /** A move while there is none. */
  lemma ScanningMove(c: Config, s: State, i: nat)
    requires c.snap.Valid() && i < |s.sibs| && SiblingOk(c, s, s.sibs[i]) && !s.sibs[i].phase.Reported?
    requires s.sibs[i].Idle() && (s.sibs[i].phase.Draining? ==> s.sibs[i].lookaside == [])
    requires Enabled(c, s, i, Move(c, s.sibs[i]))
    ensures var t := Step(c, s, i, Move(c, s.sibs[i]));
      Scans(c, s, t, s.sibs[i], t.sibs[i]) && Fresh(t, t.sibs[i])
  {
  }

  /** One move of a sibling that has not reported. */
  lemma OneMove(c: Config, s: State, i: nat) returns (t: State)
    requires c.snap.Valid() && Inv(c, s) && i < |s.sibs| && Fresh(s, s.sibs[i]) && !s.sibs[i].phase.Reported?
    ensures Next(c, s, t) && Inv(c, t) && |t.sibs| == |s.sibs| && t.sibs == s.sibs[i := t.sibs[i]]
    ensures Fresh(t, t.sibs[i])
    ensures Scans(c, s, t, s.sibs[i], t.sibs[i])
         || (t.sibs[i].phase == s.sibs[i].phase && t.rootCounter == s.rootCounter
             && Marks(c, s, t, s.sibs[i], t.sibs[i]))
  {
    var b := s.sibs[i];
    assert SiblingOk(c, s, b);
    MoveEnabled(c, s, i);
    if !b.Idle() { MarkingMove(c, s, i); }
    else if b.phase.Draining? && b.lookaside != [] { TakingMove(c, s, i); }
    else { ScanningMove(c, s, i); }
    t := Step(c, s, i, Move(c, b));
    StepInv(c, s, i, Move(c, b));
  }

  /** One sibling, going on alone, comes to its report. */
  lemma {:induction false} Reports(c: Config, s: State, i: nat) returns (t: State)
    requires c.snap.Valid() && Inv(c, s) && i < |s.sibs| && Fresh(s, s.sibs[i])
    ensures Paths.Leads(Steps(c), s, t) && |t.sibs| == |s.sibs| && t.sibs == s.sibs[i := t.sibs[i]]
    ensures t.sibs[i].phase.Reported?
    decreases Unclaimed(c, s), Rank(s.sibs[i].phase), Ahead(c, s.sibs[i].phase), Unmarked(c, s),
              |s.sibs[i].lookaside|, if s.sibs[i].pending.Some? then 0 else 1, Left(c.snap, s.sibs[i].stack)
  {
    if s.sibs[i].phase.Reported? {
      Paths.Stay(Steps(c), s);
      t := s;
    } else {
      var m := OneMove(c, s, i);
      t := Reports(c, m, i);
      Paths.First(Steps(c), s, m, t);
    }
  }

  /** So does one whose target has been marked by another in the meantime. */
  lemma ReportsAfterRace(c: Config, s: State, i: nat) returns (t: State)
    requires c.snap.Valid() && Inv(c, s) && i < |s.sibs|
    ensures Paths.Leads(Steps(c), s, t) && |t.sibs| == |s.sibs| && t.sibs == s.sibs[i := t.sibs[i]]
    ensures t.sibs[i].phase.Reported?
  {
    if Fresh(s, s.sibs[i]) {
      t := Reports(c, s, i);
    } else {
      assert SiblingOk(c, s, s.sibs[i]);
      var m := Step(c, s, i, Write);
      StepInv(c, s, i, Write);
      t := Reports(c, m, i);
      assert Next(c, s, m);
      Paths.First(Steps(c), s, m, t);
    }
  }

  lemma LeadsMeets(c: Config, s: State, t: State)
    requires c.snap.Valid() && Meets(c, s) && Paths.Leads(Steps(c), s, t)
    ensures Meets(c, t)
  {
    forall x, y | Meets(c, x) && Next(c, x, y) ensures Meets(c, y) { NextMeets(c, x, y); }
    Paths.Keeps(Steps(c), x => Meets(c, x), s, t);
  }

  /** All come to their reports. */
  lemma AllReport(c: Config, s: State) returns (t: State)
    requires c.snap.Valid() && Meets(c, s)
    ensures Paths.Leads(Steps(c), s, t) && |t.sibs| == |s.sibs|
    ensures forall i :: 0 <= i < |t.sibs| ==> t.sibs[i].phase.Reported?
  {
    t := s;
    Paths.Stay(Steps(c), s);
    for i := 0 to |s.sibs|
      invariant Paths.Leads(Steps(c), s, t) && |t.sibs| == |s.sibs|
      invariant forall j :: 0 <= j < i ==> t.sibs[j].phase.Reported?
    {
      var m := t;
      LeadsMeets(c, s, m);
      t := ReportsAfterRace(c, m, i);
      Paths.Join(Steps(c), s, m, t);
    }
  }

  /** From every state of every run, with either recursion, the siblings can go on until all have reported and
      the parent has been told. */
  lemma EveryScanCanEnd(c: Config, run: seq<State>, k: nat) returns (t: State)
    requires c.snap.Valid() && IsRun(c, run) && k < |run|
    ensures Paths.Leads(Steps(c), run[k], t) && t.notifications > 0 && |t.sibs| == |run[k].sibs|
    ensures forall i :: 0 <= i < |t.sibs| ==> t.sibs[i].phase.Reported?
  {
    RunMeets(c, run, k);
    t := AllReport(c, run[k]);
    LeadsMeets(c, run[k], t);
    AllReported(c, t);
  }
}
