/** The scan of one snapshot by racing sibling processes: claiming of ranges, batching of root
    words, marking with test and write as separate steps, and the completion protocol.
    Models forkscan_child, find_roots' batching, lookup_lookaside_list and recursive_mark of
    child.c as a state machine whose every step is one shared-memory access of one sibling. */
module ParallelScan {
  import opened Words

  /** What the children see.  The snapshot is private to them, so it never changes.
      `words[b]` are the masked words of tracked block b; `ranges[r]` are the masked words the
      root scan of range r meets outside tracked and dead blocks. */
  datatype Snapshot = Snapshot(tracked: set<Addr>, words: map<Addr, seq<Addr>>, ranges: seq<seq<Addr>>)
  {
    ghost predicate Valid() { words.Keys == tracked }
  }

  /** Where the recursive call of recursive_mark goes: to the block just marked, or, as
      child.c:170 is written, to the block that is being scanned already. */
  datatype Recursion = OnTarget | OnScanned

  datatype Config = Config(snap: Snapshot, recursion: Recursion)

  datatype Phase = Claiming | Scanning(rid: nat, pos: nat) | Draining | Reported(total: nat)

  /** One activation of recursive_mark: words before `next` have been dealt with. */
  datatype Frame = Frame(block: Addr, next: nat)

  /** `pending` is a target tested unmarked whose mark has not been written yet. */
  datatype Sibling = Sibling(phase: Phase, lookaside: seq<Addr>, stack: seq<Frame>,
                             pending: Option<Addr>, completed: nat)
  {
    predicate Idle() { stack == [] && pending.None? }
    predicate Flushing() { phase.Scanning? || phase.Draining? }
    ghost predicate Holds(x: Addr) { x in lookaside || pending == Some(x) }
    ghost predicate Visits(b: Addr, k: nat) {
      exists f :: 0 <= f < |stack| && stack[f].block == b && stack[f].next <= k
    }
  }

  datatype State = State(rootCounter: nat, rootsCompleted: nat, marked: set<Addr>,
                         sibs: seq<Sibling>, notifications: nat)

  datatype Action = Claim | Batch | EndRange | Take(k: nat) | Test | Return | Write | Report

  const FRESH := Sibling(Claiming, [], [], None, 0)

  ghost predicate Init(s: State) {
    && s.rootCounter == s.rootsCompleted == s.notifications == 0 && s.marked == {}
    && |s.sibs| >= 1 && forall i :: 0 <= i < |s.sibs| ==> s.sibs[i] == FRESH
  }

  predicate Enabled(c: Config, s: State, i: nat, a: Action)
    requires c.snap.Valid()
  {
    i < |s.sibs| &&
    var b := s.sibs[i];
    match a
    case Claim => b.phase.Claiming?
    case Batch => b.phase.Scanning? && b.Idle() && b.phase.rid < |c.snap.ranges|
                  && b.phase.pos < |c.snap.ranges[b.phase.rid]|
    case EndRange => b.phase.Scanning? && b.Idle() && b.phase.rid < |c.snap.ranges|
                     && b.phase.pos == |c.snap.ranges[b.phase.rid]|
    case Take(k) => b.Flushing() && b.Idle() && k < |b.lookaside|
    case Test => b.pending.None? && b.stack != [] && Top(b).block in c.snap.tracked
                 && Top(b).next < |c.snap.words[Top(b).block]|
    case Return => b.pending.None? && b.stack != [] && Top(b).block in c.snap.tracked
                   && Top(b).next == |c.snap.words[Top(b).block]|
    case Write => b.pending.Some?
    case Report => b.phase.Draining? && b.Idle() && b.lookaside == []
  }

  function Top(b: Sibling): Frame
    requires b.stack != []
  {
    b.stack[|b.stack| - 1]
  }

  /** The stack with its top activation moved on to the next word. */
  function Advanced(b: Sibling): seq<Frame>
    requires b.stack != []
  {
    b.stack[|b.stack| - 1 := Top(b).(next := Top(b).next + 1)]
  }

  function Step(c: Config, s: State, i: nat, a: Action): State
    requires c.snap.Valid() && Enabled(c, s, i, a)
  {
    var b := s.sibs[i];
    match a
    case Claim =>
      var b' := b.(phase := if s.rootCounter < |c.snap.ranges| then Scanning(s.rootCounter, 0) else Draining);
      s.(rootCounter := s.rootCounter + 1, sibs := s.sibs[i := b'])
    case Batch =>
      var x := c.snap.ranges[b.phase.rid][b.phase.pos];
      s.(sibs := s.sibs[i := b.(phase := Scanning(b.phase.rid, b.phase.pos + 1), lookaside := b.lookaside + [x])])
    case EndRange =>
      s.(sibs := s.sibs[i := b.(phase := Claiming, completed := b.completed + 1)])
    case Take(k) =>
      var x := b.lookaside[k];
      var p := if x in c.snap.tracked && x !in s.marked then Some(x) else None;
      s.(sibs := s.sibs[i := b.(lookaside := b.lookaside[..k] + b.lookaside[k + 1..], pending := p)])
    case Test =>
      var x := c.snap.words[Top(b).block][Top(b).next];
      if x in c.snap.tracked && x !in s.marked then s.(sibs := s.sibs[i := b.(pending := Some(x))])
      else s.(sibs := s.sibs[i := b.(stack := Advanced(b))])
    case Return =>
      s.(sibs := s.sibs[i := b.(stack := b.stack[..|b.stack| - 1])])
    case Write =>
      var x := b.pending.value;
      var under := if b.stack == [] then [] else Advanced(b);
      var next := if b.stack == [] || c.recursion.OnTarget? then x else Top(b).block;
      s.(marked := s.marked + {x},
         sibs := s.sibs[i := b.(pending := None, stack := under + [Frame(next, 0)])])
    case Report =>
      var total := s.rootsCompleted + b.completed;
      s.(rootsCompleted := total, sibs := s.sibs[i := b.(phase := Reported(total))],
         notifications := s.notifications + if total == |c.snap.ranges| then 1 else 0)
  }

  ghost predicate Next(c: Config, s: State, s': State)
    requires c.snap.Valid()
  {
    exists i, a :: Enabled(c, s, i, a) && s' == Step(c, s, i, a)
  }

  /** Every finite run of the machine, as the sequence of its states. */
  ghost predicate IsRun(c: Config, run: seq<State>)
    requires c.snap.Valid()
  {
    && |run| > 0 && Init(run[0])
    && forall k: nat :: 0 < k < |run| ==> NextAt(c, run, k)
  }

  ghost predicate NextAt(c: Config, run: seq<State>, k: nat)
    requires c.snap.Valid() && 0 < k < |run|
  {
    Next(c, run[k - 1], run[k])
  }

  // ------------------------------------------------------------------ reference definition

  /** X contains every tracked root and every tracked block that a member of X refers to. */
  ghost predicate Closed(sn: Snapshot, X: set<Addr>)
    requires sn.Valid()
  {
    && (forall r, p :: 0 <= r < |sn.ranges| && 0 <= p < |sn.ranges[r]| && sn.ranges[r][p] in sn.tracked
          ==> sn.ranges[r][p] in X)
    && ClosedUnderWords(sn, X)
  }

  ghost predicate ClosedUnderWords(sn: Snapshot, X: set<Addr>)
    requires sn.Valid()
  {
    forall b, k :: b in X && b in sn.tracked && 0 <= k < |sn.words[b]| && sn.words[b][k] in sn.tracked
      ==> sn.words[b][k] in X
  }

  /** The tracked blocks reachable in the snapshot: those in every closed set. */
  ghost function LeastMarks(sn: Snapshot): set<Addr>
    requires sn.Valid()
  {
    set a | a in sn.tracked && forall X: set<Addr> :: Closed(sn, X) ==> a in X
  }

  lemma LeastMarksIsClosed(sn: Snapshot)
    requires sn.Valid()
    ensures Closed(sn, LeastMarks(sn))
  {
    var L := LeastMarks(sn);
    forall b, k | b in L && b in sn.tracked && 0 <= k < |sn.words[b]| && sn.words[b][k] in sn.tracked
      ensures sn.words[b][k] in L
    {
      forall X: set<Addr> | Closed(sn, X) ensures sn.words[b][k] in X { assert b in X; }
    }
  }

  ghost predicate IsRoot(sn: Snapshot, x: Addr) {
    x in sn.tracked && exists r, p :: 0 <= r < |sn.ranges| && 0 <= p < |sn.ranges[r]| && sn.ranges[r][p] == x
  }

  ghost predicate IsDirect(sn: Snapshot, x: Addr)
    requires sn.Valid()
  {
    IsRoot(sn, x) || (x in sn.tracked && exists b :: IsRoot(sn, b) && x in sn.words[b])
  }

  // ------------------------------------------------------------------ invariant

  ghost predicate FrameOk(c: Config, s: State, f: Frame)
    requires c.snap.Valid()
  {
    f.block in s.marked && f.block in c.snap.tracked && f.next <= |c.snap.words[f.block]|
  }

  ghost predicate SiblingOk(c: Config, s: State, b: Sibling)
    requires c.snap.Valid()
  {
    && (b.phase.Scanning? ==> b.phase.rid < |c.snap.ranges| && b.phase.rid < s.rootCounter
                              && b.phase.pos <= |c.snap.ranges[b.phase.rid]|)
    && (forall f :: 0 <= f < |b.stack| ==> FrameOk(c, s, b.stack[f]))
    && (b.pending.Some? ==> b.pending.value in c.snap.tracked)
    && (b.pending.Some? && b.stack != [] ==>
          Top(b).next < |c.snap.words[Top(b).block]| && c.snap.words[Top(b).block][Top(b).next] == b.pending.value)
    && (!b.Flushing() ==> b.Idle())
    && (b.phase.Reported? ==> b.lookaside == [])
    && (b.phase.Draining? || b.phase.Reported? ==> s.rootCounter >= |c.snap.ranges|)
    && (b.completed == 0 && !b.phase.Scanning? ==> b.lookaside == [] && b.Idle())
  }

  ghost predicate SiblingsOk(c: Config, s: State)
    requires c.snap.Valid()
  {
    && s.marked <= c.snap.tracked && |s.sibs| >= 1
    && (forall i :: 0 <= i < |s.sibs| ==> SiblingOk(c, s, s.sibs[i]))
    && (forall i, j :: 0 <= i < j < |s.sibs| && s.sibs[i].phase.Scanning? && s.sibs[j].phase.Scanning?
          ==> s.sibs[i].phase.rid != s.sibs[j].phase.rid)
  }

  function Sum(f: Sibling -> nat, q: seq<Sibling>): nat {
    if q == [] then 0 else f(q[0]) + Sum(f, q[1..])
  }

  function Claimed(b: Sibling): nat { b.completed + if b.phase.Scanning? then 1 else 0 }
  function Told(b: Sibling): nat { if b.phase.Reported? then b.completed else 0 }

  /** Each range below the counter was claimed once; the shared total counts what was reported. */
  ghost predicate Counted(c: Config, s: State) {
    && Sum(Claimed, s.sibs) == Min(s.rootCounter, |c.snap.ranges|)
    && Sum(Told, s.sibs) == s.rootsCompleted
  }

  /** Reports with a positive count have distinct totals, the last of which is the current one. */
  ghost predicate Ordered(s: State) {
    && (forall i :: 0 <= i < |s.sibs| && s.sibs[i].phase.Reported? ==> s.sibs[i].phase.total <= s.rootsCompleted)
    && (forall i, j :: 0 <= i < j < |s.sibs| && Positive(s.sibs[i]) && Positive(s.sibs[j]) ==>
          s.sibs[i].phase.total != s.sibs[j].phase.total)
    && (s.rootsCompleted > 0 ==> exists i :: 0 <= i < |s.sibs| && LastPositive(s, s.sibs[i]))
  }

  ghost predicate Announced(c: Config, s: State) {
    && (s.notifications > 0 ==> s.rootsCompleted == |c.snap.ranges|)
    && (forall i :: 0 <= i < |s.sibs| && Notifier(c, s.sibs[i]) ==> s.notifications > 0)
  }

  predicate LastPositive(s: State, b: Sibling) { Positive(b) && b.phase.total == s.rootsCompleted }
  predicate Positive(b: Sibling) { b.phase.Reported? && b.completed > 0 }
  predicate Notifier(c: Config, b: Sibling) { b.phase.Reported? && b.phase.total == |c.snap.ranges| }

  ghost predicate Waits(s: State, r: nat, p: nat) {
    exists i :: 0 <= i < |s.sibs| && s.sibs[i].phase.Scanning? && s.sibs[i].phase.rid == r && s.sibs[i].phase.pos <= p
  }

  ghost predicate Covered(c: Config, s: State, x: Addr) {
    x !in c.snap.tracked || x in s.marked || exists i :: 0 <= i < |s.sibs| && s.sibs[i].Holds(x)
  }

  /** Every word of a claimed range is still ahead of its scanner, or batched, or dealt with. */
  ghost predicate RootsCovered(c: Config, s: State) {
    forall r, p :: 0 <= r < |c.snap.ranges| && r < s.rootCounter && 0 <= p < |c.snap.ranges[r]| ==>
      Waits(s, r, p) || Covered(c, s, c.snap.ranges[r][p])
  }

  /** Every reference out of a marked block is marked or still ahead of some activation. */
  ghost predicate ReferencesCovered(c: Config, s: State)
    requires c.snap.Valid()
  {
    forall b, k | b in s.marked && b in c.snap.tracked && 0 <= k < |c.snap.words[b]|
                  && c.snap.words[b][k] in c.snap.tracked ::
      c.snap.words[b][k] in s.marked || exists i :: 0 <= i < |s.sibs| && s.sibs[i].Visits(b, k)
  }

  ghost predicate Inv(c: Config, s: State)
    requires c.snap.Valid()
  {
    && SiblingsOk(c, s) && Counted(c, s) && Ordered(s) && Announced(c, s) && RootsCovered(c, s)
    && (c.recursion.OnTarget? ==> ReferencesCovered(c, s))
  }

  /** Nothing outside X is marked or about to be. */
  ghost predicate Within(c: Config, s: State, X: set<Addr>) {
    && s.marked <= X
    && forall i :: 0 <= i < |s.sibs| ==> SiblingWithin(c, s.sibs[i], X)
  }

  ghost predicate SiblingWithin(c: Config, b: Sibling, X: set<Addr>) {
    && (forall x :: x in b.lookaside && x in c.snap.tracked ==> x in X)
    && (b.pending.Some? ==> b.pending.value in X)
    && (forall f :: 0 <= f < |b.stack| ==> b.stack[f].block in X)
  }

  // ------------------------------------------------------------------ sums

  lemma {:induction false} SumUpdate(f: Sibling -> nat, q: seq<Sibling>, i: nat, b: Sibling)
    requires i < |q|
    ensures Sum(f, q[i := b]) + f(q[i]) == Sum(f, q) + f(b)
  {
    if i == 0 {
      assert q[0 := b][1..] == q[1..];
    } else {
      SumUpdate(f, q[1..], i - 1, b);
      assert q[i := b][1..] == q[1..][i - 1 := b];
    }
  }

  /** A pointwise smaller sum with the same total is pointwise equal. */
  lemma {:induction false} SumLe(f: Sibling -> nat, g: Sibling -> nat, q: seq<Sibling>)
    requires forall i :: 0 <= i < |q| ==> f(q[i]) <= g(q[i])
    ensures Sum(f, q) <= Sum(g, q)
    ensures Sum(f, q) == Sum(g, q) ==> forall i :: 0 <= i < |q| ==> f(q[i]) == g(q[i])
  {
    if q != [] {
      SumLe(f, g, q[1..]);
      assert forall i :: 0 < i < |q| ==> q[i] == q[1..][i - 1];
    }
  }

  lemma {:induction false} SumZero(f: Sibling -> nat, q: seq<Sibling>)
    requires forall i :: 0 <= i < |q| ==> f(q[i]) == 0
    ensures Sum(f, q) == 0
  {
    if q != [] { SumZero(f, q[1..]); }
  }

  // ------------------------------------------------------------------ preservation

  lemma InitInv(c: Config, s: State)
    requires c.snap.Valid() && Init(s)
    ensures Inv(c, s)
  {
    SumZero(Claimed, s.sibs);
    SumZero(Told, s.sibs);
  }

  lemma StepSelfOk(c: Config, s: State, i: nat, a: Action)
    requires c.snap.Valid() && SiblingsOk(c, s) && Enabled(c, s, i, a)
    ensures SiblingOk(c, Step(c, s, i, a), Step(c, s, i, a).sibs[i])
  {
    assert SiblingOk(c, s, s.sibs[i]);
    var b, s' := s.sibs[i], Step(c, s, i, a);
    forall f | 0 <= f < |s'.sibs[i].stack| ensures FrameOk(c, s', s'.sibs[i].stack[f]) {
      if f < |b.stack| { assert FrameOk(c, s, b.stack[f]); }
    }
  }

  lemma StepOtherOk(c: Config, s: State, i: nat, a: Action, b: Sibling)
    requires c.snap.Valid() && SiblingOk(c, s, b) && Enabled(c, s, i, a)
    ensures SiblingOk(c, Step(c, s, i, a), b)
  {
    forall f | 0 <= f < |b.stack| ensures FrameOk(c, Step(c, s, i, a), b.stack[f]) { assert FrameOk(c, s, b.stack[f]); }
  }

  lemma StepMarked(c: Config, s: State, i: nat, a: Action)
    requires c.snap.Valid() && SiblingsOk(c, s) && Enabled(c, s, i, a)
    ensures Step(c, s, i, a).marked <= c.snap.tracked && |Step(c, s, i, a).sibs| == |s.sibs|
    ensures forall j :: 0 <= j < |s.sibs| && j != i ==> Step(c, s, i, a).sibs[j] == s.sibs[j]
  {
    assert SiblingOk(c, s, s.sibs[i]);
  }

  /** No two siblings scan the same range. */
  lemma StepApart(c: Config, s: State, i: nat, a: Action, j: nat)
    requires c.snap.Valid() && SiblingsOk(c, s) && Enabled(c, s, i, a) && j < |s.sibs| && j != i
    requires Step(c, s, i, a).sibs[i].phase.Scanning? && s.sibs[j].phase.Scanning?
    ensures Step(c, s, i, a).sibs[i].phase.rid != s.sibs[j].phase.rid
  {
    assert SiblingOk(c, s, s.sibs[j]);
  }

  lemma StepSiblingsOk(c: Config, s: State, i: nat, a: Action)
    requires c.snap.Valid() && SiblingsOk(c, s) && Enabled(c, s, i, a)
    ensures SiblingsOk(c, Step(c, s, i, a))
  {
    var s' := Step(c, s, i, a);
    StepMarked(c, s, i, a);
    forall j | 0 <= j < |s'.sibs| ensures SiblingOk(c, s', s'.sibs[j]) {
      if j == i { StepSelfOk(c, s, i, a); } else { StepOtherOk(c, s, i, a, s.sibs[j]); }
    }
    forall j | 0 <= j < |s'.sibs| && j != i && s'.sibs[i].phase.Scanning? && s'.sibs[j].phase.Scanning?
      ensures s'.sibs[i].phase.rid != s'.sibs[j].phase.rid
    {
      StepApart(c, s, i, a, j);
    }
  }

  lemma StepCounted(c: Config, s: State, i: nat, a: Action)
    requires c.snap.Valid() && SiblingsOk(c, s) && Counted(c, s) && Enabled(c, s, i, a)
    ensures Counted(c, Step(c, s, i, a))
  {
    var s' := Step(c, s, i, a);
    assert SiblingOk(c, s, s.sibs[i]);
    SumUpdate(Claimed, s.sibs, i, s'.sibs[i]);
    SumUpdate(Told, s.sibs, i, s'.sibs[i]);
    assert s'.sibs == s.sibs[i := s'.sibs[i]];
  }

  lemma StepTotals(c: Config, s: State, i: nat, a: Action)
    requires c.snap.Valid() && SiblingsOk(c, s) && Ordered(s) && Enabled(c, s, i, a)
    ensures var s' := Step(c, s, i, a);
      && s'.rootsCompleted >= s.rootsCompleted
      && (s'.sibs[i].phase.Reported? ==> s'.sibs[i].phase.total <= s'.rootsCompleted)
      && (Positive(s'.sibs[i]) && !Positive(s.sibs[i]) ==>
            s'.sibs[i].phase.total == s'.rootsCompleted > s.rootsCompleted)
      && (Positive(s.sibs[i]) ==> s'.sibs[i] == s.sibs[i])
      && (s'.rootsCompleted > s.rootsCompleted ==> LastPositive(s', s'.sibs[i]))
  {
    assert SiblingOk(c, s, s.sibs[i]);
  }

  lemma StepOrdered(c: Config, s: State, i: nat, a: Action)
    requires c.snap.Valid() && SiblingsOk(c, s) && Ordered(s) && Enabled(c, s, i, a)
    ensures Ordered(Step(c, s, i, a))
  {
    var s' := Step(c, s, i, a);
    StepMarked(c, s, i, a);
    StepTotals(c, s, i, a);
    if s'.rootsCompleted == s.rootsCompleted > 0 {
      var j :| 0 <= j < |s.sibs| && LastPositive(s, s.sibs[j]);
      assert LastPositive(s', s'.sibs[j]);
    }
  }

  lemma StepAnnounced(c: Config, s: State, i: nat, a: Action)
    requires c.snap.Valid() && Inv(c, s) && Enabled(c, s, i, a)
    ensures Announced(c, Step(c, s, i, a))
  {
    var s' := Step(c, s, i, a);
    assert SiblingOk(c, s, s.sibs[i]);
    assert forall j :: 0 <= j < |s.sibs| && j != i ==> s'.sibs[j] == s.sibs[j];
    if a.Report? {
      StepCounted(c, s, i, a);
      SumLe(Told, Claimed, s'.sibs);
    }
  }

  lemma StepRootsCovered(c: Config, s: State, i: nat, a: Action)
    requires c.snap.Valid() && SiblingsOk(c, s) && RootsCovered(c, s) && Enabled(c, s, i, a)
    ensures RootsCovered(c, Step(c, s, i, a))
  {
    var s' := Step(c, s, i, a);
    assert SiblingOk(c, s, s.sibs[i]);
    forall r, p | 0 <= r < |c.snap.ranges| && r < s'.rootCounter && 0 <= p < |c.snap.ranges[r]|
      ensures Waits(s', r, p) || Covered(c, s', c.snap.ranges[r][p])
    {
      if r == s.rootCounter {
        assert s'.sibs[i].phase == Scanning(r, 0);
      } else if Waits(s, r, p) {
        StepWaits(c, s, i, a, r, p);
      } else {
        StepCovered(c, s, i, a, c.snap.ranges[r][p]);
      }
    }
  }

  lemma StepWaits(c: Config, s: State, i: nat, a: Action, r: nat, p: nat)
    requires c.snap.Valid() && SiblingsOk(c, s) && Enabled(c, s, i, a)
    requires r < |c.snap.ranges| && p < |c.snap.ranges[r]| && Waits(s, r, p)
    ensures Waits(Step(c, s, i, a), r, p) || Covered(c, Step(c, s, i, a), c.snap.ranges[r][p])
  {
    var s' := Step(c, s, i, a);
    var j :| 0 <= j < |s.sibs| && s.sibs[j].phase.Scanning? && s.sibs[j].phase.rid == r && s.sibs[j].phase.pos <= p;
    if j != i {
      assert s'.sibs[j] == s.sibs[j];
    } else if a.Batch? && s.sibs[i].phase.pos == p {
      assert s'.sibs[i].lookaside[|s.sibs[i].lookaside|] == c.snap.ranges[r][p];
      assert s'.sibs[i].Holds(c.snap.ranges[r][p]);
    } else {
      assert s'.sibs[i].phase.Scanning? && s'.sibs[i].phase.rid == r && s'.sibs[i].phase.pos <= p;
    }
  }

  lemma StepCovered(c: Config, s: State, i: nat, a: Action, x: Addr)
    requires c.snap.Valid() && SiblingsOk(c, s) && Enabled(c, s, i, a) && Covered(c, s, x)
    ensures Covered(c, Step(c, s, i, a), x)
  {
    var s' := Step(c, s, i, a);
    if x in c.snap.tracked && x !in s.marked {
      var j :| 0 <= j < |s.sibs| && s.sibs[j].Holds(x);
      if j != i {
        assert s'.sibs[j].Holds(x);
      } else if !a.Write? || s.sibs[i].pending != Some(x) {
        assert s'.sibs[i].Holds(x);
      }
    }
  }

  lemma StepReferencesCovered(c: Config, s: State, i: nat, a: Action)
    requires c.snap.Valid() && SiblingsOk(c, s) && ReferencesCovered(c, s) && Enabled(c, s, i, a)
    requires c.recursion.OnTarget?
    ensures ReferencesCovered(c, Step(c, s, i, a))
  {
    var s' := Step(c, s, i, a);
    assert SiblingOk(c, s, s.sibs[i]);
    forall b, k | b in s'.marked && b in c.snap.tracked && 0 <= k < |c.snap.words[b]|
                  && c.snap.words[b][k] in c.snap.tracked
      ensures c.snap.words[b][k] in s'.marked || exists j :: 0 <= j < |s'.sibs| && s'.sibs[j].Visits(b, k)
    {
      if b !in s.marked {
        assert a.Write? && b == s.sibs[i].pending.value;
        assert s'.sibs[i].stack[|s'.sibs[i].stack| - 1] == Frame(b, 0);
        assert s'.sibs[i].Visits(b, k);
      } else if c.snap.words[b][k] !in s.marked {
        var j :| 0 <= j < |s.sibs| && s.sibs[j].Visits(b, k);
        if j != i {
          assert s'.sibs[j].Visits(b, k);
        } else {
          StepVisits(c, s, i, a, b, k);
        }
      }
    }
  }

  lemma StepVisits(c: Config, s: State, i: nat, a: Action, b: Addr, k: nat)
    requires c.snap.Valid() && SiblingsOk(c, s) && Enabled(c, s, i, a)
    requires b in c.snap.tracked && k < |c.snap.words[b]| && c.snap.words[b][k] in c.snap.tracked
    requires s.sibs[i].Visits(b, k) && c.snap.words[b][k] !in s.marked
    ensures c.snap.words[b][k] in Step(c, s, i, a).marked || Step(c, s, i, a).sibs[i].Visits(b, k)
  {
    var s' := Step(c, s, i, a);
    var q := s.sibs[i].stack;
    assert SiblingOk(c, s, s.sibs[i]);
    var f :| 0 <= f < |q| && q[f].block == b && q[f].next <= k;
    assert FrameOk(c, s, q[f]);
    if f < |q| - 1 || !(a.Test? || a.Return? || a.Write?) {
      assert s'.sibs[i].stack[f] == q[f];
    } else if q[f].next < k || (a.Test? && s'.sibs[i].stack == q) {
      assert s'.sibs[i].stack[f].block == b && s'.sibs[i].stack[f].next <= k;
    }
  }

  lemma StepInv(c: Config, s: State, i: nat, a: Action)
    requires c.snap.Valid() && Inv(c, s) && Enabled(c, s, i, a)
    ensures Inv(c, Step(c, s, i, a))
  {
    StepSiblingsOk(c, s, i, a);
    StepCounted(c, s, i, a);
    StepOrdered(c, s, i, a);
    StepAnnounced(c, s, i, a);
    StepRootsCovered(c, s, i, a);
    if c.recursion.OnTarget? { StepReferencesCovered(c, s, i, a); }
  }

  lemma StepWithin(c: Config, s: State, i: nat, a: Action, X: set<Addr>)
    requires c.snap.Valid() && SiblingsOk(c, s) && Within(c, s, X) && Enabled(c, s, i, a)
    requires Closed(c.snap, X)
    ensures Within(c, Step(c, s, i, a), X)
  {
    var s' := Step(c, s, i, a);
    assert SiblingOk(c, s, s.sibs[i]);
    assert SiblingWithin(c, s.sibs[i], X);
    forall j | 0 <= j < |s'.sibs| ensures SiblingWithin(c, s'.sibs[j], X) {
      assert SiblingWithin(c, s.sibs[j], X);
    }
  }

  // ------------------------------------------------------------------ theorems

  /** Once the parent has been told, no sibling has anything left to mark. */
  lemma NotifiedIsQuiet(c: Config, s: State)
    requires c.snap.Valid() && Inv(c, s) && s.rootsCompleted == |c.snap.ranges|
    ensures s.rootCounter >= |c.snap.ranges|
    ensures forall i :: 0 <= i < |s.sibs| ==>
      s.sibs[i].Idle() && s.sibs[i].lookaside == [] && !s.sibs[i].phase.Scanning?
  {
    SumLe(Told, Claimed, s.sibs);
    forall i | 0 <= i < |s.sibs|
      ensures s.sibs[i].Idle() && s.sibs[i].lookaside == [] && !s.sibs[i].phase.Scanning?
    {
      assert SiblingOk(c, s, s.sibs[i]);
    }
  }

  ghost predicate Meets(c: Config, s: State)
    requires c.snap.Valid()
  {
    Inv(c, s) && forall X: set<Addr> :: Closed(c.snap, X) ==> Within(c, s, X)
  }

  lemma NextMeets(c: Config, s: State, s': State)
    requires c.snap.Valid() && Meets(c, s) && Next(c, s, s')
    ensures Meets(c, s')
    ensures s.notifications > 0 ==> s'.marked == s.marked && s'.notifications > 0
  {
    var i, a :| Enabled(c, s, i, a) && s' == Step(c, s, i, a);
    StepInv(c, s, i, a);
    forall X: set<Addr> | Closed(c.snap, X) ensures Within(c, s', X) { StepWithin(c, s, i, a, X); }
    if s.notifications > 0 { NotifiedIsQuiet(c, s); }
  }

  lemma {:induction false} RunMeets(c: Config, run: seq<State>, k: nat)
    requires c.snap.Valid() && IsRun(c, run) && k < |run|
    ensures Meets(c, run[k])
  {
    if k == 0 {
      InitInv(c, run[0]);
    } else {
      RunMeets(c, run, k - 1);
      assert NextAt(c, run, k);
      NextMeets(c, run[k - 1], run[k]);
    }
  }

  lemma MeetsLeast(c: Config, s: State)
    requires c.snap.Valid() && Meets(c, s) && c.recursion.OnTarget?
    requires s.notifications > 0
    ensures s.marked == LeastMarks(c.snap)
  {
    NotifiedIsQuiet(c, s);
    assert Closed(c.snap, s.marked);
    LeastMarksIsClosed(c.snap);
    assert Within(c, s, LeastMarks(c.snap));
    forall a | a in LeastMarks(c.snap) ensures a in s.marked {}
  }

  /** Parallel marking: when the parent is told that the scan is complete, the marks are exactly
      the least set that contains the tracked roots and is closed under references between
      tracked blocks, and no later step changes them, for every number of siblings, division into
      ranges, batching and interleaving. */
  lemma NotifiedMarksAreLeast(c: Config, run: seq<State>, k: nat, m: nat)
    requires c.snap.Valid() && c.recursion.OnTarget? && IsRun(c, run)
    requires k <= m < |run| && run[k].notifications > 0
    ensures run[m].notifications > 0 && run[m].marked == LeastMarks(c.snap)
    decreases m - k
  {
    RunMeets(c, run, k);
    MeetsLeast(c, run[k]);
    if k < m {
      assert NextAt(c, run, k + 1);
      NextMeets(c, run[k], run[k + 1]);
      NotifiedMarksAreLeast(c, run, k + 1, m);
    }
  }

  /** Completion protocol.  A notification is sent only when every range has been claimed and
      scanned and every batch flushed; when all siblings have reported, one has been sent; and among
      siblings that completed a range exactly one sends it. */
  lemma CompletionProtocol(c: Config, run: seq<State>, k: nat)
    requires c.snap.Valid() && IsRun(c, run) && k < |run|
    ensures var s := run[k];
      && (s.notifications > 0 ==>
            s.rootCounter >= |c.snap.ranges| && s.rootsCompleted == |c.snap.ranges|
            && forall i :: 0 <= i < |s.sibs| ==>
                 s.sibs[i].Idle() && s.sibs[i].lookaside == [] && !s.sibs[i].phase.Scanning?)
      && (forall i, j :: 0 <= i < j < |s.sibs| && Positive(s.sibs[i]) && Positive(s.sibs[j]) ==>
            !(Notifier(c, s.sibs[i]) && Notifier(c, s.sibs[j])))
      && ((forall i :: 0 <= i < |s.sibs| ==> s.sibs[i].phase.Reported?) ==>
            s.notifications > 0 && (|c.snap.ranges| > 0 ==>
              exists i :: 0 <= i < |s.sibs| && Positive(s.sibs[i]) && Notifier(c, s.sibs[i])))
  {
    RunMeets(c, run, k);
    var s := run[k];
    if s.notifications > 0 { NotifiedIsQuiet(c, s); }
    if forall i :: 0 <= i < |s.sibs| ==> s.sibs[i].phase.Reported? {
      AllReported(c, s);
    }
  }

  lemma AllReported(c: Config, s: State)
    requires c.snap.Valid() && Inv(c, s)
    requires forall i :: 0 <= i < |s.sibs| ==> s.sibs[i].phase.Reported?
    ensures s.notifications > 0 && s.rootsCompleted == |c.snap.ranges|
    ensures |c.snap.ranges| > 0 ==> exists i :: 0 <= i < |s.sibs| && Positive(s.sibs[i]) && Notifier(c, s.sibs[i])
  {
    assert SiblingOk(c, s, s.sibs[0]);
    SumLe(Told, Claimed, s.sibs);
    SumLe(Claimed, Told, s.sibs);
    if |c.snap.ranges| > 0 {
      var i :| 0 <= i < |s.sibs| && LastPositive(s, s.sibs[i]);
      assert Notifier(c, s.sibs[i]);
    } else {
      assert Notifier(c, s.sibs[0]);
    }
  }

  // ------------------------------------------------------------------ how many notifications

  /** Whether a sibling saw the final total; whether with a positive count, or with none. */
  function Notes(n: nat): Sibling -> nat { (b: Sibling) => if b.phase.Reported? && b.phase.total == n then 1 else 0 }
  function PositiveNotes(n: nat): Sibling -> nat { (b: Sibling) => if Positive(b) && b.phase.total == n then 1 else 0 }
  function IdleNotes(n: nat): Sibling -> nat {
    (b: Sibling) => if b.completed == 0 && b.phase.Reported? && b.phase.total == n then 1 else 0
  }

  lemma {:induction false} NotesSplit(n: nat, q: seq<Sibling>)
    ensures Sum(Notes(n), q) == Sum(PositiveNotes(n), q) + Sum(IdleNotes(n), q)
  {
    if q != [] { NotesSplit(n, q[1..]); }
  }

  lemma {:induction false} OnlyOne(f: Sibling -> nat, q: seq<Sibling>, i: nat)
    requires i < |q| && f(q[i]) == 1 && forall j :: 0 <= j < |q| && j != i ==> f(q[j]) == 0
    ensures Sum(f, q) == 1
  {
    var rest := q[1..];
    if i == 0 {
      forall j | 0 <= j < |rest| ensures f(rest[j]) == 0 { assert rest[j] == q[j + 1]; }
      SumZero(f, rest);
    } else {
      forall j | 0 <= j < |rest| && j != i - 1 ensures f(rest[j]) == 0 { assert rest[j] == q[j + 1]; }
      OnlyOne(f, rest, i - 1);
    }
  }

  lemma StepNotes(c: Config, s: State, i: nat, a: Action)
    requires c.snap.Valid() && Enabled(c, s, i, a)
    ensures Step(c, s, i, a).sibs == s.sibs[i := Step(c, s, i, a).sibs[i]]
    ensures var n := |c.snap.ranges|;
      Step(c, s, i, a).notifications + Notes(n)(s.sibs[i]) == s.notifications + Notes(n)(Step(c, s, i, a).sibs[i])
  {
  }

  lemma NextNotes(c: Config, s: State, s': State)
    requires c.snap.Valid() && Next(c, s, s') && s.notifications == Sum(Notes(|c.snap.ranges|), s.sibs)
    ensures s'.notifications == Sum(Notes(|c.snap.ranges|), s'.sibs)
  {
    var i: nat, a: Action :| Enabled(c, s, i, a) && s' == Step(c, s, i, a);
    StepNotes(c, s, i, a);
    SumUpdate(Notes(|c.snap.ranges|), s.sibs, i, s'.sibs[i]);
  }

  lemma {:induction false} RunNotes(c: Config, run: seq<State>, k: nat)
    requires c.snap.Valid() && IsRun(c, run) && k < |run|
    ensures run[k].notifications == Sum(Notes(|c.snap.ranges|), run[k].sibs)
  {
    if k == 0 {
      SumZero(Notes(|c.snap.ranges|), run[0].sibs);
    } else {
      RunNotes(c, run, k - 1);
      assert NextAt(c, run, k);
      NextNotes(c, run[k - 1], run[k]);
    }
  }

  /** When all siblings have reported, the parent has been notified once for the siblings that completed
      ranges, and once more for each sibling that completed none and reported after the last of them; so
      it is notified exactly once if and only if there is no such sibling. */
  lemma NotificationCount(c: Config, run: seq<State>, k: nat)
    requires c.snap.Valid() && IsRun(c, run) && k < |run| && |c.snap.ranges| > 0
    requires forall i :: 0 <= i < |run[k].sibs| ==> run[k].sibs[i].phase.Reported?
    ensures run[k].notifications == 1 + Sum(IdleNotes(|c.snap.ranges|), run[k].sibs)
  {
    var s, n := run[k], |c.snap.ranges|;
    RunNotes(c, run, k);
    RunMeets(c, run, k);
    AllReported(c, s);
    NotesSplit(n, s.sibs);
    var i :| 0 <= i < |s.sibs| && Positive(s.sibs[i]) && Notifier(c, s.sibs[i]);
    OnlyOne(PositiveNotes(n), s.sibs, i);
  }

  /** Such a run: the second sibling finds no range left and reports last. */
  lemma TwoNotifications() returns (c: Config, run: seq<State>)
    ensures c.snap.Valid() && |c.snap.ranges| == 1 && IsRun(c, run)
    ensures run[|run| - 1].notifications == 2
  {
    c := Config(Snapshot({}, map[], [[]]), OnTarget);
    run := [State(0, 0, {}, [FRESH, FRESH], 0)];
    run := Extend(c, run, 0, Claim);
    run := Extend(c, run, 0, EndRange);
    run := Extend(c, run, 0, Claim);
    run := Extend(c, run, 0, Report);
    run := Extend(c, run, 1, Claim);
    run := Extend(c, run, 1, Report);
  }

  lemma Extend(c: Config, run: seq<State>, i: nat, a: Action) returns (longer: seq<State>)
    requires c.snap.Valid() && IsRun(c, run) && Enabled(c, run[|run| - 1], i, a)
    ensures IsRun(c, longer) && longer[|longer| - 1] == Step(c, run[|run| - 1], i, a)
  {
    longer := run + [Step(c, run[|run| - 1], i, a)];
    forall k: nat | 0 < k < |longer| ensures NextAt(c, longer, k) {
      if k < |run| { assert NextAt(c, run, k); } else { assert Next(c, run[|run| - 1], longer[k]); }
    }
  }
}
