/** When the reclaimer lock can be had: by a thread alone, and with the help of the others. */
module LockEnds {
  import opened TimestampLock
  import Paths

  ghost function Steps(): (State, State) -> bool { (s, t) => Next(s, t) }

  ghost predicate ThreadNext(s: State, t: State, i: nat) { exists m: Move :: Enabled(s, i, m) && t == Step(s, i, m) }

  ghost function By(i: nat): (State, State) -> bool { (s, t) => ThreadNext(s, t, i) }

  ghost predicate OnlyBy(s: State, t: State, i: nat) {
    |t.threads| == |s.threads| && forall j :: 0 <= j < |s.threads| && j != i ==> t.threads[j] == s.threads[j]
  }

  lemma Does(s: State, i: nat, m: Move)
    requires Enabled(s, i, m)
    ensures Paths.Leads(By(i), s, Step(s, i, m)) && OnlyBy(s, Step(s, i, m), i)
  {
    assert ThreadNext(s, Step(s, i, m), i);
    Paths.One(By(i), s, Step(s, i, m));
  }

  lemma ByIsStep(s: State, t: State, i: nat)
    requires Paths.Leads(By(i), s, t)
    ensures Paths.Leads(Steps(), s, t)
  {
    Paths.Wider(By(i), Steps(), s, t);
  }

  lemma LeadsInv(s: State, t: State)
    requires Inv(s) && Paths.Leads(Steps(), s, t)
    ensures Inv(t)
  {
    forall x, y | Inv(x) && Next(x, y) ensures Inv(y) { NextInv(x, y); }
    Paths.Keeps(Steps(), x => Inv(x), s, t);
  }

  // ------------------------------------------------------------------ alone

  lemma Acquires(s: State, i: nat) returns (t: State)
    requires i < |s.threads| && s.threads[i].pc.Idle? && !s.global.active
    ensures Paths.Leads(By(i), s, t) && OnlyBy(s, t, i) && t.global == Word(s.global.stamp + 1, true)
    ensures t.threads[i] == Thread(Waiting(t.global.stamp, 0), s.threads[i].local) && t.acquired == s.acquired + 1
  {
    var m := Step(s, i, Try);
    Does(s, i, Try);
    t := Step(m, i, Swap);
    Does(m, i, Swap);
    Paths.Join(By(i), s, m, t);
  }

  /** The lock can be acquired: when the timestamp is not active, an idle thread gets the lock by steps of its
      own, with the next stamp. */
  lemma LockCanBeAcquired(run: seq<State>, k: nat, i: nat) returns (t: State)
    requires IsRun(run) && k < |run| && i < |run[k].threads| && run[k].threads[i].pc.Idle? && !run[k].global.active
    ensures Paths.Leads(By(i), run[k], t) && OnlyBy(run[k], t, i) && t.threads[i].pc.Holds()
    ensures t.global == Word(run[k].global.stamp + 1, true) && t.acquired == run[k].acquired + 1
  {
    t := Acquires(run[k], i);
  }

  /** From place k of the list on nobody helps an older round. */
  predicate NoHelpers(ts: seq<Thread>, k: nat, attempt: nat) {
    forall j :: k <= j < |ts| ==> !StillHelping(ts[j].local, attempt)
  }

  lemma {:induction false} PassesAll(s: State, i: nat) returns (t: State)
    requires i < |s.threads| && s.threads[i].pc.Waiting? && s.threads[i].pc.k <= |s.threads|
    requires NoHelpers(s.threads, s.threads[i].pc.k, s.threads[i].pc.attempt)
    ensures Paths.Leads(By(i), s, t) && OnlyBy(s, t, i) && t.global == s.global
    ensures t.threads[i] == s.threads[i].(pc := Reclaiming)
    decreases |s.threads| - s.threads[i].pc.k
  {
    if s.threads[i].pc.k == |s.threads| {
      t := Step(s, i, Return);
      Does(s, i, Return);
    } else {
      var m := Step(s, i, Pass);
      Does(s, i, Pass);
      t := PassesAll(m, i);
      Paths.Join(By(i), s, m, t);
    }
  }

  /** If moreover no flag is up, the thread becomes the reclaimer by itself. */
  lemma ReclaimsAlone(run: seq<State>, k: nat, i: nat) returns (t: State)
    requires IsRun(run) && k < |run| && i < |run[k].threads| && run[k].threads[i].pc.Idle? && !run[k].global.active
    requires forall j :: 0 <= j < |run[k].threads| ==> !run[k].threads[j].local.active
    ensures Paths.Leads(By(i), run[k], t) && OnlyBy(run[k], t, i) && t.threads[i].pc.Reclaiming?
    ensures t.global == Word(run[k].global.stamp + 1, true)
  {
    var m := Acquires(run[k], i);
    t := PassesAll(m, i);
    Paths.Join(By(i), run[k], m, t);
  }

  lemma StepCrew(s: State, i: nat, m: Move)
    requires Enabled(s, i, m)
    ensures |Step(s, i, m).threads| == |s.threads|
  {
  }

  lemma {:induction false} RunCrew(run: seq<State>, k: nat)
    requires IsRun(run) && k < |run|
    ensures |run[k].threads| == |run[0].threads|
  {
    if k > 0 {
      RunCrew(run, k - 1);
      assert NextAt(run, k);
      var i: nat, m: Move :| Enabled(run[k - 1], i, m) && run[k] == Step(run[k - 1], i, m);
      StepCrew(run[k - 1], i, m);
    }
  }

  /** What a thread that tries has found is what the timestamp was when its attempt began: not active. */
  lemma {:induction false} TryLoaded(run: seq<State>, k: nat, i: nat) returns (j: nat)
    requires IsRun(run) && k < |run| && i < |run[0].threads| && i < |run[k].threads| && run[k].threads[i].pc.Trying?
    ensures j < k && run[j].global == run[k].threads[i].pc.found && !run[j].global.active
  {
    NotTryingYet(run, i);
    RunCrew(run, k - 1);
    assert NextAt(run, k);
    var l: nat, m: Move :| Enabled(run[k - 1], l, m) && run[k] == Step(run[k - 1], l, m);
    if run[k - 1].threads[i].pc.Trying? { j := TryLoaded(run, k - 1, i); } else { j := k - 1; }
  }

  lemma NotTryingYet(run: seq<State>, i: nat)
    requires IsRun(run) && i < |run[0].threads|
    ensures !run[0].threads[i].pc.Trying?
  {
    assert AtStart(run[0].threads[i]);
  }

  /** An attempt that began while the timestamp was not active comes to nothing only if another thread has changed
      the timestamp since. */
  lemma AttemptFailsForAReason(run: seq<State>, k: nat, i: nat) returns (j: nat)
    requires IsRun(run) && k + 1 < |run| && i < |run[k].threads| && i < |run[k + 1].threads|
    requires run[k].threads[i].pc.Trying? && run[k + 1].threads[i].pc.Idle?
    ensures j < k && !run[j].global.active && run[k].global != run[j].global
  {
    RunCrew(run, k);
    j := TryLoaded(run, k, i);
    assert NextAt(run, k + 1);
    var l: nat, m: Move :| Enabled(run[k], l, m) && run[k + 1] == Step(run[k], l, m);
  }

  // ------------------------------------------------------------------ flags

  /** An idle thread can raise its flag with the stamp of the round, and lower it. */
  lemma FlagCanBeRaised(run: seq<State>, k: nat, i: nat) returns (t: State, u: State)
    requires IsRun(run) && k < |run| && i < |run[k].threads| && run[k].threads[i].pc.Idle?
    ensures Paths.Leads(By(i), run[k], t) && t.global == run[k].global
    ensures OnlyBy(run[k], t, i) && t.threads[i] == Thread(Idle, Word(t.global.stamp, true))
    ensures Paths.Leads(By(i), t, u) && u.global == t.global
    ensures OnlyBy(t, u, i) && u.threads[i] == Thread(Idle, Word(t.global.stamp, false))
  {
    var x := Step(run[k], i, Raise);
    Does(run[k], i, Raise);
    var y := Step(x, i, Load);
    Does(x, i, Load);
    Paths.Join(By(i), run[k], x, y);
    t := Step(y, i, Adopt);
    Does(y, i, Adopt);
    Paths.Join(By(i), run[k], y, t);
    u := Step(t, i, Lower);
    Does(t, i, Lower);
  }

  // ------------------------------------------------------------------ with the others

  predicate Calm(t: Thread) { t.pc.Idle? && !t.local.active }

  /** A thread that does not hold the lock, and is not about to get it, becomes calm. */
  lemma Calms(s: State, i: nat) returns (t: State)
    requires i < |s.threads| && !s.threads[i].pc.Holds()
    requires s.threads[i].pc.Trying? ==> s.threads[i].pc.found != s.global
    ensures Paths.Leads(Steps(), s, t) && OnlyBy(s, t, i) && t.global == s.global && Calm(t.threads[i])
  {
    var x := s;
    Paths.Stay(By(i), s);
    if x.threads[i].pc.Trying? {
      Does(x, i, Swap);
      x := Step(x, i, Swap);
    }
    if x.threads[i].pc.Raised? {
      Does(x, i, Load);
      Paths.Join(By(i), s, x, Step(x, i, Load));
      x := Step(x, i, Load);
    }
    if x.threads[i].pc.Seen? {
      Does(x, i, Adopt);
      Paths.Join(By(i), s, x, Step(x, i, Adopt));
      x := Step(x, i, Adopt);
    }
    t := Step(x, i, Lower);
    Does(x, i, Lower);
    Paths.Join(By(i), s, x, t);
    ByIsStep(s, t, i);
  }

  /** The holder h waits, in its list, for itself. */
  predicate SelfWaiting(s: State, h: nat) {
    h < |s.threads| && s.threads[h].pc.Waiting? && s.threads[h].pc.k <= h
    && StillHelping(s.threads[h].local, s.threads[h].pc.attempt)
  }

  /** The threads other than the holder become calm. */
  lemma OthersCalm(s: State, h: nat) returns (t: State)
    requires Inv(s) && h < |s.threads| && s.threads[h].pc.Holds()
    ensures Paths.Leads(Steps(), s, t) && t.global == s.global && |t.threads| == |s.threads|
    ensures t.threads[h] == s.threads[h] && forall j :: 0 <= j < |t.threads| && j != h ==> Calm(t.threads[j])
  {
    t := s;
    Paths.Stay(Steps(), s);
    for j := 0 to |s.threads|
      invariant Paths.Leads(Steps(), s, t) && t.global == s.global && |t.threads| == |s.threads|
      invariant t.threads[h] == s.threads[h]
      invariant forall l :: 0 <= l < j && l != h ==> Calm(t.threads[l])
      invariant forall l :: j <= l < |s.threads| ==> t.threads[l] == s.threads[l]
    {
      if j != h {
        NotAboutTo(s, h, j);
        var m := t;
        t := Calms(m, j);
        Paths.Join(Steps(), s, m, t);
      }
    }
  }

  lemma NotAboutTo(s: State, h: nat, j: nat)
    requires Inv(s) && h < |s.threads| && s.threads[h].pc.Holds() && j < |s.threads| && j != h
    ensures !s.threads[j].pc.Holds() && (s.threads[j].pc.Trying? ==> s.threads[j].pc.found != s.global)
  {
    assert PairInv(s.threads, s.global, h, j) && ThreadInv(s.threads[j], s.global) && ThreadInv(s.threads[h], s.global);
  }

  /** The holder gets to the release. */
  lemma HolderReclaims(s: State, h: nat) returns (t: State)
    requires Inv(s) && h < |s.threads| && s.threads[h].pc.Waiting? && !SelfWaiting(s, h)
    requires s.threads[h].pc.k <= |s.threads|
    requires forall j :: 0 <= j < |s.threads| && j != h ==> Calm(s.threads[j])
    ensures Paths.Leads(By(h), s, t) && OnlyBy(s, t, h) && t.threads[h].pc.Reclaiming?
  {
    t := PassesAll(s, h);
  }

  lemma Releases(s: State, h: nat) returns (t: State)
    requires h < |s.threads| && (s.threads[h].pc.Reclaiming? || s.threads[h].pc.Releasing?)
    ensures Paths.Leads(By(h), s, t) && OnlyBy(s, t, h) && !t.global.active && Calm(t.threads[h])
  {
    var x := s;
    Paths.Stay(By(h), s);
    if x.threads[h].pc.Reclaiming? {
      Does(x, h, BeginRelease);
      x := Step(x, h, BeginRelease);
    }
    var y := Step(x, h, Release);
    Does(x, h, Release);
    Paths.Join(By(h), s, x, y);
    t := Step(y, h, Lower);
    Does(y, h, Lower);
    Paths.Join(By(h), s, y, t);
  }

  /** The place in the list is within it. */
  predicate PlacesOk(s: State) {
    forall i :: 0 <= i < |s.threads| && s.threads[i].pc.Waiting? ==> s.threads[i].pc.k <= |s.threads|
  }

  predicate AllCalm(s: State) { !s.global.active && forall j :: 0 <= j < |s.threads| ==> Calm(s.threads[j]) }

  lemma HolderGoesOn(s: State, h: nat) returns (t: State)
    requires Inv(s) && PlacesOk(s) && h < |s.threads| && s.threads[h].pc.Holds() && !SelfWaiting(s, h)
    ensures Paths.Leads(Steps(), s, t) && |t.threads| == |s.threads| && AllCalm(t)
  {
    var x := OthersCalm(s, h);
    LeadsInv(s, x);
    var y := x;
    Paths.Stay(By(h), x);
    if x.threads[h].pc.Waiting? { y := HolderReclaims(x, h); }
    t := Releases(y, h);
    Paths.Join(By(h), x, y, t);
    ByIsStep(x, t, h);
    Paths.Join(Steps(), s, x, t);
  }

  /** Thread j can acquire the lock without waiting for itself. */
  predicate Clean(s: State, j: nat) {
    j < |s.threads| && !(s.threads[j].pc.Trying? && s.threads[j].pc.found == s.global && s.threads[j].local.active)
  }

  /** A clean thread acquires the free lock. */
  lemma CleanAcquires(s: State, j: nat) returns (t: State)
    requires Inv(s) && !s.global.active && Clean(s, j)
    ensures Paths.Leads(Steps(), s, t) && |t.threads| == |s.threads| && t.threads[j].pc.Waiting?
    ensures !t.threads[j].local.active
  {
    assert ThreadInv(s.threads[j], s.global);
    if s.threads[j].pc.Trying? && s.threads[j].pc.found == s.global {
      t := Step(s, j, Swap);
      Does(s, j, Swap);
      ByIsStep(s, t, j);
    } else {
      var x := Calms(s, j);
      t := Acquires(x, j);
      ByIsStep(x, t, j);
      Paths.Join(Steps(), s, x, t);
    }
  }

  /** Somebody waits for itself, or whoever can get the lock next will. */
  ghost predicate Stuck(s: State) {
    || (exists h :: SelfWaiting(s, h))
    || (!s.global.active && forall j :: 0 <= j < |s.threads| ==> !Clean(s, j))
  }

  lemma LeadsPlaces(s: State, t: State)
    requires PlacesOk(s) && Paths.Leads(Steps(), s, t)
    ensures PlacesOk(t)
  {
    Paths.Keeps(Steps(), x => PlacesOk(x), s, t);
  }

  lemma AllCalmDown(s: State) returns (t: State)
    requires Inv(s) && PlacesOk(s) && !Stuck(s)
    ensures Paths.Leads(Steps(), s, t) && |t.threads| == |s.threads| && AllCalm(t)
  {
    if s.global.active {
      var h :| 0 <= h < |s.threads| && s.threads[h].pc.Holds();
      t := HolderGoesOn(s, h);
    } else {
      var j: nat :| j < |s.threads| && Clean(s, j);
      var x := CleanAcquires(s, j);
      LeadsInv(s, x);
      LeadsPlaces(s, x);
      t := HolderGoesOn(x, j);
      Paths.Join(Steps(), s, x, t);
    }
  }

  lemma CalmReclaims(s: State, i: nat) returns (t: State)
    requires AllCalm(s) && i < |s.threads|
    ensures Paths.Leads(Steps(), s, t) && |t.threads| == |s.threads| && t.threads[i].pc.Reclaiming?
  {
    var x := Acquires(s, i);
    t := PassesAll(x, i);
    Paths.Join(By(i), s, x, t);
    ByIsStep(s, t, i);
  }

  // ------------------------------------------------------------------ and otherwise nobody can

  lemma StuckStays(s: State, t: State)
    requires Inv(s) && Stuck(s) && Next(s, t)
    ensures Stuck(t)
  {
    var i: nat, m: Move :| Enabled(s, i, m) && t == Step(s, i, m);
    assert ThreadInv(s.threads[i], s.global);
    if h :| SelfWaiting(s, h) {
      assert PairInv(s.threads, s.global, h, i);
      assert SelfWaiting(t, h);
    } else {
      assert !Clean(s, i);
      assert SelfWaiting(t, i);
    }
  }

  lemma StuckReclaimsNot(s: State, i: nat)
    requires Inv(s) && Stuck(s) && i < |s.threads|
    ensures !s.threads[i].pc.Reclaiming?
  {
    assert ThreadInv(s.threads[i], s.global);
    if h :| SelfWaiting(s, h) { assert PairInv(s.threads, s.global, h, i); }
  }

  lemma {:induction false} RunPlaces(run: seq<State>, k: nat)
    requires IsRun(run) && k < |run|
    ensures PlacesOk(run[k])
  {
    if k == 0 {
      assert forall i :: 0 <= i < |run[0].threads| ==> AtStart(run[0].threads[i]);
    } else {
      RunPlaces(run, k - 1);
      assert NextAt(run, k);
    }
  }

  /** When a thread can become the reclaimer.  From a state of a run every thread can, if the others go on, too;
      unless a thread that has its own flag up with an older stamp waits for all flags, its own among them, or
      every thread is about to get there.  No step leads out of such a state. */
  lemma CanReclaimIff(run: seq<State>, k: nat, i: nat)
    requires IsRun(run) && k < |run| && i < |run[k].threads|
    ensures !Stuck(run[k]) <==>
      exists t :: Paths.Leads(Steps(), run[k], t) && i < |t.threads| && t.threads[i].pc.Reclaiming?
  {
    var s := run[k];
    RunInv(run, k);
    RunPlaces(run, k);
    if Stuck(s) {
      forall t | Paths.Leads(Steps(), s, t) && i < |t.threads| ensures !t.threads[i].pc.Reclaiming? {
        forall x, y | Inv(x) && Stuck(x) && Next(x, y) ensures Inv(y) && Stuck(y) {
          NextInv(x, y);
          StuckStays(x, y);
        }
        Paths.Keeps(Steps(), x => Inv(x) && Stuck(x), s, t);
        StuckReclaimsNot(t, i);
      }
    } else {
      var x := AllCalmDown(s);
      var t := CalmReclaims(x, i);
      Paths.Join(Steps(), s, x, t);
    }
  }

  /** As long as no thread tries with its flag up, no state is like that. */
  lemma NeverStuck(run: seq<State>, k: nat)
    requires IsRun(run) && k < |run| && |run[k].threads| > 0
    requires forall j, i :: 0 <= j <= k && 0 <= i < |run[j].threads| && run[j].threads[i].pc.Trying? ==>
      !run[j].threads[i].local.active
    ensures !Stuck(run[k])
  {
    NoSelfWaiting(run, k);
    assert run[k].threads[0].pc.Trying? ==> !run[k].threads[0].local.active;
    assert Clean(run[k], 0);
  }

  lemma {:induction false} NoSelfWaiting(run: seq<State>, k: nat)
    requires IsRun(run) && k < |run|
    requires forall j, i :: 0 <= j <= k && 0 <= i < |run[j].threads| && run[j].threads[i].pc.Trying? ==>
      !run[j].threads[i].local.active
    ensures forall i :: 0 <= i < |run[k].threads| && run[k].threads[i].pc.Waiting? ==> !run[k].threads[i].local.active
  {
    if k == 0 {
      assert forall i :: 0 <= i < |run[0].threads| ==> AtStart(run[0].threads[i]);
    } else {
      NoSelfWaiting(run, k - 1);
      assert NextAt(run, k);
    }
  }
}
