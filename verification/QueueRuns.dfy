/** The circular buffer of queue.c between the thread that owns it and the reclaimer: every interleaving
    of the single loads and stores of pushes and pops. */
module QueueRuns {
  import opened Words
  import opened Bits
  import opened RingBuffer
  import Paths

  /** The owner is copying values into the slots behind the head; done of them are there. */
  datatype Writer = NotWriting | Writing(values: seq<nat>, done: nat)

  /** The reclaimer is copying the values up to index upto; taken holds those it has. */
  datatype Reader = NotReading | Reading(upto: nat, taken: seq<nat>)

  /** pushed and popped are what the two sides have pushed and popped so far. */
  datatype State = State(es: seq<nat>, head: nat, tail: nat, w: Writer, r: Reader, pushed: seq<nat>, popped: seq<nat>)

  datatype Action =
    | BeginPush(values: seq<nat>)
    | WriteSlot
    | PublishHead
    | BeginPop(len: nat)
    | ReadSlot
    | PublishTail

  predicate Init(s: State) {
    && |s.es| > 0 && s.head == 0 && s.tail == |s.es|
    && s.w.NotWriting? && s.r.NotReading? && s.pushed == [] && s.popped == []
  }

  /** A push of values begins with the caller's check that there is room (one value for
      forkscan_queue_push); a pop begins with the read of the head, and fakes it when len is less. */
  predicate Enabled(s: State, a: Action) {
    && |s.es| > 0 && |s.es| <= s.tail
    && match a
       case BeginPush(values) => s.w.NotWriting? && s.head + |values| < s.tail
       case WriteSlot => s.w.Writing? && s.w.done < |s.w.values|
       case PublishHead => s.w.Writing? && s.w.done == |s.w.values|
       case BeginPop(len) => s.r.NotReading? && s.tail <= s.head + |s.es|
       case ReadSlot => s.r.Reading? && s.tail - |s.es| + |s.r.taken| < s.r.upto
       case PublishTail => s.r.Reading? && s.tail - |s.es| + |s.r.taken| == s.r.upto
  }

  function Step(s: State, a: Action): State
    requires Enabled(s, a)
  {
    match a
    case BeginPush(values) => s.(w := Writing(values, 0))
    case WriteSlot => s.(es := Stored(s.es, s.head + s.w.done, s.w.values[s.w.done]), w := s.w.(done := s.w.done + 1))
    case PublishHead => s.(head := s.head + |s.w.values|, w := NotWriting, pushed := s.pushed + s.w.values)
    case BeginPop(len) => s.(r := Reading(s.tail - |s.es| + Min(len, s.head - (s.tail - |s.es|)), []))
    case ReadSlot => s.(r := s.r.(taken := s.r.taken + [s.es[Slot(s.tail + |s.r.taken|, |s.es|)]]))
    case PublishTail => s.(tail := s.r.upto + |s.es|, r := NotReading, popped := s.popped + s.r.taken)
  }

  ghost predicate Next(s: State, t: State) { exists a :: Enabled(s, a) && t == Step(s, a) }

  ghost predicate IsRun(run: seq<State>) {
    && |run| > 0 && Init(run[0])
    && forall k: nat :: 0 < k < |run| ==> NextAt(run, k)
  }

  ghost predicate NextAt(run: seq<State>, k: nat)
    requires 0 < k < |run|
  {
    Next(run[k - 1], run[k])
  }

  // ------------------------------------------------------------------ invariant

  /** What the owner has stored behind the head. */
  function Ahead(w: Writer): seq<nat> {
    if w.Writing? && w.done <= |w.values| then w.values[..w.done] else []
  }

  ghost predicate Indices(n: nat, head: nat, tail: nat, pushed: seq<nat>, popped: seq<nat>) {
    && n > 0 && n <= tail && head < tail <= head + n && |pushed| == head && |popped| == tail - n
    && popped == pushed[..tail - n]
  }

  ghost predicate WriterInv(head: nat, tail: nat, w: Writer) {
    w.Writing? ==> w.done <= |w.values| && head + |w.values| < tail
  }

  ghost predicate ReaderInv(base: nat, head: nat, r: Reader, pushed: seq<nat>) {
    r.Reading? ==> base + |r.taken| <= r.upto <= head <= |pushed| && r.taken == pushed[base..base + |r.taken|]
  }

  ghost predicate Inv(s: State) {
    && Indices(|s.es|, s.head, s.tail, s.pushed, s.popped)
    && WriterInv(s.head, s.tail, s.w)
    && ReaderInv(s.tail - |s.es|, s.head, s.r, s.pushed)
    && Window(s.es, s.tail - |s.es|, s.head + |Ahead(s.w)|) == s.pushed[s.tail - |s.es|..] + Ahead(s.w)
  }

  lemma WriteInv(s: State)
    requires Inv(s) && Enabled(s, WriteSlot)
    ensures Inv(Step(s, WriteSlot))
  {
    var at, v := s.head + s.w.done, s.w.values[s.w.done];
    StoreAppends(s.es, s.tail - |s.es|, at, v);
    assert s.w.values[..s.w.done] + [v] == s.w.values[..s.w.done + 1];
    var rest := s.pushed[s.tail - |s.es|..];
    assert rest + s.w.values[..s.w.done] + [v] == rest + s.w.values[..s.w.done + 1];
  }

  lemma MorePushed(pushed: seq<nat>, values: seq<nat>, base: nat)
    requires base <= |pushed|
    ensures (pushed + values)[base..] == pushed[base..] + values && (pushed + values)[..base] == pushed[..base]
  {
  }

  lemma MoreIndices(n: nat, head: nat, tail: nat, pushed: seq<nat>, popped: seq<nat>, values: seq<nat>)
    requires Indices(n, head, tail, pushed, popped) && head + |values| < tail
    ensures Indices(n, head + |values|, tail, pushed + values, popped)
  {
    MorePushed(pushed, values, tail - n);
  }

  lemma MoreForReader(base: nat, head: nat, r: Reader, pushed: seq<nat>, values: seq<nat>)
    requires ReaderInv(base, head, r, pushed)
    ensures ReaderInv(base, head + |values|, r, pushed + values)
  {
    if r.Reading? { assert (pushed + values)[base..base + |r.taken|] == pushed[base..base + |r.taken|]; }
  }

  lemma PublishHeadInv(s: State)
    requires Inv(s) && Enabled(s, PublishHead)
    ensures Inv(Step(s, PublishHead))
  {
    assert Ahead(s.w) == s.w.values;
    MorePushed(s.pushed, s.w.values, s.tail - |s.es|);
    MoreIndices(|s.es|, s.head, s.tail, s.pushed, s.popped, s.w.values);
    MoreForReader(s.tail - |s.es|, s.head, s.r, s.pushed, s.w.values);
  }

  /** What is read is what was pushed at that index. */
  lemma ReadsPushed(s: State, a: nat)
    requires Inv(s) && s.tail - |s.es| <= a < s.head
    ensures s.es[Slot(a, |s.es|)] == s.pushed[a]
  {
    var base := s.tail - |s.es|;
    assert Window(s.es, base, s.head + |Ahead(s.w)|)[a - base] == s.es[Slot(base + (a - base), |s.es|)];
    assert s.pushed[base..][a - base] == s.pushed[a];
  }

  lemma SlotAround(a: nat, n: nat)
    requires n > 0
    ensures Slot(a + n, n) == Slot(a, n)
  {
    assert a + n == n * (a / n + 1) + a % n;
  }

  lemma MoreTaken(base: nat, head: nat, r: Reader, pushed: seq<nat>)
    requires ReaderInv(base, head, r, pushed) && r.Reading? && base + |r.taken| < r.upto
    ensures ReaderInv(base, head, r.(taken := r.taken + [pushed[base + |r.taken|]]), pushed)
  {
    var m := |r.taken|;
    assert pushed[base..base + m] + [pushed[base + m]] == pushed[base..base + m + 1];
  }

  lemma ReadStep(s: State)
    requires Inv(s) && Enabled(s, ReadSlot)
    ensures s.tail - |s.es| + |s.r.taken| < |s.pushed|
    ensures Step(s, ReadSlot) == s.(r := s.r.(taken := s.r.taken + [s.pushed[s.tail - |s.es| + |s.r.taken|]]))
  {
    var base, m := s.tail - |s.es|, |s.r.taken|;
    SlotAround(base + m, |s.es|);
    ReadsPushed(s, base + m);
  }

  lemma ReadInv(s: State)
    requires Inv(s) && Enabled(s, ReadSlot)
    ensures Inv(Step(s, ReadSlot))
  {
    ReadStep(s);
    MoreTaken(s.tail - |s.es|, s.head, s.r, s.pushed);
  }

  lemma TailParts(pushed: seq<nat>, ahead: seq<nat>, base: nat, upto: nat)
    requires base <= upto <= |pushed|
    ensures pushed[..base] + pushed[base..upto] == pushed[..upto]
    ensures (pushed[base..] + ahead)[upto - base..] == pushed[upto..] + ahead
  {
  }

  lemma TailWindow(es: seq<nat>, base: nat, upto: nat, end: nat)
    requires |es| > 0 && base <= upto <= end
    ensures Window(es, base, end)[upto - base..] == Window(es, upto, end)
  {
    WindowSplits(es, base, upto, end);
  }

  lemma LessIndices(n: nat, head: nat, tail: nat, pushed: seq<nat>, popped: seq<nat>, r: Reader)
    requires Indices(n, head, tail, pushed, popped) && r.Reading? && ReaderInv(tail - n, head, r, pushed)
    requires tail - n + |r.taken| == r.upto
    ensures Indices(n, head, r.upto + n, pushed, popped + r.taken)
  {
    TailParts(pushed, [], tail - n, r.upto);
  }

  lemma LessWindow(es: seq<nat>, base: nat, upto: nat, end: nat, pushed: seq<nat>, ahead: seq<nat>)
    requires |es| > 0 && base <= upto <= end && upto <= |pushed| && Window(es, base, end) == pushed[base..] + ahead
    ensures Window(es, upto, end) == pushed[upto..] + ahead
  {
    TailParts(pushed, ahead, base, upto);
    TailWindow(es, base, upto, end);
  }

  lemma PublishTailInv(s: State)
    requires Inv(s) && Enabled(s, PublishTail)
    ensures Inv(Step(s, PublishTail))
  {
    LessIndices(|s.es|, s.head, s.tail, s.pushed, s.popped, s.r);
    LessWindow(s.es, s.tail - |s.es|, s.r.upto, s.head + |Ahead(s.w)|, s.pushed, Ahead(s.w));
  }

  lemma StepInv(s: State, a: Action)
    requires Inv(s) && Enabled(s, a)
    ensures Inv(Step(s, a)) && |Step(s, a).es| == |s.es|
  {
    match a
    case BeginPush(values) =>
      assert values[..0] == [];
    case WriteSlot => WriteInv(s);
    case PublishHead => PublishHeadInv(s);
    case BeginPop(len) =>
    case ReadSlot => ReadInv(s);
    case PublishTail => PublishTailInv(s);
  }

  lemma InitInv(s: State)
    requires Init(s)
    ensures Inv(s)
  {
  }

  lemma NextInv(s: State, t: State)
    requires Inv(s) && Next(s, t)
    ensures Inv(t) && |t.es| == |s.es|
  {
    var a :| Enabled(s, a) && t == Step(s, a);
    StepInv(s, a);
  }

  lemma {:induction false} RunInv(run: seq<State>, k: nat)
    requires IsRun(run) && k < |run|
    ensures Inv(run[k]) && |run[k].es| == |run[0].es|
  {
    if k == 0 {
      InitInv(run[0]);
    } else {
      RunInv(run, k - 1);
      assert NextAt(run, k);
      NextInv(run[k - 1], run[k]);
    }
  }

  // ------------------------------------------------------------------ the theorems

  /** In every run the popped values are the oldest of the pushed ones, in order; the slots between tail
      and head hold the others; and so do the values already read of a pop that is under way. */
  lemma QueueIsFifo(run: seq<State>, k: nat)
    requires IsRun(run) && k < |run|
    ensures |run[k].es| == |run[0].es| > 0 && |run[k].es| <= run[k].tail <= run[k].head + |run[k].es|
    ensures run[k].pushed == run[k].popped + Window(run[k].es, run[k].tail - |run[k].es|, run[k].head)
    ensures run[k].r.Reading? ==> run[k].popped + run[k].r.taken <= run[k].pushed
    ensures |run[k].pushed| - |run[k].popped| < |run[0].es|
  {
    RunInv(run, k);
    var s := run[k];
    var base := s.tail - |s.es|;
    WindowSplits(s.es, base, s.head, s.head + |Ahead(s.w)|);
    assert (s.pushed[base..] + Ahead(s.w))[..s.head - base] == s.pushed[base..];
    assert Window(s.es, base, s.head) == Window(s.es, base, s.head + |Ahead(s.w)|)[..s.head - base];
    assert s.pushed[..base] + s.pushed[base..] == s.pushed;
    if s.r.Reading? {
      assert s.pushed[..base] + s.pushed[base..base + |s.r.taken|] == s.pushed[..base + |s.r.taken|];
    }
  }

  /** No store of the owner goes to a slot whose value has not been popped, and every load of the
      reclaimer gets the value that was pushed at that index. */
  lemma UnreadSlotsAreKept(run: seq<State>, k: nat)
    requires IsRun(run) && k < |run|
    ensures var s := run[k];
            |s.es| > 0 && |s.es| <= s.tail
            && (Enabled(s, WriteSlot) ==>
                  forall a :: s.tail - |s.es| <= a < s.head ==> Slot(a, |s.es|) != Slot(s.head + s.w.done, |s.es|))
            && (Enabled(s, ReadSlot) ==>
                  s.tail - |s.es| + |s.r.taken| < |s.pushed|
                  && Step(s, ReadSlot).r.taken == s.r.taken + [s.pushed[s.tail - |s.es| + |s.r.taken|]])
  {
    RunInv(run, k);
    if Enabled(run[k], WriteSlot) { StoresSpare(run[k]); }
    if Enabled(run[k], ReadSlot) { LoadsPushed(run[k]); }
  }

  lemma StoresSpare(s: State)
    requires Inv(s) && Enabled(s, WriteSlot)
    ensures forall a :: s.tail - |s.es| <= a < s.head ==> Slot(a, |s.es|) != Slot(s.head + s.w.done, |s.es|)
  {
    forall a | s.tail - |s.es| <= a < s.head ensures Slot(a, |s.es|) != Slot(s.head + s.w.done, |s.es|) {
      SlotPlus(a, s.head + s.w.done - a, |s.es|);
    }
  }

  lemma LoadsPushed(s: State)
    requires Inv(s) && Enabled(s, ReadSlot)
    ensures s.tail - |s.es| + |s.r.taken| < |s.pushed|
    ensures Step(s, ReadSlot).r.taken == s.r.taken + [s.pushed[s.tail - |s.es| + |s.r.taken|]]
  {
    ReadsPushed(s, s.tail - |s.es| + |s.r.taken|);
    assert Slot(s.tail + |s.r.taken|, |s.es|) == Slot(s.tail - |s.es| + |s.r.taken|, |s.es|);
  }

  // ------------------------------------------------------------------ how much a push adds and a pop takes

  lemma NextWriting(s: State, t: State)
    requires Inv(s) && Next(s, t) && s.w.Writing?
    ensures if t.w.Writing? then t.w.values == s.w.values && t.pushed == s.pushed else t.pushed == s.pushed + s.w.values
  {
    var a :| Enabled(s, a) && t == Step(s, a);
  }

  /** A push that has begun with some values ends with just these pushed, whatever pops there are meanwhile. */
  lemma {:induction false} PushAdds(run: seq<State>, k: nat, m: nat)
    requires IsRun(run) && k < m < |run| && forall j :: k <= j < m ==> run[j].w.Writing?
    ensures if run[m].w.Writing? then run[m].w.values == run[k].w.values && run[m].pushed == run[k].pushed
            else run[m].pushed == run[k].pushed + run[k].w.values
    decreases m
  {
    if m > k + 1 { PushAdds(run, k, m - 1); }
    RunInv(run, m - 1);
    assert NextAt(run, m);
    NextWriting(run[m - 1], run[m]);
  }

  lemma NextReading(s: State, t: State)
    requires Inv(s) && Next(s, t) && s.r.Reading?
    ensures s.pushed <= t.pushed && s.r.upto <= |s.pushed|
    ensures if t.r.Reading? then t.r.upto == s.r.upto else t.popped == s.pushed[..s.r.upto]
  {
    var a :| Enabled(s, a) && t == Step(s, a);
    StepInv(s, a);
  }

  /** A pop that is to end at an index ends with just the values below it popped, whatever is pushed meanwhile. */
  lemma {:induction false} PopEnds(run: seq<State>, k: nat, m: nat)
    requires IsRun(run) && k < m < |run| && forall j :: k <= j < m ==> run[j].r.Reading?
    ensures run[k].pushed <= run[m].pushed && run[k].r.upto <= |run[k].pushed|
    ensures if run[m].r.Reading? then run[m].r.upto == run[k].r.upto
            else run[m].popped == run[k].pushed[..run[k].r.upto]
    decreases m
  {
    if m > k + 1 { PopEnds(run, k, m - 1); }
    RunInv(run, m - 1);
    assert NextAt(run, m);
    NextReading(run[m - 1], run[m]);
  }

  /** A pop with room for len values that finds n takes the oldest of them, len or n, whichever is less. */
  lemma PopTakes(run: seq<State>, k: nat, m: nat, len: nat)
    requires IsRun(run) && k + 1 < m < |run| && Enabled(run[k], BeginPop(len))
    requires run[k + 1] == Step(run[k], BeginPop(len))
    requires (forall j :: k < j < m ==> run[j].r.Reading?) && run[m].r.NotReading?
    ensures |run[k].popped| <= |run[k].pushed|
    ensures run[m].popped ==
      run[k].pushed[..|run[k].popped| + Min(len, |run[k].pushed| - |run[k].popped|)]
  {
    RunInv(run, k);
    PopEnds(run, k + 1, m);
  }

  // ------------------------------------------------------------------ each side can finish

  ghost function Owns(): (State, State) -> bool {
    (s, t) => exists a: Action :: (a.BeginPush? || a.WriteSlot? || a.PublishHead?) && Enabled(s, a) && t == Step(s, a)
  }

  ghost function Reclaims(): (State, State) -> bool {
    (s, t) => exists a: Action :: (a.BeginPop? || a.ReadSlot? || a.PublishTail?) && Enabled(s, a) && t == Step(s, a)
  }

  lemma OwnerDoes(s: State, a: Action)
    requires (a.BeginPush? || a.WriteSlot? || a.PublishHead?) && Enabled(s, a)
    ensures Paths.Leads(Owns(), s, Step(s, a))
  {
    assert Owns()(s, Step(s, a));
    Paths.One(Owns(), s, Step(s, a));
  }

  lemma ReclaimerDoes(s: State, a: Action)
    requires (a.BeginPop? || a.ReadSlot? || a.PublishTail?) && Enabled(s, a)
    ensures Paths.Leads(Reclaims(), s, Step(s, a))
  {
    assert Reclaims()(s, Step(s, a));
    Paths.One(Reclaims(), s, Step(s, a));
  }

  lemma {:induction false} WritesAll(s: State) returns (t: State)
    requires Inv(s) && s.w.Writing?
    ensures Paths.Leads(Owns(), s, t) && t.w.NotWriting? && t.pushed == s.pushed + s.w.values
    ensures t.r == s.r && t.popped == s.popped && t.tail == s.tail
    decreases |s.w.values| - s.w.done
  {
    if s.w.done == |s.w.values| {
      OwnerDoes(s, PublishHead);
      t := Step(s, PublishHead);
    } else {
      var m := Step(s, WriteSlot);
      OwnerDoes(s, WriteSlot);
      StepInv(s, WriteSlot);
      t := WritesAll(m);
      Paths.Join(Owns(), s, m, t);
    }
  }

  /** With room for them the owner can push values by itself. */
  lemma PushCanBeDone(run: seq<State>, k: nat, values: seq<nat>) returns (t: State)
    requires IsRun(run) && k < |run| && run[k].w.NotWriting?
    requires |run[k].pushed| - |run[k].popped| + |values| < |run[k].es|
    ensures Paths.Leads(Owns(), run[k], t) && t.w.NotWriting? && t.pushed == run[k].pushed + values
    ensures t.r == run[k].r && t.popped == run[k].popped
  {
    RunInv(run, k);
    var m := Step(run[k], BeginPush(values));
    OwnerDoes(run[k], BeginPush(values));
    StepInv(run[k], BeginPush(values));
    t := WritesAll(m);
    Paths.Join(Owns(), run[k], m, t);
  }

  lemma {:induction false} ReadsAll(s: State) returns (t: State)
    requires Inv(s) && s.r.Reading?
    ensures Paths.Leads(Reclaims(), s, t) && t.r.NotReading? && s.r.upto <= |s.pushed|
    ensures t.popped == s.pushed[..s.r.upto] && t.w == s.w && t.pushed == s.pushed
    decreases s.r.upto - |s.r.taken|
  {
    if s.tail - |s.es| + |s.r.taken| == s.r.upto {
      ReclaimerDoes(s, PublishTail);
      StepInv(s, PublishTail);
      t := Step(s, PublishTail);
    } else {
      var m := Step(s, ReadSlot);
      ReclaimerDoes(s, ReadSlot);
      StepInv(s, ReadSlot);
      t := ReadsAll(m);
      Paths.Join(Reclaims(), s, m, t);
    }
  }

  /** The reclaimer can pop by itself what there is, as far as it has room. */
  lemma PopCanBeDone(run: seq<State>, k: nat, len: nat) returns (t: State)
    requires IsRun(run) && k < |run| && run[k].r.NotReading?
    ensures Paths.Leads(Reclaims(), run[k], t) && t.r.NotReading? && |run[k].popped| <= |run[k].pushed|
    ensures t.popped == run[k].pushed[..|run[k].popped| + Min(len, |run[k].pushed| - |run[k].popped|)]
    ensures t.w == run[k].w && t.pushed == run[k].pushed
  {
    RunInv(run, k);
    var m := Step(run[k], BeginPop(len));
    ReclaimerDoes(run[k], BeginPop(len));
    StepInv(run[k], BeginPop(len));
    t := ReadsAll(m);
    Paths.Join(Reclaims(), run[k], m, t);
  }
}
