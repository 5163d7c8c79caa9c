/** The retiree buffers: the list of scanned buffers, their reference counts, and the threads that
    free unmarked entries while the GC thread copies the marked ones out.
    Models forkscan_util_free_ptrs (util.c) and the retiree list of buffer.c as a state machine; each
    step is one access to shared data or one critical section of g_retiree_mutex. */
module Retirees {
  import opened Words

  type BufId = nat

  const FREE_RANGE_SZ := 1024

  /** An entry of ab->addrs: an address, an address with the mark bit, or the value 0x2. */
  datatype Slot = Live(addr: Addr) | Marked(addr: Addr) | Consumed

  datatype Buffer = Buffer(slots: seq<Slot>, freeIdx: nat, refCount: int)

  /** The program points of free_ptrs.  Fault is reached by an access outside the entries. */
  datatype Pc = Outside | Loop | Check | Reread | Cas(seen: nat) | Take | Wipe(addr: Addr) | Free(addr: Addr)
              | Unlink | Unref | Fault

  datatype Worker = Worker(buf: Option<BufId>, begin: nat, end: nat, pc: Pc)
  {
    /** The worker has claimed entry k of b and not dealt with it yet. */
    ghost predicate Owns(b: BufId, k: nat) {
      buf == Some(b) && (begin <= k < end || (pc.Wipe? && k == begin - 1))
    }
  }

  datatype Gc = Resting | Carrying(buf: BufId, next: nat)

  /** `buffers` are the buffers pushed and not released.  `list` is the chain that starts at
      g_first_retiree_buffer and `last` is g_last_retiree_buffer: nothing in the type ties them. */
  datatype State = State(buffers: map<BufId, Buffer>, list: seq<BufId>, last: Option<BufId>,
                         workers: seq<Worker>, gc: Gc)

  datatype Op = Enter | Leave | Get | Resume | Examine | ReadAgain | TryClaim | TakeSlot | WipeSlot
               | FreeBlock | Pop | Drop

  datatype Action = By(t: nat, op: Op) | Publish(b: BufId, slots: seq<Slot>) | Carry | GcDrop

  // ------------------------------------------------------------------ the list, as the pointers make it

  /** Where the chain ends up when g_last_retiree_buffer->next is set to b. */
  function PushBack(list: seq<BufId>, last: Option<BufId>, b: BufId): seq<BufId> {
    match last
    case None => [b]
    case Some(l) => if l in list then list[..IndexOf(list, l) + 1] + [b] else list
  }

  function IndexOf(q: seq<BufId>, b: BufId): (i: nat)
    requires b in q
    ensures i < |q| && q[i] == b
  {
    if q[0] == b then 0 else 1 + IndexOf(q[1..], b)
  }

  function Without(q: seq<BufId>, b: BufId): seq<BufId> {
    if b in q then q[..IndexOf(q, b)] + q[IndexOf(q, b) + 1..] else q
  }

  // ------------------------------------------------------------------ steps

  predicate HasBuffer(s: State, w: Worker) { w.buf.Some? && w.buf.value in s.buffers }

  predicate Enabled(s: State, a: Action) {
    match a
    case By(t, op) => t < |s.workers| && EnabledOp(s, s.workers[t], op)
    case Publish(b, slots) => s.gc.Resting? && b !in s.buffers && |slots| > 0
                              && forall k :: 0 <= k < |slots| ==> !slots[k].Consumed?
    case Carry => s.gc.Carrying? && s.gc.buf in s.buffers && s.gc.next < |s.buffers[s.gc.buf].slots|
    case GcDrop => s.gc.Carrying? && s.gc.buf in s.buffers && s.gc.next == |s.buffers[s.gc.buf].slots|
  }

  predicate EnabledOp(s: State, w: Worker, op: Op) {
    match op
    case Enter => w.pc.Outside?
    case Leave => w.pc.Loop?
    case Get => w.pc.Loop? && w.buf.None? && (s.list != [] ==> s.list[0] in s.buffers)
    case Resume => w.pc.Loop? && w.buf.Some?
    case Examine => w.pc.Check? && HasBuffer(s, w)
    case ReadAgain => w.pc.Reread? && HasBuffer(s, w)
    case TryClaim => w.pc.Cas? && HasBuffer(s, w)
    case TakeSlot => w.pc.Take? && HasBuffer(s, w)
    case WipeSlot => w.pc.Wipe? && HasBuffer(s, w) && 0 < w.begin <= |s.buffers[w.buf.value].slots|
    case FreeBlock => w.pc.Free?
    case Pop => w.pc.Unlink? && w.buf.Some?
    case Drop => w.pc.Unref? && HasBuffer(s, w)
  }

  function WithWorker(s: State, t: nat, w: Worker): State
    requires t < |s.workers|
  {
    s.(workers := s.workers[t := w])
  }

  /** forkscan_buffer_unref_buffer: the last reference to an exhausted buffer releases it. */
  function Unreferenced(m: map<BufId, Buffer>, b: BufId): map<BufId, Buffer>
    requires b in m
  {
    var buf := m[b].(refCount := m[b].refCount - 1);
    if buf.refCount == 0 && buf.freeIdx >= |buf.slots| then m - {b} else m[b := buf]
  }

  function Step(s: State, a: Action): State
    requires Enabled(s, a)
  {
    match a
    case By(t, op) => StepOp(s, t, op)
    case Publish(b, slots) =>
      s.(buffers := s.buffers[b := Buffer(slots, 0, 1)], list := PushBack(s.list, s.last, b), last := Some(b),
         gc := Carrying(b, 0))
    case Carry => s.(gc := Carrying(s.gc.buf, s.gc.next + 1))
    case GcDrop => s.(buffers := Unreferenced(s.buffers, s.gc.buf), gc := Resting)
  }

  function StepOp(s: State, t: nat, op: Op): State
    requires t < |s.workers| && EnabledOp(s, s.workers[t], op)
  {
    var w := s.workers[t];
    match op
    case Enter => WithWorker(s, t, w.(pc := Loop))
    case Leave => WithWorker(s, t, w.(pc := Outside))
    case Get =>
      if s.list == [] then WithWorker(s, t, w.(pc := Outside))
      else
        var b := s.list[0];
        WithWorker(s.(buffers := s.buffers[b := s.buffers[b].(refCount := s.buffers[b].refCount + 1)]),
                   t, Worker(Some(b), 0, 0, Check))
    case Resume => WithWorker(s, t, w.(pc := Check))
    case Examine =>
      var buf := s.buffers[w.buf.value];
      WithWorker(s, t, w.(pc := if w.begin != w.end then Take
                                else if buf.freeIdx >= |buf.slots| then Unlink else Reread))
    case ReadAgain => WithWorker(s, t, w.(pc := Cas(s.buffers[w.buf.value].freeIdx)))
    case TryClaim =>
      var buf := s.buffers[w.buf.value];
      var end := Min(|buf.slots|, w.pc.seen + FREE_RANGE_SZ);
      if buf.freeIdx == w.pc.seen then
        WithWorker(s.(buffers := s.buffers[w.buf.value := buf.(freeIdx := end)]),
                   t, w.(begin := w.pc.seen, end := end, pc := Take))
      else WithWorker(s, t, w.(pc := Loop))
    case TakeSlot =>
      var slots := s.buffers[w.buf.value].slots;
      if w.begin >= |slots| || slots[w.begin].Consumed? then WithWorker(s, t, w.(pc := Fault))
      else if slots[w.begin].Marked? then WithWorker(s, t, w.(begin := w.begin + 1, pc := Loop))
      else WithWorker(s, t, w.(begin := w.begin + 1, pc := Wipe(slots[w.begin].addr)))
    case WipeSlot =>
      var buf := s.buffers[w.buf.value];
      WithWorker(s.(buffers := s.buffers[w.buf.value := buf.(slots := buf.slots[w.begin - 1 := Consumed])]),
                 t, w.(pc := Free(w.pc.addr)))
    case FreeBlock => WithWorker(s, t, w.(pc := Loop))
    case Pop =>
      var list := Without(s.list, w.buf.value);
      WithWorker(s.(list := list, last := if w.buf.value in s.list && list == [] then None else s.last),
                 t, w.(pc := Unref))
    case Drop =>
      WithWorker(s.(buffers := Unreferenced(s.buffers, w.buf.value)), t, w.(buf := None, pc := Loop))
  }

  ghost predicate Init(s: State) {
    && s.buffers == map[] && s.list == [] && s.last == None && s.gc == Resting
    && forall t :: 0 <= t < |s.workers| ==> s.workers[t] == Worker(None, 0, 0, Outside)
  }

  // ------------------------------------------------------------------ invariant

  ghost predicate ListOk(s: State) {
    && (forall k :: 0 <= k < |s.list| ==> s.list[k] in s.buffers)
    && (forall j, k :: 0 <= j < k < |s.list| ==> s.list[j] != s.list[k])
    && s.last == (if s.list == [] then None else Some(s.list[|s.list| - 1]))
  }

  function Holders(ws: seq<Worker>, b: BufId): nat {
    if ws == [] then 0 else (if ws[0].buf == Some(b) then 1 else 0) + Holders(ws[1..], b)
  }

  function Hands(g: Gc, b: BufId): nat { if g.Carrying? && g.buf == b then 1 else 0 }

  ghost predicate BufferOk(buf: Buffer, listed: bool, holders: nat, hands: nat) {
    && buf.freeIdx <= |buf.slots| && |buf.slots| > 0
    && buf.refCount == holders + hands
    && (!listed ==> buf.freeIdx == |buf.slots| && buf.refCount >= 1)
    && (listed && buf.freeIdx == |buf.slots| ==> holders >= 1)
  }

  ghost predicate BuffersOk(s: State) {
    forall b :: b in s.buffers ==> BufferOk(s.buffers[b], b in s.list, Holders(s.workers, b), Hands(s.gc, b))
  }

  ghost predicate Claimed(ws: seq<Worker>, b: BufId, k: nat) {
    exists t :: 0 <= t < |ws| && ws[t].Owns(b, k)
  }

  /** Entry k of b still holds an address to free. */
  ghost predicate LiveAt(m: map<BufId, Buffer>, b: BufId, k: nat) {
    b in m && k < |m[b].slots| && m[b].slots[k].Live?
  }

  /** Untaken entries are intact; taken ones are dealt with or in the hands of their claimant. */
  ghost predicate SlotsOk(s: State) {
    && (forall b, k :: b in s.buffers && s.buffers[b].freeIdx <= k < |s.buffers[b].slots| ==>
          !s.buffers[b].slots[k].Consumed?)
    && (forall b, k: nat :: LiveAt(s.buffers, b, k) && k < s.buffers[b].freeIdx ==> Claimed(s.workers, b, k))
  }

  ghost predicate WorkerOk(m: map<BufId, Buffer>, list: seq<BufId>, w: Worker) {
    && (w.buf.None? ==> w.pc.Outside? || w.pc.Loop?)
    && (w.buf.Some? ==>
          && w.buf.value in m
          && (w.buf.value in list ==> list[0] == w.buf.value)
          && (w.pc.Unref? ==> w.buf.value !in list)
          && WorkerPcOk(m[w.buf.value], w))
  }

  ghost predicate WorkerPcOk(buf: Buffer, w: Worker)
    requires w.buf.Some?
  {
    && w.begin <= w.end <= buf.freeIdx
    && (forall k :: 0 <= k < |buf.slots| && w.Owns(w.buf.value, k) ==> !buf.slots[k].Consumed?)
    && (w.pc.Reread? || w.pc.Cas? || w.pc.Unlink? || w.pc.Unref? ==> w.begin == w.end)
    && (w.pc.Cas? ==> w.pc.seen <= buf.freeIdx)
    && (w.pc.Unlink? || w.pc.Unref? ==> buf.freeIdx == |buf.slots|)
    && ((w.pc.Take? && w.begin == w.end) || w.pc.Fault? ==> w.begin == w.end == |buf.slots|)
    && (w.pc.Wipe? ==> 0 < w.begin <= |buf.slots| && buf.slots[w.begin - 1] == Live(w.pc.addr))
  }

  ghost predicate WorkersOk(s: State) {
    forall t :: 0 <= t < |s.workers| ==> WorkerOk(s.buffers, s.list, s.workers[t])
  }

  ghost predicate ClaimsDisjoint(ws: seq<Worker>) {
    forall t, u, b, k :: 0 <= t < u < |ws| && ws[t].Owns(b, k) ==> !ws[u].Owns(b, k)
  }

  ghost predicate GcOk(s: State) {
    s.gc.Carrying? ==> s.gc.buf in s.buffers && s.gc.next <= |s.buffers[s.gc.buf].slots|
  }

  ghost predicate Inv(s: State) {
    ListOk(s) && GcOk(s) && BuffersOk(s) && SlotsOk(s) && WorkersOk(s) && ClaimsDisjoint(s.workers)
  }

  // ------------------------------------------------------------------ counting holders

  lemma {:induction false} HoldersUpdate(ws: seq<Worker>, t: nat, w: Worker, b: BufId)
    requires t < |ws|
    ensures Holders(ws[t := w], b) + (if ws[t].buf == Some(b) then 1 else 0)
         == Holders(ws, b) + (if w.buf == Some(b) then 1 else 0)
  {
    if t == 0 {
      assert ws[0 := w][1..] == ws[1..];
    } else {
      HoldersUpdate(ws[1..], t - 1, w, b);
      assert ws[t := w][1..] == ws[1..][t - 1 := w];
    }
  }

  lemma {:induction false} HoldersPositive(ws: seq<Worker>, b: BufId)
    ensures Holders(ws, b) > 0 <==> exists t :: 0 <= t < |ws| && ws[t].buf == Some(b)
  {
    if ws != [] {
      HoldersPositive(ws[1..], b);
      if Holders(ws, b) > 0 && ws[0].buf != Some(b) {
        var t :| 0 <= t < |ws[1..]| && ws[1..][t].buf == Some(b);
        assert ws[t + 1].buf == Some(b);
      }
      if t :| 0 <= t < |ws| && ws[t].buf == Some(b) {
        assert t > 0 ==> ws[1..][t - 1].buf == Some(b);
      }
    }
  }

  // ------------------------------------------------------------------ preservation

  lemma InitInv(s: State)
    requires Init(s)
    ensures Inv(s)
  {
  }

  predicate IsLocal(op: Op) {
    op.Enter? || op.Leave? || op.Resume? || op.Examine? || op.ReadAgain? || op.TakeSlot? || op.FreeBlock?
  }

  /** A worker that keeps its buffer keeps every buffer's count of holders. */
  lemma SameHolders(ws: seq<Worker>, t: nat, w: Worker)
    requires t < |ws| && w.buf == ws[t].buf
    ensures forall b :: Holders(ws[t := w], b) == Holders(ws, b)
  {
    forall b ensures Holders(ws[t := w], b) == Holders(ws, b) { HoldersUpdate(ws, t, w, b); }
  }

  /** Replacing worker t by one that owns no more keeps the claims disjoint. */
  lemma ClaimsShrink(ws: seq<Worker>, t: nat, w: Worker)
    requires t < |ws| && ClaimsDisjoint(ws)
    requires forall b, k :: w.Owns(b, k) ==> ws[t].Owns(b, k)
    ensures ClaimsDisjoint(ws[t := w])
  {
  }

  lemma ClaimedByOthers(ws: seq<Worker>, t: nat, w: Worker, b: BufId, k: nat)
    requires t < |ws| && Claimed(ws, b, k)
    requires ws[t].Owns(b, k) ==> w.Owns(b, k)
    ensures Claimed(ws[t := w], b, k)
  {
    var u :| 0 <= u < |ws| && ws[u].Owns(b, k);
    assert ws[t := w][u].Owns(b, k);
  }

  /** A step that only moves one worker on keeps the invariant if that worker stays consistent and
      gives up no live entry. */
  lemma ReplaceInv(s: State, t: nat, w: Worker)
    requires Inv(s) && t < |s.workers|
    requires w.buf == s.workers[t].buf && WorkerOk(s.buffers, s.list, w)
    requires forall b, k :: w.Owns(b, k) ==> s.workers[t].Owns(b, k)
    requires forall b, k: nat :: LiveAt(s.buffers, b, k) && s.workers[t].Owns(b, k) ==> w.Owns(b, k)
    ensures Inv(WithWorker(s, t, w))
  {
    var s' := WithWorker(s, t, w);
    SameHolders(s.workers, t, w);
    ClaimsShrink(s.workers, t, w);
    forall b, k: nat | LiveAt(s.buffers, b, k) && k < s.buffers[b].freeIdx
      ensures Claimed(s'.workers, b, k)
    {
      ClaimedByOthers(s.workers, t, w, b, k);
    }
  }

  lemma EachWorkerOk(s: State, t: nat)
    requires Inv(s) && t < |s.workers|
    ensures WorkerOk(s.buffers, s.list, s.workers[t]) && InBounds(s, s.workers[t])
  {
  }

  ghost predicate InBounds(s: State, w: Worker) {
    w.buf.Some? && w.buf.value in s.buffers ==> s.buffers[w.buf.value].freeIdx <= |s.buffers[w.buf.value].slots|
  }

  lemma LocalInv(s: State, t: nat, op: Op)
    requires Inv(s) && t < |s.workers| && EnabledOp(s, s.workers[t], op) && IsLocal(op)
    ensures Inv(StepOp(s, t, op))
  {
    EachWorkerOk(s, t);
    LocalStep(s, t, op);
    LocalWorkerOk(s, t, op);
    ReplaceInv(s, t, StepOp(s, t, op).workers[t]);
  }

  lemma LocalStep(s: State, t: nat, op: Op)
    requires t < |s.workers| && EnabledOp(s, s.workers[t], op) && IsLocal(op)
    ensures var w' := StepOp(s, t, op).workers[t];
      && StepOp(s, t, op) == WithWorker(s, t, w') && w'.buf == s.workers[t].buf
  {
  }

  lemma LocalWorkerOk(s: State, t: nat, op: Op)
    requires t < |s.workers| && EnabledOp(s, s.workers[t], op) && IsLocal(op)
    requires WorkerOk(s.buffers, s.list, s.workers[t]) && InBounds(s, s.workers[t])
    ensures var w' := StepOp(s, t, op).workers[t];
      && WorkerOk(s.buffers, s.list, w')
      && (forall b, k :: w'.Owns(b, k) ==> s.workers[t].Owns(b, k))
      && (forall b, k: nat :: LiveAt(s.buffers, b, k) && s.workers[t].Owns(b, k) ==> w'.Owns(b, k))
  {
  }

  lemma GetInv(s: State, t: nat)
    requires Inv(s) && t < |s.workers| && EnabledOp(s, s.workers[t], Get)
    ensures Inv(StepOp(s, t, Get))
  {
    var s' := StepOp(s, t, Get);
    var w' := s'.workers[t];
    if s.list == [] {
      ReplaceInv(s, t, w');
    } else {
      GetBuffersOk(s, t);
      ClaimsShrink(s.workers, t, w');
      GetWorkersOk(s, t);
      GetSlots(s, t);
    }
  }

  lemma GetSlots(s: State, t: nat)
    requires SlotsOk(s) && WorkersOk(s) && t < |s.workers| && EnabledOp(s, s.workers[t], Get) && s.list != []
    ensures SlotsOk(StepOp(s, t, Get))
  {
    var s' := StepOp(s, t, Get);
    forall c, k: nat | LiveAt(s'.buffers, c, k) && k < s'.buffers[c].freeIdx ensures Claimed(s'.workers, c, k) {
      assert LiveAt(s.buffers, c, k);
      ClaimedByOthers(s.workers, t, s'.workers[t], c, k);
    }
  }

  lemma GetBuffersOk(s: State, t: nat)
    requires BuffersOk(s) && ListOk(s) && t < |s.workers| && EnabledOp(s, s.workers[t], Get) && s.list != []
    ensures BuffersOk(StepOp(s, t, Get))
  {
    var s', b := StepOp(s, t, Get), s.list[0];
    forall c ensures Holders(s'.workers, c) == Holders(s.workers, c) + if c == b then 1 else 0 {
      HoldersUpdate(s.workers, t, s'.workers[t], c);
    }
  }

  lemma GetWorkersOk(s: State, t: nat)
    requires WorkersOk(s) && BuffersOk(s) && ListOk(s) && t < |s.workers| && EnabledOp(s, s.workers[t], Get)
    requires s.list != []
    ensures WorkersOk(StepOp(s, t, Get))
  {
    var s' := StepOp(s, t, Get);
    forall u | 0 <= u < |s'.workers| ensures WorkerOk(s'.buffers, s'.list, s'.workers[u]) {
      assert WorkerOk(s.buffers, s.list, s.workers[u]);
    }
  }

  lemma ClaimInv(s: State, t: nat)
    requires Inv(s) && t < |s.workers| && EnabledOp(s, s.workers[t], TryClaim)
    ensures Inv(StepOp(s, t, TryClaim))
  {
    var s' := StepOp(s, t, TryClaim);
    var w, w' := s.workers[t], s'.workers[t];
    var b := w.buf.value;
    assert WorkerOk(s.buffers, s.list, w);
    if s.buffers[b].freeIdx != w.pc.seen { ReplaceInv(s, t, w'); } else { ClaimWon(s, t); }
  }

  /** The compare-and-swap succeeds. */
  lemma ClaimWon(s: State, t: nat)
    requires Inv(s) && t < |s.workers| && EnabledOp(s, s.workers[t], TryClaim)
    requires s.buffers[s.workers[t].buf.value].freeIdx == s.workers[t].pc.seen
    ensures Inv(StepOp(s, t, TryClaim))
  {
    ClaimDisjoint(s, t);
    ClaimWorkersOk(s, t);
    ClaimSlots(s, t);
    ClaimBuffers(s, t);
  }

  lemma ClaimBuffers(s: State, t: nat)
    requires Inv(s) && t < |s.workers| && EnabledOp(s, s.workers[t], TryClaim)
    requires s.buffers[s.workers[t].buf.value].freeIdx == s.workers[t].pc.seen
    ensures BuffersOk(StepOp(s, t, TryClaim)) && ListOk(StepOp(s, t, TryClaim)) && GcOk(StepOp(s, t, TryClaim))
  {
    var s' := StepOp(s, t, TryClaim);
    SameHolders(s.workers, t, s'.workers[t]);
    HoldersPositive(s.workers, s.workers[t].buf.value);
  }

  lemma ClaimWorkersOk(s: State, t: nat)
    requires BuffersOk(s) && WorkersOk(s) && SlotsOk(s) && t < |s.workers| && EnabledOp(s, s.workers[t], TryClaim)
    requires s.buffers[s.workers[t].buf.value].freeIdx == s.workers[t].pc.seen
    ensures WorkersOk(StepOp(s, t, TryClaim))
  {
    var s' := StepOp(s, t, TryClaim);
    assert WorkerOk(s.buffers, s.list, s.workers[t]);
    forall u | 0 <= u < |s'.workers| ensures WorkerOk(s'.buffers, s'.list, s'.workers[u]) {
      assert WorkerOk(s.buffers, s.list, s.workers[u]);
    }
  }

  /** A claim made by a successful CAS lies above every earlier claim. */
  lemma ClaimDisjoint(s: State, t: nat)
    requires Inv(s) && t < |s.workers| && EnabledOp(s, s.workers[t], TryClaim)
    requires s.buffers[s.workers[t].buf.value].freeIdx == s.workers[t].pc.seen
    ensures ClaimsDisjoint(StepOp(s, t, TryClaim).workers)
  {
    var s' := StepOp(s, t, TryClaim);
    forall u, v, b, k | 0 <= u < v < |s'.workers| && s'.workers[u].Owns(b, k) ensures !s'.workers[v].Owns(b, k) {
      assert WorkerOk(s.buffers, s.list, s.workers[u]) && WorkerOk(s.buffers, s.list, s.workers[v]);
    }
  }

  lemma ClaimSlots(s: State, t: nat)
    requires Inv(s) && t < |s.workers| && EnabledOp(s, s.workers[t], TryClaim)
    requires s.buffers[s.workers[t].buf.value].freeIdx == s.workers[t].pc.seen
    ensures SlotsOk(StepOp(s, t, TryClaim))
  {
    var s' := StepOp(s, t, TryClaim);
    var w, w' := s.workers[t], s'.workers[t];
    assert WorkerOk(s.buffers, s.list, w);
    forall b, k: nat | LiveAt(s'.buffers, b, k) && k < s'.buffers[b].freeIdx
      ensures Claimed(s'.workers, b, k)
    {
      if k < s.buffers[b].freeIdx {
        assert Claimed(s.workers, b, k);
        ClaimedByOthers(s.workers, t, w', b, k);
      } else {
        assert w'.Owns(b, k);
      }
    }
  }

  lemma WipeInv(s: State, t: nat)
    requires Inv(s) && t < |s.workers| && EnabledOp(s, s.workers[t], WipeSlot)
    ensures Inv(StepOp(s, t, WipeSlot))
  {
    var s' := StepOp(s, t, WipeSlot);
    var w, w' := s.workers[t], s'.workers[t];
    SameHolders(s.workers, t, w');
    ClaimsShrink(s.workers, t, w');
    WipeWorkersOk(s, t);
    WipeSlotsOk(s, t);
  }

  lemma WipeWorkersOk(s: State, t: nat)
    requires WorkersOk(s) && ClaimsDisjoint(s.workers) && t < |s.workers| && EnabledOp(s, s.workers[t], WipeSlot)
    ensures WorkersOk(StepOp(s, t, WipeSlot))
  {
    var s', w := StepOp(s, t, WipeSlot), s.workers[t];
    assert WorkerOk(s.buffers, s.list, w) && w.Owns(w.buf.value, w.begin - 1);
    forall u | 0 <= u < |s'.workers| ensures WorkerOk(s'.buffers, s'.list, s'.workers[u]) {
      assert WorkerOk(s.buffers, s.list, s.workers[u]);
      assert u != t ==> !s.workers[u].Owns(w.buf.value, w.begin - 1);
    }
  }

  lemma WipeSlotsOk(s: State, t: nat)
    requires SlotsOk(s) && WorkersOk(s) && t < |s.workers| && EnabledOp(s, s.workers[t], WipeSlot)
    ensures SlotsOk(StepOp(s, t, WipeSlot))
  {
    var s' := StepOp(s, t, WipeSlot);
    assert WorkerOk(s.buffers, s.list, s.workers[t]);
    forall b, k: nat | LiveAt(s'.buffers, b, k) && k < s'.buffers[b].freeIdx ensures Claimed(s'.workers, b, k) {
      ClaimedByOthers(s.workers, t, s'.workers[t], b, k);
    }
  }

  /** The buffer a worker pops is the front of the list or no longer in it. */
  lemma PopTakesFront(s: State, t: nat)
    requires Inv(s) && t < |s.workers| && EnabledOp(s, s.workers[t], Pop)
    ensures var b := s.workers[t].buf.value;
      && (b in s.list ==> s.list[0] == b)
      && Without(s.list, b) == (if b in s.list then s.list[1..] else s.list)
  {
    assert WorkerOk(s.buffers, s.list, s.workers[t]);
  }

  /** Taking the front off leaves a consistent list with the other members. */
  lemma TailListOk(s: State, s': State)
    requires ListOk(s) && s.list != [] && s'.buffers == s.buffers && s'.list == s.list[1..]
    requires s'.last == (if s'.list == [] then None else s.last)
    ensures ListOk(s') && forall c :: c in s'.list <==> c in s.list && c != s.list[0]
  {
    forall c | c in s.list && c != s.list[0] ensures c in s'.list {
      var k :| 0 <= k < |s.list| && s.list[k] == c;
      assert s'.list[k - 1] == c;
    }
  }

  lemma PopListOk(s: State, t: nat)
    requires Inv(s) && t < |s.workers| && EnabledOp(s, s.workers[t], Pop)
    ensures var s' := StepOp(s, t, Pop);
      && ListOk(s') && (forall c :: c in s'.list <==> c in s.list && c != s.workers[t].buf.value)
  {
    PopTakesFront(s, t);
    if s.workers[t].buf.value in s.list { TailListOk(s, StepOp(s, t, Pop)); }
  }

  lemma PopInv(s: State, t: nat)
    requires Inv(s) && t < |s.workers| && EnabledOp(s, s.workers[t], Pop)
    ensures Inv(StepOp(s, t, Pop))
  {
    var s' := StepOp(s, t, Pop);
    var w, w' := s.workers[t], s'.workers[t];
    assert WorkerOk(s.buffers, s.list, w);
    PopListOk(s, t);
    SameHolders(s.workers, t, w');
    HoldersPositive(s.workers, w.buf.value);
    ClaimsShrink(s.workers, t, w');
    forall u | 0 <= u < |s'.workers| ensures WorkerOk(s'.buffers, s'.list, s'.workers[u]) {
      assert WorkerOk(s.buffers, s.list, s.workers[u]);
    }
    forall b, k: nat | LiveAt(s'.buffers, b, k) && k < s'.buffers[b].freeIdx ensures Claimed(s'.workers, b, k) {
      ClaimedByOthers(s.workers, t, w', b, k);
    }
  }

  /** Unreferencing either releases b, when it was exhausted and last held, or counts down. */
  lemma DropInv(s: State, t: nat)
    requires Inv(s) && t < |s.workers| && EnabledOp(s, s.workers[t], Drop)
    ensures Inv(StepOp(s, t, Drop))
  {
    DropBuffersOk(s, t);
    ClaimsShrink(s.workers, t, StepOp(s, t, Drop).workers[t]);
    DropWorkersOk(s, t);
    DropSlotsOk(s, t);
  }

  lemma DropWorkersOk(s: State, t: nat)
    requires WorkersOk(s) && t < |s.workers| && EnabledOp(s, s.workers[t], Drop)
    requires s.workers[t].buf.value !in StepOp(s, t, Drop).buffers ==>
      Holders(StepOp(s, t, Drop).workers, s.workers[t].buf.value) == 0
    ensures WorkersOk(StepOp(s, t, Drop))
  {
    var s', w := StepOp(s, t, Drop), s.workers[t];
    HoldersPositive(s'.workers, w.buf.value);
    forall u | 0 <= u < |s'.workers| ensures WorkerOk(s'.buffers, s'.list, s'.workers[u]) {
      assert WorkerOk(s.buffers, s.list, s.workers[u]);
      assert s'.workers[u].buf == w.buf ==> w.buf.value in s'.buffers;
    }
  }

  lemma DropSlotsOk(s: State, t: nat)
    requires SlotsOk(s) && WorkersOk(s) && t < |s.workers| && EnabledOp(s, s.workers[t], Drop)
    ensures SlotsOk(StepOp(s, t, Drop))
  {
    var s' := StepOp(s, t, Drop);
    assert WorkerOk(s.buffers, s.list, s.workers[t]);
    forall c, k: nat | LiveAt(s'.buffers, c, k) && k < s'.buffers[c].freeIdx ensures Claimed(s'.workers, c, k) {
      assert LiveAt(s.buffers, c, k);
      ClaimedByOthers(s.workers, t, s'.workers[t], c, k);
    }
  }

  lemma DropBuffersOk(s: State, t: nat)
    requires Inv(s) && t < |s.workers| && EnabledOp(s, s.workers[t], Drop)
    ensures var s' := StepOp(s, t, Drop); var b := s.workers[t].buf.value;
      && BuffersOk(s') && ListOk(s') && GcOk(s') && (b !in s'.buffers ==> Holders(s'.workers, b) == 0)
  {
    var s' := StepOp(s, t, Drop);
    assert WorkerOk(s.buffers, s.list, s.workers[t]);
    forall c ensures Holders(s'.workers, c) == Holders(s.workers, c) - if c == s.workers[t].buf.value then 1 else 0 {
      HoldersUpdate(s.workers, t, s'.workers[t], c);
    }
  }

  lemma GcDropInv(s: State)
    requires Inv(s) && Enabled(s, GcDrop)
    ensures Inv(Step(s, GcDrop))
  {
    GcDropBuffersOk(s);
    GcDropWorkersOk(s);
    GcDropSlotsOk(s);
  }

  lemma GcDropBuffersOk(s: State)
    requires BuffersOk(s) && ListOk(s) && GcOk(s) && Enabled(s, GcDrop)
    ensures BuffersOk(Step(s, GcDrop)) && ListOk(Step(s, GcDrop)) && GcOk(Step(s, GcDrop))
  {
  }

  lemma GcDropWorkersOk(s: State)
    requires BuffersOk(s) && WorkersOk(s) && Enabled(s, GcDrop)
    ensures WorkersOk(Step(s, GcDrop))
  {
    var s' := Step(s, GcDrop);
    HoldersPositive(s.workers, s.gc.buf);
    forall u | 0 <= u < |s'.workers| ensures WorkerOk(s'.buffers, s'.list, s'.workers[u]) {
      assert WorkerOk(s.buffers, s.list, s.workers[u]);
    }
  }

  lemma GcDropSlotsOk(s: State)
    requires SlotsOk(s) && Enabled(s, GcDrop)
    ensures SlotsOk(Step(s, GcDrop))
  {
    var s' := Step(s, GcDrop);
    forall c, k: nat | LiveAt(s'.buffers, c, k) && k < s'.buffers[c].freeIdx ensures Claimed(s'.workers, c, k) {
      assert LiveAt(s.buffers, c, k);
    }
  }

  lemma PublishList(s: State, b: BufId)
    requires ListOk(s)
    ensures PushBack(s.list, s.last, b) == s.list + [b]
  {
    if s.list != [] { LastIndex(s.list); }
  }

  lemma PublishInv(s: State, b: BufId, slots: seq<Slot>)
    requires Inv(s) && Enabled(s, Publish(b, slots))
    ensures Inv(Step(s, Publish(b, slots)))
  {
    PublishList(s, b);
    PublishBuffersOk(s, b, slots);
    PublishWorkersOk(s, b, slots);
    PublishSlotsOk(s, b, slots);
  }

  lemma PublishWorkersOk(s: State, b: BufId, slots: seq<Slot>)
    requires WorkersOk(s) && ListOk(s) && Enabled(s, Publish(b, slots)) && PushBack(s.list, s.last, b) == s.list + [b]
    ensures WorkersOk(Step(s, Publish(b, slots)))
  {
    var s' := Step(s, Publish(b, slots));
    forall u | 0 <= u < |s'.workers| ensures WorkerOk(s'.buffers, s'.list, s'.workers[u]) {
      assert WorkerOk(s.buffers, s.list, s.workers[u]);
    }
  }

  lemma PublishSlotsOk(s: State, b: BufId, slots: seq<Slot>)
    requires SlotsOk(s) && Enabled(s, Publish(b, slots))
    ensures SlotsOk(Step(s, Publish(b, slots)))
  {
    var s' := Step(s, Publish(b, slots));
    forall c, k: nat | LiveAt(s'.buffers, c, k) && k < s'.buffers[c].freeIdx ensures Claimed(s'.workers, c, k) {
      assert LiveAt(s.buffers, c, k);
    }
  }

  lemma PublishBuffersOk(s: State, b: BufId, slots: seq<Slot>)
    requires Inv(s) && Enabled(s, Publish(b, slots))
    ensures BuffersOk(Step(s, Publish(b, slots)))
  {
    PublishList(s, b);
    HoldersPositive(s.workers, b);
    forall u | 0 <= u < |s.workers| ensures s.workers[u].buf != Some(b) {
      assert WorkerOk(s.buffers, s.list, s.workers[u]);
    }
  }

  /** In a list without repetition the last element is found at the end. */
  lemma LastIndex(q: seq<BufId>)
    requires |q| > 0 && forall j, k :: 0 <= j < k < |q| ==> q[j] != q[k]
    ensures IndexOf(q, q[|q| - 1]) == |q| - 1
  {
  }

  /** Every step keeps the invariant. */
  lemma StepInv(s: State, a: Action)
    requires Inv(s) && Enabled(s, a)
    ensures Inv(Step(s, a))
  {
    match a
    case By(t, op) =>
      if IsLocal(op) { LocalInv(s, t, op); }
      else if op.Get? { GetInv(s, t); }
      else if op.TryClaim? { ClaimInv(s, t); }
      else if op.WipeSlot? { WipeInv(s, t); }
      else if op.Pop? { PopInv(s, t); }
      else { DropInv(s, t); }
    case Publish(b, slots) => PublishInv(s, b, slots);
    case Carry =>
    case GcDrop => GcDropInv(s);
  }

  // ------------------------------------------------------------------ theorems over runs

  ghost predicate Next(s: State, s': State) { exists a :: Enabled(s, a) && s' == Step(s, a) }

  ghost predicate IsRun(run: seq<State>) {
    && |run| > 0 && Init(run[0])
    && forall k: nat :: 0 < k < |run| ==> NextAt(run, k)
  }

  ghost predicate NextAt(run: seq<State>, k: nat)
    requires 0 < k < |run|
  {
    Next(run[k - 1], run[k])
  }

  lemma NextInv(s: State, s': State)
    requires Inv(s) && Next(s, s')
    ensures Inv(s')
  {
    var a :| Enabled(s, a) && s' == Step(s, a);
    StepInv(s, a);
  }

  lemma {:induction false} RunInv(run: seq<State>, k: nat)
    requires IsRun(run) && k < |run|
    ensures Inv(run[k])
  {
    if k == 0 {
      InitInv(run[0]);
    } else {
      RunInv(run, k - 1);
      assert NextAt(run, k);
      NextInv(run[k - 1], run[k]);
    }
  }

  /** The list is left alone, extended at the back, or shortened at the front. */
  ghost predicate FifoChange(before: seq<BufId>, after: seq<BufId>) {
    || after == before
    || (exists b :: b !in before && after == before + [b])
    || (before != [] && after == before[1..])
  }

  lemma StepIsFifo(s: State, a: Action)
    requires Inv(s) && Enabled(s, a)
    ensures FifoChange(s.list, Step(s, a).list)
  {
    match a
    case By(t, op) => if op.Pop? { PopTakesFront(s, t); }
    case Publish(b, slots) => PublishList(s, b);
    case _ =>
  }

  ghost predicate UsedIsFront(s: State) {
    forall t :: 0 <= t < |s.workers| && s.workers[t].buf.Some? && s.workers[t].buf.value in s.list
      ==> s.workers[t].buf.value == s.list[0]
  }

  /** The question at buffer.c:176.  In every run g_last_retiree_buffer is the true last element; a
      step leaves the list alone, appends to it, or takes its front off, so a buffer that is ever at
      the front stays there until it is popped; and a buffer in use by a worker is the front or out
      of the list. */
  lemma RetireeListStaysFifo(run: seq<State>, k: nat)
    requires IsRun(run) && k < |run|
    ensures run[k].last == (if run[k].list == [] then None else Some(run[k].list[|run[k].list| - 1]))
    ensures UsedIsFront(run[k])
    ensures k + 1 < |run| ==> FifoChange(run[k].list, run[k + 1].list)
  {
    RunInv(run, k);
    var s := run[k];
    forall t | 0 <= t < |s.workers| && s.workers[t].buf.Some? && s.workers[t].buf.value in s.list
      ensures s.workers[t].buf.value == s.list[0]
    {
      assert WorkerOk(s.buffers, s.list, s.workers[t]);
    }
    if k + 1 < |run| {
      assert NextAt(run, k + 1);
      var a :| Enabled(s, a) && run[k + 1] == Step(s, a);
      StepIsFifo(s, a);
    }
  }

  ghost predicate Unused(s: State, b: BufId) {
    Hands(s.gc, b) == 0 && forall t :: 0 <= t < |s.workers| ==> s.workers[t].buf != Some(b)
  }

  /** An exhausted buffer whose holders are all done has nothing left to free. */
  lemma NothingLive(s: State, b: BufId)
    requires Inv(s) && b in s.buffers && s.buffers[b].freeIdx == |s.buffers[b].slots|
    requires forall t :: 0 <= t < |s.workers| && s.workers[t].buf == Some(b) ==> s.workers[t].pc.Unref?
    ensures forall k: nat :: !LiveAt(s.buffers, b, k)
  {
    forall k: nat ensures !LiveAt(s.buffers, b, k) {
      forall t | 0 <= t < |s.workers| ensures !s.workers[t].Owns(b, k) {
        assert WorkerOk(s.buffers, s.list, s.workers[t]);
      }
      assert !Claimed(s.workers, b, k);
    }
  }

  lemma StepReleases(s: State, a: Action, b: BufId)
    requires Inv(s) && Enabled(s, a) && b in s.buffers && b !in Step(s, a).buffers
    ensures b !in s.list && s.buffers[b].refCount == 1 && Unused(Step(s, a), b)
    ensures forall k: nat :: !LiveAt(s.buffers, b, k)
  {
    if a.By? { DropReleases(s, a.t, b); } else { GcDropReleases(s, b); }
    NothingLive(s, b);
  }

  /** The reference that a thread drops is the last one: nobody else holds the buffer. */
  lemma DropReleases(s: State, t: nat, b: BufId)
    requires Inv(s) && t < |s.workers| && EnabledOp(s, s.workers[t], Drop) && s.workers[t].buf == Some(b)
    requires b in s.buffers && b !in StepOp(s, t, Drop).buffers
    ensures b !in s.list && s.buffers[b].refCount == 1 && Unused(StepOp(s, t, Drop), b)
    ensures forall u :: 0 <= u < |s.workers| && s.workers[u].buf == Some(b) ==> u == t
  {
    var s' := StepOp(s, t, Drop);
    assert WorkerOk(s.buffers, s.list, s.workers[t]);
    HoldersUpdate(s.workers, t, s'.workers[t], b);
    HoldersPositive(s'.workers, b);
    forall u | 0 <= u < |s.workers| && u != t ensures s.workers[u].buf != Some(b) {
      assert s'.workers[u] == s.workers[u];
    }
  }

  lemma GcDropReleases(s: State, b: BufId)
    requires Inv(s) && Enabled(s, GcDrop) && b in s.buffers && b !in Step(s, GcDrop).buffers
    ensures b !in s.list && s.buffers[b].refCount == 1 && Unused(Step(s, GcDrop), b)
    ensures forall t :: 0 <= t < |s.workers| ==> s.workers[t].buf != Some(b)
  {
    HoldersPositive(s.workers, b);
  }

  /** The step from s to s' pushes a buffer under the name b. */
  ghost predicate Pushes(s: State, s': State, b: BufId) {
    exists slots :: Enabled(s, Publish(b, slots)) && s' == Step(s, Publish(b, slots))
  }

  lemma OnlyPushAdds(s: State, a: Action, b: BufId)
    requires Enabled(s, a) && b !in s.buffers && b in Step(s, a).buffers
    ensures a.Publish? && a.b == b
  {
  }

  lemma NextPushes(s: State, t: State, b: BufId)
    requires Next(s, t) && b !in s.buffers && b in t.buffers
    ensures Pushes(s, t, b)
  {
    var a :| Enabled(s, a) && t == Step(s, a);
    OnlyPushAdds(s, a, b);
  }

  /** A buffer that is in use again has been pushed again. */
  lemma {:induction false} PushedBetween(run: seq<State>, k: nat, m: nat, b: BufId) returns (j: nat)
    requires IsRun(run) && k < m < |run| && b !in run[k].buffers && b in run[m].buffers
    ensures k <= j < m && Pushes(run[j], run[j + 1], b)
  {
    if b in run[m - 1].buffers {
      j := PushedBetween(run, k, m - 1, b);
    } else {
      j := m - 1;
      assert NextAt(run, m);
      NextPushes(run[j], run[m], b);
    }
  }

  /** A buffer is released only when it is unlisted, nobody holds it, and every entry was either marked or
      freed; and once per push: it can be in use later, and be released again, only after another push. */
  lemma ReleaseIsFinal(run: seq<State>, k: nat, b: BufId)
    requires IsRun(run) && k + 1 < |run|
    requires b in run[k].buffers && b !in run[k + 1].buffers
    ensures b !in run[k].list && run[k].buffers[b].refCount == 1 && Unused(run[k + 1], b)
    ensures forall i: nat :: !LiveAt(run[k].buffers, b, i)
    ensures forall m :: k + 1 < m < |run| && b in run[m].buffers ==>
      exists j :: k < j < m && Pushes(run[j], run[j + 1], b)
  {
    RunInv(run, k);
    assert NextAt(run, k + 1);
    var a :| Enabled(run[k], a) && run[k + 1] == Step(run[k], a);
    StepReleases(run[k], a, b);
    forall m | k + 1 < m < |run| && b in run[m].buffers ensures exists j :: k < j < m && Pushes(run[j], run[j + 1], b) {
      var j := PushedBetween(run, k + 1, m, b);
    }
  }

  /** What becomes of the second read of free_idx (util.c:257).  A worker that read n there, because
      another claimed the last range since the check at line 250, cannot fail its compare-and-swap
      and then accesses an entry outside the buffer; a worker that read less never does. */
  lemma SecondReadDecides(s: State, t: nat)
    requires Inv(s) && t < |s.workers| && EnabledOp(s, s.workers[t], TryClaim)
    ensures var n := |s.buffers[s.workers[t].buf.value].slots|;
      var s' := StepOp(s, t, TryClaim);
      && (s.workers[t].pc.seen >= n ==>
            EnabledOp(s', s'.workers[t], TakeSlot) && StepOp(s', t, TakeSlot).workers[t].pc.Fault?)
      && (s.workers[t].pc.seen < n && s'.workers[t].pc.Take? ==>
            EnabledOp(s', s'.workers[t], TakeSlot) && !StepOp(s', t, TakeSlot).workers[t].pc.Fault?)
  {
    EachWorkerOk(s, t);
    if s.workers[t].pc.seen >= |s.buffers[s.workers[t].buf.value].slots| {
      ReadAtEnd(s, t);
    } else if StepOp(s, t, TryClaim).workers[t].pc.Take? {
      ReadInRange(s, t);
    }
  }

  lemma ReadAtEnd(s: State, t: nat)
    requires t < |s.workers| && EnabledOp(s, s.workers[t], TryClaim) && WorkerOk(s.buffers, s.list, s.workers[t])
    requires InBounds(s, s.workers[t]) && s.workers[t].pc.seen >= |s.buffers[s.workers[t].buf.value].slots|
    ensures var s' := StepOp(s, t, TryClaim);
      EnabledOp(s', s'.workers[t], TakeSlot) && StepOp(s', t, TakeSlot).workers[t].pc.Fault?
  {
  }

  lemma ReadInRange(s: State, t: nat)
    requires Inv(s) && t < |s.workers| && EnabledOp(s, s.workers[t], TryClaim)
    requires s.workers[t].pc.seen < |s.buffers[s.workers[t].buf.value].slots|
    requires StepOp(s, t, TryClaim).workers[t].pc.Take?
    ensures var s' := StepOp(s, t, TryClaim);
      EnabledOp(s', s'.workers[t], TakeSlot) && !StepOp(s', t, TakeSlot).workers[t].pc.Fault?
  {
    assert !s.buffers[s.workers[t].buf.value].slots[s.workers[t].pc.seen].Consumed?;
  }

  /** No worker has read an exhausted free_idx at line 257. */
  ghost predicate SecondReadsInRange(s: State) {
    forall t :: 0 <= t < |s.workers| && s.workers[t].pc.Cas? && HasBuffer(s, s.workers[t]) ==>
      s.workers[t].pc.seen < |s.buffers[s.workers[t].buf.value].slots|
  }

  ghost predicate Faultless(s: State) {
    forall t :: 0 <= t < |s.workers| ==>
      !s.workers[t].pc.Fault? && (s.workers[t].pc.Take? ==> s.workers[t].begin < s.workers[t].end)
  }

  lemma StepFaultless(s: State, t: nat, op: Op)
    requires Inv(s) && t < |s.workers| && EnabledOp(s, s.workers[t], op) && Faultless(s) && SecondReadsInRange(s)
    ensures Faultless(StepOp(s, t, op))
  {
    assert WorkerOk(s.buffers, s.list, s.workers[t]);
    var w' := StepOp(s, t, op).workers[t];
    if op.TakeSlot? { assert s.workers[t].Owns(s.workers[t].buf.value, s.workers[t].begin); }
    assert !w'.pc.Fault? && (w'.pc.Take? ==> w'.begin < w'.end);
  }

  lemma NextFaultless(s: State, t: State)
    requires Inv(s) && Next(s, t) && Faultless(s) && SecondReadsInRange(s)
    ensures Faultless(t)
  {
    var a :| Enabled(s, a) && t == Step(s, a);
    if a.By? { StepFaultless(s, a.t, a.op); }
  }

  /** Before state k, every second read of free_idx has found entries left. */
  ghost predicate SecondReadsHit(run: seq<State>, k: nat)
    requires k < |run|
  {
    k > 0 ==> SecondReadsInRange(run[k - 1]) && SecondReadsHit(run, k - 1)
  }

  /** A run in which every second read of free_idx finds entries left never leaves the entries. */
  lemma {:induction false} InRangeRunIsFaultless(run: seq<State>, k: nat)
    requires IsRun(run) && k < |run| && SecondReadsHit(run, k)
    ensures Faultless(run[k])
  {
    if k > 0 {
      InRangeRunIsFaultless(run, k - 1);
      RunInv(run, k - 1);
      assert NextAt(run, k);
      NextFaultless(run[k - 1], run[k]);
    }
  }

  // ------------------------------------------------------------------ which entries hold addresses

  /** Entry k of b accounts for address x: unmarked and not consumed, or marked and not copied yet. */
  ghost predicate Occupied(s: State, b: BufId, k: nat, x: Addr) {
    && b in s.buffers && k < |s.buffers[b].slots|
    && (s.buffers[b].slots[k] == Live(x)
        || (s.buffers[b].slots[k] == Marked(x) && s.gc.Carrying? && s.gc.buf == b && s.gc.next <= k))
  }

  /** Only taking an address to free it, copying a marked one and publishing change what entries
      account for; in particular releasing a buffer loses nothing. */
  lemma OccupiedKept(s: State, a: Action)
    requires Inv(s) && Enabled(s, a)
    requires a == GcDrop || (a.By? && !a.op.WipeSlot?)
    ensures forall b, k, x :: Occupied(Step(s, a), b, k, x) <==> Occupied(s, b, k, x)
    ensures forall b, k :: LiveAt(Step(s, a).buffers, b, k) <==> LiveAt(s.buffers, b, k)
  {
    SlotsSame(s, a);
    forall b, k: nat ensures LiveAt(Step(s, a).buffers, b, k) <==> LiveAt(s.buffers, b, k) {
      if b in s.buffers && b !in Step(s, a).buffers { StepReleases(s, a, b); }
    }
    forall b, k: nat, x ensures Occupied(Step(s, a), b, k, x) <==> Occupied(s, b, k, x) {
      if b in s.buffers && b !in Step(s, a).buffers {
        StepReleases(s, a, b);
        assert !LiveAt(s.buffers, b, k);
      }
    }
  }

  lemma SlotsSame(s: State, a: Action)
    requires Enabled(s, a)
    requires a == GcDrop || (a.By? && !a.op.WipeSlot?)
    ensures var s' := Step(s, a);
      && (forall b :: b in s'.buffers ==> b in s.buffers && s'.buffers[b].slots == s.buffers[b].slots)
      && (if a.By? then s'.gc == s.gc else s'.gc == Resting && s.gc.next == |s.buffers[s.gc.buf].slots|)
  {
  }

  lemma OccupiedWiped(s: State, t: nat)
    requires t < |s.workers| && EnabledOp(s, s.workers[t], WipeSlot) && WorkerOk(s.buffers, s.list, s.workers[t])
    ensures var w := s.workers[t]; var s' := StepOp(s, t, WipeSlot);
      && Occupied(s, w.buf.value, w.begin - 1, w.pc.addr) && LiveAt(s.buffers, w.buf.value, w.begin - 1)
      && (forall b, k, x :: Occupied(s', b, k, x) <==> Occupied(s, b, k, x) && !(b == w.buf.value && k == w.begin - 1))
      && (forall b, k ::
            LiveAt(s'.buffers, b, k) <==> LiveAt(s.buffers, b, k) && !(b == w.buf.value && k == w.begin - 1))
  {
  }

  /** Entry i of b is untouched, or it was unmarked and a worker has taken it to free it. */
  ghost predicate OnlyTaken(s: State, s': State, b: BufId, i: nat)
    requires b in s.buffers && b in s'.buffers && i < |s.buffers[b].slots|
  {
    && i < |s'.buffers[b].slots| && |s'.workers| == |s.workers|
    && var before, after := s.buffers[b].slots[i], s'.buffers[b].slots[i];
       after == before || (before.Live? && after == Consumed
         && exists t :: 0 <= t < |s.workers|
                        && s.workers[t].pc == Wipe(before.addr) && s'.workers[t].pc == Free(before.addr))
  }

  lemma WipeTakes(s: State, t: nat, b: BufId, i: nat)
    requires t < |s.workers| && EnabledOp(s, s.workers[t], WipeSlot) && WorkerOk(s.buffers, s.list, s.workers[t])
    requires b in s.buffers && i < |s.buffers[b].slots|
    ensures b in StepOp(s, t, WipeSlot).buffers && OnlyTaken(s, StepOp(s, t, WipeSlot), b, i)
  {
  }

  lemma SameCount(s: State, a: Action)
    requires Enabled(s, a)
    ensures |Step(s, a).workers| == |s.workers|
  {
  }

  lemma PublishesOther(s: State, a: Action, b: BufId)
    requires Enabled(s, a) && (a.Publish? || a.Carry?) && b in s.buffers
    ensures b in Step(s, a).buffers && Step(s, a).buffers[b] == s.buffers[b]
  {
  }

  lemma StepOnlyTakes(s: State, a: Action, b: BufId, i: nat)
    requires Inv(s) && Enabled(s, a) && b in s.buffers && b in Step(s, a).buffers && i < |s.buffers[b].slots|
    ensures OnlyTaken(s, Step(s, a), b, i)
  {
    if a.By? && a.op.WipeSlot? {
      EachWorkerOk(s, a.t);
      WipeTakes(s, a.t, b, i);
    } else {
      SameCount(s, a);
      if a == GcDrop || a.By? { SlotsSame(s, a); } else { PublishesOther(s, a, b); }
    }
  }

  /** While a buffer is in use its entries change only by a worker that takes an unmarked one to free
      it: marked entries are never freed from it, and no entry is taken twice. */
  lemma EntriesAreOnlyTaken(run: seq<State>, k: nat, b: BufId, i: nat)
    requires IsRun(run) && k + 1 < |run| && b in run[k].buffers && b in run[k + 1].buffers
    requires i < |run[k].buffers[b].slots|
    ensures OnlyTaken(run[k], run[k + 1], b, i)
  {
    RunInv(run, k);
    assert NextAt(run, k + 1);
    var a :| Enabled(run[k], a) && run[k + 1] == Step(run[k], a);
    StepOnlyTakes(run[k], a, b, i);
  }

  lemma StepClaims(s: State, a: Action, b: BufId)
    requires Enabled(s, a) && b in s.buffers && b in Step(s, a).buffers
    requires Step(s, a).buffers[b].freeIdx != s.buffers[b].freeIdx
    ensures a.By? && a.op.TryClaim? && a.t < |Step(s, a).workers|
    ensures var w, buf := Step(s, a).workers[a.t], s.buffers[b];
      && w == Worker(Some(b), buf.freeIdx, Step(s, a).buffers[b].freeIdx, Take)
      && w.end == Min(|buf.slots|, buf.freeIdx + FREE_RANGE_SZ)
  {
  }

  /** Entries are claimed in ranges: free_idx only moves, from the first entry that is not claimed, over
      FREE_RANGE_SZ entries or what there is up to the end, and one thread has just these claimed then. */
  lemma ClaimsAreRanges(run: seq<State>, k: nat, b: BufId) returns (t: nat)
    requires IsRun(run) && k + 1 < |run| && b in run[k].buffers && b in run[k + 1].buffers
    requires run[k + 1].buffers[b].freeIdx != run[k].buffers[b].freeIdx
    ensures t < |run[k + 1].workers|
    ensures var w, buf := run[k + 1].workers[t], run[k].buffers[b];
      && w.buf == Some(b) && w.pc.Take? && w.begin == buf.freeIdx && w.end == run[k + 1].buffers[b].freeIdx
      && w.end == Min(|buf.slots|, buf.freeIdx + FREE_RANGE_SZ)
  {
    assert NextAt(run, k + 1);
    var a :| Enabled(run[k], a) && run[k + 1] == Step(run[k], a);
    StepClaims(run[k], a, b);
    t := a.t;
  }

  // ------------------------------------------------------------------ building runs

  lemma {:induction false} FreshBuffer(m: set<BufId>) returns (b: BufId)
    ensures b !in m && forall x :: x in m ==> x < b
  {
    b := 0;
    if m != {} {
      var x :| x in m;
      var above := FreshBuffer(m - {x});
      b := if x < above then above else x + 1;
      forall y | y in m ensures y < b { assert y == x || y in m - {x}; }
    }
  }

  lemma Extend(run: seq<State>, a: Action) returns (longer: seq<State>)
    requires IsRun(run) && Enabled(run[|run| - 1], a)
    ensures IsRun(longer) && longer[|longer| - 1] == Step(run[|run| - 1], a)
  {
    longer := run + [Step(run[|run| - 1], a)];
    forall k: nat | 0 < k < |longer| ensures NextAt(longer, k) {
      if k < |run| { assert NextAt(run, k); } else { assert Next(run[|run| - 1], longer[k]); }
    }
  }
}
