/** From addresses to the snapshot of the machines: when the ranges to scan are carved as collect_ranges
    does it, the words that find_roots visits hold every reference the snapshot of Lifecycle has to know
    of, and what one child marks is the least set of ParallelScan. */
module RootScan {
  import opened Words
  import A = AllocList
  import L = Lifecycle
  import P = ParallelScan
  import R = Retirees
  import S = Scanner

  // ------------------------------------------------------------------ the ranges

  function Joined(parts: seq<seq<Range>>): seq<Range> { if parts == [] then [] else parts[0] + Joined(parts[1..]) }

  /** The table of ranges: the pieces of every writable region, without Forkscan's own memory, and then the
      stacks. */
  ghost predicate Collected(ranges: seq<Range>, regions: seq<Range>, owned: seq<A.Block>, stacks: seq<Range>,
      parts: seq<seq<Range>>) {
    && ranges == Joined(parts) + stacks && |parts| == |regions|
    && forall i :: 0 <= i < |regions| ==> A.Carves(parts[i], owned, regions[i].low, regions[i].high)
  }

  lemma CoversJoin(p: seq<Range>, q: seq<Range>, x: nat)
    ensures A.Covers(p + q, x) <==> A.Covers(p, x) || A.Covers(q, x)
  {
    if A.Covers(p, x) {
      var i :| 0 <= i < |p| && p[i].low <= x < p[i].high;
      assert (p + q)[i] == p[i];
    }
    if A.Covers(q, x) {
      var i :| 0 <= i < |q| && q[i].low <= x < q[i].high;
      assert (p + q)[|p| + i] == q[i];
    }
  }

  lemma {:induction false} JoinedCovers(parts: seq<seq<Range>>, i: nat, x: nat)
    requires i < |parts| && A.Covers(parts[i], x)
    ensures A.Covers(Joined(parts), x)
  {
    CoversJoin(parts[0], Joined(parts[1..]), x);
    if i > 0 { JoinedCovers(parts[1..], i - 1, x); }
  }

  /** Nothing that is to be scanned is carved away. */
  lemma CollectedCovers(ranges: seq<Range>, regions: seq<Range>, owned: seq<A.Block>, stacks: seq<Range>,
      parts: seq<seq<Range>>, x: nat)
    requires Collected(ranges, regions, owned, stacks, parts)
    requires (A.Covers(regions, x) && !A.Owned(owned, x)) || A.Covers(stacks, x)
    ensures A.Covers(ranges, x)
  {
    CoversJoin(Joined(parts), stacks, x);
    if !A.Covers(stacks, x) {
      var i: nat :| i < |regions| && regions[i].low <= x < regions[i].high;
      JoinedCovers(parts, i, x);
    }
  }

  /** Ranges of whole words, within memory. */
  ghost predicate Fit(q: seq<Range>) {
    A.Aligned(q) && forall i :: 0 <= i < |q| ==> q[i].low <= q[i].high < S.NOWHERE
  }

  lemma {:induction false} JoinedFit(parts: seq<seq<Range>>)
    requires forall i :: 0 <= i < |parts| ==> Fit(parts[i])
    ensures Fit(Joined(parts))
  {
    if parts != [] {
      assert Fit(parts[0]);
      forall i | 0 <= i < |parts[1..]| ensures Fit(parts[1..][i]) { assert Fit(parts[i + 1]); }
      JoinedFit(parts[1..]);
    }
  }

  /** The scanner can work on what has been collected. */
  lemma CollectedFit(sc: S.Scan, ranges: seq<Range>, regions: seq<Range>, owned: seq<A.Block>, stacks: seq<Range>,
      parts: seq<seq<Range>>)
    requires Collected(ranges, regions, owned, stacks, parts) && Fit(regions) && Fit(stacks)
    requires forall i :: 0 <= i < |parts| ==> A.Aligned(parts[i])
    ensures sc.RangesOk(ranges)
  {
    forall i | 0 <= i < |parts| ensures Fit(parts[i]) { assert A.Aligned(parts[i]); }
    JoinedFit(parts);
  }

  // ------------------------------------------------------------------ memory

  /** The memory that the child sees holds the blocks of s, apart and at their addresses. */
  ghost predicate HoldsHeap(sc: S.Scan, s: L.State) {
    && (forall b :: b in s.heap ==> b % 8 == 0 && sc.words(b) == |s.heap[b]|)
    && (forall b, k :: b in s.heap && 0 <= k < |s.heap[b]| ==> sc.word(b + 8 * k) == s.heap[b][k])
    && (forall b, c :: b in s.heap && c in s.heap && b < c ==> sc.End(b) <= c)
  }

  /** Every word of a block is in a writable region and not in Forkscan's own memory. */
  ghost predicate HeapInRegions(s: L.State, regions: seq<Range>, owned: seq<A.Block>) {
    forall b, k: nat :: b in s.heap && k < |s.heap[b]| ==> InRegion(regions, owned, b, k)
  }

  ghost predicate InRegion(regions: seq<Range>, owned: seq<A.Block>, b: Addr, k: nat) {
    A.Covers(regions, b + 8 * k) && !A.Owned(owned, b + 8 * k)
  }

  /** The word w is at `at`, in the stacks and outside every block. */
  ghost predicate StackWord(sc: S.Scan, s: L.State, stacks: seq<Range>, at: nat, w: nat) {
    && at % 8 == 0 && sc.word(at) == w && A.Covers(stacks, at)
    && forall b :: b in s.heap ==> !(b <= at < sc.End(b))
  }

  ghost predicate HoldsStacks(sc: S.Scan, s: L.State, stacks: seq<Range>) {
    forall t, w :: 0 <= t < |s.stacks| && w in s.stacks[t] ==> exists at :: StackWord(sc, s, stacks, at, w)
  }

  ghost function SetOf(q: seq<nat>): set<nat> { set x | x in q }

  /** sn has the scanner's tracked blocks and their masked words, and the values at `seen` as roots, divided
      into ranges in any way. */
  ghost predicate Abstracts(sn: P.Snapshot, sc: S.Scan, seen: seq<nat>) {
    && sn.tracked == SetOf(sc.base) == sn.words.Keys
    && (forall b :: b in sn.words ==> |sn.words[b]| == sc.words(b))
    && (forall b, k :: b in sn.words && 0 <= k < |sn.words[b]| ==> sn.words[b][k] == sc.Val(b, k))
    && forall x :: P.IsRoot(sn, x) <==> x in sc.Held(seen)
  }

  /** The words that find_roots visits in all the ranges. */
  ghost predicate SeesRoots(sc: S.Scan, ranges: seq<Range>, dead: seq<nat>, seen: seq<nat>) {
    forall w: nat :: w in seen <==> sc.RootWord(ranges, |ranges|, dead, w)
  }

  // ------------------------------------------------------------------ the snapshot

  lemma SeenIsRoot(sn: P.Snapshot, sc: S.Scan, ranges: seq<Range>, dead: seq<nat>, seen: seq<nat>, at: nat)
    requires Abstracts(sn, sc, seen) && SeesRoots(sc, ranges, dead, seen)
    requires at % 8 == 0 && sc.Free(dead, at) && A.Covers(ranges, at) && PtrMask(sc.word(at)) in sc.base
    ensures P.IsRoot(sn, PtrMask(sc.word(at)))
  {
    var r :| 0 <= r < |ranges| && ranges[r].low <= at < ranges[r].high;
    assert at in seen;
    assert PtrMask(sc.word(at)) in sc.ValsOf(seen);
  }

  /** A word of a block that is neither tracked nor dead is in none that is. */
  lemma OtherBlockIsFree(sc: S.Scan, s: L.State, dead: seq<nat>, c: Addr, k: nat)
    requires HoldsHeap(sc, s) && c in s.heap && c !in sc.base && c !in dead && k < |s.heap[c]|
    requires (forall b :: b in sc.base ==> b in s.heap) && (forall b :: b in dead ==> b in s.heap)
    ensures sc.Free(dead, c + 8 * k) && (c + 8 * k) % 8 == 0
  {
    var at := c + 8 * k;
    forall b | b in s.heap && b != c ensures !(b <= at < sc.End(b)) {
      if b < c { assert sc.End(b) <= c; } else { assert sc.End(c) <= b; }
    }
    assert c == 8 * (c / 8) && at == 8 * (c / 8 + k);
    forall i | 0 <= i < |sc.base| ensures !(sc.base[i] <= at < sc.End(sc.base[i])) { assert sc.base[i] in sc.base; }
    forall i | 0 <= i < |dead| ensures !(dead[i] <= at < sc.End(dead[i])) { assert dead[i] in dead; }
  }

  lemma StackIsFree(sc: S.Scan, s: L.State, stacks: seq<Range>, dead: seq<nat>, at: nat, w: nat)
    requires StackWord(sc, s, stacks, at, w)
    requires (forall b :: b in sc.base ==> b in s.heap) && (forall b :: b in dead ==> b in s.heap)
    ensures sc.Free(dead, at)
  {
    forall i | 0 <= i < |sc.base| ensures !(sc.base[i] <= at < sc.End(sc.base[i])) { assert sc.base[i] in sc.base; }
    forall i | 0 <= i < |dead| ensures !(dead[i] <= at < sc.End(dead[i])) { assert dead[i] in dead; }
  }

  lemma StackIsRoot(sn: P.Snapshot, sc: S.Scan, s: L.State, ranges: seq<Range>, stacks: seq<Range>,
      dead: seq<nat>, seen: seq<nat>, x: Addr)
    requires Abstracts(sn, sc, seen) && SeesRoots(sc, ranges, dead, seen) && HoldsStacks(sc, s, stacks)
    requires forall at :: A.Covers(stacks, at) ==> A.Covers(ranges, at)
    requires (forall b :: b in sc.base ==> b in s.heap) && (forall b :: b in dead ==> b in s.heap)
    requires x in sn.tracked && L.StackRefers(s, x)
    ensures P.IsRoot(sn, x)
  {
    var t, w :| 0 <= t < |s.stacks| && w in s.stacks[t] && PtrMask(w) == x;
    var at :| StackWord(sc, s, stacks, at, w);
    StackIsFree(sc, s, stacks, dead, at, w);
    SeenIsRoot(sn, sc, ranges, dead, seen, at);
  }

  lemma BlockIsRoot(sn: P.Snapshot, sc: S.Scan, s: L.State, ranges: seq<Range>, dead: seq<nat>, seen: seq<nat>,
      c: Addr, k: nat)
    requires Abstracts(sn, sc, seen) && SeesRoots(sc, ranges, dead, seen) && HoldsHeap(sc, s)
    requires (forall b :: b in sc.base ==> b in s.heap) && (forall b :: b in dead ==> b in s.heap)
    requires c in s.heap && c !in sc.base && c !in dead && k < |s.heap[c]| && A.Covers(ranges, c + 8 * k)
    requires PtrMask(s.heap[c][k]) in sc.base
    ensures P.IsRoot(sn, PtrMask(s.heap[c][k]))
  {
    OtherBlockIsFree(sc, s, dead, c, k);
    SeenIsRoot(sn, sc, ranges, dead, seen, c + 8 * k);
  }

  lemma ScannedIsRoot(sn: P.Snapshot, sc: S.Scan, s: L.State, ranges: seq<Range>, regions: seq<Range>,
      owned: seq<A.Block>, stacks: seq<Range>, parts: seq<seq<Range>>, dead: seq<nat>, seen: seq<nat>, x: Addr)
    requires Abstracts(sn, sc, seen) && SeesRoots(sc, ranges, dead, seen)
    requires Collected(ranges, regions, owned, stacks, parts)
    requires HoldsHeap(sc, s) && HeapInRegions(s, regions, owned) && HoldsStacks(sc, s, stacks)
    requires (forall b :: b in sc.base ==> b in s.heap) && (forall b :: b in dead ==> b in s.heap)
    requires x in sn.tracked && L.Scanned(s, sn.tracked, SetOf(dead), x)
    ensures P.IsRoot(sn, x)
  {
    if L.StackRefers(s, x) {
      forall at | A.Covers(stacks, at) ensures A.Covers(ranges, at) {
        CollectedCovers(ranges, regions, owned, stacks, parts, at);
      }
      StackIsRoot(sn, sc, s, ranges, stacks, dead, seen, x);
    } else {
      var c :| c in s.heap && c !in sn.tracked && c !in SetOf(dead) && L.Refers(s.heap[c], x);
      var k: nat :| k < |s.heap[c]| && PtrMask(s.heap[c][k]) == x;
      assert InRegion(regions, owned, c, k);
      CollectedCovers(ranges, regions, owned, stacks, parts, c + 8 * k);
      BlockIsRoot(sn, sc, s, ranges, dead, seen, c, k);
    }
  }

  lemma WorkingIsAllocated(s: L.State, dead: seq<nat>)
    requires L.Owned(s) && L.ShapeOk(s) && L.DeadReferences(s, SetOf(dead))
    ensures forall b :: b in s.gc.Work() || b in dead ==> b in s.heap
  {
    forall b | b in s.gc.Work() ensures b in s.heap { assert L.Holds(s, L.InWorking, b); }
    forall b | b in dead ensures b in s.heap {
      assert b in SetOf(dead);
      var r, k: nat :| r in s.r.list && R.LiveAt(s.r.buffers, r, k) && s.r.buffers[r].slots[k] == R.Live(b);
      assert L.Holds(s, L.InSlot(r, k), b);
    }
  }

  /** What the children work on is a snapshot as the machine takes it.  In a reachable state, with the blocks
      and stacks in memory, the ranges carved from the writable regions, the dead references collected and the
      threads stopped, the tracked blocks with their words and the words that find_roots visits make a
      snapshot that the machine can take next. */
  lemma ScanIsSnapshot(run: seq<L.State>, k: nat, sc: S.Scan, ranges: seq<Range>, regions: seq<Range>,
      owned: seq<A.Block>, stacks: seq<Range>, parts: seq<seq<Range>>, dead: seq<nat>, seen: seq<nat>,
      sn: P.Snapshot, siblings: nat)
    requires L.IsRun(run) && k < |run| && run[k].gc.Gathered? && siblings >= 1
    requires forall t :: 0 <= t < |run[k].r.workers| ==> run[k].r.workers[t].pc.Outside?
    requires Increasing(sc.base) && (forall a :: a in sc.base <==> a in run[k].gc.work)
    requires L.DeadReferences(run[k], SetOf(dead))
    requires HoldsHeap(sc, run[k]) && HeapInRegions(run[k], regions, owned) && HoldsStacks(sc, run[k], stacks)
    requires Collected(ranges, regions, owned, stacks, parts)
    requires SeesRoots(sc, ranges, dead, seen) && Abstracts(sn, sc, seen)
    ensures L.Enabled(run[k], L.Snap(sc.base, SetOf(dead), sn, siblings))
  {
    var s := run[k];
    L.RunInv(run, k);
    WorkingIsAllocated(s, dead);
    forall a | a in sn.tracked ensures a in s.heap && sn.words[a] == L.Masked(s.heap[a]) {
      assert forall j :: 0 <= j < |sn.words[a]| ==> sn.words[a][j] == sc.Val(a, j);
    }
    forall x | x in sn.tracked && L.Scanned(s, sn.tracked, SetOf(dead), x) ensures P.IsRoot(sn, x) {
      ScannedIsRoot(sn, sc, s, ranges, regions, owned, stacks, parts, dead, seen, x);
    }
  }

  // ------------------------------------------------------------------ one child

  lemma ReferentIsWord(sn: P.Snapshot, sc: S.Scan, seen: seq<nat>, b: Addr, x: Addr)
    requires Abstracts(sn, sc, seen) && b in sn.tracked
    ensures x in sc.Referents(b) <==> x in sn.tracked && x in sn.words[b]
  {
    sc.UpToHolds(b, sc.words(b), x);
    if x in sn.tracked && x in sn.words[b] {
      var k: nat :| k < |sn.words[b]| && sn.words[b][k] == x;
      assert sc.Val(b, k) == x;
    }
  }

  /** The least set of the scanner is the least set of the machines. */
  lemma LeastIsLeast(sn: P.Snapshot, sc: S.Scan, seen: seq<nat>, marks: set<nat>)
    requires Abstracts(sn, sc, seen) && sc.LeastOver({}, marks, sc.Held(seen))
    ensures marks == P.LeastMarks(sn)
  {
    var least := P.LeastMarks(sn);
    P.LeastMarksIsClosed(sn);
    forall x | x in sc.Held(seen) ensures x in least { L.RootIsMarked(sn, x); }
    forall b | b in least && b in sc.base ensures sc.Referents(b) <= least {
      forall x | x in sc.Referents(b) ensures x in least { ReferentIsWord(sn, sc, seen, b, x); }
    }
    assert marks <= least;
    ClosedMarks(sn, sc, seen, marks);
  }

  lemma ClosedMarks(sn: P.Snapshot, sc: S.Scan, seen: seq<nat>, marks: set<nat>)
    requires Abstracts(sn, sc, seen) && sc.Held(seen) <= marks && sc.Followed({}, marks, marks)
    ensures P.Closed(sn, marks) && P.LeastMarks(sn) <= marks
  {
    forall r, p | 0 <= r < |sn.ranges| && 0 <= p < |sn.ranges[r]| && sn.ranges[r][p] in sn.tracked
      ensures sn.ranges[r][p] in marks
    {
      assert P.IsRoot(sn, sn.ranges[r][p]);
    }
    forall b, k | b in marks && b in sn.tracked && 0 <= k < |sn.words[b]| && sn.words[b][k] in sn.tracked
      ensures sn.words[b][k] in marks
    {
      ReferentIsWord(sn, sc, seen, b, sn.words[b][k]);
    }
  }

  /** One child that scans all ranges alone, with the recursion on the block just marked, marks exactly what
      is reachable in the snapshot that it scans. */
  method ScanAlone(sc: S.Scan, ranges: seq<Range>, dead: seq<nat>) returns (ghost seen: seq<nat>)
    requires sc.Valid() && sc.count == 0 && sc.Layout(dead) && sc.RangesOk(ranges)
    requires sc.onTarget && !sc.racing && sc.Marked() == {}
    modifies sc.addrs, sc.lookaside, sc`count, sc`mine
    ensures sc.Valid() && SeesRoots(sc, ranges, dead, seen)
    ensures forall sn: P.Snapshot :: Abstracts(sn, sc, seen) ==> sc.Marked() == P.LeastMarks(sn)
  {
    seen := sc.ScanRanges(ranges, dead);
    forall sn: P.Snapshot | Abstracts(sn, sc, seen) ensures sc.Marked() == P.LeastMarks(sn) {
      LeastIsLeast(sn, sc, seen, sc.Marked());
    }
  }
}
