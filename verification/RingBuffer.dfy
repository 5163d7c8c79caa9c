/** The circular buffer of queue.c, in which a thread keeps the pointers it has retired: one thread
    pushes, the reclaimer pops.  Indices only ever grow; a mask turns them into slots. */
module RingBuffer {
  import opened Words
  import opened Bits

  /** What the slots hold for the indices lo up to hi. */
  function Window(es: seq<nat>, lo: nat, hi: nat): (w: seq<nat>)
    requires |es| > 0 && lo <= hi
  {
    seq(hi - lo, i requires 0 <= i < hi - lo => es[Slot(lo + i, |es|)])
  }

  function Stored(es: seq<nat>, at: nat, v: nat): (r: seq<nat>)
    requires |es| > 0
  {
    es[Slot(at, |es|) := v]
  }

  /** Storing at an index that is not a buffer's length away from lo keeps the window. */
  lemma StoreKeeps(es: seq<nat>, lo: nat, hi: nat, at: nat, v: nat)
    requires lo <= hi <= at < lo + |es|
    ensures Window(Stored(es, at, v), lo, hi) == Window(es, lo, hi)
  {
    forall i | 0 <= i < hi - lo ensures Window(Stored(es, at, v), lo, hi)[i] == Window(es, lo, hi)[i] {
      SlotPlus(lo + i, at - (lo + i), |es|);
    }
  }

  lemma StoreAppends(es: seq<nat>, lo: nat, at: nat, v: nat)
    requires lo <= at < lo + |es|
    ensures Window(Stored(es, at, v), lo, at + 1) == Window(es, lo, at) + [v]
  {
    StoreKeeps(es, lo, at, at, v);
    var w := Window(Stored(es, at, v), lo, at + 1);
    assert w[..at - lo] == Window(Stored(es, at, v), lo, at);
    assert w == w[..at - lo] + [w[at - lo]];
  }

  /** The values vs stored one after the other, from index at on. */
  function StoredAll(es: seq<nat>, at: nat, vs: seq<nat>): (r: seq<nat>)
    requires |es| > 0
    ensures |r| == |es|
  {
    if vs == [] then es else Stored(StoredAll(es, at, vs[..|vs| - 1]), at + |vs| - 1, vs[|vs| - 1])
  }

  lemma StoredMore(es: seq<nat>, at: nat, vs: seq<nat>, v: nat)
    requires |es| > 0
    ensures StoredAll(es, at, vs + [v]) == Stored(StoredAll(es, at, vs), at + |vs|, v)
  {
    assert (vs + [v])[..|vs|] == vs;
  }

  lemma {:induction false} StoredAllAppends(es: seq<nat>, lo: nat, at: nat, vs: seq<nat>)
    requires lo <= at && at + |vs| <= lo + |es| && |es| > 0
    ensures Window(StoredAll(es, at, vs), lo, at + |vs|) == Window(es, lo, at) + vs
  {
    if vs != [] {
      var rest, last := vs[..|vs| - 1], vs[|vs| - 1];
      StoredAllAppends(es, lo, at, rest);
      StoreAppends(StoredAll(es, at, rest), lo, at + |rest|, last);
      assert Window(es, lo, at) + rest + [last] == Window(es, lo, at) + vs;
    }
  }

  lemma WindowSplits(es: seq<nat>, lo: nat, mid: nat, hi: nat)
    requires |es| > 0 && lo <= mid <= hi
    ensures Window(es, lo, hi) == Window(es, lo, mid) + Window(es, mid, hi)
  {
  }

  /** A run of slots is one slice of the array or, when it wraps, two. */
  function Slices(es: seq<nat>, start: nat, end: nat): seq<nat>
    requires start < |es| && end < |es|
  {
    if end < start then es[start..] + es[..end] else es[start..end]
  }

  lemma SlicesParts(es: seq<nat>, start: nat, end: nat)
    requires end < start < |es|
    ensures var all := Slices(es, start, end); var m := |es| - start;
      |all| == m + end && all[0..0 + m] == es[start..] && all[m..m + end] == es[..end]
  {
  }

  lemma SlicesAt(es: seq<nat>, lo: nat, hi: nat, i: nat)
    requires lo + i < hi < lo + |es|
    ensures |Slices(es, Slot(lo, |es|), Slot(hi, |es|))| == hi - lo
    ensures Slices(es, Slot(lo, |es|), Slot(hi, |es|))[i] == es[Slot(lo + i, |es|)]
  {
    var n, d := |es|, hi - lo;
    var start, end := Slot(lo, n), Slot(hi, n);
    assert end == if start + d < n then start + d else start + d - n by { SlotPlus(lo, d, n); }
    assert Slot(lo + i, n) == if start + i < n then start + i else start + i - n by { SlotPlus(lo, i, n); }
    if end < start {
      assert |es[start..]| == n - start;
      if start + i < n {
        assert es[start..][i] == es[start + i];
      } else {
        assert es[..end][start + i - n] == es[start + i - n];
      }
    }
  }

  lemma WindowAt(es: seq<nat>, lo: nat, hi: nat, i: nat)
    requires |es| > 0 && lo + i < hi
    ensures Window(es, lo, hi)[i] == es[Slot(lo + i, |es|)]
  {
  }

  lemma SlicesLength(es: seq<nat>, lo: nat, hi: nat)
    requires lo <= hi < lo + |es|
    ensures |Slices(es, Slot(lo, |es|), Slot(hi, |es|))| == hi - lo
  {
    SlotPlus(lo, hi - lo, |es|);
  }

  lemma WindowIsSlices(es: seq<nat>, lo: nat, hi: nat)
    requires lo <= hi < lo + |es|
    ensures Window(es, lo, hi) == Slices(es, Slot(lo, |es|), Slot(hi, |es|))
  {
    var w, sl := Window(es, lo, hi), Slices(es, Slot(lo, |es|), Slot(hi, |es|));
    SlicesLength(es, lo, hi);
    forall i: nat | i < hi - lo ensures w[i] == sl[i] {
      WindowAt(es, lo, hi, i);
      SlicesAt(es, lo, hi, i);
    }
  }

  /** s with x written over the places from at on. */
  function Splice(s: seq<nat>, at: nat, x: seq<nat>): (r: seq<nat>)
    requires at + |x| <= |s|
    ensures |r| == |s|
  {
    s[..at] + x + s[at + |x|..]
  }

  lemma SpliceMore(s: seq<nat>, at: nat, x: seq<nat>, v: nat)
    requires at + |x| < |s|
    ensures Splice(s, at, x)[at + |x| := v] == Splice(s, at, x + [v])
  {
  }

  lemma SpliceNone(s: seq<nat>, at: nat, x: seq<nat>)
    requires at <= |s| && x == []
    ensures Splice(s, at, x) == s
  {
  }

  class Queue {
    const e: array<nat>
    const capacity: nat
    ghost const exponent: nat
    var idxHead: nat
    var idxTail: nat

    ghost predicate Valid()
      reads this
    {
      && e.Length == capacity == Pow2(exponent)
      && capacity <= idxTail && idxHead < idxTail <= idxHead + capacity
    }

    /** The values that were pushed and not popped yet, oldest first. */
    ghost function Contents(): (s: seq<nat>)
      reads this, e
      requires Valid()
    {
      Window(e[..], idxTail - capacity, idxHead)
    }

    /** forkscan_queue_init */
    constructor (buf: array<nat>, ghost k: nat)
      requires buf.Length == Pow2(k)
      ensures Valid() && Contents() == [] && e == buf && exponent == k
    {
      e, capacity, exponent := buf, buf.Length, k;
      idxHead, idxTail := 0, buf.Length;
    }

    /** INDEXIFY */
    function Indexify(idx: nat): (s: nat)
      reads this
      requires Valid()
      ensures s == Slot(idx, capacity)
    {
      MaskIsSlot(idx, exponent);
      And(idx, capacity - 1)
    }

    function IsEmpty(): (r: bool)
      reads this, e
      requires Valid()
      ensures r <==> Contents() == []
    {
      idxHead + capacity == idxTail
    }

    /** One slot is never filled. */
    function IsFull(): (r: bool)
      reads this, e
      requires Valid()
      ensures r <==> |Contents()| == capacity - 1
    {
      idxHead + 1 >= idxTail
    }

    function Available(): (r: nat)
      reads this, e
      requires Valid()
      ensures |Contents()| + r == capacity - 1
    {
      idxTail - idxHead - 1
    }

    method Push(value: nat)
      requires Valid() && !IsFull()
      modifies this`idxHead, e
      ensures Valid() && Contents() == old(Contents()) + [value] && idxHead == old(idxHead) + 1
    {
      StoreAppends(e[..], idxTail - capacity, idxHead, value);
      e[Indexify(idxHead)] := value;
      assert e[..] == Stored(old(e[..]), idxHead, value);
      idxHead := idxHead + 1;
    }

    method Pop() returns (value: nat)
      requires Valid() && !IsEmpty()
      modifies this`idxTail
      ensures Valid() && [value] + Contents() == old(Contents()) && idxTail == old(idxTail) + 1
    {
      WindowSplits(e[..], idxTail - capacity, idxTail - capacity + 1, idxHead);
      value := e[Indexify(idxTail)];
      idxTail := idxTail + 1;
    }

    /** memcpy of count values into the slots from index base + from on, which do not wrap: as many
        single stores, after those of the values before from into es. */
    method CopyIn(values: array<nat>, from: nat, count: nat, base: nat, ghost es: seq<nat>)
      requires Valid() && values != e && from + count <= values.Length
      requires Slot(base + from, capacity) + count <= capacity
      requires |es| > 0 && e[..] == StoredAll(es, base, values[..from])
      modifies e
      ensures e[..] == StoredAll(es, base, values[..from + count])
    {
      var at := Indexify(base + from);
      var i := 0;
      while i < count
        invariant i <= count
        invariant e[..] == StoredAll(es, base, values[..from + i])
      {
        SlotPlus(base + from, i, capacity);
        StoreNext(at + i, base + from + i, values[from + i], es, base, values[..from + i]);
        assert values[..from + i] + [values[from + i]] == values[..from + i + 1];
        i := i + 1;
      }
    }

    /** One word of it. */
    method StoreNext(slot: nat, idx: nat, v: nat, ghost es: seq<nat>, ghost base: nat, ghost vs: seq<nat>)
      requires |es| == e.Length > 0 && idx == base + |vs| && slot == Slot(idx, e.Length)
      requires e[..] == StoredAll(es, base, vs)
      modifies e
      ensures e[..] == StoredAll(es, base, vs + [v])
    {
      StoredMore(es, base, vs, v);
      e[slot] := v;
    }

    /** The copies of forkscan_queue_push_bulk: to the end of the array, then from its beginning. */
    method CopyInAround(values: array<nat>, len: nat)
      requires Valid() && values != e && len <= values.Length && len < capacity
      modifies e
      ensures e[..] == StoredAll(old(e[..]), idxHead, values[..len])
    {
      ghost var es := e[..];
      var firstCopy := Min(len, capacity - Indexify(idxHead));
      var secondCopy := len - firstCopy;
      SlotPlus(idxHead, firstCopy, capacity);
      assert values[..0] == [];
      if firstCopy > 0 { CopyIn(values, 0, firstCopy, idxHead, es); }
      if secondCopy > 0 { CopyIn(values, firstCopy, secondCopy, idxHead, es); }
    }

    /** forkscan_queue_push_bulk: one or two copies, then the head is published.  It leaves the slots as
        that many single stores do. */
    method PushBulk(values: array<nat>, len: nat)
      requires Valid() && values != e && len <= values.Length && len <= Available()
      modifies this`idxHead, e
      ensures Valid() && Contents() == old(Contents()) + values[..len] && idxHead == old(idxHead) + len
      ensures e[..] == StoredAll(old(e[..]), old(idxHead), values[..len])
    {
      StoredAllAppends(e[..], idxTail - capacity, idxHead, values[..len]);
      CopyInAround(values, len);
      idxHead := idxHead + len;
    }

    /** memcpy of count slots out of the array to offset + k, where the first k of all are in place and
        the slots hold the next ones. */
    method CopyOut(values: array<nat>, offset: nat, k: nat, start: nat, count: nat, ghost was: seq<nat>,
        ghost all: seq<nat>)
      requires values != e && |was| == values.Length && start + count <= e.Length && k + count <= |all|
      requires offset + |all| <= |was|
      requires values[..] == Splice(was, offset, all[..k]) && all[k..k + count] == e[start..start + count]
      modifies values
      ensures values[..] == Splice(was, offset, all[..k + count])
    {
      var i := 0;
      while i < count
        invariant i <= count
        invariant values[..] == Splice(was, offset, all[..k + i])
      {
        SpliceMore(was, offset, all[..k + i], all[k + i]);
        assert all[..k + i] + [all[k + i]] == all[..k + i + 1];
        assert e[start + i] == e[start..start + count][i] == all[k + i];
        values[offset + k + i] := e[start + i];
        i := i + 1;
      }
    }

    /** The copies of forkscan_queue_pop_bulk: the slots from start to head, around the end of the array. */
    method CopyAround(values: array<nat>, offset: nat, slot: nat, head: nat, ghost all: seq<nat>)
      requires values != e && slot < e.Length && head < e.Length && all == Slices(e[..], slot, head)
      requires offset + |all| <= values.Length
      modifies values
      ensures values[..] == Splice(old(values[..]), offset, all)
    {
      ghost var was := values[..];
      var start, valuesOffset := CopyToEnd(values, offset, slot, head, all);
      var elements := head - start;
      if elements > 0 { CopyOut(values, offset, valuesOffset, start, elements, was, all); }
      assert all[..|all|] == all;
    }

    /** The first of the copies, if it takes two. */
    method CopyToEnd(values: array<nat>, offset: nat, slot: nat, head: nat, ghost all: seq<nat>)
      returns (start: nat, valuesOffset: nat)
      requires values != e && slot < e.Length && head < e.Length && all == Slices(e[..], slot, head)
      requires offset + |all| <= values.Length
      modifies values
      ensures start <= head && valuesOffset + (head - start) == |all|
      ensures all[valuesOffset..valuesOffset + (head - start)] == e[start..start + (head - start)]
      ensures values[..] == Splice(old(values[..]), offset, all[..valuesOffset])
    {
      start, valuesOffset := slot, 0;
      SpliceNone(values[..], offset, all[..0]);
      SlicesHalves(slot, head, all);
      if head < start {
        var elements := e.Length - start;
        CopyOut(values, offset, 0, start, elements, values[..], all);
        valuesOffset := elements;
        start := 0;
      }
    }

    /** What the two copies are of, or the one. */
    lemma SlicesHalves(slot: nat, head: nat, all: seq<nat>)
      requires slot < e.Length && head < e.Length && all == Slices(e[..], slot, head)
      ensures head < slot ==> var m := e.Length - slot;
        |all| == m + head && all[0..0 + m] == e[slot..slot + m] && all[m..m + head] == e[0..0 + head]
      ensures head >= slot ==> |all| == head - slot && all[0..0 + |all|] == e[slot..slot + |all|]
    {
      if head < slot { SlicesParts(e[..], slot, head); }
    }

    /** The values up to index head are copied out and the tail is published. */
    method PopTo(values: array<nat>, offset: nat, head: nat)
      requires Valid() && values != e && idxTail <= head + capacity && head <= idxHead
      requires offset + (head + capacity - idxTail) <= values.Length
      modifies this`idxTail, values
      ensures Valid() && idxTail == head + capacity
      ensures values[..] == Splice(old(values[..]), offset, Window(e[..], old(idxTail) - capacity, head))
    {
      WindowIsSlices(e[..], idxTail - capacity, head);
      CopyAround(values, offset, Indexify(idxTail), Indexify(head), Window(e[..], idxTail - capacity, head));
      idxTail := head + capacity;
    }

    /** forkscan_queue_pop_bulk into the values from offset on.  When there is not room for all, a head
        is faked; what is taken is the oldest values, as many as fit. */
    method PopBulk(values: array<nat>, offset: nat, len: nat) returns (popped: nat)
      requires Valid() && values != e && offset + len <= values.Length
      modifies this`idxTail, values
      ensures Valid() && popped == Min(len, |old(Contents())|) && idxTail == old(idxTail) + popped
      ensures values[..] == Splice(old(values[..]), offset, old(Contents())[..popped])
      ensures Contents() == old(Contents())[popped..]
    {
      var head := idxHead;
      var size := head - (idxTail - capacity);
      if size == 0 {
        SpliceNone(values[..], offset, []);
        return 0;
      }
      if size > len {
        head := head - (size - len);
        size := len;
      }
      popped := size;
      WindowSplits(e[..], idxTail - capacity, head, idxHead);
      PopTo(values, offset, head);
    }
  }

  // ------------------------------------------------------------------ draining all threads

  /** The room left for queue i, and what is taken of it, when there is room for this many values in all. */
  function RoomAt(cs: seq<seq<nat>>, room: nat, i: nat): (r: nat)
    requires i <= |cs|
    ensures r <= room
  {
    if i == 0 then room else RoomAt(cs, room, i - 1) - Min(RoomAt(cs, room, i - 1), |cs[i - 1]|)
  }

  function Share(cs: seq<seq<nat>>, room: nat, i: nat): (m: nat)
    requires i < |cs|
    ensures m <= |cs[i]|
  {
    Min(RoomAt(cs, room, i), |cs[i]|)
  }

  /** What is taken of the first k queues. */
  function Taken(cs: seq<seq<nat>>, room: nat, k: nat): (t: seq<nat>)
    requires k <= |cs|
    ensures |t| + RoomAt(cs, room, k) == room
  {
    if k == 0 then [] else Taken(cs, room, k - 1) + cs[k - 1][..Share(cs, room, k - 1)]
  }

  function Concat(cs: seq<seq<nat>>): seq<nat> {
    if cs == [] then [] else Concat(cs[..|cs| - 1]) + cs[|cs| - 1]
  }

  lemma {:induction false} RoomLeft(cs: seq<seq<nat>>, room: nat, most: nat, k: nat)
    requires (forall i :: 0 <= i < |cs| ==> |cs[i]| <= most) && |cs| * most <= room && k <= |cs|
    ensures RoomAt(cs, room, k) >= (|cs| - k) * most
  {
    if k > 0 {
      RoomLeft(cs, room, most, k - 1);
      assert (|cs| - (k - 1)) * most == (|cs| - k) * most + most;
    }
  }

  lemma WholeShare(cs: seq<seq<nat>>, room: nat, most: nat, i: nat)
    requires (forall i :: 0 <= i < |cs| ==> |cs[i]| <= most) && |cs| * most <= room && i < |cs|
    ensures Share(cs, room, i) == |cs[i]|
  {
    RoomLeft(cs, room, most, i);
    AtLeastOnce(most, |cs| - i);
  }

  lemma {:induction false} TakenIsConcat(cs: seq<seq<nat>>, room: nat, most: nat, k: nat)
    requires (forall i :: 0 <= i < |cs| ==> |cs[i]| <= most) && |cs| * most <= room && k <= |cs|
    ensures Taken(cs, room, k) == Concat(cs[..k])
  {
    if k > 0 {
      TakenIsConcat(cs, room, most, k - 1);
      assert cs[..k][..k - 1] == cs[..k - 1];
      WholeShare(cs, room, most, k - 1);
    }
  }

  /** With room for a full queue per thread, every queue is taken whole. */
  lemma AllTaken(cs: seq<seq<nat>>, room: nat, most: nat)
    requires (forall i :: 0 <= i < |cs| ==> |cs[i]| <= most) && |cs| * most <= room
    ensures Taken(cs, room, |cs|) == Concat(cs)
    ensures forall i: nat :: i < |cs| ==> Share(cs, room, i) == |cs[i]|
  {
    forall i: nat | i < |cs| ensures Share(cs, room, i) == |cs[i]| { WholeShare(cs, room, most, i); }
    TakenIsConcat(cs, room, most, |cs|);
    assert cs[..|cs|] == cs;
  }

  ghost predicate Holds(q: Queue, s: seq<nat>)
    reads q, q.e
  {
    q.Valid() && q.Contents() == s
  }

  /** What the queues hold when the first k have been drained. */
  function Rest(cs: seq<seq<nat>>, room: nat, k: nat): (r: seq<seq<nat>>)
    requires k <= |cs|
    ensures |r| == |cs|
  {
    if k == 0 then cs else Rest(cs, room, k - 1)[k - 1 := cs[k - 1][Share(cs, room, k - 1)..]]
  }

  lemma {:induction false} RestAt(cs: seq<seq<nat>>, room: nat, k: nat, i: nat)
    requires k <= |cs| && i < |cs|
    ensures Rest(cs, room, k)[i] == if i < k then cs[i][Share(cs, room, i)..] else cs[i]
  {
    if k > 0 { RestAt(cs, room, k - 1, i); }
  }

  /** One thread's part: popped values follow the n that are there. */
  method DrainOne(q: Queue, addrs: array<nat>, n: nat, room: nat, ghost c: seq<nat>) returns (popped: nat)
    requires n + room <= addrs.Length && q.e != addrs && Holds(q, c)
    modifies addrs, q`idxTail
    ensures popped == Min(room, |c|) && Holds(q, c[popped..])
    ensures addrs[..n + popped] == old(addrs[..n]) + c[..popped]
  {
    ghost var was := addrs[..];
    popped := q.PopBulk(addrs, n, room);
    assert addrs[..][..n + popped] == was[..n] + c[..popped];
  }

  ghost predicate HoldsAt(queues: seq<Queue>, j: nat, ss: seq<seq<nat>>)
    requires j < |queues| == |ss|
    reads queues[j], queues[j].e
  {
    Holds(queues[j], ss[j])
  }

  predicate Differ(queues: seq<Queue>, i: nat, j: nat)
    requires i < |queues| && j < |queues|
  {
    i != j ==> queues[i] != queues[j]
  }

  /** The queues are different objects, none of them over the reclaimer's buffer. */
  ghost predicate Distinct(queues: seq<Queue>, addrs: array<nat>) {
    && (forall i :: 0 <= i < |queues| ==> queues[i].e != addrs)
    && (forall i, j :: 0 <= i < |queues| && 0 <= j < |queues| ==> Differ(queues, i, j))
  }

  /** The turn of the loop for queue i. */
  method DrainNext(queues: seq<Queue>, i: nat, addrs: array<nat>, n: nat, maxPtrs: nat, ghost cs: seq<seq<nat>>)
    returns (popped: nat)
    requires maxPtrs <= addrs.Length && |cs| == |queues| && i < |queues| && Distinct(queues, addrs)
    requires forall j :: 0 <= j < |queues| ==> HoldsAt(queues, j, Rest(cs, maxPtrs, i))
    requires n == |Taken(cs, maxPtrs, i)| && addrs[..n] == Taken(cs, maxPtrs, i)
    modifies addrs, queues`idxTail
    ensures var rest := Rest(cs, maxPtrs, i + 1); forall j :: 0 <= j < |queues| ==> HoldsAt(queues, j, rest)
    ensures n + popped == |Taken(cs, maxPtrs, i + 1)| && addrs[..n + popped] == Taken(cs, maxPtrs, i + 1)
  {
    RestAt(cs, maxPtrs, i, i);
    assert HoldsAt(queues, i, Rest(cs, maxPtrs, i));
    label Before:
    popped := DrainOne(queues[i], addrs, n, maxPtrs - n, cs[i]);
    ghost var rest := Rest(cs, maxPtrs, i + 1);
    forall j | 0 <= j < |queues| ensures HoldsAt(queues, j, rest) {
      assert old@Before(HoldsAt(queues, j, Rest(cs, maxPtrs, i))) && Differ(queues, i, j);
    }
  }

  /** generate_working_pointers_list: the queues of all threads are emptied, one after the other, into
      the reclaimer's buffer, until maxPtrs are there.  cs is what the queues hold at the start. */
  method GenerateWorkingPointersList(queues: seq<Queue>, addrs: array<nat>, maxPtrs: nat, ghost cs: seq<seq<nat>>)
    returns (n: nat)
    requires maxPtrs <= addrs.Length && |cs| == |queues| && Distinct(queues, addrs)
    requires forall j :: 0 <= j < |queues| ==> HoldsAt(queues, j, cs)
    modifies addrs, queues`idxTail
    ensures n == |Taken(cs, maxPtrs, |cs|)| && addrs[..n] == Taken(cs, maxPtrs, |cs|)
    ensures forall j :: 0 <= j < |queues| ==> HoldsAt(queues, j, Rest(cs, maxPtrs, |cs|))
  {
    n := 0;
    for i := 0 to |queues|
      invariant n == |Taken(cs, maxPtrs, i)| && addrs[..n] == Taken(cs, maxPtrs, i)
      invariant forall j :: 0 <= j < |queues| ==> HoldsAt(queues, j, Rest(cs, maxPtrs, i))
    {
      var popped := DrainNext(queues, i, addrs, n, maxPtrs, cs);
      n := n + popped;
    }
  }
}
