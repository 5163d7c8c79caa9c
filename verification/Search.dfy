/** The searches of child.c over an array whose low bits other processes set while it is searched.
    A load is given by `mem(t, i)`, the value that the t-th load of the search sees at place i. */
module Search {
  import opened Words

  const BINARY_THRESHOLD := 32
  const PAGE_WORDS := 512      // PAGESIZE / sizeof(size_t)
  const LINE_WORDS := 8        // CACHELINESIZE / sizeof(size_t)

  type Loads = (nat, nat) -> nat

  /** The array as it was sorted: distinct addresses with both low bits clear. */
  ghost predicate Addresses(base: seq<nat>) {
    Increasing(base) && forall i :: 0 <= i < |base| ==> base[i] % 4 == 0
  }

  /** Loads of an array that starts as `base` and whose entries may get the mark bit at any time. */
  ghost predicate Racing(base: seq<nat>, mem: Loads) {
    && (forall t, i :: 0 <= t && 0 <= i < |base| ==> mem(t, i) == base[i] || mem(t, i) == base[i] + 1)
    && (forall t: nat, u: nat, i: nat :: t <= u && i < |base| ==> Stays(base, mem, t, u, i))
  }

  /** Place i is marked at the load numbered u if it is at the one numbered t. */
  predicate Stays(base: seq<nat>, mem: Loads, t: nat, u: nat, i: nat)
    requires i < |base|
  {
    mem(t, i) == base[i] + 1 ==> mem(u, i) == base[i] + 1
  }

  /** Loads of an array that nobody changes. */
  function Still(a: seq<nat>): Loads { (t: nat, i: nat) => if i < |a| then a[i] else 0 }

  /** loc is the last place of [lo, hi) that does not exceed val, or lo. */
  ghost predicate IsFloor(base: seq<nat>, val: nat, lo: int, hi: int, loc: int) {
    && 0 <= lo <= loc < hi <= |base|
    && (loc == lo || base[loc] <= val)
    && (loc + 1 < hi ==> val < base[loc + 1])
  }

  /** The place before val's own: the search passed it by because it is marked by now.  It lies
      before the range only if the mark was set while the search ran. */
  ghost predicate JustBelow(base: seq<nat>, val: nat, mem: Loads, lo: int, hi: int, start: nat, now: nat, loc: int) {
    && 0 <= lo <= loc + 1 < hi <= |base| && base[loc + 1] == val && mem(now, loc + 1) == val + 1
    && (loc + 1 == lo ==> mem(start, lo) == val)
  }

  ghost predicate Found(base: seq<nat>, val: nat, mem: Loads, lo: int, hi: int, start: nat, now: nat, loc: int) {
    start <= now && (IsFloor(base, val, lo, hi, loc) || JustBelow(base, val, mem, lo, hi, start, now, loc))
  }

  /** The loop of iterative_search, entered at place min with the load numbered t. */
  function Walk(val: nat, mem: Loads, t: nat, min: nat, max: nat): int
    decreases max - min
  {
    if min >= max then min - 1
    else if mem(t, min) == val then min
    else if mem(t, min) > val then min - 1
    else Walk(val, mem, t + 1, min + 1, max)
  }

  /** iterative_search, entered with the load numbered t. */
  function IterativeAt(val: nat, mem: Loads, t: nat, min: nat, max: nat): int {
    if mem(t, min) > val || min == max then min else Walk(val, mem, t + 1, min, max)
  }

  /** binary_search, likewise. */
  function BinaryAt(val: nat, mem: Loads, t: nat, min: nat, max: nat): int
    decreases max - min
  {
    if max - min >= BINARY_THRESHOLD then
      var mid := (max + min) / 2;
      if mem(t, mid) == val then mid
      else if mem(t, mid) > val then BinaryAt(val, mem, t + 1, min, mid)
      else BinaryAt(val, mem, t + 1, mid, max)
    else IterativeAt(val, mem, t, min, max)
  }

  /** The loads numbered t and t + 1, of place min, lie on either side of val. */
  predicate Straddles(val: nat, mem: Loads, min: nat, t: nat) { mem(t, min) <= val < mem(t + 1, min) }

  /** Two loads of one place can only straddle the place's own address, when it gets its mark in between. */
  lemma StraddlesOwn(base: seq<nat>, val: nat, mem: Loads, min: nat, t: nat)
    requires Addresses(base) && Racing(base, mem) && val % 4 == 0 && min < |base| && Straddles(val, mem, min, t)
    ensures base[min] == val && mem(t, min) == val && mem(t + 1, min) == val + 1
  {
    var b, before, after := base[min], mem(t, min), mem(t + 1, min);
    assert b <= before <= b + 1 && b <= after <= b + 1;
  }

  /** How often binary_search halves a range of this length when it goes left each time. */
  function Halvings(length: nat): nat {
    if length >= BINARY_THRESHOLD then 1 + Halvings(length / 2) else 0
  }

  lemma WalkLeaves(val: nat, mem: Loads, t: nat, min: nat, max: nat)
    requires min <= max
    ensures Walk(val, mem, t, min, max) >= min - 1
    ensures Walk(val, mem, t, min, max) == min - 1 <==> min == max || mem(t, min) > val
    decreases max - min
  {
    if min < max && mem(t, min) < val { WalkLeaves(val, mem, t + 1, min + 1, max); }
  }

  /** iterative_search, entered with the load numbered start, is about to look at place `at`. */
  ghost predicate Walking(base: seq<nat>, val: nat, mem: Loads, start: nat, min: nat, max: nat, at: nat, now: nat) {
    && min <= at <= max <= |base| && min < max && now == start + 1 + (at - min) && mem(start, min) <= val
    && (at > min ==> base[at - 1] < val)
  }

  lemma WalkHits(base: seq<nat>, val: nat, mem: Loads, start: nat, min: nat, max: nat, at: nat, now: nat)
    requires Addresses(base) && Racing(base, mem) && val % 4 == 0 && Walking(base, val, mem, start, min, max, at, now)
    requires at < max && mem(now, at) == val
    ensures Found(base, val, mem, min, max, start, now, at)
  {
    assert base[at] == val;
  }

  lemma WalkStops(base: seq<nat>, val: nat, mem: Loads, start: nat, min: nat, max: nat, at: nat, now: nat)
    requires Addresses(base) && Racing(base, mem) && val % 4 == 0 && Walking(base, val, mem, start, min, max, at, now)
    requires at < max ==> mem(now, at) > val
    ensures Found(base, val, mem, min, max, start, now, at - 1)
  {
    if at < max {
      assert mem(now, at) == base[at] || mem(now, at) == base[at] + 1;
    }
    if at == min { StraddlesOwn(base, val, mem, min, start); }
  }

  lemma WalkGoesOn(base: seq<nat>, val: nat, mem: Loads, start: nat, min: nat, max: nat, at: nat, now: nat)
    requires Addresses(base) && Racing(base, mem) && val % 4 == 0 && Walking(base, val, mem, start, min, max, at, now)
    requires at < max && mem(now, at) < val
    ensures Walking(base, val, mem, start, min, max, at + 1, now + 1)
  {
    assert mem(now, at) == base[at] || mem(now, at) == base[at] + 1;
  }

  lemma FirstAbove(base: seq<nat>, val: nat, mem: Loads, start: nat, min: nat, max: nat)
    requires Addresses(base) && Racing(base, mem) && val % 4 == 0 && min < max <= |base| && mem(start, min) > val
    ensures Found(base, val, mem, min, max, start, start + 1, min)
  {
    assert mem(start, min) == base[min] || mem(start, min) == base[min] + 1;
  }

  /** The place before the range is the result if and only if the two loads of the first entry, at lines 80
      and 82, straddle the value. */
  method IterativeSearch(val: nat, mem: Loads, start: nat, min: nat, max: nat, ghost base: seq<nat>)
    returns (loc: int, now: nat)
    requires Addresses(base) && Racing(base, mem) && val % 4 == 0 && min <= max <= |base|
    ensures min < max ==> Found(base, val, mem, min, max, start, now, loc)
    ensures loc == IterativeAt(val, mem, start, min, max)
    ensures loc == min - 1 <==> min < max && Straddles(val, mem, min, start)
  {
    now := start + 1;
    WalkLeaves(val, mem, now, min, max);
    if mem(start, min) > val || min == max {
      if min < max { FirstAbove(base, val, mem, start, min, max); }
      return min, now;
    }
    var at := min;
    while at < max
      invariant Walking(base, val, mem, start, min, max, at, now)
      invariant Walk(val, mem, start + 1, min, max) == Walk(val, mem, now, at, max)
    {
      var cmp := mem(now, at);
      if cmp == val {
        WalkHits(base, val, mem, start, min, max, at, now);
        return at, now;
      }
      if cmp > val { break; }
      WalkGoesOn(base, val, mem, start, min, max, at, now);
      at := at + 1;
      now := now + 1;
    }
    WalkStops(base, val, mem, start, min, max, at, now);
    loc := at - 1;
  }

  /** The place of a value that was met is what is looked for. */
  lemma MetInMiddle(base: seq<nat>, val: nat, mem: Loads, min: nat, max: nat, start: nat, now: nat, mid: nat)
    requires Addresses(base) && Racing(base, mem) && val % 4 == 0 && min < mid < max <= |base| && start <= now
    requires mem(now, mid) == val
    ensures Found(base, val, mem, min, max, start, now, mid)
  {
    assert base[mid] == val;
  }

  lemma OneHalving(t: nat, min: nat, max: nat)
    requires max - min >= BINARY_THRESHOLD
    ensures t + 1 + Halvings((max + min) / 2 - min) == t + Halvings(max - min)
  {
    assert (max + min) / 2 - min == (max - min) / 2;
  }

  /** The result is before the range only if the two loads of the first entry that follow the halvings on the
      way there straddle the value. */
  lemma {:induction false} BeforeMeans(val: nat, mem: Loads, t: nat, min: nat, max: nat)
    requires min <= max
    ensures BinaryAt(val, mem, t, min, max) >= min - 1
    ensures BinaryAt(val, mem, t, min, max) == min - 1 ==>
              min < max && Straddles(val, mem, min, t + Halvings(max - min))
    decreases max - min
  {
    if max - min < BINARY_THRESHOLD {
      WalkLeaves(val, mem, t + 1, min, max);
    } else {
      var mid := (max + min) / 2;
      OneHalving(t, min, max);
      if mem(t, mid) > val { BeforeMeans(val, mem, t + 1, min, mid); }
      if mem(t, mid) < val { BeforeMeans(val, mem, t + 1, mid, max); }
    }
  }

  /** And it is if they do, and everything above the first entry is above the value. */
  lemma {:induction false} BeforeIf(val: nat, mem: Loads, t: nat, min: nat, max: nat)
    requires min < max && Straddles(val, mem, min, t + Halvings(max - min))
    requires forall u: nat, i: nat :: min < i < max ==> mem(u, i) > val
    ensures BinaryAt(val, mem, t, min, max) == min - 1
    decreases max - min
  {
    if max - min < BINARY_THRESHOLD {
      WalkLeaves(val, mem, t + 1, min, max);
    } else {
      OneHalving(t, min, max);
      BeforeIf(val, mem, t + 1, min, (max + min) / 2);
    }
  }

  /** The place before the range is the result if and only if they do. */
  lemma BeforeTheRange(base: seq<nat>, val: nat, mem: Loads, t: nat, min: nat, max: nat)
    requires Addresses(base) && Racing(base, mem) && val % 4 == 0 && min <= max <= |base|
    ensures BinaryAt(val, mem, t, min, max) >= min - 1
    ensures BinaryAt(val, mem, t, min, max) == min - 1
      <==> min < max && Straddles(val, mem, min, t + Halvings(max - min))
  {
    BeforeMeans(val, mem, t, min, max);
    if min < max && Straddles(val, mem, min, t + Halvings(max - min)) {
      AboveFirst(base, val, mem, min, max, t + Halvings(max - min));
      BeforeIf(val, mem, t, min, max);
    }
  }

  lemma AboveFirst(base: seq<nat>, val: nat, mem: Loads, min: nat, max: nat, at: nat)
    requires Addresses(base) && Racing(base, mem) && val % 4 == 0 && min < max <= |base| && Straddles(val, mem, min, at)
    ensures forall u: nat, i: nat :: min < i < max ==> mem(u, i) > val
  {
    StraddlesOwn(base, val, mem, min, at);
    forall u: nat, i: nat | min < i < max ensures mem(u, i) > val { assert mem(u, i) >= base[i] > base[min]; }
  }

  /** binary_search has narrowed [min, max) down to [lo, hi), where the next load is the one numbered from. */
  ghost predicate Narrowed(base: seq<nat>, val: nat, mem: Loads, min: nat, max: nat, lo: nat, hi: nat,
      start: nat, from: nat) {
    && min <= lo < hi <= max <= |base| && start <= from
    && (lo == min || base[lo] < val)
    && (hi == max || val < base[hi] || (base[hi] == val && mem(from, hi) == val + 1))
  }

  /** What is found in the rest is what is looked for. */
  lemma FoundInRest(base: seq<nat>, val: nat, mem: Loads, min: nat, max: nat, lo: nat, hi: nat, start: nat,
      from: nat, now: nat, loc: int)
    requires Addresses(base) && Racing(base, mem) && val % 4 == 0
    requires Narrowed(base, val, mem, min, max, lo, hi, start, from)
    requires Found(base, val, mem, lo, hi, from, now, loc)
    ensures Found(base, val, mem, min, max, start, now, loc)
  {
    assert Stays(base, mem, start, from, lo);
    if hi < |base| { assert Stays(base, mem, from, now, hi); }
  }

  /** One halving. */
  lemma Halved(base: seq<nat>, val: nat, mem: Loads, min: nat, max: nat, lo: nat, hi: nat, start: nat,
      from: nat, mid: nat)
    requires Addresses(base) && Racing(base, mem) && val % 4 == 0
    requires Narrowed(base, val, mem, min, max, lo, hi, start, from)
    requires lo < mid < hi && mem(from, mid) != val
    ensures if mem(from, mid) > val then Narrowed(base, val, mem, min, max, lo, mid, start, from + 1)
            else Narrowed(base, val, mem, min, max, mid, hi, start, from + 1)
  {
    assert mem(from, mid) == base[mid] || mem(from, mid) == base[mid] + 1;
    assert Stays(base, mem, from, from + 1, mid);
    if hi < |base| { assert Stays(base, mem, from, from + 1, hi); }
  }

  /** The same for the whole search. */
  method BinarySearch(val: nat, mem: Loads, start: nat, min: nat, max: nat, ghost base: seq<nat>)
    returns (loc: int, now: nat)
    requires Addresses(base) && Racing(base, mem) && val % 4 == 0 && min <= max <= |base|
    ensures if min < max then Found(base, val, mem, min, max, start, now, loc) else loc == min
    ensures loc == BinaryAt(val, mem, start, min, max)
    ensures loc == min - 1 <==> min < max && Straddles(val, mem, min, start + Halvings(max - min))
  {
    BeforeTheRange(base, val, mem, start, min, max);
    loc, now := BinaryNarrow(val, mem, start, min, max, base);
  }

  method BinaryNarrow(val: nat, mem: Loads, start: nat, min: nat, max: nat, ghost base: seq<nat>)
    returns (loc: int, now: nat)
    requires Addresses(base) && Racing(base, mem) && val % 4 == 0 && min <= max <= |base|
    ensures if min < max then Found(base, val, mem, min, max, start, now, loc) else loc == min
    ensures loc == BinaryAt(val, mem, start, min, max)
  {
    var lo: nat, hi: nat := min, max;
    now := start;
    while hi - lo >= BINARY_THRESHOLD
      invariant lo <= hi && now >= start
      invariant if min < max then Narrowed(base, val, mem, min, max, lo, hi, start, now) else lo == hi == min
      invariant BinaryAt(val, mem, start, min, max) == BinaryAt(val, mem, now, lo, hi)
      decreases hi - lo
    {
      var mid := (hi + lo) / 2;
      var cmp := mem(now, mid);
      if cmp == val {
        MetInMiddle(base, val, mem, min, max, start, now, mid);
        return mid, now;
      }
      Halved(base, val, mem, min, max, lo, hi, start, now, mid);
      if cmp > val { hi := mid; } else { lo := mid; }
      now := now + 1;
    }
    ghost var from := now;
    loc, now := IterativeSearch(val, mem, now, lo, hi, base);
    if min < max { FoundInRest(base, val, mem, min, max, lo, hi, start, from, now, loc); }
  }

  // ------------------------------------------------------------------ two levels

  function MinimapLength(n: nat): nat { (n + PAGE_WORDS - 1) / PAGE_WORDS }

  /** One entry for each page of addresses, as the child generates it before any mark is set. */
  function MinimapOf(base: seq<nat>): seq<nat> {
    seq(MinimapLength(|base|), v requires 0 <= v < MinimapLength(|base|) => base[v * PAGE_WORDS])
  }

  method GenerateMinimap(addrs: array<nat>, n: nat, minimap: array<nat>) returns (count: nat)
    requires n <= addrs.Length && MinimapLength(n) <= minimap.Length && addrs != minimap
    modifies minimap
    ensures count <= minimap.Length && minimap[..count] == MinimapOf(addrs[..n])
  {
    count := 0;
    var i := 0;
    while i < n
      invariant i == count * PAGE_WORDS && count <= MinimapLength(n)
      invariant forall v :: 0 <= v < count ==> v * PAGE_WORDS < n && minimap[v] == addrs[v * PAGE_WORDS]
    {
      minimap[count] := addrs[i];
      count := count + 1;
      i := i + PAGE_WORDS;
    }
  }

  /** The capacity and the page counts that forkscan_make_aggregate_buffer computes, in the source's
      own arithmetic (pages of 4096 bytes, words of 8). */
  function Capacity(asked: nat): nat { if asked % 512 == 0 then asked else asked - asked % 512 + 512 }
  function PagesOfAddrs(capacity: nat): nat { (capacity * 8 + 4096 - 8) / 4096 }
  function PagesOfMinimap(pages: nat): nat { (pages * 8 + 4096 - 8) / 4096 }

  lemma WholePages(k: nat)
    ensures PagesOfAddrs(512 * k) == k && k <= PagesOfMinimap(k) * 512
  {
  }

  /** Enough pages are reserved: whatever the capacity asked for, the addresses fit theirs and the
      minimap of any number of addresses that fit fits its own. */
  lemma MinimapFits(asked: nat, n: nat)
    ensures asked <= Capacity(asked) < asked + 512 && Capacity(asked) * 8 <= PagesOfAddrs(Capacity(asked)) * 4096
    ensures n <= Capacity(asked) ==> MinimapLength(n) * 8 <= PagesOfMinimap(PagesOfAddrs(Capacity(asked))) * 4096
  {
    var k := Capacity(asked) / 512;
    assert Capacity(asked) == 512 * k;
    WholePages(k);
  }

  lemma PageIncreasing(base: seq<nat>, minimap: seq<nat>)
    requires Addresses(base) && minimap == MinimapOf(base)
    ensures Addresses(minimap) && Racing(minimap, Still(minimap))
  {
  }

  /** The result is -1 if and only if the two loads of the first entry that follow the halvings of the first
      page straddle the value: it is the first address, and gets its mark in between (StraddlesOwn). */
  method AddrFind(val: nat, mem: Loads, start: nat, n: nat, minimap: seq<nat>, ghost base: seq<nat>)
    returns (loc: int, now: nat)
    requires Addresses(base) && Racing(base, mem) && minimap == MinimapOf(base) && val % 4 == 0 && n == |base| > 0
    ensures Found(base, val, mem, 0, n, start, now, loc)
    ensures loc == -1 <==> Straddles(val, mem, 0, start + Halvings(Min(n, PAGE_WORDS)))
  {
    var lo, hi := PageBounds(val, n, minimap, base);
    loc, now := PageSearch(val, mem, start, lo, hi, Min(n, PAGE_WORDS), base);
  }

  /** The second level: the search of a page; first is where the first page ends. */
  method PageSearch(val: nat, mem: Loads, start: nat, lo: nat, hi: nat, ghost first: nat, ghost base: seq<nat>)
    returns (loc: int, now: nat)
    requires Addresses(base) && Racing(base, mem) && val % 4 == 0 && 0 < first <= |base|
    requires lo < hi <= |base| && (lo > 0 ==> base[lo] <= val) && (hi < |base| ==> val < base[hi])
    requires (lo == 0 ==> hi == first) && (val == base[0] ==> lo == 0)
    ensures Found(base, val, mem, 0, |base|, start, now, loc)
    ensures loc == -1 <==> Straddles(val, mem, 0, start + Halvings(first))
  {
    loc, now := BinarySearch(val, mem, start, lo, hi, base);
    FoundOnPage(base, val, mem, lo, hi, start, now, loc);
    if lo > 0 { NotFirst(base, val, mem, start + Halvings(first)); }
  }

  /** The loads of the first entry do not straddle another value. */
  lemma NotFirst(base: seq<nat>, val: nat, mem: Loads, at: nat)
    requires Addresses(base) && Racing(base, mem) && val % 4 == 0 && |base| > 0 && val != base[0]
    ensures !Straddles(val, mem, 0, at)
  {
    if Straddles(val, mem, 0, at) { StraddlesOwn(base, val, mem, 0, at); }
  }

  /** The places of the page that val would be on. */
  method PageBounds(val: nat, n: nat, minimap: seq<nat>, ghost base: seq<nat>) returns (lo: nat, hi: nat)
    requires Addresses(base) && minimap == MinimapOf(base) && val % 4 == 0 && n == |base| > 0
    ensures lo < hi <= n && (lo > 0 ==> base[lo] <= val) && (hi < n ==> val < base[hi])
    ensures (lo == 0 ==> hi == Min(n, PAGE_WORDS)) && (val == base[0] ==> lo == 0)
  {
    var v := PageFind(val, minimap, base);
    lo := v * PAGE_WORDS;
    hi := if v == |minimap| - 1 then n else (v + 1) * PAGE_WORDS;
  }

  /** The first level: the page that val would be on. */
  method PageFind(val: nat, minimap: seq<nat>, ghost base: seq<nat>) returns (v: nat)
    requires Addresses(base) && minimap == MinimapOf(base) && val % 4 == 0 && |base| > 0
    ensures v < |minimap| && (v > 0 ==> base[v * PAGE_WORDS] <= val)
    ensures v + 1 < |minimap| ==> val < base[(v + 1) * PAGE_WORDS]
    ensures val == base[0] ==> v == 0
  {
    PageIncreasing(base, minimap);
    assert |minimap| > 0 && minimap[0] == base[0];
    var page, _ := BinarySearch(val, Still(minimap), 0, 0, |minimap|, minimap);
    v := page;
    assert v > 0 ==> minimap[0] < minimap[v];
    assert v + 1 < |minimap| ==> minimap[v + 1] == base[(v + 1) * PAGE_WORDS];
  }

  /** What is found on the page is what is looked for. */
  lemma FoundOnPage(base: seq<nat>, val: nat, mem: Loads, lo: nat, hi: nat, start: nat, now: nat, loc: int)
    requires Addresses(base) && Found(base, val, mem, lo, hi, start, now, loc) && lo < hi <= |base|
    requires (lo > 0 ==> base[lo] <= val) && (hi < |base| ==> val < base[hi])
    ensures Found(base, val, mem, 0, |base|, start, now, loc)
  {
  }

  /** is_ref: the place holds val, marked or not.  The source asserts that loc is not negative. */
  predicate IsRef(base: seq<nat>, loc: int, val: nat) { 0 <= loc < |base| && base[loc] == val }

  /** The two-level search refines a flat lookup while marks change: an address that is still unmarked
      is found at its own place, an untracked one is never taken for a reference, and for one that has
      been marked the answer is its own place or one that is no reference to it; so testing the mark
      and setting it comes out as with a flat lookup. */
  lemma SearchRefinesLookup(base: seq<nat>, val: nat, mem: Loads, start: nat, now: nat, loc: int)
    requires Addresses(base) && Racing(base, mem) && Found(base, val, mem, 0, |base|, start, now, loc)
    ensures IsRef(base, loc, val) ==> val in base
    ensures forall j :: 0 <= j < |base| && base[j] == val ==>
      loc == j || (loc == j - 1 && !IsRef(base, loc, val) && mem(now, j) == val + 1)
    ensures loc < 0 ==> base[0] == val && mem(start, 0) == val && mem(now, 0) == val + 1
  {
  }

  /** It can happen on every array: a sibling marks the first address between the two loads of it, at
      child.c:80 and 82, while that address is searched for.  With these loads AddrFind returns -1. */
  lemma SearchCanReturnMinusOne(base: seq<nat>, start: nat) returns (mem: Loads)
    requires Addresses(base) && base != []
    ensures Racing(base, mem) && Straddles(base[0], mem, 0, start + Halvings(Min(|base|, PAGE_WORDS)))
    ensures BinaryAt(base[0], mem, start, 0, Min(|base|, PAGE_WORDS)) == -1
  {
    var first := Min(|base|, PAGE_WORDS);
    var last := start + Halvings(first);
    mem := FirstMarkedAfter(base, last);
    FirstMarkRaces(base, last);
    BeforeIf(base[0], mem, start, 0, first);
  }

  /** Loads of an array whose first entry gets its mark after the load numbered last. */
  function FirstMarkedAfter(base: seq<nat>, last: nat): Loads {
    (t: nat, i: nat) => if i >= |base| then 0 else if i == 0 && t > last then base[0] + 1 else base[i]
  }

  lemma FirstMarkRaces(base: seq<nat>, last: nat)
    requires Addresses(base) && base != []
    ensures Racing(base, FirstMarkedAfter(base, last)) && Straddles(base[0], FirstMarkedAfter(base, last), 0, last)
    ensures forall u: nat, i: nat :: 0 < i < |base| ==> FirstMarkedAfter(base, last)(u, i) > base[0]
  {
  }

  // ------------------------------------------------------------------ search with a hint

  /** loc is the first place whose address is at least val. */
  ghost predicate IsCeiling(base: seq<nat>, val: nat, loc: int) {
    0 <= loc < |base| && val <= base[loc] && (loc > 0 ==> base[loc - 1] < val)
  }

  /** No address from before the hint on is as large as val. */
  ghost predicate HintOk(base: seq<nat>, val: nat, hint: int) {
    0 <= hint < |base| && (hint == 0 || base[hint - 1] < val)
  }

  /** The filter by the largest address keeps every load inside the array, and the result is never
      negative, whatever the hint. */
  method AddrFindHint(val: nat, mem: Loads, n: nat, minimap: seq<nat>, hint: nat, ghost base: seq<nat>)
    returns (loc: int, now: nat)
    requires Addresses(base) && Racing(base, mem) && minimap == MinimapOf(base) && val % 4 == 0 && n == |base|
    requires hint < n && val <= base[n - 1]
    ensures 0 <= loc < n
    ensures val <= base[hint] ==> loc == hint
    ensures val > base[hint] ==> IsCeiling(base, val, loc) || Found(base, val, mem, 0, n, 0, now, loc)
  {
    now := 0;
    var at := hint;
    var cmp := mem(now, at);
    if val <= cmp { return at, now; }
    var remaining := (LINE_WORDS - 1 - hint % LINE_WORDS) + 8;
    for i := 0 to remaining
      invariant hint <= at < n && base[at] < val
    {
      at := Min(n, at + 1);
      now := now + 1;
      cmp := mem(now, at);
      if val <= cmp { return at, now; }
    }
    ghost var from := now;
    loc, now := AddrFind(val, mem, now, n, minimap, base);
  }
}
