/** One scanning process of child.c: marking, the lookaside batch and the root scan, working in place on
    the shared array of addresses while siblings may set marks in it at any time. */
module Scanner {
  import opened Words
  import opened Search
  import Sorting
  import T = AvlTree

  const LOOKASIDE_SZ := 0x4000

  /** (size_t)-1, larger than any address. */
  const NOWHERE := 0xFFFF_FFFF_FFFF_FFFF

  /** a holds the addresses of base, each with or without the mark bit. */
  ghost predicate Entries(base: seq<nat>, a: seq<nat>) {
    |a| == |base| && forall i :: 0 <= i < |base| ==> a[i] == base[i] || a[i] == base[i] + 1
  }

  ghost function MarksIn(base: seq<nat>, a: seq<nat>): set<nat>
    requires |a| == |base|
  {
    set i | 0 <= i < |base| && a[i] == base[i] + 1 :: base[i]
  }

  lemma MarkIn(base: seq<nat>, a: seq<nat>, j: nat)
    requires Addresses(base) && Entries(base, a) && j < |base|
    ensures base[j] in MarksIn(base, a) <==> a[j] == base[j] + 1
    ensures PtrMask(a[j]) == base[j] && (a[j] % 2 == 0 <==> a[j] == base[j])
  {
    MaskOff(base[j], a[j]);
    if base[j] in MarksIn(base, a) {
      var i :| 0 <= i < |base| && a[i] == base[i] + 1 && base[i] == base[j];
      assert i == j;
    }
  }

  lemma MaskOff(x: nat, y: nat)
    requires x % 4 == 0 && (y == x || y == x + 1)
    ensures PtrMask(y) == x && (y % 2 == 0 <==> y == x)
  {
    var q := x / 4;
    assert x == 4 * q;
    if y == x { assert y == 2 * (2 * q); } else { assert y == 2 * (2 * q) + 1 && y / 4 == q; }
  }

  lemma SetMark(base: seq<nat>, a: seq<nat>, j: nat)
    requires Addresses(base) && Entries(base, a) && j < |base| && a[j] == base[j]
    ensures var a' := a[j := base[j] + 1];
      Entries(base, a') && base[j] !in MarksIn(base, a) && MarksIn(base, a') == MarksIn(base, a) + {base[j]}
  {
    var a' := a[j := base[j] + 1];
    MarkIn(base, a, j);
    forall i | 0 <= i < |base| ensures base[i] in MarksIn(base, a') <==> base[i] in MarksIn(base, a) || i == j {
      MarkIn(base, a, i);
      MarkIn(base, a', i);
    }
  }

  lemma MarksGrow(base: seq<nat>, a: seq<nat>, b: seq<nat>)
    requires Entries(base, a) && Entries(base, b)
    requires forall i :: 0 <= i < |base| && a[i] == base[i] + 1 ==> b[i] == base[i] + 1
    ensures MarksIn(base, a) <= MarksIn(base, b)
  {
  }

  /** now is before and some of more. */
  ghost predicate AtMost(before: set<nat>, now: set<nat>, more: set<nat>) {
    before <= now <= before + more
  }

  lemma AtMostStep(before: set<nat>, now: set<nat>, later: set<nat>, more: set<nat>)
    requires AtMost(before, now, more) && AtMost(now, later, more)
    ensures AtMost(before, later, more)
  {
  }

  class Scan {
    /** The working buffer: ab->addrs as it was sorted, its shared array, and its minimap. */
    ghost const base: seq<nat>
    const n: nat
    const addrs: array<nat>
    const minimap: seq<nat>

    /** The snapshot: the word at each address, and how many words the allocator reports as usable in
        each block (usable sizes are whole words). */
    const word: nat -> nat
    const words: nat -> nat

    /** Whether siblings work on the same array. */
    const racing: bool

    /** Where the recursion goes: to the block just marked, or where line 170 of child.c has it go. */
    const onTarget: bool

    const lookaside: array<nat>
    var count: nat

    /** The addresses that this scanner itself has marked. */
    ghost var mine: set<nat>

    /** The tracked addresses are in order, with or without their marks, and so are those marked here. */
    ghost predicate Tracking()
      reads this`mine, addrs
    {
      && n == |base| == addrs.Length > 0 && Addresses(base) && base[0] > 0 && minimap == MinimapOf(base)
      && Entries(base, addrs[..]) && mine <= Marked()
    }

    ghost predicate Valid()
      reads this, addrs, lookaside
    {
      && Tracking() && addrs != lookaside && count <= lookaside.Length == LOOKASIDE_SZ
      && forall k :: 0 <= k < count ==> InRange(lookaside[k])
    }

    /** The value passes the filter by the smallest and the largest tracked address. */
    ghost predicate InRange(val: nat) { n == |base| > 0 && val % 4 == 0 && base[0] <= val <= base[n - 1] }

    ghost function Marked(): set<nat>
      reads addrs
      requires n == |base| == addrs.Length
    {
      MarksIn(base, addrs[..])
    }

    /** The marks that this scanner answers for: its own or, when it is alone, all. */
    ghost function Own(): set<nat>
      reads this`mine, addrs
      requires n == |base| == addrs.Length
    {
      if racing then mine else Marked()
    }

    function Val(b: nat, k: nat): nat { PtrMask(word(b + 8 * k)) }

    /** The tracked addresses that the first i words of block b hold, low bits aside. */
    ghost function UpTo(b: nat, i: nat): set<nat> {
      if i == 0 then {} else UpTo(b, i - 1) + (if Val(b, i - 1) in base then {Val(b, i - 1)} else {})
    }

    ghost function Referents(b: nat): set<nat> { UpTo(b, words(b)) }

    lemma {:induction false} UpToGrows(b: nat, i: nat, j: nat)
      requires i <= j
      ensures UpTo(b, i) <= UpTo(b, j)
      decreases j
    {
      if i < j { UpToGrows(b, i, j - 1); }
    }

    /** Membership spelled out: the referents are the tracked values among the block's masked words. */
    lemma {:induction false} UpToHolds(b: nat, i: nat, x: nat)
      ensures x in UpTo(b, i) <==> x in base && exists k: nat :: k < i && Val(b, k) == x
    {
      if i > 0 {
        UpToHolds(b, i - 1, x);
        if k: nat :| k < i && Val(b, k) == x { assert k < i - 1 || k == i - 1; }
      }
    }

    /** Entry i is seen as it was before, until its time. */
    function Seen(before: seq<nat>, after: seq<nat>, when: seq<nat>): Loads {
      (t: nat, i: nat) =>
        if i < |before| && i < |after| && i < |when| then (if t < when[i] then before[i] else after[i]) else 0
    }

    lemma SeenRaces(before: seq<nat>, after: seq<nat>, when: seq<nat>)
      requires |when| == |base| && Entries(base, before) && Entries(base, after)
      requires forall i :: 0 <= i < |base| ==> after[i] == before[i] || after[i] == base[i] + 1
      ensures var mem := Seen(before, after, when);
        && Racing(base, mem)
        && (forall t, i :: 0 <= t && 0 <= i < |base| && mem(t, i) == base[i] + 1 ==> after[i] == base[i] + 1)
        && (before == after ==> forall t, i :: 0 <= t && 0 <= i < |base| ==> mem(t, i) == after[i])
    {
    }

    /** What siblings may do meanwhile, and what the loads of a search then see. */
    method Race() returns (mem: Loads)
      requires Tracking()
      modifies addrs
      ensures Tracking() && old(Marked()) <= Marked() && Racing(base, mem)
      ensures forall t, i :: 0 <= t && 0 <= i < n && mem(t, i) == base[i] + 1 ==> addrs[i] == base[i] + 1
      ensures !racing ==> Marked() == old(Marked()) && forall t, i :: 0 <= t && 0 <= i < n ==> mem(t, i) == addrs[i]
    {
      var before := addrs[..];
      var when: seq<nat> := [];
      for i := 0 to n
        invariant |when| == i && (!racing ==> addrs[..] == before)
        invariant forall j :: 0 <= j < n ==> addrs[j] == before[j] || addrs[j] == base[j] + 1
      {
        var t: nat := *;
        when := when + [t];
        if racing {
          var mark: bool := *;
          if mark { addrs[i] := PtrMask(addrs[i]) + 1; }
        }
      }
      MarksGrow(base, before, addrs[..]);
      mem := Seen(before, addrs[..], when);
      SeenRaces(before, addrs[..], when);
    }

    /** A lookup during which siblings may set marks: an address that ends up unmarked is found at its
        own place, and only a tracked address is found at all. */
    method Lookup(val: nat) returns (loc: int)
      requires Tracking() && val % 4 == 0
      modifies addrs
      ensures Tracking() && old(Marked()) <= Marked() && Own() == old(Own()) && (!racing ==> Marked() == old(Marked()))
      ensures -1 <= loc < n && (loc < 0 ==> racing && val == base[0])
      ensures forall j :: 0 <= j < n && base[j] == val ==> loc == j || (loc == j - 1 && val in Marked())
      ensures IsFloor(base, val, 0, n, loc) || (loc + 1 < n && base[loc + 1] == val)
    {
      var mem := Race();
      var now;
      loc, now := AddrFind(val, mem, 0, n, minimap, base);
      SearchRefinesLookup(base, val, mem, 0, now, loc);
    }

    /** Test and mark the entry at loc if it refers to val; tells whether the mark was set here. */
    method MarkAt(loc: int, val: nat) returns (setHere: bool)
      requires Tracking() && loc < n
      modifies addrs, this`mine
      ensures Tracking() && Own() == old(Own()) + (if setHere then {val} else {})
      ensures setHere ==> val in base && val !in old(Marked()) && Marked() == old(Marked()) + {val}
      ensures !setHere ==> Marked() == old(Marked()) && (IsRef(base, loc, val) ==> val in Marked())
    {
      setHere := false;
      if loc >= 0 {
        MarkIn(base, addrs[..], loc);
        if PtrMask(addrs[loc]) == val && addrs[loc] % 2 == 0 {
          SetMark(base, addrs[..], loc);
          addrs[loc] := addrs[loc] + 1;
          mine := mine + {val};
          setHere := true;
        }
      }
    }

    /** One turn of the loop of recursive_mark up to the recursive call: filter, look up, test and set.
        Afterwards val is marked if it is tracked. */
    method MarkReferent(val: nat) returns (setHere: bool)
      requires Tracking() && val % 4 == 0
      modifies addrs, this`mine
      ensures Tracking() && old(Marked()) <= Marked() && (val in base ==> val in Marked())
      ensures setHere ==> val in base && val !in old(Own()) && old(Marked()) < Marked()
      ensures Own() == old(Own()) + (if setHere then {val} else {})
    {
      setHere := false;
      MarkIn(base, addrs[..], 0);
      MarkIn(base, addrs[..], n - 1);
      if PtrMask(addrs[0]) <= val <= PtrMask(addrs[n - 1]) {
        var loc := Lookup(val);
        setHere := MarkAt(loc, val);
        if val in base {
          var j :| 0 <= j < n && base[j] == val;
          assert loc == j || val in Marked();
        }
      }
    }

    ghost function Everything(): set<nat> { set x | x in base }

    lemma MarkedIsTracked()
      requires Tracking()
      ensures Marked() <= Everything()
    {
    }

    /** recursive_mark as child.c:170 is written: having marked a referent of `addr` it calls itself on
        `addr` again.  Afterwards the tracked referents of `addr` are marked, and this scanner has marked
        nothing else. */
    method RecursiveMarkAsWritten(addr: nat)
      requires Tracking()
      modifies addrs, this`mine
      ensures Tracking() && old(Marked()) + Referents(PtrMask(addr)) <= Marked()
      ensures AtMost(old(Own()), Own(), Referents(PtrMask(addr)))
      decreases Everything() - Marked(), 2
    {
      var ptr := PtrMask(addr);
      ghost var m0, o0 := Marked(), Own();
      var nVals := words(ptr);
      var i := 0;
      while i < nVals
        invariant 0 <= i <= nVals && Tracking() && MarkedSoFar(m0, Marked(), o0, Own(), ptr, i)
      {
        TurnAsWritten(ptr, i, m0, o0);
        i := i + 1;
      }
      DoneAll(ptr, m0, Marked());
    }

    /** The first i words of ptr have been dealt with: the tracked addresses they hold are in m. */
    ghost predicate Done(ptr: nat, i: nat, m: set<nat>) {
      forall k: nat :: k < i && Val(ptr, k) in base ==> Val(ptr, k) in m
    }

    lemma DoneAll(ptr: nat, m0: set<nat>, m: set<nat>)
      requires m0 <= m && Done(ptr, words(ptr), m)
      ensures m0 + Referents(ptr) <= m
    {
      forall x | x in Referents(ptr) ensures x in m { UpToHolds(ptr, words(ptr), x); }
    }

    /** The state of the loop after i words of ptr: what was marked at its start and since, by anybody and by
        this scanner. */
    ghost predicate MarkedSoFar(m0: set<nat>, m: set<nat>, o0: set<nat>, o: set<nat>, ptr: nat, i: nat) {
      m0 <= m && Done(ptr, i, m) && AtMost(o0, o, Referents(ptr))
    }

    lemma SoFarStep(m0: set<nat>, m: set<nat>, m1: set<nat>, o0: set<nat>, o: set<nat>, o1: set<nat>, ptr: nat, i: nat)
      requires MarkedSoFar(m0, m, o0, o, ptr, i) && m <= m1 && AtMost(o, o1, Referents(ptr))
      requires Val(ptr, i) in base ==> Val(ptr, i) in m1
      ensures MarkedSoFar(m0, m1, o0, o1, ptr, i + 1)
    {
      AtMostStep(o0, o, o1, Referents(ptr));
    }

    method TurnAsWritten(ptr: nat, i: nat, ghost m0: set<nat>, ghost o0: set<nat>)
      requires Tracking() && i < words(ptr) && ptr % 4 == 0 && MarkedSoFar(m0, Marked(), o0, Own(), ptr, i)
      modifies addrs, this`mine
      ensures Tracking() && old(Marked()) <= Marked() && MarkedSoFar(m0, Marked(), o0, Own(), ptr, i + 1)
      decreases Everything() - Marked(), 1
    {
      ghost var m, o := Marked(), Own();
      WordAsWritten(ptr, i);
      SoFarStep(m0, m, Marked(), o0, o, Own(), ptr, i);
    }

    method WordAsWritten(ptr: nat, i: nat)
      requires Tracking() && i < words(ptr) && ptr % 4 == 0
      modifies addrs, this`mine
      ensures Tracking() && old(Marked()) <= Marked() && (Val(ptr, i) in base ==> Val(ptr, i) in Marked())
      ensures AtMost(old(Own()), Own(), Referents(ptr))
      decreases Everything() - Marked(), 0
    {
      UpToGrows(ptr, i + 1, words(ptr));
      MarkedIsTracked();
      var mark := MarkReferent(Val(ptr, i));
      MarkedIsTracked();
      if mark {
        assert PtrMask(ptr) == ptr;
        ghost var o := Own();
        RecursiveMarkAsWritten(ptr);
        AtMostStep(old(Own()), o, Own(), Referents(ptr));
      }
    }

    /** Whatever is in `now` beyond `before` has its tracked referents in m. */
    ghost predicate Followed(before: set<nat>, now: set<nat>, m: set<nat>) {
      forall b :: b in now && b !in before && b in base ==> Referents(b) <= m
    }

    /** `now` lies in each set that contains `before` and `from` and, of whatever is new in it, the tracked
        referents. */
    ghost predicate NoMore(before: set<nat>, now: set<nat>, from: set<nat>) {
      forall Y: set<nat> :: before <= Y && from <= Y && Followed(before, Y, Y) ==> now <= Y
    }

    /** What this scanner has added since `before`: only what can be reached by way of `from`, and with the
        tracked referents of it marked, by whomever. */
    ghost predicate Chased(before: set<nat>, now: set<nat>, m: set<nat>, from: set<nat>) {
      before <= now && Followed(before, now, m) && NoMore(before, now, from)
    }

    /** `now` is the least set that contains `before` and `from` and in which whatever is new has its
        tracked referents. */
    ghost predicate LeastOver(before: set<nat>, now: set<nat>, from: set<nat>) {
      from <= now && Chased(before, now, now, from)
    }

    lemma ChasedOn(o0: set<nat>, o1: set<nat>, m1: set<nat>, o2: set<nat>, m2: set<nat>, from: set<nat>)
      requires Chased(o0, o1, m1, from) && Chased(o1, o2, m2, from) && m1 <= m2
      ensures Chased(o0, o2, m2, from)
    {
      forall Y: set<nat> | o0 <= Y && from <= Y && Followed(o0, Y, Y) ensures o2 <= Y {
        assert o1 <= Y && Followed(o1, Y, Y);
      }
    }

    /** Marking a target and chasing its referents is chasing the target. */
    lemma ChasedTarget(o0: set<nat>, o1: set<nat>, o2: set<nat>, m: set<nat>, target: nat, from: set<nat>)
      requires o1 == o0 + {target} && target in from && target in base && target !in o0
      requires Referents(target) <= m && Chased(o1, o2, m, Referents(target))
      ensures Chased(o0, o2, m, from)
    {
      forall Y: set<nat> | o0 <= Y && from <= Y && Followed(o0, Y, Y) ensures o2 <= Y {
        assert Referents(target) <= Y && Followed(o1, Y, Y);
      }
    }

    lemma ChasedFromMore(o0: set<nat>, o1: set<nat>, m: set<nat>, from: set<nat>, more: set<nat>)
      requires Chased(o0, o1, m, from) && from <= more
      ensures Chased(o0, o1, m, more)
    {
    }

    /** Line 170 as written does what the recursion on the block just marked does if and only if no
        newly marked referent of the block refers to a tracked block that is not marked by then: one
        more step along references already shows the difference. */
    lemma AsWrittenSufficesIff(before: set<nat>, ptr: nat, least: set<nat>)
      requires LeastOver(before, least, Referents(ptr))
      requires Referents(ptr) <= Everything()
      ensures before + Referents(ptr) == least
        <==> forall c :: c in Referents(ptr) && c !in before ==> Referents(c) <= before + Referents(ptr)
    {
      var direct := before + Referents(ptr);
      if forall c :: c in Referents(ptr) && c !in before ==> Referents(c) <= direct {
        assert Followed(before, direct, direct);
      }
      if direct == least {
        forall c | c in Referents(ptr) && c !in before ensures Referents(c) <= direct {
          assert c in least && c in base;
        }
      }
    }

    /** The state of the loop of recursive_mark after i words of ptr. */
    ghost predicate Progress(m0: set<nat>, m: set<nat>, o0: set<nat>, o: set<nat>, ptr: nat, i: nat) {
      m0 <= m && Done(ptr, i, m) && Chased(o0, o, m, Referents(ptr))
    }

    lemma ProgressStep(m0: set<nat>, m: set<nat>, m1: set<nat>, o0: set<nat>, o: set<nat>, o1: set<nat>,
        ptr: nat, i: nat)
      requires Progress(m0, m, o0, o, ptr, i) && m <= m1 && Chased(o, o1, m1, Referents(ptr))
      requires Val(ptr, i) in base ==> Val(ptr, i) in m1
      ensures Progress(m0, m1, o0, o1, ptr, i + 1)
    {
      ChasedOn(o0, o, m, o1, m1, Referents(ptr));
    }

    lemma ProgressStart(m: set<nat>, o: set<nat>, ptr: nat)
      ensures Progress(m, m, o, o, ptr, 0)
    {
    }

    lemma ProgressEnd(m0: set<nat>, m: set<nat>, o0: set<nat>, o: set<nat>, ptr: nat)
      requires Progress(m0, m, o0, o, ptr, words(ptr))
      ensures m0 + Referents(ptr) <= m && Chased(o0, o, m, Referents(ptr))
      ensures o0 == m0 && o == m ==> LeastOver(m0, m, Referents(ptr))
    {
      DoneAll(ptr, m0, m);
    }

    /** recursive_mark with the recursion on the block just marked.  Afterwards the tracked referents of
        `addr` are marked, and of everything that this scanner has marked the tracked referents are; it has
        marked only what can be reached that way.  Alone on the array, the marks are the least such set. */
    method RecursiveMarkOnTarget(addr: nat)
      requires Tracking()
      modifies addrs, this`mine
      ensures Tracking() && old(Marked()) + Referents(PtrMask(addr)) <= Marked()
      ensures Chased(old(Own()), Own(), Marked(), Referents(PtrMask(addr)))
      ensures !racing ==> LeastOver(old(Marked()), Marked(), Referents(PtrMask(addr)))
      decreases Everything() - Marked(), 2
    {
      var ptr := PtrMask(addr);
      ghost var m0, o0 := Marked(), Own();
      ProgressStart(m0, o0, ptr);
      var nVals := words(ptr);
      var i := 0;
      while i < nVals
        invariant 0 <= i <= nVals && Tracking() && Progress(m0, Marked(), o0, Own(), ptr, i)
      {
        TurnOnTarget(ptr, i, m0, o0);
        i := i + 1;
      }
      ProgressEnd(m0, Marked(), o0, Own(), ptr);
    }

    method TurnOnTarget(ptr: nat, i: nat, ghost m0: set<nat>, ghost o0: set<nat>)
      requires Tracking() && i < words(ptr) && ptr % 4 == 0 && Progress(m0, Marked(), o0, Own(), ptr, i)
      modifies addrs, this`mine
      ensures Tracking() && old(Marked()) <= Marked() && Progress(m0, Marked(), o0, Own(), ptr, i + 1)
      decreases Everything() - Marked(), 1
    {
      ghost var m, o := Marked(), Own();
      WordOnTarget(ptr, i);
      ProgressStep(m0, m, Marked(), o0, o, Own(), ptr, i);
    }

    method WordOnTarget(ptr: nat, i: nat)
      requires Tracking() && i < words(ptr) && ptr % 4 == 0
      modifies addrs, this`mine
      ensures Tracking() && old(Marked()) <= Marked() && (Val(ptr, i) in base ==> Val(ptr, i) in Marked())
      ensures Chased(old(Own()), Own(), Marked(), Referents(ptr))
      decreases Everything() - Marked(), 0
    {
      UpToGrows(ptr, i + 1, words(ptr));
      var target := Val(ptr, i);
      MarkedIsTracked();
      var mark := MarkReferent(target);
      MarkedIsTracked();
      if mark {
        ghost var o := Own();
        assert PtrMask(target) == target;
        RecursiveMarkOnTarget(target);
        ChasedTarget(old(Own()), o, Own(), Marked(), target, Referents(ptr));
      }
    }

    // ---------------------------------------------------------------- the lookaside batch

    ghost function Batch(): seq<nat>
      reads this, lookaside
      requires count <= lookaside.Length
    {
      lookaside[..count]
    }

    ghost function SetOf(q: seq<nat>): set<nat> { set x | x in q }

    ghost function Tracked(vals: set<nat>): set<nat> { set x | x in vals && x in base }

    /** x is a tracked value among vals whose referents are in m, or a referent of one. */
    ghost predicate From(vals: set<nat>, m: set<nat>, x: nat) {
      exists r :: r in vals && r in base && Referents(r) <= m && (x == r || x in Referents(r))
    }

    /** What this scanner has marked since `before` comes from vals, by way of any number of references or of
        at most one, and has been followed as far; m is what is marked by anybody.  The batch comes from vals,
        too. */
    ghost predicate Traced(before: set<nat>, vals: set<nat>, now: set<nat>, m: set<nat>, batch: seq<nat>) {
      && SetOf(batch) <= vals
      && if onTarget then Chased(before, now, m, Tracked(vals)) else
           forall x :: x in now ==> x in before || From(vals, m, x)
    }

    lemma TracedFromMore(o0: set<nat>, v: set<nat>, o1: set<nat>, m1: set<nat>, b: seq<nat>, more: set<nat>)
      requires Traced(o0, v, o1, m1, b) && v <= more
      ensures Traced(o0, more, o1, m1, b)
    {
      if onTarget {
        ChasedFromMore(o0, o1, m1, Tracked(v), Tracked(more));
      } else {
        forall x | x in o1 && x !in o0 ensures From(more, m1, x) { assert From(v, m1, x); }
      }
    }

    lemma TracedOn(o0: set<nat>, v: set<nat>, o1: set<nat>, m1: set<nat>, b1: seq<nat>, o2: set<nat>, m2: set<nat>,
        b2: seq<nat>)
      requires Traced(o0, v, o1, m1, b1) && Traced(o1, v, o2, m2, b2) && m1 <= m2
      ensures Traced(o0, v, o2, m2, b2)
    {
      if onTarget {
        ChasedOn(o0, o1, m1, o2, m2, Tracked(v));
      } else {
        forall x | x in o2 && x !in o0 ensures From(v, m2, x) {
          if x in o1 { assert From(v, m1, x); } else { assert From(v, m2, x); }
        }
      }
    }

    lemma TracedInTurn(o0: set<nat>, v0: set<nat>, o1: set<nat>, m1: set<nat>, b1: seq<nat>, v1: set<nat>,
        o2: set<nat>, m2: set<nat>, b2: seq<nat>, v: set<nat>)
      requires Traced(o0, v0, o1, m1, b1) && Traced(o1, v1, o2, m2, b2) && m1 <= m2 && v0 <= v && v1 <= v
      ensures Traced(o0, v, o2, m2, b2)
    {
      TracedFromMore(o0, v0, o1, m1, b1, v);
      TracedFromMore(o1, v1, o2, m2, b2, v);
      TracedOn(o0, v, o1, m1, b1, o2, m2, b2);
    }

    /** A lookup that starts at the place of the last one. */
    method LookupFrom(val: nat, hint: nat) returns (loc: nat)
      requires Tracking() && InRange(val) && hint < n
      modifies addrs
      ensures Tracking() && old(Marked()) <= Marked() && loc < n && Own() == old(Own())
      ensures HintOk(base, val, hint) ==>
        (loc == 0 || base[loc - 1] < val) && (val in base ==> base[loc] == val || val in Marked())
    {
      var mem := Race();
      var l, now := AddrFindHint(val, mem, n, minimap, hint, base);
      loc := l;
      if val in base {
        var j :| 0 <= j < n && base[j] == val;
        MarkIn(base, addrs[..], j);
        if val > base[hint] && !IsCeiling(base, val, loc) { SearchRefinesLookup(base, val, mem, 0, now, loc); }
      }
    }

    /** The batch as it is looked up: distinct values in increasing order first, then a tail that holds
        nothing new. */
    ghost predicate LooksUp(batch: seq<nat>, list: seq<nat>) {
      && T.Ascending(batch) <= list
      && (forall x :: x in list ==> x in batch) && (forall x :: x in batch ==> x in T.Ascending(batch))
      && (forall i, j :: 0 <= i < j < |list| && j == i + 1 ==> list[i] != list[j])
      && (forall i, j :: 0 <= i < j < |T.Ascending(batch)| ==> T.Ascending(batch)[i] < T.Ascending(batch)[j])
    }

    lemma BatchSorted(batch: seq<nat>)
      ensures LooksUp(batch, Sorting.Compacted(Sorting.AvlSorted(batch)))
    {
      var u := T.Ascending(batch);
      T.AscendingLists(batch);
      Sorting.CompactedMembers(Sorting.AvlSorted(batch));
      if |batch| <= 1 {
        Sorting.SortsAgree(batch, batch);
        AtMostOne(batch);
      }
      Sorting.CompactedPrefix(u, batch[|u|..]);
      forall x | x in Sorting.AvlSorted(batch) ensures x in batch {}
    }

    lemma AtMostOne(batch: seq<nat>)
      requires |batch| <= 1
      ensures T.Ascending(batch) == batch
    {
      T.AscendingLists(batch);
      if |batch| == 1 { assert batch[0] in T.Ascending(batch); }
    }

    method SortBatch()
      requires Valid()
      modifies lookaside, this`count
      ensures Valid() && LooksUp(old(Batch()), Batch())
    {
      ghost var batch := Batch();
      BatchSorted(batch);
      Sorting.AvlSort(lookaside, count);
      assert lookaside[..count] == Sorting.AvlSorted(batch);
      var savings := Sorting.Compact(lookaside, count);
      count := count - savings;
      assert forall x :: x in batch ==> InRange(x);
      forall k | 0 <= k < count ensures InRange(lookaside[k]) { assert lookaside[k] in Batch(); }
    }

    /** lookup_lookaside_list.  Every tracked address of the batch ends up marked, although the AVL sort
        leaves an unsorted tail that compaction does not remove and the place of the last lookup is
        carried across it; every load stays inside the array. */
    method LookupLookaside()
      requires Valid()
      modifies addrs, lookaside, this`count, this`mine
      ensures Valid() && count == 0 && old(Marked()) <= Marked()
      ensures forall x :: x in old(Batch()) && x in base ==> x in Marked()
      ensures Traced(old(Own()), SetOf(old(Batch())), Own(), Marked(), [])
    {
      ghost var batch := Batch();
      SortBatch();
      LookupAll(batch);
      count := 0;
    }

    /** The first i distinct values of the batch have been dealt with. */
    ghost predicate Looked(sorted: seq<nat>, i: nat, m: set<nat>) {
      forall k :: 0 <= k < i && k < |sorted| && sorted[k] in base ==> sorted[k] in m
    }

    lemma LookedAll(batch: seq<nat>, list: seq<nat>, m: set<nat>)
      requires LooksUp(batch, list) && Looked(T.Ascending(batch), |list|, m)
      ensures forall x :: x in batch && x in base ==> x in m
    {
      var sorted := T.Ascending(batch);
      forall x | x in batch && x in base ensures x in m {
        var k :| 0 <= k < |sorted| && sorted[k] == x;
      }
    }

    /** What the loop carries from turn to turn: the last value looked up and the place it was found at. */
    ghost predicate Carried(sorted: seq<nat>, list: seq<nat>, i: nat, cmp: nat, cached: nat) {
      && i <= |list| && cached < |base|
      && cmp == (if i == 0 then 0 else list[i - 1])
      && (i <= |sorted| ==> cached == 0 || (i > 0 && base[cached - 1] < sorted[i - 1]))
    }

    /** The next value is another one, and for the distinct values the hint is good. */
    lemma NextLookup(batch: seq<nat>, list: seq<nat>, i: nat, cmp: nat, cached: nat)
      requires LooksUp(batch, list) && Carried(T.Ascending(batch), list, i, cmp, cached) && i < |list|
      requires list[i] > 0
      ensures list[i] != cmp && list[i] in batch
      ensures i < |T.Ascending(batch)| ==> list[i] == T.Ascending(batch)[i] && HintOk(base, list[i], cached)
    {
      var sorted := T.Ascending(batch);
      if i > 0 { assert list[i - 1] != list[i]; }
      if i < |sorted| {
        assert sorted[i] == list[i];
        if i > 0 { assert sorted[i - 1] < sorted[i]; }
      }
    }

    /** Its loop, over the sorted and compacted batch. */
    method LookupAll(ghost batch: seq<nat>)
      requires Valid() && LooksUp(batch, Batch())
      modifies addrs, this`mine
      ensures Valid() && old(Marked()) <= Marked()
      ensures forall x :: x in batch && x in base ==> x in Marked()
      ensures Traced(old(Own()), SetOf(batch), Own(), Marked(), [])
    {
      ghost var sorted, list, m0, o0 := T.Ascending(batch), Batch(), Marked(), Own();
      var cmp, cached: nat := 0, 0;
      var i := 0;
      while i < count
        invariant Valid() && 0 <= i <= count && Batch() == list && m0 <= Marked()
        invariant Carried(sorted, list, i, cmp, cached) && Looked(sorted, i, Marked())
        invariant Traced(o0, SetOf(batch), Own(), Marked(), [])
      {
        cmp, cached := LookupNext(i, cmp, cached, batch, o0);
        i := i + 1;
      }
      LookedAll(batch, list, Marked());
    }

    method LookupNext(i: nat, cmp: nat, cached: nat, ghost batch: seq<nat>, ghost o0: set<nat>)
      returns (next: nat, place: nat)
      requires Valid() && LooksUp(batch, Batch()) && i < count && Traced(o0, SetOf(batch), Own(), Marked(), [])
      requires Carried(T.Ascending(batch), Batch(), i, cmp, cached) && Looked(T.Ascending(batch), i, Marked())
      modifies addrs, this`mine
      ensures Valid() && Batch() == old(Batch()) && old(Marked()) <= Marked()
      ensures Traced(o0, SetOf(batch), Own(), Marked(), [])
      ensures Carried(T.Ascending(batch), Batch(), i + 1, next, place) && Looked(T.Ascending(batch), i + 1, Marked())
    {
      NextLookup(batch, Batch(), i, cmp, cached);
      next := lookaside[i];
      place := LookupInBatch(next, cached, batch, o0);
    }

    method LookupInBatch(cmp: nat, hint: nat, ghost batch: seq<nat>, ghost o0: set<nat>) returns (loc: nat)
      requires Tracking() && InRange(cmp) && hint < n && cmp in batch && Traced(o0, SetOf(batch), Own(), Marked(), [])
      modifies addrs, this`mine
      ensures Tracking() && old(Marked()) <= Marked() && loc < n
      ensures HintOk(base, cmp, hint) ==> (loc == 0 || base[loc - 1] < cmp) && (cmp in base ==> cmp in Marked())
      ensures Traced(o0, SetOf(batch), Own(), Marked(), [])
    {
      ghost var o, m := Own(), Marked();
      loc := LookupOne(cmp, hint);
      TracedInTurn(o0, SetOf(batch), o, m, [], {cmp}, Own(), Marked(), [], SetOf(batch));
    }

    lemma TracedOne(o0: set<nat>, o1: set<nat>, o2: set<nat>, m: set<nat>, cmp: nat)
      requires o1 == o0 + {cmp} && cmp in base && cmp !in o0 && Referents(cmp) <= m
      requires if onTarget then Chased(o1, o2, m, Referents(cmp)) else AtMost(o1, o2, Referents(cmp))
      ensures Traced(o0, {cmp}, o2, m, [])
    {
      if onTarget {
        ChasedTarget(o0, o1, o2, m, cmp, Tracked({cmp}));
      } else {
        forall x | x in o2 && x !in o0 ensures From({cmp}, m, x) { assert x == cmp || x in Referents(cmp); }
      }
    }

    /** One turn of the loop: look up, test, mark and recurse. */
    method LookupOne(cmp: nat, hint: nat) returns (loc: nat)
      requires Tracking() && InRange(cmp) && hint < n
      modifies addrs, this`mine
      ensures Tracking() && old(Marked()) <= Marked() && loc < n
      ensures HintOk(base, cmp, hint) ==> (loc == 0 || base[loc - 1] < cmp) && (cmp in base ==> cmp in Marked())
      ensures Traced(old(Own()), {cmp}, Own(), Marked(), [])
    {
      loc := LookupFrom(cmp, hint);
      var mark := MarkAt(loc, cmp);
      if mark {
        assert PtrMask(cmp) == cmp;
        ghost var o := Own();
        if onTarget { RecursiveMarkOnTarget(cmp); } else { RecursiveMarkAsWritten(cmp); }
        TracedOne(old(Own()), o, Own(), Marked(), cmp);
      }
    }

    // ---------------------------------------------------------------- the root scan

    function End(b: nat): nat { b + 8 * words(b) }

    /** Blocks of one list, in order, aligned, not empty and apart. */
    ghost predicate Blocks(q: seq<nat>) {
      && (forall i :: 0 <= i < |q| ==> q[i] % 8 == 0 && words(q[i]) > 0 && q[i] < NOWHERE)
      && (forall i, j :: 0 <= i < j < |q| ==> End(q[i]) <= q[j])
    }

    ghost predicate Apart(p: seq<nat>, q: seq<nat>) {
      forall i, j :: 0 <= i < |p| && 0 <= j < |q| ==> End(p[i]) <= q[j] || End(q[j]) <= p[i]
    }

    ghost predicate Inside(q: seq<nat>, w: nat) { exists i :: 0 <= i < |q| && q[i] <= w < End(q[i]) }

    /** Block idx is the first of q that does not end before low, and low is not inside any. */
    ghost predicate Ahead(q: seq<nat>, idx: int, low: nat) {
      && 0 <= idx <= |q|
      && (forall k :: 0 <= k < idx ==> End(q[k]) <= low)
      && (idx < |q| ==> low <= q[idx])
    }

    function AddrAt(q: seq<nat>, idx: nat): nat { if idx < |q| then q[idx] else NOWHERE }

    /** Before the next block of q no word lies inside one. */
    lemma AheadIsFree(q: seq<nat>, idx: nat, low: nat, w: nat)
      requires Blocks(q) && Ahead(q, idx, low) && low <= w < AddrAt(q, idx)
      ensures !Inside(q, w)
    {
      forall i | 0 <= i < |q| ensures !(q[i] <= w < End(q[i])) {
        if i > idx { assert End(q[idx]) <= q[i]; }
      }
    }

    /** Passing block idx of q. */
    lemma PastBlock(q: seq<nat>, idx: nat, low: nat)
      requires Blocks(q) && Ahead(q, idx, low) && idx < |q|
      ensures Ahead(q, idx + 1, End(q[idx])) && forall w :: q[idx] <= w < End(q[idx]) ==> Inside(q, w)
    {
    }

    /** Passing a block of p does not pass the next block of q. */
    lemma PastOther(p: seq<nat>, idx: nat, q: seq<nat>, jdx: nat, low: nat)
      requires Blocks(p) && Blocks(q) && Apart(p, q) && idx < |p| && Ahead(q, jdx, low)
      requires low <= End(p[idx]) && (jdx < |q| ==> p[idx] <= q[jdx])
      ensures Ahead(q, jdx, End(p[idx])) && (jdx < |q| ==> p[idx] < q[jdx])
    {
      if jdx < |q| { assert End(p[idx]) <= q[jdx]; }
    }

    lemma EndAligned(b: nat)
      ensures b % 8 == 0 ==> End(b) % 8 == 0
    {
    }

    /** Where the scan of q starts: the block at `loc` is the last that begins at or before low, or the
        one before it, or the first. */
    lemma StartAhead(q: seq<nat>, loc: nat, low: nat) returns (idx: nat, low': nat)
      requires Blocks(q) && loc < |q|
      requires IsFloor(q, low, 0, |q|, loc) || (loc + 1 < |q| && q[loc + 1] == low)
      ensures low' == (if q[loc] <= low < End(q[loc]) then End(q[loc]) else low)
      ensures idx == (if q[loc] <= low then loc + 1 else loc)
      ensures Ahead(q, idx, low') && forall w :: low <= w < low' ==> Inside(q, w)
      ensures low % 8 == 0 ==> low' % 8 == 0
    {
      EndAligned(q[loc]);
      low' := if q[loc] <= low < End(q[loc]) then End(q[loc]) else low;
      idx := if q[loc] <= low then loc + 1 else loc;
      assert loc > 0 ==> End(q[loc - 1]) <= q[loc];
      forall k | 0 <= k < idx ensures End(q[k]) <= low' { if k < loc { assert End(q[k]) <= q[loc]; } }
    }

    /** The tracked addresses met so far: marked, or waiting in the batch. */
    ghost function Handled(): set<nat>
      reads this, addrs, lookaside
      requires n == |base| == addrs.Length && count <= lookaside.Length
    {
      Marked() + (set x | x in Batch() && x in base)
    }

    /** One word of root memory: its masked value is filtered, put aside, and a full batch is flushed. */
    method NoteWord(at: nat)
      requires Valid() && count < LOOKASIDE_SZ
      modifies addrs, lookaside, this`count, this`mine
      ensures Valid() && count < LOOKASIDE_SZ && old(Marked()) <= Marked() && old(Handled()) <= Handled()
      ensures PtrMask(word(at)) in base ==> PtrMask(word(at)) in Handled()
      ensures Traced(old(Own()), SetOf(old(Batch())) + {PtrMask(word(at))}, Own(), Marked(), Batch())
    {
      var cmp := PtrMask(word(at));
      MarkIn(base, addrs[..], 0);
      MarkIn(base, addrs[..], n - 1);
      if PtrMask(addrs[0]) <= cmp <= PtrMask(addrs[n - 1]) {
        ghost var batch := Batch();
        lookaside[count] := cmp;
        count := count + 1;
        assert Batch() == batch + [cmp];
        assert SetOf(Batch()) == SetOf(batch) + {cmp};
        if count >= LOOKASIDE_SZ { LookupLookaside(); }
      }
    }

    /** The words from lo up to hi. */
    ghost function WordsIn(lo: nat, hi: nat): seq<nat>
      decreases hi - lo
    {
      if lo >= hi then [] else [lo] + WordsIn(lo + 8, hi)
    }

    ghost function ValsOf(ws: seq<nat>): set<nat> { set w | w in ws :: PtrMask(word(w)) }

    /** The inner loop of find_roots. */
    method ScanGap(low: nat, stop: nat)
      requires Valid() && count < LOOKASIDE_SZ
      modifies addrs, lookaside, this`count, this`mine
      ensures Valid() && count < LOOKASIDE_SZ && old(Marked()) <= Marked() && old(Handled()) <= Handled()
      ensures forall w :: w in WordsIn(low, stop) && PtrMask(word(w)) in base ==> PtrMask(word(w)) in Handled()
      ensures Traced(old(Own()), SetOf(old(Batch())) + ValsOf(WordsIn(low, stop)), Own(), Marked(), Batch())
    {
      ghost var o0, vals := Own(), SetOf(Batch()) + ValsOf(WordsIn(low, stop));
      var at := low;
      while at < stop
        invariant low <= at && Valid() && count < LOOKASIDE_SZ && old(Marked()) <= Marked()
        invariant old(Handled()) <= Handled()
        invariant forall w :: w in WordsIn(low, stop) && PtrMask(word(w)) in base ==>
                    PtrMask(word(w)) in Handled() || w in WordsIn(at, stop)
        invariant forall w :: w in WordsIn(at, stop) ==> w in WordsIn(low, stop)
        invariant Traced(o0, vals, Own(), Marked(), Batch())
      {
        ghost var o, m, b := Own(), Marked(), Batch();
        assert at in WordsIn(at, stop);
        NoteWord(at);
        TracedInTurn(o0, vals, o, m, b, SetOf(b) + {PtrMask(word(at))}, Own(), Marked(), Batch(), vals);
        at := at + 8;
      }
    }

    ghost predicate Free(dead: seq<nat>, w: nat) { !Inside(base, w) && !Inside(dead, w) }

    /** `visited` lists exactly the words of [lo, hi) outside every tracked and dead block, in order. */
    ghost predicate Visits(visited: seq<nat>, lo: nat, hi: nat, dead: seq<nat>) {
      && Increasing(visited)
      && (forall w :: w in visited <==> lo <= w < hi && w % 8 == 0 && Free(dead, w))
    }

    lemma {:induction false} WordsInLists(lo: nat, hi: nat)
      requires lo % 8 == 0 && hi % 8 == 0
      ensures forall w :: w in WordsIn(lo, hi) <==> lo <= w < hi && w % 8 == 0
      ensures Increasing(WordsIn(lo, hi))
      decreases hi - lo
    {
      if lo < hi {
        WordsInLists(lo + 8, hi);
        var q := WordsIn(lo + 8, hi);
        forall i, j | 0 <= i < j < |WordsIn(lo, hi)| ensures WordsIn(lo, hi)[i] < WordsIn(lo, hi)[j] {
          assert q[j - 1] in q;
          if i > 0 { assert q[i - 1] < q[j - 1]; }
        }
        forall w | lo <= w < hi && w % 8 == 0 ensures w in WordsIn(lo, hi) { if w > lo { assert w >= lo + 8; } }
      }
    }

    lemma VisitsGap(visited: seq<nat>, lo: nat, low: nat, stop: nat, dead: seq<nat>)
      requires Visits(visited, lo, low, dead) && lo <= low <= stop && low % 8 == 0 && stop % 8 == 0
      requires forall w :: low <= w < stop ==> Free(dead, w)
      ensures Visits(visited + WordsIn(low, stop), lo, stop, dead)
    {
      WordsInLists(low, stop);
      var q, v := WordsIn(low, stop), visited + WordsIn(low, stop);
      forall i, j | 0 <= i < j < |v| ensures v[i] < v[j] {
        if i < |visited| <= j { assert visited[i] in visited && q[j - |visited|] in q; }
        else if i >= |visited| { assert q[i - |visited|] < q[j - |visited|]; }
      }
    }

    lemma VisitsSkip(visited: seq<nat>, lo: nat, low: nat, next: nat, dead: seq<nat>)
      requires Visits(visited, lo, low, dead) && low <= next && forall w :: low <= w < next ==> !Free(dead, w)
      ensures Visits(visited, lo, next, dead)
    {
    }

    lemma BlocksIncrease(q: seq<nat>)
      requires Blocks(q)
      ensures Addresses(q) && Racing(q, Still(q))
    {
      forall i, j | 0 <= i < j < |q| ensures q[i] < q[j] { assert End(q[i]) <= q[j]; }
      forall i | 0 <= i < |q| ensures q[i] % 4 == 0 { EightFour(q[i]); }
    }

    lemma EightFour(x: nat)
      requires x % 8 == 0
      ensures x % 4 == 0
    {
      assert x == 4 * (2 * (x / 8));
    }

    /** The start of find_roots for the tracked blocks: low is moved out of the block it may fall into, and
        the next block is found, whatever marks are being set meanwhile.  When the search falls off the
        front of the array, which takes a sibling that marks the first address during it, the word before
        the entries is read; it is the last of the buffer's own page (buffer.c:121-131), which is zero. */
    method StartPool(low0: nat) returns (low: nat, poolIdx: nat)
      requires Tracking() && Blocks(base) && low0 % 8 == 0 && words(0) == 0
      modifies addrs
      ensures Tracking() && old(Marked()) <= Marked() && Own() == old(Own())
      ensures low0 <= low && low % 8 == 0 && Ahead(base, poolIdx, low)
      ensures forall w :: low0 <= w < low ==> Inside(base, w)
    {
      EightFour(low0);
      ghost var loc;
      low, poolIdx, loc := FindStart(low0);
      StartPoolAhead(loc, low0);
    }

    /** The block that begins last at or before low0, or comes first, is at loc; 0 stands for the word before
        the entries. */
    ghost function BlockAt(loc: int): nat
      requires -1 <= loc < |base|
    {
      if loc >= 0 then base[loc] else 0
    }

    method FindStart(low0: nat) returns (low: nat, poolIdx: nat, ghost loc: int)
      requires Tracking() && low0 % 4 == 0
      modifies addrs
      ensures Tracking() && old(Marked()) <= Marked() && Own() == old(Own())
      ensures -1 <= loc < n && (IsFloor(base, low0, 0, n, loc) || (loc + 1 < n && base[loc + 1] == low0))
      ensures var b := BlockAt(loc);
        && low == (if b <= low0 < End(b) then End(b) else low0) && poolIdx == (if b <= low0 then loc + 1 else loc)
    {
      var at := Lookup(low0);
      loc := at;
      var poolAddr := EntryBefore(at);
      low, poolIdx := PastEntry(poolAddr, low0, at);
    }

    /** PTR_MASK of the entry at loc, or of the word before the entries. */
    method EntryBefore(loc: int) returns (a: nat)
      requires Tracking() && -1 <= loc < n
      ensures a == if loc >= 0 then base[loc] else 0
    {
      a := 0;
      if loc >= 0 {
        MarkIn(base, addrs[..], loc);
        a := PtrMask(addrs[loc]);
      }
    }

    /** Moving low out of block b, which was found at loc, and on to the next block, if b begins at or
        before low. */
    method PastEntry(b: nat, low: nat, loc: int) returns (low': nat, idx: nat)
      requires loc >= -1 && (loc == -1 ==> b <= low)
      ensures low' == (if b <= low < End(b) then End(b) else low) && idx == (if b <= low then loc + 1 else loc)
    {
      low' := low;
      var next := loc;
      if b <= low {
        if End(b) > low { low' := End(b); }
        next := next + 1;
      }
      idx := next;
    }

    lemma StartPoolAhead(loc: int, low: nat)
      requires Blocks(base) && |base| > 0 && low % 8 == 0 && words(0) == 0 && -1 <= loc < |base|
      requires IsFloor(base, low, 0, |base|, loc) || (loc + 1 < |base| && base[loc + 1] == low)
      ensures var b := BlockAt(loc);
        var low' := if b <= low < End(b) then End(b) else low;
        && low <= low' && low' % 8 == 0 && Ahead(base, if b <= low then loc + 1 else loc, low')
        && forall w :: low <= w < low' ==> Inside(base, w)
    {
      if loc >= 0 { var idx, low' := StartAhead(base, loc, low); }
    }

    /** The same for the dead blocks, which are neither marked nor indexed. */
    method StartDead(low0: nat, dead: seq<nat>, ghost poolIdx: nat) returns (low: nat, deadIdx: nat)
      requires Blocks(base) && Blocks(dead) && Apart(base, dead) && Apart(dead, base) && low0 % 8 == 0
      requires Ahead(base, poolIdx, low0)
      ensures low0 <= low && low % 8 == 0 && Ahead(base, poolIdx, low) && Ahead(dead, deadIdx, low)
      ensures forall w :: low0 <= w < low ==> Inside(dead, w)
    {
      low, deadIdx := low0, 0;
      if |dead| > 0 {
        BlocksIncrease(dead);
        var d, _ := BinarySearch(low, Still(dead), 0, 0, |dead|, dead);
        ghost var idx2, low2 := StartAhead(dead, d, low);
        var deadAddr := dead[d];
        deadIdx := d;
        if deadAddr <= low {
          if End(deadAddr) > low {
            PastOther(dead, d, base, poolIdx, low);
            low := End(deadAddr);
          }
          deadIdx := deadIdx + 1;
        }
        assert deadIdx == idx2 && low == low2;
      }
    }

    /** The address of a tracked block, marked or not, or a value beyond every address. */
    method PoolAddr(idx: nat) returns (a: nat)
      requires Tracking()
      ensures a == AddrAt(base, idx)
    {
      if idx < n {
        MarkIn(base, addrs[..], idx);
        a := PtrMask(addrs[idx]);
      } else {
        a := NOWHERE;
      }
    }

    lemma GapIsFree(dead: seq<nat>, poolIdx: nat, deadIdx: nat, low: nat, stop: nat)
      requires Blocks(base) && Blocks(dead) && Ahead(base, poolIdx, low) && Ahead(dead, deadIdx, low)
      requires stop <= AddrAt(base, poolIdx) && stop <= AddrAt(dead, deadIdx)
      ensures forall w :: low <= w < stop ==> Free(dead, w)
    {
      forall w | low <= w < stop ensures Free(dead, w) {
        AheadIsFree(base, poolIdx, low, w);
        AheadIsFree(dead, deadIdx, low, w);
      }
    }

    /** Both lists are still ahead after the next block, the one of p, has been passed. */
    lemma PastNext(p: seq<nat>, q: seq<nat>, idx: nat, jdx: nat, low: nat)
      requires Blocks(p) && Blocks(q) && Apart(p, q) && Ahead(p, idx, low) && Ahead(q, jdx, low) && idx < |p|
      requires p[idx] <= AddrAt(q, jdx)
      ensures var b := p[idx];
        && Ahead(p, idx + 1, End(b)) && Ahead(q, jdx, End(b)) && End(b) % 8 == 0 && End(b) > b
        && forall w :: b <= w < End(b) ==> Inside(p, w)
    {
      PastBlock(p, idx, low);
      PastOther(p, idx, q, jdx, low);
    }

    /** The state of the outer loop of find_roots. */
    ghost predicate Scanned(visited: seq<nat>, low0: nat, low: nat, high: nat, dead: seq<nat>, poolIdx: nat,
        deadIdx: nat) {
      && low0 <= low && low % 8 == 0 && Ahead(base, poolIdx, low) && Ahead(dead, deadIdx, low)
      && Visits(visited, low0, low, dead) && forall w :: high <= w < low ==> !Free(dead, w)
    }

    lemma TracedTurn(o0: set<nat>, b0: seq<nat>, ws: seq<nat>, o1: set<nat>, m1: set<nat>, b1: seq<nat>,
        ws': seq<nat>, o2: set<nat>, m2: set<nat>, b2: seq<nat>)
      requires Traced(o0, SetOf(b0) + ValsOf(ws), o1, m1, b1) && Traced(o1, SetOf(b1) + ValsOf(ws'), o2, m2, b2)
      requires ws <= ws' && m1 <= m2
      ensures Traced(o0, SetOf(b0) + ValsOf(ws'), o2, m2, b2)
    {
      var v := SetOf(b0) + ValsOf(ws');
      MoreVals(ws, ws');
      TracedInTurn(o0, SetOf(b0) + ValsOf(ws), o1, m1, b1, SetOf(b1) + ValsOf(ws'), o2, m2, b2, v);
    }

    lemma MoreVals(ws: seq<nat>, ws': seq<nat>)
      requires forall w :: w in ws ==> w in ws'
      ensures ValsOf(ws) <= ValsOf(ws')
    {
    }

    ghost predicate Layout(dead: seq<nat>)
    {
      words(0) == 0 && Blocks(base) && Blocks(dead) && Apart(base, dead) && Apart(dead, base)
    }

    /** One turn of the outer loop: scan up to the next block, then step over it. */
    method Advance(low0: nat, low: nat, high: nat, dead: seq<nat>, poolIdx: nat, deadIdx: nat, ghost visited: seq<nat>)
      returns (low': nat, poolIdx': nat, deadIdx': nat, ghost visited': seq<nat>)
      requires Valid() && count < LOOKASIDE_SZ && Layout(dead) && high % 8 == 0 && low < high < NOWHERE
      requires Scanned(visited, low0, low, high, dead, poolIdx, deadIdx)
      modifies addrs, lookaside, this`count, this`mine
      ensures Valid() && count < LOOKASIDE_SZ && old(Marked()) <= Marked() && old(Handled()) <= Handled()
      ensures low < low' && Scanned(visited', low0, low', high, dead, poolIdx', deadIdx')
      ensures forall w :: w in visited' && w !in visited && PtrMask(word(w)) in base ==> PtrMask(word(w)) in Handled()
      ensures visited <= visited'
      ensures Traced(old(Own()), SetOf(old(Batch())) + ValsOf(visited'), Own(), Marked(), Batch())
    {
      var poolAddr := PoolAddr(poolIdx);
      var guarded := Min(poolAddr, AddrAt(dead, deadIdx));
      var stop := Min(guarded, high);
      StepScanned(visited, low0, low, high, dead, poolIdx, deadIdx);
      visited' := ScanFurther(low, stop, visited);
      low', poolIdx', deadIdx' := stop, poolIdx, deadIdx;
      if stop == guarded {
        low' := stop + 8 * words(guarded);
        assert low' == End(guarded);
        if guarded == poolAddr { poolIdx' := poolIdx + 1; } else { deadIdx' := deadIdx + 1; }
      }
      assert low < low' && Scanned(visited', low0, low', high, dead, poolIdx', deadIdx');
    }

    /** The gap up to stop, added to what has been visited. */
    method ScanFurther(low: nat, stop: nat, ghost visited: seq<nat>) returns (ghost visited': seq<nat>)
      requires Valid() && count < LOOKASIDE_SZ
      modifies addrs, lookaside, this`count, this`mine
      ensures Valid() && count < LOOKASIDE_SZ && old(Marked()) <= Marked() && old(Handled()) <= Handled()
      ensures visited' == visited + WordsIn(low, stop)
      ensures forall w :: w in visited' && w !in visited && PtrMask(word(w)) in base ==> PtrMask(word(w)) in Handled()
      ensures Traced(old(Own()), SetOf(old(Batch())) + ValsOf(visited'), Own(), Marked(), Batch())
    {
      ghost var o0, v := Own(), SetOf(Batch());
      ScanGap(low, stop);
      visited' := visited + WordsIn(low, stop);
      MoreVals(WordsIn(low, stop), visited');
      TracedFromMore(o0, v + ValsOf(WordsIn(low, stop)), Own(), Marked(), Batch(), v + ValsOf(visited'));
    }

    /** What one turn does to the indices and to the words visited. */
    lemma StepScanned(visited: seq<nat>, low0: nat, low: nat, high: nat, dead: seq<nat>, poolIdx: nat, deadIdx: nat)
      requires Layout(dead) && high % 8 == 0 && low < high < NOWHERE
      requires Scanned(visited, low0, low, high, dead, poolIdx, deadIdx)
      ensures var p, d := AddrAt(base, poolIdx), AddrAt(dead, deadIdx);
        var guarded := Min(p, d);
        var stop := Min(guarded, high);
        var v := visited + WordsIn(low, stop);
        && (stop != guarded ==> low < stop && Scanned(v, low0, stop, high, dead, poolIdx, deadIdx))
        && (stop == guarded == p ==> low < End(p) && Scanned(v, low0, End(p), high, dead, poolIdx + 1, deadIdx))
        && (stop == guarded != p ==> low < End(d) && Scanned(v, low0, End(d), high, dead, poolIdx, deadIdx + 1))
    {
      var p, d := AddrAt(base, poolIdx), AddrAt(dead, deadIdx);
      var guarded := Min(p, d);
      var stop := Min(guarded, high);
      var v := visited + WordsIn(low, stop);
      GapIsFree(dead, poolIdx, deadIdx, low, stop);
      VisitsGap(visited, low0, low, stop, dead);
      if stop == guarded {
        if guarded == p {
          PastNext(base, dead, poolIdx, deadIdx, low);
        } else {
          PastNext(dead, base, deadIdx, poolIdx, low);
        }
        VisitsSkip(v, low0, stop, End(guarded), dead);
      }
    }

    /** find_roots.  Exactly the words of [low, high) outside every tracked and dead block are visited,
        each once and in order, also when low falls inside a block and while marks are being set; the
        tracked address that a visited word holds is marked or waits in the batch, which never
        overflows; and this scanner marks nothing that does not come from the batch or from them. */
    method FindRoots(low0: nat, high: nat, dead: seq<nat>) returns (ghost visited: seq<nat>)
      requires Valid() && count < LOOKASIDE_SZ && Layout(dead)
      requires low0 % 8 == 0 && high % 8 == 0 && low0 <= high < NOWHERE
      modifies addrs, lookaside, this`count, this`mine
      ensures Valid() && count < LOOKASIDE_SZ && old(Marked()) <= Marked() && old(Handled()) <= Handled()
      ensures Visits(visited, low0, high, dead)
      ensures forall w :: w in visited && PtrMask(word(w)) in base ==> PtrMask(word(w)) in Handled()
      ensures Traced(old(Own()), SetOf(old(Batch())) + ValsOf(visited), Own(), Marked(), Batch())
    {
      ghost var o0, b0 := Own(), Batch();
      visited := [];
      var low, poolIdx := StartPool(low0);
      var deadIdx;
      low, deadIdx := StartDead(low, dead, poolIdx);
      VisitsSkip(visited, low0, low0, low, dead);
      while low < high
        invariant Valid() && count < LOOKASIDE_SZ && old(Marked()) <= Marked() && old(Handled()) <= Handled()
        invariant Scanned(visited, low0, low, high, dead, poolIdx, deadIdx)
        invariant forall w :: w in visited && PtrMask(word(w)) in base ==> PtrMask(word(w)) in Handled()
        invariant Traced(o0, SetOf(b0) + ValsOf(visited), Own(), Marked(), Batch())
        decreases high - low
      {
        ghost var o, m, b, was := Own(), Marked(), Batch(), visited;
        low, poolIdx, deadIdx, visited := Advance(low0, low, high, dead, poolIdx, deadIdx, visited);
        TracedTurn(o0, b0, was, o, m, b, visited, Own(), Marked(), Batch());
      }
    }

    // ---------------------------------------------------------------- the whole child

    /** A scanner of the addresses `order`, none of them marked yet, that also form the array a. */
    constructor (ghost order: seq<nat>, a: array<nat>, pages: seq<nat>, word: nat -> nat, words: nat -> nat,
        racing: bool, onTarget: bool, batch: array<nat>)
      requires a[..] == order && order != [] && Addresses(order) && order[0] > 0 && pages == MinimapOf(order)
      requires batch.Length == LOOKASIDE_SZ && a != batch
      ensures Valid() && base == order && addrs == a && lookaside == batch && count == 0 && Batch() == []
      ensures Marked() == {} && mine == {}
      ensures this.word == word && this.words == words && this.racing == racing && this.onTarget == onTarget
    {
      base, n, addrs, minimap := order, a.Length, a, pages;
      this.word, this.words, this.racing, this.onTarget := word, words, racing, onTarget;
      lookaside, count, mine := batch, 0, {};
    }

    ghost predicate RangesOk(ranges: seq<Range>) {
      forall r :: 0 <= r < |ranges| ==>
        ranges[r].low % 8 == 0 && ranges[r].high % 8 == 0 && ranges[r].low <= ranges[r].high < NOWHERE
    }

    /** w is a word of one of the first k ranges, outside every tracked and dead block. */
    ghost predicate RootWord(ranges: seq<Range>, k: nat, dead: seq<nat>, w: nat)
      requires k <= |ranges|
    {
      w % 8 == 0 && Free(dead, w) && exists r :: 0 <= r < k && ranges[r].low <= w < ranges[r].high
    }

    lemma MoreRootWords(ranges: seq<Range>, k: nat, dead: seq<nat>, seen: seq<nat>, visited: seq<nat>)
      requires k < |ranges| && Visits(visited, ranges[k].low, ranges[k].high, dead)
      requires forall w: nat :: w in seen <==> RootWord(ranges, k, dead, w)
      ensures forall w: nat :: w in seen + visited <==> RootWord(ranges, k + 1, dead, w)
    {
      forall w: nat ensures RootWord(ranges, k + 1, dead, w) <==> RootWord(ranges, k, dead, w) || w in visited {
        if RootWord(ranges, k + 1, dead, w) {
          var r :| 0 <= r < k + 1 && ranges[r].low <= w < ranges[r].high;
          assert r < k ==> RootWord(ranges, k, dead, w);
        }
      }
    }

    lemma TracedRange(o0: set<nat>, seen: seq<nat>, o1: set<nat>, m1: set<nat>, b1: seq<nat>, visited: seq<nat>,
        o2: set<nat>, m2: set<nat>, b2: seq<nat>)
      requires Traced(o0, ValsOf(seen), o1, m1, b1) && Traced(o1, SetOf(b1) + ValsOf(visited), o2, m2, b2) && m1 <= m2
      ensures Traced(o0, ValsOf(seen + visited), o2, m2, b2)
    {
      MoreVals(seen, seen + visited);
      MoreVals(visited, seen + visited);
      var v := ValsOf(seen + visited);
      TracedInTurn(o0, ValsOf(seen), o1, m1, b1, SetOf(b1) + ValsOf(visited), o2, m2, b2, v);
    }

    /** The tracked addresses that the words hold. */
    ghost function Held(ws: seq<nat>): set<nat> { Tracked(ValsOf(ws)) }

    lemma HeldMarked(ws: seq<nat>, m: set<nat>)
      requires forall w :: w in ws && PtrMask(word(w)) in base ==> PtrMask(word(w)) in m
      ensures Held(ws) <= m
    {
    }

    /** The scan of forkscan_child for one child that claims all ranges.  The words seen are exactly those of
        the ranges outside every tracked and dead block; every tracked address that one of them holds ends up
        marked, and the batch is empty.  What this scanner marks is reached from those addresses; with the
        recursion on the block just marked the referents of all of it are marked, so that alone it marks the
        least closed set. */
    method ScanRanges(ranges: seq<Range>, dead: seq<nat>) returns (ghost seen: seq<nat>)
      requires Valid() && count == 0 && Layout(dead) && RangesOk(ranges)
      modifies addrs, lookaside, this`count, this`mine
      ensures Valid() && count == 0 && old(Marked()) <= Marked()
      ensures forall w: nat :: w in seen <==> RootWord(ranges, |ranges|, dead, w)
      ensures Held(seen) <= Marked() && Traced(old(Own()), ValsOf(seen), Own(), Marked(), [])
      ensures onTarget && !racing ==> LeastOver(old(Marked()), Marked(), Held(seen))
    {
      seen := [];
      ghost var o0 := Own();
      for rid := 0 to |ranges|
        invariant Valid() && count < LOOKASIDE_SZ && old(Marked()) <= Marked()
        invariant forall w: nat :: w in seen <==> RootWord(ranges, rid, dead, w)
        invariant forall w :: w in seen && PtrMask(word(w)) in base ==> PtrMask(word(w)) in Handled()
        invariant Traced(o0, ValsOf(seen), Own(), Marked(), Batch())
      {
        ghost var o, m, b := Own(), Marked(), Batch();
        ghost var visited := FindRoots(ranges[rid].low, ranges[rid].high, dead);
        MoreRootWords(ranges, rid, dead, seen, visited);
        TracedRange(o0, seen, o, m, b, visited, Own(), Marked(), Batch());
        seen := seen + visited;
      }
      if count > 0 {
        ghost var o, m, b := Own(), Marked(), Batch();
        LookupLookaside();
        TracedInTurn(o0, ValsOf(seen), o, m, b, SetOf(b), Own(), Marked(), [], ValsOf(seen));
      }
      HeldMarked(seen, Marked());
    }
  }

  lemma DistinctSorted(s: seq<nat>)
    requires forall i, j :: 0 <= i < j < |s| ==> s[i] != s[j]
    ensures Sorting.AvlSorted(s) == T.Ascending(s) && |T.Ascending(s)| == |s|
    ensures Increasing(T.Ascending(s)) && forall x :: x in T.Ascending(s) <==> x in s
  {
    T.AscendingLists(s);
    Sorting.DistinctFits(s, T.Ascending(s));
    if |s| == 1 { assert s[0] in T.Ascending(s); }
    assert T.Ascending(s) + s[|s|..] == T.Ascending(s);
  }

  /** What the child does before the scan: the working array, which has no duplicates, is sorted, and the
      minimap is generated. */
  method Prepare(working: array<nat>, minimap: array<nat>, word: nat -> nat, words: nat -> nat, racing: bool,
      onTarget: bool, batch: array<nat>)
    returns (s: Scan)
    requires working.Length > 0 && MinimapLength(working.Length) <= minimap.Length && working != minimap
    requires batch.Length == LOOKASIDE_SZ && batch != working && batch != minimap
    requires forall i, j :: 0 <= i < j < working.Length ==> working[i] != working[j]
    requires forall i :: 0 <= i < working.Length ==> working[i] % 4 == 0 && working[i] > 0
    modifies working, minimap
    ensures fresh(s) && s.Valid() && s.count == 0 && s.Marked() == {} && s.mine == {}
    ensures s.addrs == working && s.lookaside == batch && s.word == word && s.words == words
    ensures s.racing == racing && s.onTarget == onTarget
    ensures |s.base| == working.Length && forall x :: x in s.base <==> x in old(working[..])
  {
    ghost var was := working[..];
    DistinctSorted(was);
    Sorting.AvlSort(working, working.Length);
    assert was[..working.Length] == was && was[working.Length..] == [];
    assert working[..] == Sorting.AvlSorted(was) + [] == Sorting.AvlSorted(was);
    var pages := GenerateMinimap(working, working.Length, minimap);
    assert working[..working.Length] == working[..];
    ghost var order := working[..];
    forall i | 0 <= i < |order| ensures order[i] % 4 == 0 && order[i] > 0 { assert order[i] in was; }
    s := new Scan(order, working, minimap[..pages], word, words, racing, onTarget, batch);
  }
}
