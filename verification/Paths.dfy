/** What a machine can come to: states joined by steps of a relation. */
module Paths {
  ghost predicate LeadsIn<S(!new)>(next: (S, S) -> bool, s: S, t: S, n: nat) {
    if n == 0 then s == t else exists m :: next(s, m) && LeadsIn(next, m, t, n - 1)
  }

  /** Some steps, or none, lead from s to t. */
  ghost predicate Leads<S(!new)>(next: (S, S) -> bool, s: S, t: S) { exists n: nat :: LeadsIn(next, s, t, n) }

  lemma Stay<S(!new)>(next: (S, S) -> bool, s: S)
    ensures Leads(next, s, s)
  {
    assert LeadsIn(next, s, s, 0);
  }

  lemma First<S(!new)>(next: (S, S) -> bool, s: S, m: S, t: S)
    requires next(s, m) && Leads(next, m, t)
    ensures Leads(next, s, t)
  {
    var n: nat :| LeadsIn(next, m, t, n);
    assert LeadsIn(next, s, t, n + 1);
  }

  lemma {:induction false} JoinIn<S(!new)>(next: (S, S) -> bool, s: S, m: S, t: S, n: nat)
    requires LeadsIn(next, s, m, n) && Leads(next, m, t)
    ensures Leads(next, s, t)
  {
    if n > 0 {
      var x :| next(s, x) && LeadsIn(next, x, m, n - 1);
      JoinIn(next, x, m, t, n - 1);
      First(next, s, x, t);
    }
  }

  lemma Join<S(!new)>(next: (S, S) -> bool, s: S, m: S, t: S)
    requires Leads(next, s, m) && Leads(next, m, t)
    ensures Leads(next, s, t)
  {
    var n: nat :| LeadsIn(next, s, m, n);
    JoinIn(next, s, m, t, n);
  }

  lemma One<S(!new)>(next: (S, S) -> bool, s: S, t: S)
    requires next(s, t)
    ensures Leads(next, s, t)
  {
    Stay(next, t);
    First(next, s, t, t);
  }

  lemma Then<S(!new)>(next: (S, S) -> bool, s: S, m: S, t: S)
    requires Leads(next, s, m) && next(m, t)
    ensures Leads(next, s, t)
  {
    One(next, m, t);
    Join(next, s, m, t);
  }

  /** What every step keeps is kept. */
  lemma {:induction false} KeepsIn<S(!new)>(next: (S, S) -> bool, inv: S -> bool, s: S, t: S, n: nat)
    requires LeadsIn(next, s, t, n) && inv(s) && forall x, y :: inv(x) && next(x, y) ==> inv(y)
    ensures inv(t)
  {
    if n > 0 {
      var m :| next(s, m) && LeadsIn(next, m, t, n - 1);
      KeepsIn(next, inv, m, t, n - 1);
    }
  }

  lemma Keeps<S(!new)>(next: (S, S) -> bool, inv: S -> bool, s: S, t: S)
    requires Leads(next, s, t) && inv(s) && forall x, y :: inv(x) && next(x, y) ==> inv(y)
    ensures inv(t)
  {
    var n: nat :| LeadsIn(next, s, t, n);
    KeepsIn(next, inv, s, t, n);
  }

  lemma {:induction false} WiderIn<S(!new)>(next: (S, S) -> bool, more: (S, S) -> bool, s: S, t: S, n: nat)
    requires LeadsIn(next, s, t, n) && forall x, y :: next(x, y) ==> more(x, y)
    ensures Leads(more, s, t)
  {
    if n == 0 {
      Stay(more, s);
    } else {
      var m :| next(s, m) && LeadsIn(next, m, t, n - 1);
      WiderIn(next, more, m, t, n - 1);
      First(more, s, m, t);
    }
  }

  lemma Wider<S(!new)>(next: (S, S) -> bool, more: (S, S) -> bool, s: S, t: S)
    requires Leads(next, s, t) && forall x, y :: next(x, y) ==> more(x, y)
    ensures Leads(more, s, t)
  {
    var n: nat :| LeadsIn(next, s, t, n);
    WiderIn(next, more, s, t, n);
  }

  /** The machine with steps `more`, seen through `part`, can do each step of `next` while it keeps inv. */
  ghost predicate Simulates<S(!new), T(!new)>(next: (S, S) -> bool, more: (T, T) -> bool, part: T -> S,
      inv: T -> bool) {
    forall x: T, y: S :: inv(x) && next(part(x), y) ==> exists z :: more(x, z) && part(z) == y && inv(z)
  }

  lemma FollowsOne<S(!new), T(!new)>(next: (S, S) -> bool, more: (T, T) -> bool, part: T -> S, inv: T -> bool, s: T,
      m: S) returns (t: T)
    requires Simulates(next, more, part, inv) && inv(s) && next(part(s), m)
    ensures more(s, t) && part(t) == m && inv(t)
  {
    t :| more(s, t) && part(t) == m && inv(t);
  }

  lemma FirstOf<S(!new)>(next: (S, S) -> bool, s: S, t: S, n: nat) returns (m: S)
    requires LeadsIn(next, s, t, n) && n > 0
    ensures next(s, m) && LeadsIn(next, m, t, n - 1)
  {
    m :| next(s, m) && LeadsIn(next, m, t, n - 1);
  }

  lemma {:induction false} FollowsIn<S(!new), T(!new)>(next: (S, S) -> bool, more: (T, T) -> bool, part: T -> S,
      inv: T -> bool, s: T, end: S, n: nat) returns (t: T)
    requires Simulates(next, more, part, inv) && inv(s) && LeadsIn(next, part(s), end, n)
    ensures Leads(more, s, t) && part(t) == end && inv(t)
    decreases n
  {
    if n == 0 {
      Stay(more, s);
      t := s;
    } else {
      var m := FirstOf(next, part(s), end, n);
      var x := FollowsOne(next, more, part, inv, s, m);
      t := FollowsIn(next, more, part, inv, x, end, n - 1);
      First(more, s, x, t);
    }
  }

  /** Then it can go wherever those steps lead. */
  lemma Follows<S(!new), T(!new)>(next: (S, S) -> bool, more: (T, T) -> bool, part: T -> S, inv: T -> bool, s: T,
      end: S) returns (t: T)
    requires Simulates(next, more, part, inv) && inv(s) && Leads(next, part(s), end)
    ensures Leads(more, s, t) && part(t) == end && inv(t)
  {
    var n: nat :| LeadsIn(next, part(s), end, n);
    t := FollowsIn(next, more, part, inv, s, end, n);
  }
}
