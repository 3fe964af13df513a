/** The in-memory cache of conversation sessions and its eviction (`session_manager.py`). */
module SessionCache {
  import opened Text

  const MAX_ACTIVE_SESSIONS := 1000
  const SESSION_INACTIVE_TIMEOUT := 3600.0

  /** A cached session: its id and `last_activity_at`. */
  datatype Cached = Cached(id: string, lastActivity: real)

  // ---------------------------------------------------------------- sorting by last activity

  /** Insert behind everything that is not later. */
  function InsertSorted(sorted: seq<Cached>, x: Cached): seq<Cached> {
    if sorted == [] || sorted[|sorted| - 1].lastActivity <= x.lastActivity then sorted + [x]
    else InsertSorted(sorted[..|sorted| - 1], x) + [sorted[|sorted| - 1]]
  }

  /** `sorted(..., key=last_activity_at)`: oldest first, and stable. */
  function Sorted(s: seq<Cached>): seq<Cached> {
    if s == [] then [] else InsertSorted(Sorted(s[..|s| - 1]), s[|s| - 1])
  }

  ghost predicate Ordered(s: seq<Cached>) {
    forall i, j :: 0 <= i < j < |s| ==> s[i].lastActivity <= s[j].lastActivity
  }

  /** The sessions last active at `t`, in their order. */
  function ActiveAt(s: seq<Cached>, t: real): seq<Cached> {
    if s == [] then []
    else
      var init, last := ActiveAt(s[..|s| - 1], t), s[|s| - 1];
      if last.lastActivity == t then init + [last] else init
  }

  lemma ActiveAtSnoc(s: seq<Cached>, x: Cached, t: real)
    ensures ActiveAt(s + [x], t) == if x.lastActivity == t then ActiveAt(s, t) + [x] else ActiveAt(s, t)
  {
    SnocInit(s, x);
  }

  lemma {:induction false} InsertSortedPermutes(sorted: seq<Cached>, x: Cached)
    ensures multiset(InsertSorted(sorted, x)) == multiset(sorted) + multiset{x}
  {
    if !(sorted == [] || sorted[|sorted| - 1].lastActivity <= x.lastActivity) {
      InsertSortedPermutes(sorted[..|sorted| - 1], x);
      assert sorted == sorted[..|sorted| - 1] + [sorted[|sorted| - 1]];
    }
  }

  lemma OrderedSnoc(s: seq<Cached>, x: Cached)
    requires Ordered(s) && forall y :: y in s ==> y.lastActivity <= x.lastActivity
    ensures Ordered(s + [x])
  {
  }

  lemma {:induction false} InsertSortedOrdered(sorted: seq<Cached>, x: Cached)
    requires Ordered(sorted)
    ensures Ordered(InsertSorted(sorted, x))
  {
    if sorted == [] || sorted[|sorted| - 1].lastActivity <= x.lastActivity {
      OrderedSnoc(sorted, x);
    } else {
      var init, last := sorted[..|sorted| - 1], sorted[|sorted| - 1];
      InsertSortedOrdered(init, x);
      InsertSortedPermutes(init, x);
      forall y | y in InsertSorted(init, x) ensures y.lastActivity <= last.lastActivity {
        assert y in multiset(InsertSorted(init, x));
      }
      OrderedSnoc(InsertSorted(init, x), last);
    }
  }

  lemma {:induction false} InsertSortedStable(sorted: seq<Cached>, x: Cached, t: real)
    requires Ordered(sorted)
    ensures ActiveAt(InsertSorted(sorted, x), t) == ActiveAt(sorted + [x], t)
  {
    ActiveAtSnoc(sorted, x, t);
    if !(sorted == [] || sorted[|sorted| - 1].lastActivity <= x.lastActivity) {
      var init, last := sorted[..|sorted| - 1], sorted[|sorted| - 1];
      InsertSortedStable(init, x, t);
      ActiveAtSnoc(init, x, t);
      ActiveAtSnoc(InsertSorted(init, x), last, t);
      if x.lastActivity == t {
        NoneActiveAt(init, last, t);
      }
    }
  }

  lemma {:induction false} NoneActiveAt(s: seq<Cached>, bound: Cached, t: real)
    requires t < bound.lastActivity
    ensures ActiveAt(s + [bound], t) == ActiveAt(s, t)
  {
    ActiveAtSnoc(s, bound, t);
  }

  lemma SnocMultiset<T>(s: seq<T>)
    requires s != []
    ensures multiset(s) == multiset(s[..|s| - 1]) + multiset{s[|s| - 1]}
  {
    assert s == s[..|s| - 1] + [s[|s| - 1]];
  }

  lemma {:induction false} SortedOrdered(s: seq<Cached>)
    ensures Ordered(Sorted(s)) && multiset(Sorted(s)) == multiset(s)
  {
    if s != [] {
      var init, last := s[..|s| - 1], s[|s| - 1];
      SortedOrdered(init);
      InsertSortedOrdered(Sorted(init), last);
      InsertSortedPermutes(Sorted(init), last);
      SnocMultiset(s);
    }
  }

  lemma {:induction false} SortedStable(s: seq<Cached>, t: real)
    ensures ActiveAt(Sorted(s), t) == ActiveAt(s, t)
  {
    if s != [] {
      var init, last := s[..|s| - 1], s[|s| - 1];
      SortedStable(init, t);
      SortedOrdered(init);
      InsertSortedStable(Sorted(init), last, t);
      ActiveAtSnoc(Sorted(init), last, t);
    }
  }

  /** Sorting puts the sessions in order of activity, loses none, and keeps the order of equals. */
  lemma SortedSound(s: seq<Cached>, t: real)
    ensures Ordered(Sorted(s)) && multiset(Sorted(s)) == multiset(s)
    ensures ActiveAt(Sorted(s), t) == ActiveAt(s, t)
  {
    SortedOrdered(s);
    SortedStable(s, t);
  }

  // ---------------------------------------------------------------- removing sessions

  ghost predicate Distinct(s: seq<Cached>) {
    forall i, j :: 0 <= i < j < |s| ==> s[i].id != s[j].id
  }

  function Without(s: seq<Cached>, id: string): seq<Cached> {
    if s == [] then []
    else
      var init, last := Without(s[..|s| - 1], id), s[|s| - 1];
      if last.id == id then init else init + [last]
  }

  lemma {:induction false} WithoutSound(s: seq<Cached>, id: string)
    ensures forall x :: x in Without(s, id) <==> x in s && x.id != id
    ensures Distinct(s) ==> Distinct(Without(s, id))
  {
    if s != [] {
      var init, last := s[..|s| - 1], s[|s| - 1];
      WithoutSound(init, id);
      assert s == init + [last];
      assert last.id != id ==> Without(s, id) == Without(init, id) + [last];
    }
  }

  predicate Has(s: seq<Cached>, id: string) {
    exists i :: 0 <= i < |s| && s[i].id == id
  }

  lemma {:induction false} WithoutLength(s: seq<Cached>, id: string)
    requires Distinct(s)
    ensures |Without(s, id)| == |s| - if Has(s, id) then 1 else 0
  {
    if s != [] {
      var init, last := s[..|s| - 1], s[|s| - 1];
      WithoutLength(init, id);
      LastIsNew(s);
      assert Has(init, id) ==> Has(s, id);
      assert last.id == id ==> Has(s, id);
    }
  }

  /** What is left when the sessions in `gone` are archived one after the other. */
  function Evicted(s: seq<Cached>, gone: seq<Cached>): seq<Cached> {
    if gone == [] then s else Without(Evicted(s, gone[..|gone| - 1]), gone[|gone| - 1].id)
  }

  lemma {:induction false} EvictedSound(s: seq<Cached>, gone: seq<Cached>)
    requires Distinct(s) && Distinct(gone) && forall x :: x in gone ==> x in s
    ensures Distinct(Evicted(s, gone)) && |Evicted(s, gone)| == |s| - |gone|
    ensures forall x :: x in Evicted(s, gone) <==> x in s && x !in gone
  {
    if gone != [] {
      var init, last := gone[..|gone| - 1], gone[|gone| - 1];
      assert gone == init + [last];
      EvictedSound(s, init);
      WithoutSound(Evicted(s, init), last.id);
      assert last in Evicted(s, init);
      WithoutLength(Evicted(s, init), last.id);
      forall x | x in s && x.id == last.id ensures x == last {
        SameId(s, x, last);
      }
    }
  }

  lemma SameId(s: seq<Cached>, x: Cached, y: Cached)
    requires Distinct(s) && x in s && y in s && x.id == y.id
    ensures x == y
  {
  }

  lemma DistinctPermutation(s: seq<Cached>, p: seq<Cached>)
    requires Distinct(s) && multiset(p) == multiset(s)
    ensures Distinct(p)
  {
    forall i, j | 0 <= i < j < |p| ensures p[i].id != p[j].id {
      if p[i].id == p[j].id {
        assert p[i] in multiset(p) && p[j] in multiset(p);
        SameId(s, p[i], p[j]);
        Twice(p, i, j);
        Once(s, p[i]);
      }
    }
  }

  lemma Twice<T>(p: seq<T>, i: nat, j: nat)
    requires i < j < |p| && p[i] == p[j]
    ensures multiset(p)[p[i]] >= 2
  {
    assert p == p[..j] + ([p[j]] + p[j + 1..]);
    assert p[i] == p[..j][i];
    assert p[i] in multiset(p[..j]);
  }

  lemma LastIsNew(s: seq<Cached>)
    requires Distinct(s) && s != []
    ensures forall y :: y in s[..|s| - 1] ==> y.id != s[|s| - 1].id
  {
  }

  lemma DistinctSnoc(s: seq<Cached>, x: Cached)
    requires Distinct(s) && forall y :: y in s ==> y.id != x.id
    ensures Distinct(s + [x])
  {
  }

  lemma {:induction false} Once(s: seq<Cached>, x: Cached)
    requires Distinct(s)
    ensures multiset(s)[x] <= 1
  {
    if s != [] {
      var init, last := s[..|s| - 1], s[|s| - 1];
      assert s == init + [last];
      Once(init, x);
      LastIsNew(s);
      assert last !in multiset(init);
    }
  }

  function Ids(s: seq<Cached>): set<string> {
    if s == [] then {} else Ids(s[..|s| - 1]) + {s[|s| - 1].id}
  }

  lemma {:induction false} IdsExact(s: seq<Cached>)
    ensures forall x :: x in s ==> x.id in Ids(s)
    ensures forall id :: id in Ids(s) ==> Has(s, id)
  {
    if s != [] {
      var init, last := s[..|s| - 1], s[|s| - 1];
      IdsExact(init);
      assert s == init + [last];
      forall id | id in Ids(s) ensures Has(s, id) {
        if id != last.id {
          var i :| 0 <= i < |init| && init[i].id == id;
          assert s[i].id == id;
        }
      }
    }
  }

  lemma NoneEvicted(s: seq<Cached>, gone: seq<Cached>, ids: set<string>)
    ensures Evicted(s, gone[..0]) == s && ids + Ids(gone[..0]) == ids
  {
  }

  lemma EvictedNext(s: seq<Cached>, gone: seq<Cached>, n: nat, before: seq<Cached>, after: seq<Cached>)
    requires n < |gone| && before == Evicted(s, gone[..n]) && after == Without(before, gone[n].id)
    ensures after == Evicted(s, gone[..n + 1])
  {
    TakeSnoc(gone, n);
    SnocInit(gone[..n], gone[n]);
  }

  lemma IdsNext(ids: set<string>, gone: seq<Cached>, n: nat, before: set<string>, after: set<string>)
    requires n < |gone| && before == ids + Ids(gone[..n]) && after == before + {gone[n].id}
    ensures after == ids + Ids(gone[..n + 1])
  {
    TakeSnoc(gone, n);
    SnocInit(gone[..n], gone[n]);
  }

  // ---------------------------------------------------------------- the limit

  /** The `k` least recently active sessions. */
  function Oldest(s: seq<Cached>, k: nat): seq<Cached>
    requires k <= |Sorted(s)|
  {
    Sorted(s)[..k]
  }

  function Excess(n: nat): nat {
    if n <= MAX_ACTIVE_SESSIONS then 0 else n - MAX_ACTIVE_SESSIONS
  }

  lemma SortedLength(s: seq<Cached>)
    ensures |Sorted(s)| == |s|
  {
    SortedSound(s, 0.0);
    assert |multiset(Sorted(s))| == |multiset(s)|;
  }

  /** Wherever the eviction stops, what is gone was active no later than anything that is left, and of
      sessions equally old the ones cached first are gone. */
  lemma EvictsOldest(s: seq<Cached>, k: nat)
    requires Distinct(s) && k <= |Sorted(s)|
    ensures var gone, left := Oldest(s, k), Evicted(s, Oldest(s, k));
            && Distinct(left) && |left| == |s| - k && |gone| == k
            && (forall x :: x in s <==> x in gone || x in left)
            && (forall x, y :: x in gone && y in left ==> x != y && x.lastActivity <= y.lastActivity)
            && (forall t :: ActiveAt(gone, t) + ActiveAt(Sorted(s)[k..], t) == ActiveAt(s, t))
  {
    SortedSound(s, 0.0);
    var sorted, gone := Sorted(s), Oldest(s, k);
    DistinctPermutation(s, sorted);
    forall x ensures x in sorted <==> x in s {
      assert x in multiset(sorted) <==> x in multiset(s);
    }
    EvictedSound(s, gone);
    forall x, y | x in gone && y in Evicted(s, gone) ensures x != y && x.lastActivity <= y.lastActivity {
      OrderedSplit(sorted, k, x, y);
    }
    forall t ensures ActiveAt(gone, t) + ActiveAt(sorted[k..], t) == ActiveAt(s, t) {
      SortedSound(s, t);
      SplitAt(sorted, k);
      ActiveAtAppend(gone, sorted[k..], t);
    }
  }

  lemma OrderedSplit(sorted: seq<Cached>, k: nat, x: Cached, y: Cached)
    requires Ordered(sorted) && k <= |sorted| && x in sorted[..k] && y in sorted && y !in sorted[..k]
    ensures x.lastActivity <= y.lastActivity
  {
    var i :| 0 <= i < k && sorted[i] == x;
    var j :| 0 <= j < |sorted| && sorted[j] == y;
    assert j < k ==> sorted[..k][j] == y;
  }

  lemma {:induction false} ActiveAtAppend(xs: seq<Cached>, ys: seq<Cached>, t: real)
    ensures ActiveAt(xs + ys, t) == ActiveAt(xs, t) + ActiveAt(ys, t)
  {
    if ys == [] {
      AppendEmpty(xs);
      AppendEmpty(ActiveAt(xs, t));
    } else {
      var init, last := ys[..|ys| - 1], ys[|ys| - 1];
      ActiveAtAppend(xs, init, t);
      ActiveAtSnoc(xs + init, last, t);
      ConcatAssoc(xs, init, [last]);
      TakeSnoc(ys, |ys| - 1);
      TakeAll(ys);
      ConcatAssoc(ActiveAt(xs, t), ActiveAt(init, t), [last]);
    }
  }

  /** A session that was just created is itself evicted exactly when all others were active after it: its
      row in the database can be old. */
  lemma CreatedSurvivesIff(s: seq<Cached>, x: Cached)
    requires Distinct(s + [x]) && |s| == MAX_ACTIVE_SESSIONS
    ensures |Sorted(s + [x])| == MAX_ACTIVE_SESSIONS + 1
    ensures x in Evicted(s + [x], Oldest(s + [x], 1)) <==> exists y :: y in s && y.lastActivity <= x.lastActivity
  {
    var all := s + [x];
    SnocInit(s, x);
    SortedLength(all);
    EvictsOldest(all, 1);
    var gone := Oldest(all, 1);
    assert gone == [Sorted(all)[0]];
    assert gone[0] in gone;
    FirstSorted(s, x);
    assert x in all && x in [x];
  }

  lemma SameMembers(s: seq<Cached>, y: Cached)
    ensures y in s <==> y in Sorted(s)
  {
    SortedOrdered(s);
    assert y in multiset(s) <==> y in multiset(Sorted(s));
  }

  /** The first of a sorted list is the one looked for exactly if that comes strictly before all others. */
  lemma FirstOf(sorted: seq<Cached>, s: seq<Cached>, x: Cached)
    requires Ordered(sorted) && sorted != [] && x !in s && forall y :: y in s <==> y in sorted
    ensures (if sorted[0].lastActivity <= x.lastActivity then sorted[0] else x) == x
       <==> forall y :: y in s ==> x.lastActivity < y.lastActivity
  {
    assert sorted[0] in sorted;
  }

  lemma FirstSorted(s: seq<Cached>, x: Cached)
    requires s != [] && Distinct(s + [x])
    ensures |Sorted(s + [x])| > 0
    ensures Sorted(s + [x])[0] == x <==> forall y :: y in s ==> x.lastActivity < y.lastActivity
  {
    SnocInit(s, x);
    SortedOrdered(s);
    SortedLength(s);
    SortedLength(s + [x]);
    InsertedFirst(Sorted(s), x);
    NewMember(s, x);
    forall y ensures y in s <==> y in Sorted(s) {
      SameMembers(s, y);
    }
    FirstOf(Sorted(s), s, x);
  }

  lemma NewMember(s: seq<Cached>, x: Cached)
    requires Distinct(s + [x])
    ensures x !in s
  {
    forall i | 0 <= i < |s| ensures s[i] != x {
      assert (s + [x])[i].id != (s + [x])[|s|].id;
    }
  }

  lemma {:induction false} InsertedFirst(sorted: seq<Cached>, x: Cached)
    requires Ordered(sorted) && sorted != []
    ensures InsertSorted(sorted, x) != []
    ensures InsertSorted(sorted, x)[0]
         == if sorted[0].lastActivity <= x.lastActivity then sorted[0] else x
  {
    var init, last := sorted[..|sorted| - 1], sorted[|sorted| - 1];
    if last.lastActivity > x.lastActivity && init != [] {
      InsertedFirst(init, x);
    }
  }

  // ---------------------------------------------------------------- inactive sessions

  predicate Inactive(x: Cached, now: real) {
    now - x.lastActivity > SESSION_INACTIVE_TIMEOUT
  }

  function AllInactive(s: seq<Cached>, now: real): seq<Cached> {
    if s == [] then []
    else
      var init, last := AllInactive(s[..|s| - 1], now), s[|s| - 1];
      if Inactive(last, now) then init + [last] else init
  }

  lemma {:induction false} AllInactiveSound(s: seq<Cached>, now: real)
    requires Distinct(s)
    ensures forall x :: x in AllInactive(s, now) <==> x in s && Inactive(x, now)
    ensures Distinct(AllInactive(s, now))
  {
    if s != [] {
      var init, last := s[..|s| - 1], s[|s| - 1];
      assert s == init + [last];
      AllInactiveSound(init, now);
      LastIsNew(s);
      DistinctSnoc(AllInactive(init, now), last);
    }
  }

  // ---------------------------------------------------------------- the manager

  /** Of `n` calls `k` succeeded: all of them, or those before the first that throws. */
  ghost predicate StopsAt(throws: nat -> bool, n: nat, ok: bool, k: nat) {
    && k <= n && (forall i :: 0 <= i < k ==> !throws(i))
    && (ok <==> k == n) && (k < n ==> throws(k))
  }

  class Manager {
    var sessions: seq<Cached>           // a dict keeps the order in which its keys came
    var archived: set<string>           // in the database

    ghost predicate Valid()
      reads this
    {
      Distinct(sessions)
    }

    constructor ()
      ensures Valid() && sessions == [] && archived == {}
    {
      sessions, archived := [], {};
    }

    /** Archiving throws when the browser cannot be closed or the database write fails. */
    method ArchiveSession(id: string, throws: bool) returns (ok: bool)
      modifies this
      ensures ok == !throws
      ensures sessions == if throws then old(sessions) else Without(old(sessions), id)
      ensures archived == if throws then old(archived) else old(archived) + {id}
    {
      if throws {
        return false;
      }
      archived := archived + {id};
      sessions := Without(sessions, id);
      return true;
    }

    /** Archive the listed sessions in order, up to the first that throws. */
    method ArchiveAll(gone: seq<Cached>, throws: nat -> bool) returns (ok: bool, ghost k: nat)
      requires Valid()
      modifies this
      ensures StopsAt(throws, |gone|, ok, k)
      ensures sessions == Evicted(old(sessions), gone[..k])
      ensures archived == old(archived) + Ids(gone[..k])
    {
      ok, k := true, 0;
      var n := 0;
      ghost var start, ids := sessions, archived;
      NoneEvicted(start, gone, ids);
      while ok && n < |gone|
        invariant k == n <= |gone| && (forall i :: 0 <= i < n ==> !throws(i))
        invariant !ok ==> n < |gone| && throws(n)
        invariant sessions == Evicted(start, gone[..n])
        invariant archived == ids + Ids(gone[..n])
        decreases |gone| - n, ok
      {
        ghost var before, beforeIds := sessions, archived;
        ok := ArchiveSession(gone[n].id, throws(n));
        if ok {
          EvictedNext(start, gone, n, before, sessions);
          IdsNext(ids, gone, n, beforeIds, archived);
          n, k := n + 1, k + 1;
        }
      }
    }

    /** When the cache is over its limit, archive the least recently active sessions, up to the first that
        throws. */
    method EnforceMemoryLimits(throws: nat -> bool) returns (ok: bool, ghost k: nat)
      requires Valid()
      modifies this
      ensures Valid()
      ensures StopsAt(throws, Excess(|old(sessions)|), ok, k) && k <= |Sorted(old(sessions))|
      ensures sessions == Evicted(old(sessions), Oldest(old(sessions), k))
      ensures archived == old(archived) + Ids(Oldest(old(sessions), k))
      ensures |sessions| == |old(sessions)| - k
      ensures ok ==> |sessions| == if |old(sessions)| <= 1000 then |old(sessions)| else 1000
      ensures forall x :: x in old(sessions) ==> x in sessions || x.id in archived
    {
      SortedLength(sessions);
      EvictsOldest(sessions, 0);
      if |sessions| <= MAX_ACTIVE_SESSIONS {
        return true, 0;
      }
      var sorted := Sorted(sessions);
      var toArchive := |sessions| - MAX_ACTIVE_SESSIONS;
      ok, k := ArchiveAll(sorted[..toArchive], throws);
      assert sorted[..toArchive][..k] == sorted[..k];
      EvictsOldest(old(sessions), k);
      IdsExact(Oldest(old(sessions), k));
    }

    /** Archive the sessions that have been inactive for too long. */
    method CleanupInactiveSessions(now: real, throws: nat -> bool) returns (ok: bool, ghost k: nat)
      requires Valid()
      modifies this
      ensures Valid()
      ensures StopsAt(throws, |AllInactive(old(sessions), now)|, ok, k)
      ensures sessions == Evicted(old(sessions), AllInactive(old(sessions), now)[..k])
      ensures archived == old(archived) + Ids(AllInactive(old(sessions), now)[..k])
      ensures forall x :: x in sessions ==> x in old(sessions)
      ensures forall x :: x in old(sessions) && now - x.lastActivity <= 3600.0 ==> x in sessions
      ensures ok ==> forall x :: x in sessions ==> now - x.lastActivity <= 3600.0
      ensures forall x :: x in old(sessions) ==> x in sessions || x.id in archived
    {
      var inactive := [];
      for i := 0 to |sessions|
        invariant sessions == old(sessions) && archived == old(archived)
        invariant inactive == AllInactive(sessions[..i], now)
      {
        TakeSnoc(sessions, i);
        SnocInit(sessions[..i], sessions[i]);
        if Inactive(sessions[i], now) {
          inactive := inactive + [sessions[i]];
        }
      }
      TakeAll(sessions);
      AllInactiveSound(sessions, now);
      ok, k := ArchiveAll(inactive, throws);
      EvictedSound(old(sessions), inactive[..k]);
      IdsExact(inactive[..k]);
      TakeAll(inactive);
    }

    /** A session that is not cached is loaded from the database, without regard to the limit. */
    method GetSession(id: string, row: Option<real>) returns (session: Option<Cached>)
      requires Valid()
      modifies this`sessions
      ensures Valid()
      ensures session.Some? ==> session.value in sessions && session.value.id == id
      ensures Has(old(sessions), id) ==> session.Some? && sessions == old(sessions)
      ensures !Has(old(sessions), id) && row.Some? ==> sessions == old(sessions) + [Cached(id, row.value)]
      ensures !Has(old(sessions), id) && row.None? ==> session.None? && sessions == old(sessions)
    {
      session := None;
      for i := 0 to |sessions|
        invariant forall j :: 0 <= j < i ==> sessions[j].id != id
        invariant sessions == old(sessions)
      {
        if sessions[i].id == id {
          return Some(sessions[i]);
        }
      }
      if row.Some? {
        session := Some(Cached(id, row.value));
        sessions := sessions + [session.value];
      }
    }

    /** Creating a session caches it and then enforces the limit.  If an archive throws, so does the call, with
        the session cached or evicted all the same. */
    method CreateSession(id: string, row: real, throws: nat -> bool) returns (session: Option<Cached>, ghost k: nat)
      requires Valid()
      modifies this
      ensures Valid()
      ensures Has(old(sessions), id) ==>
                session.Some? && session.value in sessions && session.value.id == id
                && sessions == old(sessions) && archived == old(archived)
      ensures !Has(old(sessions), id) ==>
                var all := old(sessions) + [Cached(id, row)];
                && StopsAt(throws, Excess(|all|), session.Some?, k) && k <= |Sorted(all)|
                && sessions == Evicted(all, Oldest(all, k)) && archived == old(archived) + Ids(Oldest(all, k))
                && (session.Some? ==> session.value == Cached(id, row) && |sessions| <= MAX_ACTIVE_SESSIONS)
    {
      k := 0;
      session := GetSession(id, None);
      if session.None? {
        session := Some(Cached(id, row));
        sessions := sessions + [session.value];
        var ok;
        ok, k := EnforceMemoryLimits(throws);
        if !ok {
          session := None;
        }
      }
    }
  }
}
