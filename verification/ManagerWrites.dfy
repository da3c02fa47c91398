/**
 Writes to the employee directory of one tenant and the guard that keeps the
 reporting lines acyclic. A directory maps each email to the manager email its
 row names; an empty string means the row names no manager, and the named
 manager need not exist.
 */
module ManagerWrites {
  type Directory = map<string, string>

  const MAX_REPORTING_CHAIN: nat := 50

  // ---------------------------------------------- following the references

  // The k-th email met going up from x by the manager named in each row.
  ghost function Ref(db: Directory, x: string, k: nat): string
    decreases k
  {
    if k == 0 then x
    else if x in db then Ref(db, db[x], k - 1)
    else ""
  }

  // The chain going up from x meets the email e, as a row or as a mere reference.
  ghost predicate Names(db: Directory, x: string, e: string) {
    exists k: nat :: Ref(db, x, k) == e
  }

  ghost predicate Ends(db: Directory, x: string) {
    exists k: nat :: Ref(db, x, k) !in db
  }

  ghost predicate Acyclic(db: Directory) {
    "" !in db && forall x :: x in db ==> Ends(db, x)
  }

  // At most n employees are above e.
  ghost predicate AtMostAbove(db: Directory, e: string, n: nat) {
    Ref(db, e, n + 1) !in db
  }

  lemma {:induction false} RefSplit(db: Directory, x: string, i: nat, j: nat)
    requires "" !in db
    ensures Ref(db, x, i + j) == if i > 0 && Ref(db, x, i) == "" then "" else Ref(db, Ref(db, x, i), j)
    decreases i
  {
    if i == 0 {
    } else if x in db {
      RefSplit(db, db[x], i - 1, j);
      if i == 1 && db[x] == "" {
        Nowhere(db, j);
      }
    }
  }

  lemma {:induction false} Nowhere(db: Directory, j: nat)
    requires "" !in db
    ensures Ref(db, "", j) == ""
  {
  }

  lemma EndedStaysEnded(db: Directory, x: string, k: nat, more: nat)
    requires "" !in db && Ref(db, x, k) !in db
    ensures more > 0 ==> Ref(db, x, k + more) == ""
    ensures Ref(db, x, k + more) !in db
  {
    RefSplit(db, x, k, more);
  }

  // A chain that comes back never ends.
  lemma {:induction false} ReturningNeverEnds(db: Directory, x: string, period: nat, n: nat)
    requires "" !in db && x in db && period > 0 && Ref(db, x, period) == x
    ensures Ref(db, x, n) in db
  {
    if n < period {
      if Ref(db, x, n) !in db {
        EndedStaysEnded(db, x, n, period - n);
      }
    } else {
      ReturningNeverEnds(db, x, period, n - period);
      RefSplit(db, x, period, n - period);
    }
  }

  lemma AcyclicNeverRepeats(db: Directory, x: string, i: nat, j: nat)
    requires Acyclic(db) && i < j && Ref(db, x, i) in db
    ensures Ref(db, x, j) != Ref(db, x, i)
  {
    var y := Ref(db, x, i);
    RefSplit(db, x, i, j - i);
    var k: nat :| Ref(db, y, k) !in db;
    if Ref(db, y, j - i) == y {
      ReturningNeverEnds(db, y, j - i, k);
    }
  }

  // ------------------------------------------------------------- the guard

  datatype Resolution = Accepted(manager: string) | Malformed | SelfReport | UnknownManager | ClosesCycle | TooDeep

  ghost predicate IsKey(key: string, x: string) {
    key != "" && x == key
  }

  // The first d lookups above m all succeed, repeat nobody and miss the key.
  ghost predicate Clear(db: Directory, m: string, key: string, d: nat) {
    && (forall i: nat :: i <= d ==> Ref(db, m, i) in db)
    && (forall i: nat, j: nat :: i < j <= d ==> Ref(db, m, i) != Ref(db, m, j))
    && (forall i: nat :: 0 < i <= d ==> !IsKey(key, Ref(db, m, i)))
  }

  // What the guard decides, without its loop.
  ghost function Resolve(wellFormed: string -> bool, db: Directory, m: string, key: string): Resolution {
    if m == "" || !wellFormed(m) then Malformed
    else if IsKey(key, m) then SelfReport
    else if m !in db then UnknownManager
    else if exists d: nat :: d < MAX_REPORTING_CHAIN && Clear(db, m, key, d) && IsKey(key, Ref(db, m, d + 1)) then ClosesCycle
    else if Clear(db, m, key, MAX_REPORTING_CHAIN) then TooDeep
    else Accepted(m)
  }

  ghost predicate Stuck(db: Directory, m: string, d: nat) {
    Ref(db, m, d + 1) !in db || exists i: nat :: i <= d && Ref(db, m, i) == Ref(db, m, d + 1)
  }

  lemma StoppedIsAccepted(wellFormed: string -> bool, db: Directory, m: string, key: string, d: nat)
    requires m != "" && wellFormed(m) && !IsKey(key, m) && m in db
    requires d < MAX_REPORTING_CHAIN && Clear(db, m, key, d)
    requires !IsKey(key, Ref(db, m, d + 1)) && Stuck(db, m, d)
    ensures Resolve(wellFormed, db, m, key) == Accepted(m)
  {
    forall c: nat | d < c ensures !Clear(db, m, key, c) {
    }
    forall c: nat | c < d && Clear(db, m, key, c) ensures !IsKey(key, Ref(db, m, c + 1)) {
    }
  }

  lemma NextClear(db: Directory, m: string, key: string, d: nat)
    requires Clear(db, m, key, d) && !Stuck(db, m, d) && !IsKey(key, Ref(db, m, d + 1))
    ensures Clear(db, m, key, d + 1)
  {
  }

  lemma ClearIsNotRejected(wellFormed: string -> bool, db: Directory, m: string, key: string, d: nat)
    requires m != "" && wellFormed(m) && !IsKey(key, m) && m in db
    requires Clear(db, m, key, d) && IsKey(key, Ref(db, m, d + 1)) && d < MAX_REPORTING_CHAIN
    ensures Resolve(wellFormed, db, m, key) == ClosesCycle
  {
  }

  lemma ClearToTheTop(wellFormed: string -> bool, db: Directory, m: string, key: string)
    requires m != "" && wellFormed(m) && !IsKey(key, m) && m in db
    requires Clear(db, m, key, MAX_REPORTING_CHAIN)
    ensures Resolve(wellFormed, db, m, key) == TooDeep
  {
    forall d: nat | d < MAX_REPORTING_CHAIN && Clear(db, m, key, d) ensures !IsKey(key, Ref(db, m, d + 1)) {
    }
  }

  lemma RefNext(db: Directory, x: string, k: nat)
    requires "" !in db && Ref(db, x, k) in db
    ensures Ref(db, x, k + 1) == db[Ref(db, x, k)]
  {
    RefSplit(db, x, k, 1);
    assert Ref(db, Ref(db, x, k), 1) == db[Ref(db, x, k)];
  }

  // The bounded walk up the chain.
  method ResolveManagerReference(wellFormed: string -> bool, db: Directory, m: string, key: string) returns (r: Resolution)
    requires "" !in db
    ensures r == Resolve(wellFormed, db, m, key)
  {
    if m == "" || !wellFormed(m) {
      return Malformed;
    }
    if key != "" && m == key {
      return SelfReport;
    }
    if m !in db {
      return UnknownManager;
    }
    RefNext(db, m, 0);
    var cursor := db[m];
    var seen := {m};
    var depth := 0;
    while cursor != "" && depth < MAX_REPORTING_CHAIN
      invariant depth <= MAX_REPORTING_CHAIN && cursor == Ref(db, m, depth + 1)
      invariant Clear(db, m, key, depth)
      invariant forall x :: x in seen <==> exists i: nat :: i <= depth && Ref(db, m, i) == x
    {
      if key != "" && cursor == key {
        ClearIsNotRejected(wellFormed, db, m, key, depth);
        return ClosesCycle;
      }
      if cursor in seen || cursor !in db {
        break;
      }
      NextClear(db, m, key, depth);
      RefNext(db, m, depth + 1);
      seen := seen + {cursor};
      cursor := db[cursor];
      depth := depth + 1;
    }
    if depth >= MAX_REPORTING_CHAIN {
      ClearToTheTop(wellFormed, db, m, key);
      return TooDeep;
    }
    StoppedIsAccepted(wellFormed, db, m, key, depth);
    return Accepted(m);
  }

  // ------------------------------------------------- changing one reference

  lemma {:induction false} UnnamedKeepsChain(db: Directory, e: string, m: string, x: string, k: nat)
    requires "" !in db && e != "" && !Names(db, x, e)
    ensures Ref(db[e := m], x, k) == Ref(db, x, k)
    decreases k
  {
    assert Ref(db, x, 0) == x;
    if k > 0 && x in db {
      forall j: nat ensures Ref(db, db[x], j) == Ref(db, x, j + 1) {
      }
      UnnamedKeepsChain(db, e, m, db[x], k - 1);
    }
  }

  // Following x to e and then the new reference of e.
  lemma {:induction false} ChainThroughNew(db: Directory, e: string, m: string, x: string, k: nat)
    requires "" !in db && e != "" && Ref(db, x, k) == e
    requires forall i: nat :: i < k ==> Ref(db, x, i) != e
    ensures Ref(db[e := m], x, k) == e
    decreases k
  {
    if k > 0 {
      assert Ref(db, x, 0) == x;
      forall i: nat | i < k - 1 ensures Ref(db, db[x], i) != e {
        assert Ref(db, x, i + 1) != e;
      }
      ChainThroughNew(db, e, m, db[x], k - 1);
    }
  }

  lemma {:induction false} FirstNaming(db: Directory, x: string, e: string, k: nat) returns (first: nat)
    requires Ref(db, x, k) == e
    ensures first <= k && Ref(db, x, first) == e && forall i: nat :: i < first ==> Ref(db, x, i) != e
    decreases k
  {
    if i: nat :| i < k && Ref(db, x, i) == e {
      first := FirstNaming(db, x, e, i);
    } else {
      first := k;
    }
  }

  // Pointing e at m keeps the directory acyclic exactly when m's chain does not meet e.
  lemma PointingKeepsAcyclic(db: Directory, e: string, m: string)
    requires Acyclic(db) && e != ""
    ensures Acyclic(db[e := m]) <==> !Names(db, m, e)
  {
    if Names(db, m, e) {
      PointingBackCycles(db, e, m);
    } else {
      var now := db[e := m];
      forall x | x in now ensures Ends(now, x) {
        ChainStillEnds(db, e, m, x);
      }
    }
  }

  lemma PointingBackCycles(db: Directory, e: string, m: string)
    requires "" !in db && e != "" && Names(db, m, e)
    ensures !Acyclic(db[e := m])
  {
    var now := db[e := m];
    var k: nat :| Ref(db, m, k) == e;
    var first := FirstNaming(db, m, e, k);
    ChainThroughNew(db, e, m, m, first);
    assert Ref(now, e, first + 1) == e;
    if Ends(now, e) {
      var n: nat :| Ref(now, e, n) !in now;
      ReturningNeverEnds(now, e, first + 1, n);
    }
  }

  lemma ChainEndsFrom(db: Directory, x: string)
    requires Acyclic(db)
    ensures Ends(db, x)
  {
    if x !in db {
      assert Ref(db, x, 0) !in db;
    }
  }

  lemma ChainStillEnds(db: Directory, e: string, m: string, x: string)
    requires Acyclic(db) && e != "" && !Names(db, m, e)
    ensures Ends(db[e := m], x)
  {
    var now := db[e := m];
    ChainEndsFrom(db, m);
    var k: nat :| Ref(db, m, k) !in db;
    UnnamedKeepsChain(db, e, m, m, k);
    assert Ref(now, m, k) !in now;
    if Names(db, x, e) {
      var i: nat :| Ref(db, x, i) == e;
      var first := FirstNaming(db, x, e, i);
      ChainThroughNew(db, e, m, x, first);
      RefSplit(now, x, first, k + 1);
      assert Ref(now, e, k + 1) == Ref(now, m, k);
      assert Ref(now, x, first + (k + 1)) !in now;
    } else {
      ChainEndsFrom(db, x);
      var j: nat :| Ref(db, x, j) !in db;
      UnnamedKeepsChain(db, e, m, x, j);
      assert Ref(now, x, j) !in now;
    }
  }

  lemma {:induction false} RemovalTruncates(db: Directory, e: string, x: string, k: nat)
    requires "" !in db
    ensures Ref(db - {e}, x, k) == Ref(db, x, k) || Ref(db - {e}, x, k) == ""
    decreases k
  {
    if k > 0 && x in db - {e} {
      RemovalTruncates(db, e, db[x], k - 1);
    }
  }

  lemma RemovalKeepsAcyclic(db: Directory, e: string)
    requires Acyclic(db)
    ensures Acyclic(db - {e})
  {
    forall x | x in db - {e} ensures Ends(db - {e}, x) {
      var k: nat :| Ref(db, x, k) !in db;
      RemovalTruncates(db, e, x, k);
      assert Ref(db - {e}, x, k) !in db - {e};
    }
  }

  // --------------------------------------------------- what the guard gives

  lemma AcceptedEnds(wellFormed: string -> bool, db: Directory, m: string, key: string)
    requires Acyclic(db) && key != "" && Resolve(wellFormed, db, m, key).Accepted?
    ensures !Names(db, m, key) && Ref(db, m, MAX_REPORTING_CHAIN) !in db
  {
    var d := FirstObstacle(db, m, key, 0);
    forall i: nat ensures Ref(db, m, i) != key {
      if i > d + 1 {
        EndedStaysEnded(db, m, d + 1, i - (d + 1));
      } else if 0 < i <= d {
        assert !IsKey(key, Ref(db, m, i));
      }
    }
    EndedStaysEnded(db, m, d + 1, MAX_REPORTING_CHAIN - (d + 1));
  }

  // Without rejection the walk stops, and in an acyclic directory it stops at the end.
  lemma {:induction false} FirstObstacle(db: Directory, m: string, key: string, from: nat) returns (d: nat)
    requires Acyclic(db) && key != "" && Clear(db, m, key, from) && from < MAX_REPORTING_CHAIN
    requires forall c: nat :: c < MAX_REPORTING_CHAIN && Clear(db, m, key, c) ==> !IsKey(key, Ref(db, m, c + 1))
    requires !Clear(db, m, key, MAX_REPORTING_CHAIN)
    ensures d < MAX_REPORTING_CHAIN && Clear(db, m, key, d)
    ensures Ref(db, m, d + 1) !in db && Ref(db, m, d + 1) != key
    decreases MAX_REPORTING_CHAIN - from
  {
    if Ref(db, m, from + 1) !in db {
      d := from;
    } else {
      forall i: nat | i <= from ensures Ref(db, m, i) != Ref(db, m, from + 1) {
        AcyclicNeverRepeats(db, m, i, from + 1);
      }
      NextClear(db, m, key, from);
      d := FirstObstacle(db, m, key, from + 1);
    }
  }

  // The employee with that email is at most MAX_REPORTING_CHAIN steps above m.
  ghost predicate NamedWithin(db: Directory, m: string, key: string) {
    exists k: nat :: 1 <= k <= MAX_REPORTING_CHAIN && Ref(db, m, k) == key
  }

  lemma {:induction false} BeforeNamed(db: Directory, m: string, k: nat, i: nat)
    requires "" !in db && i < k && Ref(db, m, k) != ""
    ensures Ref(db, m, i) in db
  {
    if Ref(db, m, i) !in db {
      EndedStaysEnded(db, m, i, k - i);
    }
  }

  lemma NamedIsClear(db: Directory, m: string, key: string, k: nat)
    requires Acyclic(db) && key != "" && m != key && 1 <= k && Ref(db, m, k) == key
    requires forall i: nat :: i < k ==> Ref(db, m, i) != key
    ensures Clear(db, m, key, k - 1) && IsKey(key, Ref(db, m, k))
  {
    forall i: nat | i < k ensures Ref(db, m, i) in db {
      BeforeNamed(db, m, k, i);
    }
    forall i: nat, j: nat | i < j <= k - 1 ensures Ref(db, m, i) != Ref(db, m, j) {
      AcyclicNeverRepeats(db, m, i, j);
    }
  }

  lemma ClosesIffNamed(db: Directory, m: string, key: string)
    requires Acyclic(db) && key != "" && m != key
    ensures (exists d: nat :: d < MAX_REPORTING_CHAIN && Clear(db, m, key, d) && IsKey(key, Ref(db, m, d + 1)))
       <==> NamedWithin(db, m, key)
  {
    if NamedWithin(db, m, key) {
      var k: nat :| 1 <= k <= MAX_REPORTING_CHAIN && Ref(db, m, k) == key;
      var first := FirstNaming(db, m, key, k);
      assert Ref(db, m, 0) == m;
      NamedIsClear(db, m, key, first);
      assert Clear(db, m, key, first - 1) && IsKey(key, Ref(db, m, (first - 1) + 1));
    }
    if d: nat :| d < MAX_REPORTING_CHAIN && Clear(db, m, key, d) && IsKey(key, Ref(db, m, d + 1)) {
      assert Ref(db, m, d + 1) == key;
    }
  }

  lemma DeepIffLong(db: Directory, m: string, key: string)
    requires Acyclic(db) && key != "" && m != key && !NamedWithin(db, m, key)
    ensures Clear(db, m, key, MAX_REPORTING_CHAIN) <==> Ref(db, m, MAX_REPORTING_CHAIN) in db
  {
    if Ref(db, m, MAX_REPORTING_CHAIN) in db {
      forall i: nat | i <= MAX_REPORTING_CHAIN ensures Ref(db, m, i) in db {
        if i < MAX_REPORTING_CHAIN {
          BeforeNamed(db, m, MAX_REPORTING_CHAIN, i);
        }
      }
      forall i: nat, j: nat | i < j <= MAX_REPORTING_CHAIN ensures Ref(db, m, i) != Ref(db, m, j) {
        AcyclicNeverRepeats(db, m, i, j);
      }
      forall i: nat | 0 < i <= MAX_REPORTING_CHAIN ensures !IsKey(key, Ref(db, m, i)) {
      }
    }
  }

  // Which answer a reference gets in an acyclic tenant: each reason in terms of the chain
  // that goes up from the manager named.
  lemma {:induction false} ReasonsAreExact(wellFormed: string -> bool, db: Directory, m: string, key: string)
    requires Acyclic(db) && key != ""
    ensures var r := Resolve(wellFormed, db, m, key);
            && (r.Malformed? <==> m == "" || !wellFormed(m))
            && (r.SelfReport? <==> m != "" && wellFormed(m) && m == key)
            && (r.UnknownManager? <==> m != "" && wellFormed(m) && m != key && m !in db)
            && (r.ClosesCycle? <==> m in db && wellFormed(m) && m != key && NamedWithin(db, m, key))
            && (r.TooDeep? <==> m in db && wellFormed(m) && m != key && !NamedWithin(db, m, key)
                                && Ref(db, m, MAX_REPORTING_CHAIN) in db)
            && (r.Accepted? ==> r.manager == m)
  {
    hide Clear, Ref, NamedWithin;
    if m != key {
      ClosesIffNamed(db, m, key);
      if !NamedWithin(db, m, key) {
        DeepIffLong(db, m, key);
      }
    }
  }

  // For a new employee, or one keeping its email, the guard accepts exactly the
  // writes that keep the directory acyclic and the chain within the limit.
  lemma GuardIsExact(wellFormed: string -> bool, db: Directory, e: string, m: string)
    requires Acyclic(db) && e != "" && m in db && wellFormed(m)
    ensures Resolve(wellFormed, db, m, e).Accepted?
       <==> Acyclic(db[e := m]) && AtMostAbove(db[e := m], e, MAX_REPORTING_CHAIN)
  {
    var now := db[e := m];
    PointingKeepsAcyclic(db, e, m);
    assert Ref(now, e, MAX_REPORTING_CHAIN + 1) == Ref(now, m, MAX_REPORTING_CHAIN);
    if Resolve(wellFormed, db, m, e).Accepted? {
      AcceptedEnds(wellFormed, db, m, e);
      UnnamedKeepsChain(db, e, m, m, MAX_REPORTING_CHAIN);
    }
    if Acyclic(now) && AtMostAbove(now, e, MAX_REPORTING_CHAIN) {
      assert Ref(db, m, 0) == m;
      UnnamedKeepsChain(db, e, m, m, MAX_REPORTING_CHAIN);
      assert Ref(db, m, MAX_REPORTING_CHAIN) !in db;
    }
  }

  // Changing email and manager in one request: the guard is asked about the new
  // email while the row still stands under the old one.
  lemma RenameWithManager(wellFormed: string -> bool, db: Directory, e: string, n: string, m: string)
    requires Acyclic(db) && n != "" && n !in db && Resolve(wellFormed, db, m, n).Accepted?
    ensures Acyclic((db - {e})[n := m])
    ensures AtMostAbove((db - {e})[n := m], n, MAX_REPORTING_CHAIN)
  {
    var left := db - {e};
    RemovalKeepsAcyclic(db, e);
    AcceptedEnds(wellFormed, db, m, n);
    forall k: nat ensures Ref(left, m, k) != n {
      RemovalTruncates(db, e, m, k);
    }
    PointingKeepsAcyclic(left, n, m);
    UnnamedKeepsChain(left, n, m, m, MAX_REPORTING_CHAIN);
    RemovalTruncates(db, e, m, MAX_REPORTING_CHAIN);
    assert Ref(left[n := m], n, MAX_REPORTING_CHAIN + 1) == Ref(left[n := m], m, MAX_REPORTING_CHAIN);
  }

  // A rename alone is not guarded. It keeps the directory acyclic exactly when
  // nobody above the employee already names the new email as manager.
  lemma RenameAlone(db: Directory, e: string, n: string)
    requires Acyclic(db) && e in db && n != "" && n !in db
    ensures Acyclic((db - {e})[n := db[e]]) <==> !Names(db, e, n)
  {
    var left, m := db - {e}, db[e];
    RemovalKeepsAcyclic(db, e);
    PointingKeepsAcyclic(left, n, m);
    forall k: nat ensures Ref(left, m, k) == n <==> Ref(db, e, k + 1) == n {
      RemovalOffChain(db, e, m, k);
    }
    if Names(db, e, n) {
      var k: nat :| Ref(db, e, k) == n;
      assert k > 0;
      assert Ref(left, m, k - 1) == n;
    }
  }

  // In an acyclic directory e is not on its own manager's chain, so removing e leaves that chain alone.
  lemma RemovalOffChain(db: Directory, e: string, m: string, k: nat)
    requires Acyclic(db) && e in db && m == db[e]
    ensures Ref(db - {e}, m, k) == Ref(db, m, k) == Ref(db, e, k + 1)
  {
    forall i: nat ensures Ref(db, m, i) != e {
      assert Ref(db, m, i) == Ref(db, e, i + 1);
      assert Ref(db, e, 0) == e;
      AcyclicNeverRepeats(db, e, 0, i + 1);
    }
    ChainWithout(db, e, m, k);
  }

  lemma {:induction false} ChainWithout(db: Directory, e: string, x: string, k: nat)
    requires !Names(db, x, e)
    ensures Ref(db - {e}, x, k) == Ref(db, x, k)
    decreases k
  {
    assert Ref(db, x, 0) == x;
    if k > 0 && x in db {
      forall j: nat ensures Ref(db, db[x], j) == Ref(db, x, j + 1) {
      }
      ChainWithout(db, e, db[x], k - 1);
    }
  }

  // In particular a rename is safe when no row names the new email.
  lemma UnreferencedEmailIsFree(db: Directory, e: string, n: string)
    requires "" !in db && n != "" && n != e
    requires forall x :: x in db ==> db[x] != n
    ensures !Names(db, e, n)
  {
    forall k: nat ensures Ref(db, e, k) != n {
      NeverReferenced(db, e, n, k);
    }
  }

  lemma {:induction false} NeverReferenced(db: Directory, x: string, n: string, k: nat)
    requires n != "" && n != x && forall y :: y in db ==> db[y] != n
    ensures Ref(db, x, k) != n
    decreases k
  {
    if k > 0 && x in db {
      NeverReferenced(db, db[x], n, k - 1);
    }
  }
}
