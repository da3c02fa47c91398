/**
 Startup of the audit service: first the sequence backfill, then baseline anchors
 for the tenants without one, and what verification reports of their rows from
 then on. The table is listed by (created_at, id).
 */
module AuditStartup {
  import opened Prelude
  import opened AuditChain
  import opened AuditStore
  import opened AuditBackfill

  // --------------------------------------------------- one tenant's backfill

  function Missing(ts: seq<Row>): nat {
    if ts == [] then 0 else Missing(ts[..|ts| - 1]) + if ts[|ts| - 1].sequence.None? then 1 else 0
  }

  // The rows that have a sequence, and those that have none.
  function Stamped(ts: seq<Row>): seq<Row> {
    if ts == [] then []
    else
      var before, row := Stamped(ts[..|ts| - 1]), ts[|ts| - 1];
      if row.sequence.Some? then before + [row] else before
  }

  function Late(ts: seq<Row>): seq<Row> {
    if ts == [] then []
    else
      var before, row := Late(ts[..|ts| - 1]), ts[|ts| - 1];
      if row.sequence.None? then before + [row] else before
  }

  // The late rows with consecutive numbers above `top`.
  function LateNumbered(ts: seq<Row>, top: nat): seq<Row> {
    if ts == [] then []
    else
      var before, row := LateNumbered(ts[..|ts| - 1], top), ts[|ts| - 1];
      if row.sequence.None? then before + [row.(sequence := Some(top + Missing(ts)))] else before
  }

  // The same rows, each late one numbered in its place.
  function Fill(ts: seq<Row>, top: nat): seq<Row> {
    if ts == [] then []
    else
      var before, row := Fill(ts[..|ts| - 1], top), ts[|ts| - 1];
      before + [if row.sequence.None? then row.(sequence := Some(top + Missing(ts))) else row]
  }

  // The tenant's rows once the whole table has been backfilled.
  function Backfilled(rows: seq<Row>, tenant: string): seq<Row> {
    TenantRows(Numbered(rows, |Unnumbered(rows)|), tenant)
  }

  lemma {:induction false} UnnumberedPrefix(rows: seq<Row>, q: nat)
    requires q <= |rows|
    ensures |Unnumbered(rows[..q])| <= |Unnumbered(rows)|
    ensures Unnumbered(rows[..q]) == Unnumbered(rows)[..|Unnumbered(rows[..q])|]
  {
    if q < |rows| {
      UnnumberedPrefix(rows[..|rows| - 1], q);
      assert rows[..|rows| - 1][..q] == rows[..q];
    } else {
      assert rows[..q] == rows;
    }
  }

  lemma {:induction false} MissingCount(rows: seq<Row>, q: nat, tenant: string)
    requires q <= |rows|
    ensures OfTenant(rows, Unnumbered(rows[..q]), tenant) == Missing(TenantRows(rows[..q], tenant))
  {
    if q > 0 {
      assert rows[..q][..q - 1] == rows[..q - 1];
      MissingCount(rows, q - 1, tenant);
    }
  }

  lemma PlaceOfUnnumbered(rows: seq<Row>, q: nat) returns (j: nat)
    requires q < |rows| && rows[q].sequence.None?
    ensures j < |Unnumbered(rows)| && Unnumbered(rows)[j] == q
    ensures Unnumbered(rows)[..j + 1] == Unnumbered(rows[..q + 1])
  {
    UnnumberedPrefix(rows, q + 1);
    j := |Unnumbered(rows[..q + 1])| - 1;
    assert rows[..q + 1][q] == rows[q];
  }

  // The backfill numbers each row by what came before it for the same tenant.
  lemma {:induction false} FilledRow(rows: seq<Row>, q: nat)
    requires q < |rows|
    ensures Numbered(rows, |Unnumbered(rows)|)[q] ==
            if rows[q].sequence.Some? then rows[q]
            else rows[q].(sequence := Some(TenantMax(rows, rows[q].tenant) + Missing(TenantRows(rows[..q + 1], rows[q].tenant))))
  {
    hide Numbered, TenantMax, OfTenant, Missing, TenantRows, Unnumbered;
    NumberedRow(rows, |Unnumbered(rows)|, q);
    if rows[q].sequence.None? {
      var j := PlaceOfUnnumbered(rows, q);
      MissingCount(rows, q + 1, rows[q].tenant);
    }
  }

  lemma {:induction false} FilledPrefix(rows: seq<Row>, q: nat, tenant: string)
    requires q <= |rows|
    ensures TenantRows(Numbered(rows, |Unnumbered(rows)|)[..q], tenant)
         == Fill(TenantRows(rows[..q], tenant), TenantMax(rows, tenant))
  {
    hide Numbered, Unnumbered, TenantMax, TenantRows, Fill, Missing;
    var done, top := Numbered(rows, |Unnumbered(rows)|), TenantMax(rows, tenant);
    if q == 0 {
      EmptyPrefix(rows, done, tenant);
    } else {
      var p := q - 1;
      FilledPrefix(rows, p, tenant);
      FilledRow(rows, p);
      NextOfTenant(rows, p, tenant);
      NextOfTenant(done, p, tenant);
      if rows[p].tenant == tenant {
        FillOne(TenantRows(rows[..p], tenant), rows[p], top);
        assert TenantRows(rows[..p + 1], tenant) == TenantRows(rows[..p], tenant) + [rows[p]];
        assert TenantRows(done[..p + 1], tenant) == TenantRows(done[..p], tenant) + [done[p]];
      } else {
        assert TenantRows(rows[..p + 1], tenant) == TenantRows(rows[..p], tenant);
        assert TenantRows(done[..p + 1], tenant) == TenantRows(done[..p], tenant);
      }
    }
  }

  lemma EmptyPrefix(rows: seq<Row>, done: seq<Row>, tenant: string)
    ensures TenantRows(rows[..0], tenant) == [] && TenantRows(done[..0], tenant) == [] && forall top :: Fill([], top) == []
  {
  }

  lemma NextOfTenant(rows: seq<Row>, q: nat, tenant: string)
    requires q < |rows|
    ensures TenantRows(rows[..q + 1], tenant)
         == TenantRows(rows[..q], tenant) + if rows[q].tenant == tenant then [rows[q]] else []
  {
    assert rows[..q + 1][..q] == rows[..q];
  }

  lemma FillOne(ts: seq<Row>, row: Row, top: nat)
    ensures Fill(ts + [row], top) ==
            Fill(ts, top) + [if row.sequence.None? then row.(sequence := Some(top + Missing(ts + [row]))) else row]
  {
    assert (ts + [row])[..|ts|] == ts;
  }

  // The backfill of the table is a backfill of each tenant's rows on their own.
  lemma BackfillByTenant(rows: seq<Row>, tenant: string)
    ensures Backfilled(rows, tenant) == Fill(TenantRows(rows, tenant), TenantMax(rows, tenant))
  {
    hide Numbered, Unnumbered, TenantMax, TenantRows, Fill;
    FilledPrefix(rows, |rows|, tenant);
    assert rows[..|rows|] == rows;
    assert Numbered(rows, |Unnumbered(rows)|)[..|rows|] == Numbered(rows, |Unnumbered(rows)|);
  }

  // --------------------------------------------- the order of the walk then

  lemma {:induction false} FillMembers(ts: seq<Row>, top: nat)
    ensures multiset(Fill(ts, top)) == multiset(Stamped(ts)) + multiset(LateNumbered(ts, top))
  {
    hide Missing;
    if ts != [] {
      FillMembers(ts[..|ts| - 1], top);
    }
  }

  lemma {:induction false} FillRows(ts: seq<Row>, top: nat)
    ensures |Fill(ts, top)| == |ts|
    ensures forall i :: 0 <= i < |ts| ==> Fill(ts, top)[i].sequence.Some? && Fill(ts, top)[i].id == ts[i].id
  {
    hide Missing;
    if ts != [] {
      FillRows(ts[..|ts| - 1], top);
    }
  }

  lemma {:induction false} LateRows(ts: seq<Row>, top: nat)
    ensures |Late(ts)| == |LateNumbered(ts, top)| == Missing(ts)
    ensures forall i :: 0 <= i < |Late(ts)| ==> LateNumbered(ts, top)[i] == Late(ts)[i].(sequence := Some(top + i + 1))
  {
    if ts != [] {
      LateRows(ts[..|ts| - 1], top);
    }
  }

  lemma {:induction false} StampedRows(ts: seq<Row>)
    ensures forall r :: r in Stamped(ts) <==> r in ts && r.sequence.Some?
  {
    if ts != [] {
      StampedRows(ts[..|ts| - 1]);
      assert forall r :: r in ts <==> r in ts[..|ts| - 1] || r == ts[|ts| - 1];
    }
  }

  lemma {:induction false} TenantTop(rows: seq<Row>, tenant: string)
    ensures forall r :: r in TenantRows(rows, tenant) && r.sequence.Some? ==> r.sequence.value <= TenantMax(rows, tenant)
  {
    if rows != [] {
      TenantTop(rows[..|rows| - 1], tenant);
    }
  }

  // The rows numbered before, then the late ones: that is the walk after the backfill.
  lemma FilledWalk(ts: seq<Row>, top: nat, numbered: seq<Row>)
    requires WalkOf(numbered, Stamped(ts)) && forall r :: r in ts && r.sequence.Some? ==> r.sequence.value <= top
    ensures WalkOf(numbered + LateNumbered(ts, top), Fill(ts, top))
  {
    hide Fill, Stamped, Late, LateNumbered, Missing;
    FillMembers(ts, top);
    StampedRows(ts);
    LateRows(ts, top);
    SameMembers(numbered, Stamped(ts));
    var walk := numbered + LateNumbered(ts, top);
    forall i, j | 0 <= i < j < |walk| ensures NoLater(walk[i], walk[j]) {
      if i < |numbered| {
        assert numbered[i] in Stamped(ts);
      }
    }
  }

  // No two rows of a table have the same id.
  ghost predicate IdsApart(ts: seq<Row>) {
    forall i, j :: 0 <= i < j < |ts| ==> ts[i].id != ts[j].id
  }

  lemma ApartIsDistinct(ts: seq<Row>)
    requires IdsApart(ts)
    ensures DistinctIds(ts)
  {
  }

  lemma {:induction false} OneWalk(a: seq<Row>, b: seq<Row>, ts: seq<Row>)
    requires DistinctIds(ts) && Ordered(a) && Ordered(b) && multiset(a) == multiset(b)
    requires forall r :: r in b ==> r in ts
    ensures a == b
  {
    hide NoLater;
    SameMembers(a, b);
    if b != [] {
      var n := |b| - 1;
      SameLast(a, b, ts);
      WithoutLast(a);
      WithoutLast(b);
      OneWalk(a[..n], b[..n], ts);
    }
  }

  lemma SameLast(a: seq<Row>, b: seq<Row>, ts: seq<Row>)
    requires DistinctIds(ts) && Ordered(a) && Ordered(b) && multiset(a) == multiset(b) && b != []
    requires forall r :: r in b ==> r in ts
    ensures |a| == |b| && a[|b| - 1] == b[|b| - 1]
  {
    hide NoLater;
    SameMembers(a, b);
    var n := |b| - 1;
    assert b[n] in b && a[n] in a;
    var i :| 0 <= i <= n && a[i] == b[n];
    var j :| 0 <= j <= n && b[j] == a[n];
    if i < n && j < n {
      assert NoLater(a[i], a[n]) && NoLater(b[j], b[n]);
      SameRank(a[n], b[n]);
    }
  }

  lemma ChainedIgnoresSequences(cr: Crypto, a: seq<Row>, b: seq<Row>)
    requires |a| == |b| && forall i :: 0 <= i < |a| ==> a[i] == b[i].(sequence := a[i].sequence)
    ensures Chained(cr, a) <==> Chained(cr, b)
  {
    forall i | 0 <= i < |a| ensures Links(cr, a, i) <==> Links(cr, b, i) {
      assert HashBefore(a, i) == HashBefore(b, i);
    }
  }

  // Once every row of the tenant has a number, a baseline never disagrees with the walk.
  lemma FullBaselineAgrees(cr: Crypto, tenant: string, ts: seq<Row>, ordered: seq<Row>)
    requires ts != [] && WalkOf(ordered, ts) && DistinctIds(ts) && forall r :: r in ts ==> r.sequence.Some?
    ensures AnchorIssues(cr, tenant, ordered, Some(BaselineAnchor(cr, tenant, ts))) == []
  {
    hide Latest, AnchorIssues, BaselineAnchor;
    BaselineAgrees(cr, tenant, ts, ordered);
    LatestIsLast(ts);
  }

  // After startup verification reports a tenant without a former anchor intact if and
  // only if its numbered rows in walk order, followed by its unnumbered rows in order of
  // creation, form one chain.
  lemma {:induction false} StartupVerifies(cr: Crypto, rows: seq<Row>, tenant: string, numbered: seq<Row>, ordered: seq<Row>)
    requires TenantRows(rows, tenant) != [] && IdsApart(TenantRows(rows, tenant))
    requires WalkOf(numbered, Stamped(TenantRows(rows, tenant))) && WalkOf(ordered, Backfilled(rows, tenant))
    ensures Backfilled(rows, tenant) != []
    ensures Verify(cr, tenant, ordered, Some(BaselineAnchor(cr, tenant, Backfilled(rows, tenant)))).chainIntact
       <==> Chained(cr, numbered + Late(TenantRows(rows, tenant)))
  {
    hide Backfilled, TenantRows, TenantMax, Fill, Stamped, Late, LateNumbered, Missing, WalkIssues, AnchorIssues, BaselineAnchor;
    var ts, top, filled := TenantRows(rows, tenant), TenantMax(rows, tenant), Backfilled(rows, tenant);
    BackfillByTenant(rows, tenant);
    FillRows(ts, top);
    ApartIsDistinct(filled);
    TenantTop(rows, tenant);
    FilledWalk(ts, top, numbered);
    var walk := numbered + LateNumbered(ts, top);
    SameMembers(walk, filled);
    OneWalk(ordered, walk, filled);
    NoIssueMeansChained(cr, ordered);
    FullBaselineAgrees(cr, tenant, filled, ordered);
    LateRows(ts, top);
    ChainedIgnoresSequences(cr, walk, numbered + Late(ts));
  }

  // ------------------------------------------------- when the backfill is cut short

  lemma FirstIsNumbered(rows: seq<Row>)
    requires Unnumbered(rows) != []
    ensures var i := Unnumbered(rows)[0];
            Numbered(rows, 1) == rows[i := rows[i].(sequence := Some(TenantMax(rows, rows[i].tenant) + 1))]
  {
    hide Unnumbered, TenantMax, NumberOf;
    NumbersAreConsecutive(rows, 0);
    NumberedStep(rows, 0);
    NothingNumbered(rows);
  }

  lemma FirstOfTwo(r1: Row, r2: Row)
    requires r1.tenant == r2.tenant && r1.sequence.None? && r2.sequence.None?
    ensures Unnumbered([r1, r2]) == [0, 1]
    ensures Numbered([r1, r2], 1) == [r1.(sequence := Some(1)), r2]
  {
    hide Numbered;
    assert [r1, r2][..1] == [r1] && [r1][..0] == [];
    assert Unnumbered([r1]) == [0];
    assert TenantMax([r1], r1.tenant) == 0;
    FirstIsNumbered([r1, r2]);
  }

  // A backfill that runs out of batches after the first of two rows leaves a tenant whose
  // baseline the verifier rejects.
  lemma CappedBaselineDisagrees(cr: Crypto, tenant: string, r1: Row, r2: Row)
    requires r1.tenant == tenant == r2.tenant && r1.sequence.None? && r2.sequence.None? && r1.id != r2.id
    ensures 1 <= |Unnumbered([r1, r2])|
    ensures var ts := TenantRows(Numbered([r1, r2], 1), tenant);
            ts != [] && WalkOf(ts, ts) && AnchorIssues(cr, tenant, ts, Some(BaselineAnchor(cr, tenant, ts))) != []
  {
    hide Numbered, Unnumbered, TenantRows, AnchorIssues, BaselineAnchor;
    FirstOfTwo(r1, r2);
    var s1 := r1.(sequence := Some(1));
    var ts := [s1, r2];
    TwoOfTenant(s1, r2);
    assert ts[1] in ts && ts[0] in ts;
    ApartIsDistinct(ts);
    BaselineAgrees(cr, tenant, ts, ts);
    assert Latest(ts) == r2 by {
      assert ts[..1] == [s1];
    }
  }

  // An event appended between two such backfills takes the number that the second row
  // was due: the honest chain then reads as tampered with, whatever the anchor.
  lemma AppendBetweenBackfills(cr: Crypto, tenant: string, r1: Row, r2: Row, e: Event, at: Attempt,
                               ordered: seq<Row>, anchor: Option<Anchor>)
    requires r1.tenant == tenant == r2.tenant && r1.sequence.None? && r2.sequence.None?
    requires Chained(cr, [r1, r2]) && r1.hash != r2.hash
    requires r1.id != r2.id && at.id != r1.id && at.id != r2.id
    ensures 1 <= |Unnumbered([r1, r2])|
    ensures var part := Numbered([r1, r2], 1);
            var r3 := NewRow(cr, Store(part, map[]), tenant, e, at);
            && Chained(cr, [r1, r2, r3])
            && 1 <= |Unnumbered(part + [r3])|
            && (WalkOf(ordered, TenantRows(Numbered(part + [r3], 1), tenant)) ==>
                  !Verify(cr, tenant, ordered, anchor).chainIntact)
  {
    hide Numbered, Unnumbered, NewRow, TenantRows, Chained, Verify, WalkOf;
    FirstOfTwo(r1, r2);
    var s1, s2 := r1.(sequence := Some(1)), r2.(sequence := Some(3));
    var r3 := NewRow(cr, Store([s1, r2], map[]), tenant, e, at);
    NextAfterPart(cr, s1, r2, e, at);
    ThreeChained(cr, r1, r2, r3);
    SecondBackfill(s1, r2, r3);
    ThreeOfTenant(s1, s2, r3);
    if WalkOf(ordered, [s1, s2, r3]) {
      OutOfOrder(cr, s1, s2, r3, ordered, anchor);
    }
  }

  lemma NextAfterPart(cr: Crypto, s1: Row, r2: Row, e: Event, at: Attempt)
    requires s1.tenant == r2.tenant && s1.sequence == Some(1) && r2.sequence.None?
    ensures var r3 := NewRow(cr, Store([s1, r2], map[]), s1.tenant, e, at);
            && r3.tenant == s1.tenant && r3.id == at.id && r3.sequence == Some(2)
            && r3.previousHash == r2.hash && r3.hash == ComputeHash(cr, r2.hash, r3.event, r3.createdAt)
  {
    TwoOfTenant(s1, r2);
    var part := [s1, r2];
    assert part[..1] == [s1] && [s1][..0] == [];
    assert Latest(part) == r2;
    assert MaxSequence([s1]) == 1;
    assert MaxSequence(part) == 1;
  }

  // The walk takes the third entry second and misses its predecessor.
  lemma OutOfOrder(cr: Crypto, s1: Row, s2: Row, r3: Row, ordered: seq<Row>, anchor: Option<Anchor>)
    requires s1.sequence == Some(1) && s2.sequence == Some(3) && r3.sequence == Some(2)
    requires s1.id != s2.id && r3.id != s1.id && r3.id != s2.id
    requires r3.previousHash != s1.hash && WalkOf(ordered, [s1, s2, r3])
    ensures !Verify(cr, s1.tenant, ordered, anchor).chainIntact
  {
    hide WalkIssues, AnchorIssues;
    var walk := [s1, r3, s2];
    ApartIsDistinct(walk);
    OneWalk(ordered, walk, walk);
    assert !Links(cr, walk, 1);
    NoIssueMeansChained(cr, walk);
  }

  lemma TwoOfTenant(a: Row, b: Row)
    requires a.tenant == b.tenant
    ensures TenantRows([a, b], a.tenant) == [a, b]
  {
    assert [a, b][..1] == [a] && [a][..0] == [];
    assert TenantRows([a], a.tenant) == [a];
  }

  lemma ThreeOfTenant(a: Row, b: Row, c: Row)
    requires a.tenant == b.tenant == c.tenant
    ensures TenantRows([a, b, c], a.tenant) == [a, b, c]
  {
    TwoOfTenant(a, b);
    assert [a, b, c][..2] == [a, b];
  }

  lemma ThreeChained(cr: Crypto, r1: Row, r2: Row, r3: Row)
    requires Chained(cr, [r1, r2])
    requires r3.previousHash == r2.hash && r3.hash == ComputeHash(cr, r2.hash, r3.event, r3.createdAt)
    ensures Chained(cr, [r1, r2, r3])
  {
    assert [r1, r2, r3][..2] == [r1, r2];
    ChainedPrefix(cr, [r1, r2, r3]);
  }

  lemma SecondBackfill(s1: Row, r2: Row, r3: Row)
    requires s1.tenant == r2.tenant == r3.tenant
    requires s1.sequence == Some(1) && r2.sequence.None? && r3.sequence == Some(2)
    ensures Unnumbered([s1, r2] + [r3]) == [1]
    ensures Numbered([s1, r2] + [r3], 1) == [s1, r2.(sequence := Some(3)), r3]
  {
    hide Numbered;
    var t, tenant := [s1, r2] + [r3], s1.tenant;
    assert t == [s1, r2, r3];
    assert t[..2] == [s1, r2] && [s1, r2][..1] == [s1] && [s1][..0] == [];
    assert Unnumbered([s1]) == [];
    assert Unnumbered([s1, r2]) == [1];
    assert TenantMax([s1], tenant) == 1;
    assert TenantMax([s1, r2], tenant) == 1;
    FirstIsNumbered(t);
  }

  // ------------------------------------------------------- appends to any store

  // The number of entries the tenant's anchor counts, zero without one.
  function Counted(s: Store, tenant: string): nat {
    if tenant in s.anchors then s.anchors[tenant].entryCount else 0
  }

  ghost predicate AllNumbered(ts: seq<Row>) {
    forall r :: r in ts ==> r.sequence.Some?
  }

  lemma {:induction false} MaxIsAbove(ts: seq<Row>)
    ensures forall r :: r in ts && r.sequence.Some? ==> r.sequence.value <= MaxSequence(ts)
  {
    if ts != [] {
      MaxIsAbove(ts[..|ts| - 1]);
      assert forall r :: r in ts <==> r in ts[..|ts| - 1] || r == ts[|ts| - 1];
    }
  }

  lemma AppendedRows(cr: Crypto, s: Store, tenant: string, e: Event, at: Attempt)
    ensures TenantRows(Appended(cr, s, tenant, e, at).rows, tenant) == TenantRows(s.rows, tenant) + [NewRow(cr, s, tenant, e, at)]
    ensures forall other :: other != tenant ==> TenantRows(Appended(cr, s, tenant, e, at).rows, other) == TenantRows(s.rows, other)
  {
    assert Appended(cr, s, tenant, e, at).rows[..|s.rows|] == s.rows;
  }

  lemma {:induction false} DistinctOnes(ts: seq<Row>, row: Row)
    requires IdsApart(ts + [row])
    ensures IdsApart(ts) && DistinctIds(ts) && DistinctIds(ts + [row])
  {
    var all := ts + [row];
    forall i, j | 0 <= i < j < |ts| ensures ts[i].id != ts[j].id {
      assert all[i].id != all[j].id;
    }
    ApartIsDistinct(ts);
    ApartIsDistinct(all);
  }

  lemma RowComesLast(ts: seq<Row>, walk: seq<Row>, row: Row)
    requires WalkOf(walk, ts) && AllNumbered(ts) && row.sequence == Some(MaxSequence(ts) + 1)
    ensures WalkOf(walk + [row], ts + [row])
  {
    hide MaxSequence;
    MaxIsAbove(ts);
    SameMembers(walk, ts);
    var all := walk + [row];
    forall i, j | 0 <= i < j < |all| ensures NoLater(all[i], all[j]) {
      if j == |walk| {
        assert walk[i] in ts;
      }
    }
  }

  // With every row numbered the new row comes last and builds on the last before it.
  lemma WalkGrows(cr: Crypto, s: Store, tenant: string, e: Event, at: Attempt, walk: seq<Row>)
    requires WalkOf(walk, TenantRows(s.rows, tenant)) && AllNumbered(TenantRows(s.rows, tenant))
    requires DistinctIds(TenantRows(s.rows, tenant))
    ensures var row := NewRow(cr, s, tenant, e, at);
            && WalkOf(walk + [row], TenantRows(s.rows, tenant) + [row])
            && (Chained(cr, walk + [row]) <==> Chained(cr, walk))
  {
    hide Latest, MaxSequence, TenantRows, WalkOf, AllNumbered, Chained;
    var ts, row := TenantRows(s.rows, tenant), NewRow(cr, s, tenant, e, at);
    RowComesLast(ts, walk, row);
    LastBefore(ts, walk);
    assert (walk + [row])[..|walk|] == walk;
    ChainedPrefix(cr, walk + [row]);
  }

  lemma LastBefore(ts: seq<Row>, walk: seq<Row>)
    requires WalkOf(walk, ts) && DistinctIds(ts)
    ensures HashBefore(walk, |walk|) == if ts == [] then "" else Latest(ts).hash
  {
    hide Latest;
    SameMembers(walk, ts);
    if ts != [] {
      WalkEndsAtLatest(walk, ts);
    }
  }

  // With a row left unnumbered the walk ends at one, not at the new row.
  lemma {:induction false} UnnumberedComesLast(ts: seq<Row>, row: Row, walk: seq<Row>)
    requires WalkOf(walk, ts + [row]) && row.sequence.Some? && !AllNumbered(ts) && DistinctIds(ts + [row])
    ensures ts != [] && HashBefore(walk, |walk|) == Latest(ts).hash
  {
    var all := ts + [row];
    WalkEndsAtLatest(walk, all);
    LatestIsLast(all);
    var r :| r in ts && r.sequence.None?;
    assert r in all;
    assert all[..|ts|] == ts;
  }

  // Whatever the store: after an append the tenant verifies if and only if every row was
  // numbered, the rows formed a chain and the anchor counted them all. (Where a row is not
  // numbered, the new one is taken not to hash to the very hash it builds on.)
  lemma {:induction false} AppendVerifies(cr: Crypto, s: Store, tenant: string, e: Event, at: Attempt, before: seq<Row>, after: seq<Row>)
    requires var ts, row := TenantRows(s.rows, tenant), NewRow(cr, s, tenant, e, at);
             && WalkOf(before, ts) && WalkOf(after, ts + [row]) && IdsApart(ts + [row])
             && (AllNumbered(ts) || row.hash != row.previousHash)
    ensures var s' := Appended(cr, s, tenant, e, at);
            && WalkOf(after, TenantRows(s'.rows, tenant)) && tenant in s'.anchors
            && (Verify(cr, tenant, after, Some(s'.anchors[tenant])).chainIntact <==>
                && AllNumbered(TenantRows(s.rows, tenant)) && Chained(cr, before)
                && Counted(s, tenant) == |TenantRows(s.rows, tenant)|)
  {
    hide TenantRows, Latest, MaxSequence, WalkIssues, LastSequence, Chained, WalkOf, AllNumbered;
    var ts, row := TenantRows(s.rows, tenant), NewRow(cr, s, tenant, e, at);
    AppendedRows(cr, s, tenant, e, at);
    DistinctOnes(ts, row);
    NoIssueMeansChained(cr, after);
    if AllNumbered(ts) {
      WalkGrows(cr, s, tenant, e, at, before);
      WalksAgree(after, before + [row], ts + [row]);
      EndsWith(before, row, ts);
    } else {
      UnnumberedComesLast(ts, row, after);
    }
  }

  lemma WalksAgree(a: seq<Row>, b: seq<Row>, ts: seq<Row>)
    requires WalkOf(a, ts) && WalkOf(b, ts) && DistinctIds(ts)
    ensures a == b
  {
    SameMembers(b, ts);
    OneWalk(a, b, ts);
  }

  lemma EndsWith(walk: seq<Row>, row: Row, ts: seq<Row>)
    requires WalkOf(walk, ts) && row.sequence.Some? && row.sequence.value > 0
    ensures HashBefore(walk + [row], |walk + [row]|) == row.hash && LastSequence(walk + [row]) == row.sequence.value
    ensures |walk| == |ts|
  {
    SameMembers(walk, ts);
  }

  // If startup could not anchor a tenant, its first append leaves an anchor that counts
  // one entry, which the verifier rejects.
  lemma UnanchoredAppendIsRejected(cr: Crypto, s: Store, tenant: string, e: Event, at: Attempt, before: seq<Row>, after: seq<Row>)
    requires var ts, row := TenantRows(s.rows, tenant), NewRow(cr, s, tenant, e, at);
             && WalkOf(before, ts) && WalkOf(after, ts + [row]) && IdsApart(ts + [row])
             && (AllNumbered(ts) || row.hash != row.previousHash)
    requires TenantRows(s.rows, tenant) != [] && tenant !in s.anchors
    ensures var s' := Appended(cr, s, tenant, e, at);
            tenant in s'.anchors && !Verify(cr, tenant, after, Some(s'.anchors[tenant])).chainIntact
  {
    hide TenantRows, WalkOf, Verify, NewRow;
    AppendVerifies(cr, s, tenant, e, at, before, after);
  }

  // ----------------------------------------------------- appends after startup

  // The walk of the tenant's rows is one chain, fully numbered, and the anchor is its own.
  ghost predicate Sound(cr: Crypto, s: Store, tenant: string, walk: seq<Row>) {
    var ts := TenantRows(s.rows, tenant);
    && WalkOf(walk, ts) && AllNumbered(ts) && Chained(cr, walk)
    && (tenant in s.anchors <==> ts != [])
    && (tenant in s.anchors ==> s.anchors[tenant].entryCount == |ts| && AnchorIssues(cr, tenant, walk, Some(s.anchors[tenant])) == [])
  }

  ghost function RunFrom(cr: Crypto, s: Store, appends: seq<Append>): Store {
    if appends == [] then s
    else
      var last := appends[|appends| - 1];
      AfterAppend(cr, RunFrom(cr, s, appends[..|appends| - 1]), last.tenant, last.event, last.tries)
  }

  lemma {:induction false} AppendKeepsSound(cr: Crypto, s: Store, tenant: string, e: Event, at: Attempt, walk: seq<Row>)
    requires Sound(cr, s, tenant, walk) && IdsApart(TenantRows(Appended(cr, s, tenant, e, at).rows, tenant))
    ensures Sound(cr, Appended(cr, s, tenant, e, at), tenant, walk + [NewRow(cr, s, tenant, e, at)])
  {
    hide TenantRows, Latest, MaxSequence, LastSequence, Chained, WalkOf;
    var ts, row := TenantRows(s.rows, tenant), NewRow(cr, s, tenant, e, at);
    AppendedRows(cr, s, tenant, e, at);
    DistinctOnes(ts, row);
    WalkGrows(cr, s, tenant, e, at, walk);
    EndsWith(walk, row, ts);
  }

  lemma {:induction false} RunsKeepSound(cr: Crypto, s: Store, tenant: string, walk: seq<Row>, appends: seq<Append>)
    returns (after: seq<Row>)
    requires Sound(cr, s, tenant, walk) && IdsApart(TenantRows(RunFrom(cr, s, appends).rows, tenant))
    ensures Sound(cr, RunFrom(cr, s, appends), tenant, after)
  {
    hide TenantRows, Appended, Sound, NewRow;
    if appends == [] {
      after := walk;
    } else {
      var last, init := appends[|appends| - 1], appends[..|appends| - 1];
      var before := RunFrom(cr, s, init);
      var done := FirstSuccess(last.tries);
      if last.tenant == "" || last.event.eventType == "" || last.event.actorId == "" || done.None? {
        after := RunsKeepSound(cr, s, tenant, walk, init);
      } else {
        AppendedRows(cr, before, last.tenant, last.event, done.value);
        if last.tenant == tenant {
          DistinctOnes(TenantRows(before.rows, tenant), NewRow(cr, before, tenant, last.event, done.value));
          after := RunsKeepSound(cr, s, tenant, walk, init);
          AppendKeepsSound(cr, before, tenant, last.event, done.value, after);
          after := after + [NewRow(cr, before, tenant, last.event, done.value)];
        } else {
          after := RunsKeepSound(cr, s, tenant, walk, init);
          AppendElsewhereKeepsSound(cr, before, last.tenant, last.event, done.value, tenant, after);
        }
      }
    }
  }

  lemma AppendElsewhereKeepsSound(cr: Crypto, s: Store, tenant: string, e: Event, at: Attempt, other: string, walk: seq<Row>)
    requires other != tenant && Sound(cr, s, other, walk)
    ensures Sound(cr, Appended(cr, s, tenant, e, at), other, walk)
  {
    hide TenantRows, Chained, WalkOf;
    AppendedRows(cr, s, tenant, e, at);
  }

  lemma SoundVerifies(cr: Crypto, s: Store, tenant: string, walk: seq<Row>, ordered: seq<Row>)
    requires Sound(cr, s, tenant, walk) && WalkOf(ordered, TenantRows(s.rows, tenant)) && IdsApart(TenantRows(s.rows, tenant))
    ensures Verify(cr, tenant, ordered, if tenant in s.anchors then Some(s.anchors[tenant]) else None).chainIntact
  {
    hide TenantRows, Chained, WalkOf, WalkIssues;
    ApartIsDistinct(TenantRows(s.rows, tenant));
    WalksAgree(ordered, walk, TenantRows(s.rows, tenant));
    NoIssueMeansChained(cr, ordered);
  }

  // A tenant that startup found in one chain verifies from then on: after any appends by
  // any tenants its rows and its anchor still agree.
  lemma {:induction false} FromStartupOn(cr: Crypto, rows: seq<Row>, tenant: string, numbered: seq<Row>, s: Store,
                                         appends: seq<Append>, ordered: seq<Row>)
    requires TenantRows(rows, tenant) != [] && IdsApart(TenantRows(rows, tenant))
    requires WalkOf(numbered, Stamped(TenantRows(rows, tenant))) && Chained(cr, numbered + Late(TenantRows(rows, tenant)))
    requires s.rows == Numbered(rows, |Unnumbered(rows)|) && Backfilled(rows, tenant) != []
    requires tenant in s.anchors && s.anchors[tenant] == BaselineAnchor(cr, tenant, Backfilled(rows, tenant))
    requires var end := RunFrom(cr, s, appends);
             IdsApart(TenantRows(end.rows, tenant)) && WalkOf(ordered, TenantRows(end.rows, tenant))
    ensures var end := RunFrom(cr, s, appends);
            && tenant in end.anchors
            && Verify(cr, tenant, ordered, Some(end.anchors[tenant])).chainIntact
  {
    hide TenantRows, Numbered, Unnumbered, Stamped, Late, Chained, WalkOf, RunFrom, IdsApart, AllNumbered;
    var walk := StartupIsSound(cr, rows, tenant, numbered, s);
    var after := RunsKeepSound(cr, s, tenant, walk, appends);
    AnchorRemains(cr, s, appends, tenant);
    SoundVerifies(cr, RunFrom(cr, s, appends), tenant, after, ordered);
  }

  lemma {:induction false} AnchorRemains(cr: Crypto, s: Store, appends: seq<Append>, tenant: string)
    requires tenant in s.anchors
    ensures tenant in RunFrom(cr, s, appends).anchors
  {
    hide NewRow;
    if appends != [] {
      AnchorRemains(cr, s, appends[..|appends| - 1], tenant);
    }
  }

  lemma {:induction false} StartupIsSound(cr: Crypto, rows: seq<Row>, tenant: string, numbered: seq<Row>, s: Store)
    returns (walk: seq<Row>)
    requires TenantRows(rows, tenant) != [] && IdsApart(TenantRows(rows, tenant))
    requires WalkOf(numbered, Stamped(TenantRows(rows, tenant))) && Chained(cr, numbered + Late(TenantRows(rows, tenant)))
    requires s.rows == Numbered(rows, |Unnumbered(rows)|) && Backfilled(rows, tenant) != []
    requires tenant in s.anchors && s.anchors[tenant] == BaselineAnchor(cr, tenant, Backfilled(rows, tenant))
    ensures Sound(cr, s, tenant, walk)
  {
    hide TenantRows, Numbered, Unnumbered, TenantMax, Fill, Stamped, Late, LateNumbered, Missing, Chained, Latest, AnchorIssues, WalkOf;
    var ts, top, filled := TenantRows(rows, tenant), TenantMax(rows, tenant), Backfilled(rows, tenant);
    BackfillByTenant(rows, tenant);
    FillRows(ts, top);
    ApartIsDistinct(filled);
    TenantTop(rows, tenant);
    FilledWalk(ts, top, numbered);
    walk := numbered + LateNumbered(ts, top);
    LateRows(ts, top);
    ChainedIgnoresSequences(cr, walk, numbered + Late(ts));
    FullBaselineAgrees(cr, tenant, filled, walk);
  }
}
