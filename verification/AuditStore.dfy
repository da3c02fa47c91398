/** The audit table and its head anchors: appends under the tenant lock and the startup anchoring of older tenants. */
module AuditStore {
  import opened Prelude
  import opened AuditChain

  const CHAIN_RETRY_ATTEMPTS: nat := 5

  // Rows in order of insertion, and one anchor per tenant.
  datatype Store = Store(rows: seq<Row>, anchors: map<string, Anchor>)

  const EMPTY := Store([], map[])

  // ---------------------------------------------------------------- queries

  function TenantRows(rows: seq<Row>, tenant: string): seq<Row> {
    if rows == [] then []
    else
      var init, row := TenantRows(rows[..|rows| - 1], tenant), rows[|rows| - 1];
      if row.tenant == tenant then init + [row] else init
  }

  // a sorts no later than b by (sequence, created_at, id); a missing sequence sorts last.
  predicate NoLater(a: Row, b: Row) {
    if a.sequence != b.sequence then a.sequence.Some? && (b.sequence.None? || a.sequence.value < b.sequence.value)
    else if a.createdAt != b.createdAt then a.createdAt < b.createdAt
    else a.id <= b.id
  }

  ghost predicate Ordered(rows: seq<Row>) {
    forall i, j :: 0 <= i < j < |rows| ==> NoLater(rows[i], rows[j])
  }

  // A possible answer of the ordered query for the tenant's rows.
  ghost predicate WalkOf(ordered: seq<Row>, tenantRows: seq<Row>) {
    multiset(ordered) == multiset(tenantRows) && Ordered(ordered)
  }

  // The first row of the tenant in descending order.
  function Latest(tenantRows: seq<Row>): Row
    requires tenantRows != []
  {
    var n := |tenantRows| - 1;
    if n == 0 then tenantRows[0]
    else if NoLater(Latest(tenantRows[..n]), tenantRows[n]) then tenantRows[n] else Latest(tenantRows[..n])
  }

  function MaxSequence(tenantRows: seq<Row>): nat {
    if tenantRows == [] then 0
    else
      var before, row := MaxSequence(tenantRows[..|tenantRows| - 1]), tenantRows[|tenantRows| - 1];
      if row.sequence.Some? && row.sequence.value > before then row.sequence.value else before
  }

  // ---------------------------------------------------------------- appends

  // One try: the clock and the id it draws, and whether the commit meets a
  // conflicting writer and rolls back.
  datatype Attempt = Attempt(now: int, id: int, conflict: bool)

  function NewRow(cr: Crypto, s: Store, tenant: string, e: Event, at: Attempt): Row {
    var ts := TenantRows(s.rows, tenant);
    var previous := if ts == [] then "" else Latest(ts).hash;
    Row(at.id, tenant, e, at.now, ComputeHash(cr, previous, e, at.now), previous, Some(MaxSequence(ts) + 1))
  }

  function NewAnchor(cr: Crypto, s: Store, tenant: string, row: Row): Anchor
    requires row.sequence.Some?
  {
    var count := (if tenant in s.anchors then s.anchors[tenant].entryCount else 0) + 1;
    Anchor(row.hash, row.sequence.value, count, SignAnchor(cr, tenant, row.hash, row.sequence.value, count))
  }

  function Appended(cr: Crypto, s: Store, tenant: string, e: Event, at: Attempt): Store {
    var row := NewRow(cr, s, tenant, e, at);
    Store(s.rows + [row], s.anchors[tenant := NewAnchor(cr, s, tenant, row)])
  }

  // The first try that meets no conflict, among the ones allowed.
  function FirstSuccess(tries: seq<Attempt>): Option<Attempt> {
    if tries == [] then None
    else if tries[0].conflict then FirstSuccess(tries[1..])
    else Some(tries[0])
  }

  // A request lacking a required field changes nothing, nor does one whose tries all roll back.
  function AfterAppend(cr: Crypto, s: Store, tenant: string, e: Event, tries: seq<Attempt>): Store {
    var done := FirstSuccess(tries);
    if tenant == "" || e.eventType == "" || e.actorId == "" || done.None? then s
    else Appended(cr, s, tenant, e, done.value)
  }

  // The baseline anchor for a tenant that has rows but no anchor.
  function BaselineAnchor(cr: Crypto, tenant: string, ts: seq<Row>): Anchor
    requires ts != []
  {
    var head := Latest(ts);
    var sequence := if head.sequence.Some? then head.sequence.value else 0;
    Anchor(head.hash, sequence, |ts|, SignAnchor(cr, tenant, head.hash, sequence, |ts|))
  }

  class AuditLogTable {
    const cr: Crypto
    var rows: seq<Row>
    var anchors: map<string, Anchor>

    ghost function State(): Store
      reads this
    {
      Store(rows, anchors)
    }

    constructor (cr: Crypto)
      ensures this.cr == cr && State() == EMPTY
    {
      this.cr := cr;
      rows, anchors := [], map[];
    }

    // One transaction under the tenant lock; a conflict rolls everything back.
    method CreateAuditLogOnce(tenant: string, e: Event, at: Attempt) returns (ok: bool)
      modifies this
      ensures ok == !at.conflict
      ensures State() == if ok then Appended(cr, old(State()), tenant, e, at) else old(State())
    {
      if at.conflict {
        return false;
      }
      var ts := TenantRows(rows, tenant);
      var previous := "";
      if ts != [] {
        previous := Latest(ts).hash;
      }
      var sequence := MaxSequence(ts) + 1;
      var hash := ComputeHash(cr, previous, e, at.now);
      var count := 0;
      if tenant in anchors {
        count := anchors[tenant].entryCount;
      }
      rows := rows + [Row(at.id, tenant, e, at.now, hash, previous, Some(sequence))];
      anchors := anchors[tenant := Anchor(hash, sequence, count + 1, SignAnchor(cr, tenant, hash, sequence, count + 1))];
      return true;
    }

    method CreateAuditLog(tenant: string, e: Event, tries: seq<Attempt>) returns (ok: bool)
      requires |tries| == CHAIN_RETRY_ATTEMPTS
      modifies this
      ensures State() == AfterAppend(cr, old(State()), tenant, e, tries)
      ensures ok <==> tenant != "" && e.eventType != "" && e.actorId != "" && FirstSuccess(tries).Some?
    {
      if tenant == "" || e.eventType == "" || e.actorId == "" {
        return false;
      }
      for i := 0 to |tries|
        invariant State() == old(State())
        invariant FirstSuccess(tries) == FirstSuccess(tries[i..])
      {
        var done := CreateAuditLogOnce(tenant, e, tries[i]);
        if done {
          return true;
        }
      }
      return false;
    }

    // Startup: the tenants with rows but no anchor, as the query lists them, get a baseline.
    method SyncChainAnchors(tenants: seq<string>) returns (created: nat)
      requires NoDuplicates(tenants)
      requires forall t :: t in tenants <==> TenantRows(rows, t) != [] && t !in anchors
      modifies this`anchors
      ensures created == |tenants|
      ensures forall t :: t in anchors <==> t in old(anchors) || TenantRows(rows, t) != []
      ensures forall t :: t in anchors ==>
                anchors[t] == if t in old(anchors) then old(anchors)[t] else BaselineAnchor(cr, t, TenantRows(rows, t))
    {
      created := 0;
      for i := 0 to |tenants|
        invariant created == i
        invariant forall t :: t in anchors <==> t in old(anchors) || t in tenants[..i]
        invariant forall t :: t in anchors ==>
                    anchors[t] == if t in old(anchors) then old(anchors)[t] else BaselineAnchor(cr, t, TenantRows(rows, t))
      {
        var tenant := tenants[i];
        assert tenants[..i + 1] == tenants[..i] + [tenant];
        assert tenant in tenants;
        anchors := anchors[tenant := BaselineAnchor(cr, tenant, TenantRows(rows, tenant))];
        created := created + 1;
      }
      assert tenants[..|tenants|] == tenants;
    }
  }

  // ------------------------------------------------------------- invariants

  // Sequences are exactly 1..n in order of insertion.
  ghost predicate Sequenced(ts: seq<Row>) {
    forall i :: 0 <= i < |ts| ==> ts[i].sequence == Some(i + 1)
  }

  ghost predicate AnchorFits(cr: Crypto, tenant: string, ts: seq<Row>, a: Anchor) {
    && a.headHash == HashBefore(ts, |ts|) && a.lastSequence == |ts| && a.entryCount == |ts|
    && a.signature == SignAnchor(cr, tenant, a.headHash, a.lastSequence, a.entryCount)
  }

  ghost predicate TenantInv(cr: Crypto, s: Store, tenant: string) {
    var ts := TenantRows(s.rows, tenant);
    && Sequenced(ts) && Chained(cr, ts)
    && (tenant in s.anchors <==> ts != [])
    && (tenant in s.anchors ==> AnchorFits(cr, tenant, ts, s.anchors[tenant]))
  }

  ghost predicate Inv(cr: Crypto, s: Store) {
    forall tenant :: TenantInv(cr, s, tenant)
  }

  lemma {:induction false} SequencedLatest(ts: seq<Row>)
    requires Sequenced(ts) && ts != []
    ensures Latest(ts) == ts[|ts| - 1]
  {
    if |ts| > 1 {
      SequencedLatest(ts[..|ts| - 1]);
    }
  }

  lemma {:induction false} SequencedMax(ts: seq<Row>)
    requires Sequenced(ts)
    ensures MaxSequence(ts) == |ts| == LastSequence(ts)
  {
    if ts != [] {
      SequencedMax(ts[..|ts| - 1]);
    }
  }

  lemma AppendToTenant(cr: Crypto, s: Store, tenant: string, e: Event, at: Attempt)
    requires TenantInv(cr, s, tenant)
    ensures TenantInv(cr, Appended(cr, s, tenant, e, at), tenant)
  {
    var ts, row := TenantRows(s.rows, tenant), NewRow(cr, s, tenant, e, at);
    var now := ts + [row];
    assert (s.rows + [row])[..|s.rows|] == s.rows;
    assert TenantRows(s.rows + [row], tenant) == now;
    if ts != [] {
      SequencedLatest(ts);
    }
    SequencedMax(ts);
    assert now[..|ts|] == ts;
    assert row == now[|ts|] && Links(cr, now, |ts|);
    ChainedPrefix(cr, now);
  }

  lemma AppendElsewhere(cr: Crypto, s: Store, tenant: string, e: Event, at: Attempt, other: string)
    requires other != tenant && TenantInv(cr, s, other)
    ensures TenantInv(cr, Appended(cr, s, tenant, e, at), other)
  {
    var row := NewRow(cr, s, tenant, e, at);
    assert (s.rows + [row])[..|s.rows|] == s.rows;
  }

  lemma AppendKeepsInv(cr: Crypto, s: Store, tenant: string, e: Event, tries: seq<Attempt>)
    requires Inv(cr, s)
    ensures Inv(cr, AfterAppend(cr, s, tenant, e, tries))
  {
    if FirstSuccess(tries).Some? {
      var at := FirstSuccess(tries).value;
      forall other ensures TenantInv(cr, Appended(cr, s, tenant, e, at), other) {
        if other == tenant {
          AppendToTenant(cr, s, tenant, e, at);
        } else {
          AppendElsewhere(cr, s, tenant, e, at, other);
        }
      }
    }
  }

  // ------------------------------------------------------------------- runs

  datatype Append = Append(tenant: string, event: Event, tries: seq<Attempt>)

  ghost function Run(cr: Crypto, appends: seq<Append>): Store {
    if appends == [] then EMPTY
    else
      var last := appends[|appends| - 1];
      AfterAppend(cr, Run(cr, appends[..|appends| - 1]), last.tenant, last.event, last.tries)
  }

  lemma {:induction false} RunsKeepInv(cr: Crypto, appends: seq<Append>)
    ensures Inv(cr, Run(cr, appends))
  {
    if appends != [] {
      var last := appends[|appends| - 1];
      RunsKeepInv(cr, appends[..|appends| - 1]);
      AppendKeepsInv(cr, Run(cr, appends[..|appends| - 1]), last.tenant, last.event, last.tries);
    }
  }

  // What a run of appends is asked to store for a tenant: of each request with its required
  // fields, the event at the time and id of the first try that is not rolled back.
  ghost function Wanted(appends: seq<Append>, tenant: string): seq<(Event, int, int)> {
    if appends == [] then []
    else
      var before, a := Wanted(appends[..|appends| - 1], tenant), appends[|appends| - 1];
      if a.tenant == tenant && tenant != "" && a.event.eventType != "" && a.event.actorId != "" && FirstGood(a.tries) < |a.tries|
      then before + [(a.event, a.tries[FirstGood(a.tries)].now, a.tries[FirstGood(a.tries)].id)] else before
  }

  function FirstGood(tries: seq<Attempt>): (k: nat)
    ensures k <= |tries| && (k < |tries| ==> !tries[k].conflict)
    ensures forall j :: 0 <= j < k ==> tries[j].conflict
  {
    if tries == [] || !tries[0].conflict then 0 else 1 + FirstGood(tries[1..])
  }

  lemma {:induction false} SuccessIsFirstGood(tries: seq<Attempt>)
    ensures FirstSuccess(tries) == if FirstGood(tries) < |tries| then Some(tries[FirstGood(tries)]) else None
  {
    if tries != [] && tries[0].conflict {
      SuccessIsFirstGood(tries[1..]);
    }
  }

  ghost predicate Holds(rows: seq<Row>, wanted: seq<(Event, int, int)>) {
    && |rows| == |wanted|
    && forall i :: 0 <= i < |rows| ==> (rows[i].event, rows[i].createdAt, rows[i].id) == wanted[i]
  }

  // Nothing is lost, altered or stored twice: a tenant's rows are what its appends wanted, in order.
  lemma {:induction false} RunsStoreWhatWasWanted(cr: Crypto, appends: seq<Append>, tenant: string)
    ensures Holds(TenantRows(Run(cr, appends).rows, tenant), Wanted(appends, tenant))
  {
    hide ComputeHash, Latest, MaxSequence;
    if appends != [] {
      var init, a := appends[..|appends| - 1], appends[|appends| - 1];
      RunsStoreWhatWasWanted(cr, init, tenant);
      SuccessIsFirstGood(a.tries);
      var s := Run(cr, init);
      var done := FirstSuccess(a.tries);
      if a.tenant != "" && a.event.eventType != "" && a.event.actorId != "" && done.Some? {
        assert Appended(cr, s, a.tenant, a.event, done.value).rows[..|s.rows|] == s.rows;
      }
    }
  }

  // Rows numbered 1..n have only one ordered listing.
  lemma {:induction false} WalkIsInsertionOrder(ordered: seq<Row>, ts: seq<Row>)
    requires Sequenced(ts) && WalkOf(ordered, ts)
    ensures ordered == ts
  {
    assert |multiset(ordered)| == |ordered| && |multiset(ts)| == |ts|;
    if ts != [] {
      var n := |ts| - 1;
      LastOfWalk(ordered, ts);
      WithoutLast(ordered);
      WithoutLast(ts);
      WalkIsInsertionOrder(ordered[..n], ts[..n]);
    }
  }

  lemma WithoutLast(rows: seq<Row>)
    requires rows != []
    ensures multiset(rows[..|rows| - 1]) == multiset(rows) - multiset{rows[|rows| - 1]}
    ensures rows == rows[..|rows| - 1] + [rows[|rows| - 1]]
  {
    assert rows == rows[..|rows| - 1] + [rows[|rows| - 1]];
  }

  lemma LastOfWalk(ordered: seq<Row>, ts: seq<Row>)
    requires Sequenced(ts) && ts != [] && WalkOf(ordered, ts) && |ordered| == |ts|
    ensures ordered[|ts| - 1] == ts[|ts| - 1]
  {
    var n := |ts| - 1;
    var o := ordered[n];
    assert o in multiset(ordered) && o in multiset(ts);
    var i :| 0 <= i < |ts| && ts[i] == o;
    assert ts[n] in multiset(ts) && ts[n] in multiset(ordered);
    var j :| 0 <= j < |ordered| && ordered[j] == ts[n];
    assert j < n ==> NoLater(ordered[j], o);
  }

  // After any interleaving of appends, also with rolled-back tries, every tenant's
  // entries are numbered 1..n, its anchor says so, and verification in batches of
  // any size finds nothing wrong.
  lemma {:induction false} RunsVerifyIntact(cr: Crypto, appends: seq<Append>, tenant: string, ordered: seq<Row>)
    requires WalkOf(ordered, TenantRows(Run(cr, appends).rows, tenant))
    ensures var s := Run(cr, appends);
            var anchor := if tenant in s.anchors then Some(s.anchors[tenant]) else None;
            && Verify(cr, tenant, ordered, anchor).chainIntact
            && Verify(cr, tenant, ordered, anchor).totalEntries == |TenantRows(s.rows, tenant)|
            && Sequenced(ordered)
            && (tenant in s.anchors <==> ordered != [])
            && (tenant in s.anchors ==> AnchorFits(cr, tenant, ordered, s.anchors[tenant]))
  {
    RunsKeepInv(cr, appends);
    var s := Run(cr, appends);
    assert TenantInv(cr, s, tenant);
    WalkIsInsertionOrder(ordered, TenantRows(s.rows, tenant));
    NoIssueMeansChained(cr, ordered);
    SequencedMax(ordered);
  }

  // What an outsider leaves in place of a tenant's rows after any run is reported
  // unless it hashes the very strings that were appended.
  lemma {:induction false} RunsAreTamperEvident(cr: Crypto, appends: seq<Append>, tenant: string, rows: seq<Row>)
    requires FixedLength(cr) && tenant in Run(cr, appends).anchors
    requires Verify(cr, tenant, rows, Some(Run(cr, appends).anchors[tenant])).chainIntact
    ensures var ts := TenantRows(Run(cr, appends).rows, tenant);
            SameStrings(cr, ts, rows, 0) || Collision(cr, ts, rows)
  {
    RunsKeepInv(cr, appends);
    var s := Run(cr, appends);
    assert TenantInv(cr, s, tenant);
    TamperingIsReported(cr, tenant, TenantRows(s.rows, tenant), s.anchors[tenant], rows);
  }

  // ------------------------------------------------- anchoring older tenants

  lemma {:induction false} LatestIsLast(ts: seq<Row>)
    requires ts != []
    ensures Latest(ts) in ts && forall r :: r in ts ==> NoLater(r, Latest(ts))
  {
    var n := |ts| - 1;
    if n > 0 {
      LatestIsLast(ts[..n]);
      forall r | r in ts ensures NoLater(r, Latest(ts)) {
        assert r in ts[..n] || r == ts[n];
      }
    }
  }

  lemma SameRank(a: Row, b: Row)
    requires NoLater(a, b) && NoLater(b, a)
    ensures a.id == b.id
  {
  }

  lemma {:induction false} WalkEndsAtLatest(ordered: seq<Row>, ts: seq<Row>)
    requires ts != [] && WalkOf(ordered, ts) && DistinctIds(ts)
    ensures |ordered| == |ts| && ordered[|ts| - 1] == Latest(ts)
  {
    hide NoLater, Latest;
    SameMembers(ordered, ts);
    var n, head := |ts| - 1, Latest(ts);
    LatestIsLast(ts);
    var j :| 0 <= j < |ordered| && ordered[j] == head;
    if j < n {
      SameRank(head, ordered[n]);
    }
  }

  lemma SameMembers(a: seq<Row>, b: seq<Row>)
    requires multiset(a) == multiset(b)
    ensures |a| == |b| && forall r :: r in a <==> r in b
  {
    assert |multiset(a)| == |a| && |multiset(b)| == |b|;
    forall r ensures r in a <==> r in b {
      assert r in multiset(a) <==> r in multiset(b);
    }
  }

  // Primary keys differ.
  ghost predicate DistinctIds(ts: seq<Row>) {
    forall a, b :: a in ts && b in ts && a.id == b.id ==> a == b
  }

  lemma {:induction false} SomeSequence(rows: seq<Row>)
    ensures LastSequence(rows) == 0 <==> forall r :: r in rows ==> r.sequence.None? || r.sequence.value == 0
  {
    if rows != [] {
      var n := |rows| - 1;
      SomeSequence(rows[..n]);
      assert forall r :: r in rows <==> r in rows[..n] || r == rows[n];
    }
  }

  // Verifying against the baseline anchor raises no anchor issue exactly when the
  // head row is numbered or no row is: numbering some rows of a tenant but not its
  // head makes the baseline disagree with the walk.
  lemma {:induction false} BaselineAgrees(cr: Crypto, tenant: string, ts: seq<Row>, ordered: seq<Row>)
    requires ts != [] && WalkOf(ordered, ts) && DistinctIds(ts)
    ensures AnchorIssues(cr, tenant, ordered, Some(BaselineAnchor(cr, tenant, ts))) == []
       <==> (Latest(ts).sequence.Some? && Latest(ts).sequence.value != 0)
            || forall r :: r in ts ==> r.sequence.None? || r.sequence.value == 0
  {
    WalkEndsAtLatest(ordered, ts);
    SomeSequence(ordered);
    SameMembers(ordered, ts);
  }
}
