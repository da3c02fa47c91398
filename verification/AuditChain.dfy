/**
 The per-tenant audit hash chain: what an entry's hash covers, the signed head
 anchor, and the verifier that walks the stored rows in batches.
 */
module AuditChain {
  import opened Prelude

  // Hashing, signing, the time format and the salt come from outside.
  datatype Crypto = Crypto(sha: string -> string, sign: (string, string, int, int) -> string,
                           iso: int -> string, salt: string)

  // Missing optional fields count as empty strings.
  datatype Event = Event(eventType: string, actorId: string, action: string, resourceType: string, resourceId: string)

  // An empty previousHash stands for NULL.
  datatype Row = Row(id: int, tenant: string, event: Event, createdAt: int,
                     hash: string, previousHash: string, sequence: Option<nat>)

  datatype Anchor = Anchor(headHash: string, lastSequence: nat, entryCount: nat, signature: string)

  const HASH_LENGTH: nat := 64

  // --------------------------------------------------------------- hashing

  // The fields run together without separators.
  function Body(cr: Crypto, e: Event, createdAt: int): string {
    e.eventType + e.actorId + e.action + e.resourceType + e.resourceId + cr.iso(createdAt) + cr.salt
  }

  function Raw(cr: Crypto, previousHash: string, e: Event, createdAt: int): string {
    previousHash + Body(cr, e, createdAt)
  }

  function ComputeHash(cr: Crypto, previousHash: string, e: Event, createdAt: int): string {
    cr.sha(Raw(cr, previousHash, e, createdAt))
  }

  function SignAnchor(cr: Crypto, tenant: string, headHash: string, lastSequence: nat, entryCount: nat): string {
    cr.sign(tenant, headHash, lastSequence, entryCount)
  }

  // ------------------------------------------------- the walk, without batches

  datatype Issue =
    | PreviousMismatch(index: nat, id: int, expected: string, found: string)
    | HashMismatch(index: nat, id: int, expected: string, found: string)
    | BadSignature(found: string)
    | AnchorMismatch(expected: string, found: string)

  // The hash the entry at position k has to build on.
  function HashBefore(rows: seq<Row>, k: nat): string
    requires k <= |rows|
  {
    if k == 0 then "" else rows[k - 1].hash
  }

  function EntryIssues(cr: Crypto, row: Row, index: nat, previous: string): seq<Issue> {
    var expected := ComputeHash(cr, previous, row.event, row.createdAt);
    (if row.previousHash != previous then [PreviousMismatch(index, row.id, previous, row.previousHash)] else [])
    + (if row.hash != expected then [HashMismatch(index, row.id, expected, row.hash)] else [])
  }

  function WalkIssues(cr: Crypto, rows: seq<Row>): seq<Issue> {
    if rows == [] then []
    else
      var n := |rows| - 1;
      WalkIssues(cr, rows[..n]) + EntryIssues(cr, rows[n], n, HashBefore(rows, n))
  }

  // A missing or zero sequence leaves the previous one standing.
  function LastSequence(rows: seq<Row>): nat {
    if rows == [] then 0
    else
      var row := rows[|rows| - 1];
      if row.sequence.Some? && row.sequence.value != 0 then row.sequence.value
      else LastSequence(rows[..|rows| - 1])
  }

  function AnchorIssues(cr: Crypto, tenant: string, rows: seq<Row>, anchor: Option<Anchor>): seq<Issue> {
    if anchor.None? then []
    else
      var a := anchor.value;
      if SignAnchor(cr, tenant, a.headHash, a.lastSequence, a.entryCount) != a.signature then [BadSignature(a.signature)]
      else if a.entryCount != |rows| || a.headHash != HashBefore(rows, |rows|) || a.lastSequence != LastSequence(rows)
      then [AnchorMismatch(a.headHash, HashBefore(rows, |rows|))]
      else []
  }

  datatype Report = Report(totalEntries: nat, chainIntact: bool, issues: seq<Issue>, headHash: string, headSequence: nat)

  // What verification reports on rows given in walk order.
  function Verify(cr: Crypto, tenant: string, rows: seq<Row>, anchor: Option<Anchor>): Report {
    var issues := WalkIssues(cr, rows) + AnchorIssues(cr, tenant, rows, anchor);
    Report(|rows|, issues == [], issues, HashBefore(rows, |rows|), LastSequence(rows))
  }

  // The query with offset and limit on an unchanging table.
  function Page(ordered: seq<Row>, offset: nat, limit: nat): seq<Row>
    requires offset <= |ordered|
  {
    if offset + limit <= |ordered| then ordered[offset..offset + limit] else ordered[offset..]
  }

  // What the walk carries from entry to entry.
  datatype Progress = Progress(issues: seq<Issue>, previous: string, lastSequence: nat)

  function ProgressAt(cr: Crypto, rows: seq<Row>, k: nat): Progress
    requires k <= |rows|
  {
    Progress(WalkIssues(cr, rows[..k]), HashBefore(rows, k), LastSequence(rows[..k]))
  }

  function StepEntry(cr: Crypto, at: Progress, row: Row, index: nat): Progress {
    Progress(at.issues + EntryIssues(cr, row, index, at.previous), row.hash,
             if row.sequence.Some? && row.sequence.value != 0 then row.sequence.value else at.lastSequence)
  }

  lemma NextEntry(cr: Crypto, rows: seq<Row>, k: nat)
    requires k < |rows|
    ensures ProgressAt(cr, rows, k + 1) == StepEntry(cr, ProgressAt(cr, rows, k), rows[k], k)
  {
    assert rows[..k + 1][..k] == rows[..k];
  }

  method WalkEntry(cr: Crypto, at: Progress, entry: Row, index: nat) returns (next: Progress)
    ensures next == StepEntry(cr, at, entry, index)
  {
    var issues := at.issues;
    if entry.previousHash != at.previous {
      issues := issues + [PreviousMismatch(index, entry.id, at.previous, entry.previousHash)];
    }
    var expected := ComputeHash(cr, at.previous, entry.event, entry.createdAt);
    if entry.hash != expected {
      issues := issues + [HashMismatch(index, entry.id, expected, entry.hash)];
    }
    var lastSequence := at.lastSequence;
    if entry.sequence.Some? && entry.sequence.value != 0 {
      lastSequence := entry.sequence.value;
    }
    next := Progress(issues, entry.hash, lastSequence);
  }

  method WalkBatch(cr: Crypto, ghost ordered: seq<Row>, offset: nat, batch: seq<Row>, at: Progress) returns (next: Progress)
    requires offset + |batch| <= |ordered| && batch == ordered[offset..offset + |batch|]
    requires at == ProgressAt(cr, ordered, offset)
    ensures next == ProgressAt(cr, ordered, offset + |batch|)
  {
    hide ProgressAt, StepEntry;
    next := at;
    for k := 0 to |batch|
      invariant next == ProgressAt(cr, ordered, offset + k)
    {
      NextEntry(cr, ordered, offset + k);
      next := WalkEntry(cr, next, batch[k], offset + k);
    }
  }

  method WalkAll(cr: Crypto, ordered: seq<Row>, batchSize: nat) returns (at: Progress, total: nat)
    ensures total == if batchSize == 0 then 0 else |ordered|
    ensures at == ProgressAt(cr, ordered, total)
  {
    at, total := Progress([], "", 0), 0;
    while true
      invariant total <= |ordered| && (batchSize == 0 ==> total == 0)
      invariant at == ProgressAt(cr, ordered, total)
      decreases |ordered| - total
    {
      var batch := Page(ordered, total, batchSize);
      if batch == [] {
        break;
      }
      at := WalkBatch(cr, ordered, total, batch, at);
      total := total + |batch|;
      if |batch| < batchSize {
        break;
      }
    }
  }

  // Walking in batches of any size reports the same as one walk; a batch size of
  // zero fetches nothing and so reports on no rows.
  method VerifyAuditChain(cr: Crypto, tenant: string, ordered: seq<Row>, anchor: Option<Anchor>, batchSize: nat)
    returns (report: Report)
    ensures report == Verify(cr, tenant, if batchSize == 0 then [] else ordered, anchor)
  {
    var at, total := WalkAll(cr, ordered, batchSize);
    assert ordered[..total] == if batchSize == 0 then [] else ordered;
    var issues := at.issues;
    if anchor.Some? {
      var a := anchor.value;
      if SignAnchor(cr, tenant, a.headHash, a.lastSequence, a.entryCount) != a.signature {
        issues := issues + [BadSignature(a.signature)];
      } else if a.entryCount != total || a.headHash != at.previous || a.lastSequence != at.lastSequence {
        issues := issues + [AnchorMismatch(a.headHash, at.previous)];
      }
    }
    report := Report(total, issues == [], issues, at.previous, at.lastSequence);
  }

  // --------------------------------------------------------- tamper evidence

  ghost predicate Chained(cr: Crypto, rows: seq<Row>) {
    forall i :: 0 <= i < |rows| ==> Links(cr, rows, i)
  }

  // The string hashed for the entry at position i.
  ghost function RawAt(cr: Crypto, rows: seq<Row>, i: nat): string
    requires i < |rows|
  {
    Raw(cr, HashBefore(rows, i), rows[i].event, rows[i].createdAt)
  }

  lemma {:induction false} NoIssueMeansChained(cr: Crypto, rows: seq<Row>)
    ensures WalkIssues(cr, rows) == [] <==> Chained(cr, rows)
  {
    if rows != [] {
      var n := |rows| - 1;
      var init := rows[..n];
      NoIssueMeansChained(cr, init);
      ChainedPrefix(cr, rows);
      assert EntryIssues(cr, rows[n], n, HashBefore(rows, n)) == [] <==>
             Links(cr, rows, n);
    }
  }

  ghost predicate Links(cr: Crypto, rows: seq<Row>, i: nat)
    requires i < |rows|
  {
    rows[i].previousHash == HashBefore(rows, i) && rows[i].hash == cr.sha(RawAt(cr, rows, i))
  }

  lemma ChainedPrefix(cr: Crypto, rows: seq<Row>)
    requires rows != []
    ensures Chained(cr, rows) <==> Chained(cr, rows[..|rows| - 1]) && Links(cr, rows, |rows| - 1)
  {
    var init := rows[..|rows| - 1];
    forall i | 0 <= i < |init| ensures Links(cr, init, i) == Links(cr, rows, i) {
      assert RawAt(cr, init, i) == RawAt(cr, rows, i);
    }
  }

  ghost predicate FixedLength(cr: Crypto) {
    forall x :: |cr.sha(x)| == HASH_LENGTH
  }

  // Two different strings hashed for one list or the other with the same result.
  ghost predicate Collision(cr: Crypto, a: seq<Row>, b: seq<Row>) {
    exists i, j :: 0 <= i < |a| && 0 <= j < |b|
                   && RawAt(cr, a, i) != RawAt(cr, b, j) && cr.sha(RawAt(cr, a, i)) == cr.sha(RawAt(cr, b, j))
  }

  ghost predicate SameStrings(cr: Crypto, a: seq<Row>, b: seq<Row>, from: nat) {
    && |a| == |b|
    && forall i :: from <= i < |a| ==> RawAt(cr, a, i) == RawAt(cr, b, i)
  }

  // From equal head hashes back to the first entry.
  lemma {:induction false} HeadFixesStrings(cr: Crypto, a: seq<Row>, b: seq<Row>, n: nat)
    requires FixedLength(cr) && Chained(cr, a) && Chained(cr, b) && !Collision(cr, a, b)
    requires n <= |a| == |b| && HashBefore(a, n) == HashBefore(b, n)
    ensures forall i :: 0 <= i < n ==> RawAt(cr, a, i) == RawAt(cr, b, i)
  {
    if n > 0 {
      assert Links(cr, a, n - 1) && Links(cr, b, n - 1);
      assert RawAt(cr, a, n - 1) == RawAt(cr, b, n - 1);
      if n > 1 {
        assert Links(cr, a, n - 2) && Links(cr, b, n - 2);
      }
      SamePrefix(HashBefore(a, n - 1), Body(cr, a[n - 1].event, a[n - 1].createdAt),
                 HashBefore(b, n - 1), Body(cr, b[n - 1].event, b[n - 1].createdAt));
      HeadFixesStrings(cr, a, b, n - 1);
    }
  }

  lemma SamePrefix(p: string, x: string, q: string, y: string)
    requires |p| == |q| && p + x == q + y
    ensures p == q && x == y
  {
    assert p == (p + x)[..|p|] && q == (q + y)[..|p|];
    assert x == (p + x)[|p|..] && y == (q + y)[|p|..];
  }

  ghost predicate LeftByAppend(cr: Crypto, tenant: string, appended: seq<Row>, anchor: Anchor) {
    && appended != [] && Chained(cr, appended)
    && anchor.headHash == HashBefore(appended, |appended|) && anchor.entryCount == |appended|
  }

  // Against the anchor left by the last append, rows are reported intact only if
  // they hash the very strings that were appended, in that order: no deletion, cut
  // tail, reordering or change to a hashed string passes without a hash collision.
  lemma {:induction false} TamperingIsReported(cr: Crypto, tenant: string, appended: seq<Row>, anchor: Anchor, rows: seq<Row>)
    requires FixedLength(cr) && LeftByAppend(cr, tenant, appended, anchor)
    requires Verify(cr, tenant, rows, Some(anchor)).chainIntact
    ensures SameStrings(cr, appended, rows, 0) || Collision(cr, appended, rows)
  {
    NoIssueMeansChained(cr, rows);
    assert AnchorIssues(cr, tenant, rows, Some(anchor)) == [];
    if !Collision(cr, appended, rows) {
      HeadFixesStrings(cr, appended, rows, |rows|);
    }
  }

  // The two rows differ in one of the hashed fields and in nothing else.
  ghost predicate OneFieldAltered(cr: Crypto, r: Row, a: Row) {
    || (a == r.(event := r.event.(eventType := a.event.eventType)) && a.event.eventType != r.event.eventType)
    || (a == r.(event := r.event.(actorId := a.event.actorId)) && a.event.actorId != r.event.actorId)
    || (a == r.(event := r.event.(action := a.event.action)) && a.event.action != r.event.action)
    || (a == r.(event := r.event.(resourceType := a.event.resourceType)) && a.event.resourceType != r.event.resourceType)
    || (a == r.(event := r.event.(resourceId := a.event.resourceId)) && a.event.resourceId != r.event.resourceId)
    || (a == r.(createdAt := a.createdAt) && cr.iso(a.createdAt) != cr.iso(r.createdAt))
  }

  lemma Cancel(p: string, x: string, y: string, q: string)
    requires p + x + q == p + y + q
    ensures x == y
  {
    assert |p + x + q| == |p| + |x| + |q| && |p + y + q| == |p| + |y| + |q|;
    assert (p + x + q)[|p|..|p| + |x|] == x && (p + y + q)[|p|..|p| + |y|] == y;
  }

  // The hashed string taken apart around each of its fields.
  lemma BodyAround(cr: Crypto, e: Event, t: int)
    ensures var body, time := Body(cr, e, t), cr.iso(t);
            && body == "" + e.eventType + (e.actorId + e.action + e.resourceType + e.resourceId + time + cr.salt)
            && body == e.eventType + e.actorId + (e.action + e.resourceType + e.resourceId + time + cr.salt)
            && body == e.eventType + e.actorId + e.action + (e.resourceType + e.resourceId + time + cr.salt)
            && body == e.eventType + e.actorId + e.action + e.resourceType + (e.resourceId + time + cr.salt)
            && body == e.eventType + e.actorId + e.action + e.resourceType + e.resourceId + (time + cr.salt)
            && body == e.eventType + e.actorId + e.action + e.resourceType + e.resourceId + time + cr.salt
  {
  }

  lemma AlteredIsHashed(cr: Crypto, r: Row, a: Row)
    requires OneFieldAltered(cr, r, a)
    ensures Body(cr, r.event, r.createdAt) != Body(cr, a.event, a.createdAt)
  {
    hide Body;
    var e, f := r.event, a.event;
    var time, later := cr.iso(r.createdAt), cr.iso(a.createdAt);
    BodyAround(cr, e, r.createdAt);
    BodyAround(cr, f, a.createdAt);
    if Body(cr, e, r.createdAt) == Body(cr, f, a.createdAt) {
      if e.eventType != f.eventType {
        Cancel("", e.eventType, f.eventType, e.actorId + e.action + e.resourceType + e.resourceId + time + cr.salt);
      } else if e.actorId != f.actorId {
        Cancel(e.eventType, e.actorId, f.actorId, e.action + e.resourceType + e.resourceId + time + cr.salt);
      } else if e.action != f.action {
        Cancel(e.eventType + e.actorId, e.action, f.action, e.resourceType + e.resourceId + time + cr.salt);
      } else if e.resourceType != f.resourceType {
        Cancel(e.eventType + e.actorId + e.action, e.resourceType, f.resourceType, e.resourceId + time + cr.salt);
      } else if e.resourceId != f.resourceId {
        Cancel(e.eventType + e.actorId + e.action + e.resourceType, e.resourceId, f.resourceId, time + cr.salt);
      } else {
        Cancel(e.eventType + e.actorId + e.action + e.resourceType + e.resourceId, time, later, cr.salt);
      }
    }
  }

  // Altering one field of one entry of a chain, be it the event type, the actor, the action,
  // the resource type, the resource id or the time, is reported with or without an
  // anchor, unless the altered string hashes to the same.
  lemma {:induction false} AlteredFieldIsReported(cr: Crypto, tenant: string, rows: seq<Row>, i: nat, a: Row, anchor: Option<Anchor>)
    requires Chained(cr, rows) && i < |rows| && OneFieldAltered(cr, rows[i], a)
    ensures var altered := rows[i := a];
            Verify(cr, tenant, altered, anchor).chainIntact ==>
              RawAt(cr, rows, i) != RawAt(cr, altered, i) && cr.sha(RawAt(cr, rows, i)) == cr.sha(RawAt(cr, altered, i))
  {
    hide WalkIssues, AnchorIssues, Body, OneFieldAltered;
    var altered := rows[i := a];
    AlteredKeepsRest(cr, rows[i], a);
    AlteredIsHashed(cr, rows[i], a);
    NoIssueMeansChained(cr, altered);
    if Verify(cr, tenant, altered, anchor).chainIntact {
      assert Links(cr, rows, i) && Links(cr, altered, i);
      assert HashBefore(altered, i) == HashBefore(rows, i);
      if RawAt(cr, rows, i) == RawAt(cr, altered, i) {
        SamePrefix(HashBefore(rows, i), Body(cr, rows[i].event, rows[i].createdAt),
                   HashBefore(rows, i), Body(cr, a.event, a.createdAt));
      }
    }
  }

  lemma AlteredKeepsRest(cr: Crypto, r: Row, a: Row)
    requires OneFieldAltered(cr, r, a)
    ensures a.hash == r.hash && a.previousHash == r.previousHash
  {
  }

  // The issue names an entry by place and id, what was expected there and what was found.
  ghost predicate Tells(cr: Crypto, rows: seq<Row>, issue: Issue) {
    && !issue.BadSignature? && !issue.AnchorMismatch? && issue.index < |rows| && issue.id == rows[issue.index].id
    && issue.expected != issue.found
    && issue.expected == (if issue.PreviousMismatch? then HashBefore(rows, issue.index) else cr.sha(RawAt(cr, rows, issue.index)))
    && issue.found == (if issue.PreviousMismatch? then rows[issue.index].previousHash else rows[issue.index].hash)
  }

  // The issues of a walk tell the truth, each about one entry.
  lemma {:induction false} IssuesTell(cr: Crypto, rows: seq<Row>)
    ensures forall issue :: issue in WalkIssues(cr, rows) ==> Tells(cr, rows, issue)
  {
    hide Tells;
    if rows != [] {
      var n := |rows| - 1;
      IssuesTell(cr, rows[..n]);
      forall issue | issue in WalkIssues(cr, rows) ensures Tells(cr, rows, issue) {
        if issue in WalkIssues(cr, rows[..n]) {
          TellsOfMore(cr, rows, issue);
        } else {
          EntryTells(cr, rows, issue);
        }
      }
    }
  }

  lemma TellsOfMore(cr: Crypto, rows: seq<Row>, issue: Issue)
    requires rows != [] && Tells(cr, rows[..|rows| - 1], issue)
    ensures Tells(cr, rows, issue)
  {
    hide Raw;
  }

  lemma EntryTells(cr: Crypto, rows: seq<Row>, issue: Issue)
    requires rows != [] && issue in EntryIssues(cr, rows[|rows| - 1], |rows| - 1, HashBefore(rows, |rows| - 1))
    ensures Tells(cr, rows, issue)
  {
    hide Raw;
  }

  // The anchor is accepted if and only if it is signed for this tenant and these values,
  // counts the rows and names the last hash and the last sequence.
  lemma AnchorIsChecked(cr: Crypto, tenant: string, rows: seq<Row>, a: Anchor)
    ensures AnchorIssues(cr, tenant, rows, Some(a)) == [] <==>
              && a.signature == cr.sign(tenant, a.headHash, a.lastSequence, a.entryCount)
              && a.entryCount == |rows|
              && a.headHash == (if rows == [] then "" else rows[|rows| - 1].hash)
              && a.lastSequence == LastSequence(rows)
  {
    hide LastSequence;
  }

  // What a report tells: the number of rows, the last hash, the issues of the walk and after
  // them at most one about the anchor, with what it says and what was found.
  lemma ReportTells(cr: Crypto, tenant: string, rows: seq<Row>, anchor: Option<Anchor>)
    ensures var r := Verify(cr, tenant, rows, anchor);
            && r.totalEntries == |rows| && r.headHash == (if rows == [] then "" else rows[|rows| - 1].hash)
            && r.headSequence == LastSequence(rows)
            && (r.chainIntact <==> r.issues == [])
            && WalkIssues(cr, rows) <= r.issues && |r.issues| <= |WalkIssues(cr, rows)| + 1
            && (|r.issues| > |WalkIssues(cr, rows)| ==>
                  && anchor.Some?
                  && var issue, a := r.issues[|r.issues| - 1], anchor.value;
                     issue == (if a.signature != cr.sign(tenant, a.headHash, a.lastSequence, a.entryCount)
                               then BadSignature(a.signature) else AnchorMismatch(a.headHash, r.headHash)))
  {
    hide LastSequence, WalkIssues;
  }

  // The last number met on the walk, where zero counts as none.
  lemma {:induction false} LastSequenceIsLast(rows: seq<Row>, k: nat)
    requires k < |rows| && rows[k].sequence.Some? && rows[k].sequence.value > 0
    requires forall j :: k < j < |rows| ==> rows[j].sequence.None? || rows[j].sequence.value == 0
    ensures LastSequence(rows) == rows[k].sequence.value
  {
    if k < |rows| - 1 {
      LastSequenceIsLast(rows[..|rows| - 1], k);
    }
  }

  // Verification sees the fields only run together: moving characters across a
  // field boundary changes nothing it reports.
  lemma {:induction false} BoundariesAreNotCovered(cr: Crypto, tenant: string, rows: seq<Row>, anchor: Option<Anchor>, i: nat, e: Event)
    requires i < |rows| && Body(cr, e, rows[i].createdAt) == Body(cr, rows[i].event, rows[i].createdAt)
    ensures Verify(cr, tenant, rows[i := rows[i].(event := e)], anchor) == Verify(cr, tenant, rows, anchor)
  {
    hide WalkIssues, LastSequence;
    SameWalk(cr, rows, i, e);
    SameSequences(rows, rows[i := rows[i].(event := e)]);
  }

  lemma {:induction false} SameWalk(cr: Crypto, rows: seq<Row>, i: nat, e: Event)
    requires i < |rows| && Body(cr, e, rows[i].createdAt) == Body(cr, rows[i].event, rows[i].createdAt)
    ensures WalkIssues(cr, rows[i := rows[i].(event := e)]) == WalkIssues(cr, rows)
  {
    var changed, n := rows[i := rows[i].(event := e)], |rows| - 1;
    if i < n {
      SameWalk(cr, rows[..n], i, e);
      assert changed[..n] == rows[..n][i := rows[i].(event := e)];
    } else {
      assert changed[..n] == rows[..n];
    }
  }

  lemma {:induction false} SameSequences(a: seq<Row>, b: seq<Row>)
    requires |a| == |b| && forall i :: 0 <= i < |a| ==> a[i].sequence == b[i].sequence
    ensures LastSequence(a) == LastSequence(b)
  {
    if a != [] {
      SameSequences(a[..|a| - 1], b[..|b| - 1]);
    }
  }

  // Without the anchor every prefix of an intact chain is reported intact.
  lemma CutTailNeedsAnchor(cr: Crypto, tenant: string, rows: seq<Row>, k: nat)
    requires Chained(cr, rows) && k <= |rows|
    ensures Verify(cr, tenant, rows[..k], None).chainIntact
  {
    var kept := rows[..k];
    forall i | 0 <= i < k ensures Links(cr, kept, i) {
      assert Links(cr, rows, i) && RawAt(cr, kept, i) == RawAt(cr, rows, i);
    }
    NoIssueMeansChained(cr, kept);
  }
}
