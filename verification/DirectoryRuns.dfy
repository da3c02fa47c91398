/**
 The employee directory as an object: create, update and delete, and what any
 run of accepted writes leaves for the hierarchy to read.
 */
module DirectoryRuns {
  import opened Prelude
  import opened ReportingChains
  import opened ManagerWrites
  import opened CycleBreaking
  import Hierarchy
  import HierarchyReport

  // The manager part of an update: left out, cleared, or set.
  datatype ManagerField = Absent | Cleared | Set(m: string)

  datatype Request =
    | Create(email: string, manager: string)
    | Update(email: string, newEmail: Option<string>, managerField: ManagerField, otherFields: bool)
    | Delete(email: string)

  datatype Response = Ok | BadEmail | NotFound | NoFields | EmailTaken | Rejected(reason: Resolution)

  ghost function AfterCreate(valid: string -> bool, db: Directory, e: string, m: string): (Directory, Response) {
    if m != "" && !Resolve(valid, db, m, e).Accepted? then (db, Rejected(Resolve(valid, db, m, e)))
    else if e in db then (db, EmailTaken)
    else (db[e := m], Ok)
  }

  ghost function AfterUpdate(valid: string -> bool, db: Directory, e: string, newEmail: Option<string>,
                             field: ManagerField, otherFields: bool): (Directory, Response)
  {
    var target := if newEmail.Some? then newEmail.value else e;
    if !valid(e) then (db, BadEmail)
    else if e !in db then (db, NotFound)
    else if newEmail.None? && field.Absent? && !otherFields then (db, NoFields)
    else if field.Set? && field.m != "" && !Resolve(valid, db, field.m, target).Accepted? then
      (db, Rejected(Resolve(valid, db, field.m, target)))
    else if target != e && target in db then (db, EmailTaken)
    else
      var manager := match field case Absent => db[e] case Cleared => "" case Set(m) => m;
      ((db - {e})[target := manager], Ok)
  }

  ghost function AfterDelete(valid: string -> bool, db: Directory, e: string): (Directory, Response) {
    if !valid(e) then (db, BadEmail) else if e in db then (db - {e}, Ok) else (db, NotFound)
  }

  ghost function After(valid: string -> bool, db: Directory, req: Request): (Directory, Response) {
    match req
    case Create(e, m) => AfterCreate(valid, db, e, m)
    case Update(e, n, field, other) => AfterUpdate(valid, db, e, n, field, other)
    case Delete(e) => AfterDelete(valid, db, e)
  }

  class EmployeeDirectory {
    const valid: string -> bool
    var rows: Directory

    constructor (valid: string -> bool)
      ensures this.valid == valid && rows == map[]
    {
      this.valid := valid;
      rows := map[];
    }

    method CreateEmployee(email: string, manager: string) returns (response: Response)
      requires "" !in rows
      modifies this
      ensures (rows, response) == AfterCreate(valid, old(rows), email, manager)
    {
      if manager != "" {
        var resolution := ResolveManagerReference(valid, rows, manager, email);
        if !resolution.Accepted? {
          return Rejected(resolution);
        }
      }
      if email in rows {
        return EmailTaken;
      }
      rows := rows[email := manager];
      return Ok;
    }

    method UpdateEmployee(email: string, newEmail: Option<string>, field: ManagerField, otherFields: bool)
      returns (response: Response)
      requires "" !in rows
      modifies this
      ensures (rows, response) == AfterUpdate(valid, old(rows), email, newEmail, field, otherFields)
    {
      if !valid(email) {
        return BadEmail;
      }
      if email !in rows {
        return NotFound;
      }
      if newEmail.None? && field.Absent? && !otherFields {
        return NoFields;
      }
      var target := if newEmail.Some? then newEmail.value else email;
      var manager := rows[email];
      if field.Set? && field.m != "" {
        var resolution := ResolveManagerReference(valid, rows, field.m, target);
        if !resolution.Accepted? {
          return Rejected(resolution);
        }
        manager := resolution.manager;
      } else if !field.Absent? {
        manager := "";
      }
      if newEmail.Some? && newEmail.value != email {
        if newEmail.value in rows {
          return EmailTaken;
        }
      }
      rows := (rows - {email})[target := manager];
      return Ok;
    }

    method DeleteEmployee(email: string) returns (response: Response)
      modifies this
      ensures (rows, response) == AfterDelete(valid, old(rows), email)
    {
      if !valid(email) {
        return BadEmail;
      }
      if email !in rows {
        return NotFound;
      }
      rows := rows - {email};
      return Ok;
    }
  }

  // ------------------------------------------------------------------ runs

  // Emails pass the request schema, so they are never empty.
  predicate WellFormed(req: Request) {
    match req
    case Create(e, _) => e != ""
    case Update(_, n, _, _) => n.Some? ==> n.value != ""
    case Delete(_) => true
  }

  // A change of email that leaves the manager alone.
  predicate BareRename(req: Request) {
    req.Update? && req.newEmail.Some? && req.newEmail.value != req.email && req.managerField.Absent?
  }

  ghost predicate Harmless(db: Directory, req: Request) {
    BareRename(req) && req.email in db && req.newEmail.value !in db ==> !Names(db, req.email, req.newEmail.value)
  }

  // Every write keeps the directory acyclic, except a bare rename onto an email
  // that the employee's own chain already names: that one, if accepted, closes a cycle.
  lemma StepKeepsAcyclic(valid: string -> bool, db: Directory, req: Request)
    requires Acyclic(db) && WellFormed(req)
    ensures Acyclic(After(valid, db, req).0) <==> After(valid, db, req).1 != Ok || Harmless(db, req)
  {
    match req
    case Create(e, m) =>
      if After(valid, db, req).1 == Ok {
        PointedCreate(valid, db, e, m);
      }
    case Delete(e) =>
      RemovalKeepsAcyclic(db, e);
    case Update(e, n, field, other) =>
      if After(valid, db, req).1 == Ok {
        UpdateKeepsAcyclic(valid, db, req);
      }
  }

  lemma PointedCreate(valid: string -> bool, db: Directory, e: string, m: string)
    requires Acyclic(db) && e != "" && (m == "" || Resolve(valid, db, m, e).Accepted?)
    ensures Acyclic(db[e := m])
  {
    if m == "" {
      ClearedKeepsAcyclic(db, e);
    } else {
      GuardIsExact(valid, db, e, m);
    }
  }

  lemma ClearedKeepsAcyclic(db: Directory, e: string)
    requires Acyclic(db) && e != ""
    ensures Acyclic(db[e := ""])
  {
    forall k: nat ensures Ref(db, "", k) != e {
      Nowhere(db, k);
    }
    PointingKeepsAcyclic(db, e, "");
  }

  lemma UpdateKeepsAcyclic(valid: string -> bool, db: Directory, req: Request)
    requires Acyclic(db) && WellFormed(req) && req.Update? && After(valid, db, req).1 == Ok
    ensures Acyclic(After(valid, db, req).0) <==> Harmless(db, req)
  {
    var e, field := req.email, req.managerField;
    var target := if req.newEmail.Some? then req.newEmail.value else e;
    if target == e {
      assert (db - {e})[e := db[e]] == db;
      if field.Set? {
        assert (db - {e})[e := field.m] == db[e := field.m];
        PointedCreate(valid, db, e, field.m);
      } else if field.Cleared? {
        assert (db - {e})[e := ""] == db[e := ""];
        ClearedKeepsAcyclic(db, e);
      }
    } else if field.Absent? {
      RenameAlone(db, e, target);
    } else if field.Set? && field.m != "" {
      RenameWithManager(valid, db, e, target, field.m);
    } else {
      RemovalKeepsAcyclic(db, e);
      ClearedKeepsAcyclic(db - {e}, target);
    }
  }

  // An accepted manager write leaves at most MAX_REPORTING_CHAIN managers above the employee.
  lemma AcceptedChainIsBounded(valid: string -> bool, db: Directory, req: Request)
    requires Acyclic(db) && WellFormed(req) && After(valid, db, req).1 == Ok
    ensures req.Create? && req.manager != "" ==>
              AtMostAbove(After(valid, db, req).0, req.email, MAX_REPORTING_CHAIN)
    ensures req.Update? && req.managerField.Set? && req.managerField.m != "" ==>
              AtMostAbove(After(valid, db, req).0,
                          if req.newEmail.Some? then req.newEmail.value else req.email, MAX_REPORTING_CHAIN)
  {
    if req.Create? && req.manager != "" {
      GuardIsExact(valid, db, req.email, req.manager);
    } else if req.Update? && req.managerField.Set? && req.managerField.m != "" {
      var e, m := req.email, req.managerField.m;
      var target := if req.newEmail.Some? then req.newEmail.value else e;
      if target == e {
        assert (db - {e})[e := m] == db[e := m];
        GuardIsExact(valid, db, e, m);
      } else {
        RenameWithManager(valid, db, e, target, m);
      }
    }
  }

  // --------------------------------------------------- what a request leaves

  // Everybody's row but these two is as it was.
  ghost predicate OthersKept(db: Directory, after: Directory, e: string, n: string) {
    forall x :: x != e && x != n ==> (x in after <==> x in db) && (x in db ==> after[x] == db[x])
  }

  // A create stores the manager named, or none, for the new email and touches nobody else.
  lemma CreateLeaves(valid: string -> bool, db: Directory, e: string, m: string)
    ensures var (after, response) := After(valid, db, Create(e, m));
            && (response == Ok <==> e !in db && (m == "" || Resolve(valid, db, m, e).Accepted?))
            && (response == EmailTaken <==> e in db && (m == "" || Resolve(valid, db, m, e).Accepted?))
            && (response == Ok ==> e in after && Ref(after, e, 1) == m && OthersKept(db, after, e, e))
            && (response != Ok ==> after == db)
  {
  }

  // An update answers in this order, and if accepted leaves the employee under its new
  // email with the manager set, none if cleared, the old one if not mentioned.
  lemma UpdateLeaves(valid: string -> bool, db: Directory, e: string, n: Option<string>, field: ManagerField, other: bool)
    ensures var (after, response) := After(valid, db, Update(e, n, field, other));
            var target := if n.Some? then n.value else e;
            && (response == BadEmail <==> !valid(e))
            && (response == NotFound <==> valid(e) && e !in db)
            && (response == NoFields <==> valid(e) && e in db && n.None? && field == Absent && !other)
            && (response == Ok <==>
                  && valid(e) && e in db && (n.Some? || field != Absent || other)
                  && (forall m :: field == Set(m) && m != "" ==> Resolve(valid, db, m, target).Accepted?)
                  && (target == e || target !in db))
            && (response != Ok ==> after == db)
            && (response == Ok ==>
                  && target in after && OthersKept(db, after, e, target) && (target != e ==> e !in after)
                  && (forall m :: field == Set(m) ==> Ref(after, target, 1) == m)
                  && (field == Cleared ==> Ref(after, target, 1) == "")
                  && (field == Absent ==> Ref(after, target, 1) == db[e]))
  {
  }

  // A delete takes away that row and no other; references to it stay.
  lemma DeleteLeaves(valid: string -> bool, db: Directory, e: string)
    ensures var (after, response) := After(valid, db, Delete(e));
            && (response == Ok <==> valid(e) && e in db)
            && (response == Ok ==> e !in after)
            && OthersKept(db, after, e, e) && (response != Ok ==> after == db)
  {
  }

  ghost function Run(valid: string -> bool, db: Directory, reqs: seq<Request>): Directory {
    if reqs == [] then db else After(valid, Run(valid, db, reqs[..|reqs| - 1]), reqs[|reqs| - 1]).0
  }

  ghost predicate HarmlessRun(valid: string -> bool, db: Directory, reqs: seq<Request>) {
    forall i :: 0 <= i < |reqs| ==> WellFormed(reqs[i]) && Harmless(Run(valid, db, reqs[..i]), reqs[i])
  }

  lemma {:induction false} RunsStayAcyclic(valid: string -> bool, db: Directory, reqs: seq<Request>)
    requires Acyclic(db) && HarmlessRun(valid, db, reqs)
    ensures Acyclic(Run(valid, db, reqs))
  {
    if reqs != [] {
      var init, last := reqs[..|reqs| - 1], reqs[|reqs| - 1];
      forall i | 0 <= i < |init| ensures WellFormed(init[i]) && Harmless(Run(valid, db, init[..i]), init[i]) {
        assert init[..i] == reqs[..i];
      }
      RunsStayAcyclic(valid, db, init);
      StepKeepsAcyclic(valid, Run(valid, db, init), last);
    }
  }

  const LEAD: string := "lead@x.io"
  const BEA: string := "bea@x.io"
  const CAS: string := "cas@x.io"

  // The rename that is not guarded: LEAD is deleted while still named by BEA, and CAS,
  // who reports to BEA, then takes over the email of LEAD.
  lemma RenameClosesCycle(valid: string -> bool)
    requires valid(LEAD) && valid(BEA) && valid(CAS)
    ensures var reqs := [Create(LEAD, ""), Create(BEA, LEAD), Delete(LEAD), Create(CAS, BEA),
                         Update(CAS, Some(LEAD), Absent, false)];
            Run(valid, map[], reqs) == map[BEA := LEAD, LEAD := BEA] && !Acyclic(Run(valid, map[], reqs))
  {
    Accepts(valid);
    var c1, c2, c3 := Create(LEAD, ""), Create(BEA, LEAD), Delete(LEAD);
    var c4, c5 := Create(CAS, BEA), Update(CAS, Some(LEAD), Absent, false);
    OneMore(valid, [], c1);
    assert [] + [c1] == [c1];
    OneMore(valid, [c1], c2);
    assert [c1] + [c2] == [c1, c2];
    OneMore(valid, [c1, c2], c3);
    assert [c1, c2] + [c3] == [c1, c2, c3];
    OneMore(valid, [c1, c2, c3], c4);
    assert [c1, c2, c3] + [c4] == [c1, c2, c3, c4];
    OneMore(valid, [c1, c2, c3, c4], c5);
    assert [c1, c2, c3, c4] + [c5] == [c1, c2, c3, c4, c5];
    PointingBackFrom(map[BEA := LEAD, LEAD := BEA]);
  }

  lemma Accepts(valid: string -> bool)
    requires valid(LEAD) && valid(BEA) && valid(CAS)
    ensures After(valid, map[], Create(LEAD, "")) == (map[LEAD := ""], Ok)
    ensures After(valid, map[LEAD := ""], Create(BEA, LEAD)) == (map[LEAD := "", BEA := LEAD], Ok)
    ensures After(valid, map[LEAD := "", BEA := LEAD], Delete(LEAD)) == (map[BEA := LEAD], Ok)
    ensures After(valid, map[BEA := LEAD], Create(CAS, BEA)) == (map[BEA := LEAD, CAS := BEA], Ok)
    ensures After(valid, map[BEA := LEAD, CAS := BEA], Update(CAS, Some(LEAD), Absent, false))
         == (map[BEA := LEAD, LEAD := BEA], Ok)
  {
    var d1, d3: Directory := map[LEAD := ""], map[BEA := LEAD];
    assert Ref(d1, LEAD, 0) == LEAD && Ref(d1, LEAD, 1) == "";
    StoppedIsAccepted(valid, d1, LEAD, BEA, 0);
    assert map[LEAD := "", BEA := LEAD] - {LEAD} == d3;
    assert Ref(d3, BEA, 0) == BEA && Ref(d3, BEA, 1) == LEAD;
    StoppedIsAccepted(valid, d3, BEA, CAS, 0);
    assert (map[BEA := LEAD, CAS := BEA] - {CAS})[LEAD := BEA] == map[BEA := LEAD, LEAD := BEA];
  }

  lemma OneMore(valid: string -> bool, reqs: seq<Request>, req: Request)
    ensures Run(valid, map[], reqs + [req]) == After(valid, Run(valid, map[], reqs), req).0
  {
    assert (reqs + [req])[..|reqs|] == reqs;
  }

  lemma PointingBackFrom(db: Directory)
    requires db == map[BEA := LEAD, LEAD := BEA]
    ensures !Acyclic(db)
  {
    assert Ref(db, BEA, 2) == Ref(db, LEAD, 1) == BEA;
    if Ends(db, BEA) {
      var k: nat :| Ref(db, BEA, k) !in db;
      ReturningNeverEnds(db, BEA, 2, k);
    }
  }

  // ------------------------------------------------ what the reader then sees

  // The records read back are the directory, in any order.
  ghost predicate Reads(records: seq<Hierarchy.Record>, db: Directory) {
    && (forall r :: r in records ==> r.email in db && db[r.email] == r.managerId)
    && (forall e :: e in db ==> exists r :: r in records && r.email == e)
  }

  // The links of a directory: every reference that resolves.
  ghost function LinksIn(db: Directory): Links {
    map e | e in db && db[e] in db :: db[e]
  }

  lemma {:induction false} RowsAreRead(records: seq<Hierarchy.Record>, e: string)
    requires e in Hierarchy.FirstRows(records)
    ensures Hierarchy.FirstRows(records)[e] in records
  {
    if records != [] {
      var init, r := records[..|records| - 1], records[|records| - 1];
      if e in Hierarchy.FirstRows(init) {
        RowsAreRead(init, e);
      }
    }
  }

  lemma {:induction false} UpFollowsRef(db: Directory, x: string, k: nat)
    requires "" !in db && x in db
    ensures Ref(db, x, k) !in db ==> Up(LinksIn(db), x, k) == None
    decreases k
  {
    if k > 0 && db[x] in db {
      UpFollowsRef(db, db[x], k - 1);
    }
  }

  // After any harmless run from an empty tenant the hierarchy shows exactly the
  // stored manager relation: nobody is promoted and no link is lost.
  lemma {:induction false} HierarchyShowsStoredLinks(valid: string -> bool, reqs: seq<Request>, records: seq<Hierarchy.Record>)
    requires HarmlessRun(valid, map[], reqs) && Reads(records, Run(valid, map[], reqs))
    ensures HierarchyReport.BuiltLinks(records) == LinksIn(Run(valid, map[], reqs))
    ensures Elements(Hierarchy.Listed(records)) == Run(valid, map[], reqs).Keys
  {
    var db := Run(valid, map[], reqs);
    RunsStayAcyclic(valid, map[], reqs);
    AcyclicIsShown(db, records);
  }

  lemma {:induction false} AcyclicIsShown(db: Directory, records: seq<Hierarchy.Record>)
    requires Acyclic(db) && Reads(records, db)
    ensures HierarchyReport.BuiltLinks(records) == LinksIn(db)
    ensures Elements(Hierarchy.Listed(records)) == db.Keys
  {
    var order := Hierarchy.Listed(records);
    StoredLinksMatch(db, records);
    Hierarchy.LinksAreWithin(Hierarchy.FirstRows(records), order);
    forall x | x in order ensures Rooted(LinksIn(db), x) {
      assert x in Elements(order);
      var k: nat :| Ref(db, x, k) !in db;
      UpFollowsRef(db, x, k);
    }
    AcyclicIsKept(order, LinksIn(db));
  }

  lemma {:induction false} StoredLinksMatch(db: Directory, records: seq<Hierarchy.Record>)
    requires Acyclic(db) && Reads(records, db)
    ensures Hierarchy.StoredLinks(Hierarchy.FirstRows(records)) == LinksIn(db)
    ensures Elements(Hierarchy.Listed(records)) == db.Keys
  {
    var rows := Hierarchy.FirstRows(records);
    EmailsRead(db, records);
    forall e | e in rows ensures rows[e].managerId == db[e] && db[e] != e {
      assert e in db;
      RowMatches(db, records, e);
    }
    SameLinks(rows, db);
  }

  lemma SameLinks(rows: map<string, Hierarchy.Record>, db: Directory)
    requires "" !in db && rows.Keys == db.Keys
    requires forall e :: e in rows ==> rows[e].managerId == db[e] != e
    ensures Hierarchy.StoredLinks(rows) == LinksIn(db)
  {
    forall e | e in db ensures db[e] in rows <==> db[e] in db {
    }
  }

  lemma {:induction false} RowMatches(db: Directory, records: seq<Hierarchy.Record>, e: string)
    requires Acyclic(db) && Reads(records, db) && e in Hierarchy.FirstRows(records) && e in db
    ensures Hierarchy.FirstRows(records)[e].managerId == db[e] != e
  {
    RowsAreRead(records, e);
    assert Ref(db, e, 0) == e && Ref(db, e, 1) == db[e];
    AcyclicNeverRepeats(db, e, 0, 1);
  }

  lemma EmailsRead(db: Directory, records: seq<Hierarchy.Record>)
    requires "" !in db && Reads(records, db)
    ensures Elements(Hierarchy.Listed(records)) == db.Keys
  {
    forall e ensures e in Hierarchy.Listed(records) <==> e in db {
    }
  }

  // An accepted update that sets a manager is seen: the hierarchy read back has that manager
  // as the parent. The one exception is the employee's own former email, which the guard
  // lets pass in a rename: nobody is left under it, and the employee becomes a root.
  lemma {:induction false} SetManagerIsShown(valid: string -> bool, reqs: seq<Request>, req: Request, m: string,
                                             records: seq<Hierarchy.Record>)
    requires HarmlessRun(valid, map[], reqs + [req]) && Reads(records, Run(valid, map[], reqs + [req]))
    requires req.Update? && req.managerField == Set(m) && m != "" && After(valid, Run(valid, map[], reqs), req).1 == Ok
    ensures var target := if req.newEmail.Some? then req.newEmail.value else req.email;
            var links := HierarchyReport.BuiltLinks(records);
            if m != req.email then target in links && links[target] == m else target !in links
  {
    hide HierarchyReport.BuiltLinks, Reads;
    var db := Run(valid, map[], reqs);
    assert (reqs + [req])[..|reqs|] == reqs && (reqs + [req])[|reqs|] == req;
    assert WellFormed(req);
    HierarchyShowsStoredLinks(valid, reqs + [req], records);
    UpdateLeaves(valid, db, req.email, req.newEmail, req.managerField, req.otherFields);
    PrefixIsHarmless(valid, reqs, req);
    RunsStayAcyclic(valid, map[], reqs);
    AcceptedIsSomebody(valid, db, m, if req.newEmail.Some? then req.newEmail.value else req.email);
  }

  lemma {:induction false} CreatedManagerIsShown(valid: string -> bool, reqs: seq<Request>, e: string, m: string,
                                                 records: seq<Hierarchy.Record>)
    requires HarmlessRun(valid, map[], reqs + [Create(e, m)]) && Reads(records, Run(valid, map[], reqs + [Create(e, m)]))
    requires After(valid, Run(valid, map[], reqs), Create(e, m)).1 == Ok
    ensures var links := HierarchyReport.BuiltLinks(records);
            if m != "" then e in links && links[e] == m else e !in links
  {
    hide HierarchyReport.BuiltLinks, Reads;
    var db, req := Run(valid, map[], reqs), Create(e, m);
    assert (reqs + [req])[..|reqs|] == reqs && (reqs + [req])[|reqs|] == req;
    assert WellFormed(req);
    HierarchyShowsStoredLinks(valid, reqs + [req], records);
    CreateLeaves(valid, db, e, m);
    PrefixIsHarmless(valid, reqs, req);
    RunsStayAcyclic(valid, map[], reqs);
    if m != "" {
      AcceptedIsSomebody(valid, db, m, e);
    }
  }

  lemma AcceptedIsSomebody(valid: string -> bool, db: Directory, m: string, key: string)
    requires Resolve(valid, db, m, key).Accepted? && key != ""
    ensures m in db && m != key
  {
    hide Clear;
  }

  lemma PrefixIsHarmless(valid: string -> bool, reqs: seq<Request>, req: Request)
    requires HarmlessRun(valid, map[], reqs + [req])
    ensures HarmlessRun(valid, map[], reqs) && Acyclic(map[])
  {
    var all := reqs + [req];
    forall i | 0 <= i < |reqs| ensures WellFormed(reqs[i]) && Harmless(Run(valid, map[], reqs[..i]), reqs[i]) {
      assert all[..i] == reqs[..i] && all[i] == reqs[i];
    }
  }

  // Bea takes the email of Cas and names her own former email as manager: the guard, asked
  // about the new email, accepts, and the row names a manager that does not exist.
  lemma OwnFormerEmailIsAccepted(valid: string -> bool)
    requires valid(BEA) && valid(CAS)
    ensures var reqs := [Create(BEA, ""), Update(BEA, Some(CAS), Set(BEA), false)];
            Run(valid, map[], reqs) == map[CAS := BEA]
  {
    hide After, Run;
    var c1, c2 := Create(BEA, ""), Update(BEA, Some(CAS), Set(BEA), false);
    FormerEmailPasses(valid);
    NothingRun(valid);
    OneMore(valid, [], c1);
    assert [] + [c1] == [c1];
    OneMore(valid, [c1], c2);
    assert [c1] + [c2] == [c1, c2];
  }

  lemma NothingRun(valid: string -> bool)
    ensures Run(valid, map[], []) == map[]
  {
  }

  lemma FormerEmailPasses(valid: string -> bool)
    requires valid(BEA) && valid(CAS)
    ensures After(valid, map[], Create(BEA, "")) == (map[BEA := ""], Ok)
    ensures After(valid, map[BEA := ""], Update(BEA, Some(CAS), Set(BEA), false)) == (map[CAS := BEA], Ok)
  {
    hide Clear, Resolve;
    var d: Directory := map[BEA := ""];
    assert Ref(d, BEA, 0) == BEA && Ref(d, BEA, 1) == "";
    assert Clear(d, BEA, CAS, 0) by { OnlyItself(d, BEA, CAS); }
    StoppedIsAccepted(valid, d, BEA, CAS, 0);
    assert (d - {BEA})[CAS := BEA] == map[CAS := BEA];
  }

  lemma OnlyItself(db: Directory, m: string, key: string)
    requires m in db
    ensures Clear(db, m, key, 0)
  {
    assert Ref(db, m, 0) == m;
  }
}
