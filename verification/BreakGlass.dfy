/**
 The break-glass vault: two-custodian activation with the audit record first,
 automatic expiry, revocation, and a hash-chained audit log. Every file write may
 fail as a whole; times are microseconds, stored times are cut to whole seconds.
 */
module BreakGlass {
  import opened Prelude

  const SECOND: int := 1_000_000
  const HOUR: int := 3600 * SECOND
  const QUORUM: nat := 2
  const HARD_MAX: int := 8 * HOUR
  const DEFAULT_GRANT: int := 2 * HOUR

  // The last instant a datetime can hold, counted from the start of 1970.
  const LAST_INSTANT: int := 253_402_300_800 * SECOND - 1

  // A number of hours as it is read from the command line, in microseconds if finite.
  datatype Hours = NaN | Infinite(positive: bool) | Micros(n: int)

  // Comparisons with NaN are false.
  predicate Less(a: Hours, b: Hours) {
    match (a, b)
    case (Micros(m), Micros(n)) => m < n
    case (Micros(_), Infinite(positive)) => positive
    case (Infinite(positive), Micros(_)) => !positive
    case (Infinite(p), Infinite(q)) => !p && q
    case _ => false
  }

  predicate AtMost(a: Hours, b: Hours) {
    !a.NaN? && !b.NaN? && !Less(b, a)
  }

  // Keeps the first unless the second is smaller.
  function Min(a: Hours, b: Hours): (m: Hours)
    ensures m == a || m == b
    ensures m.NaN? <==> a.NaN?
  {
    if Less(b, a) then b else a
  }

  datatype Custodian = Custodian(id: string, salt: string, shareHash: string)

  datatype Metadata = Metadata(quorum: nat, maxTtl: Hours, custodians: seq<Custodian>)

  // "bg-<second of activation>-<random suffix>"
  datatype GrantId = GrantId(second: int, suffix: string)

  datatype Grant = Grant(id: GrantId, custodians: seq<string>, issuedAt: int, expiresAt: int, revoked: bool)

  datatype Entry =
    | VaultInitialized(custodians: seq<string>, maxTtl: Hours)
    | AccessGranted(grantId: GrantId, custodians: seq<string>, issuedAt: int, expiresAt: int)
    | AccessRevoked(grantId: GrantId)

  // Everything the record hash covers.
  datatype Body = Body(seqNo: nat, ts: int, entry: Entry, prevHash: string)

  datatype Record = Record(body: Body, hash: string)

  // Hashing of records and of salted shares.
  datatype Hashes = Hashes(record: Body -> string, share: (string, string) -> string)

  // When a grant was activated and the limit in force then.
  datatype Activation = Activation(at: int, limit: Hours)

  datatype Vault = Vault(metadata: Option<Metadata>, grants: map<GrantId, Grant>, audit: seq<Record>,
                         activations: map<GrantId, Activation>)

  const NO_VAULT := Vault(None, map[], [], map[])

  // How a write ends. An append can also fail after the line is on disk.
  datatype Write = Written | NotWritten | WrittenThenFailed

  datatype Exit = Success | Refused | Failed | NoVaultHere

  function Seconds(micros: int): int { micros / SECOND }

  // --------------------------------------------------------------- the log

  function HeadHash(audit: seq<Record>): string {
    if audit == [] then "" else audit[|audit| - 1].hash
  }

  function NewRecord(h: Hashes, audit: seq<Record>, ts: int, entry: Entry): Record {
    var body := Body(|audit| + 1, Seconds(ts), entry, HeadHash(audit));
    Record(body, h.record(body))
  }

  function Logged(h: Hashes, audit: seq<Record>, ts: int, entry: Entry, w: Write): seq<Record> {
    if w.NotWritten? then audit else audit + [NewRecord(h, audit, ts, entry)]
  }

  ghost predicate RecordFits(h: Hashes, audit: seq<Record>, i: nat)
    requires i < |audit|
  {
    && audit[i].body.seqNo == i + 1
    && audit[i].body.prevHash == HeadHash(audit[..i])
    && audit[i].hash == h.record(audit[i].body)
  }

  ghost predicate ChainOk(h: Hashes, audit: seq<Record>) {
    forall i :: 0 <= i < |audit| ==> RecordFits(h, audit, i)
  }

  method VerifyAudit(h: Hashes, audit: seq<Record>) returns (intact: bool)
    ensures intact <==> ChainOk(h, audit)
  {
    var prevHash := "";
    for i := 0 to |audit|
      invariant prevHash == HeadHash(audit[..i])
      invariant forall j :: 0 <= j < i ==> RecordFits(h, audit, j)
    {
      var record := audit[i];
      assert audit[..i + 1][i] == record;
      if record.body.seqNo != i + 1 || record.body.prevHash != prevHash || record.hash != h.record(record.body) {
        assert !RecordFits(h, audit, i);
        return false;
      }
      prevHash := record.hash;
    }
    return true;
  }

  lemma LoggingKeepsChain(h: Hashes, audit: seq<Record>, ts: int, entry: Entry, w: Write)
    requires ChainOk(h, audit)
    ensures ChainOk(h, Logged(h, audit, ts, entry, w))
  {
    var now := Logged(h, audit, ts, entry, w);
    forall i | 0 <= i < |now| ensures RecordFits(h, now, i) {
      assert now[..i] == audit[..i];
      if i < |audit| {
        assert RecordFits(h, audit, i);
      } else {
        assert audit[..i] == audit;
      }
    }
  }

  // The log has no anchor: any prefix of an intact log is intact.
  lemma CutLogStillVerifies(h: Hashes, audit: seq<Record>, k: nat)
    requires ChainOk(h, audit) && k <= |audit|
    ensures ChainOk(h, audit[..k])
  {
    forall i | 0 <= i < k ensures RecordFits(h, audit[..k], i) {
      assert RecordFits(h, audit, i) && audit[..k][..i] == audit[..i];
    }
  }

  // ---------------------------------------------------------------- quorum

  // The first registered custodian the share belongs to.
  function Owner(h: Hashes, custodians: seq<Custodian>, share: string): (owner: Option<Custodian>)
    ensures owner.Some? ==> owner.value in custodians && h.share(owner.value.salt, share) == owner.value.shareHash
    ensures owner.None? ==> forall c :: c in custodians ==> h.share(c.salt, share) != c.shareHash
  {
    if custodians == [] then None
    else if h.share(custodians[0].salt, share) == custodians[0].shareHash then Some(custodians[0])
    else Owner(h, custodians[1..], share)
  }

  ghost predicate AllOwned(h: Hashes, custodians: seq<Custodian>, shares: seq<string>) {
    && (forall i :: 0 <= i < |shares| ==> shares[i] != "" && Owner(h, custodians, shares[i]).Some?)
    && (forall i, j :: 0 <= i < j < |shares| ==>
          Owner(h, custodians, shares[i]).value.id != Owner(h, custodians, shares[j]).value.id)
  }

  ghost function Owners(h: Hashes, custodians: seq<Custodian>, shares: seq<string>): (ids: seq<string>)
    requires AllOwned(h, custodians, shares)
    ensures |ids| == |shares| && NoDuplicates(ids)
  {
    seq(|shares|, i requires 0 <= i < |shares| => Owner(h, custodians, shares[i]).value.id)
  }

  // Succeeds exactly when every share is some custodian's and no custodian gave two.
  method VerifyQuorum(h: Hashes, custodians: seq<Custodian>, shares: seq<string>) returns (verified: Option<seq<string>>)
    ensures verified.Some? <==> AllOwned(h, custodians, shares)
    ensures verified.Some? ==> verified.value == Owners(h, custodians, shares)
  {
    var ids: seq<string> := [];
    var seen: set<string> := {};
    for i := 0 to |shares|
      invariant |ids| == i && seen == Elements(ids)
      invariant forall j :: 0 <= j < i ==>
                  shares[j] != "" && Owner(h, custodians, shares[j]).Some? && ids[j] == Owner(h, custodians, shares[j]).value.id
      invariant NoDuplicates(ids)
    {
      var matched := None;
      if shares[i] != "" {
        matched := FindOwner(h, custodians, shares[i]);
      }
      if matched.None? {
        return None;
      }
      if matched.value.id in seen {
        var j :| 0 <= j < |ids| && ids[j] == matched.value.id;
        assert Owner(h, custodians, shares[j]).value.id == Owner(h, custodians, shares[i]).value.id;
        return None;
      }
      ids, seen := ids + [matched.value.id], seen + {matched.value.id};
    }
    return Some(ids);
  }

  method FindOwner(h: Hashes, custodians: seq<Custodian>, share: string) returns (matched: Option<Custodian>)
    ensures matched == Owner(h, custodians, share)
  {
    for k := 0 to |custodians|
      invariant Owner(h, custodians, share) == Owner(h, custodians[k..], share)
    {
      if h.share(custodians[k].salt, share) == custodians[k].shareHash {
        return Some(custodians[k]);
      }
    }
    return None;
  }

  // -------------------------------------------------------------- commands

  datatype Command =
    | Init(custodians: seq<Custodian>, hasAdmin: bool, requestedMax: Hours, ts: int, metadataWrite: Write, auditWrite: Write)
    | Activate(shares: seq<string>, ttl: Option<Hours>, dryRun: bool, now: int, ts: int, suffix: string,
               auditWrite: Write, grantWrite: Write)
    | Revoke(id: GrantId, ts: int, grantWrite: Write, auditWrite: Write)

  function CustodianIds(cs: seq<Custodian>): (ids: seq<string>)
    ensures |ids| == |cs| && forall i :: 0 <= i < |cs| ==> ids[i] == cs[i].id
  {
    seq(|cs|, i requires 0 <= i < |cs| => cs[i].id)
  }

  // Setting up a vault, also over an existing one.
  function AfterInit(h: Hashes, v: Vault, cs: seq<Custodian>, hasAdmin: bool, requestedMax: Hours, ts: int,
                     metadataWrite: Write, auditWrite: Write): (Vault, Exit)
  {
    var maxTtl := Min(requestedMax, Micros(HARD_MAX));
    if |cs| < QUORUM || !hasAdmin || AtMost(maxTtl, Micros(0)) || !NoDuplicates(CustodianIds(cs)) then (v, Refused)
    else if !metadataWrite.Written? then (v, Failed)
    else
      var audit := Logged(h, v.audit, ts, VaultInitialized(CustodianIds(cs), maxTtl), auditWrite);
      (v.(metadata := Some(Metadata(QUORUM, maxTtl, cs)), audit := audit), if auditWrite.Written? then Success else Failed)
  }

  function Length(ttl: Option<Hours>): Hours {
    if ttl.Some? then ttl.value else Micros(DEFAULT_GRANT)
  }

  // The expiry can be computed: neither NaN, nor infinite, nor beyond the last instant.
  predicate Fits(now: int, length: Hours) {
    length.Micros? && now + length.n <= LAST_INSTANT
  }

  ghost function AfterActivate(h: Hashes, v: Vault, shares: seq<string>, ttl: Option<Hours>, dryRun: bool, now: int,
                               ts: int, suffix: string, auditWrite: Write, grantWrite: Write): (Vault, Exit)
  {
    if v.metadata.None? then (v, NoVaultHere)
    else
      var m, length, id := v.metadata.value, Length(ttl), GrantId(Seconds(now), suffix);
      if !AllOwned(h, m.custodians, shares) || |shares| < m.quorum then (v, Refused)
      else if AtMost(length, Micros(0)) || Less(m.maxTtl, length) then (v, Refused)
      else if !Fits(now, length) then (v, Failed)
      else if dryRun then (v, Success)
      else
        var g := Grant(id, Owners(h, m.custodians, shares), Seconds(now), Seconds(now + length.n), false);
        var logged := v.(audit := Logged(h, v.audit, ts, AccessGranted(id, g.custodians, g.issuedAt, g.expiresAt), auditWrite));
        if !auditWrite.Written? then (logged, Refused)
        else if !grantWrite.Written? then (logged, Failed)
        else (logged.(grants := v.grants[id := g], activations := v.activations[id := Activation(now, m.maxTtl)]), Success)
  }

  function AfterRevoke(h: Hashes, v: Vault, id: GrantId, ts: int, grantWrite: Write, auditWrite: Write): (Vault, Exit) {
    if v.metadata.None? then (v, NoVaultHere)
    else if id !in v.grants || v.grants[id].revoked then (v, Refused)
    else if !grantWrite.Written? then (v, Failed)
    else (v.(grants := v.grants[id := v.grants[id].(revoked := true)],
             audit := Logged(h, v.audit, ts, AccessRevoked(v.grants[id].id), auditWrite)),
          if auditWrite.Written? then Success else Failed)
  }

  ghost function After(h: Hashes, v: Vault, c: Command): Vault {
    match c
    case Init(cs, hasAdmin, max, ts, mw, aw) => AfterInit(h, v, cs, hasAdmin, max, ts, mw, aw).0
    case Activate(shares, ttl, dry, now, ts, suffix, aw, gw) =>
      AfterActivate(h, v, shares, ttl, dry, now, ts, suffix, aw, gw).0
    case Revoke(id, ts, gw, aw) => AfterRevoke(h, v, id, ts, gw, aw).0
  }

  class BreakGlassVault {
    const h: Hashes
    var metadata: Option<Metadata>
    var grants: map<GrantId, Grant>
    var audit: seq<Record>
    ghost var activations: map<GrantId, Activation>

    ghost function View(): Vault
      reads this
    {
      Vault(metadata, grants, audit, activations)
    }

    constructor (h: Hashes)
      ensures this.h == h && View() == NO_VAULT
    {
      this.h := h;
      metadata, grants, audit, activations := None, map[], [], map[];
    }

    // Appends one record; the write may fail before or after the line is on disk.
    method AppendAudit(ts: int, entry: Entry, w: Write) returns (ok: bool)
      modifies this`audit
      ensures audit == Logged(h, old(audit), ts, entry, w) && ok == w.Written?
    {
      var body := Body(|audit| + 1, Seconds(ts), entry, if audit == [] then "" else audit[|audit| - 1].hash);
      if !w.NotWritten? {
        audit := audit + [Record(body, h.record(body))];
      }
      return w.Written?;
    }

    method CmdInit(cs: seq<Custodian>, hasAdmin: bool, requestedMax: Hours, ts: int, metadataWrite: Write, auditWrite: Write)
      returns (exit: Exit)
      modifies this
      ensures (View(), exit) == AfterInit(h, old(View()), cs, hasAdmin, requestedMax, ts, metadataWrite, auditWrite)
    {
      if |cs| < QUORUM || !hasAdmin {
        return Refused;
      }
      var maxTtl := Min(requestedMax, Micros(HARD_MAX));
      if AtMost(maxTtl, Micros(0)) || !NoDuplicates(CustodianIds(cs)) {
        return Refused;
      }
      if !metadataWrite.Written? {
        return Failed;
      }
      metadata := Some(Metadata(QUORUM, maxTtl, cs));
      var ok := AppendAudit(ts, VaultInitialized(CustodianIds(cs), maxTtl), auditWrite);
      return if ok then Success else Failed;
    }

    method CmdActivate(shares: seq<string>, ttl: Option<Hours>, dryRun: bool, now: int, ts: int, suffix: string,
                       auditWrite: Write, grantWrite: Write) returns (exit: Exit)
      modifies this
      ensures (View(), exit) == AfterActivate(h, old(View()), shares, ttl, dryRun, now, ts, suffix, auditWrite, grantWrite)
    {
      if metadata.None? {
        return NoVaultHere;
      }
      var m := metadata.value;
      var verified := VerifyQuorum(h, m.custodians, shares);
      if verified.None? || |verified.value| < m.quorum {
        return Refused;
      }
      var length := Length(ttl);
      if AtMost(length, Micros(0)) || Less(m.maxTtl, length) {
        return Refused;
      }
      if !Fits(now, length) {
        return Failed;
      }
      var id := GrantId(Seconds(now), suffix);
      if dryRun {
        return Success;
      }
      var g := Grant(id, verified.value, Seconds(now), Seconds(now + length.n), false);
      var ok := AppendAudit(ts, AccessGranted(id, g.custodians, g.issuedAt, g.expiresAt), auditWrite);
      if !ok {
        return Refused;
      }
      if !grantWrite.Written? {
        return Failed;
      }
      grants, activations := grants[id := g], activations[id := Activation(now, m.maxTtl)];
      return Success;
    }

    method CmdRevoke(id: GrantId, ts: int, grantWrite: Write, auditWrite: Write) returns (exit: Exit)
      modifies this
      ensures (View(), exit) == AfterRevoke(h, old(View()), id, ts, grantWrite, auditWrite)
    {
      if metadata.None? {
        return NoVaultHere;
      }
      if id !in grants || grants[id].revoked {
        return Refused;
      }
      if !grantWrite.Written? {
        return Failed;
      }
      grants := grants[id := grants[id].(revoked := true)];
      var ok := AppendAudit(ts, AccessRevoked(grants[id].id), auditWrite);
      return if ok then Success else Failed;
    }
  }

  // ------------------------------------------------------------ the grants

  // What `check` goes by.
  predicate Active(v: Vault, id: GrantId, now: int) {
    id in v.grants && !v.grants[id].revoked && now < v.grants[id].expiresAt * SECOND
  }

  ghost predicate HasRecord(v: Vault, g: Grant) {
    exists i :: 0 <= i < |v.audit| && v.audit[i].body.entry == AccessGranted(g.id, g.custodians, g.issuedAt, g.expiresAt)
  }

  // The grant has its record and two distinct custodians, dates from its activation and, under
  // a numeric limit, expires within it.
  ghost predicate GrantOk(v: Vault, id: GrantId)
    requires id in v.grants
  {
    var g := v.grants[id];
    && g.id == id && HasRecord(v, g)
    && |g.custodians| >= QUORUM && NoDuplicates(g.custodians)
    && id in v.activations
    && id.second == g.issuedAt == Seconds(v.activations[id].at)
    && LimitOk(v.activations[id].limit)
    && (v.activations[id].limit.Micros? ==> g.expiresAt * SECOND <= v.activations[id].at + v.activations[id].limit.n)
  }

  // What setting up a vault can store as its limit.
  predicate LimitOk(limit: Hours) {
    limit.NaN? || (limit.Micros? && limit.n <= HARD_MAX)
  }

  ghost predicate Inv(h: Hashes, v: Vault) {
    && ChainOk(h, v.audit)
    && (v.metadata.Some? ==> v.metadata.value.quorum == QUORUM && LimitOk(v.metadata.value.maxTtl))
    && (forall id :: id in v.grants ==> GrantOk(v, id))
  }

  lemma LoggingKeepsRecords(h: Hashes, v: Vault, ts: int, entry: Entry, w: Write, g: Grant)
    ensures HasRecord(v, g) ==> HasRecord(v.(audit := Logged(h, v.audit, ts, entry, w)), g)
    ensures !w.NotWritten? && entry == AccessGranted(g.id, g.custodians, g.issuedAt, g.expiresAt)
            ==> HasRecord(v.(audit := Logged(h, v.audit, ts, entry, w)), g)
  {
    var now := Logged(h, v.audit, ts, entry, w);
    if HasRecord(v, g) {
      var i :| 0 <= i < |v.audit| && v.audit[i].body.entry == AccessGranted(g.id, g.custodians, g.issuedAt, g.expiresAt);
      assert now[i] == v.audit[i];
    }
    if !w.NotWritten? {
      assert now[|v.audit|].body.entry == entry;
    }
  }

  lemma SecondsCutDown(micros: int)
    ensures Seconds(micros) * SECOND <= micros < (Seconds(micros) + 1) * SECOND
  {
  }

  lemma InitKeepsInv(h: Hashes, v: Vault, c: Command)
    requires Inv(h, v) && c.Init?
    ensures Inv(h, After(h, v, c))
  {
    var maxTtl := Min(c.requestedMax, Micros(HARD_MAX));
    var entry := VaultInitialized(CustodianIds(c.custodians), maxTtl);
    LoggingKeepsChain(h, v.audit, c.ts, entry, c.auditWrite);
    forall id | id in v.grants ensures GrantOk(After(h, v, c), id) {
      LoggingKeepsRecords(h, v, c.ts, entry, c.auditWrite, v.grants[id]);
    }
  }

  lemma RevokeKeepsInv(h: Hashes, v: Vault, c: Command)
    requires Inv(h, v) && c.Revoke?
    ensures Inv(h, After(h, v, c))
  {
    var v' := After(h, v, c);
    LoggingKeepsChain(h, v.audit, c.ts, AccessRevoked(c.id), c.auditWrite);
    forall id | id in v'.grants ensures GrantOk(v', id) {
      LoggingKeepsRecords(h, v, c.ts, AccessRevoked(c.id), c.auditWrite, v.grants[id]);
    }
  }

  lemma ActivateKeepsInv(h: Hashes, v: Vault, c: Command)
    requires Inv(h, v) && c.Activate?
    ensures Inv(h, After(h, v, c))
  {
    hide Logged, Owner, Seconds, ChainOk, AllOwned;
    var v' := After(h, v, c);
    var length := Length(c.ttl);
    if v.metadata.Some? && AllOwned(h, v.metadata.value.custodians, c.shares) && length.Micros? {
      var id := GrantId(Seconds(c.now), c.suffix);
      var g := Grant(id, Owners(h, v.metadata.value.custodians, c.shares), Seconds(c.now), Seconds(c.now + length.n), false);
      var entry := AccessGranted(id, g.custodians, g.issuedAt, g.expiresAt);
      LoggingKeepsChain(h, v.audit, c.ts, entry, c.auditWrite);
      LoggingKeepsRecords(h, v, c.ts, entry, c.auditWrite, g);
      SecondsCutDown(c.now + length.n);
      forall id | id in v.grants ensures HasRecord(v.(audit := Logged(h, v.audit, c.ts, entry, c.auditWrite)), v.grants[id]) {
        LoggingKeepsRecords(h, v, c.ts, entry, c.auditWrite, v.grants[id]);
      }
      forall id | id in v'.grants ensures GrantOk(v', id) {
      }
    }
  }

  // ------------------------------------------------------------------- runs

  ghost function Run(h: Hashes, v: Vault, cs: seq<Command>): Vault {
    if cs == [] then v else After(h, Run(h, v, cs[..|cs| - 1]), cs[|cs| - 1])
  }

  lemma {:induction false} RunsKeepInv(h: Hashes, v: Vault, cs: seq<Command>)
    requires Inv(h, v)
    ensures Inv(h, Run(h, v, cs))
  {
    if cs != [] {
      var before, c := Run(h, v, cs[..|cs| - 1]), cs[|cs| - 1];
      RunsKeepInv(h, v, cs[..|cs| - 1]);
      match c
      case Init(_, _, _, _, _, _) => InitKeepsInv(h, before, c);
      case Activate(_, _, _, _, _, _, _, _) => ActivateKeepsInv(h, before, c);
      case Revoke(_, _, _, _) => RevokeKeepsInv(h, before, c);
    }
  }

  // Over every run of commands, whatever writes fail: the log passes, and every stored
  // grant has its record, two distinct custodians, the second of its activation and,
  // unless the limit in force then was NaN, an expiry within eight hours of it.
  lemma {:induction false} VaultIsSafe(h: Hashes, cs: seq<Command>, id: GrantId)
    ensures ChainOk(h, Run(h, NO_VAULT, cs).audit)
    ensures id in Run(h, NO_VAULT, cs).grants ==>
              var v := Run(h, NO_VAULT, cs);
              var g := v.grants[id];
              && HasRecord(v, g) && g.id == id
              && |g.custodians| >= 2 && NoDuplicates(g.custodians)
              && id in v.activations && g.issuedAt == id.second == Seconds(v.activations[id].at)
              && (!v.activations[id].limit.NaN? ==>
                    && v.activations[id].limit.Micros?
                    && g.expiresAt * SECOND <= v.activations[id].at + v.activations[id].limit.n <= v.activations[id].at + 8 * HOUR)
  {
    RunsKeepInv(h, NO_VAULT, cs);
  }

  // No set-up of the run names NaN as its limit.
  ghost predicate NumericLimits(cs: seq<Command>) {
    forall c :: c in cs && c.Init? ==> !c.requestedMax.NaN?
  }

  ghost predicate NoNaN(v: Vault) {
    && (v.metadata.Some? ==> !v.metadata.value.maxTtl.NaN?)
    && (forall id :: id in v.activations ==> !v.activations[id].limit.NaN?)
  }

  lemma {:induction false} NumericRuns(h: Hashes, cs: seq<Command>)
    requires NumericLimits(cs)
    ensures NoNaN(Run(h, NO_VAULT, cs))
  {
    hide Logged, Owner, Seconds;
    if cs != [] {
      SplitLast(cs);
      NumericRuns(h, cs[..|cs| - 1]);
    }
  }

  // Without NaN every grant of every run expires within eight hours of its activation.
  lemma {:induction false} EightHoursAtMost(h: Hashes, cs: seq<Command>, id: GrantId)
    requires NumericLimits(cs) && id in Run(h, NO_VAULT, cs).grants
    ensures var v := Run(h, NO_VAULT, cs);
            id in v.activations && v.grants[id].expiresAt * SECOND <= v.activations[id].at + 8 * HOUR
  {
    NumericRuns(h, cs);
    VaultIsSafe(h, cs, id);
  }

  // The command writes a grant.
  ghost predicate Grants(h: Hashes, v: Vault, c: Command) {
    c.Activate? && !c.dryRun
    && AfterActivate(h, v, c.shares, c.ttl, c.dryRun, c.now, c.ts, c.suffix, c.auditWrite, c.grantWrite).1.Success?
  }

  // On a reachable vault a grant is written if and only if the quorum is met, the length
  // asked for, two hours if none is, is positive, within the limit unless that is NaN,
  // and computable, it is no dry run, and both writes succeed. It then says just that.
  lemma {:induction false} GrantsAreDecided(h: Hashes, v: Vault, c: Command)
    requires Inv(h, v) && c.Activate?
    ensures var length, id := if c.ttl.Some? then c.ttl.value else Micros(7_200_000_000), GrantId(Seconds(c.now), c.suffix);
            && (Grants(h, v, c) <==>
                  && v.metadata.Some? && AllOwned(h, v.metadata.value.custodians, c.shares) && |c.shares| >= 2
                  && length.Micros? && 0 < length.n && (v.metadata.value.maxTtl.NaN? || length.n <= v.metadata.value.maxTtl.n)
                  && c.now + length.n <= LAST_INSTANT
                  && !c.dryRun && c.auditWrite.Written? && c.grantWrite.Written?)
            && (Grants(h, v, c) ==>
                  After(h, v, c).grants == v.grants[id := Grant(id, Owners(h, v.metadata.value.custodians, c.shares),
                                                                Seconds(c.now), Seconds(c.now + length.n), false)])
            && (!Grants(h, v, c) ==> After(h, v, c).grants == v.grants)
            && (c.dryRun || v.metadata.None? || !AllOwned(h, v.metadata.value.custodians, c.shares) || |c.shares| < 2
                ==> After(h, v, c) == v)
            && After(h, v, c).metadata == v.metadata
  {
    hide ChainOk, GrantOk, Logged, AllOwned, Seconds;
  }

  // A set-up is accepted with two custodians of different ids, an admin and a limit that is
  // not known to be zero or less; the limit stored is at most eight hours, or NaN.
  lemma InitIsDecided(h: Hashes, v: Vault, c: Command)
    requires c.Init?
    ensures var max, ids := c.requestedMax, CustodianIds(c.custodians);
            var accepted := |c.custodians| >= 2 && c.hasAdmin && NoDuplicates(ids)
                            && (max.NaN? || max == Infinite(true) || (max.Micros? && max.n > 0));
            var limit := if max.NaN? then NaN else if max.Micros? && max.n < 8 * 3_600_000_000 then max else Micros(8 * 3_600_000_000);
            && (ExitOf(h, v, c) == Refused <==> !accepted)
            && (ExitOf(h, v, c) == Success <==> accepted && c.metadataWrite.Written? && c.auditWrite.Written?)
            && After(h, v, c).grants == v.grants
            && (!accepted || !c.metadataWrite.Written? ==> After(h, v, c) == v)
            && After(h, v, c).metadata == (if accepted && c.metadataWrite.Written? then Some(Metadata(2, limit, c.custodians)) else v.metadata)
  {
    hide Logged;
  }

  // A revocation marks the grant it names and no other, if that stands unrevoked.
  lemma RevokeIsDecided(h: Hashes, v: Vault, c: Command)
    requires c.Revoke?
    ensures var stands := v.metadata.Some? && c.id in v.grants && !v.grants[c.id].revoked;
            && (ExitOf(h, v, c) == Success <==> stands && c.grantWrite.Written? && c.auditWrite.Written?)
            && After(h, v, c).metadata == v.metadata && After(h, v, c).grants.Keys == v.grants.Keys
            && (forall id :: id in v.grants ==>
                  After(h, v, c).grants[id]
                  == if id == c.id && stands && c.grantWrite.Written? then v.grants[id].(revoked := true) else v.grants[id])
  {
    hide Logged;
  }

  ghost function ExitOf(h: Hashes, v: Vault, c: Command): Exit {
    match c
    case Init(cs, hasAdmin, max, ts, mw, aw) => AfterInit(h, v, cs, hasAdmin, max, ts, mw, aw).1
    case Activate(shares, ttl, dry, now, ts, suffix, aw, gw) => AfterActivate(h, v, shares, ttl, dry, now, ts, suffix, aw, gw).1
    case Revoke(id, ts, gw, aw) => AfterRevoke(h, v, id, ts, gw, aw).1
  }

  ghost predicate Recorded(audit: seq<Record>, entry: Entry) {
    exists i :: 0 <= i < |audit| && audit[i].body.entry == entry
  }

  // Records are never taken away; a command adds at most one, stamped with its second.
  lemma AuditGrows(h: Hashes, v: Vault, c: Command)
    ensures var audit := After(h, v, c).audit;
            && v.audit <= audit && |audit| <= |v.audit| + 1
            && (|audit| > |v.audit| ==> audit[|v.audit|].body.ts == c.ts / 1_000_000)
  {
  }

  lemma {:induction false} AuditGrowsOverRuns(h: Hashes, v: Vault, cs: seq<Command>, i: nat)
    requires i <= |cs|
    ensures Run(h, v, cs[..i]).audit <= Run(h, v, cs).audit
  {
    hide After;
    var n := |cs| - 1;
    if i <= n {
      AuditGrowsOverRuns(h, v, cs[..n], i);
      assert cs[..n][..i] == cs[..i];
      AuditGrows(h, Run(h, v, cs[..n]), cs[n]);
    } else {
      assert cs[..i] == cs;
    }
  }

  // What a command that ended well has put on record.
  ghost predicate OnRecord(h: Hashes, v: Vault, c: Command, audit: seq<Record>) {
    match c
    case Init(custodians, _, max, _, _, _) => exists limit :: Recorded(audit, VaultInitialized(CustodianIds(custodians), limit))
    case Activate(_, _, _, now, _, suffix, _, _) =>
      var id := GrantId(Seconds(now), suffix);
      Grants(h, v, c) ==> id in After(h, v, c).grants
                          && Recorded(audit, AccessGranted(id, After(h, v, c).grants[id].custodians, Seconds(now), After(h, v, c).grants[id].expiresAt))
    case Revoke(id, _, _, _) => Recorded(audit, AccessRevoked(id))
  }

  lemma StepIsRecorded(h: Hashes, v: Vault, c: Command)
    requires Inv(h, v) && ExitOf(h, v, c) == Success
    ensures OnRecord(h, v, c, After(h, v, c).audit)
  {
    hide AllOwned, ChainOk, HasRecord, Seconds;
    var audit := After(h, v, c).audit;
    if |audit| > |v.audit| {
      assert audit[|v.audit|].body.entry == audit[|v.audit|].body.entry;
    }
  }

  // Every set-up, activation and revocation of a run that ended well is on record at its end.
  lemma {:induction false} SuccessIsRecorded(h: Hashes, cs: seq<Command>, i: nat)
    requires i < |cs| && ExitOf(h, Run(h, NO_VAULT, cs[..i]), cs[i]) == Success
    ensures OnRecord(h, Run(h, NO_VAULT, cs[..i]), cs[i], Run(h, NO_VAULT, cs).audit)
  {
    hide After, Inv, Grants, ExitOf;
    var before := Run(h, NO_VAULT, cs[..i]);
    RunsKeepInv(h, NO_VAULT, cs[..i]);
    StepIsRecorded(h, before, cs[i]);
    assert cs[..i + 1][..i] == cs[..i];
    AuditGrowsOverRuns(h, NO_VAULT, cs, i + 1);
    StaysRecorded(After(h, before, cs[i]).audit, Run(h, NO_VAULT, cs).audit);
  }

  lemma StaysRecorded(before: seq<Record>, after: seq<Record>)
    requires before <= after
    ensures forall entry :: Recorded(before, entry) ==> Recorded(after, entry)
  {
    forall entry | Recorded(before, entry) ensures Recorded(after, entry) {
      var i :| 0 <= i < |before| && before[i].body.entry == entry;
      assert after[i] == before[i];
    }
  }

  // A record whose contents are altered fails, unless they hash to the same.
  lemma AlteredRecordFails(h: Hashes, audit: seq<Record>, i: nat, body: Body)
    requires ChainOk(h, audit) && i < |audit| && body != audit[i].body
    ensures ChainOk(h, audit[i := Record(body, audit[i].hash)]) ==> h.record(body) == h.record(audit[i].body)
  {
    var altered := audit[i := Record(body, audit[i].hash)];
    assert RecordFits(h, audit, i);
    if ChainOk(h, altered) {
      assert RecordFits(h, altered, i);
    }
  }

  // On a reachable vault a grant of more than eight hours is written if and only if the
  // limit in force is NaN and nothing else stands in the way.
  lemma {:induction false} LongGrantNeedsNaN(h: Hashes, v: Vault, c: Command)
    requires Inv(h, v) && c.Activate? && Less(Micros(HARD_MAX), Length(c.ttl))
    ensures Grants(h, v, c) <==>
              && v.metadata.Some? && v.metadata.value.maxTtl.NaN?
              && |c.shares| >= QUORUM && AllOwned(h, v.metadata.value.custodians, c.shares)
              && Fits(c.now, Length(c.ttl)) && !c.dryRun && c.auditWrite.Written? && c.grantWrite.Written?
  {
    hide ChainOk, GrantOk, Logged, AllOwned;
  }

  // Setting up with the limit NaN and then asking for a thousand hours leaves a grant of
  // a thousand hours.
  lemma NaNLiftsTheLimit(h: Hashes, now: int, x: string, y: string, salt: string, suffix: string)
    requires x != "" && y != "" && h.share(salt, x) != h.share(salt, y)
    requires now + 1000 * HOUR <= LAST_INSTANT
    ensures var cs := [Init([Custodian("ann", salt, h.share(salt, x)), Custodian("bob", salt, h.share(salt, y))],
                            true, NaN, now, Written, Written),
                       Activate([x, y], Some(Micros(1000 * HOUR)), false, now, now, suffix, Written, Written)];
            var v, id := Run(h, NO_VAULT, cs), GrantId(Seconds(now), suffix);
            && id in v.grants && id in v.activations && Active(v, id, now + 999 * HOUR)
            && v.grants[id].expiresAt * SECOND > v.activations[id].at + HARD_MAX
  {
    hide Logged;
    var custodians := [Custodian("ann", salt, h.share(salt, x)), Custodian("bob", salt, h.share(salt, y))];
    var c1 := Init(custodians, true, NaN, now, Written, Written);
    var c2 := Activate([x, y], Some(Micros(1000 * HOUR)), false, now, now, suffix, Written, Written);
    assert [c1, c2][..1] == [c1] && [c1][..0] == [];
    assert Run(h, NO_VAULT, [c1]) == After(h, NO_VAULT, c1);
    BothOwn(h, x, y, salt);
    SecondsCutDown(now + 1000 * HOUR);
  }

  // ------------------------------------------------- inactive grants

  ghost predicate GrantsId(h: Hashes, v: Vault, c: Command, id: GrantId) {
    Grants(h, v, c) && Seconds(c.now) == id.second && c.suffix == id.suffix
  }

  // The instant at which a grant written by the command stops being active.
  function ExpiryOf(c: Command): int
    requires c.Activate?
  {
    if Length(c.ttl).Micros? then Seconds(c.now + Length(c.ttl).n) * SECOND else 0
  }

  ghost predicate RevokesId(h: Hashes, v: Vault, c: Command, id: GrantId) {
    c.Revoke? && c.id == id && v.metadata.Some? && id in v.grants && !v.grants[id].revoked && c.grantWrite.Written?
  }

  // What one command does to the grant under an id.
  lemma ActiveAfter(h: Hashes, v: Vault, c: Command, id: GrantId, now: int)
    ensures Active(After(h, v, c), id, now) <==>
              if GrantsId(h, v, c, id) then now < ExpiryOf(c)
              else Active(v, id, now) && !RevokesId(h, v, c, id)
  {
    hide Logged, AllOwned, Owners, Seconds;
  }

  // A grant that is not active is active after a command, at that time or later, if and
  // only if the command drew its very id and its new expiry is still to come.
  lemma InactiveStaysInactive(h: Hashes, v: Vault, c: Command, id: GrantId, before: int, after: int)
    requires before <= after && !Active(v, id, before)
    ensures Active(After(h, v, c), id, after) <==> GrantsId(h, v, c, id) && after < ExpiryOf(c)
  {
    hide After, Grants;
    ActiveAfter(h, v, c, id, after);
  }

  // The clock read by the activations of the run does not go back before the given instant.
  ghost predicate NotBefore(cs: seq<Command>, before: int) {
    forall i :: 0 <= i < |cs| && cs[i].Activate? ==> before <= cs[i].now
  }

  // The i-th command grants the id and no later one of the run grants or revokes it.
  ghost predicate LastGrant(h: Hashes, v: Vault, cs: seq<Command>, id: GrantId, i: nat)
    requires i < |cs|
  {
    && GrantsId(h, Run(h, v, cs[..i]), cs[i], id)
    && forall j :: i < j < |cs| ==>
         !GrantsId(h, Run(h, v, cs[..j]), cs[j], id) && !RevokesId(h, Run(h, v, cs[..j]), cs[j], id)
  }

  ghost predicate Regranted(h: Hashes, v: Vault, cs: seq<Command>, id: GrantId, after: int) {
    exists i :: 0 <= i < |cs| && LastGrant(h, v, cs, id, i) && after < ExpiryOf(cs[i])
  }

  lemma RegrantedByLast(h: Hashes, v: Vault, cs: seq<Command>, id: GrantId, after: int)
    requires cs != []
    ensures var init, c := cs[..|cs| - 1], cs[|cs| - 1];
            Regranted(h, v, cs, id, after) <==>
              if GrantsId(h, Run(h, v, init), c, id) then after < ExpiryOf(c)
              else Regranted(h, v, init, id, after) && !RevokesId(h, Run(h, v, init), c, id)
  {
    hide GrantsId, RevokesId, Run;
    var n := |cs| - 1;
    var init := cs[..n];
    assert forall i :: 0 <= i <= n ==> init[..i] == cs[..i];
    if GrantsId(h, Run(h, v, init), cs[n], id) {
      assert LastGrant(h, v, cs, id, n);
      assert forall i :: 0 <= i < n ==> !LastGrant(h, v, cs, id, i);
    } else {
      assert !LastGrant(h, v, cs, id, n);
      forall i | 0 <= i < n
        ensures LastGrant(h, v, cs, id, i) <==> LastGrant(h, v, init, id, i) && !RevokesId(h, Run(h, v, init), cs[n], id)
      {
        if LastGrant(h, v, init, id, i) && !RevokesId(h, Run(h, v, init), cs[n], id) {
          forall j | i < j < |cs|
            ensures !GrantsId(h, Run(h, v, cs[..j]), cs[j], id) && !RevokesId(h, Run(h, v, cs[..j]), cs[j], id)
          {
            assert j < n ==> init[j] == cs[j];
          }
        }
      }
    }
  }

  // Over any run, a grant that is not active becomes active again if and only if some
  // activation draws its very id, is not followed by a revocation or another such
  // activation, and has not expired.
  lemma {:induction false} ReactivationIsRegrant(h: Hashes, v: Vault, cs: seq<Command>, id: GrantId, before: int, after: int)
    requires before <= after && !Active(v, id, before)
    ensures Active(Run(h, v, cs), id, after) <==> Regranted(h, v, cs, id, after)
  {
    hide After, GrantsId, RevokesId, Regranted;
    if cs == [] {
      NothingRegranted(h, v, id, after);
    } else {
      var init := cs[..|cs| - 1];
      ReactivationIsRegrant(h, v, init, id, before, after);
      ActiveAfter(h, Run(h, v, init), cs[|cs| - 1], id, after);
      RegrantedByLast(h, v, cs, id, after);
    }
  }

  lemma NothingRegranted(h: Hashes, v: Vault, id: GrantId, after: int)
    ensures !Regranted(h, v, [], id, after)
  {
  }

  lemma SecondsRise(a: int, b: int)
    requires a <= b
    ensures Seconds(a) <= Seconds(b)
  {
  }

  // With a clock that does not run backwards, a grant inactive in a second after the one
  // it was issued in is never active again.
  lemma {:induction false} RunsNeverReactivate(h: Hashes, v: Vault, cs: seq<Command>, id: GrantId, before: int, after: int)
    requires before <= after && !Active(v, id, before) && NotBefore(cs, before)
    requires id.second < Seconds(before)
    ensures !Active(Run(h, v, cs), id, after)
  {
    hide Run, Active, AfterActivate;
    ReactivationIsRegrant(h, v, cs, id, before, after);
    forall i | 0 <= i < |cs| && cs[i].Activate? ensures id.second < Seconds(cs[i].now) {
      SecondsRise(before, cs[i].now);
    }
  }

  // Within its second of issue a revoked grant does come back: by a second activation
  // that draws the same suffix.
  lemma RevokedGrantComesBack(h: Hashes, now: int, x: string, y: string, salt: string, suffix: string)
    requires x != "" && y != "" && h.share(salt, x) != h.share(salt, y) && now + HOUR <= LAST_INSTANT
    ensures var id := GrantId(Seconds(now), suffix);
            var init := Init([Custodian("ann", salt, h.share(salt, x)), Custodian("bob", salt, h.share(salt, y))],
                             true, Micros(HOUR), now, Written, Written);
            var grant := Activate([x, y], Some(Micros(HOUR)), false, now, now, suffix, Written, Written);
            var revoke := Revoke(id, now, Written, Written);
            && Active(Run(h, NO_VAULT, [init, grant]), id, now)
            && !Active(Run(h, NO_VAULT, [init, grant, revoke]), id, now)
            && Active(Run(h, NO_VAULT, [init, grant, revoke, grant]), id, now)
  {
    hide Logged, Owner, AllOwned, Owners;
    var id := GrantId(Seconds(now), suffix);
    var custodians := [Custodian("ann", salt, h.share(salt, x)), Custodian("bob", salt, h.share(salt, y))];
    var c1 := Init(custodians, true, Micros(HOUR), now, Written, Written);
    var c2 := Activate([x, y], Some(Micros(HOUR)), false, now, now, suffix, Written, Written);
    var c3 := Revoke(id, now, Written, Written);
    BothOwn(h, x, y, salt);
    assert [c1][..0] == [] && [c1, c2][..1] == [c1] && [c1, c2, c3][..2] == [c1, c2] && [c1, c2, c3, c2][..3] == [c1, c2, c3];
    var v1 := After(h, NO_VAULT, c1);
    assert Run(h, NO_VAULT, [c1]) == v1;
    var v2 := After(h, v1, c2);
    assert Run(h, NO_VAULT, [c1, c2]) == v2;
    var v3 := After(h, v2, c3);
    assert Run(h, NO_VAULT, [c1, c2, c3]) == v3;
    assert Run(h, NO_VAULT, [c1, c2, c3, c2]) == After(h, v3, c2);
    SecondsCutDown(now + HOUR);
  }

  lemma BothOwn(h: Hashes, x: string, y: string, salt: string)
    requires x != "" && y != "" && h.share(salt, x) != h.share(salt, y)
    ensures AllOwned(h, [Custodian("ann", salt, h.share(salt, x)), Custodian("bob", salt, h.share(salt, y))], [x, y])
  {
    var custodians := [Custodian("ann", salt, h.share(salt, x)), Custodian("bob", salt, h.share(salt, y))];
    assert Owner(h, custodians, x) == Some(custodians[0]);
    assert Owner(h, custodians, y) == Some(custodians[1]) by {
      assert custodians[1..][0] == custodians[1];
    }
  }

  // Between the two stored times a grant can span up to a second more than was
  // asked for; it never does exactly when a whole number of seconds was asked for.
  lemma StoredSpan(ttl: int)
    requires ttl > 0
    ensures (forall now :: (Seconds(now + ttl) - Seconds(now)) * SECOND <= ttl) <==> ttl % SECOND == 0
  {
    hide Seconds;
    if ttl % SECOND == 0 {
      forall now ensures (Seconds(now + ttl) - Seconds(now)) * SECOND <= ttl {
        WholeSecondsAdd(now, ttl);
      }
    } else {
      FractionAdds(ttl);
    }
  }

  lemma WholeSecondsAdd(now: int, ttl: int)
    requires ttl % SECOND == 0
    ensures (Seconds(now + ttl) - Seconds(now)) * SECOND == ttl
  {
  }

  lemma FractionAdds(ttl: int)
    requires ttl % SECOND != 0
    ensures (Seconds(SECOND - 1 + ttl) - Seconds(SECOND - 1)) * SECOND > ttl
  {
  }
}
