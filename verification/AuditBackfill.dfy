/**
 Numbering the rows written before the sequence column existed. The table is
 listed by (created_at, id), the order in which the backfill reads it.
 */
module AuditBackfill {
  import opened Prelude
  import opened AuditChain

  // Positions of the rows without a sequence, in reading order.
  function Unnumbered(rows: seq<Row>): (at: seq<nat>)
    ensures forall j :: 0 <= j < |at| ==> at[j] < |rows| && rows[at[j]].sequence.None?
    ensures forall i, j :: 0 <= i < j < |at| ==> at[i] < at[j]
  {
    if rows == [] then []
    else
      var n := |rows| - 1;
      var before := Unnumbered(rows[..n]);
      if rows[n].sequence.None? then before + [n] else before
  }

  // max(sequence) of the tenant, zero if none.
  function TenantMax(rows: seq<Row>, tenant: string): nat {
    if rows == [] then 0
    else
      var before, row := TenantMax(rows[..|rows| - 1], tenant), rows[|rows| - 1];
      if row.tenant == tenant && row.sequence.Some? && row.sequence.value > before then row.sequence.value else before
  }

  // How many of the given positions belong to the tenant.
  function OfTenant(rows: seq<Row>, at: seq<nat>, tenant: string): nat
    requires forall j :: 0 <= j < |at| ==> at[j] < |rows|
  {
    if at == [] then 0
    else OfTenant(rows, at[..|at| - 1], tenant) + if rows[at[|at| - 1]].tenant == tenant then 1 else 0
  }

  // The number the j-th unnumbered row gets: its rank among the tenant's
  // unnumbered rows, on top of the tenant's former maximum.
  function NumberOf(rows: seq<Row>, j: nat): nat
    requires j < |Unnumbered(rows)|
  {
    var at := Unnumbered(rows);
    TenantMax(rows, rows[at[j]].tenant) + OfTenant(rows, at[..j + 1], rows[at[j]].tenant)
  }

  // The table once the first k unnumbered rows have their numbers.
  function Numbered(rows: seq<Row>, k: nat): (r: seq<Row>)
    requires k <= |Unnumbered(rows)|
    ensures |r| == |rows|
  {
    if k == 0 then rows
    else
      var i := Unnumbered(rows)[k - 1];
      Numbered(rows, k - 1)[i := rows[i].(sequence := Some(NumberOf(rows, k - 1)))]
  }

  // --------------------------------------------------- what numbering does

  lemma NumberedStep(rows: seq<Row>, k: nat)
    requires k < |Unnumbered(rows)|
    ensures Numbered(rows, k + 1) ==
            Numbered(rows, k)[Unnumbered(rows)[k] := rows[Unnumbered(rows)[k]].(sequence := Some(NumberOf(rows, k)))]
  {
  }

  lemma NothingNumbered(rows: seq<Row>)
    ensures Numbered(rows, 0) == rows
  {
  }

  lemma {:induction false} NumberedRow(rows: seq<Row>, k: nat, i: nat)
    requires k <= |Unnumbered(rows)| && i < |rows|
    ensures (forall j :: 0 <= j < k ==> Unnumbered(rows)[j] != i) ==> Numbered(rows, k)[i] == rows[i]
    ensures forall j :: 0 <= j < k && Unnumbered(rows)[j] == i
              ==> Numbered(rows, k)[i] == rows[i].(sequence := Some(NumberOf(rows, j)))
  {
    hide Numbered, Unnumbered, NumberOf;
    if k == 0 {
      NothingNumbered(rows);
    } else {
      NumberedStep(rows, k - 1);
      NumberedRow(rows, k - 1, i);
      forall j | 0 <= j < k - 1 ensures Unnumbered(rows)[j] != Unnumbered(rows)[k - 1] {
      }
    }
  }

  lemma {:induction false} MaxAfterOne(rows: seq<Row>, i: nat, v: nat, tenant: string)
    requires i < |rows| && rows[i].sequence.None?
    ensures TenantMax(rows[i := rows[i].(sequence := Some(v))], tenant)
         == if rows[i].tenant == tenant && v > TenantMax(rows, tenant) then v else TenantMax(rows, tenant)
  {
    var n, now := |rows| - 1, rows[i := rows[i].(sequence := Some(v))];
    if i < n {
      MaxAfterOne(rows[..n], i, v, tenant);
      assert now[..n] == rows[..n][i := rows[i].(sequence := Some(v))];
    } else {
      assert now[..n] == rows[..n];
    }
  }

  // Each round of numbering raises a tenant's maximum by the rows it numbered.
  lemma {:induction false} MaxGrows(rows: seq<Row>, k: nat, tenant: string)
    requires k <= |Unnumbered(rows)|
    ensures TenantMax(Numbered(rows, k), tenant)
         == TenantMax(rows, tenant) + OfTenant(rows, Unnumbered(rows)[..k], tenant)
  {
    hide Numbered, Unnumbered, TenantMax;
    if k == 0 {
      NothingNumbered(rows);
    } else {
      var i, before := Unnumbered(rows)[k - 1], Numbered(rows, k - 1);
      MaxGrows(rows, k - 1, tenant);
      NumberedStep(rows, k - 1);
      NumberedRow(rows, k - 1, i);
      MaxAfterOne(before, i, NumberOf(rows, k - 1), tenant);
      PrefixOfPrefix(Unnumbered(rows), k);
    }
  }

  lemma PrefixOfPrefix<T>(s: seq<T>, k: nat)
    requires 0 < k <= |s|
    ensures s[..k][..k - 1] == s[..k - 1] && s[..k][k - 1] == s[k - 1]
  {
  }

  lemma {:induction false} FirstNumbered(rows: seq<Row>, v: nat)
    requires Unnumbered(rows) != []
    ensures var i := Unnumbered(rows)[0];
            Unnumbered(rows[i := rows[i].(sequence := Some(v))]) == Unnumbered(rows)[1..]
  {
    var n, at := |rows| - 1, Unnumbered(rows);
    var i := at[0];
    var now := rows[i := rows[i].(sequence := Some(v))];
    if i < n {
      assert Unnumbered(rows[..n]) != [] && Unnumbered(rows[..n])[0] == i;
      FirstNumbered(rows[..n], v);
      assert now[..n] == rows[..n][i := rows[i].(sequence := Some(v))];
    } else {
      assert now[..n] == rows[..n];
    }
  }

  // What is left to number after k rows is the rest, in the same order.
  lemma {:induction false} Remaining(rows: seq<Row>, k: nat)
    requires k <= |Unnumbered(rows)|
    ensures Unnumbered(Numbered(rows, k)) == Unnumbered(rows)[k..]
  {
    hide Numbered, Unnumbered, NumberOf;
    if k == 0 {
      NothingNumbered(rows);
    } else {
      Remaining(rows, k - 1);
      var i := Unnumbered(rows)[k - 1];
      NumberedRow(rows, k - 1, i);
      NumberedStep(rows, k - 1);
      FirstNumbered(Numbered(rows, k - 1), NumberOf(rows, k - 1));
      assert Unnumbered(rows)[k - 1..][1..] == Unnumbered(rows)[k..];
    }
  }

  // ------------------------------------------------------------ the backfill

  class AuditTable {
    var rows: seq<Row>

    constructor (rows: seq<Row>)
      ensures this.rows == rows
    {
      this.rows := rows;
    }

    // Whatever the batch size, the result is the table with its first
    // batchSize * maxBatches unnumbered rows numbered.
    method BackfillAuditSequences(batchSize: nat, maxBatches: nat) returns (updated: nat)
      modifies this
      ensures updated == Least(batchSize * maxBatches, |Unnumbered(old(rows))|)
      ensures rows == Numbered(old(rows), updated)
    {
      hide Numbered, Unnumbered;
      updated := 0;
      ghost var rows0, total := rows, |Unnumbered(rows)|;
      NothingNumbered(rows0);
      for b := 0 to maxBatches
        invariant updated == Least(batchSize * b, total) && rows == Numbered(rows0, updated)
      {
        Remaining(rows0, updated);
        var waiting := Unnumbered(rows);
        var batch := waiting[..Least(batchSize, |waiting|)];
        if batch == [] {
          LastBatch(batchSize, b, maxBatches, total);
          break;
        }
        NextBatch(batchSize, b, total);
        NumberBatch(rows0, updated, batch);
        updated := updated + |batch|;
      }
    }

    // One batch: the maximum of a tenant is read when the batch first meets it, before any
    // of the batch's numbers are written for that tenant.
    method NumberBatch(ghost rows0: seq<Row>, ghost done: nat, batch: seq<nat>)
      requires done + |batch| <= |Unnumbered(rows0)|
      requires rows == Numbered(rows0, done) && batch == Unnumbered(rows0)[done..done + |batch|]
      modifies this
      ensures rows == Numbered(rows0, done + |batch|)
    {
      hide Numbered, Unnumbered, TenantMax, NumberOf;
      var stored := rows;
      var nextByTenant: map<string, nat> := map[];
      for k := 0 to |batch|
        invariant rows == Numbered(rows0, done + k)
        invariant forall t :: t in nextByTenant ==> nextByTenant[t] == TenantMax(rows, t)
        invariant forall t :: t !in nextByTenant ==> TenantMax(stored, t) == TenantMax(rows, t)
      {
        var i := batch[k];
        NextNumber(rows0, done + k, i);
        NumberedStep(rows0, done + k);
        var row := rows[i];
        if row.tenant !in nextByTenant {
          nextByTenant := nextByTenant[row.tenant := TenantMax(stored, row.tenant)];
        }
        var number := nextByTenant[row.tenant] + 1;
        OthersKeepMax(rows, i, number);
        nextByTenant := nextByTenant[row.tenant := number];
        rows := rows[i := row.(sequence := Some(number))];
      }
    }
  }

  lemma {:induction false} OthersKeepMax(rows: seq<Row>, i: nat, number: nat)
    requires i < |rows| && rows[i].sequence.None? && number == TenantMax(rows, rows[i].tenant) + 1
    ensures forall t :: TenantMax(rows[i := rows[i].(sequence := Some(number))], t)
                        == if t == rows[i].tenant then number else TenantMax(rows, t)
  {
    forall t ensures TenantMax(rows[i := rows[i].(sequence := Some(number))], t)
                  == if t == rows[i].tenant then number else TenantMax(rows, t)
    {
      MaxAfterOne(rows, i, number, t);
    }
  }

  lemma NextBatch(batchSize: nat, b: nat, total: nat)
    ensures var done := Least(batchSize * b, total);
            Least(batchSize * (b + 1), total) == done + Least(batchSize, total - done)
  {
    assert batchSize * (b + 1) == batchSize * b + batchSize;
  }

  lemma LastBatch(batchSize: nat, b: nat, maxBatches: nat, total: nat)
    requires b < maxBatches && Least(batchSize, total - Least(batchSize * b, total)) == 0
    ensures Least(batchSize * b, total) == Least(batchSize * maxBatches, total)
  {
    assert batchSize * b <= batchSize * maxBatches;
  }

  // The next number is one above the tenant's maximum so far.
  lemma {:induction false} NextNumber(rows: seq<Row>, k: nat, i: nat)
    requires k < |Unnumbered(rows)| && i == Unnumbered(rows)[k]
    ensures Numbered(rows, k)[i] == rows[i] && rows[i].sequence.None?
    ensures NumberOf(rows, k) == TenantMax(Numbered(rows, k), rows[i].tenant) + 1
  {
    hide Numbered, Unnumbered, TenantMax;
    NumberedRow(rows, k, i);
    MaxGrows(rows, k, rows[i].tenant);
    PrefixOfPrefix(Unnumbered(rows), k + 1);
  }

  // ---------------------------------------------------------- main results

  // Stopping and starting again continues the numbering where it was left.
  lemma {:induction false} BackfillResumes(rows: seq<Row>, a: nat, b: nat)
    requires a + b <= |Unnumbered(rows)|
    ensures b <= |Unnumbered(Numbered(rows, a))|
    ensures Numbered(Numbered(rows, a), b) == Numbered(rows, a + b)
  {
    hide Numbered, Unnumbered, TenantMax, NumberOf;
    Remaining(rows, a);
    var part := Numbered(rows, a);
    if b == 0 {
      NothingNumbered(part);
    } else {
      BackfillResumes(rows, a, b - 1);
      var i := Unnumbered(rows)[a + b - 1];
      assert Unnumbered(part)[b - 1] == i;
      NextNumber(rows, a + b - 1, i);
      NextNumber(part, b - 1, i);
      NumberedRow(rows, a, i);
      NumberedStep(rows, a + b - 1);
      NumberedStep(part, b - 1);
    }
  }

  // A full backfill leaves no row unnumbered, touches no numbered row and changes
  // nothing but the sequence; a second run therefore changes nothing.
  lemma FullBackfill(rows: seq<Row>)
    ensures var r := Numbered(rows, |Unnumbered(rows)|);
            && Unnumbered(r) == []
            && (forall i :: 0 <= i < |rows| ==>
                  && r[i] == rows[i].(sequence := r[i].sequence)
                  && (rows[i].sequence.Some? ==> r[i] == rows[i]))
  {
    var at := Unnumbered(rows);
    Remaining(rows, |at|);
    forall i | 0 <= i < |rows|
      ensures Numbered(rows, |at|)[i] == rows[i].(sequence := Numbered(rows, |at|)[i].sequence)
      ensures rows[i].sequence.Some? ==> Numbered(rows, |at|)[i] == rows[i]
    {
      NumberedRow(rows, |at|, i);
    }
  }

  lemma {:induction false} CountGrows(rows: seq<Row>, at: seq<nat>, i: nat, j: nat, tenant: string)
    requires forall j :: 0 <= j < |at| ==> at[j] < |rows|
    requires i < j < |at| && rows[at[j]].tenant == tenant
    ensures OfTenant(rows, at[..i + 1], tenant) < OfTenant(rows, at[..j + 1], tenant)
    decreases j
  {
    assert at[..j + 1][..j] == at[..j];
    CountMonotone(rows, at, i + 1, j, tenant);
  }

  lemma {:induction false} CountMonotone(rows: seq<Row>, at: seq<nat>, i: nat, j: nat, tenant: string)
    requires forall j :: 0 <= j < |at| ==> at[j] < |rows|
    requires i <= j <= |at|
    ensures OfTenant(rows, at[..i], tenant) <= OfTenant(rows, at[..j], tenant)
    decreases j
  {
    if i < j {
      assert at[..j][..j - 1] == at[..j - 1];
      CountMonotone(rows, at, i, j - 1, tenant);
    }
  }

  lemma {:induction false} MaxIsUpper(rows: seq<Row>, i: nat)
    requires i < |rows| && rows[i].sequence.Some?
    ensures rows[i].sequence.value <= TenantMax(rows, rows[i].tenant)
  {
    if i < |rows| - 1 {
      MaxIsUpper(rows[..|rows| - 1], i);
    }
  }

  // Within a tenant the new numbers lie above every old one and rise in reading
  // order, so no number repeats if none did before.
  lemma NumbersRiseWithinTenant(rows: seq<Row>, i: nat, j: nat)
    requires i < j < |Unnumbered(rows)|
    requires rows[Unnumbered(rows)[i]].tenant == rows[Unnumbered(rows)[j]].tenant
    ensures TenantMax(rows, rows[Unnumbered(rows)[i]].tenant) < NumberOf(rows, i) < NumberOf(rows, j)
  {
    var at, tenant := Unnumbered(rows), rows[Unnumbered(rows)[i]].tenant;
    CountGrows(rows, at, i, j, tenant);
    assert at[..i + 1][..i] == at[..i];
  }

  ghost predicate NoRepeats(rows: seq<Row>) {
    forall i, j :: 0 <= i < j < |rows| && rows[i].tenant == rows[j].tenant && rows[i].sequence.Some? && rows[j].sequence.Some?
                   ==> rows[i].sequence != rows[j].sequence
  }

  lemma {:induction false} BackfillKeepsNumbersUnique(rows: seq<Row>, k: nat)
    requires NoRepeats(rows) && k <= |Unnumbered(rows)|
    ensures NoRepeats(Numbered(rows, k))
  {
    hide Numbered, Unnumbered, TenantMax, NumberOf;
    if k == 0 {
      NothingNumbered(rows);
    } else {
      BackfillKeepsNumbersUnique(rows, k - 1);
      var i, before := Unnumbered(rows)[k - 1], Numbered(rows, k - 1);
      NumberedStep(rows, k - 1);
      NextNumber(rows, k - 1, i);
      forall j | 0 <= j < |before| && before[j].sequence.Some? && before[j].tenant == rows[i].tenant
        ensures before[j].sequence.value < NumberOf(rows, k - 1)
      {
        MaxIsUpper(before, j);
      }
    }
  }

  // The numbers a tenant receives are consecutive: its first unnumbered row gets
  // the former maximum plus one, each further one the next number.
  lemma NumbersAreConsecutive(rows: seq<Row>, j: nat)
    requires j < |Unnumbered(rows)|
    ensures var at := Unnumbered(rows);
            NumberOf(rows, j) == TenantMax(rows, rows[at[j]].tenant) + 1 + OfTenant(rows, at[..j], rows[at[j]].tenant)
  {
    var at := Unnumbered(rows);
    assert at[..j + 1][..j] == at[..j];
  }
}
