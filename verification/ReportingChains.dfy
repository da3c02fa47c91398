/**
 Reporting lines as a functional graph: `par` maps an employee to the one
 manager it reports to. Roots are the employees outside the map's domain.
 */
module ReportingChains {
  import opened Prelude

  type Links = map<string, string>

  // The employee k steps above x, or None when the chain ends before that.
  ghost function Up(par: Links, x: string, k: nat): Option<string>
    decreases k
  {
    if k == 0 then Some(x)
    else if x in par then Up(par, par[x], k - 1)
    else None
  }

  // a is x itself or one of its direct or indirect managers.
  ghost predicate Above(par: Links, a: string, x: string) {
    exists k: nat :: Up(par, x, k) == Some(a)
  }

  ghost predicate Rooted(par: Links, x: string) {
    exists k: nat :: Up(par, x, k) == None
  }

  ghost predicate OnCycle(par: Links, c: string) {
    exists k: nat :: k > 0 && Up(par, c, k) == Some(c)
  }

  // x together with everyone reporting to it, directly or indirectly.
  ghost function Subtree(par: Links, people: set<string>, x: string): set<string> {
    set y | y in people && Above(par, x, y)
  }

  // ------------------------------------------------------------ walking up

  lemma {:induction false} UpSplit(par: Links, x: string, i: nat, j: nat)
    ensures Up(par, x, i + j) ==
            match Up(par, x, i) case None => None case Some(y) => Up(par, y, j)
    decreases i
  {
    if i == 0 {
    } else if x in par {
      UpSplit(par, par[x], i - 1, j);
    }
  }

  lemma AboveSelf(par: Links, x: string)
    ensures Above(par, x, x)
  {
    assert Up(par, x, 0) == Some(x);
  }

  lemma AboveStep(par: Links, a: string, x: string)
    requires x in par
    ensures Above(par, a, x) <==> a == x || Above(par, a, par[x])
  {
    AboveSelf(par, x);
    if Above(par, a, x) {
      var k: nat :| Up(par, x, k) == Some(a);
      if k > 0 {
        assert Up(par, par[x], k - 1) == Some(a);
      }
    }
    if Above(par, a, par[x]) {
      var k: nat :| Up(par, par[x], k) == Some(a);
      assert Up(par, x, k + 1) == Some(a);
    }
  }

  lemma AboveTransitive(par: Links, a: string, b: string, x: string)
    requires Above(par, a, b) && Above(par, b, x)
    ensures Above(par, a, x)
  {
    var i: nat :| Up(par, x, i) == Some(b);
    var j: nat :| Up(par, b, j) == Some(a);
    UpSplit(par, x, i, j);
  }

  // Two employees above the same one are above one another.
  lemma AboveLinear(par: Links, a: string, b: string, x: string)
    requires Above(par, a, x) && Above(par, b, x)
    ensures Above(par, a, b) || Above(par, b, a)
  {
    var i: nat :| Up(par, x, i) == Some(a);
    var j: nat :| Up(par, x, j) == Some(b);
    if i <= j {
      UpSplit(par, x, i, j - i);
    } else {
      UpSplit(par, x, j, i - j);
    }
  }

  lemma RootedAlong(par: Links, a: string, x: string)
    requires Above(par, a, x)
    ensures Rooted(par, a) <==> Rooted(par, x)
  {
    var i: nat :| Up(par, x, i) == Some(a);
    if Rooted(par, a) {
      var k: nat :| Up(par, a, k) == None;
      UpSplit(par, x, i, k);
    }
    if Rooted(par, x) {
      var k: nat :| Up(par, x, k) == None;
      EndsForGood(par, x, k, i);
      UpSplit(par, x, i, k);
    }
  }

  lemma EndsForGood(par: Links, x: string, k: nat, more: nat)
    requires Up(par, x, k) == None
    ensures Up(par, x, k + more) == None
  {
    UpSplit(par, x, k, more);
  }

  // -------------------------------------------------------------- cycles

  lemma {:induction false} CycleNeverEnds(par: Links, c: string, period: nat, n: nat)
    requires period > 0 && Up(par, c, period) == Some(c)
    ensures Up(par, c, n).Some?
  {
    if n < period {
      if Up(par, c, n) == None {
        EndsForGood(par, c, n, period - n);
      }
    } else {
      CycleNeverEnds(par, c, period, n - period);
      UpSplit(par, c, period, n - period);
    }
  }

  lemma RootedOffCycle(par: Links, x: string)
    requires Rooted(par, x)
    ensures !OnCycle(par, x)
  {
    if OnCycle(par, x) {
      var period: nat :| period > 0 && Up(par, x, period) == Some(x);
      var k: nat :| Up(par, x, k) == None;
      CycleNeverEnds(par, x, period, k);
    }
  }

  // Whoever is above a member of a cycle is on that same cycle.
  lemma AboveCycle(par: Links, a: string, c: string)
    requires OnCycle(par, c) && Above(par, a, c)
    ensures OnCycle(par, a) && Above(par, c, a)
  {
    var period: nat :| period > 0 && Up(par, c, period) == Some(c);
    var i: nat :| Up(par, c, i) == Some(a);
    Laps(par, c, period, i);
    var laps := i * period;
    assert laps >= i;
    UpSplit(par, c, i, laps - i);
    assert Up(par, a, laps - i) == Some(c);
    UpSplit(par, a, laps - i, period);
    UpSplit(par, a, laps - i + period, i);
    assert Up(par, a, laps - i + period + i) == Some(a);
  }

  lemma {:induction false} Laps(par: Links, c: string, period: nat, n: nat)
    requires period > 0 && Up(par, c, period) == Some(c)
    ensures n * period >= n && Up(par, c, n * period) == Some(c)
  {
    if n > 0 {
      Laps(par, c, period, n - 1);
      assert n * period == period + (n - 1) * period;
      UpSplit(par, c, period, (n - 1) * period);
    }
  }

  // A chain that never ends must revisit somebody: it runs into a cycle.
  lemma UnrootedRunsIntoCycle(par: Links, x: string)
    requires !Rooted(par, x)
    ensures exists c :: OnCycle(par, c) && Above(par, c, x)
  {
    var c := FindCycle(par, x, 0, {});
  }

  // y is met within the first k steps up from x.
  ghost predicate MetWithin(par: Links, x: string, k: nat, y: string) {
    exists i: nat :: i < k && Up(par, x, i) == Some(y)
  }

  lemma {:induction false} FindCycle(par: Links, x: string, k: nat, seen: set<string>) returns (c: string)
    requires !Rooted(par, x)
    requires forall y :: y in seen ==> y in par && MetWithin(par, x, k, y)
    requires |seen| == k
    ensures OnCycle(par, c) && Above(par, c, x)
    decreases |par.Keys| - |seen|
  {
    SubsetCount(seen, par.Keys);
    var y := Up(par, x, k).value;
    if y in seen {
      var i: nat :| i < k && Up(par, x, i) == Some(y);
      UpSplit(par, x, i, k - i);
      c := y;
    } else {
      UpSplit(par, x, k, 1);
      assert Up(par, x, k + 1).Some?;
      assert y in par;
      SubsetCount(seen + {y}, par.Keys);
      assert MetWithin(par, x, k + 1, y);
      assert forall z :: MetWithin(par, x, k, z) ==> MetWithin(par, x, k + 1, z);
      c := FindCycle(par, x, k + 1, seen + {y});
    }
  }

  // ------------------------------------------------- cutting some links

  ghost predicate SubLinks(sub: Links, par: Links) {
    forall x :: x in sub ==> x in par && sub[x] == par[x]
  }

  lemma {:induction false} UpInSub(sub: Links, par: Links, x: string, k: nat)
    requires SubLinks(sub, par)
    ensures Up(sub, x, k).Some? ==> Up(par, x, k) == Up(sub, x, k)
    decreases k
  {
    if k > 0 && x in sub {
      UpInSub(sub, par, par[x], k - 1);
    }
  }

  lemma AboveInSub(sub: Links, par: Links, a: string, x: string)
    requires SubLinks(sub, par) && Above(sub, a, x)
    ensures Above(par, a, x)
  {
    var k: nat :| Up(sub, x, k) == Some(a);
    UpInSub(sub, par, x, k);
  }

  lemma RootedInSub(sub: Links, par: Links, x: string)
    requires SubLinks(sub, par) && Rooted(par, x)
    ensures Rooted(sub, x)
  {
    var k: nat :| Up(par, x, k) == None;
    UpInSub(sub, par, x, k);
  }

  // Cutting the link of somebody above x gives x a root.
  lemma {:induction false} CutAboveRoots(sub: Links, par: Links, y: string, x: string, k: nat)
    requires SubLinks(sub, par) && y !in sub && Up(par, x, k) == Some(y)
    ensures Rooted(sub, x)
    decreases k
  {
    if x !in sub {
      assert Up(sub, x, 1) == None;
    } else {
      CutAboveRoots(sub, par, y, par[x], k - 1);
      AboveSelf(sub, sub[x]);
      AboveStep(sub, sub[x], x);
      RootedAlong(sub, sub[x], x);
    }
  }
}
