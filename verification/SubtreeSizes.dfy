/** Counting subtrees of a forest of reporting lines. */
module SubtreeSizes {
  import opened Prelude
  import opened ReportingChains

  // Total size of the subtrees below the listed people.
  ghost function Weight(par: Links, people: set<string>, xs: seq<string>): nat {
    if xs == [] then 0
    else Weight(par, people, xs[..|xs| - 1]) + |Subtree(par, people, xs[|xs| - 1])|
  }

  // The listed people are exactly the direct reports of x, each once.
  ghost predicate DirectReports(par: Links, x: string, kids: seq<string>) {
    && NoDuplicates(kids)
    && forall c :: c in kids <==> c in par && par[c] == x
  }

  ghost function Union(par: Links, people: set<string>, xs: seq<string>): set<string> {
    set y | y in people && exists x :: x in xs && Above(par, x, y)
  }

  // Nobody listed is above anybody else listed.
  ghost predicate Apart(par: Links, xs: seq<string>) {
    forall i, j :: 0 <= i < |xs| && 0 <= j < |xs| && i != j ==> !Above(par, xs[i], xs[j])
  }

  lemma {:induction false} WeightConcat(par: Links, people: set<string>, xs: seq<string>, ys: seq<string>)
    ensures Weight(par, people, xs + ys) == Weight(par, people, xs) + Weight(par, people, ys)
  {
    if ys == [] {
      assert xs + ys == xs;
    } else {
      var init := ys[..|ys| - 1];
      assert (xs + ys)[..|xs + ys| - 1] == xs + init;
      WeightConcat(par, people, xs, init);
    }
  }

  lemma UnionLast(par: Links, people: set<string>, xs: seq<string>)
    requires xs != []
    ensures Union(par, people, xs)
         == Union(par, people, xs[..|xs| - 1]) + Subtree(par, people, xs[|xs| - 1])
  {
    var init, last := xs[..|xs| - 1], xs[|xs| - 1];
    forall y | y in people
      ensures y in Union(par, people, xs) <==> y in Union(par, people, init) || Above(par, last, y)
    {
      assert forall x :: x in xs <==> x in init || x == last;
    }
  }

  lemma {:induction false} WeightIsUnion(par: Links, people: set<string>, xs: seq<string>)
    requires Apart(par, xs)
    ensures Weight(par, people, xs) == |Union(par, people, xs)|
  {
    if xs == [] {
      assert Union(par, people, xs) == {};
    } else {
      var init, last := xs[..|xs| - 1], xs[|xs| - 1];
      ApartPrefix(par, xs);
      WeightIsUnion(par, people, init);
      UnionLast(par, people, xs);
      LastTreeDisjoint(par, people, xs);
    }
  }

  lemma ApartPrefix(par: Links, xs: seq<string>)
    requires xs != [] && Apart(par, xs)
    ensures Apart(par, xs[..|xs| - 1])
  {
    var init := xs[..|xs| - 1];
    forall i, j | 0 <= i < |init| && 0 <= j < |init| && i != j ensures !Above(par, init[i], init[j]) {
      assert init[i] == xs[i] && init[j] == xs[j];
    }
  }

  lemma LastTreeDisjoint(par: Links, people: set<string>, xs: seq<string>)
    requires xs != [] && Apart(par, xs)
    ensures Union(par, people, xs[..|xs| - 1]) !! Subtree(par, people, xs[|xs| - 1])
  {
    var init, last := xs[..|xs| - 1], xs[|xs| - 1];
    forall y | y in Union(par, people, init) ensures !Above(par, last, y) {
      var x :| x in init && Above(par, x, y);
      var i :| 0 <= i < |init| && init[i] == x;
      assert !Above(par, xs[i], xs[|xs| - 1]) && !Above(par, xs[|xs| - 1], xs[i]);
      if Above(par, last, y) {
        AboveLinear(par, x, last, y);
      }
    }
  }

  lemma ParentNotBelow(par: Links, c: string)
    requires c in par && Rooted(par, par[c])
    ensures !Above(par, c, par[c])
  {
    if Above(par, c, par[c]) {
      var i: nat :| Up(par, par[c], i) == Some(c);
      UpSplit(par, par[c], i, 1);
      RootedOffCycle(par, par[c]);
    }
  }

  lemma SiblingsApart(par: Links, x: string, kids: seq<string>)
    requires DirectReports(par, x, kids) && Rooted(par, x)
    ensures Apart(par, kids)
  {
    forall i, j | 0 <= i < |kids| && 0 <= j < |kids| && i != j ensures !Above(par, kids[i], kids[j]) {
      var c, d := kids[i], kids[j];
      assert c in kids && d in kids && c != d;
      AboveStep(par, c, d);
      ParentNotBelow(par, c);
    }
  }

  lemma OnlyItselfAboveRoot(par: Links, a: string, r: string)
    requires r !in par && Above(par, a, r)
    ensures a == r
  {
  }

  // A subtree is its top plus the disjoint subtrees of the direct reports.
  lemma SubtreeOfReports(par: Links, people: set<string>, x: string, kids: seq<string>)
    requires DirectReports(par, x, kids) && Rooted(par, x) && x in people
    ensures Subtree(par, people, x) == {x} + Union(par, people, kids)
    ensures x !in Union(par, people, kids)
    ensures |Subtree(par, people, x)| == 1 + Weight(par, people, kids)
  {
    SiblingsApart(par, x, kids);
    WeightIsUnion(par, people, kids);
    AboveSelf(par, x);
    forall y | y in people ensures Above(par, x, y) <==> y == x || y in Union(par, people, kids) {
      if Above(par, x, y) && y != x {
        var k: nat :| Up(par, y, k) == Some(x);
        UpSplit(par, y, k - 1, 1);
        var c := Up(par, y, k - 1).value;
        assert c in kids && Above(par, c, y);
      }
      if y in Union(par, people, kids) {
        var c :| c in kids && Above(par, c, y);
        AboveStep(par, x, c);
        AboveSelf(par, x);
        AboveTransitive(par, x, c, y);
      }
    }
    if x in Union(par, people, kids) {
      var c :| c in kids && Above(par, c, x);
      ParentNotBelow(par, c);
    }
  }

  lemma {:induction false} RootAbove(par: Links, x: string, k: nat) returns (r: string)
    requires Up(par, x, k) == None
    ensures r !in par && Above(par, r, x)
    decreases k
  {
    if x in par {
      r := RootAbove(par, par[x], k - 1);
      AboveStep(par, r, x);
    } else {
      r := x;
      AboveSelf(par, x);
    }
  }

  lemma RootedIffRootAbove(par: Links, x: string)
    ensures Rooted(par, x) <==> exists r :: r !in par && Above(par, r, x)
  {
    if Rooted(par, x) {
      var k: nat :| Up(par, x, k) == None;
      var r := RootAbove(par, x, k);
    }
    if r :| r !in par && Above(par, r, x) {
      assert Up(par, r, 1) == None;
      RootedAlong(par, r, x);
    }
  }

  // The trees below the roots of a forest hold everybody exactly once.
  lemma RootsHoldEverybody(par: Links, people: set<string>, roots: seq<string>)
    requires NoDuplicates(roots)
    requires forall r :: r in roots <==> r in people && r !in par
    requires forall x :: x in par ==> par[x] in people
    requires forall x :: x in people ==> Rooted(par, x)
    ensures Weight(par, people, roots) == |people|
  {
    forall i, j | 0 <= i < |roots| && 0 <= j < |roots| && i != j ensures !Above(par, roots[i], roots[j]) {
      assert roots[j] in roots;
      if Above(par, roots[i], roots[j]) {
        OnlyItselfAboveRoot(par, roots[i], roots[j]);
      }
    }
    WeightIsUnion(par, people, roots);
    forall y | y in people ensures y in Union(par, people, roots) {
      RootedIffRootAbove(par, y);
      var r :| r !in par && Above(par, r, y);
      var k: nat :| Up(par, y, k) == Some(r);
      AboveStaysIn(par, people, y, k);
      assert r in roots;
    }
    assert Union(par, people, roots) == people;
  }

  lemma {:induction false} AboveStaysIn(par: Links, people: set<string>, x: string, k: nat)
    requires x in people && forall y :: y in par ==> par[y] in people
    ensures Up(par, x, k).Some? ==> Up(par, x, k).value in people
    decreases k
  {
    if k > 0 && x in par {
      AboveStaysIn(par, people, par[x], k - 1);
    }
  }
}
