/**
 What the cycle-breaking loop of the hierarchy builder computes, stated without
 the loop: an employee is promoted to a root exactly when its manager chain
 never ends and nobody above it comes earlier in the list.
 */
module CycleBreaking {
  import opened Prelude
  import opened ReportingChains

  // Position of the first occurrence of x in the list.
  function Position(order: seq<string>, x: string): (p: nat)
    ensures p <= |order|
    ensures x in order <==> p < |order|
    ensures p < |order| ==> order[p] == x && x !in order[..p]
  {
    if order == [] then 0
    else if order[0] == x then 0
    else 1 + Position(order[1..], x)
  }

  ghost predicate Promoted(order: seq<string>, par: Links, x: string) {
    && x in order
    && !Rooted(par, x)
    && forall a :: Above(par, a, x) ==> Position(order, x) <= Position(order, a)
  }

  // Every link is between two listed employees.
  ghost predicate Within(order: seq<string>, par: Links) {
    forall x :: x in par ==> x in order && par[x] in order
  }

  ghost function PromotedSet(order: seq<string>, par: Links): set<string> {
    set x | x in order && Promoted(order, par, x)
  }

  // The links that survive: everybody but the promoted keeps the same parent.
  ghost function ForestLinks(order: seq<string>, par: Links): Links {
    map x | x in par && x !in PromotedSet(order, par) :: par[x]
  }

  lemma {:induction false} AboveIsListed(order: seq<string>, par: Links, a: string, x: string, k: nat)
    requires Within(order, par) && x in order && Up(par, x, k) == Some(a)
    ensures a in order
    decreases k
  {
    if k > 0 {
      AboveIsListed(order, par, a, par[x], k - 1);
    }
  }

  lemma UnrootedKeepsGoing(par: Links, x: string)
    requires !Rooted(par, x)
    ensures x in par && !Rooted(par, par[x])
  {
    assert Up(par, x, 1).Some?;
    AboveSelf(par, par[x]);
    AboveStep(par, par[x], x);
    RootedAlong(par, par[x], x);
  }

  // Climbing to ever earlier people above x ends at a promoted one.
  lemma {:induction false} PromotedAbove(order: seq<string>, par: Links, x: string) returns (p: string)
    requires Within(order, par) && x in order && !Rooted(par, x)
    ensures Above(par, p, x) && Promoted(order, par, p) && Position(order, p) <= Position(order, x)
    decreases Position(order, x)
  {
    AboveSelf(par, x);
    if a :| Above(par, a, x) && Position(order, a) < Position(order, x) {
      RootedAlong(par, a, x);
      p := PromotedAbove(order, par, a);
      AboveTransitive(par, p, a, x);
    } else {
      p := x;
    }
  }

  // ---------------------------------------------------------- main results

  // The result is a forest: every chain of surviving links ends at a root,
  // so nobody is above themselves.
  lemma ForestIsRooted(order: seq<string>, par: Links, x: string)
    requires Within(order, par) && x in order
    ensures Rooted(ForestLinks(order, par), x)
    ensures !OnCycle(ForestLinks(order, par), x)
  {
    var forest := ForestLinks(order, par);
    if Rooted(par, x) {
      RootedInSub(forest, par, x);
    } else {
      var p := PromotedAbove(order, par, x);
      var k: nat :| Up(par, x, k) == Some(p);
      CutAboveRoots(forest, par, p, x, k);
    }
    RootedOffCycle(forest, x);
  }

  // Exactly one member of every manager cycle is promoted.
  lemma OnePromotedPerCycle(order: seq<string>, par: Links, c: string)
    requires Within(order, par) && c in order && OnCycle(par, c)
    ensures exists p ::
              && Above(par, p, c) && Promoted(order, par, p)
              && forall q :: Above(par, q, c) && Promoted(order, par, q) ==> q == p
  {
    if Rooted(par, c) {
      RootedOffCycle(par, c);
    }
    var p := PromotedAbove(order, par, c);
    forall q | Above(par, q, c) && Promoted(order, par, q) ensures q == p {
      AboveCycle(par, p, c);
      AboveCycle(par, q, c);
      AboveTransitive(par, q, c, p);
      AboveTransitive(par, p, c, q);
      assert order[Position(order, p)] == p && order[Position(order, q)] == q;
    }
  }

  // Promotion is local: whoever is promoted sits on or below a cycle, so
  // everybody else with a link keeps exactly the parent the link names.
  lemma PromotionIsLocal(order: seq<string>, par: Links, x: string)
    ensures Promoted(order, par, x) ==> exists c :: OnCycle(par, c) && Above(par, c, x)
    ensures x in par && (forall c :: OnCycle(par, c) ==> !Above(par, c, x))
            ==> x in ForestLinks(order, par) && ForestLinks(order, par)[x] == par[x]
  {
    if Promoted(order, par, x) {
      UnrootedRunsIntoCycle(par, x);
    }
  }

  lemma AcyclicIsKept(order: seq<string>, par: Links)
    requires Within(order, par)
    ensures ForestLinks(order, par) == par <==> forall x :: x in order ==> Rooted(par, x)
  {
    if x :| x in order && !Rooted(par, x) {
      var p := PromotedAbove(order, par, x);
      UnrootedKeepsGoing(par, p);
      assert p in par && p !in ForestLinks(order, par);
    }
  }

  // The builder's own comment promises one promotion per cycle and no more.
  // That is so exactly when everybody hanging below a cycle is listed after
  // some member of that cycle.
  lemma {:induction false} PromotesOnlyCycleMembers(order: seq<string>, par: Links)
    requires Within(order, par)
    ensures (forall x :: Promoted(order, par, x) ==> OnCycle(par, x))
       <==> (forall x :: x in order && !Rooted(par, x) && !OnCycle(par, x) ==> ListedAfterCycle(order, par, x))
  {
    if forall x :: Promoted(order, par, x) ==> OnCycle(par, x) {
      forall x | x in order && !Rooted(par, x) && !OnCycle(par, x) ensures ListedAfterCycle(order, par, x) {
        var p := PromotedAbove(order, par, x);
        assert order[Position(order, p)] == p && order[Position(order, x)] == x;
      }
    }
  }

  // Some member of the cycle x hangs below comes earlier in the list.
  ghost predicate ListedAfterCycle(order: seq<string>, par: Links, x: string) {
    exists c :: OnCycle(par, c) && Above(par, c, x) && Position(order, c) < Position(order, x)
  }

  // A report listed before the two-person cycle it hangs below is promoted
  // together with a member of the cycle.
  lemma HangerPromotedToo()
    ensures var order, par := ["h", "a", "b"], map["h" := "a", "a" := "b", "b" := "a"];
            && Within(order, par)
            && Promoted(order, par, "h") && !OnCycle(par, "h")
            && Promoted(order, par, "a") && OnCycle(par, "a")
  {
    var order, par := ["h", "a", "b"], map["h" := "a", "a" := "b", "b" := "a"];
    assert Position(order, "a") == 1 by { assert order[1..][0] == "a"; }
    forall k: nat ensures Up(par, "a", k) == Some(if k % 2 == 0 then "a" else "b") { Alternates(par, k); }
    assert Up(par, "a", 2) == Some("a");
    assert !Rooted(par, "a");
    AboveSelf(par, "a");
    AboveStep(par, "a", "h");
    RootedAlong(par, "a", "h");
    forall k: nat ensures k > 0 ==> Up(par, "h", k) == Up(par, "a", k - 1) {
    }
    assert !OnCycle(par, "h");
    forall x | Above(par, x, "a") ensures x == "a" || x == "b" {
      var k: nat :| Up(par, "a", k) == Some(x);
    }
    assert Position(order, "b") == 2 by {
      assert order[1..][1..][0] == "b";
    }
  }

  lemma {:induction false} Alternates(par: Links, k: nat)
    requires par == map["h" := "a", "a" := "b", "b" := "a"]
    ensures Up(par, "a", k) == Some(if k % 2 == 0 then "a" else "b")
  {
    if k >= 2 {
      Alternates(par, k - 2);
      assert Up(par, "a", k) == Up(par, "b", k - 1) == Up(par, "a", k - 2);
    }
  }

  // ------------------------------------ what the promotion loop keeps

  ghost function Without(par: Links, cut: set<string>): Links {
    map x | x in par && x !in cut :: par[x]
  }

  // `cut` are the people promoted so far, `visited` those already placed.
  ghost predicate CutState(order: seq<string>, par: Links, cut: set<string>, visited: set<string>) {
    && visited <= Elements(order)
    && (forall x :: x in order ==> (x in visited <==> Rooted(par, x) || exists y :: y in cut && Above(par, y, x)))
    && (forall y :: y in cut ==> Promoted(order, par, y))
    && (forall x :: x in visited && Promoted(order, par, x) ==> x in cut)
  }

  // Whoever has a placed manager is placed, once only surviving links count.
  lemma VisitedIsClosed(order: seq<string>, par: Links, cut: set<string>, visited: set<string>, x: string)
    requires Within(order, par) && CutState(order, par, cut, visited)
    requires x in par && par[x] in visited
    ensures x in visited
  {
    AboveSelf(par, par[x]);
    AboveStep(par, par[x], x);
    RootedAlong(par, par[x], x);
    if y :| y in cut && Above(par, y, par[x]) {
      AboveStep(par, y, x);
    }
  }

  lemma {:induction false} CutIsVisited(order: seq<string>, par: Links, cut: set<string>, visited: set<string>)
    requires Within(order, par) && CutState(order, par, cut, visited)
    ensures cut <= visited
    ensures forall y :: y in par && par[y] in visited ==> y in visited
  {
    forall y | y in cut ensures y in visited {
      AboveSelf(par, y);
    }
    forall y | y in par && par[y] in visited ensures y in visited {
      VisitedIsClosed(order, par, cut, visited, y);
    }
  }

  // Cutting p's own link does not change who is placed by visiting below p.
  lemma {:induction false} ReachDespiteCuts(par: Links, cut: set<string>, visited: set<string>, p: string, x: string, k: nat)
    requires cut <= visited
    requires forall y :: y in par && par[y] in visited ==> y in visited
    requires Up(par, x, k) == Some(p)
    ensures x in visited || Above(Without(par, cut + {p}), p, x)
    decreases k
  {
    var now := Without(par, cut + {p});
    if x == p {
      AboveSelf(now, x);
    } else if x !in visited {
      ReachDespiteCuts(par, cut, visited, p, par[x], k - 1);
      AboveStep(now, p, x);
    }
  }

  lemma {:induction false} FirstUnvisitedIsPromoted(order: seq<string>, par: Links, cut: set<string>, visited: set<string>, p: string)
    requires Within(order, par) && CutState(order, par, cut, visited)
    requires p in order && p !in visited
    requires forall a :: a in order && a !in visited ==> Position(order, p) <= Position(order, a)
    ensures Promoted(order, par, p)
  {
    forall a | Above(par, a, p) ensures a in order && a !in visited {
      var k: nat :| Up(par, p, k) == Some(a);
      AboveIsListed(order, par, a, p, k);
      RootedAlong(par, a, p);
      if y :| y in cut && Above(par, y, a) {
        AboveTransitive(par, y, a, p);
      }
    }
  }

  // After cutting p's link, visiting below p places exactly those below p.
  lemma NewlyPlaced(order: seq<string>, par: Links, cut: set<string>, visited: set<string>, p: string, x: string)
    requires Within(order, par) && CutState(order, par, cut, visited) && x in order
    ensures x in visited || Above(Without(par, cut + {p}), p, x) <==> x in visited || Above(par, p, x)
  {
    if Above(Without(par, cut + {p}), p, x) {
      AboveInSub(Without(par, cut + {p}), par, p, x);
    }
    if Above(par, p, x) {
      var k: nat :| Up(par, x, k) == Some(p);
      CutIsVisited(order, par, cut, visited);
      ReachDespiteCuts(par, cut, visited, p, x, k);
    }
  }

  lemma {:induction false} PromotionStep(order: seq<string>, par: Links, cut: set<string>, visited: set<string>, p: string, visited': set<string>)
    requires Within(order, par) && CutState(order, par, cut, visited)
    requires p in order && p !in visited
    requires forall a :: a in order && a !in visited ==> Position(order, p) <= Position(order, a)
    requires visited' == visited + Subtree(Without(par, cut + {p}), Elements(order), p)
    ensures CutState(order, par, cut + {p}, visited')
  {
    FirstUnvisitedIsPromoted(order, par, cut, visited, p);
    forall x | x in order ensures x in visited' <==> x in visited || Above(par, p, x) {
      NewlyPlaced(order, par, cut, visited, p, x);
    }
    forall x | x in visited' && x !in visited && Promoted(order, par, x) ensures x == p {
      assert Above(par, p, x) && Position(order, x) <= Position(order, p);
      assert order[Position(order, p)] == p && order[Position(order, x)] == x;
    }
  }

  lemma AllPlaced(order: seq<string>, par: Links, cut: set<string>, visited: set<string>)
    requires Within(order, par) && CutState(order, par, cut, visited)
    requires forall x :: x in order ==> x in visited
    ensures Without(par, cut) == ForestLinks(order, par)
    ensures cut == PromotedSet(order, par)
  {
    forall x ensures x in cut <==> x in PromotedSet(order, par) {
    }
  }
}
