/**
 The reporting hierarchy: flat employee rows become a forest of nodes that
 hold references to one another, as the service builds it in memory.
 */
module Hierarchy {
  import opened Prelude
  import opened ReportingChains
  import opened CycleBreaking
  import opened SubtreeSizes

  // A stored row; an empty managerId means the row names no manager.
  datatype Record = Record(email: string, name: string, managerId: string)

  class Node {
    const email: string
    const name: string
    var managerId: string
    var directReports: nat
    var totalReports: nat
    var children: seq<Node>

    constructor (record: Record)
      ensures email == record.email && name == record.name && managerId == record.managerId
      ensures directReports == 0 && totalReports == 0 && children == []
    {
      email, name, managerId := record.email, record.name, record.managerId;
      directReports, totalReports, children := 0, 0, [];
    }
  }

  // -------------------------------------------------- what the rows say

  // Distinct non-empty emails in order of first occurrence.
  function Listed(records: seq<Record>): (order: seq<string>)
    ensures NoDuplicates(order)
    ensures forall e :: e in order <==> e != "" && exists r :: r in records && r.email == e
  {
    if records == [] then []
    else
      var init, r := Listed(records[..|records| - 1]), records[|records| - 1];
      assert records == records[..|records| - 1] + [r];
      if r.email == "" || r.email in init then init else init + [r.email]
  }

  // The first row of each listed email.
  function FirstRows(records: seq<Record>): (rows: map<string, Record>)
    ensures rows.Keys == Elements(Listed(records))
    ensures forall e :: e in rows ==> rows[e].email == e
  {
    if records == [] then map[]
    else
      var init, r := FirstRows(records[..|records| - 1]), records[|records| - 1];
      if r.email == "" || r.email in init then init else init[r.email := r]
  }

  // The k-th row is the first with that email.
  ghost predicate FirstAt(records: seq<Record>, e: string, k: nat) {
    k < |records| && records[k].email == e && forall j :: 0 <= j < k ==> records[j].email != e
  }

  lemma ListedPrefix(records: seq<Record>, e: string, k: nat)
    requires records != [] && FirstAt(records, e, k) && e != ""
    ensures var n := |records| - 1;
            && (k < n <==> e in Listed(records[..n]))
            && (k < n ==> FirstAt(records[..n], e, k))
  {
    var n := |records| - 1;
    if k < n {
      assert records[..n][k] == records[k];
    }
    if e in Listed(records[..n]) {
      var r :| r in records[..n] && r.email == e;
      var j :| 0 <= j < n && records[..n][j] == r;
      assert records[j].email == e;
    }
  }

  lemma FirstIsListed(records: seq<Record>, e: string, k: nat)
    requires FirstAt(records, e, k) && e != ""
    ensures records != [] && k < |records| && e in Listed(records) && records[k].email == e
  {
    assert records[k] in records;
  }

  lemma ListedGrows(records: seq<Record>)
    requires records != []
    ensures var init, e := Listed(records[..|records| - 1]), records[|records| - 1].email;
            Listed(records) == if e == "" || e in init then init else init + [e]
  {
  }

  lemma PositionInPrefix(order: seq<string>, x: string, more: seq<string>)
    ensures x in order ==> Position(order + more, x) == Position(order, x)
    ensures x !in order ==> Position(order + more, x) >= |order|
  {
    if x in order {
      assert (order + more)[Position(order, x)] == x;
      SamePosition(order + more, x, Position(order, x));
    }
  }

  lemma SamePosition(order: seq<string>, x: string, p: nat)
    requires p < |order| && order[p] == x && x !in order[..p]
    ensures Position(order, x) == p
  {
    var q := Position(order, x);
    assert forall i :: 0 <= i < p ==> order[i] in order[..p];
    assert forall i :: 0 <= i < q ==> order[i] in order[..q];
  }

  // Emails are listed in the order in which they first occur in the rows.
  lemma {:induction false} ListedInOrder(records: seq<Record>, a: string, i: nat, b: string, j: nat)
    requires FirstAt(records, a, i) && FirstAt(records, b, j) && a != "" && b != "" && i < j
    ensures a in Listed(records) && b in Listed(records) && Position(Listed(records), a) < Position(Listed(records), b)
  {
    hide Listed, Position, FirstAt;
    var n := |records| - 1;
    FirstIsListed(records, a, i);
    FirstIsListed(records, b, j);
    ListedPrefix(records, a, i);
    ListedPrefix(records, b, j);
    ListedGrows(records);
    var init := Listed(records[..n]);
    if j < n {
      ListedInOrder(records[..n], a, i, b, j);
      PositionInPrefix(init, a, [records[n].email]);
      PositionInPrefix(init, b, [records[n].email]);
    } else {
      PositionInPrefix(init, a, [b]);
      PositionInPrefix(init, b, [b]);
    }
  }

  // Of several rows with one email the first counts.
  lemma {:induction false} FirstRowCounts(records: seq<Record>, e: string, k: nat)
    requires FirstAt(records, e, k) && e != ""
    ensures e in FirstRows(records) && FirstRows(records)[e] == records[k]
  {
    var n := |records| - 1;
    ListedPrefix(records, e, k);
    assert e in FirstRows(records[..n]) <==> e in Elements(Listed(records[..n]));
    if k < n {
      FirstRowCounts(records[..n], e, k);
    }
  }

  // Links to a manager that is listed and is somebody else.
  function StoredLinks(rows: map<string, Record>): Links {
    map e | e in rows && rows[e].managerId != "" && rows[e].managerId != e && rows[e].managerId in rows
      :: rows[e].managerId
  }

  // ------------------------------------------------- the nodes as a forest

  function Emails(ns: seq<Node>): (es: seq<string>)
    ensures |es| == |ns| && forall i :: 0 <= i < |ns| ==> es[i] == ns[i].email
  {
    seq(|ns|, i requires 0 <= i < |ns| => ns[i].email)
  }

  ghost predicate Indexed(nodes: map<string, Node>) {
    forall e :: e in nodes ==> nodes[e].email == e
  }

  ghost predicate IsNode(nodes: map<string, Node>, n: Node) {
    n.email in nodes && nodes[n.email] == n
  }

  ghost predicate ChildrenAre(nodes: map<string, Node>, par: Links, e: string, children: seq<Node>) {
    && NoDuplicates(children)
    && (forall c :: c in children ==> IsNode(nodes, c) && c.email in par && par[c.email] == e)
    && (forall x :: x in par && par[x] == e ==> x in nodes && nodes[x] in children)
  }

  // The child lists hold exactly the links of par, each child once.
  ghost predicate Shape(nodes: map<string, Node>, par: Links)
    reads nodes.Values
  {
    && Indexed(nodes)
    && (forall e :: e in nodes ==> ChildrenAre(nodes, par, e, nodes[e].children))
    && (forall x :: x in par ==> x in nodes && par[x] in nodes)
  }

  ghost predicate RootsAre(nodes: map<string, Node>, par: Links, roots: seq<Node>) {
    && NoDuplicates(roots)
    && (forall r :: r in roots ==> IsNode(nodes, r) && r.email !in par)
    && (forall x :: x in nodes && x !in par ==> nodes[x] in roots)
  }

  lemma EmailsOfChildren(nodes: map<string, Node>, par: Links, e: string, children: seq<Node>)
    requires Indexed(nodes) && ChildrenAre(nodes, par, e, children)
    ensures DirectReports(par, e, Emails(children))
  {
    var kids := Emails(children);
    forall i, j | 0 <= i < j < |kids| ensures kids[i] != kids[j] {
      assert children[i] in children && children[j] in children;
    }
    forall c ensures c in kids <==> c in par && par[c] == e {
      if c in kids {
        var i :| 0 <= i < |kids| && kids[i] == c;
        assert children[i] in children;
      }
      if c in par && par[c] == e {
        var i :| 0 <= i < |children| && children[i] == nodes[c];
        assert kids[i] == c;
      }
    }
  }

  lemma EmailsOfRoots(nodes: map<string, Node>, par: Links, roots: seq<Node>)
    requires Indexed(nodes) && RootsAre(nodes, par, roots)
    ensures NoDuplicates(Emails(roots))
    ensures forall r :: r in Emails(roots) <==> r in nodes && r !in par
  {
    var rs := Emails(roots);
    forall i, j | 0 <= i < j < |rs| ensures rs[i] != rs[j] {
      assert roots[i] in roots && roots[j] in roots;
    }
    forall r ensures r in rs <==> r in nodes && r !in par {
      if r in rs {
        var i :| 0 <= i < |rs| && rs[i] == r;
        assert roots[i] in roots;
      }
      if r in nodes && r !in par {
        var i :| 0 <= i < |roots| && roots[i] == nodes[r];
        assert rs[i] == r;
      }
    }
  }

  // ----------------------------------------------------------- visiting

  // Reached from one of the start nodes by following children.
  ghost predicate Reached(par: Links, start: seq<Node>, x: string) {
    exists s :: s in start && Above(par, s.email, x)
  }

  lemma {:induction false} ClosedHoldsReached(par: Links, visited: set<string>, s: string, x: string, k: nat)
    requires s in visited && Up(par, x, k) == Some(s)
    requires forall y :: y in par && par[y] in visited ==> y in visited
    ensures x in visited
    decreases k
  {
    if k > 0 {
      ClosedHoldsReached(par, visited, s, par[x], k - 1);
    }
  }

  lemma ChildReached(par: Links, start: seq<Node>, x: string)
    requires x in par && Reached(par, start, par[x])
    ensures Reached(par, start, x)
  {
    var s :| s in start && Above(par, s.email, par[x]);
    AboveStep(par, s.email, x);
  }

  ghost predicate VisitInv(nodes: map<string, Node>, par: Links, start: seq<Node>,
                           visited0: set<string>, visited: set<string>, stack: seq<Node>)
  {
    && Indexed(nodes)
    && (forall x :: x in par ==> x in nodes && par[x] in nodes)
    && (forall s :: s in stack ==> IsNode(nodes, s) && Reached(par, start, s.email))
    && visited0 <= visited <= nodes.Keys
    && (forall x :: x in visited ==> x in visited0 || Reached(par, start, x))
    && (forall x :: x in par && par[x] in visited ==> x in visited || nodes[x] in stack)
    && (forall s :: s in start ==> s.email in visited || s in stack)
  }

  lemma VisitStep(nodes: map<string, Node>, par: Links, start: seq<Node>, visited0: set<string>,
                  visited: set<string>, rest: seq<Node>, node: Node, children: seq<Node>)
    requires VisitInv(nodes, par, start, visited0, visited, rest + [node])
    requires ChildrenAre(nodes, par, node.email, children)
    ensures IsNode(nodes, node)
    ensures node.email in visited ==> VisitInv(nodes, par, start, visited0, visited, rest)
    ensures VisitInv(nodes, par, start, visited0, visited + {node.email}, rest + children)
  {
    assert node in rest + [node];
    forall s | s in rest + [node] ensures s in rest || s == node {
    }
    forall c | c in children ensures Reached(par, start, c.email) {
      ChildReached(par, start, c.email);
    }
    forall s | s in rest ensures s in rest + [node] && s in rest + children {
    }
    forall s | s in rest + children ensures s in rest || s in children {
    }
    forall x | x in par && par[x] == node.email ensures nodes[x] in rest + children {
      assert nodes[x] in children;
    }
  }

  // Depth-first walk over the children with an explicit stack.
  method Visit(nodes: map<string, Node>, ghost par: Links, start: seq<Node>, visited0: set<string>)
    returns (visited: set<string>)
    requires Shape(nodes, par)
    requires forall s :: s in start ==> IsNode(nodes, s)
    requires visited0 <= nodes.Keys
    requires forall x :: x in par && par[x] in visited0 ==> x in visited0
    ensures visited == visited0 + set x | x in nodes && Reached(par, start, x)
  {
    var stack := start;
    visited := visited0;
    forall s | s in start ensures Reached(par, start, s.email) { AboveSelf(par, s.email); }
    while stack != []
      invariant VisitInv(nodes, par, start, visited0, visited, stack)
      decreases |nodes.Keys - visited|, |stack|
    {
      SplitLast(stack);
      var node, rest := stack[|stack| - 1], stack[..|stack| - 1];
      VisitStep(nodes, par, start, visited0, visited, rest, node, node.children);
      if node.email in visited {
        stack := rest;
        continue;
      }
      FewerLeft(nodes.Keys, visited, node.email);
      visited := visited + {node.email};
      stack := rest + node.children;
    }
    VisitDone(nodes, par, start, visited0, visited);
  }

  lemma VisitDone(nodes: map<string, Node>, par: Links, start: seq<Node>, visited0: set<string>, visited: set<string>)
    requires VisitInv(nodes, par, start, visited0, visited, [])
    ensures visited == visited0 + set x | x in nodes && Reached(par, start, x)
  {
    forall x | x in nodes && Reached(par, start, x) ensures x in visited {
      var s :| s in start && Above(par, s.email, x);
      var k: nat :| Up(par, x, k) == Some(s.email);
      ClosedHoldsReached(par, visited, s.email, x, k);
    }
  }

  // ------------------------------------------------------------ building

  // The node as it is created from its row, before any linking.
  ghost predicate HoldsRow(n: Node, row: Record)
    reads n
  {
    && n.email == row.email && n.name == row.name && n.managerId == row.managerId
    && n.directReports == 0 && n.totalReports == 0
  }

  lemma {:induction false} NextRow(records: seq<Record>, i: nat)
    requires i < |records|
    ensures Listed(records[..i + 1]) ==
            if records[i].email == "" || records[i].email in Listed(records[..i]) then Listed(records[..i])
            else Listed(records[..i]) + [records[i].email]
    ensures FirstRows(records[..i + 1]) ==
            if records[i].email == "" || records[i].email in FirstRows(records[..i]) then FirstRows(records[..i])
            else FirstRows(records[..i])[records[i].email := records[i]]
  {
    assert records[..i + 1][..i] == records[..i];
  }

  method CreateNodes(records: seq<Record>) returns (nodes: map<string, Node>, order: seq<string>)
    ensures order == Listed(records)
    ensures nodes.Keys == FirstRows(records).Keys
    ensures forall e :: e in nodes ==>
              fresh(nodes[e]) && nodes[e].email == e && HoldsRow(nodes[e], FirstRows(records)[e]) && nodes[e].children == []
  {
    nodes, order := map[], [];
    ghost var rows: map<string, Record> := map[];
    for i := 0 to |records|
      invariant order == Listed(records[..i]) && rows == FirstRows(records[..i])
      invariant nodes.Keys == rows.Keys
      invariant forall e :: e in nodes ==>
                  fresh(nodes[e]) && nodes[e].email == e && HoldsRow(nodes[e], rows[e]) && nodes[e].children == []
    {
      var record := records[i];
      NextRow(records, i);
      if record.email != "" && record.email !in nodes {
        var node := new Node(record);
        nodes, order := nodes[record.email := node], order + [record.email];
        rows := rows[record.email := record];
      }
    }
    assert records[..|records|] == records;
  }

  // Links among the people listed so far.
  function LinksOf(par: Links, done: seq<string>): Links {
    map e | e in par && e in done :: par[e]
  }

  ghost predicate RootsSoFar(nodes: map<string, Node>, par: Links, done: seq<string>, roots: seq<Node>) {
    && NoDuplicates(roots)
    && (forall r :: r in roots ==> IsNode(nodes, r) && r.email in done && r.email !in par)
    && (forall x :: x in done && x in nodes && x !in par ==> nodes[x] in roots)
  }

  lemma AddChild(nodes: map<string, Node>, par: Links, done: seq<string>, x: string, e: string, children: seq<Node>)
    requires Indexed(nodes) && x in nodes && x !in done
    requires ChildrenAre(nodes, LinksOf(par, done), e, children)
    ensures ChildrenAre(nodes, LinksOf(par, done + [x]), e,
                        if x in par && par[x] == e then children + [nodes[x]] else children)
  {
    var after := LinksOf(par, done + [x]);
    forall y ensures y in after <==> y in LinksOf(par, done) || (y == x && x in par) {
    }
    if x in par && par[x] == e {
      forall c | c in children + [nodes[x]] ensures c in children || c == nodes[x] {
      }
      assert nodes[x] !in children;
    }
  }

  lemma AddRoot(nodes: map<string, Node>, par: Links, done: seq<string>, x: string, roots: seq<Node>)
    requires Indexed(nodes) && x in nodes && x !in done && RootsSoFar(nodes, par, done, roots)
    ensures RootsSoFar(nodes, par, done + [x], if x in par then roots else roots + [nodes[x]])
  {
    if x !in par {
      assert nodes[x] !in roots;
    }
  }

  // One iteration of the linking loop: attach the node to its manager or make it a root.
  method LinkNode(nodes: map<string, Node>, ghost par: Links, ghost done: seq<string>, email: string, roots: seq<Node>)
    returns (roots': seq<Node>)
    requires Indexed(nodes) && email in nodes && email !in done
    requires (nodes[email].managerId != "" && nodes[email].managerId != email && nodes[email].managerId in nodes
              <==> email in par) && (email in par ==> par[email] == nodes[email].managerId)
    requires forall e :: e in nodes ==> ChildrenAre(nodes, LinksOf(par, done), e, nodes[e].children)
    requires RootsSoFar(nodes, par, done, roots)
    modifies (set e | e in nodes :: nodes[e])`children
    ensures forall e :: e in nodes ==> ChildrenAre(nodes, LinksOf(par, done + [email]), e, nodes[e].children)
    ensures RootsSoFar(nodes, par, done + [email], roots')
  {
    var node := nodes[email];
    var managerId := node.managerId;
    AddRoot(nodes, par, done, email, roots);
    forall e | e in nodes
      ensures ChildrenAre(nodes, LinksOf(par, done + [email]), e,
                          if email in par && par[email] == e then nodes[e].children + [node] else nodes[e].children)
    {
      AddChild(nodes, par, done, email, e, nodes[e].children);
    }
    if managerId != "" && managerId != email && managerId in nodes {
      nodes[managerId].children := nodes[managerId].children + [node];
      roots' := roots;
    } else {
      roots' := roots + [node];
    }
  }

  lemma NextListed(order: seq<string>, i: nat)
    requires i < |order| && NoDuplicates(order)
    ensures order[..i + 1] == order[..i] + [order[i]]
    ensures order[i] in Elements(order) && order[i] !in order[..i]
  {
  }

  method LinkNodes(nodes: map<string, Node>, order: seq<string>, ghost rows: map<string, Record>) returns (roots: seq<Node>)
    requires nodes.Keys == rows.Keys == Elements(order) && NoDuplicates(order)
    requires forall e :: e in nodes ==>
               nodes[e].email == e && nodes[e].managerId == rows[e].managerId && nodes[e].children == []
    modifies (set e | e in nodes :: nodes[e])`children
    ensures forall e :: e in nodes ==> ChildrenAre(nodes, StoredLinks(rows), e, nodes[e].children)
    ensures RootsAre(nodes, StoredLinks(rows), roots)
  {
    hide ChildrenAre, RootsSoFar, RootsAre, LinksOf;
    ghost var par := StoredLinks(rows);
    roots := [];
    NothingLinked(nodes, par, order);
    for i := 0 to |order|
      invariant forall e :: e in nodes ==> ChildrenAre(nodes, LinksOf(par, order[..i]), e, nodes[e].children)
      invariant RootsSoFar(nodes, par, order[..i], roots)
    {
      NextListed(order, i);
      roots := LinkNode(nodes, par, order[..i], order[i], roots);
    }
    AllLinked(nodes, order, par, roots);
  }

  lemma NothingLinked(nodes: map<string, Node>, par: Links, order: seq<string>)
    ensures forall e :: ChildrenAre(nodes, LinksOf(par, order[..0]), e, [])
    ensures RootsSoFar(nodes, par, order[..0], [])
  {
  }

  lemma AllLinked(nodes: map<string, Node>, order: seq<string>, par: Links, roots: seq<Node>)
    requires nodes.Keys == Elements(order) && RootsSoFar(nodes, par, order[..|order|], roots)
    requires par.Keys <= nodes.Keys
    ensures LinksOf(par, order[..|order|]) == par
    ensures RootsAre(nodes, par, roots)
  {
    assert order[..|order|] == order;
  }

  // ------------------------------------------------------ breaking cycles

  // The listed emails not yet visited, in the same order.
  function Remaining(order: seq<string>, visited: set<string>): (left: seq<string>)
    ensures forall e :: e in left <==> e in order && e !in visited
    ensures left != [] ==> forall a :: a in order && a !in visited ==> Position(order, left[0]) <= Position(order, a)
  {
    if order == [] then []
    else if order[0] in visited then Remaining(order[1..], visited)
    else [order[0]] + Remaining(order[1..], visited)
  }

  // The children other than n, in the same order.
  function DropNode(children: seq<Node>, n: Node): (kept: seq<Node>)
    ensures forall c :: c in kept ==> c in children && c != n
    ensures forall c :: c in children && c != n ==> c in kept
    ensures NoDuplicates(children) ==> NoDuplicates(kept)
  {
    if children == [] then []
    else if children[0] == n then DropNode(children[1..], n)
    else
      assert NoDuplicates(children) ==> children[0] !in children[1..];
      [children[0]] + DropNode(children[1..], n)
  }

  lemma DropChild(nodes: map<string, Node>, par: Links, cut: set<string>, x: string, e: string, children: seq<Node>)
    requires Indexed(nodes) && x in nodes && x in par && x !in cut
    requires ChildrenAre(nodes, Without(par, cut), e, children)
    ensures ChildrenAre(nodes, Without(par, cut + {x}), e,
                        if par[x] == e then DropNode(children, nodes[x]) else children)
  {
  }

  lemma AddPromoted(nodes: map<string, Node>, par: Links, cut: set<string>, x: string, roots: seq<Node>)
    requires Indexed(nodes) && x in nodes && x in par && x !in cut
    requires RootsAre(nodes, Without(par, cut), roots)
    ensures RootsAre(nodes, Without(par, cut + {x}), roots + [nodes[x]])
  {
    assert nodes[x] !in roots;
    forall r | r in roots + [nodes[x]] ensures r in roots || r == nodes[x] {
    }
  }

  // The next one to promote has a manager and has not been promoted.
  lemma NextIsLinked(order: seq<string>, par: Links, cut: set<string>, visited: set<string>, x: string)
    requires CutState(order, par, cut, visited) && x in order && x !in visited
    ensures x in par && x !in cut
  {
    UnrootedKeepsGoing(par, x);
    AboveSelf(par, x);
  }

  lemma ReachedFromOne(nodes: map<string, Node>, par: Links, n: Node)
    ensures (set x | x in nodes && Reached(par, [n], x)) == Subtree(par, nodes.Keys, n.email)
  {
    assert n in [n];
  }

  // The manager each node shows: none for the promoted, the stored one otherwise.
  function ShownManagers(rows: map<string, Record>, cut: set<string>): map<string, string> {
    map e | e in rows :: if e in cut then "" else rows[e].managerId
  }

  ghost predicate ManagersAre(nodes: map<string, Node>, shown: map<string, string>)
    reads nodes.Values
  {
    forall e :: e in nodes ==> e in shown && nodes[e].managerId == shown[e]
  }

  lemma PromotedShowsNoManager(rows: map<string, Record>, cut: set<string>, x: string)
    requires x in rows
    ensures ShownManagers(rows, cut + {x}) == ShownManagers(rows, cut)[x := ""]
  {
  }

  method Detach(nodes: map<string, Node>, ghost par: Links, ghost cut: set<string>, promoted: Node,
                ghost shown: map<string, string>)
    requires Indexed(nodes) && IsNode(nodes, promoted)
    requires promoted.email in par && promoted.email !in cut
    requires promoted.managerId == par[promoted.email] != ""
    requires forall e :: e in nodes ==> ChildrenAre(nodes, Without(par, cut), e, nodes[e].children)
    requires ManagersAre(nodes, shown)
    modifies (set e | e in nodes :: nodes[e])`children, promoted`managerId
    ensures forall e :: e in nodes ==> ChildrenAre(nodes, Without(par, cut + {promoted.email}), e, nodes[e].children)
    ensures ManagersAre(nodes, shown[promoted.email := ""])
  {
    var managerId := promoted.managerId;
    forall e | e in nodes
      ensures ChildrenAre(nodes, Without(par, cut + {promoted.email}), e,
                          if managerId == e then DropNode(nodes[e].children, promoted) else nodes[e].children)
    {
      DropChild(nodes, par, cut, promoted.email, e, nodes[e].children);
    }
    if managerId != "" && managerId in nodes {
      var parent := nodes[managerId];
      parent.children := DropNode(parent.children, promoted);
    }
    promoted.managerId := "";
  }

  method VisitPromoted(nodes: map<string, Node>, ghost order: seq<string>, ghost par: Links, ghost cut: set<string>,
                       promoted: Node, visited: set<string>)
    returns (visited': set<string>)
    requires Within(order, par) && nodes.Keys == Elements(order) && Indexed(nodes) && IsNode(nodes, promoted)
    requires CutState(order, par, cut, visited)
    requires promoted.email !in visited
    requires forall a :: a in order && a !in visited ==> Position(order, promoted.email) <= Position(order, a)
    requires forall e :: e in nodes ==> ChildrenAre(nodes, Without(par, cut + {promoted.email}), e, nodes[e].children)
    ensures CutState(order, par, cut + {promoted.email}, visited') && promoted.email in visited' && visited <= visited'
  {
    ghost var email := promoted.email;
    ghost var now := Without(par, cut + {email});
    forall x | x in now && now[x] in visited ensures x in visited {
      VisitedIsClosed(order, par, cut, visited, x);
    }
    visited' := Visit(nodes, now, [promoted], visited);
    ReachedFromOne(nodes, now, promoted);
    AboveSelf(now, email);
    PromotionStep(order, par, cut, visited, email, visited');
  }

  lemma VisitedFromRoots(nodes: map<string, Node>, order: seq<string>, par: Links, roots: seq<Node>, visited: set<string>)
    requires nodes.Keys == Elements(order) && Indexed(nodes) && RootsAre(nodes, par, roots) && Within(order, par)
    requires visited == set x | x in nodes && Reached(par, roots, x)
    ensures CutState(order, par, {}, visited)
  {
    forall x | x in order ensures x in visited <==> Rooted(par, x) {
      RootedIffRootAbove(par, x);
      if r :| r !in par && Above(par, r, x) {
        var k: nat :| Up(par, x, k) == Some(r);
        AboveIsListed(order, par, r, x, k);
        assert nodes[r] in roots;
      }
    }
  }

  lemma LinksAreWithin(rows: map<string, Record>, order: seq<string>)
    requires rows.Keys == Elements(order)
    ensures Within(order, StoredLinks(rows))
  {
    forall x | x in StoredLinks(rows) ensures x in order && StoredLinks(rows)[x] in order {
      assert x in Elements(order) && rows[x].managerId in Elements(order);
    }
  }

  // What holds between two rounds of the promotion loop.
  ghost predicate Progress(nodes: map<string, Node>, order: seq<string>, rows: map<string, Record>,
                           cut: set<string>, visited: set<string>, roots: seq<Node>)
    reads nodes.Values
  {
    && nodes.Keys == rows.Keys == Elements(order) && Indexed(nodes)
    && Within(order, StoredLinks(rows))
    && CutState(order, StoredLinks(rows), cut, visited)
    && (forall e :: e in nodes ==> ChildrenAre(nodes, Without(StoredLinks(rows), cut), e, nodes[e].children))
    && RootsAre(nodes, Without(StoredLinks(rows), cut), roots)
    && ManagersAre(nodes, ShownManagers(rows, cut))
  }

  // One round of the promotion loop: the first unvisited node becomes a root.
  method Promote(nodes: map<string, Node>, ghost order: seq<string>, ghost rows: map<string, Record>,
                 ghost cut: set<string>, email: string, roots: seq<Node>, visited: set<string>)
    returns (roots': seq<Node>, visited': set<string>)
    requires Progress(nodes, order, rows, cut, visited, roots)
    requires email in order && email !in visited
    requires forall a :: a in order && a !in visited ==> Position(order, email) <= Position(order, a)
    modifies (set e | e in nodes :: nodes[e])`children, (set e | e in nodes :: nodes[e])`managerId
    ensures Progress(nodes, order, rows, cut + {email}, visited', roots')
    ensures email in visited' && visited <= visited'
  {
    ghost var par := StoredLinks(rows);
    NextIsLinked(order, par, cut, visited, email);
    AddPromoted(nodes, par, cut, email, roots);
    var promoted := nodes[email];
    Detach(nodes, par, cut, promoted, ShownManagers(rows, cut));
    PromotedShowsNoManager(rows, cut, email);
    roots' := roots + [promoted];
    visited' := VisitPromoted(nodes, order, par, cut, promoted, visited);
  }

  // Visit below the roots, then promote unvisited nodes one by one.
  method BreakCycles(nodes: map<string, Node>, order: seq<string>, ghost rows: map<string, Record>, roots0: seq<Node>)
    returns (roots: seq<Node>)
    requires nodes.Keys == rows.Keys == Elements(order) && Indexed(nodes)
    requires ManagersAre(nodes, ShownManagers(rows, {}))
    requires forall e :: e in nodes ==> ChildrenAre(nodes, StoredLinks(rows), e, nodes[e].children)
    requires RootsAre(nodes, StoredLinks(rows), roots0)
    modifies (set e | e in nodes :: nodes[e])`children, (set e | e in nodes :: nodes[e])`managerId
    ensures forall e :: e in nodes ==> ChildrenAre(nodes, ForestLinks(order, StoredLinks(rows)), e, nodes[e].children)
    ensures RootsAre(nodes, ForestLinks(order, StoredLinks(rows)), roots)
    ensures ManagersAre(nodes, ShownManagers(rows, PromotedSet(order, StoredLinks(rows))))
  {
    LinksAreWithin(rows, order);
    var visited := Visit(nodes, StoredLinks(rows), roots0, {});
    VisitedFromRoots(nodes, order, StoredLinks(rows), roots0, visited);
    roots := roots0;
    ghost var cut: set<string> := {};
    NothingCut(StoredLinks(rows));
    var remaining := Remaining(order, visited);
    while remaining != []
      invariant Progress(nodes, order, rows, cut, visited, roots)
      invariant remaining == Remaining(order, visited)
      decreases |Elements(order) - visited|
    {
      var promoted := remaining[0];
      assert promoted in remaining;
      ghost var before := visited;
      roots, visited := Promote(nodes, order, rows, cut, promoted, roots, visited);
      cut := cut + {promoted};
      FewerRemain(Elements(order), before, visited, promoted);
      remaining := Remaining(order, visited);
    }
    NoneRemaining(order, visited);
    AllPlaced(order, StoredLinks(rows), cut, visited);
  }

  lemma NothingCut(par: Links)
    ensures Without(par, {}) == par
  {
  }

  lemma NoneRemaining(order: seq<string>, visited: set<string>)
    requires Remaining(order, visited) == []
    ensures forall x :: x in order ==> x in visited
  {
    forall x | x in order ensures x in visited {
      assert x !in Remaining(order, visited);
    }
  }
}
