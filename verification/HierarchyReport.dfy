/** The assembled hierarchy, its span-of-control counts and the tenant or subtree view of it. */
module HierarchyReport {
  import opened Prelude
  import opened ReportingChains
  import opened CycleBreaking
  import opened SubtreeSizes
  import opened Hierarchy
  import opened HierarchySort

  // The links that survive in the hierarchy built from the records.
  ghost function BuiltLinks(records: seq<Record>): Links {
    ForestLinks(Listed(records), StoredLinks(FirstRows(records)))
  }

  ghost function BuiltManagers(records: seq<Record>): map<string, string> {
    ShownManagers(FirstRows(records), PromotedSet(Listed(records), StoredLinks(FirstRows(records))))
  }

  ghost predicate Assembled(records: seq<Record>, nodes: map<string, Node>, roots: seq<Node>)
    reads nodes.Values
  {
    && nodes.Keys == Elements(Listed(records))
    && ForestOf(nodes, BuiltLinks(records))
    && RootsAre(nodes, BuiltLinks(records), roots)
    && ManagersAre(nodes, BuiltManagers(records))
    && (forall e :: e in nodes ==> nodes[e].name == FirstRows(records)[e].name)
  }

  lemma {:induction false} BuiltIsRooted(records: seq<Record>)
    ensures forall x :: x in Listed(records) ==> Rooted(BuiltLinks(records), x)
  {
    LinksAreWithin(FirstRows(records), Listed(records));
    forall x | x in Listed(records) ensures Rooted(BuiltLinks(records), x) {
      ForestIsRooted(Listed(records), StoredLinks(FirstRows(records)), x);
    }
  }

  // The manager a node shows is the parent it hangs under, if that manager can be one; it
  // is the stored manager unless the node was promoted, and then none.
  lemma ShownManagerIsParent(records: seq<Record>, e: string)
    requires e in Listed(records)
    ensures e in BuiltManagers(records) && e in FirstRows(records)
    ensures var m := BuiltManagers(records)[e];
            && (e in BuiltLinks(records) <==> m != "" && m != e && m in Listed(records))
            && (e in BuiltLinks(records) ==> BuiltLinks(records)[e] == m)
            && (var stored := FirstRows(records)[e].managerId;
                stored == "" || stored == e || stored !in Listed(records) ==> e !in BuiltLinks(records) && m == stored)
            && (m == FirstRows(records)[e].managerId
                || (m == "" && Promoted(Listed(records), StoredLinks(FirstRows(records)), e)))
  {
    assert e in Elements(Listed(records));
    var m := FirstRows(records)[e].managerId;
    if m == "" || m == e || m !in Listed(records) {
      AboveSelf(StoredLinks(FirstRows(records)), e);
      assert Up(StoredLinks(FirstRows(records)), e, 1) == None;
    }
    assert m in FirstRows(records) <==> m in Elements(Listed(records));
  }

  method SortRoots(lower: string -> string, nodes: map<string, Node>, ghost par: Links, roots: seq<Node>,
                   ghost shown: map<string, string>)
    requires ForestOf(nodes, par) && RootsAre(nodes, par, roots) && ManagersAre(nodes, shown)
    requires forall x :: x in par ==> x in nodes && par[x] in nodes
    modifies (set e | e in nodes :: nodes[e])`children
    ensures ForestOf(nodes, par) && ManagersAre(nodes, shown)
    ensures forall x :: x in nodes ==> Sorted(lower, nodes[x].children)
  {
    hide ChildrenAre, Sorted, Subtree, Rooted;
    ghost var sorted: set<string> := {};
    for i := 0 to |roots|
      invariant ForestOf(nodes, par) && ManagersAre(nodes, shown)
      invariant forall x :: x in nodes && x in sorted ==> Sorted(lower, nodes[x].children)
      invariant forall j :: 0 <= j < i ==> Subtree(par, nodes.Keys, roots[j].email) <= sorted
    {
      assert roots[i] in roots;
      SortHierarchy(lower, nodes, par, roots[i], sorted);
      sorted := sorted + Subtree(par, nodes.Keys, roots[i].email);
    }
    forall x | x in nodes ensures x in sorted {
      BelowSomeRoot(nodes, par, roots, x);
    }
  }

  lemma BelowSomeRoot(nodes: map<string, Node>, par: Links, roots: seq<Node>, x: string)
    requires Indexed(nodes) && RootsAre(nodes, par, roots) && x in nodes && Rooted(par, x)
    requires forall y :: y in par ==> y in nodes && par[y] in nodes
    ensures exists j :: 0 <= j < |roots| && x in Subtree(par, nodes.Keys, roots[j].email)
  {
    RootedIffRootAbove(par, x);
    var r :| r !in par && Above(par, r, x);
    var k: nat :| Up(par, x, k) == Some(r);
    AboveStaysIn(par, nodes.Keys, x, k);
    var j :| 0 <= j < |roots| && roots[j] == nodes[r];
    assert x in Subtree(par, nodes.Keys, roots[j].email);
  }

  method Assemble(records: seq<Record>) returns (nodes: map<string, Node>, roots: seq<Node>)
    ensures Assembled(records, nodes, roots)
    ensures forall e :: e in nodes ==> fresh(nodes[e])
  {
    var order: seq<string>;
    nodes, order := CreateNodes(records);
    BuiltIsRooted(records);
    var linked := LinkNodes(nodes, order, FirstRows(records));
    roots := BreakCycles(nodes, order, FirstRows(records), linked);
  }

  // Flat rows in, forest out.
  method BuildHierarchy(lower: string -> string, records: seq<Record>) returns (nodes: map<string, Node>, roots: seq<Node>)
    ensures Assembled(records, nodes, roots)
    ensures forall e :: e in nodes ==> fresh(nodes[e]) && Sorted(lower, nodes[e].children)
  {
    nodes, roots := Assemble(records);
    BuiltIsWithin(records);
    SortRoots(lower, nodes, BuiltLinks(records), roots, BuiltManagers(records));
  }

  lemma BuiltIsWithin(records: seq<Record>)
    ensures forall x :: x in BuiltLinks(records) ==>
              x in Elements(Listed(records)) && BuiltLinks(records)[x] in Elements(Listed(records))
  {
    LinksAreWithin(FirstRows(records), Listed(records));
  }

  // --------------------------------------------------------------- counts

  // What the counts of a node are meant to be.
  ghost predicate Counted(nodes: map<string, Node>, par: Links, n: Node)
    reads n
  {
    && n.directReports == |n.children|
    && n.totalReports == |Subtree(par, nodes.Keys, n.email)| - 1
  }

  // A frame waits to be opened (not expanded) or has its children above it on the stack.
  datatype Frame = Frame(node: Node, expanded: bool)

  function Frames(ns: seq<Node>): (fs: seq<Frame>)
    ensures |fs| == |ns| && forall i :: 0 <= i < |ns| ==> fs[i] == Frame(ns[i], false)
  {
    seq(|ns|, i requires 0 <= i < |ns| => Frame(ns[i], false))
  }

  ghost function FramesWeight(par: Links, people: set<string>, fs: seq<Frame>): nat {
    if fs == [] then 0
    else
      var f := fs[|fs| - 1];
      FramesWeight(par, people, fs[..|fs| - 1]) + if f.expanded then 1 else 2 * |Subtree(par, people, f.node.email)|
  }

  lemma {:induction false} PushedWeight(par: Links, people: set<string>, fs: seq<Frame>, ns: seq<Node>)
    ensures FramesWeight(par, people, fs + Frames(ns)) ==
            FramesWeight(par, people, fs) + 2 * Weight(par, people, Emails(ns))
  {
    if ns == [] {
      assert fs + Frames(ns) == fs;
    } else {
      var init := ns[..|ns| - 1];
      assert (fs + Frames(ns))[..|fs + Frames(ns)| - 1] == fs + Frames(init);
      assert Emails(ns)[..|ns| - 1] == Emails(init);
      PushedWeight(par, people, fs, init);
    }
  }

  // x still has a frame that will lead to its counts being set.
  ghost predicate Pending(par: Links, fs: seq<Frame>, x: string) {
    || (exists f :: f in fs && !f.expanded && Above(par, f.node.email, x))
    || (exists f :: f in fs && f.expanded && f.node.email == x)
  }

  // c has a frame above position i.
  ghost predicate WaitsAbove(fs: seq<Frame>, i: int, c: Node) {
    exists j :: i < j < |fs| && 0 <= j && fs[j].node == c
  }

  // `counted` are the emails of nodes whose counts are already right.
  ghost predicate CountInv(nodes: map<string, Node>, par: Links, root: Node, fs: seq<Frame>, counted: set<string>) {
    && Indexed(nodes) && IsNode(nodes, root)
    && (forall x :: x in par ==> x in nodes)
    && (forall f :: f in fs ==> IsNode(nodes, f.node))
    && (forall i, y | 0 <= i < |fs| && fs[i].expanded && y in par && par[y] == fs[i].node.email
          :: y in counted || WaitsAbove(fs, i, nodes[y]))
    && (forall x :: x in nodes && Above(par, root.email, x) ==> x in counted || Pending(par, fs, x))
  }

  lemma OpenFrame(nodes: map<string, Node>, par: Links, root: Node, rest: seq<Frame>, n: Node,
                  children: seq<Node>, counted: set<string>)
    requires CountInv(nodes, par, root, rest + [Frame(n, false)], counted)
    requires ChildrenAre(nodes, par, n.email, children) && Rooted(par, n.email)
    requires IsNode(nodes, n)
    ensures CountInv(nodes, par, root, rest + [Frame(n, true)] + Frames(children), counted)
    ensures FramesWeight(par, nodes.Keys, rest + [Frame(n, true)] + Frames(children))
          < FramesWeight(par, nodes.Keys, rest + [Frame(n, false)])
  {
    OpenFrameWeight(nodes, par, rest, n, children);
    var was, now := rest + [Frame(n, false)], rest + [Frame(n, true)] + Frames(children);
    forall f | f in now ensures IsNode(nodes, f.node) {
      if f in rest {
        assert f in was;
      }
    }
    forall i, y | 0 <= i < |now| && now[i].expanded && y in par && par[y] == now[i].node.email
      ensures y in counted || WaitsAbove(now, i, nodes[y])
    {
      if i < |rest| && y !in counted {
        assert was[i] == now[i];
        var j :| i < j < |was| && was[j].node == nodes[y];
        assert now[j].node == nodes[y];
      } else if i == |rest| {
        var k :| 0 <= k < |children| && children[k] == nodes[y];
        assert now[|rest| + 1 + k].node == nodes[y];
      }
    }
    forall x | x in nodes && Above(par, root.email, x) && x !in counted ensures Pending(par, now, x) {
      StillPending(nodes, par, rest, n, children, x);
    }
  }

  lemma OpenFrameWeight(nodes: map<string, Node>, par: Links, rest: seq<Frame>, n: Node, children: seq<Node>)
    requires Indexed(nodes) && IsNode(nodes, n)
    requires ChildrenAre(nodes, par, n.email, children) && Rooted(par, n.email)
    ensures FramesWeight(par, nodes.Keys, rest + [Frame(n, true)] + Frames(children))
          < FramesWeight(par, nodes.Keys, rest + [Frame(n, false)])
  {
    EmailsOfChildren(nodes, par, n.email, children);
    SubtreeOfReports(par, nodes.Keys, n.email, Emails(children));
    PushedWeight(par, nodes.Keys, rest + [Frame(n, true)], children);
    assert (rest + [Frame(n, true)])[..|rest|] == rest;
    assert (rest + [Frame(n, false)])[..|rest|] == rest;
  }

  lemma StillPending(nodes: map<string, Node>, par: Links, rest: seq<Frame>, n: Node, children: seq<Node>, x: string)
    requires Indexed(nodes) && IsNode(nodes, n) && x in nodes
    requires ChildrenAre(nodes, par, n.email, children) && Rooted(par, n.email)
    requires Pending(par, rest + [Frame(n, false)], x)
    ensures Pending(par, rest + [Frame(n, true)] + Frames(children), x)
  {
    var was, now := rest + [Frame(n, false)], rest + [Frame(n, true)] + Frames(children);
    var f :| f in was && if f.expanded then f.node.email == x else Above(par, f.node.email, x);
    if f in rest {
      assert f in now;
    } else {
      assert f == Frame(n, false);
      if x == n.email {
        assert now[|rest|] == Frame(n, true);
      } else {
        var k := BelowSomeChild(nodes, par, n, children, x);
        assert now[|rest| + 1 + k] == Frame(children[k], false);
      }
    }
  }

  lemma BelowSomeChild(nodes: map<string, Node>, par: Links, n: Node, children: seq<Node>, x: string) returns (k: nat)
    requires Indexed(nodes) && IsNode(nodes, n) && x in nodes
    requires ChildrenAre(nodes, par, n.email, children) && Rooted(par, n.email)
    requires Above(par, n.email, x) && x != n.email
    ensures k < |children| && Above(par, children[k].email, x)
  {
    EmailsOfChildren(nodes, par, n.email, children);
    SubtreeOfReports(par, nodes.Keys, n.email, Emails(children));
    assert x in Subtree(par, nodes.Keys, n.email);
    var c :| c in Emails(children) && Above(par, c, x);
    k :| 0 <= k < |children| && children[k].email == c;
  }

  lemma CloseFrame(nodes: map<string, Node>, par: Links, root: Node, rest: seq<Frame>, n: Node, counted: set<string>)
    requires CountInv(nodes, par, root, rest + [Frame(n, true)], counted)
    ensures IsNode(nodes, n)
    ensures forall y :: y in par && par[y] == n.email ==> y in counted
    ensures CountInv(nodes, par, root, rest, counted + {n.email})
    ensures FramesWeight(par, nodes.Keys, rest) < FramesWeight(par, nodes.Keys, rest + [Frame(n, true)])
  {
    var was := rest + [Frame(n, true)];
    assert was[..|rest|] == rest;
    assert was[|rest|] == Frame(n, true);
    assert was[|rest|] in was;
    forall y | y in par && par[y] == n.email ensures y in counted {
      assert was[|rest|].expanded && par[y] == was[|rest|].node.email;
    }
    forall f | f in rest ensures IsNode(nodes, f.node) {
      assert f in was;
    }
    forall i, y | 0 <= i < |rest| && rest[i].expanded && y in par && par[y] == rest[i].node.email
      ensures y in counted + {n.email} || WaitsAbove(rest, i, nodes[y])
    {
      assert was[i] == rest[i];
      if y !in counted + {n.email} {
        var j :| i < j < |was| && was[j].node == nodes[y];
        assert j != |rest|;
        assert rest[j].node == nodes[y];
      }
    }
    forall x | x in nodes && Above(par, root.email, x) && x !in counted + {n.email} ensures Pending(par, rest, x) {
      var f :| f in was && if f.expanded then f.node.email == x else Above(par, f.node.email, x);
      assert f in rest;
    }
  }

  method SumReports(ghost nodes: map<string, Node>, ghost par: Links, children: seq<Node>) returns (total: nat)
    requires forall c :: c in children ==> c.totalReports == |Subtree(par, nodes.Keys, c.email)| - 1
    ensures total == Weight(par, nodes.Keys, Emails(children))
  {
    total := 0;
    for k := 0 to |children|
      invariant total == Weight(par, nodes.Keys, Emails(children[..k]))
    {
      var child := children[k];
      assert child in children;
      NextWeight(par, nodes.Keys, children, k);
      total := total + 1 + child.totalReports;
    }
    assert children[..|children|] == children;
  }

  lemma ReportsFill(nodes: map<string, Node>, par: Links, n: Node, children: seq<Node>)
    requires Indexed(nodes) && IsNode(nodes, n)
    requires ChildrenAre(nodes, par, n.email, children) && Rooted(par, n.email)
    ensures |Subtree(par, nodes.Keys, n.email)| == 1 + Weight(par, nodes.Keys, Emails(children))
  {
    EmailsOfChildren(nodes, par, n.email, children);
    SubtreeOfReports(par, nodes.Keys, n.email, Emails(children));
  }

  method CountNode(ghost nodes: map<string, Node>, ghost par: Links, node: Node)
    requires ForestOf(nodes, par) && IsNode(nodes, node)
    requires forall c :: c in node.children ==> Counted(nodes, par, c)
    modifies node`directReports, node`totalReports
    ensures Counted(nodes, par, node)
  {
    ReportsFill(nodes, par, node, node.children);
    var total := SumReports(nodes, par, node.children);
    node.directReports := |node.children|;
    node.totalReports := total;
  }

  lemma NextWeight(par: Links, people: set<string>, ns: seq<Node>, k: nat)
    requires k < |ns|
    ensures Weight(par, people, Emails(ns[..k + 1])) ==
            Weight(par, people, Emails(ns[..k])) + |Subtree(par, people, ns[k].email)|
  {
    assert Emails(ns[..k + 1])[..k] == Emails(ns[..k]);
  }

  // Post-order walk with an explicit stack of (node, expanded) frames;
  // `counted0` are the nodes counted before.
  method ComputeReportCounts(nodes: map<string, Node>, ghost par: Links, root: Node, ghost counted0: set<string>)
    requires ForestOf(nodes, par) && IsNode(nodes, root)
    requires forall x :: x in par ==> x in nodes
    requires counted0 <= nodes.Keys && forall x :: x in counted0 ==> Counted(nodes, par, nodes[x])
    modifies (set e | e in nodes :: nodes[e])`directReports, (set e | e in nodes :: nodes[e])`totalReports
    ensures forall x :: x in counted0 + Subtree(par, nodes.Keys, root.email) ==> Counted(nodes, par, nodes[x])
  {
    hide Subtree, Rooted, Pending, WaitsAbove, FramesWeight;
    ghost var counted := counted0;
    var stack := [Frame(root, false)];
    StartFrame(nodes, par, root, counted);
    while stack != []
      invariant CountInv(nodes, par, root, stack, counted)
      invariant counted0 <= counted <= nodes.Keys
      invariant forall x :: x in counted ==> Counted(nodes, par, nodes[x])
      decreases FramesWeight(par, nodes.Keys, stack)
    {
      SplitLast(stack);
      var frame, rest := stack[|stack| - 1], stack[..|stack| - 1];
      var node := frame.node;
      if frame.expanded {
        CloseFrame(nodes, par, root, rest, node, counted);
        CountNode(nodes, par, node);
        counted := counted + {node.email};
        stack := rest;
      } else {
        OpenFrame(nodes, par, root, rest, node, node.children, counted);
        stack := rest + [Frame(node, true)] + Frames(node.children);
      }
    }
    AllCounted(nodes, par, root, counted);
  }

  lemma AllCounted(nodes: map<string, Node>, par: Links, root: Node, counted: set<string>)
    requires CountInv(nodes, par, root, [], counted)
    ensures Subtree(par, nodes.Keys, root.email) <= counted
  {
    hide WaitsAbove;
  }

  lemma StartFrame(nodes: map<string, Node>, par: Links, root: Node, counted: set<string>)
    requires Indexed(nodes) && IsNode(nodes, root) && forall x :: x in par ==> x in nodes
    ensures CountInv(nodes, par, root, [Frame(root, false)], counted)
  {
    assert Frame(root, false) in [Frame(root, false)];
  }

  // -------------------------------------------------------------- the view

  datatype Scope = Tenant | OwnSubtree | Nothing

  // Privileged roles see the whole forest, everybody else the tree below themselves.
  method GetEmployeeHierarchy(lower: string -> string, records: seq<Record>, privileged: bool, viewer: string)
    returns (scope: Scope, visible: seq<Node>, totalVisible: nat, ghost nodes: map<string, Node>, ghost roots: seq<Node>)
    ensures Assembled(records, nodes, roots)
    ensures forall e :: e in nodes ==> Sorted(lower, nodes[e].children)
    ensures privileged ==> scope == Tenant && visible == roots && totalVisible == |Elements(Listed(records))|
    ensures !privileged && viewer !in Listed(records) ==> scope == Nothing && visible == [] && totalVisible == 0
    ensures !privileged && viewer in Listed(records) ==>
              && scope == OwnSubtree && viewer in nodes && visible == [nodes[viewer]]
              && totalVisible == |Subtree(BuiltLinks(records), nodes.Keys, viewer)|
    ensures forall x :: x in nodes && Reached(BuiltLinks(records), visible, x)
                        ==> Counted(nodes, BuiltLinks(records), nodes[x])
  {
    hide ChildrenAre, Sorted, Rooted, Reached;
    var index, trees := BuildHierarchy(lower, records);
    nodes, roots := index, trees;
    ghost var par := BuiltLinks(records);
    BuiltIsWithin(records);
    BuiltIsRooted(records);
    if privileged {
      visible, scope := trees, Tenant;
      EmailsOfRoots(nodes, par, roots);
      RootsHoldEverybody(par, nodes.Keys, Emails(roots));
    } else if viewer !in index {
      visible, scope := [], Nothing;
    } else {
      visible, scope := [index[viewer]], OwnSubtree;
      WeightOfOne(par, nodes.Keys, index[viewer]);
    }
    totalVisible := CountVisible(index, par, visible, BuiltManagers(records));
  }

  method CountVisible(nodes: map<string, Node>, ghost par: Links, visible: seq<Node>, ghost shown: map<string, string>)
    returns (totalVisible: nat)
    requires ForestOf(nodes, par) && ManagersAre(nodes, shown)
    requires forall x :: x in par ==> x in nodes
    requires forall v :: v in visible ==> IsNode(nodes, v)
    modifies (set e | e in nodes :: nodes[e])`directReports, (set e | e in nodes :: nodes[e])`totalReports
    ensures ForestOf(nodes, par) && ManagersAre(nodes, shown)
    ensures totalVisible == Weight(par, nodes.Keys, Emails(visible))
    ensures forall x :: x in nodes && Reached(par, visible, x) ==> Counted(nodes, par, nodes[x])
  {
    hide ChildrenAre, Weight, Subtree, Reached, Rooted;
    ghost var counted: set<string> := {};
    for i := 0 to |visible|
      invariant ForestOf(nodes, par) && ManagersAre(nodes, shown)
      invariant counted <= nodes.Keys && forall x :: x in counted ==> Counted(nodes, par, nodes[x])
      invariant forall j :: 0 <= j < i ==> Subtree(par, nodes.Keys, visible[j].email) <= counted
    {
      assert visible[i] in visible;
      SubtreeWithin(par, nodes.Keys, visible[i].email);
      ComputeReportCounts(nodes, par, visible[i], counted);
      counted := counted + Subtree(par, nodes.Keys, visible[i].email);
    }
    VisibleCovered(nodes, par, visible, counted);
    totalVisible := SumReports(nodes, par, visible);
  }

  lemma SubtreeWithin(par: Links, people: set<string>, x: string)
    ensures Subtree(par, people, x) <= people
  {
  }

  lemma VisibleCovered(nodes: map<string, Node>, par: Links, visible: seq<Node>, counted: set<string>)
    requires forall v :: v in visible ==> IsNode(nodes, v)
    requires forall j :: 0 <= j < |visible| ==> Subtree(par, nodes.Keys, visible[j].email) <= counted
    ensures forall v :: v in visible ==> v.email in counted
    ensures forall x :: x in nodes && Reached(par, visible, x) ==> x in counted
  {
    forall v, x | v in visible && x in nodes && Above(par, v.email, x) ensures x in counted {
      var j :| 0 <= j < |visible| && visible[j] == v;
      assert x in Subtree(par, nodes.Keys, v.email);
    }
    forall v | v in visible ensures v.email in counted {
      AboveSelf(par, v.email);
    }
  }
}
