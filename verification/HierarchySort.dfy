/** Sorting the children of every node by name. */
module HierarchySort {
  import opened Prelude
  import opened ReportingChains
  import opened SubtreeSizes
  import opened Hierarchy
  import Lexicographic

  // -------------------------------------------------------------- sorting

  // By lower-cased name, then by email.
  predicate KeyLeq(lower: string -> string, a: Node, b: Node) {
    if lower(a.name) == lower(b.name) then Lexicographic.Leq(a.email, b.email)
    else Lexicographic.Leq(lower(a.name), lower(b.name))
  }

  ghost predicate Sorted(lower: string -> string, ns: seq<Node>) {
    forall i, j :: 0 <= i < j < |ns| ==> KeyLeq(lower, ns[i], ns[j])
  }

  lemma KeyOrder(lower: string -> string, a: Node, b: Node, c: Node)
    ensures KeyLeq(lower, a, b) || KeyLeq(lower, b, a)
    ensures KeyLeq(lower, a, b) && KeyLeq(lower, b, c) ==> KeyLeq(lower, a, c)
  {
    Lexicographic.Total(a.email, b.email);
    Lexicographic.Total(lower(a.name), lower(b.name));
    if KeyLeq(lower, a, b) && KeyLeq(lower, b, c) {
      var x, y, z := lower(a.name), lower(b.name), lower(c.name);
      if x == y == z {
        Lexicographic.Transitive(a.email, b.email, c.email);
      } else if x != y && y != z {
        Lexicographic.Transitive(x, y, z);
        if x == z {
          Lexicographic.Antisymmetric(x, y);
        }
      }
    }
  }

  // Of two siblings the one with the smaller lower-cased name is listed first; names that
  // agree are listed by email.
  lemma SiblingsByName(lower: string -> string, ns: seq<Node>, i: nat, j: nat)
    requires Sorted(lower, ns) && i < |ns| && j < |ns|
    ensures Lexicographic.Less(lower(ns[i].name), lower(ns[j].name)) ==> i < j
    ensures lower(ns[i].name) == lower(ns[j].name) && Lexicographic.Less(ns[i].email, ns[j].email) ==> i < j
  {
    if Lexicographic.Less(lower(ns[i].name), lower(ns[j].name)) && j < i {
      assert KeyLeq(lower, ns[j], ns[i]);
      Lexicographic.Antisymmetric(lower(ns[i].name), lower(ns[j].name));
    }
    if lower(ns[i].name) == lower(ns[j].name) && Lexicographic.Less(ns[i].email, ns[j].email) && j < i {
      assert KeyLeq(lower, ns[j], ns[i]);
      Lexicographic.Antisymmetric(ns[i].email, ns[j].email);
    }
  }

  function Insert(lower: string -> string, n: Node, ns: seq<Node>): (r: seq<Node>)
    ensures multiset(r) == multiset([n]) + multiset(ns)
    ensures Sorted(lower, ns) ==> Sorted(lower, r)
  {
    if ns == [] then [n]
    else if KeyLeq(lower, n, ns[0]) then
      InsertFront(lower, n, ns);
      [n] + ns
    else
      InsertLater(lower, n, ns, Insert(lower, n, ns[1..]));
      [ns[0]] + Insert(lower, n, ns[1..])
  }

  lemma InsertFront(lower: string -> string, n: Node, ns: seq<Node>)
    requires ns != [] && KeyLeq(lower, n, ns[0])
    ensures Sorted(lower, ns) ==> Sorted(lower, [n] + ns)
  {
    forall j | 0 < j < |ns| && KeyLeq(lower, ns[0], ns[j]) ensures KeyLeq(lower, n, ns[j]) {
      KeyOrder(lower, n, ns[0], ns[j]);
    }
  }

  lemma InsertLater(lower: string -> string, n: Node, ns: seq<Node>, rest: seq<Node>)
    requires ns != [] && !KeyLeq(lower, n, ns[0])
    requires multiset(rest) == multiset([n]) + multiset(ns[1..])
    requires Sorted(lower, ns[1..]) ==> Sorted(lower, rest)
    ensures multiset([ns[0]] + rest) == multiset([n]) + multiset(ns)
    ensures Sorted(lower, ns) ==> Sorted(lower, [ns[0]] + rest)
  {
    assert ns == [ns[0]] + ns[1..];
    KeyOrder(lower, n, ns[0], ns[0]);
    if Sorted(lower, ns) {
      forall r | r in rest ensures KeyLeq(lower, ns[0], r) {
        assert r in multiset(rest);
        assert r == n || r in ns[1..];
      }
    }
  }

  // What list.sort leaves in the list.
  function SortNodes(lower: string -> string, ns: seq<Node>): (r: seq<Node>)
    ensures multiset(r) == multiset(ns) && Sorted(lower, r)
  {
    if ns == [] then []
    else
      assert ns == [ns[0]] + ns[1..];
      Insert(lower, ns[0], SortNodes(lower, ns[1..]))
  }

  lemma {:induction false} SamePermutation(a: seq<Node>, b: seq<Node>)
    requires multiset(a) == multiset(b)
    ensures forall n :: n in a <==> n in b
    ensures NoDuplicates(a) ==> NoDuplicates(b)
  {
    forall n ensures n in a <==> n in b {
      assert n in multiset(a) <==> n in a;
      assert n in multiset(b) <==> n in b;
    }
    if NoDuplicates(a) {
      forall i, j | 0 <= i < j < |b| ensures b[i] != b[j] {
        OccursOnce(a, b[i]);
        OccursTwice(b, i, j);
      }
    }
  }

  lemma OccursTwice(b: seq<Node>, i: nat, j: nat)
    requires i < j < |b|
    ensures b[i] == b[j] ==> multiset(b)[b[i]] >= 2
  {
    assert b == b[..j] + b[j..];
    assert b[i] in b[..j] && b[j] in b[j..];
  }

  lemma {:induction false} OccursOnce(a: seq<Node>, n: Node)
    requires NoDuplicates(a)
    ensures multiset(a)[n] <= 1
  {
    if a != [] {
      assert a == [a[0]] + a[1..];
      OccursOnce(a[1..], n);
      if n == a[0] {
        assert n !in a[1..];
      }
    }
  }

  // ------------------------------------------------ walking down the trees

  lemma EmailsConcat(a: seq<Node>, b: seq<Node>)
    ensures Emails(a + b) == Emails(a) + Emails(b)
  {
  }

  // Replacing a node on the stack by its children takes exactly that node off the work left.
  lemma ExpandNode(nodes: map<string, Node>, par: Links, rest: seq<Node>, n: Node, children: seq<Node>)
    requires Indexed(nodes) && IsNode(nodes, n) && ChildrenAre(nodes, par, n.email, children)
    requires Rooted(par, n.email)
    ensures Weight(par, nodes.Keys, Emails(rest + [n])) == 1 + Weight(par, nodes.Keys, Emails(rest + children))
    ensures forall x :: x in nodes && Reached(par, rest + [n], x) ==> x == n.email || Reached(par, rest + children, x)
  {
    EmailsOfChildren(nodes, par, n.email, children);
    SubtreeOfReports(par, nodes.Keys, n.email, Emails(children));
    EmailsConcat(rest, [n]);
    EmailsConcat(rest, children);
    WeightConcat(par, nodes.Keys, Emails(rest), Emails([n]));
    WeightConcat(par, nodes.Keys, Emails(rest), Emails(children));
    WeightOfOne(par, nodes.Keys, n);
    forall x | x in nodes && Reached(par, rest + [n], x) && x != n.email ensures Reached(par, rest + children, x) {
      ReachedBelow(nodes, par, rest, n, children, x);
    }
  }

  lemma WeightOfOne(par: Links, people: set<string>, n: Node)
    ensures Weight(par, people, Emails([n])) == |Subtree(par, people, n.email)|
  {
    assert Emails([n])[..0] == [];
  }

  lemma ReachedBelow(nodes: map<string, Node>, par: Links, rest: seq<Node>, n: Node, children: seq<Node>, x: string)
    requires x in nodes && x != n.email && Reached(par, rest + [n], x)
    requires Subtree(par, nodes.Keys, n.email) == {n.email} + Union(par, nodes.Keys, Emails(children))
    ensures Reached(par, rest + children, x)
  {
    var s :| s in rest + [n] && Above(par, s.email, x);
    if s in rest {
      assert s in rest + children;
    } else {
      assert s == n;
      assert x in Subtree(par, nodes.Keys, n.email);
      assert x in Union(par, nodes.Keys, Emails(children));
      var c :| c in Emails(children) && Above(par, c, x);
      var i :| 0 <= i < |children| && children[i].email == c;
      assert children[i] in rest + children;
    }
  }

  ghost predicate ForestOf(nodes: map<string, Node>, par: Links)
    reads nodes.Values
  {
    && Indexed(nodes)
    && (forall e :: e in nodes ==> ChildrenAre(nodes, par, e, nodes[e].children))
    && (forall x :: x in nodes ==> Rooted(par, x))
  }

  lemma SortedChildren(nodes: map<string, Node>, par: Links, e: string, children: seq<Node>, sorted: seq<Node>)
    requires ChildrenAre(nodes, par, e, children) && multiset(sorted) == multiset(children)
    ensures ChildrenAre(nodes, par, e, sorted)
  {
    SamePermutation(children, sorted);
  }

  method SortChildren(lower: string -> string, nodes: map<string, Node>, ghost par: Links, node: Node)
    requires ForestOf(nodes, par) && IsNode(nodes, node)
    modifies node`children
    ensures ForestOf(nodes, par)
    ensures multiset(node.children) == multiset(old(node.children)) && Sorted(lower, node.children)
  {
    var sorted := SortNodes(lower, node.children);
    SortedChildren(nodes, par, node.email, node.children, sorted);
    node.children := sorted;
  }

  // Sorts every child list in the subtree of root; `sorted` are the lists sorted before.
  method SortHierarchy(lower: string -> string, nodes: map<string, Node>, ghost par: Links, root: Node,
                       ghost sorted: set<string>)
    requires ForestOf(nodes, par) && IsNode(nodes, root)
    requires forall x :: x in nodes && x in sorted ==> Sorted(lower, nodes[x].children)
    modifies (set e | e in nodes :: nodes[e])`children
    ensures ForestOf(nodes, par)
    ensures forall x :: x in nodes && x in sorted + Subtree(par, nodes.Keys, root.email)
                        ==> Sorted(lower, nodes[x].children)
  {
    ghost var goal := sorted + Subtree(par, nodes.Keys, root.email);
    var stack := [root];
    assert root in stack;
    while stack != []
      invariant ForestOf(nodes, par)
      invariant forall s :: s in stack ==> IsNode(nodes, s)
      invariant forall x :: x in nodes && x in goal ==> Sorted(lower, nodes[x].children) || Reached(par, stack, x)
      decreases Weight(par, nodes.Keys, Emails(stack))
    {
      SplitLast(stack);
      var node, rest := stack[|stack| - 1], stack[..|stack| - 1];
      SortChildren(lower, nodes, par, node);
      ExpandNode(nodes, par, rest, node, node.children);
      stack := rest + node.children;
    }
  }
}
