/** The tree of a type and its template arguments, and the order of its traversals. */
module TypeTrees {
  import opened Sequences

  type Node = nat

  /** A tree as it is meant: the children in the order in which they were added. */
  datatype Rose = Rose(node: Node, children: seq<Rose>)

  function Preorder(t: Rose): (r: seq<Node>)
    ensures |r| >= 1 && r[0] == t.node
  {
    [t.node] + PreorderAll(t.children)
  }

  function PreorderAll(ts: seq<Rose>): seq<Node> {
    if ts == [] then [] else Preorder(ts[0]) + PreorderAll(ts[1..])
  }

  predicate NoDuplicates(s: seq<Node>) {
    forall i, j :: 0 <= i < j < |s| ==> s[i] != s[j]
  }

  /** The adjacency lists hold tree `t`, newest children first. */
  predicate Represents(adj: map<Node, seq<Node>>, t: Rose) {
    && t.node in adj && |adj[t.node]| == |t.children|
    && forall i :: 0 <= i < |t.children| ==>
         adj[t.node][|t.children| - 1 - i] == t.children[i].node && Represents(adj, t.children[i])
  }

  class Tree {
    var names: map<Node, string>
    var adjList: map<Node, seq<Node>>
    var discovered: set<Node>
    var runDft: bool
    var nodesDft: seq<Node>

    predicate Valid()
      reads this
    {
      names.Keys == adjList.Keys
    }

    constructor ()
      ensures Valid() && adjList == map[] && !runDft && nodesDft == []
    {
      names, adjList, discovered, runDft, nodesDft := map[], map[], {}, false, [];
    }

    method AddNode(node: Node, data: string)
      requires Valid() && node !in adjList
      modifies this
      ensures Valid() && adjList == Apply(old(adjList), NewNode(node)) && names == old(names)[node := data]
      ensures adjList == old(adjList)[node := []]
      ensures runDft == old(runDft) && nodesDft == old(nodesDft)
    {
      names := names[node := data];
      adjList := adjList[node := []];
    }

    /** The newest child comes first. */
    method AddEdge(from: Node, to: Node)
      requires Valid()
      modifies this
      ensures Valid() && names == old(names) && runDft == old(runDft) && nodesDft == old(nodesDft)
      ensures adjList == Apply(old(adjList), NewEdge(from, to))
      ensures adjList == if from in old(adjList) then old(adjList)[from := [to] + old(adjList)[from]] else old(adjList)
    {
      if from !in adjList {
        return;
      }
      adjList := adjList[from := [to] + adjList[from]];
    }

    method Dft(root: Node, ghost t: Rose) returns (text: string)
      requires Valid() && Represents(adjList, t) && root == t.node && NoDuplicates(Preorder(t))
      modifies `discovered, `runDft, `nodesDft
      ensures text == Text(names, Preorder(t)) && runDft
      ensures nodesDft == if old(runDft) then old(nodesDft) else old(nodesDft) + Preorder(t)
    {
      discovered := {};
      text := "";
      var visit := [root];
      ghost var left, seen, run, nodes0 := [t], [], runDft, nodesDft;
      SearchStarts(adjList, t);
      assert Visited(t, visit, left, seen, text, run, nodes0);
      hide Visited, Represents, Preorder, Text, Recorded, NoDuplicates;
      while visit != []
        invariant Visited(t, visit, left, seen, text, run, nodes0)
        decreases |Preorder(t)| - |seen|
      {
        visit, text, left, seen := VisitTurn(t, visit, left, seen, text, run, nodes0);
      }
      VisitedAll(t, visit, left, seen, text, run, nodes0);
      if !runDft {
        runDft := true;
      }
    }

    /** The nodes in `seen` were visited, which gave `text`. */
    ghost predicate Visited(t: Rose, visit: seq<Node>, left: seq<Rose>, seen: seq<Node>, text: string,
                            run: bool, nodes0: seq<Node>)
      reads this
    {
      && Search(adjList, t, visit, left, seen) && text == Text(names, seen)
      && discovered == ToSet(seen) && runDft == run && nodesDft == Recorded(run, nodes0, seen)
    }

    lemma VisitedAll(t: Rose, visit: seq<Node>, left: seq<Rose>, seen: seq<Node>, text: string,
                     run: bool, nodes0: seq<Node>)
      requires Visited(t, visit, left, seen, text, run, nodes0) && visit == []
      ensures text == Text(names, Preorder(t)) && runDft == run
      ensures nodesDft == if run then nodes0 else nodes0 + Preorder(t)
    {
      SearchEnds(adjList, t, visit, left, seen);
    }

    /** One turn of the loop. */
    method VisitTurn(ghost t: Rose, visit0: seq<Node>, ghost left0: seq<Rose>, ghost seen0: seq<Node>, text0: string,
                     ghost run: bool, ghost nodes0: seq<Node>)
      returns (visit: seq<Node>, text: string, ghost left: seq<Rose>, ghost seen: seq<Node>)
      requires Valid() && NoDuplicates(Preorder(t)) && visit0 != []
      requires Visited(t, visit0, left0, seen0, text0, run, nodes0)
      modifies `discovered, `nodesDft
      ensures Visited(t, visit, left, seen, text, run, nodes0)
      ensures |seen0| < |seen| <= |Preorder(t)|
    {
      hide Represents, Preorder, Search, Text, ToSet, Recorded, NoDuplicates, NextLeft;
      SearchStep(adjList, t, visit0, left0, seen0);
      ghost var top := visit0[|visit0| - 1];
      TextSnoc(names, seen0, top);
      SeenSnoc(run, nodes0, seen0, top);
      visit, text := VisitTop(visit0, text0);
      left, seen := NextLeft(left0), seen0 + [top];
    }

    /** Visits the node on top of the stack, which was not visited before, and puts its children
        on the stack. */
    method VisitTop(visit0: seq<Node>, text0: string) returns (visit: seq<Node>, text: string)
      requires Valid() && visit0 != [] && visit0[|visit0| - 1] in adjList && visit0[|visit0| - 1] !in discovered
      modifies `discovered, `nodesDft
      ensures var node := visit0[|visit0| - 1];
              && visit == visit0[..|visit0| - 1] + adjList[node] && text == text0 + (names[node] + " ")
              && discovered == old(discovered) + {node}
              && nodesDft == Recorded(runDft, old(nodesDft), [node])
    {
      var node := visit0[|visit0| - 1];
      text := text0 + (names[node] + " ");
      if !runDft {
        nodesDft := nodesDft + [node];
      }
      visit := visit0[..|visit0| - 1];
      if node !in discovered {
        discovered := discovered + {node};
        visit := PushAll(visit, adjList[node]);
      }
    }

    method PushAll(visit0: seq<Node>, edges: seq<Node>) returns (visit: seq<Node>)
      ensures visit == visit0 + edges
    {
      visit := visit0;
      for i := 0 to |edges|
        invariant visit == visit0 + edges[..i]
      {
        visit := visit + [edges[i]];
      }
    }

    /** The type that is generated for `node`: the children, stored newest first, are taken from
        the end, except at built-in and user-defined types, which `stops` maps to the name they
        are generated under. */
    method GenerateType(node: Node, stops: map<Node, string>, ghost t: Rose) returns (h: HType)
      requires Valid() && Represents(adjList, t) && node == t.node
      ensures h == Emit(Shown(names, stops), Pruned(stops, t))
      ensures if node in stops then h == HType(stops[node], [])
              else h.name == names[node] && |h.children| == |t.children|
      decreases t
    {
      hide Represents, Emit, EmitAll, EmitFirst, Pruned, PrunedAll, Shown;
      var children := [];
      RootHeld(adjList, t);
      EmitParts(names, stops, t);
      if node in stops {
        return HType(stops[node], children);
      }
      var v := adjList[node];
      var i := |v|;
      while i > 0
        invariant 0 <= i <= |v| == |t.children|
        invariant children == EmitFirst(Shown(names, stops), stops, t.children, |v| - i)
      {
        i := i - 1;
        ghost var k := |v| - 1 - i;
        ChildHeld(adjList, t, k);
        var child := GenerateType(v[i], stops, t.children[k]);
        children := children + [child];
        EmitSnoc(Shown(names, stops), stops, t.children, k);
      }
      h := HType(names[node], children);
    }
  }

  /** The tree without what is below a node in `stops`. */
  function Pruned(stops: map<Node, string>, t: Rose): Rose {
    Rose(t.node, if t.node in stops then [] else PrunedAll(stops, t.children))
  }

  function PrunedAll(stops: map<Node, string>, ts: seq<Rose>): (r: seq<Rose>) {
    if ts == [] then [] else PrunedAll(stops, ts[..|ts| - 1]) + [Pruned(stops, ts[|ts| - 1])]
  }

  function Shown(names: map<Node, string>, stops: map<Node, string>): map<Node, string> {
    names + stops
  }

  /** The types generated for the first `k` children. */
  function EmitFirst(names: map<Node, string>, stops: map<Node, string>, ts: seq<Rose>, k: nat): seq<HType>
    requires k <= |ts|
  {
    EmitAll(names, PrunedAll(stops, ts[..k]))
  }

  lemma EmitParts(names: map<Node, string>, stops: map<Node, string>, t: Rose)
    requires t.node in names
    ensures Emit(Shown(names, stops), Pruned(stops, t)) ==
            if t.node in stops then HType(stops[t.node], [])
            else HType(names[t.node], EmitAll(Shown(names, stops), PrunedAll(stops, t.children)))
    ensures EmitFirst(Shown(names, stops), stops, t.children, 0) == []
    ensures EmitFirst(Shown(names, stops), stops, t.children, |t.children|) ==
            EmitAll(Shown(names, stops), PrunedAll(stops, t.children))
    ensures |EmitAll(Shown(names, stops), PrunedAll(stops, t.children))| == |t.children|
  {
    assert t.children[..0] == [] && t.children[..|t.children|] == t.children;
    EmitAllSize(Shown(names, stops), stops, t.children);
  }

  lemma {:induction false} EmitAllSize(names: map<Node, string>, stops: map<Node, string>, ts: seq<Rose>)
    ensures |PrunedAll(stops, ts)| == |ts| && |EmitAll(names, PrunedAll(stops, ts))| == |ts|
  {
    if ts != [] {
      var init, last := ts[..|ts| - 1], ts[|ts| - 1];
      EmitAllSize(names, stops, init);
      assert PrunedAll(stops, ts)[..|init|] == PrunedAll(stops, init);
    }
  }

  lemma RootHeld(adj: map<Node, seq<Node>>, t: Rose)
    requires Represents(adj, t)
    ensures t.node in adj && |adj[t.node]| == |t.children|
  {
  }

  lemma ChildHeld(adj: map<Node, seq<Node>>, t: Rose, k: nat)
    requires Represents(adj, t) && k < |t.children|
    ensures t.node in adj && |adj[t.node]| == |t.children|
    ensures adj[t.node][|t.children| - 1 - k] == t.children[k].node && Represents(adj, t.children[k])
  {
  }

  lemma EmitSnoc(names: map<Node, string>, stops: map<Node, string>, ts: seq<Rose>, k: nat)
    requires k < |ts|
    ensures EmitFirst(names, stops, ts, k + 1) == EmitFirst(names, stops, ts, k) + [Emit(names, Pruned(stops, ts[k]))]
  {
    assert ts[..k + 1][..k] == ts[..k];
    var init := PrunedAll(stops, ts[..k]);
    assert (init + [Pruned(stops, ts[k])])[..|init|] == init;
  }

  /** Only a node without children is in `stops`. */
  predicate StopsAtLeaves(stops: map<Node, string>, t: Rose) {
    && (t.node in stops ==> t.children == [])
    && forall i :: 0 <= i < |t.children| ==> StopsAtLeaves(stops, t.children[i])
  }

  /** The generated type names all nodes of the tree if and only if it stops at leaves only. */
  lemma {:induction false} PrunedOrderIff(stops: map<Node, string>, t: Rose)
    ensures |Preorder(Pruned(stops, t))| <= |Preorder(t)|
    ensures Preorder(Pruned(stops, t)) == Preorder(t) <==> StopsAtLeaves(stops, t)
    ensures |Preorder(Pruned(stops, t))| == |Preorder(t)| <==> StopsAtLeaves(stops, t)
    decreases t, 1
  {
    PrunedOrderAll(stops, t.children);
    if t.node in stops && t.children != [] {
      assert |PreorderAll(t.children)| >= |Preorder(t.children[0])| > 0;
    }
  }

  lemma {:induction false} PrunedOrderAll(stops: map<Node, string>, ts: seq<Rose>)
    ensures var r := PreorderAll(PrunedAll(stops, ts));
            && |r| <= |PreorderAll(ts)|
            && (|r| == |PreorderAll(ts)| <==> forall i :: 0 <= i < |ts| ==> StopsAtLeaves(stops, ts[i]))
            && (|r| == |PreorderAll(ts)| ==> r == PreorderAll(ts))
    decreases ts, 0
  {
    if ts != [] {
      var init, last := ts[..|ts| - 1], ts[|ts| - 1];
      PrunedOrderAll(stops, init);
      PrunedOrderIff(stops, last);
      PreorderAppend(init, [last]);
      PreorderAppend(PrunedAll(stops, init), [Pruned(stops, last)]);
      PreorderOne(last);
      PreorderOne(Pruned(stops, last));
      assert ts == init + [last];
      hide StopsAtLeaves, Preorder, PreorderAll, Pruned;
    }
  }

  lemma PreorderOne(t: Rose)
    ensures PreorderAll([t]) == Preorder(t)
  {
  }

  datatype HType = HType(name: string, children: seq<HType>)

  function Emit(names: map<Node, string>, t: Rose): HType {
    HType(if t.node in names then names[t.node] else "", EmitAll(names, t.children))
  }

  function EmitAll(names: map<Node, string>, ts: seq<Rose>): (r: seq<HType>)
  {
    if ts == [] then [] else EmitAll(names, ts[..|ts| - 1]) + [Emit(names, ts[|ts| - 1])]
  }

  /** The names of a generated type from left to right. */
  function TypeText(h: HType): string {
    h.name + " " + TypeTextAll(h.children)
  }

  function TypeTextAll(hs: seq<HType>): string {
    if hs == [] then "" else TypeTextAll(hs[..|hs| - 1]) + TypeText(hs[|hs| - 1])
  }

  function Text(names: map<Node, string>, nodes: seq<Node>): string {
    if nodes == [] then ""
    else
      var last := nodes[|nodes| - 1];
      Text(names, nodes[..|nodes| - 1]) + ((if last in names then names[last] else "") + " ")
  }

  lemma {:induction false} TextAppend(names: map<Node, string>, a: seq<Node>, b: seq<Node>)
    ensures Text(names, a + b) == Text(names, a) + Text(names, b)
    decreases |b|
  {
    if b == [] {
      assert a + b == a;
    } else {
      assert (a + b)[..|a + b| - 1] == a + b[..|b| - 1];
      TextAppend(names, a, b[..|b| - 1]);
    }
  }

  /** The explicit stack and the recursion give the types in the same order. */
  lemma {:induction false} SameOrder(names: map<Node, string>, t: Rose)
    ensures TypeText(Emit(names, t)) == Text(names, Preorder(t))
    decreases t, 1
  {
    SameOrderAll(names, t.children);
    TextAppend(names, [t.node], PreorderAll(t.children));
    assert Text(names, [t.node]) == Emit(names, t).name + " " by {
      TextSnoc(names, [], t.node);
    }
    hide Text, TypeTextAll, PreorderAll, EmitAll;
  }

  lemma TextSnoc(names: map<Node, string>, nodes: seq<Node>, x: Node)
    ensures Text(names, nodes + [x]) == Text(names, nodes) + ((if x in names then names[x] else "") + " ")
  {
    assert (nodes + [x])[..|nodes|] == nodes;
  }

  lemma {:induction false} SameOrderAll(names: map<Node, string>, ts: seq<Rose>)
    ensures TypeTextAll(EmitAll(names, ts)) == Text(names, PreorderAll(ts))
    decreases ts, 0
  {
    if ts != [] {
      var init, last := ts[..|ts| - 1], ts[|ts| - 1];
      SameOrderAll(names, init);
      SameOrder(names, last);
      TypeTextSnoc(EmitAll(names, init), Emit(names, last));
      assert ts == init + [last];
      PreorderAppend(init, [last]);
      PreorderOne(last);
      TextAppend(names, PreorderAll(init), Preorder(last));
      hide Text, TypeText, TypeTextAll, PreorderAll, Preorder;
    }
  }

  lemma TypeTextSnoc(hs: seq<HType>, h: HType)
    ensures TypeTextAll(hs + [h]) == TypeTextAll(hs) + TypeText(h)
  {
    assert (hs + [h])[..|hs|] == hs;
  }

  lemma {:induction false} PreorderAppend(a: seq<Rose>, b: seq<Rose>)
    ensures PreorderAll(a + b) == PreorderAll(a) + PreorderAll(b)
    decreases |a|
  {
    if a == [] {
      assert a + b == b;
    } else {
      assert (a + b)[1..] == a[1..] + b;
      PreorderAppend(a[1..], b);
    }
  }

  /** The stack holds the roots of the trees in `left`. */
  predicate Stacked(adj: map<Node, seq<Node>>, visit: seq<Node>, left: seq<Rose>) {
    |left| == |visit| && forall i :: 0 <= i < |left| ==> left[i].node == visit[i] && Represents(adj, left[i])
  }

  /** `seen` was visited, and the trees of the stack are what is left to visit. */
  ghost predicate Search(adj: map<Node, seq<Node>>, t: Rose, visit: seq<Node>, left: seq<Rose>, seen: seq<Node>) {
    Stacked(adj, visit, left) && seen + PreorderAll(Reversed(left)) == Preorder(t)
  }

  ghost function NextLeft(left: seq<Rose>): seq<Rose> {
    if left == [] then [] else left[..|left| - 1] + Reversed(left[|left| - 1].children)
  }

  lemma SearchStarts(adj: map<Node, seq<Node>>, t: Rose)
    requires Represents(adj, t)
    ensures Search(adj, t, [t.node], [t], [])
  {
    assert Reversed([t]) == [t] && PreorderAll([t]) == Preorder(t);
  }

  lemma SearchEnds(adj: map<Node, seq<Node>>, t: Rose, visit: seq<Node>, left: seq<Rose>, seen: seq<Node>)
    requires Search(adj, t, visit, left, seen) && visit == []
    ensures seen == Preorder(t)
  {
  }

  lemma SearchStep(adj: map<Node, seq<Node>>, t: Rose, visit: seq<Node>, left: seq<Rose>, seen: seq<Node>)
    requires Search(adj, t, visit, left, seen) && visit != [] && NoDuplicates(Preorder(t))
    ensures var node := visit[|visit| - 1];
            && node in adj && node !in seen && |seen| < |Preorder(t)|
            && Search(adj, t, visit[..|visit| - 1] + adj[node], NextLeft(left), seen + [node])
  {
    StackedNext(adj, visit, left);
    PopAndPush(left);
    Unseen(Preorder(t), seen, PreorderAll(Reversed(left)));
    hide Represents, Preorder, PreorderAll, Reversed, NoDuplicates;
  }

  lemma {:induction false} StackedNext(adj: map<Node, seq<Node>>, visit: seq<Node>, left: seq<Rose>)
    requires Stacked(adj, visit, left) && visit != []
    ensures var top := left[|left| - 1];
            && visit[|visit| - 1] == top.node && top.node in adj
            && Stacked(adj, visit[..|visit| - 1] + adj[top.node], left[..|left| - 1] + Reversed(top.children))
  {
    var top := left[|left| - 1];
    var v, l := visit[..|visit| - 1] + adj[top.node], left[..|left| - 1] + Reversed(top.children);
    forall i | |left| - 1 <= i < |l| ensures l[i].node == v[i] && Represents(adj, l[i]) {
      var k := |top.children| - 1 - (i - (|left| - 1));
      assert l[i] == top.children[k];
      assert adj[top.node][|top.children| - 1 - k] == top.children[k].node;
    }
  }

  function ToSet(s: seq<Node>): (r: set<Node>)
    ensures forall n :: n in r <==> n in s
  {
    set n | n in s
  }

  /** The nodes are recorded just the first time. */
  function Recorded(again: bool, nodes: seq<Node>, seen: seq<Node>): seq<Node> {
    if again then nodes else nodes + seen
  }

  lemma SeenSnoc(again: bool, nodes: seq<Node>, seen: seq<Node>, x: Node)
    ensures Recorded(again, Recorded(again, nodes, seen), [x]) == Recorded(again, nodes, seen + [x])
    ensures ToSet(seen + [x]) == ToSet(seen) + {x}
  {
  }

  /** Putting the children in the order they are stored on the stack leaves them to be visited
      in the order they were added: the two reversals cancel. */
  lemma {:induction false} PopAndPush(left: seq<Rose>)
    requires left != []
    ensures var top, rest := left[|left| - 1], left[..|left| - 1];
            PreorderAll(Reversed(left)) == [top.node] + PreorderAll(Reversed(rest + Reversed(top.children)))
  {
    var top, rest := left[|left| - 1], left[..|left| - 1];
    assert left == rest + [top] && Reversed([top]) == [top];
    ReversedAppend(rest, [top]);
    ReversedAppend(rest, Reversed(top.children));
    ReversedTwice(top.children);
    hide Reversed;
    PreorderAppend(top.children, Reversed(rest));
    assert ([top] + Reversed(rest))[1..] == Reversed(rest);
  }

  lemma Unseen(all: seq<Node>, seen: seq<Node>, left: seq<Node>)
    requires seen + left == all && NoDuplicates(all) && left != []
    ensures left[0] !in seen && |seen| < |all|
  {
    assert all[|seen|] == left[0];
    forall i | 0 <= i < |seen| ensures seen[i] != left[0] {
      assert all[i] == seen[i];
    }
  }

  lemma {:induction false} SameBelow(adj: map<Node, seq<Node>>, n: Node, edges: seq<Node>, t: Rose)
    requires Represents(adj, t) && n !in Preorder(t)
    ensures Represents(adj[n := edges], t)
  {
    assert t.node == Preorder(t)[0];
    forall i | 0 <= i < |t.children| ensures Represents(adj[n := edges], t.children[i]) {
      if n in Preorder(t.children[i]) { InChildren(t.children, i, n); }
      SameBelow(adj, n, edges, t.children[i]);
    }
  }

  lemma {:induction false} InChildren(ts: seq<Rose>, i: nat, n: Node)
    requires i < |ts| && n in Preorder(ts[i])
    ensures n in PreorderAll(ts)
    decreases |ts|
  {
    if i > 0 { InChildren(ts[1..], i - 1, n); }
  }

  /** Tree `t` with `c` as the last child of node `n`. */
  function AddChild(t: Rose, n: Node, c: Rose): Rose {
    Rose(t.node, AddChildAll(t.children, n, c) + NewChild(t.node, n, c))
  }

  function NewChild(node: Node, n: Node, c: Rose): seq<Rose> {
    if node == n then [c] else []
  }

  function AddChildAll(ts: seq<Rose>, n: Node, c: Rose): (r: seq<Rose>)
    ensures |r| == |ts| && forall i :: 0 <= i < |ts| ==> r[i] == AddChild(ts[i], n, c)
  {
    if ts == [] then [] else [AddChild(ts[0], n, c)] + AddChildAll(ts[1..], n, c)
  }

  /** `AddEdge` makes a tree the last child of its new parent, which can lie anywhere in a larger
      tree. */
  lemma {:induction false} EdgeAddsChild(adj: map<Node, seq<Node>>, t: Rose, n: Node, c: Rose)
    requires Represents(adj, t) && Represents(adj, c) && n in adj && n !in Preorder(c)
    ensures Represents(adj[n := [c.node] + adj[n]], AddChild(t, n, c))
  {
    var adj' := adj[n := [c.node] + adj[n]];
    var children := AddChild(t, n, c).children;
    SameBelow(adj, n, adj'[n], c);
    forall i | 0 <= i < |children|
      ensures adj'[t.node][|children| - 1 - i] == children[i].node && Represents(adj', children[i])
    {
      if i < |t.children| {
        assert adj[t.node][|t.children| - 1 - i] == t.children[i].node;
        EdgeAddsChild(adj, t.children[i], n, c);
      }
    }
  }

  // ----- Any sequence of additions -----

  datatype Build = NewNode(node: Node) | NewEdge(from: Node, to: Node)

  function Apply(adj: map<Node, seq<Node>>, b: Build): map<Node, seq<Node>> {
    match b
    case NewNode(n) => adj[n := []]
    case NewEdge(from, to) => if from in adj then adj[from := [to] + adj[from]] else adj
  }

  function Built(bs: seq<Build>): map<Node, seq<Node>> {
    if bs == [] then map[] else Apply(Built(bs[..|bs| - 1]), bs[|bs| - 1])
  }

  /** The first tree with root `n`, or the number of trees. */
  function RootIndex(ts: seq<Rose>, n: Node): (i: nat)
    ensures i <= |ts| && (i < |ts| ==> ts[i].node == n)
  {
    if ts == [] || ts[0].node == n then 0 else 1 + RootIndex(ts[1..], n)
  }

  /** The first tree that holds node `n`, or the number of trees. */
  function HolderIndex(ts: seq<Rose>, n: Node): (i: nat)
    ensures i <= |ts| && (i < |ts| ==> n in Preorder(ts[i]))
  {
    if ts == [] || n in Preorder(ts[0]) then 0 else 1 + HolderIndex(ts[1..], n)
  }

  function Without(ts: seq<Rose>, i: nat): seq<Rose>
    requires i < |ts|
  {
    ts[..i] + ts[i + 1..]
  }

  /** The trees after one more addition. */
  function Grow(ts: seq<Rose>, b: Build): seq<Rose>
    requires Grows(ts, b)
  {
    match b
    case NewNode(n) => ts + [Rose(n, [])]
    case NewEdge(from, to) =>
      var i, j := HolderIndex(ts, from), RootIndex(ts, to);
      Without(ts[i := AddChild(ts[i], from, ts[j])], j)
  }

  /** A node is new, and an edge goes from a node of one tree to the root of another. */
  predicate Grows(ts: seq<Rose>, b: Build) {
    match b
    case NewNode(n) => n !in PreorderAll(ts)
    case NewEdge(from, to) =>
      HolderIndex(ts, from) < |ts| && RootIndex(ts, to) < |ts| && HolderIndex(ts, from) != RootIndex(ts, to)
  }

  /** Every addition keeps the nodes in trees. */
  predicate Good(bs: seq<Build>)
    decreases |bs|, 0
  {
    bs == [] || (Good(bs[..|bs| - 1]) && Grows(Trees(bs[..|bs| - 1]), bs[|bs| - 1]))
  }

  function Trees(bs: seq<Build>): seq<Rose>
    requires Good(bs)
    decreases |bs|, 1
  {
    if bs == [] then [] else Grow(Trees(bs[..|bs| - 1]), bs[|bs| - 1])
  }

  predicate AllRepresented(adj: map<Node, seq<Node>>, ts: seq<Rose>) {
    forall i :: 0 <= i < |ts| ==> Represents(adj, ts[i])
  }

  /** The adjacency lists hold the trees, no node comes twice, and there are no others. */
  ghost predicate IsForest(adj: map<Node, seq<Node>>, ts: seq<Rose>) {
    && AllRepresented(adj, ts)
    && (forall x :: Times(PreorderAll(ts), x) <= 1)
    && (forall x :: x in adj <==> x in PreorderAll(ts))
  }

  /** How often `x` comes in `s`. */
  function Times(s: seq<Node>, x: Node): nat {
    multiset(s)[x]
  }

  lemma TimesAppend(a: seq<Node>, b: seq<Node>, x: Node)
    ensures Times(a + b, x) == Times(a, x) + Times(b, x)
    ensures x in a <==> Times(a, x) > 0
  {
  }

  lemma {:induction false} TimesWithout(ts: seq<Rose>, i: nat, x: Node)
    requires i < |ts|
    ensures Times(PreorderAll(ts), x) == Times(Preorder(ts[i]), x) + Times(PreorderAll(Without(ts, i)), x)
  {
    assert ts == ts[..i] + ([ts[i]] + ts[i + 1..]);
    PreorderAppend(ts[..i], [ts[i]] + ts[i + 1..]);
    PreorderAppend([ts[i]], ts[i + 1..]);
    PreorderAppend(ts[..i], ts[i + 1..]);
    assert PreorderAll([ts[i]]) == Preorder(ts[i]);
    var a, b, c := PreorderAll(ts[..i]), Preorder(ts[i]), PreorderAll(ts[i + 1..]);
    hide *;
    TimesAppend(a, b + c, x);
    TimesAppend(b, c, x);
    TimesAppend(a, c, x);
  }

  function Product(a: nat, b: nat): nat {
    a * b
  }

  lemma Distribute(a: nat, b: nat, m: nat)
    ensures Product(a + b, m) == Product(a, m) + Product(b, m)
    ensures Product(0, m) == 0 && Product(1, m) == m
  {
  }

  /** Adding `c` at node `n` adds its nodes once for each time that `n` comes. */
  lemma {:induction false} TimesAdded(t: Rose, n: Node, c: Rose, x: Node)
    ensures Times(Preorder(AddChild(t, n, c)), x) == Times(Preorder(t), x) + Product(Times(Preorder(t), n), Times(Preorder(c), x))
    decreases t, 1
  {
    hide *;
    TimesAddedAll(t.children, n, c, x);
    TimesChildren(t, n, c, x);
    TimesNode(t, x);
    TimesNode(t, n);
    TimesOne(t.node, n);
    Distribute(Times([t.node], n), Times(PreorderAll(t.children), n), Times(Preorder(c), x));
    Distribute(0, 0, Times(Preorder(c), x));
  }

  lemma TimesOne(node: Node, n: Node)
    ensures Times([node], n) == if node == n then 1 else 0
  {
  }

  lemma TimesNode(t: Rose, x: Node)
    ensures Times(Preorder(t), x) == Times([t.node], x) + Times(PreorderAll(t.children), x)
  {
    TimesAppend([t.node], PreorderAll(t.children), x);
  }

  lemma TimesChildren(t: Rose, n: Node, c: Rose, x: Node)
    ensures Times(Preorder(AddChild(t, n, c)), x)
            == Times([t.node], x) + Times(PreorderAll(AddChildAll(t.children, n, c)), x)
               + if t.node == n then Times(Preorder(c), x) else 0
  {
    var all := AddChildAll(t.children, n, c);
    TimesNode(AddChild(t, n, c), x);
    if t.node == n {
      PreorderAppend(all, [c]);
      assert PreorderAll([c]) == Preorder(c);
      hide Preorder, PreorderAll;
      TimesAppend(PreorderAll(all), Preorder(c), x);
    } else {
      assert all + [] == all;
    }
  }

  lemma {:induction false} TimesAddedAll(ts: seq<Rose>, n: Node, c: Rose, x: Node)
    ensures Times(PreorderAll(AddChildAll(ts, n, c)), x)
            == Times(PreorderAll(ts), x) + Product(Times(PreorderAll(ts), n), Times(Preorder(c), x))
    decreases ts, 0
  {
    hide *;
    var m := Times(Preorder(c), x);
    if ts == [] {
      NoneAdded(n, c);
      Distribute(0, 0, m);
    } else {
      TimesAdded(ts[0], n, c, x);
      TimesAddedAll(ts[1..], n, c, x);
      TimesFirst(ts, x);
      TimesFirst(ts, n);
      FirstAdded(ts, n, c, x);
      Distribute(Times(Preorder(ts[0]), n), Times(PreorderAll(ts[1..]), n), m);
    }
  }

  lemma NoneAdded(n: Node, c: Rose)
    ensures AddChildAll([], n, c) == [] && PreorderAll([]) == [] && forall x :: Times([], x) == 0
  {
  }

  lemma FirstAdded(ts: seq<Rose>, n: Node, c: Rose, x: Node)
    requires ts != []
    ensures Times(PreorderAll(AddChildAll(ts, n, c)), x)
            == Times(Preorder(AddChild(ts[0], n, c)), x) + Times(PreorderAll(AddChildAll(ts[1..], n, c)), x)
  {
    assert AddChildAll(ts, n, c)[1..] == AddChildAll(ts[1..], n, c);
    hide AddChildAll, AddChild;
    TimesFirst(AddChildAll(ts, n, c), x);
  }

  lemma TimesFirst(ts: seq<Rose>, x: Node)
    requires ts != []
    ensures Times(PreorderAll(ts), x) == Times(Preorder(ts[0]), x) + Times(PreorderAll(ts[1..]), x)
  {
    TimesAppend(Preorder(ts[0]), PreorderAll(ts[1..]), x);
  }

  lemma InTimes(s: seq<Node>, x: Node)
    ensures x in s <==> Times(s, x) > 0
  {
  }

  lemma {:induction false} NodeKeepsForest(adj: map<Node, seq<Node>>, ts: seq<Rose>, n: Node)
    requires IsForest(adj, ts) && n !in PreorderAll(ts)
    ensures IsForest(adj[n := []], ts + [Rose(n, [])])
  {
    var leaf := Rose(n, []);
    NodeRepresents(adj, ts, n);
    PreorderAppend(ts, [leaf]);
    PreorderOne(leaf);
    assert Preorder(leaf) == [n];
    hide Preorder, PreorderAll, Represents;
    InTimes(PreorderAll(ts), n);
    forall x ensures Times(PreorderAll(ts + [leaf]), x) <= 1 {
      TimesAppend(PreorderAll(ts), [n], x);
    }
  }

  lemma {:induction false} NodeRepresents(adj: map<Node, seq<Node>>, ts: seq<Rose>, n: Node)
    requires AllRepresented(adj, ts) && n !in PreorderAll(ts)
    ensures AllRepresented(adj[n := []], ts + [Rose(n, [])])
  {
    assert Represents(adj[n := []], Rose(n, []));
    hide Preorder, PreorderAll, Represents;
    forall i | 0 <= i < |ts| ensures Represents(adj[n := []], ts[i]) {
      if n in Preorder(ts[i]) { InChildren(ts, i, n); }
      SameBelow(adj, n, [], ts[i]);
    }
  }

  /** An edge moves the nodes of one tree into another. */
  lemma {:induction false} EdgeMoves(ts: seq<Rose>, i: nat, j: nat, from: Node, x: Node)
    requires i < |ts| && j < |ts| && i != j && Times(Preorder(ts[i]), from) == 1
    ensures Times(PreorderAll(Without(ts[i := AddChild(ts[i], from, ts[j])], j)), x) == Times(PreorderAll(ts), x)
  {
    var us := ts[i := AddChild(ts[i], from, ts[j])];
    TimesWithout(ts, i, x);
    TimesWithout(us, i, x);
    TimesWithout(us, j, x);
    TimesAdded(ts[i], from, ts[j], x);
    assert Without(us, i) == Without(ts, i);
  }

  lemma {:induction false} OnlyHere(ts: seq<Rose>, i: nat, j: nat, x: Node)
    requires i < |ts| && j < |ts| && i != j && Times(PreorderAll(ts), x) <= 1 && x in Preorder(ts[i])
    ensures Times(Preorder(ts[i]), x) == 1 && x !in Preorder(ts[j])
  {
    TimesWithout(ts, i, x);
    InTimes(Preorder(ts[i]), x);
    var k := if j < i then j else j - 1;
    assert Without(ts, i)[k] == ts[j];
    if x in Preorder(ts[j]) {
      InChildren(Without(ts, i), k, x);
      InTimes(PreorderAll(Without(ts, i)), x);
    }
  }

  lemma {:induction false} EdgeKeepsForest(adj: map<Node, seq<Node>>, ts: seq<Rose>, from: Node, to: Node)
    requires IsForest(adj, ts) && Grows(ts, NewEdge(from, to))
    ensures IsForest(Apply(adj, NewEdge(from, to)), Grow(ts, NewEdge(from, to)))
  {
    var i, j := HolderIndex(ts, from), RootIndex(ts, to);
    var rest := Grow(ts, NewEdge(from, to));
    InChildren(ts, i, from);
    var adj' := adj[from := [ts[j].node] + adj[from]];
    assert adj' == Apply(adj, NewEdge(from, to)) && adj'.Keys == adj.Keys;
    assert rest == Without(ts[i := AddChild(ts[i], from, ts[j])], j) && Times(PreorderAll(ts), from) <= 1;
    OnlyHere(ts, i, j, from);
    EdgeRepresents(adj, ts, i, j, from);
    hide *;
    forall x ensures Times(PreorderAll(rest), x) == Times(PreorderAll(ts), x) {
      EdgeMoves(ts, i, j, from, x);
    }
    SameNodes(adj, ts, adj', rest);
  }

  lemma SameNodes(adj: map<Node, seq<Node>>, ts: seq<Rose>, adj': map<Node, seq<Node>>, ts': seq<Rose>)
    requires IsForest(adj, ts) && adj'.Keys == adj.Keys
    requires AllRepresented(adj', ts')
    requires forall x :: Times(PreorderAll(ts'), x) == Times(PreorderAll(ts), x)
    ensures IsForest(adj', ts')
  {
    hide Represents, PreorderAll, Times;
    forall x ensures x in PreorderAll(ts') <==> x in PreorderAll(ts) {
      InTimes(PreorderAll(ts'), x);
      InTimes(PreorderAll(ts), x);
    }
  }

  lemma {:induction false} EdgeRepresents(adj: map<Node, seq<Node>>, ts: seq<Rose>, i: nat, j: nat, from: Node)
    requires AllRepresented(adj, ts) && Times(PreorderAll(ts), from) <= 1
    requires i < |ts| && j < |ts| && i != j && from in Preorder(ts[i]) && from in adj
    ensures AllRepresented(adj[from := [ts[j].node] + adj[from]], Without(ts[i := AddChild(ts[i], from, ts[j])], j))
  {
    var adj', us := adj[from := [ts[j].node] + adj[from]], ts[i := AddChild(ts[i], from, ts[j])];
    OnlyHere(ts, i, j, from);
    EdgeAddsChild(adj, ts[i], from, ts[j]);
    hide AddChild, Preorder, PreorderAll, Times, Represents, Without;
    forall k | 0 <= k < |ts| && k != i ensures Represents(adj', us[k]) {
      OnlyHere(ts, i, k, from);
      SameBelow(adj, from, adj'[from], ts[k]);
    }
    AllButOne(adj', us, j);
  }

  lemma AllButOne(adj: map<Node, seq<Node>>, ts: seq<Rose>, j: nat)
    requires j < |ts| && forall k :: 0 <= k < |ts| && k != j ==> Represents(adj, ts[k])
    ensures AllRepresented(adj, Without(ts, j))
  {
    var rest := Without(ts, j);
    forall k | 0 <= k < |rest| ensures Represents(adj, rest[k]) {
      assert rest[k] == ts[if k < j then k else k + 1];
    }
  }

  /** However nodes and edges are added, if each addition keeps the nodes in trees, then the
      adjacency lists hold just these trees. */
  lemma {:induction false} BuiltIsForest(bs: seq<Build>)
    requires Good(bs)
    ensures IsForest(Built(bs), Trees(bs))
    decreases |bs|
  {
    if bs != [] {
      var init, b := bs[..|bs| - 1], bs[|bs| - 1];
      BuiltIsForest(init);
      match b
      case NewNode(n) => NodeKeepsForest(Built(init), Trees(init), n);
      case NewEdge(from, to) => EdgeKeepsForest(Built(init), Trees(init), from, to);
    }
  }

  /** So each of them can be traversed and generated. */
  lemma {:induction false} ForestTree(adj: map<Node, seq<Node>>, ts: seq<Rose>, i: nat)
    requires IsForest(adj, ts) && i < |ts|
    ensures Represents(adj, ts[i]) && NoDuplicates(Preorder(ts[i]))
  {
    var s := Preorder(ts[i]);
    forall a, b | 0 <= a < b < |s| ensures s[a] != s[b] {
      TimesWithout(ts, i, s[a]);
      assert s == s[..b] + s[b..];
      TimesAppend(s[..b], s[b..], s[a]);
      assert s[a] in s[..b] && s[b] in s[b..];
      InTimes(s[b..], s[b]);
    }
  }
}
