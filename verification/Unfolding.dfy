/** What one search of the split graph unfolds: the tree of all branches from a start
block to the next waits, and the sequence of blocks it puts on the path. */
module Unfolding {
  import opened ThreadGraph

  /** Empty is a search started at a block without successors.  A Fork has an arm for each
      successor that the search entered; an arm it did not enter is None. */
  datatype Tree =
    | Empty
    | Leaf(b: nat)
    | Chain(b: nat, next: Tree)
    | Fork(b: nat, thn: Option<Tree>, els: Option<Tree>)

  /** The tree below `b` when the blocks in `visited` (with `b` among them) are taken. */
  function Body(g: Graph, b: nat, visited: set<nat>): Tree
    requires Closed(g) && b < |g|
    decreases AllBlocks(g) - visited, 1
  {
    var succs := g[b].succs;
    if g[b].hasWait then Leaf(b)
    else if g[b].Branching() then
      var thn, els := Then(g, b, visited), Else(g, b, visited);
      if thn == None && els == None then Leaf(b) else Fork(b, thn, els)
    else if |succs| > 0 && succs[0] !in visited then
      assert succs[0] in AllBlocks(g) - visited;
      Chain(b, Body(g, succs[0], visited + {succs[0]}))
    else Leaf(b)
  }

  function Then(g: Graph, b: nat, visited: set<nat>): Option<Tree>
    requires Closed(g) && b < |g|
    decreases AllBlocks(g) - visited, 1, 0
  {
    var succs := g[b].succs;
    if |succs| > 0 && succs[0] !in visited then Some(Act(g, succs[0], visited)) else None
  }

  function Else(g: Graph, b: nat, visited: set<nat>): Option<Tree>
    requires Closed(g) && b < |g|
    decreases AllBlocks(g) - visited, 1, 0
  {
    var succs := g[b].succs;
    if |succs| > 1 && succs[1] !in visited && succs[1] != succs[0] then Some(Act(g, succs[1], visited)) else None
  }

  /** One activation of the search, started at `s`. */
  function Act(g: Graph, s: nat, visited: set<nat>): Tree
    requires Closed(g) && s < |g| && s !in visited
    decreases AllBlocks(g) - visited, 0
  {
    if g[s].succs == [] then Empty
    else
      assert s in AllBlocks(g) - visited;
      Body(g, s, visited + {s})
  }

  /** The blocks an activation itself records, without those of nested activations. */
  function Spine(t: Tree): seq<nat> {
    match t
    case Empty => []
    case Leaf(b) => [b]
    case Chain(b, next) => [b] + Spine(next)
    case Fork(b, _, _) => [b]
  }

  function ArmPreorder(arm: Option<Tree>): seq<nat> {
    match arm
    case None => []
    case Some(t) => Preorder(t)
  }

  function Preorder(t: Tree): seq<nat> {
    match t
    case Empty => []
    case Leaf(b) => [b]
    case Chain(b, next) => [b] + Preorder(next)
    case Fork(b, thn, els) => [b] + ArmPreorder(thn) + ArmPreorder(els)
  }
}
