/** The control-flow graph of a thread, before and after it is split at waits.

A Clang CFG block is a value here: its elements, the kind of its terminator and its
successors (`None` is the null successor Clang leaves for an edge it pruned).  Statements
and conditions are opaque; the condition of a block is named by the block itself.

A split block is named by its position in the graph.  That position stands for the
pointer of the original: two blocks can share an `id`, never a position. */
module ThreadGraph {

  datatype Option<+T> = None | Some(value: T)

  datatype Elem = Stmt(id: nat) | Wait(arg: Option<int>)

  /** LoopTerm is while, for or do.  OtherTerm is break, continue, goto, switch, && or ||. */
  datatype Term = NoTerm | IfTerm | LoopTerm | TernaryTerm | OtherTerm

  datatype CfgBlock = CfgBlock(elems: seq<Elem>, term: Term, succs: seq<Option<nat>>)
  {
    /** The last successor Clang lists, `*succ_rbegin()`. */
    function LastSucc(): Option<nat> {
      if succs == [] then None else succs[|succs| - 1]
    }
  }

  type Cfg = seq<CfgBlock>

  /** `origin` is the block that `cfg` names: the original reads it through a pointer. */
  datatype Block = Block(id: nat, cfg: nat, origin: CfgBlock, elems: seq<Elem>, hasWait: bool,
                         isConditional: bool, isLoopWithTwoSucc: bool,
                         succs: seq<nat>)
  {
    /** The blocks from which the search recurses, one call for each successor. */
    predicate Branching() {
      isLoopWithTwoSucc || (isConditional && origin.term != TernaryTerm)
    }
  }

  type Graph = seq<Block>

  predicate Closed(g: Graph) {
    forall b, i :: 0 <= b < |g| && 0 <= i < |g[b].succs| ==> g[b].succs[i] < |g|
  }

  function Below(n: nat): (s: set<nat>)
    ensures forall b: nat :: b in s <==> b < n
  {
    if n == 0 then {} else Below(n - 1) + {n - 1}
  }

  function AllBlocks(g: Graph): set<nat> {
    Below(|g|)
  }

  /** Every block the search does not recurse from has at most one successor. */
  predicate WellBranched(g: Graph) {
    forall b :: 0 <= b < |g| ==>
      && (g[b].hasWait ==> |g[b].succs| <= 1)
      && |g[b].succs| <= 2
      && (|g[b].succs| == 2 ==> g[b].Branching())
  }

  /** Where the thread goes on after wait `w`: its successor.  A wait without one is
      queued itself, because the search variable still holds the wait. */
  function Resume(g: Graph, w: nat): nat
    requires w < |g|
  {
    if g[w].succs == [] then w else g[w].succs[0]
  }

  /** A walk of the graph: each block is followed by one of its successors. */
  predicate Walk(g: Graph, p: seq<nat>) {
    && p != []
    && (forall i :: 0 <= i < |p| ==> p[i] < |g|)
    && (forall i :: 0 <= i < |p| - 1 ==> p[i + 1] in g[p[i]].succs)
  }

  /** No wait strictly before the last block. */
  predicate WaitFree(g: Graph, p: seq<nat>)
    requires Walk(g, p)
  {
    forall i :: 0 <= i < |p| - 1 ==> !g[p[i]].hasWait
  }

  predicate NoRepeat(p: seq<nat>) {
    forall i, j :: 0 <= i < j < |p| ==> p[i] != p[j]
  }

  /** Every cycle passes a wait. */
  ghost predicate CyclesWait(g: Graph) {
    forall p: seq<nat> :: Walk(g, p) && |p| >= 2 && p[0] == p[|p| - 1] ==> !WaitFree(g, p)
  }
}
