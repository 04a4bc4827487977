/** The search is exact: a state's path holds just the blocks that the thread can reach from
the state's start before it passes a wait. */
module Reachability {
  import opened ThreadGraph
  import opened Unfolding
  import opened States

  /** A walk from `a` to `b` with no wait strictly before `b`. */
  ghost predicate Path(g: Graph, p: seq<nat>, a: nat, b: nat) {
    Walk(g, p) && WaitFree(g, p) && p[0] == a && p[|p| - 1] == b
  }

  lemma {:induction false} Step(g: Graph, a: nat, p: seq<nat>, b: nat)
    requires a < |g| && !g[a].hasWait && p != [] && p[0] in g[a].succs && Path(g, p, p[0], b)
    ensures Path(g, [a] + p, a, b)
  {
    var q := [a] + p;
    forall i | 0 <= i < |q| - 1 ensures q[i + 1] in g[q[i]].succs && !g[q[i]].hasWait {
      if i > 0 { assert q[i] == p[i - 1] && q[i + 1] == p[i]; }
    }
  }

  lemma {:induction false} BodySound(g: Graph, b: nat, visited: set<nat>, x: nat) returns (p: seq<nat>)
    requires Closed(g) && b < |g| && x in Preorder(Body(g, b, visited))
    ensures Path(g, p, b, x)
    decreases AllBlocks(g) - visited, 1
  {
    var succs := g[b].succs;
    if x == b {
      p := [b];
    } else if g[b].Branching() {
      if Then(g, b, visited).Some? && x in ArmPreorder(Then(g, b, visited)) {
        p := ActSound(g, succs[0], visited, x);
      } else {
        p := ActSound(g, succs[1], visited, x);
      }
      Step(g, b, p, x);
      p := [b] + p;
    } else {
      assert succs[0] in AllBlocks(g) - visited;
      p := BodySound(g, succs[0], visited + {succs[0]}, x);
      Step(g, b, p, x);
      p := [b] + p;
    }
  }

  lemma {:induction false} ActSound(g: Graph, s: nat, visited: set<nat>, x: nat) returns (p: seq<nat>)
    requires Closed(g) && s < |g| && s !in visited && x in Preorder(Act(g, s, visited))
    ensures Path(g, p, s, x)
    decreases AllBlocks(g) - visited, 0
  {
    assert s in AllBlocks(g) - visited;
    p := BodySound(g, s, visited + {s}, x);
  }

  /** A walk without repetition that avoids what was visited is one branch of the tree. */
  lemma {:induction false} BodyComplete(g: Graph, p: seq<nat>, visited: set<nat>)
    requires Closed(g) && WellBranched(g) && Walk(g, p) && WaitFree(g, p) && NoRepeat(p)
    requires p[0] in visited && (forall i :: 1 <= i < |p| ==> p[i] !in visited)
    requires g[p[|p| - 1]].succs != []
    ensures p[|p| - 1] in Preorder(Body(g, p[0], visited))
    decreases |p|
  {
    if |p| > 1 {
      var b, s, rest := p[0], p[1], p[1..];
      assert rest[0] == s && rest[|rest| - 1] == p[|p| - 1];
      assert g[s].succs != [] by {
        if |p| > 2 { assert p[2] in g[p[1]].succs; }
      }
      assert !g[b].hasWait && s in g[b].succs;
      forall i | 0 <= i < |rest| - 1 ensures rest[i + 1] in g[rest[i]].succs && !g[rest[i]].hasWait {
        assert rest[i] == p[i + 1] && rest[i + 1] == p[i + 2];
      }
      BodyComplete(g, rest, visited + {s});
      assert p[|p| - 1] in Preorder(Act(g, s, visited));
      if g[b].Branching() {
        assert Then(g, b, visited) == Some(Act(g, s, visited)) || Else(g, b, visited) == Some(Act(g, s, visited));
      }
    }
  }

  /** Cutting out the loops of a walk. */
  lemma {:induction false} Shorten(g: Graph, p: seq<nat>, a: nat, b: nat) returns (q: seq<nat>)
    requires Leads(g, p, a, b)
    ensures Leads(g, q, a, b) && NoRepeat(q) && (WaitFree(g, p) ==> WaitFree(g, q))
    decreases |p|
  {
    if NoRepeat(p) {
      q := p;
    } else {
      var i, j :| 0 <= i < j < |p| && p[i] == p[j];
      var cut := p[..i] + p[j..];
      forall k | 0 <= k < |cut| - 1
        ensures cut[k + 1] in g[cut[k]].succs && (WaitFree(g, p) ==> !g[cut[k]].hasWait)
      {
        if k < i { assert cut[k] == p[k] && cut[k + 1] == p[k + 1]; }
        else { assert cut[k] == p[k - i + j] && cut[k + 1] == p[k - i + j + 1]; }
      }
      q := Shorten(g, cut, a, b);
    }
  }

  /** A block with successors is on the path of the state that starts at `s` if and only if
      a walk leads there from `s` with no wait strictly before it. */
  lemma {:induction false} PathIsReachable(g: Graph, s: nat, b: nat)
    requires Closed(g) && WellBranched(g) && s < |g| && b < |g| && g[b].succs != []
    ensures b in Preorder(Explored(g, s)) <==> exists p :: Path(g, p, s, b)
  {
    if b in Preorder(Explored(g, s)) {
      var p := ActSound(g, s, {}, b);
    }
    if exists p :: Path(g, p, s, b) {
      var p :| Path(g, p, s, b);
      var q := Shorten(g, p, s, b);
      if |q| > 1 { assert q[1] in g[q[0]].succs; }
      assert {} + {s} == {s};
      BodyComplete(g, q, {s});
    }
  }

  /** `q` is one branch of `t`, from the root to a leaf. */
  predicate IsBranch(t: Tree, q: seq<nat>) {
    match t
    case Empty => q == []
    case Leaf(b) => q == [b]
    case Chain(b, next) => q != [] && q[0] == b && IsBranch(next, q[1..])
    case Fork(b, thn, els) =>
      q != [] && q[0] == b
      && ((thn.Some? && IsBranch(thn.value, q[1..])) || (els.Some? && IsBranch(els.value, q[1..])))
  }

  lemma {:induction false} BodyBranch(g: Graph, b: nat, visited: set<nat>, q: seq<nat>)
    requires Closed(g) && b < |g| && b in visited && IsBranch(Body(g, b, visited), q)
    ensures q != [] && Path(g, q, b, q[|q| - 1]) && NoRepeat(q)
    ensures forall i :: 1 <= i < |q| ==> q[i] !in visited
    decreases AllBlocks(g) - visited
  {
    var succs := g[b].succs;
    if |q| > 1 {
      var rest := q[1..];
      assert rest[0] == q[1] && !g[b].hasWait;
      var s;
      if !g[b].Branching() {
        s := succs[0];
        assert Body(g, b, visited) == Chain(b, Body(g, s, visited + {s}));
      } else {
        assert Body(g, b, visited) == Fork(b, Then(g, b, visited), Else(g, b, visited));
        s := if Then(g, b, visited).Some? && IsBranch(Then(g, b, visited).value, rest) then succs[0] else succs[1];
        assert IsBranch(Act(g, s, visited), rest);
      }
      assert s in AllBlocks(g) - visited;
      BodyBranch(g, s, visited + {s}, rest);
      Step(g, b, q[1..], q[|q| - 1]);
      assert [b] + q[1..] == q;
      forall i | 1 <= i < |q| ensures q[i] !in visited {
        assert q[i] == q[1..][i - 1];
      }
    }
  }

  /** Along one branch no block repeats, and a branch is a walk on which only the last block
      can be a wait. */
  lemma {:induction false} BranchIsSimpleWalk(g: Graph, s: nat, q: seq<nat>)
    requires Closed(g) && s < |g| && IsBranch(Explored(g, s), q) && q != []
    ensures Path(g, q, s, q[|q| - 1]) && NoRepeat(q)
  {
    assert {} + {s} == {s};
    BodyBranch(g, s, {s}, q);
  }

  /** A walk from `a` to `b` that may pass waits. */
  ghost predicate Leads(g: Graph, p: seq<nat>, a: nat, b: nat) {
    Walk(g, p) && p[0] == a && p[|p| - 1] == b
  }

  lemma {:induction false} Join(g: Graph, p: seq<nat>, q: seq<nat>, a: nat, b: nat, c: nat, d: nat)
    requires Leads(g, p, a, b) && c in g[b].succs && Leads(g, q, c, d)
    ensures Leads(g, p + q, a, d)
  {
    var r := p + q;
    forall i | 0 <= i < |r| - 1 ensures r[i + 1] in g[r[i]].succs {
      if i < |p| - 1 { assert r[i] == p[i] && r[i + 1] == p[i + 1]; }
      else if i >= |p| { assert r[i] == q[i - |p|] && r[i + 1] == q[i - |p| + 1]; }
    }
  }

  /** Every wait that the thread can reach has a state number. */
  lemma {:induction false} ReachedWaitIsNumbered(g: Graph, entry: nat, order: seq<nat>, k: nat, p: seq<nat>, w: nat)
    requires Closed(g) && WellBranched(g) && entry < |g| && k <= |order|
    requires Explores(g, entry, order, |order| + 1)
    requires Leads(g, p, StartOf(g, entry, order, k), w) && g[w].hasWait && g[w].succs != []
    ensures w in order
    decreases |p|
  {
    var s := StartOf(g, entry, order, k);
    var last := |p| - 1;
    if WaitFree(g, p) {
      assert Path(g, p, s, w);
      PathIsReachable(g, s, w);
      assert WaitsNumbered(g, Explored(g, s), order);
    } else {
      var i :| 0 <= i < last && g[p[i]].hasWait;
      var q, rest := p[..i + 1], p[i + 1..];
      assert q[|q| - 1] == p[i] && rest[0] == p[i + 1];
      assert Leads(g, q, s, p[i]);
      assert p[i + 1] in g[p[i]].succs;
      ReachedWaitIsNumbered(g, entry, order, k, q, p[i]);
      var j :| 0 <= j < |order| && order[j] == p[i];
      assert StartOf(g, entry, order, j + 1) == p[i + 1];
      forall m | 0 <= m < |rest| - 1 ensures rest[m + 1] in g[rest[m]].succs {
        assert rest[m] == p[i + 1 + m] && rest[m + 1] == p[i + 2 + m];
      }
      ReachedWaitIsNumbered(g, entry, order, j + 1, rest, w);
    }
  }

  lemma {:induction false} NumberedWaitIsReached(g: Graph, entry: nat, order: seq<nat>, i: nat) returns (p: seq<nat>)
    requires Closed(g) && entry < |g| && i < |order| && Explores(g, entry, order, |order| + 1)
    ensures Leads(g, p, entry, order[i])
    decreases i
  {
    assert MetBefore(g, entry, order, |order| + 1, i);
    var k :| 0 <= k <= i && order[i] in Preorder(Explored(g, StartOf(g, entry, order, k)));
    p := ActSound(g, StartOf(g, entry, order, k), {}, order[i]);
    if k > 0 {
      var q := NumberedWaitIsReached(g, entry, order, k - 1);
      var w := order[k - 1];
      Join(g, q, p, entry, w, Resume(g, w), order[i]);
      p := q + p;
    }
  }

  /** The states are just those the thread needs: a wait has a state number if and only if
      the thread can reach it. */
  lemma {:induction false} NumberedIffReachable(g: Graph, entry: nat, order: seq<nat>, w: nat)
    requires Closed(g) && WellBranched(g) && entry < |g| && Explores(g, entry, order, |order| + 1)
    requires w < |g| && g[w].hasWait && g[w].succs != []
    ensures w in order <==> exists p :: Leads(g, p, entry, w)
  {
    if w in order {
      var i :| 0 <= i < |order| && order[i] == w;
      var p := NumberedWaitIsReached(g, entry, order, i);
    }
    if exists p :: Leads(g, p, entry, w) {
      var p :| Leads(g, p, entry, w);
      ReachedWaitIsNumbered(g, entry, order, 0, p, w);
    }
  }
}
