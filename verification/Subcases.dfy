/** The subcases of a test case and the loop that runs the test again until every one of
them was entered. */
module Subcases {
  import opened Sequences

  datatype Signature = Signature(name: string, file: string, line: int)

  /** A subcase and the subcases that its body comes to, in order. */
  datatype Subcase = Subcase(sig: Signature, body: seq<Subcase>)

  type Stack = seq<Signature>

  /** No two subcases of one body have the same signature. */
  predicate Distinct(body: seq<Subcase>) {
    && (forall i, j :: 0 <= i < j < |body| ==> body[i].sig != body[j].sig)
    && (forall i :: 0 <= i < |body| ==> Distinct(body[i].body))
  }

  /** The chains of subcases from a body down to a leaf, in depth-first order. */
  function Leaves(body: seq<Subcase>): seq<Stack>
    decreases body, 2
  {
    LeavesTo(body, |body|)
  }

  /** Those that lead through the first `j` subcases. */
  function LeavesTo(body: seq<Subcase>, j: nat): seq<Stack>
    requires j <= |body|
    decreases body, 1, j
  {
    if j == 0 then [] else LeavesTo(body, j - 1) + Under(body[j - 1].sig, Tails(body[j - 1]))
  }

  function Tails(s: Subcase): (r: seq<Stack>)
    ensures s.body == [] ==> r == [[]]
    ensures s.body != [] ==> r == Leaves(s.body)
    decreases s, 0
  {
    if s.body == [] then [[]] else Leaves(s.body)
  }

  function Under(sig: Signature, tails: seq<Stack>): (r: seq<Stack>)
    ensures |r| == |tails|
    ensures forall i :: 0 <= i < |r| ==> r[i] == [sig] + tails[i]
  {
    seq<Stack>(|tails|, i requires 0 <= i < |tails| => [sig] + tails[i])
  }

  /** The leaves from index `lo` on with prefix `pre` are those of one body. */
  ghost predicate Block(all: seq<Stack>, lo: nat, pre: Stack, tails: seq<Stack>) {
    && lo + |tails| <= |all|
    && (forall i :: 0 <= i < |all| ==> (pre <= all[i] <==> lo <= i < lo + |tails|))
    && (forall i :: 0 <= i < |tails| ==> all[lo + i] == pre + tails[i])
  }

  function Before(body: seq<Subcase>, j: nat): nat
    requires j <= |body|
  {
    |LeavesTo(body, j)|
  }

  lemma {:induction false} SomeLeaf(body: seq<Subcase>)
    requires body != []
    ensures Leaves(body) != []
    decreases body
  {
    var last := body[|body| - 1];
    if last.body != [] { SomeLeaf(last.body); }
  }

  lemma BeforeEnds(body: seq<Subcase>)
    ensures Before(body, 0) == 0 && Before(body, |body|) == |Leaves(body)|
  {
  }

  lemma {:induction false} BeforeNext(body: seq<Subcase>, j: nat)
    requires j < |body|
    ensures Before(body, j + 1) == Before(body, j) + |Tails(body[j])| && |Tails(body[j])| > 0
  {
    if body[j].body != [] { SomeLeaf(body[j].body); }
  }

  lemma {:induction false} BeforeMonotone(body: seq<Subcase>, j: nat, m: nat)
    requires j <= m <= |body|
    ensures Before(body, j) <= Before(body, m)
    decreases m
  {
    if j < m { BeforeMonotone(body, j, m - 1); }
  }

  /** The leaves below child `j`. */
  lemma {:induction false} LeafAt(body: seq<Subcase>, j: nat, i: nat)
    requires j < |body| && i < |Tails(body[j])|
    ensures Before(body, j) + i < |Leaves(body)|
    ensures Leaves(body)[Before(body, j) + i] == [body[j].sig] + Tails(body[j])[i]
  {
    LeafIn(body, j, i, |body|);
  }

  lemma {:induction false} LeafIn(body: seq<Subcase>, j: nat, i: nat, m: nat)
    requires j < m <= |body| && i < |Tails(body[j])|
    ensures Before(body, j) + i < |LeavesTo(body, m)|
    ensures LeavesTo(body, m)[Before(body, j) + i] == [body[j].sig] + Tails(body[j])[i]
    decreases m
  {
    if j < m - 1 { LeafIn(body, j, i, m - 1); }
  }

  lemma {:induction false} LeafOf(body: seq<Subcase>, n: nat, m: nat) returns (j: nat, i: nat)
    requires m <= |body| && n < |LeavesTo(body, m)|
    ensures j < m && i < |Tails(body[j])| && n == Before(body, j) + i
    decreases m
  {
    if n < Before(body, m - 1) {
      j, i := LeafOf(body, n, m - 1);
    } else {
      j, i := m - 1, n - Before(body, m - 1);
    }
  }

  /** The leaves below child `j` are a block again. */
  lemma {:induction false} ChildBlock(all: seq<Stack>, lo: nat, pre: Stack, body: seq<Subcase>, j: nat)
    requires Block(all, lo, pre, Leaves(body)) && Distinct(body) && j < |body|
    ensures Block(all, lo + Before(body, j), pre + [body[j].sig], Tails(body[j]))
  {
    hide *;
    ChildLeaves(all, lo, pre, body, j);
    forall i | 0 <= i < |all| && pre + [body[j].sig] <= all[i]
      ensures lo + Before(body, j) <= i < lo + Before(body, j) + |Tails(body[j])|
    {
      ChildOf(all, lo, pre, body, j, i);
    }
    IsBlock(all, lo + Before(body, j), pre + [body[j].sig], Tails(body[j]));
  }

  lemma IsBlock(all: seq<Stack>, lo: nat, pre: Stack, tails: seq<Stack>)
    requires lo + |tails| <= |all|
    requires forall i :: 0 <= i < |all| && pre <= all[i] ==> lo <= i < lo + |tails|
    requires forall i :: 0 <= i < |tails| ==> all[lo + i] == pre + tails[i]
    ensures Block(all, lo, pre, tails)
  {
    forall i | lo <= i < lo + |tails| ensures pre <= all[i] {
      assert all[lo + (i - lo)] == pre + tails[i - lo];
    }
  }

  lemma {:induction false} ChildLeaves(all: seq<Stack>, lo: nat, pre: Stack, body: seq<Subcase>, j: nat)
    requires Block(all, lo, pre, Leaves(body)) && j < |body|
    ensures lo + Before(body, j) + |Tails(body[j])| <= |all|
    ensures forall i :: 0 <= i < |Tails(body[j])| ==>
              all[lo + Before(body, j) + i] == pre + [body[j].sig] + Tails(body[j])[i]
  {
    BeforeNext(body, j);
    ChildLeaf(all, lo, pre, body, j, |Tails(body[j])| - 1);
    hide Leaves, LeavesTo, Before, Block;
    forall i | 0 <= i < |Tails(body[j])|
      ensures all[lo + Before(body, j) + i] == pre + [body[j].sig] + Tails(body[j])[i]
    {
      ChildLeaf(all, lo, pre, body, j, i);
    }
  }

  lemma {:induction false} ChildLeaf(all: seq<Stack>, lo: nat, pre: Stack, body: seq<Subcase>, j: nat, i: nat)
    requires Block(all, lo, pre, Leaves(body)) && j < |body| && i < |Tails(body[j])|
    ensures lo + Before(body, j) + i < |all|
    ensures all[lo + Before(body, j) + i] == pre + [body[j].sig] + Tails(body[j])[i]
  {
    LeafAt(body, j, i);
    hide Leaves, LeavesTo, Tails, Before;
    var k := Before(body, j) + i;
    assert all[lo + k] == pre + Leaves(body)[k];
    assert pre + ([body[j].sig] + Tails(body[j])[i]) == pre + [body[j].sig] + Tails(body[j])[i];
  }

  lemma {:induction false} ChildOf(all: seq<Stack>, lo: nat, pre: Stack, body: seq<Subcase>, j: nat, i: nat)
    requires Block(all, lo, pre, Leaves(body)) && Distinct(body) && j < |body|
    requires i < |all| && pre + [body[j].sig] <= all[i]
    ensures lo + Before(body, j) <= i < lo + Before(body, j) + |Tails(body[j])|
  {
    var pre' := pre + [body[j].sig];
    assert pre <= pre' <= all[i];
    assert lo <= i < lo + |Leaves(body)| && all[lo + (i - lo)] == pre + Leaves(body)[i - lo];
    hide Block, LeavesTo, Tails, Before;
    var j', k := LeafOf(body, i - lo, |body|);
    LeafAt(body, j', k);
    assert body[j'].sig == all[i][|pre|] == pre'[|pre|] == body[j].sig;
    assert j' == j;
  }

  lemma {:induction false} NextChild(all: seq<Stack>, lo: nat, pre: Stack, body: seq<Subcase>, j: nat)
    requires Block(all, lo, pre, Leaves(body)) && Distinct(body) && j < |body|
    ensures Block(all, lo + Before(body, j), pre + [body[j].sig], Tails(body[j])) && Distinct(body[j].body)
    ensures Tails(body[j]) != [] && Before(body, j + 1) == Before(body, j) + |Tails(body[j])| <= |Leaves(body)|
  {
    ChildBlock(all, lo, pre, body, j);
    BeforeNext(body, j);
    BeforeMonotone(body, j + 1, |body|);
  }

  /** No leaf from index `n` on is below `q`. */
  ghost predicate NoneFrom(all: seq<Stack>, n: nat, q: Stack) {
    forall i :: n <= i < |all| ==> !(q <= all[i])
  }

  /** Stack `q` is passed when the first `n` leaves were entered: there are leaves below it,
      and none of them is still to come. */
  ghost predicate PassedAfter(all: seq<Stack>, n: nat, q: Stack) {
    q != [] && NoneFrom(all, n, q) && exists i :: 0 <= i < n && i < |all| && q <= all[i]
  }

  /** Entering leaf `n` passes stack `q`, which is longer than `k`. */
  ghost predicate PassedBy(all: seq<Stack>, n: nat, k: nat, q: Stack) {
    n < |all| && |q| > k && q <= all[n] && NoneFrom(all, n + 1, q)
  }

  ghost predicate PassedAre(all: seq<Stack>, n: nat, passed: set<Stack>) {
    forall q :: q in passed <==> PassedAfter(all, n, q)
  }

  lemma PassedNext(all: seq<Stack>, n: nat)
    requires n < |all|
    ensures all[n][..0] == [] && all[n][0..] == all[n]
    ensures forall q :: PassedAfter(all, n + 1, q) <==> PassedAfter(all, n, q) || PassedBy(all, n, 0, q)
  {
    forall q ensures PassedAfter(all, n + 1, q) <==> PassedAfter(all, n, q) || PassedBy(all, n, 0, q) {
    }
  }

  /** The stacks that are entered on the way from `pre` to `pre + path`. */
  function Chain(pre: Stack, path: Stack): seq<Stack>
    decreases |path|
  {
    if path == [] then [] else [pre + [path[0]]] + Chain(pre + [path[0]], path[1..])
  }

  /** The stacks grow by one subcase each. */
  lemma {:induction false} ChainAt(pre: Stack, path: Stack, d: nat)
    requires d < |path|
    ensures |Chain(pre, path)| == |path| && Chain(pre, path)[d] == pre + path[..d + 1]
    decreases |path|
  {
    if |path| > 1 {
      ChainAt(pre + [path[0]], path[1..], if d == 0 then 0 else d - 1);
    }
    if d > 0 {
      assert (pre + [path[0]]) + path[1..][..d] == pre + path[..d + 1];
    }
  }

  lemma {:induction false} ChainIs(path: Stack)
    ensures |Chain([], path)| == |path| && forall d :: 0 <= d < |path| ==> Chain([], path)[d] == path[..d + 1]
  {
    forall d: nat | d < |path| ensures |Chain([], path)| == |path| && Chain([], path)[d] == path[..d + 1] {
      ChainAt([], path, d);
      assert [] + path[..d + 1] == path[..d + 1];
    }
    if path != [] { ChainAt([], path, 0); }
  }

  /** Entering leaf `n`, from a stack of length `k` on, is all that was reported since `old`
      and all that was passed since `passed0`. */
  ghost predicate Advanced(all: seq<Stack>, n: nat, k: nat, entered0: seq<Stack>, entered1: seq<Stack>,
                           passed0: set<Stack>, passed1: set<Stack>)
  {
    && n < |all| && k <= |all[n]|
    && entered1 == entered0 + Chain(all[n][..k], all[n][k..])
    && forall q :: q in passed1 <==> q in passed0 || PassedBy(all, n, k, q)
  }

  lemma AtLeaf(all: seq<Stack>, lo: nat, pre: Stack, entered: seq<Stack>, passed: set<Stack>)
    requires Block(all, lo, pre, [[]])
    ensures all[lo] == pre && Advanced(all, lo, |pre|, entered, entered, passed, passed)
  {
    var tails: seq<Stack> := [[]];
    assert all[lo + 0] == pre + tails[0];
  }

  /** The last steps to a leaf come with the one before them. */
  lemma ChainNext(leaf: Stack, k: nat)
    requires k < |leaf|
    ensures Chain(leaf[..k], leaf[k..]) == [leaf[..k + 1]] + Chain(leaf[..k + 1], leaf[k + 1..])
  {
    assert leaf[..k] + [leaf[k..][0]] == leaf[..k + 1] && leaf[k..][1..] == leaf[k + 1..];
  }

  lemma {:induction false} OneMore(all: seq<Stack>, n: nat, k: nat, entered0: seq<Stack>, entered1: seq<Stack>,
                                   passed0: set<Stack>, passed1: set<Stack>)
    requires n < |all| && k < |all[n]|
    requires Advanced(all, n, k + 1, entered0 + [all[n][..k + 1]], entered1, passed0, passed1)
    ensures var q := all[n][..k + 1];
            Advanced(all, n, k, entered0, entered1, passed0, if NoneFrom(all, n + 1, q) then passed1 + {q} else passed1)
  {
    hide Chain, NoneFrom;
    var leaf := all[n];
    ChainNext(leaf, k);
    Regroup(entered0, [leaf[..k + 1]], Chain(leaf[..k + 1], leaf[k + 1..]));
    forall q | PassedBy(all, n, k, q) ensures q == leaf[..|q|] {
    }
  }

  lemma InBlock(all: seq<Stack>, lo: nat, pre: Stack, tails: seq<Stack>, n: nat)
    requires Block(all, lo, pre, tails) && lo <= n < lo + |tails|
    ensures |pre| <= |all[n]| && all[n][..|pre|] == pre
    ensures NoneFrom(all, n + 1, pre) <==> n + 1 == lo + |tails|
  {
    assert pre <= all[n];
    if n + 1 < lo + |tails| { assert pre <= all[n + 1]; }
  }

  /** The fields of `ContextState` that subcases use. */
  datatype State = State(stack: Stack, passed: set<Stack>, maxLevel: nat, reenter: bool, entered: seq<Stack>)
  {
    /** A level at which a subcase was entered in this run is not entered again. */
    predicate Skipping() {
      |stack| < maxLevel
    }

    predicate Enters(sig: Signature) {
      !Skipping() && stack + [sig] !in passed
    }

    function Entering(sig: Signature): State {
      if Skipping() then this.(reenter := true)
      else if stack + [sig] in passed then this
      else State(stack + [sig], passed, |stack| + 1, reenter, entered + [stack + [sig]])
    }

    function Leaving(): State
      requires stack != []
    {
      State(stack[..|stack| - 1], if reenter then passed else passed + {stack}, maxLevel, reenter, entered)
    }

    /** This run is on its way to leaf `n`, which is not before leaf `lo`; or it was there. */
    ghost predicate Ready(all: seq<Stack>, lo: nat, n: nat) {
      Skipping() || (maxLevel == |stack| && !reenter && PassedAre(all, n, passed) && lo <= n)
    }
  }

  /** What running a subcase or part of a body does whose leaves end before `hi`.  If a
      subcase of this level was entered before, nothing is entered and the test has to be run
      again; if all leaves were entered in earlier runs, nothing happens. */
  ghost predicate Ran(all: seq<Stack>, n: nat, hi: nat, some: bool, a: State, b: State) {
    if a.Skipping() then b == a.(reenter := a.reenter || some)
    else if hi <= n then b == a
    else
      && Advanced(all, n, |a.stack|, a.entered, b.entered, a.passed, b.passed)
      && b.stack == a.stack && |b.stack| < b.maxLevel && b.reenter == (n + 1 < hi)
  }

  lemma RanStart(all: seq<Stack>, lo: nat, n: nat, a: State)
    requires a.Ready(all, lo, n)
    ensures Ran(all, n, lo, false, a, a)
  {
  }

  lemma RanReady(all: seq<Stack>, lo: nat, n: nat, hi: nat, some: bool, a: State, b: State)
    requires a.Ready(all, lo, n) && Ran(all, n, hi, some, a, b)
    ensures b.Ready(all, hi, n) && b.stack == a.stack
  {
  }

  lemma RanOn(all: seq<Stack>, n: nat, mid: nat, hi: nat, some: bool, a: State, b: State, c: State)
    requires Ran(all, n, mid, some, a, b) && Ran(all, n, hi, true, b, c) && mid < hi
    ensures Ran(all, n, hi, true, a, c)
  {
    hide Advanced;
  }

  /** A subcase that is not entered: one of its level was, or it was passed. */
  lemma RanNothing(all: seq<Stack>, lo: nat, n: nat, sig: Signature, tails: seq<Stack>, a: State)
    requires Block(all, lo, a.stack + [sig], tails) && tails != [] && a.Ready(all, lo, n) && !a.Enters(sig)
    ensures Ran(all, n, lo + |tails|, true, a, a.Entering(sig))
  {
    PassedIffBefore(all, lo, a.stack + [sig], tails, n);
    hide Block, PassedAfter, Advanced;
  }

  /** A subcase that is entered leads to leaf `n`. */
  lemma EnteredReady(all: seq<Stack>, lo: nat, n: nat, sig: Signature, tails: seq<Stack>, a: State)
    requires Block(all, lo, a.stack + [sig], tails) && tails != [] && a.Ready(all, lo, n) && a.Enters(sig)
    ensures a.Entering(sig).Ready(all, lo, n) && lo <= n < lo + |tails|
  {
    PassedIffBefore(all, lo, a.stack + [sig], tails, n);
    hide Block, PassedAfter;
  }

  lemma {:induction false} EnteredRan(all: seq<Stack>, lo: nat, n: nat, s: Subcase, a: State, c: State)
    requires Block(all, lo, a.stack + [s.sig], Tails(s)) && Tails(s) != [] && a.Ready(all, lo, n) && a.Enters(s.sig)
    requires Ran(all, n, lo + |Leaves(s.body)|, s.body != [], a.Entering(s.sig), c)
    ensures c.stack != [] && Ran(all, n, lo + |Tails(s)|, true, a, c.Leaving())
  {
    var pre := a.stack + [s.sig];
    EnteredReady(all, lo, n, s.sig, Tails(s), a);
    InBlock(all, lo, pre, Tails(s), n);
    if s.body == [] {
      AtLeaf(all, lo, pre, c.entered, c.passed);
      assert Leaves(s.body) == [];
    }
    assert c.stack == pre && pre[..|pre| - 1] == a.stack;
    hide Block, NoneFrom, Tails, Leaves, LeavesTo, PassedAre, Advanced;
    OneMore(all, n, |a.stack|, a.entered, c.entered, a.passed, c.passed);
  }

  class ContextState {
    var subcasesStack: Stack
    var subcasesPassed: set<Stack>
    var subcasesCurrentMaxLevel: nat
    var shouldReenter: bool
    var entered: seq<Stack>   // what the reporters were told in the current run

    ghost function Now(): State
      reads this
    {
      State(subcasesStack, subcasesPassed, subcasesCurrentMaxLevel, shouldReenter, entered)
    }

    constructor ()
      ensures Now() == State([], {}, 0, false, [])
    {
      subcasesStack, subcasesPassed, subcasesCurrentMaxLevel, shouldReenter, entered := [], {}, 0, false, [];
    }

    method Enter(sig: Signature) returns (ok: bool)
      modifies this
      ensures ok == old(Now()).Enters(sig) && Now() == old(Now()).Entering(sig)
    {
      ok := false;
      if |subcasesStack| < subcasesCurrentMaxLevel {
        shouldReenter := true;
        return;
      }
      subcasesStack := subcasesStack + [sig];
      if subcasesStack in subcasesPassed {
        subcasesStack := subcasesStack[..|subcasesStack| - 1];
        return;
      }
      subcasesCurrentMaxLevel := |subcasesStack|;
      ok := true;
      entered := entered + [subcasesStack];
    }

    method Leave(ok: bool)
      requires ok ==> subcasesStack != []
      modifies this
      ensures Now() == if ok then old(Now()).Leaving() else old(Now())
    {
      if ok {
        if !shouldReenter {
          subcasesPassed := subcasesPassed + {subcasesStack};
        }
        subcasesStack := subcasesStack[..|subcasesStack| - 1];
      }
    }

    /** One subcase, whose leaves are the block at `lo`. */
    method RunSubcase(s: Subcase, ghost all: seq<Stack>, ghost lo: nat, ghost n: nat)
      requires Distinct(s.body) && Block(all, lo, subcasesStack + [s.sig], Tails(s)) && Tails(s) != []
      requires Now().Ready(all, lo, n)
      modifies this
      ensures Ran(all, n, lo + |Tails(s)|, true, old(Now()), Now())
      decreases s, 0
    {
      ghost var a := Now();
      assert s.body != [] ==> Tails(s) == Leaves(s.body);
      hide Leaves, LeavesTo, Block, Distinct, Tails, Ran, State.Ready, State.Entering, State.Leaving, State.Enters;
      var ok := Enter(s.sig);
      if ok {
        EnteredReady(all, lo, n, s.sig, Tails(s), a);
        StackEntered(a, s.sig);
        RunBody(s.body, all, lo, n);
        EnteredRan(all, lo, n, s, a, Now());
      } else {
        RanNothing(all, lo, n, s.sig, Tails(s), a);
      }
      Leave(ok);
    }

    method RunBody(body: seq<Subcase>, ghost all: seq<Stack>, ghost lo: nat, ghost n: nat)
      requires body != [] ==> Distinct(body) && Block(all, lo, subcasesStack, Leaves(body))
      requires Now().Ready(all, lo, n)
      modifies this
      ensures Ran(all, n, lo + |Leaves(body)|, body != [], old(Now()), Now())
      decreases body, 1
    {
      hide Leaves, LeavesTo, Tails, Block, Distinct, Before, Ran, State.Ready;
      BeforeEnds(body);
      ghost var a := Now();
      RanStart(all, lo, n, a);
      var j := 0;
      while j < |body|
        invariant j <= |body| && Ran(all, n, lo + Before(body, j), j > 0, a, Now())
      {
        ghost var b := Now();
        RanReady(all, lo, n, lo + Before(body, j), j > 0, a, b);
        NextChild(all, lo, subcasesStack, body, j);
        RunSubcase(body[j], all, lo + Before(body, j), n);
        RanOn(all, n, lo + Before(body, j), lo + Before(body, j + 1), j > 0, a, b, Now());
        j := j + 1;
      }
    }

    /** Runs a test case until no subcase is left.  Run `i` enters the chain down to the i-th
        leaf and nothing else, so every leaf is entered once, in depth-first order. */
    method RunTest(body: seq<Subcase>) returns (runs: seq<seq<Stack>>)
      requires Distinct(body)
      modifies this
      ensures body == [] ==> runs == [[]]
      ensures body != [] ==> |runs| == |Leaves(body)|
      ensures body != [] ==> forall i :: 0 <= i < |runs| ==> runs[i] == Chain([], Leaves(body)[i])
      ensures body != [] ==> forall i :: 0 <= i < |runs| ==>
        GrowsTo(runs[i], Leaves(body)[i])
    {
      assert body == [] ==> Leaves(body) == [];
      hide Leaves, LeavesTo, Block, Chain, PassedAre, Ran, Runs, RunOf, GrowsTo;
      RunsPositive(Leaves(body));
      subcasesPassed := {};
      runs := [];
      ghost var all := Leaves(body);
      WholeBlock(all);
      NonePassed(all);
      if body != [] { SomeLeaf(body); }
      var runTest := true;
      while runTest
        invariant if runTest then |runs| < Runs(all) else |runs| == Runs(all)
        invariant forall i :: 0 <= i < |runs| ==> runs[i] == RunOf(all, i)
        invariant PassedAre(all, |runs|, subcasesPassed)
        decreases Runs(all) - |runs|, runTest
      {
        shouldReenter := false;
        subcasesCurrentMaxLevel := 0;
        subcasesStack := [];
        entered := [];
        ghost var a := Now();
        RunBody(body, all, 0, |runs|);
        RunDone(all, |runs|, a, Now(), body != []);
        runs := runs + [entered];
        if !shouldReenter {
          runTest := false;
        }
      }
      AllRuns(all, runs);
    }
  }

  /** How often a test is run, and what run `i` enters. */
  function Runs(all: seq<Stack>): nat {
    if all == [] then 1 else |all|
  }

  function RunOf(all: seq<Stack>, i: nat): seq<Stack> {
    if i < |all| then Chain([], all[i]) else []
  }

  /** The stacks entered on the way to a leaf: each has one subcase more than the one before. */
  predicate GrowsTo(run: seq<Stack>, leaf: Stack) {
    |run| == |leaf| && forall d :: 0 <= d < |run| ==> run[d] == leaf[..d + 1]
  }

  lemma {:induction false} AllRuns(all: seq<Stack>, runs: seq<seq<Stack>>)
    requires |runs| == Runs(all) && forall i :: 0 <= i < |runs| ==> runs[i] == RunOf(all, i)
    ensures all == [] ==> runs == [[]]
    ensures all != [] ==> |runs| == |all| && forall i :: 0 <= i < |runs| ==> runs[i] == Chain([], all[i]) && GrowsTo(runs[i], all[i])
  {
    hide Chain;
    forall i | 0 <= i < |runs| && all != [] ensures runs[i] == Chain([], all[i]) && GrowsTo(runs[i], all[i]) {
      ChainIs(all[i]);
    }
  }

  lemma RunsPositive(all: seq<Stack>)
    ensures Runs(all) >= 1
  {
  }

  lemma RunDone(all: seq<Stack>, n: nat, a: State, b: State, some: bool)
    requires a.stack == [] && a.maxLevel == 0 && a.entered == [] && !a.reenter && PassedAre(all, n, a.passed)
    requires n < Runs(all) && Ran(all, n, |all|, some, a, b)
    ensures b.entered == RunOf(all, n) && PassedAre(all, n + 1, b.passed) && b.reenter == (n + 1 < Runs(all))
  {
    if n < |all| { PassedNext(all, n); }
    hide Chain, PassedBy, NoneFrom;
  }

  lemma NonePassed(all: seq<Stack>)
    ensures PassedAre(all, 0, {})
  {
  }

  lemma StackEntered(a: State, sig: Signature)
    requires a.Enters(sig)
    ensures a.Entering(sig).stack == a.stack + [sig]
  {
  }

  lemma WholeBlock(all: seq<Stack>)
    ensures Block(all, 0, [], all)
  {
  }

  /** A subcase was passed if and only if all its leaves come before leaf `n`. */
  lemma PassedIffBefore(all: seq<Stack>, lo: nat, pre: Stack, tails: seq<Stack>, n: nat)
    requires Block(all, lo, pre, tails) && tails != [] && pre != []
    ensures PassedAfter(all, n, pre) <==> lo + |tails| <= n
  {
    var last := lo + |tails| - 1;
    assert pre <= all[lo] && pre <= all[last];
  }

  /** `q` leads from the body down to one of its subcases. */
  predicate IsPath(body: seq<Subcase>, q: Stack)
    decreases |q|
  {
    q != [] && exists j :: 0 <= j < |body| && body[j].sig == q[0] && (|q| == 1 || IsPath(body[j].body, q[1..]))
  }

  /** Every subcase is on the chain to some leaf, and a chain has nothing but subcases. */
  lemma {:induction false} PathsAreInChains(body: seq<Subcase>, q: Stack)
    requires q != []
    ensures IsPath(body, q) <==> exists i :: 0 <= i < |Leaves(body)| && q <= Leaves(body)[i]
    decreases |q|, 0
  {
    hide LeavesTo, Tails;
    if IsPath(body, q) {
      var j :| 0 <= j < |body| && body[j].sig == q[0] && (|q| == 1 || IsPath(body[j].body, q[1..]));
      var i := PathInTails(body[j], q[1..]);
      LeafAt(body, j, i);
      assert q == [q[0]] + q[1..];
      assert q <= Leaves(body)[Before(body, j) + i];
    }
    if i :| 0 <= i < |Leaves(body)| && q <= Leaves(body)[i] {
      var j, k := LeafOf(body, i, |body|);
      LeafAt(body, j, k);
      var tail := Tails(body[j])[k];
      assert q[1..] <= ([body[j].sig] + tail)[1..] == tail;
      if |q| > 1 {
        assert tail != [];
        TailIsPath(body[j], q[1..], k);
      }
    }
  }

  lemma {:induction false} PathInTails(s: Subcase, q: Stack) returns (i: nat)
    requires q == [] || IsPath(s.body, q)
    ensures i < |Tails(s)| && q <= Tails(s)[i]
    decreases |q|, 1
  {
    i := 0;
    if q != [] {
      PathsAreInChains(s.body, q);
      i :| 0 <= i < |Leaves(s.body)| && q <= Leaves(s.body)[i];
    } else if s.body != [] {
      SomeLeaf(s.body);
    }
  }

  lemma {:induction false} TailIsPath(s: Subcase, q: Stack, k: nat)
    requires q != [] && s.body != [] && k < |Tails(s)| && q <= Tails(s)[k]
    ensures IsPath(s.body, q)
    decreases |q|, 1
  {
    assert q <= Leaves(s.body)[k];
    PathsAreInChains(s.body, q);
  }

  /** No chain is the beginning of another: each leaf is entered in one run. */
  lemma {:induction false} LeavesDiffer(body: seq<Subcase>, a: nat, b: nat)
    requires Distinct(body) && a < |Leaves(body)| && b < |Leaves(body)| && a != b
    ensures !(Leaves(body)[a] <= Leaves(body)[b])
    decreases body
  {
    var j, k := LeafOf(body, a, |body|);
    var j', k' := LeafOf(body, b, |body|);
    LeafAt(body, j, k);
    LeafAt(body, j', k');
    var x, y := Tails(body[j])[k], Tails(body[j'])[k'];
    if Leaves(body)[a] <= Leaves(body)[b] {
      FirstSame(body[j].sig, x, body[j'].sig, y);
      SameChild(body, j, j');
      hide Leaves, LeavesTo, Distinct, Before;
      assert body[j].body != [];
      LeavesDiffer(body[j].body, k, k');
    }
  }

  lemma FirstSame(a: Signature, x: Stack, b: Signature, y: Stack)
    requires [a] + x <= [b] + y
    ensures a == b && x <= y
  {
    assert ([a] + x)[0] == ([b] + y)[0];
    assert x == ([a] + x)[1..] && y == ([b] + y)[1..];
  }

  lemma SameChild(body: seq<Subcase>, j: nat, j': nat)
    requires Distinct(body) && j < |body| && j' < |body| && body[j].sig == body[j'].sig
    ensures j == j' && Distinct(body[j].body)
  {
  }
}
