/** The numbering of states: which wait leads to which state, and what a state explores. */
module States {
  import opened ThreadGraph
  import opened Unfolding
  import opened PathSearch

  predicate InRange(g: Graph, order: seq<nat>) {
    forall i :: 0 <= i < |order| ==> order[i] < |g|
  }

  function ElementsOf(order: seq<nat>): (s: set<nat>)
    ensures forall w :: w in s <==> w in order
  {
    if order == [] then {} else ElementsOf(order[..|order| - 1]) + {order[|order| - 1]}
  }

  /** The queue when the first `done` waits have left it: the newest in front. */
  function QueueOf(g: Graph, order: seq<nat>, done: nat): (q: seq<nat>)
    requires InRange(g, order)
    ensures |q| == if |order| <= done then 0 else |order| - done
  {
    if |order| <= done then []
    else [Resume(g, order[|order| - 1])] + QueueOf(g, order[..|order| - 1], done)
  }

  function NextOf(g: Graph, order: seq<nat>): (m: map<nat, (nat, nat)>)
    requires InRange(g, order)
    ensures m.Keys == ElementsOf(order)
  {
    if order == [] then map[]
    else
      var w := order[|order| - 1];
      NextOf(g, order[..|order| - 1])[w := (Resume(g, w), |order|)]
  }

  /** The states of the recorded waits. */
  function StatesOf(next: map<nat, (nat, nat)>): map<nat, nat> {
    map w | w in next :: next[w].1
  }

  /** The bookkeeping of waits after those in `order` were met, in that order, and the first
      `done` of them have left the queue. */
  function Found(g: Graph, order: seq<nat>, done: nat): Waits
    requires InRange(g, order)
  {
    Waits(ElementsOf(order), QueueOf(g, order, done), |order|, NextOf(g, order))
  }

  function Meet(g: Graph, b: nat, order: seq<nat>): (r: seq<nat>)
    requires b < |g|
    ensures order <= r
    ensures InRange(g, order) ==> InRange(g, r)
    ensures NoRepeat(order) ==> NoRepeat(r)
  {
    if g[b].hasWait && b !in order then order + [b] else order
  }

  function MeetTree(g: Graph, t: Tree, order: seq<nat>): (r: seq<nat>)
    requires TreeInGraph(g, t)
    ensures order <= r
    ensures InRange(g, order) ==> InRange(g, r)
    ensures NoRepeat(order) ==> NoRepeat(r)
  {
    match t
    case Empty => order
    case Leaf(b) => Meet(g, b, order)
    case Chain(b, next) => MeetTree(g, next, Meet(g, b, order))
    case Fork(b, thn, els) => MeetArm(g, els, MeetArm(g, thn, Meet(g, b, order)))
  }

  function MeetArm(g: Graph, arm: Option<Tree>, order: seq<nat>): (r: seq<nat>)
    requires ArmInGraph(g, arm)
    ensures order <= r
    ensures InRange(g, order) ==> InRange(g, r)
    ensures NoRepeat(order) ==> NoRepeat(r)
  {
    if arm == None then order else MeetTree(g, arm.value, order)
  }

  /** The block at which state `k` starts. */
  function StartOf(g: Graph, entry: nat, order: seq<nat>, k: nat): nat
    requires k <= |order| && InRange(g, order)
  {
    if k == 0 then entry else Resume(g, order[k - 1])
  }

  /** A single search: what a state that starts at `s` explores, and how it is recorded. */
  function Explored(g: Graph, s: nat): (t: Tree)
    requires Closed(g) && s < |g|
    ensures TreeInGraph(g, t)
  {
    ActInGraph(g, s, {});
    Act(g, s, {})
  }

  function Recorded(g: Graph, s: nat, prepared: map<nat, PathInfo>): Trail
    requires Closed(g) && s < |g|
  {
    RunTrail(g, Explored(g, s), Trail([], prepared))
  }

  lemma {:induction false} VisitWaitFound(g: Graph, b: nat, order: seq<nat>, done: nat)
    requires b < |g| && InRange(g, order) && done <= |order|
    ensures VisitWait(g, b, Found(g, order, done)) == Found(g, Meet(g, b, order), done)
  {
    assert (order + [b])[..|order|] == order;
  }

  /** A search started after the waits in `order` were met leaves the bookkeeping of the
      longer list: the queue is first-in first-out and the count is the length of the list. */
  lemma {:induction false} RunWaitsFound(g: Graph, t: Tree, order: seq<nat>, done: nat)
    requires TreeInGraph(g, t) && InRange(g, order) && done <= |order|
    ensures RunWaits(g, t, Found(g, order, done)) == Found(g, MeetTree(g, t, order), done)
  {
    hide Found, VisitWait, Meet;
    match t
    case Empty =>
    case Leaf(b) => VisitWaitFound(g, b, order, done);
    case Chain(b, next) =>
      VisitWaitFound(g, b, order, done);
      RunWaitsFound(g, next, Meet(g, b, order), done);
    case Fork(b, thn, els) =>
      VisitWaitFound(g, b, order, done);
      var order1 := Meet(g, b, order);
      var order2 := MeetArm(g, thn, order1);
      RunArmFound(g, thn, order1, done);
      RunArmFound(g, els, order2, done);
  }

  lemma {:induction false} RunArmFound(g: Graph, arm: Option<Tree>, order: seq<nat>, done: nat)
    requires ArmInGraph(g, arm) && InRange(g, order) && done <= |order|
    ensures RunArmWaits(g, arm, Found(g, order, done)) == Found(g, MeetArm(g, arm, order), done)
  {
    hide Found, RunWaits, MeetTree;
    if arm.Some? { RunWaitsFound(g, arm.value, order, done); }
  }

  /** The oldest wait is served next. */
  lemma {:induction false} QueueTail(g: Graph, order: seq<nat>, done: nat)
    requires InRange(g, order) && done < |order|
    ensures var q := QueueOf(g, order, done);
            && q[|q| - 1] == Resume(g, order[done])
            && q[..|q| - 1] == QueueOf(g, order, done + 1)
  {
    var last := |order| - 1;
    if done < last {
      QueueTail(g, order[..last], done);
      var q, q' := QueueOf(g, order, done), QueueOf(g, order[..last], done);
      assert q == [Resume(g, order[last])] + q';
      assert q[..|q| - 1] == [Resume(g, order[last])] + q'[..|q'| - 1];
    }
  }

  /** Next states are numbered in the order of `order`, from 1 on. */
  lemma {:induction false} NextOfAt(g: Graph, order: seq<nat>, i: nat)
    requires InRange(g, order) && NoRepeat(order) && i < |order|
    ensures order[i] in NextOf(g, order) && NextOf(g, order)[order[i]] == (Resume(g, order[i]), i + 1)
  {
    NextOfLast(g, order);
    hide NextOf, NoRepeat, Resume, InRange;
    if i < |order| - 1 {
      InitParts(order, i);
      NextOfAt(g, order[..|order| - 1], i);
    }
  }

  lemma InitParts(order: seq<nat>, i: nat)
    requires NoRepeat(order) && i < |order| - 1
    ensures var init := order[..|order| - 1]; NoRepeat(init) && init[i] == order[i] != order[|order| - 1]
  {
  }

  lemma NextOfLast(g: Graph, order: seq<nat>)
    requires InRange(g, order) && order != []
    ensures var init, w := order[..|order| - 1], order[|order| - 1];
            InRange(g, init) && w < |g| && NextOf(g, order) == NextOf(g, init)[w := (Resume(g, w), |order|)]
  {
  }

  /** The waits a search meets are those of its tree, and nothing else is added. */
  lemma {:induction false} MeetTreeWaits(g: Graph, t: Tree, order: seq<nat>, w: nat)
    requires TreeInGraph(g, t)
    ensures w in MeetTree(g, t, order) <==> w in order || (w in Preorder(t) && w < |g| && g[w].hasWait)
  {
    match t
    case Empty =>
    case Leaf(b) =>
    case Chain(b, next) => MeetTreeWaits(g, next, Meet(g, b, order), w);
    case Fork(b, thn, els) =>
      var order1 := Meet(g, b, order);
      if thn.Some? { MeetTreeWaits(g, thn.value, order1, w); }
      var order2 := MeetArm(g, thn, order1);
      if els.Some? { MeetTreeWaits(g, els.value, order2, w); }
  }

  /** The first `served` states are explored: every wait they meet has a number, and every
      numbered wait is met by a state with a smaller number than the one it leads to. */
  ghost predicate Explores(g: Graph, entry: nat, order: seq<nat>, served: nat)
    requires Closed(g) && entry < |g|
  {
    && InRange(g, order) && NoRepeat(order) && served <= |order| + 1
    && (forall k :: 0 <= k < served ==> WaitsNumbered(g, Explored(g, StartOf(g, entry, order, k)), order))
    && (forall i :: 0 <= i < |order| ==> MetBefore(g, entry, order, served, i))
  }

  ghost predicate WaitsNumbered(g: Graph, t: Tree, order: seq<nat>) {
    forall w :: w in Preorder(t) && w < |g| && g[w].hasWait ==> w in order
  }

  ghost predicate MetBefore(g: Graph, entry: nat, order: seq<nat>, served: nat, i: nat)
    requires Closed(g) && entry < |g| && InRange(g, order) && i < |order|
  {
    && g[order[i]].hasWait
    && exists k :: 0 <= k < served && k <= i && order[i] in Preorder(Explored(g, StartOf(g, entry, order, k)))
  }

  lemma {:induction false} ExploreNext(g: Graph, entry: nat, order: seq<nat>, served: nat)
    requires Closed(g) && entry < |g| && served <= |order| && Explores(g, entry, order, served)
    ensures var order' := MeetTree(g, Explored(g, StartOf(g, entry, order, served)), order);
            && Explores(g, entry, order', served + 1)
            && (forall k :: 0 <= k <= |order| ==> StartOf(g, entry, order', k) == StartOf(g, entry, order, k))
  {
    hide Explored, MeetTree;
    var t := Explored(g, StartOf(g, entry, order, served));
    var order' := MeetTree(g, t, order);
    var served' := served + 1;
    forall k | 0 <= k < served'
      ensures WaitsNumbered(g, Explored(g, StartOf(g, entry, order', k)), order')
    {
      assert StartOf(g, entry, order', k) == StartOf(g, entry, order, k);
      if k == served {
        forall w: nat ensures w in order' <==> w in order || (w in Preorder(t) && w < |g| && g[w].hasWait) {
          MeetTreeWaits(g, t, order, w);
        }
      }
    }
    forall i | 0 <= i < |order'|
      ensures MetBefore(g, entry, order', served', i)
    {
      MeetTreeWaits(g, t, order, order'[i]);
      if i < |order| {
        assert MetBefore(g, entry, order, served, i);
        var k :| 0 <= k < served && k <= i && order[i] in Preorder(Explored(g, StartOf(g, entry, order, k)));
        assert StartOf(g, entry, order', k) == StartOf(g, entry, order, k);
      } else {
        assert order'[i] !in order;
        assert StartOf(g, entry, order', served) == StartOf(g, entry, order, served);
      }
    }
  }

  /** The states explored so far are recorded, each from the block it starts at. */
  ghost predicate StatesRecorded(g: Graph, entry: nat, order: seq<nat>, prepared: map<nat, PathInfo>, trails: seq<Trail>)
    requires Closed(g) && entry < |g|
  {
    && Explores(g, entry, order, |trails|)
    && forall k :: 0 <= k < |trails| ==> trails[k] == Recorded(g, StartOf(g, entry, order, k), prepared)
  }

  lemma {:induction false} RecordNext(g: Graph, entry: nat, order: seq<nat>, prepared: map<nat, PathInfo>, trails: seq<Trail>)
    requires Closed(g) && entry < |g| && StatesRecorded(g, entry, order, prepared, trails) && |trails| <= |order|
    ensures var s := StartOf(g, entry, order, |trails|);
            StatesRecorded(g, entry, MeetTree(g, Explored(g, s), order), prepared, trails + [Recorded(g, s, prepared)])
  {
    hide Explored, Recorded, MeetTree;
    var s := StartOf(g, entry, order, |trails|);
    var order' := MeetTree(g, Explored(g, s), order);
    ExploreNext(g, entry, order, |trails|);
    var trails' := trails + [Recorded(g, s, prepared)];
    forall k | 0 <= k < |trails'|
      ensures trails'[k] == Recorded(g, StartOf(g, entry, order', k), prepared)
    {
      assert StartOf(g, entry, order', k) == StartOf(g, entry, order, k);
    }
  }

  lemma {:induction false} StartAtQueueTail(g: Graph, entry: nat, order: seq<nat>, served: nat)
    requires InRange(g, order) && 1 <= served <= |order|
    ensures var q := QueueOf(g, order, served - 1);
            q[|q| - 1] == StartOf(g, entry, order, served) && q[..|q| - 1] == QueueOf(g, order, served)
  {
    QueueTail(g, order, served - 1);
  }

  /** The state loop between two searches: `order` lists the waits met, `trails` what was recorded. */
  ghost predicate Serving(g: Graph, entry: nat, order: seq<nat>, prepared: map<nat, PathInfo>, trails: seq<Trail>, ws: Waits)
    requires Closed(g) && entry < |g|
  {
    && StatesRecorded(g, entry, order, prepared, trails)
    && 1 <= |trails| <= |order| + 1 && InRange(g, order)
    && ws == Found(g, order, |trails| - 1)
  }

  lemma {:induction false} ServeFirst(g: Graph, entry: nat, prepared: map<nat, PathInfo>)
    requires Closed(g) && entry < |g|
    ensures var t := Explored(g, entry);
            Serving(g, entry, MeetTree(g, t, []), prepared, [Recorded(g, entry, prepared)],
                    RunWaits(g, t, Waits({}, [], 0, map[])))
  {
    hide Explored, Recorded, MeetTree, RunWaits;
    RunWaitsFound(g, Explored(g, entry), [], 0);
    RecordNext(g, entry, [], prepared, []);
    assert [] + [Recorded(g, entry, prepared)] == [Recorded(g, entry, prepared)];
  }

  lemma {:induction false} ServeNext(g: Graph, entry: nat, order: seq<nat>, prepared: map<nat, PathInfo>, trails: seq<Trail>, ws: Waits)
    requires Closed(g) && entry < |g| && Serving(g, entry, order, prepared, trails, ws) && ws.queue != []
    ensures var s := ws.queue[|ws.queue| - 1];
            && s < |g|
            && var t := Explored(g, s);
               Serving(g, entry, MeetTree(g, t, order), prepared, trails + [Recorded(g, s, prepared)],
                       RunWaits(g, t, ws.(queue := ws.queue[..|ws.queue| - 1])))
  {
    hide Explored, Recorded, MeetTree, RunWaits, QueueOf, NextOf, ElementsOf;
    StartAtQueueTail(g, entry, order, |trails|);
    var s := StartOf(g, entry, order, |trails|);
    RunWaitsFound(g, Explored(g, s), order, |trails|);
    RecordNext(g, entry, order, prepared, trails);
  }

  /** State `k + 1` is the next state of the k-th wait that was met and of no other, and what
      was recorded for it is a search from that wait's successor.  So next states are a
      bijection onto 1 .. number of states - 1. */
  lemma {:induction false} StateNumbering(g: Graph, entry: nat, order: seq<nat>, prepared: map<nat, PathInfo>, trails: seq<Trail>, k: nat)
    requires Closed(g) && entry < |g| && StatesRecorded(g, entry, order, prepared, trails)
    requires |trails| == |order| + 1 && k < |order|
    ensures forall w :: w in NextOf(g, order) && NextOf(g, order)[w].1 == k + 1 <==> w == order[k]
    ensures var w := order[k];
            var start := if g[w].succs == [] then w else g[w].succs[0];
            NextOf(g, order)[w].0 == start && trails[k + 1] == Recorded(g, start, prepared)
    ensures trails[0] == Recorded(g, entry, prepared)
  {
    hide Recorded, Explored, NextOf;
    NextOfAt(g, order, k);
    forall w | w in NextOf(g, order) && NextOf(g, order)[w].1 == k + 1 ensures w == order[k] {
      var i :| 0 <= i < |order| && order[i] == w;
      NextOfAt(g, order, i);
    }
    assert StartOf(g, entry, order, k + 1) == Resume(g, order[k]);
    assert StartOf(g, entry, order, 0) == entry;
  }
}
