/** What the generated code of a tree says when it is read from its beginning to its end. */
module CodeOrder {
  import opened ThreadGraph
  import opened Unfolding
  import opened PathSearch
  import opened Encoding
  import opened Hcodes
  import opened Sequences

  /** A statement, the condition of an if, or the end of a clock. */
  datatype Mention = Stated(block: nat, stmt: nat) | Asked(block: nat) | Ended

  function Mentions(h: Hcode): seq<Mention>
    decreases h, 0
  {
    match h
    case Do(block, stmt) => [Stated(block, stmt)]
    case IfStmt(cond, arms) => [Asked(cond)] + MentionsAll(arms)
    case CStmt(body) => MentionsAll(body)
    case Return => [Ended]
    case _ => []
  }

  function MentionsAll(code: seq<Hcode>): seq<Mention>
    decreases code, 1
  {
    if code == [] then [] else Mentions(code[0]) + MentionsAll(code[1..])
  }

  lemma {:induction false} MentionsAppend(a: seq<Hcode>, b: seq<Hcode>)
    ensures MentionsAll(a + b) == MentionsAll(a) + MentionsAll(b)
    decreases |a|
  {
    if a == [] {
      assert a + b == b;
    } else {
      assert (a + b)[1..] == a[1..] + b;
      MentionsAppend(a[1..], b);
      hide Mentions;
      Regroup(Mentions(a[0]), MentionsAll(a[1..]), MentionsAll(b));
    }
  }

  lemma MentionsOne(h: Hcode)
    ensures MentionsAll([h]) == Mentions(h)
  {
    hide Mentions;
    assert [h][1..] == [];
    NothingAdded(Mentions(h));
  }

  /** What an element of a block says: itself, and a wait that the clock ends. */
  function Spoken(cfg: nat, elems: seq<Elem>): seq<Mention> {
    seq(|elems|, i requires 0 <= i < |elems| => if elems[i].Stmt? then Stated(cfg, elems[i].id) else Ended)
  }

  /** A block that ends in the condition of an if or a loop gives just the condition, a block
      without terminator or with a wait its elements, and any other block nothing. */
  function BlockSays(b: Block): seq<Mention> {
    if b.hasWait || b.origin.term == NoTerm then Spoken(b.cfg, b.elems)
    else if b.origin.term == IfTerm || b.origin.term == LoopTerm then [Asked(b.cfg)]
    else []
  }

  function BlocksSay(g: Graph, bs: seq<nat>): seq<Mention> {
    if bs == [] then [] else (if bs[0] < |g| then BlockSays(g[bs[0]]) else []) + BlocksSay(g, bs[1..])
  }

  lemma {:induction false} BlocksSayAppend(g: Graph, a: seq<nat>, b: seq<nat>)
    ensures BlocksSay(g, a + b) == BlocksSay(g, a) + BlocksSay(g, b)
    decreases |a|
  {
    if a == [] {
      assert a + b == b;
    } else {
      assert (a + b)[1..] == a[1..] + b;
      BlocksSayAppend(g, a[1..], b);
      hide BlockSays;
      Regroup(if a[0] < |g| then BlockSays(g[a[0]]) else [], BlocksSay(g, a[1..]), BlocksSay(g, b));
    }
  }

  lemma {:induction false} ElemsSay(elems: seq<Elem>, cfg: nat, next: nat, numStates: nat)
    ensures MentionsAll(EmitElems(elems, cfg, next, numStates)) == Spoken(cfg, elems)
  {
    if elems != [] {
      var init, last := elems[..|elems| - 1], elems[|elems| - 1];
      ElemsSay(init, cfg, next, numStates);
      ElemSays(last, cfg, next, numStates);
      MentionsAppend(EmitElems(init, cfg, next, numStates), EmitElem(last, cfg, next, numStates));
      hide MentionsAll, EmitElem;
      assert Spoken(cfg, elems) == Spoken(cfg, init) + [if last.Stmt? then Stated(cfg, last.id) else Ended];
    }
  }

  lemma ElemSays(e: Elem, cfg: nat, next: nat, numStates: nat)
    ensures MentionsAll(EmitElem(e, cfg, next, numStates)) == [if e.Stmt? then Stated(cfg, e.id) else Ended]
  {
    match e
    case Stmt(id) => MentionsOne(Do(cfg, id));
    case Wait(arg) =>
      var code := EmitWait(arg, next, numStates);
      var init := code[..|code| - 1];
      assert code == init + [Return];
      MentionsAppend(init, [Return]);
      MentionsOne(Return);
      SilentAll(init);
  }

  lemma {:induction false} SilentAll(code: seq<Hcode>)
    requires forall h :: h in code ==> Mentions(h) == []
    ensures MentionsAll(code) == []
  {
    if code != [] {
      SilentAll(code[1..]);
    }
  }

  lemma BlockSaysIt(g: Graph, plan: Plan, b: nat)
    requires b < |g|
    ensures MentionsAll(EmitBlock(g, plan, b)) == BlockSays(g[b])
  {
    ElemsSay(g[b].elems, g[b].cfg, plan.NextState(b), plan.numStates);
    MentionsOne(IfStmt(g[b].cfg, []));
    hide EmitElems, Spoken;
    NothingAdded([Asked(g[b].cfg)]);
  }

  lemma ArmsSay(thn: seq<Hcode>, els: seq<Hcode>)
    ensures MentionsAll(Arms(thn, els)) == MentionsAll(thn) + MentionsAll(els)
  {
    if els == [] {
      assert MentionsAll(els) == [];
      NothingAdded(MentionsAll(thn));
      MentionsOne(CStmt(thn));
    } else {
      TwoArms(thn, els);
    }
  }

  lemma TwoArms(thn: seq<Hcode>, els: seq<Hcode>)
    requires els != []
    ensures MentionsAll(Arms(thn, els)) == MentionsAll(thn) + MentionsAll(els)
  {
    var first := if thn == [] then Noop else CStmt(thn);
    assert Arms(thn, els) == [first] + [CStmt(els)];
    assert Mentions(first) == MentionsAll(thn) && Mentions(CStmt(els)) == MentionsAll(els);
    hide Arms, Mentions, MentionsAll;
    MentionsOne(first);
    MentionsOne(CStmt(els));
    MentionsAppend([first], [CStmt(els)]);
  }

  /** The code of a tree says what its blocks say, in preorder: every statement and condition
      of a block on the path comes once for each time the block is on the path, in this order. */
  lemma {:induction false} TreeSays(g: Graph, plan: Plan, t: Tree)
    requires TreeInGraph(g, t) && Generable(g, t)
    ensures MentionsAll(EmitTree(g, plan, t)) == BlocksSay(g, Preorder(t))
    decreases t, 1
  {
    match t
    case Empty =>
    case Leaf(b) =>
      BlockSaysIt(g, plan, b);
      hide EmitBlock, BlockSays, MentionsAll;
      assert [b][1..] == [];
      NothingAdded(BlockSays(g[b]));
    case Chain(b, next) =>
      BlockSaysIt(g, plan, b);
      TreeSays(g, plan, next);
      MentionsAppend(EmitBlock(g, plan, b), EmitTree(g, plan, next));
      hide EmitBlock, BlockSays, MentionsAll, EmitTree;
      BlocksSayAppend(g, [b], Preorder(next));
      SaysOne(g, b);
    case Fork(b, thn, els) => ForkSays(g, plan, t);
  }

  lemma SaysOne(g: Graph, b: nat)
    requires b < |g|
    ensures BlocksSay(g, [b]) == BlockSays(g[b])
  {
    hide BlockSays;
    assert [b][1..] == [];
    NothingAdded(BlockSays(g[b]));
  }

  lemma {:induction false} ArmSays(g: Graph, plan: Plan, arm: Option<Tree>)
    requires ArmInGraph(g, arm) && (arm.Some? ==> Generable(g, arm.value))
    ensures MentionsAll(EmitArm(g, plan, arm)) == BlocksSay(g, ArmPreorder(arm))
    decreases arm, 0
  {
    if arm.Some? { TreeSays(g, plan, arm.value); }
  }

  lemma {:induction false} ForkSays(g: Graph, plan: Plan, t: Tree)
    requires TreeInGraph(g, t) && Generable(g, t) && t.Fork?
    ensures MentionsAll(EmitTree(g, plan, t)) == BlocksSay(g, Preorder(t))
    decreases t, 0
  {
    var Fork(b, thn, els) := t;
    ArmSays(g, plan, thn);
    ArmSays(g, plan, els);
    var arms := Arms(EmitArm(g, plan, thn), EmitArm(g, plan, els));
    MentionsOne(IfStmt(g[b].cfg, arms));
    ArmsSay(EmitArm(g, plan, thn), EmitArm(g, plan, els));
    assert EmitTree(g, plan, t) == [IfStmt(g[b].cfg, arms)];
    assert Mentions(IfStmt(g[b].cfg, arms)) == [Asked(g[b].cfg)] + MentionsAll(arms);
    assert BlockSays(g[b]) == [Asked(g[b].cfg)];
    hide MentionsAll, Mentions, EmitArm, BlockSays, Arms, EmitTree;
    SaysOne(g, b);
    BlocksSayAppend(g, [b], ArmPreorder(thn));
    BlocksSayAppend(g, [b] + ArmPreorder(thn), ArmPreorder(els));
    hide BlocksSay;
    Regroup([Asked(g[b].cfg)], BlocksSay(g, ArmPreorder(thn)), BlocksSay(g, ArmPreorder(els)));
  }
}
