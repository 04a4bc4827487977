/** Breaking up chains of assignments, `a = b = ... = e`. */
module AssignmentChains {
  import opened Sequences

  datatype Op = Binop | Varref | CStmt | OtherOp

  class HNode {
    const op: Op
    const name: string
    var childList: seq<HNode>

    constructor (op: Op, name: string, childList: seq<HNode>)
      ensures this.op == op && this.name == name && this.childList == childList
    {
      this.op, this.name, this.childList := op, name, childList;
    }

    predicate IsAssignOp() {
      op == Binop && name == "="
    }
  }

  /** What the i-th assignment assigns. */
  function Rest(chain: seq<HNode>, e: HNode, i: nat): HNode {
    if i + 1 < |chain| then chain[i + 1] else e
  }

  predicate AllDifferent(chain: seq<HNode>) {
    forall i, j :: 0 <= i < j < |chain| ==> chain[i] != chain[j]
  }

  /** `chain` are the nodes of the assignments, from the outermost on, `vars` the variables
      they assign to, and `e` is what is assigned. */
  ghost predicate IsChain(chain: seq<HNode>, vars: seq<HNode>, e: HNode)
    reads chain, vars, e
  {
    && 1 <= |chain| == |vars|
    && AllDifferent(chain)
    && (forall i :: 0 <= i < |chain| ==> chain[i].IsAssignOp() && vars[i] !in chain && vars[i].op == Varref)
    && !e.IsAssignOp() && e !in chain && e !in vars
    && (forall i :: 0 <= i < |chain| ==> chain[i].childList == [vars[i], Rest(chain, e, i)])
  }

  /** One more assignment around a chain, or around the expression. */
  method MakeAssign(name: string, rhs: HNode, chain: seq<HNode>, vars: seq<HNode>, ghost e: HNode)
    returns (top: HNode, chain': seq<HNode>, vars': seq<HNode>)
    requires if chain == [] then vars == [] && rhs == e && !e.IsAssignOp() else IsChain(chain, vars, e) && rhs == chain[0]
    ensures chain' == [top] + chain && IsChain(chain', vars', e) && Names(vars') == [name] + Names(vars)
  {
    hide IsChain, Names;
    var lhs := new HNode(Varref, name, []);
    top := new HNode(Binop, "=", [lhs, rhs]);
    OuterAssign(top, lhs, chain, vars, e);
    NamesCons(lhs, vars);
    chain', vars' := [top] + chain, [lhs] + vars;
  }

  /** The nodes of `names[0] = names[1] = ... = e`. */
  method BuildChain(names: seq<string>, e: HNode) returns (top: HNode, chain: seq<HNode>, vars: seq<HNode>)
    requires names != [] && !e.IsAssignOp()
    ensures IsChain(chain, vars, e) && |chain| == |names| && top == chain[0] && Names(vars) == names
  {
    var rhs := e;
    chain, vars := [], [];
    if |names| > 1 {
      rhs, chain, vars := BuildChain(names[1..], e);
    }
    hide IsChain;
    top, chain, vars := MakeAssign(names[0], rhs, chain, vars, e);
  }

  lemma OuterAssign(top: HNode, lhs: HNode, chain: seq<HNode>, vars: seq<HNode>, e: HNode)
    requires if chain == [] then vars == [] && !e.IsAssignOp() else IsChain(chain, vars, e)
    requires top.IsAssignOp() && top.childList == [lhs, if chain == [] then e else chain[0]]
    requires top !in chain && top !in vars && top != e && lhs != top && lhs !in chain && lhs != e && lhs.op == Varref
    ensures IsChain([top] + chain, [lhs] + vars, e)
  {
    var c, v := [top] + chain, [lhs] + vars;
    forall i | 0 <= i < |c|
      ensures c[i].IsAssignOp() && v[i] !in c && v[i].op == Varref && c[i].childList == [v[i], Rest(c, e, i)]
    {
      if i > 0 { assert c[i] == chain[i - 1] && v[i] == vars[i - 1]; }
    }
  }

  lemma NamesCons(n: HNode, vars: seq<HNode>)
    ensures Names([n] + vars) == [n.name] + Names(vars)
  {
  }

  function Names(vars: seq<HNode>): (names: seq<string>)
    ensures |names| == |vars| && forall i :: 0 <= i < |vars| ==> names[i] == vars[i].name
  {
    if vars == [] then [] else Names(vars[..|vars| - 1]) + [vars[|vars| - 1].name]
  }

  /** The first `n` nodes of the chain are broken off. */
  ghost predicate Broken(chain: seq<HNode>, vars: seq<HNode>, e: HNode, n: nat)
    requires |chain| == |vars|
    reads chain
  {
    forall i :: 0 <= i < |chain| ==>
      chain[i].childList == [vars[i], if i < n then Rest(vars, e, i) else Rest(chain, e, i)]
  }

  /** Breaks off node `n`; `next` is the assignment it held. */
  method BreakOff(htmp: HNode, ghost chain: seq<HNode>, ghost vars: seq<HNode>, ghost e: HNode, ghost n: nat)
    returns (next: HNode)
    requires |chain| == |vars| && n < |chain| - 1 && htmp == chain[n] && Broken(chain, vars, e, n)
    requires AllDifferent(chain)
    modifies htmp
    ensures next == chain[n + 1] && Broken(chain, vars, e, n + 1)
  {
    assert chain[n + 1].childList == [vars[n + 1], Rest(chain, e, n + 1)];
    next := htmp.childList[1];
    htmp.childList := htmp.childList[1 := next.childList[0]];
  }

  lemma NextChild(chain: seq<HNode>, vars: seq<HNode>, e: HNode, n: nat)
    requires |chain| == |vars| && n < |chain| && Broken(chain, vars, e, n)
    ensures chain[n].childList == [vars[n], Rest(chain, e, n)]
  {
  }

  /** What is assigned is an assignment except at the end, and so are no variables. */
  lemma AssignsLeft(chain: seq<HNode>, vars: seq<HNode>, e: HNode)
    requires IsChain(chain, vars, e)
    ensures |chain| == |vars| && Broken(chain, vars, e, 0)
    ensures AllDifferent(chain)
    ensures forall i :: 0 <= i < |chain| ==>
              (Rest(chain, e, i).IsAssignOp() <==> i < |chain| - 1) && !Rest(vars, e, i).IsAssignOp()
  {
  }

  lemma AllBroken(chain: seq<HNode>, vars: seq<HNode>, e: HNode)
    requires 1 <= |chain| == |vars| && Broken(chain, vars, e, |chain| - 1)
    ensures forall i :: 0 <= i < |chain| ==> chain[i].childList == [vars[i], Rest(vars, e, i)]
  {
  }

  /** The nodes are broken up in place: the list is the chain from the inside out, and each
      assignment but the innermost takes its value from the variable assigned before. */
  method NormalizeAssignmentChain(hinp: HNode, ghost chain: seq<HNode>, ghost vars: seq<HNode>, ghost e: HNode)
    returns (hassignchain: HNode)
    requires IsChain(chain, vars, e) && |chain| >= 2 && hinp == chain[0]
    modifies chain
    ensures fresh(hassignchain) && hassignchain.op == CStmt
    ensures hassignchain.childList == Reversed(chain)
    ensures forall i :: 0 <= i < |chain| ==>
              chain[i].childList == [vars[i], Rest(vars, e, i)] && !Rest(vars, e, i).IsAssignOp()
    ensures AsAssigns(hassignchain.childList, e) == Produced(Names(vars))
    ensures forall meaning: Meaning, values: Values ::
              RunAll(meaning, AsAssigns(hassignchain.childList, e), values) == EvalChain(meaning, Names(vars), values).1
  {
    var list: seq<HNode> := [];
    var htmp := hinp;
    ghost var n := 0;
    var again := true;
    AssignsLeft(chain, vars, e);
    hide IsChain, Broken, Reversed, AllDifferent;
    while again
      invariant 0 <= n < |chain| && htmp == chain[n] && list == chain[..n]
      invariant again <==> n < |chain| - 1
      invariant Broken(chain, vars, e, n)
      decreases |chain| - n
    {
      list := list + [htmp];
      Snoc(chain, n);
      htmp := BreakOff(htmp, chain, vars, e, n);
      n := n + 1;
      NextChild(chain, vars, e, n);
      again := htmp.childList[1].IsAssignOp();
    }
    list := list + [htmp];
    Snoc(chain, n);
    AllBroken(chain, vars, e);
    hassignchain := new HNode(CStmt, "", Reversed(list));
    ReadBack(chain, vars, e);
    forall meaning: Meaning, values: Values
      ensures RunAll(meaning, Produced(Names(vars)), values) == EvalChain(meaning, Names(vars), values).1
    {
      NormalizationPreservesMeaning(meaning, Names(vars), values);
    }
  }

  /** A node of the list as an assignment; `e` stands for the expression of the chain. */
  function AsAssign(n: HNode, e: HNode): Assign
    reads n
  {
    if |n.childList| != 2 then Assign("", Expression)
    else Assign(n.childList[0].name, if n.childList[1] == e then Expression else Variable(n.childList[1].name))
  }

  function AsAssigns(nodes: seq<HNode>, e: HNode): (r: seq<Assign>)
    reads nodes
    ensures |r| == |nodes| && forall k :: 0 <= k < |nodes| ==> r[k] == AsAssign(nodes[k], e)
  {
    if nodes == [] then [] else AsAssigns(nodes[..|nodes| - 1], e) + [AsAssign(nodes[|nodes| - 1], e)]
  }

  /** The list of nodes is the list of assignments. */
  lemma {:induction false} ReadBack(chain: seq<HNode>, vars: seq<HNode>, e: HNode)
    requires |chain| == |vars| && e !in vars
    requires forall i :: 0 <= i < |chain| ==> chain[i].childList == [vars[i], Rest(vars, e, i)]
    ensures AsAssigns(Reversed(chain), e) == Produced(Names(vars))
  {
    ProducedAt(Names(vars));
    var nodes := Reversed(chain);
    forall k | 0 <= k < |nodes| ensures AsAssigns(nodes, e)[k] == Produced(Names(vars))[k] {
      var i := |chain| - 1 - k;
      assert nodes[k] == chain[i] && AsAssigns(nodes, e)[k] == AsAssign(chain[i], e);
    }
  }

  lemma Snoc(chain: seq<HNode>, n: nat)
    requires n < |chain|
    ensures chain[..n] + [chain[n]] == chain[..n + 1] && chain[..|chain|] == chain
  {
  }

  /** An assignment to `lhs` of variable `rhs`, or of the expression of the chain. */
  datatype Assign = Assign(lhs: string, rhs: Rhs)
  datatype Rhs = Variable(name: string) | Expression

  /** The assignments that a chain over `names` is broken into. */
  function Produced(names: seq<string>): (r: seq<Assign>)
    ensures |r| == |names|
  {
    if names == [] then []
    else Produced(names[1..]) + [Assign(names[0], if |names| == 1 then Expression else Variable(names[1]))]
  }

  /** The k-th assignment corresponds to the k-th node of the list. */
  lemma {:induction false} ProducedAt(names: seq<string>)
    ensures forall k :: 0 <= k < |names| ==>
              var i := |names| - 1 - k;
              Produced(names)[k] == Assign(names[i], if i + 1 < |names| then Variable(names[i + 1]) else Expression)
  {
    if names != [] { ProducedAt(names[1..]); }
  }

  // ----- What chains and lists of assignments mean -----

  type Values = map<string, int>

  /** What evaluating the expression gives and does, and how a variable's type converts values. */
  datatype Meaning = Meaning(eval: Values -> (int, Values), convert: (string, int) -> int)

  function Assigned(meaning: Meaning, x: string, v: int, values: Values): Values {
    values[x := meaning.convert(x, v)]
  }

  /** The chain as an expression: its value is that of the variable assigned last. */
  function EvalChain(meaning: Meaning, names: seq<string>, values: Values): (int, Values) {
    if names == [] then meaning.eval(values)
    else
      var (v, values') := EvalChain(meaning, names[1..], values);
      (meaning.convert(names[0], v), Assigned(meaning, names[0], v, values'))
  }

  function RunAssign(meaning: Meaning, a: Assign, values: Values): Values {
    match a.rhs
    case Expression => var (v, values') := meaning.eval(values); Assigned(meaning, a.lhs, v, values')
    case Variable(x) => Assigned(meaning, a.lhs, if x in values then values[x] else 0, values)
  }

  function RunAll(meaning: Meaning, assigns: seq<Assign>, values: Values): Values {
    if assigns == [] then values
    else RunAssign(meaning, assigns[|assigns| - 1], RunAll(meaning, assigns[..|assigns| - 1], values))
  }

  /** The list does what the chain does, whatever variables occur more than once. */
  lemma {:induction false} NormalizationPreservesMeaning(meaning: Meaning, names: seq<string>, values: Values)
    requires names != []
    ensures RunAll(meaning, Produced(names), values) == EvalChain(meaning, names, values).1
    ensures names[0] in EvalChain(meaning, names, values).1
    ensures EvalChain(meaning, names, values).1[names[0]] == EvalChain(meaning, names, values).0
    decreases |names|
  {
    if |names| == 1 {
      assert names == [names[0]];
      OneAssignment(meaning, names[0], values);
    } else {
      NormalizationPreservesMeaning(meaning, names[1..], values);
      hide *;
      OneMore(meaning, names, values);
    }
  }

  lemma OneAssignment(meaning: Meaning, x: string, values: Values)
    ensures RunAll(meaning, Produced([x]), values) == EvalChain(meaning, [x], values).1
    ensures x in EvalChain(meaning, [x], values).1 && EvalChain(meaning, [x], values).1[x] == EvalChain(meaning, [x], values).0
  {
    assert Produced([x]) == [] + [Assign(x, Expression)];
    RunSnoc(meaning, [], Assign(x, Expression), values);
  }

  lemma OneMore(meaning: Meaning, names: seq<string>, values: Values)
    requires |names| >= 2
    requires var (v, s) := EvalChain(meaning, names[1..], values);
             RunAll(meaning, Produced(names[1..]), values) == s && names[1] in s && s[names[1]] == v
    ensures RunAll(meaning, Produced(names), values) == EvalChain(meaning, names, values).1
    ensures names[0] in EvalChain(meaning, names, values).1
    ensures EvalChain(meaning, names, values).1[names[0]] == EvalChain(meaning, names, values).0
  {
    var a := Assign(names[0], Variable(names[1]));
    assert Produced(names) == Produced(names[1..]) + [a];
    RunSnoc(meaning, Produced(names[1..]), a, values);
    hide Produced, RunAll;
  }

  lemma RunSnoc(meaning: Meaning, assigns: seq<Assign>, a: Assign, values: Values)
    ensures RunAll(meaning, assigns + [a], values) == RunAssign(meaning, a, RunAll(meaning, assigns, values))
  {
    assert (assigns + [a])[..|assigns|] == assigns;
  }
}
