/** Generating the functions of a module: those its processes call, those these call, and so on. */
module FunctionClosure {
  import opened Names

  datatype Body = NoBody | Calling(calls: seq<Decl>)

  /** A function declaration: its qualified name, and the functions its body calls, in order. */
  datatype Function = Function(name: string, isConstructor: bool, body: Body)
  {
    function Calls(): seq<Decl> {
      if body.Calling? then body.calls else []
    }
  }

  type Program = map<Decl, Function>

  predicate Declared(program: Program) {
    forall f, i :: f in program && 0 <= i < |program[f].Calls()| ==> program[f].Calls()[i] in program
  }

  /** `s` has the functions in `roots`, and with a function all that it calls. */
  ghost predicate ClosedUnder(program: Program, roots: set<Decl>, s: set<Decl>) {
    roots <= s && forall f, i :: f in s && f in program && 0 <= i < |program[f].Calls()| ==> program[f].Calls()[i] in s
  }

  ghost predicate Least(program: Program, roots: set<Decl>, s: set<Decl>) {
    ClosedUnder(program, roots, s) && forall s' :: ClosedUnder(program, roots, s') ==> s <= s'
  }

  /** A function as it is generated: under `name`, its call sites calling `calls`. */
  datatype Generated = Generated(fn: Decl, name: string, calls: seq<string>)

  /** `name` is one of those minted from index `from` on, with the prefix for functions. */
  ghost predicate MintedFrom(minted: seq<Mint>, from: nat, name: string) {
    exists i :: from <= i < |minted| && minted[i].prefix == "_func_" && name == minted[i].Name(i)
  }

  /** All names are minted by this map, except those in `foreign`, which another map gave. */
  ghost predicate AllMinted(minted: seq<Mint>, names: map<Decl, string>, foreign: set<Decl>) {
    forall d :: d in names && d !in foreign ==> MintedFrom(minted, 0, names[d])
  }

  /** Names added since were minted since. */
  ghost predicate NewMinted(minted: seq<Mint>, minted': seq<Mint>, names: map<Decl, string>, names': map<Decl, string>) {
    minted <= minted' && forall d :: d in names' && d !in names ==> MintedFrom(minted', |minted|, names'[d])
  }

  /** No function has `name`, unless another map gave it one that happens to be the same. */
  ghost predicate Unused(names: map<Decl, string>, foreign: set<Decl>, name: string) {
    forall d :: d in names && d !in foreign ==> names[d] != name
  }

  lemma LaterDiffers(minted: seq<Mint>, minted': seq<Mint>, a: string, b: string)
    requires minted <= minted' && MintedFrom(minted, 0, a) && MintedFrom(minted', |minted|, b)
    ensures a != b
  {
    var i :| 0 <= i < |minted| && minted[i].prefix == "_func_" && a == minted[i].Name(i);
    var j :| |minted| <= j < |minted'| && minted'[j].prefix == "_func_" && b == minted'[j].Name(j);
    MintedDiffer(minted', i, j);
  }

  /** A call of `d` from a body that was generated when the functions in `known` had names. */
  predicate Misnamed(program: Program, known: set<Decl>, d: Decl) {
    d in program && program[d].isConstructor && d in known
  }

  /** The call sites have the names of what they call, except that calls of constructors that
      had a name already get a new one, which no function has. */
  ghost predicate Named(program: Program, known: set<Decl>, foreign: set<Decl>, minted: seq<Mint>, names: map<Decl, string>,
                        calls: seq<Decl>, callNames: seq<string>)
  {
    && |callNames| == |calls|
    && forall i :: 0 <= i < |calls| ==>
         && calls[i] in names
         && if Misnamed(program, known, calls[i])
            then MintedFrom(minted, 0, callNames[i]) && Unused(names, foreign, callNames[i])
            else callNames[i] == names[calls[i]]
  }

  function Elements(calls: seq<Decl>): (s: set<Decl>)
    ensures forall d :: d in s <==> d in calls
  {
    set d | d in calls
  }

  function Called(program: Program, processes: seq<Generated>): (s: set<Decl>) {
    if processes == [] then {}
    else
      var last := processes[|processes| - 1].fn;
      Called(program, processes[..|processes| - 1]) + (if last in program then Elements(program[last].Calls()) else {})
  }

  /** Function `g` was generated under its name in the module. */
  ghost predicate Right(program: Program, known: set<Decl>, foreign: set<Decl>, minted: seq<Mint>, names: map<Decl, string>,
                        g: Generated)
  {
    && g.fn in program && program[g.fn].body.Calling? && g.fn in names && g.name == names[g.fn]
    && Named(program, known, foreign, minted, names, program[g.fn].Calls(), g.calls)
  }

  ghost predicate IsGenerated(processes: seq<Generated>, f: Decl) {
    exists i :: 0 <= i < |processes| && processes[i].fn == f
  }

  /** Names are never taken back. */
  ghost predicate Kept(before: map<Decl, string>, after: map<Decl, string>) {
    forall d :: d in before ==> d in after && after[d] == before[d]
  }

  lemma KeptAll(a: map<Decl, string>, b: map<Decl, string>, c: map<Decl, string>)
    ensures Kept(b, b) && (Kept(a, b) && Kept(b, c) ==> Kept(a, c))
    ensures (Kept(a, b) ==> a.Keys <= b.Keys) && (Kept(a, c) ==> a.Keys <= c.Keys)
  {
  }

  ghost predicate AllRight(program: Program, roots: set<Decl>, foreign: set<Decl>, minted: seq<Mint>,
                           names: map<Decl, string>, processes: seq<Generated>)
  {
    forall i :: 0 <= i < |processes| ==>
      Right(program, roots + Called(program, processes[..i]), foreign, minted, names, processes[i])
  }

  lemma AllRightStill(program: Program, roots: set<Decl>, foreign: set<Decl>, minted: seq<Mint>, minted': seq<Mint>,
                      names: map<Decl, string>, names': map<Decl, string>, processes: seq<Generated>)
    requires AllRight(program, roots, foreign, minted, names, processes)
    requires Kept(names, names') && NewMinted(minted, minted', names, names')
    ensures AllRight(program, roots, foreign, minted', names', processes)
  {
    hide Right, NewMinted, Kept;
    forall i | 0 <= i < |processes|
      ensures Right(program, roots + Called(program, processes[..i]), foreign, minted', names', processes[i])
    {
      RightStill(program, roots + Called(program, processes[..i]), foreign, minted, minted', names, names', processes[i]);
    }
  }

  lemma {:induction false} AllRightSnoc(program: Program, roots: set<Decl>, foreign: set<Decl>, minted: seq<Mint>,
                                        names: map<Decl, string>, processes: seq<Generated>, g: Generated)
    requires AllRight(program, roots, foreign, minted, names, processes)
    requires Right(program, roots + Called(program, processes), foreign, minted, names, g)
    ensures AllRight(program, roots, foreign, minted, names, processes + [g])
  {
    hide Right, Called;
    var processes' := processes + [g];
    forall i | 0 <= i < |processes'|
      ensures Right(program, roots + Called(program, processes'[..i]), foreign, minted, names, processes'[i])
    {
      assert processes'[..i] == processes[..i];
      assert i == |processes| ==> processes[..i] == processes;
    }
  }

  /** Every function with a body that was taken up was generated, once, and what it calls is
      known.  The functions known before each one are the roots and what those before it call. */
  ghost predicate AllHandled(program: Program, roots: set<Decl>, foreign: set<Decl>, minted: seq<Mint>,
                             names: map<Decl, string>, taken: set<Decl>, processes: seq<Generated>)
  {
    && names.Keys == roots + Called(program, processes)
    && AllRight(program, roots, foreign, minted, names, processes)
    && AllTaken(taken, processes)
    && AllGenerated(program, taken, processes)
    && CallsKnown(program, names, taken)
  }

  /** Just functions that were taken up are generated, each once. */
  ghost predicate AllTaken(taken: set<Decl>, processes: seq<Generated>) {
    && (forall i :: 0 <= i < |processes| ==> processes[i].fn in taken)
    && (forall i, j :: 0 <= i < j < |processes| ==> processes[i].fn != processes[j].fn)
  }

  ghost predicate CallsKnown(program: Program, names: map<Decl, string>, taken: set<Decl>) {
    forall f, i :: f in taken && f in program && 0 <= i < |program[f].Calls()| ==> program[f].Calls()[i] in names
  }

  lemma TakenOneMore(program: Program, names: map<Decl, string>, names': map<Decl, string>, taken: set<Decl>,
                     processes: seq<Generated>, g: Generated)
    requires AllTaken(taken, processes) && CallsKnown(program, names, taken) && g.fn !in taken && g.fn in program
    requires names.Keys + Elements(program[g.fn].Calls()) == names'.Keys
    ensures AllTaken(taken + {g.fn}, processes + [g]) && CallsKnown(program, names', taken + {g.fn})
  {
    forall f, i | f in taken + {g.fn} && f in program && 0 <= i < |program[f].Calls()|
      ensures program[f].Calls()[i] in names'
    {
      assert program[f].Calls()[i] in names'.Keys;
    }
  }

  ghost predicate AllGenerated(program: Program, taken: set<Decl>, processes: seq<Generated>) {
    forall f :: f in taken && f in program && program[f].body.Calling? ==> IsGenerated(processes, f)
  }

  lemma {:induction false} AllGeneratedSnoc(program: Program, taken: set<Decl>, processes: seq<Generated>, g: Generated)
    requires AllGenerated(program, taken, processes)
    ensures AllGenerated(program, taken + {g.fn}, processes + [g])
  {
    var processes' := processes + [g];
    forall f | f in taken + {g.fn} && f in program && program[f].body.Calling? ensures IsGenerated(processes', f) {
      if f == g.fn {
        assert processes'[|processes|].fn == f;
      } else {
        assert IsGenerated(processes, f);
        var i :| 0 <= i < |processes| && processes[i].fn == f;
        assert processes'[i].fn == f;
      }
    }
  }

  lemma {:induction false} GeneratedOne(program: Program, roots: set<Decl>, foreign: set<Decl>, minted: seq<Mint>,
                                        minted': seq<Mint>, names: map<Decl, string>, names': map<Decl, string>,
                                        taken: set<Decl>, processes: seq<Generated>, f: Decl, calls: seq<string>)
    requires AllHandled(program, roots, foreign, minted, names, taken, processes)
    requires f in program && program[f].body.Calling? && f !in taken && f in names
    requires names'.Keys == names.Keys + Elements(program[f].Calls())
    requires Kept(names, names') && NewMinted(minted, minted', names, names')
    requires Named(program, names.Keys, foreign, minted', names', program[f].Calls(), calls)
    ensures AllHandled(program, roots, foreign, minted', names', taken + {f}, processes + [Generated(f, names[f], calls)])
  {
    var g := Generated(f, names[f], calls);
    CalledSnoc(program, processes, g);
    hide Right, AllRight, Called, Named, NewMinted;
    AllRightStill(program, roots, foreign, minted, minted', names, names', processes);
    RightNow(program, names.Keys, foreign, minted', names', f, calls);
    AllRightSnoc(program, roots, foreign, minted', names', processes, g);
    AllGeneratedSnoc(program, taken, processes, g);
    TakenOneMore(program, names, names', taken, processes, g);
    hide AllGenerated, AllTaken, CallsKnown;
  }

  lemma CalledSnoc(program: Program, processes: seq<Generated>, g: Generated)
    requires g.fn in program
    ensures Called(program, processes + [g]) == Called(program, processes) + Elements(program[g.fn].Calls())
  {
    assert (processes + [g])[..|processes|] == processes;
  }

  lemma SkippedOne(program: Program, roots: set<Decl>, foreign: set<Decl>, minted: seq<Mint>, names: map<Decl, string>,
                   taken: set<Decl>, processes: seq<Generated>, f: Decl)
    requires AllHandled(program, roots, foreign, minted, names, taken, processes)
    requires f in program && program[f].body == NoBody
    ensures AllHandled(program, roots, foreign, minted, names, taken + {f}, processes)
  {
    hide AllRight, Called;
  }

  lemma RightStill(program: Program, known: set<Decl>, foreign: set<Decl>, minted: seq<Mint>, minted': seq<Mint>,
                   names: map<Decl, string>, names': map<Decl, string>, g: Generated)
    requires Right(program, known, foreign, minted, names, g)
    requires Kept(names, names') && NewMinted(minted, minted', names, names')
    ensures Right(program, known, foreign, minted', names', g)
  {
    var calls := program[g.fn].Calls();
    forall i | 0 <= i < |calls| && Misnamed(program, known, calls[i])
      ensures MintedFrom(minted', 0, g.calls[i]) && Unused(names', foreign, g.calls[i])
    {
      StillUnused(minted, minted', names, names', foreign, g.calls[i]);
    }
  }

  lemma StillUnused(minted: seq<Mint>, minted': seq<Mint>, names: map<Decl, string>, names': map<Decl, string>,
                    foreign: set<Decl>, name: string)
    requires MintedFrom(minted, 0, name) && Unused(names, foreign, name)
    requires Kept(names, names') && NewMinted(minted, minted', names, names')
    ensures MintedFrom(minted', 0, name) && Unused(names', foreign, name)
  {
    MintedStill(minted, minted', 0, 0, name);
    forall d | d in names' && d !in foreign ensures names'[d] != name {
      if d !in names { LaterDiffers(minted, minted', name, names'[d]); }
    }
  }

  lemma RightNow(program: Program, known: set<Decl>, foreign: set<Decl>, minted: seq<Mint>, names: map<Decl, string>,
                 f: Decl, calls: seq<string>)
    requires f in program && program[f].body.Calling? && f in names
    requires Named(program, known, foreign, minted, names, program[f].Calls(), calls)
    ensures Right(program, known, foreign, minted, names, Generated(f, names[f], calls))
  {
  }

  lemma MergeKeeps(local: map<Decl, string>, names: map<Decl, string>)
    ensures Kept(names, local + names)
  {
  }

  lemma AllDeclared(program: Program, merged: map<Decl, string>, names: map<Decl, string>, f: Decl)
    requires Declared(program) && f in program && names.Keys <= program.Keys
    requires merged.Keys == names.Keys + Elements(program[f].Calls())
    ensures merged.Keys <= program.Keys
  {
    CallsDeclared(program, f);
  }

  lemma CallsDeclared(program: Program, f: Decl)
    requires Declared(program) && f in program
    ensures forall c :: c in program[f].Calls() ==> c in program
  {
    forall c | c in program[f].Calls() ensures c in program {
      var i :| 0 <= i < |program[f].Calls()| && program[f].Calls()[i] == c;
    }
  }

  lemma IsLeast(program: Program, roots: set<Decl>, names: map<Decl, string>, taken: set<Decl>)
    requires roots <= taken == names.Keys && CallsKnown(program, names, taken)
    requires AllWanted(program, roots, names.Keys)
    ensures Least(program, roots, taken)
  {
  }

  /** Just functions that have to be generated are known. */
  ghost predicate AllWanted(program: Program, roots: set<Decl>, names: set<Decl>) {
    forall s :: ClosedUnder(program, roots, s) ==> names <= s
  }

  /** Calls of a function that has to be generated have to be generated. */
  lemma CallsWanted(program: Program, roots: set<Decl>, names: set<Decl>, f: Decl)
    requires AllWanted(program, roots, names) && f in names && f in program
    ensures AllWanted(program, roots, names + Elements(program[f].Calls()))
  {
  }

  /** The calls gone through so far have the name in the map of the body, `local`, or failing
      that the one in the module's map, `names`. */
  ghost predicate BodyNamed(program: Program, names: map<Decl, string>, minted0: seq<Mint>, minted: seq<Mint>,
                            local: map<Decl, string>, calls: seq<Decl>, callNames: seq<string>)
  {
    && |callNames| == |calls| && minted0 <= minted
    && (forall d :: d in local ==> MintedFrom(minted, |minted0|, local[d]) && d in calls)
    && (forall d :: d in local && d in names ==> d in program && program[d].isConstructor)
    && (forall d, e :: d in local && e in local && d != e ==> local[d] != local[e])
    && forall i :: 0 <= i < |calls| ==>
         if calls[i] in local then callNames[i] == local[calls[i]]
         else !Misnamed(program, names.Keys, calls[i]) && calls[i] in names && callNames[i] == names[calls[i]]
  }

  lemma NamedOneMore(program: Program, names: map<Decl, string>, minted0: seq<Mint>, minted: seq<Mint>, minted': seq<Mint>,
                     local: map<Decl, string>, local': map<Decl, string>, calls: seq<Decl>, callNames: seq<string>,
                     d: Decl, name: string)
    requires BodyNamed(program, names, minted0, minted, local, calls, callNames) && minted <= minted' && d in program
    requires if d in local then name == local[d] && local' == local
             else if d in names && !program[d].isConstructor then name == names[d] && local' == local
             else MintedFrom(minted', |minted|, name) && local' == local[d := name]
    ensures BodyNamed(program, names, minted0, minted', local', calls + [d], callNames + [name])
  {
    forall e | e in local' ensures MintedFrom(minted', |minted0|, local'[e]) {
      if e in local && local'[e] == local[e] {
        MintedStill(minted, minted', |minted0|, |minted0|, local[e]);
      } else {
        MintedStill(minted', minted', |minted|, |minted0|, name);
      }
    }
    forall e | e in local && d !in local && d in local' ensures local[e] != name {
      MintedStill(minted, minted, |minted0|, 0, local[e]);
      LaterDiffers(minted, minted', local[e], name);
    }
  }

  lemma MintedStill(minted: seq<Mint>, minted': seq<Mint>, from: nat, from': nat, name: string)
    requires minted <= minted' && from' <= from && MintedFrom(minted, from, name)
    ensures MintedFrom(minted', from', name)
  {
    var i :| from <= i < |minted| && minted[i].prefix == "_func_" && name == minted[i].Name(i);
    assert minted'[i] == minted[i];
  }

  /** What `BodyNamed` means once the entries of the body are added to the module's map. */
  lemma BodyIsNamed(program: Program, names: map<Decl, string>, minted0: seq<Mint>, minted: seq<Mint>,
                    local: map<Decl, string>, calls: seq<Decl>, callNames: seq<string>, foreign: set<Decl>)
    requires BodyNamed(program, names, minted0, minted, local, calls, callNames)
    requires AllMinted(minted0, names, foreign)
    ensures Named(program, names.Keys, foreign, minted, local + names, calls, callNames)
    ensures (local + names).Keys == names.Keys + Elements(calls)
    ensures AllMinted(minted, local + names, foreign) && NewMinted(minted0, minted, names, local + names)
  {
    forall i | 0 <= i < |calls| && Misnamed(program, names.Keys, calls[i])
      ensures MintedFrom(minted, 0, callNames[i]) && Unused(local + names, foreign, callNames[i])
    {
      NewNameUnused(program, names, minted0, minted, local, calls, callNames, foreign, calls[i]);
    }
    forall d | d in local + names && d !in foreign ensures MintedFrom(minted, 0, (local + names)[d]) {
      if d in names {
        MintedStill(minted0, minted, 0, 0, names[d]);
      } else {
        MintedStill(minted, minted, |minted0|, 0, local[d]);
      }
    }
    forall d | d in calls ensures d in (local + names).Keys {
      var i :| 0 <= i < |calls| && calls[i] == d;
    }
  }

  lemma NewNameUnused(program: Program, names: map<Decl, string>, minted0: seq<Mint>, minted: seq<Mint>,
                      local: map<Decl, string>, calls: seq<Decl>, callNames: seq<string>, foreign: set<Decl>, c: Decl)
    requires BodyNamed(program, names, minted0, minted, local, calls, callNames)
    requires AllMinted(minted0, names, foreign) && c in local && c in names
    ensures MintedFrom(minted, 0, local[c]) && Unused(local + names, foreign, local[c])
  {
    MintedStill(minted, minted, |minted0|, 0, local[c]);
    forall d | d in local + names && d !in foreign ensures (local + names)[d] != local[c] {
      if d in names { LaterDiffers(minted0, minted, names[d], local[c]); }
    }
  }

  /** `f` is the smallest of `keys` above `last`, if there is one. */
  ghost predicate IsNext(keys: set<Decl>, last: int, f: Decl, found: bool) {
    (found ==> f in keys && f > last) && forall d :: d in keys && d > last ==> found && f <= d
  }

  /** Those of `keys` that were not taken up are still ahead. */
  ghost predicate ToVisit(keys: set<Decl>, taken: set<Decl>, f: Decl, found: bool) {
    forall d :: d in keys && d !in taken ==> found && f <= d
  }

  lemma PassStarts(keys: set<Decl>, taken: set<Decl>, f: Decl, found: bool)
    requires IsNext(keys, -1, f, found)
    ensures ToVisit(keys, taken, f, found) && (found ==> f in keys)
  {
  }

  lemma PassOn(keys: set<Decl>, now: set<Decl>, taken: set<Decl>, taken': set<Decl>, f: Decl, f': Decl, found: bool)
    requires ToVisit(keys, taken, f, true) && keys <= now && taken + {f} <= taken' && IsNext(now, f, f', found)
    ensures ToVisit(keys, taken', f', found) && (found ==> f' in now && f' > f)
  {
  }

  lemma PassEnds(keys: set<Decl>, taken: set<Decl>, f: Decl, found: bool)
    requires ToVisit(keys, taken, f, found) && !found
    ensures keys <= taken
  {
  }

  class FunctionGenerator {
    const program: Program
    const methodecls: NewnameMap      // of the current body
    const allMethodecls: NewnameMap
    var generatedFunctions: set<Decl>
    var processes: seq<Generated>

    ghost predicate Valid()
      reads this, methodecls, allMethodecls
    {
      && Declared(program) && methodecls != allMethodecls
      && methodecls.Valid() && allMethodecls.Valid()
      && generatedFunctions <= allMethodecls.names.Keys <= program.Keys
    }

    constructor (program: Program, methodecls: NewnameMap, allMethodecls: NewnameMap)
      requires Declared(program) && methodecls != allMethodecls && methodecls.Valid() && allMethodecls.Valid()
      requires allMethodecls.names.Keys <= program.Keys
      ensures Valid() && generatedFunctions == {} && processes == []
      ensures this.program == program && this.methodecls == methodecls && this.allMethodecls == allMethodecls
    {
      this.program, this.methodecls, this.allMethodecls := program, methodecls, allMethodecls;
      generatedFunctions, processes := {}, [];
    }

    method FindFname(d: Decl) returns (name: string)
      requires Valid()
      ensures name == if d in methodecls.names then methodecls.names[d]
                      else if d in allMethodecls.names then allMethodecls.names[d] else ""
    {
      name := methodecls.FindEntryNewn(d);
      if name == "" {
        name := allMethodecls.FindEntryNewn(d);
      }
    }

    /** A call: a function that neither map knows gets a name.  For a constructor just the map
        of the body is asked. */
    method VisitCall(d: Decl) returns (name: string)
      requires Valid() && d in program && methodecls.prefix == "_func_"
      modifies methodecls
      ensures Valid() && methodecls.prefix == "_func_" && old(methodecls.minted) <= methodecls.minted
      ensures
        if d in old(methodecls.names) then
          name == old(methodecls.names)[d] && methodecls.names == old(methodecls.names)
        else if d in allMethodecls.names && !program[d].isConstructor then
          name == allMethodecls.names[d] && methodecls.names == old(methodecls.names)
        else
          && MintedFrom(methodecls.minted, |old(methodecls.minted)|, name)
          && methodecls.names == old(methodecls.names)[d := name]
          && NamedAfter(name, program[d].name, "_func_", |old(methodecls.minted)|)
          && methodecls.minted == old(methodecls.minted) + [Mint(program[d].name, "_func_")]
      ensures d in old(methodecls.names) || (d in allMethodecls.names && !program[d].isConstructor) ==>
        methodecls.minted == old(methodecls.minted)
    {
      name := "";
      if !program[d].isConstructor {
        name := FindFname(d);
      }
      if name == "" {
        name := methodecls.AddEntry(d, program[d].name);
      }
    }

    /** Goes through the calls of a body. */
    method RunBody(calls: seq<Decl>) returns (callNames: seq<string>)
      requires Valid() && forall c :: c in calls ==> c in program
      modifies methodecls
      ensures Valid() && old(methodecls.minted) <= methodecls.minted
      ensures BodyNamed(program, allMethodecls.names, old(methodecls.minted), methodecls.minted, methodecls.names,
                        calls, callNames)
    {
      methodecls.Clear();
      methodecls.SetPrefix("_func_");
      callNames := [];
      for i := 0 to |calls|
        invariant Valid() && methodecls.prefix == "_func_" && old(methodecls.minted) <= methodecls.minted
        invariant BodyNamed(program, allMethodecls.names, old(methodecls.minted), methodecls.minted, methodecls.names,
                            calls[..i], callNames)
      {
        ghost var minted, names := methodecls.minted, methodecls.names;
        var name := VisitCall(calls[i]);
        NamedOneMore(program, allMethodecls.names, old(methodecls.minted), minted, methodecls.minted, names,
                     methodecls.names, calls[..i], callNames, calls[i], name);
        assert calls[..i + 1] == calls[..i] + [calls[i]];
        callNames := callNames + [name];
      }
      assert calls[..|calls|] == calls;
    }

    ghost predicate Handled(roots: set<Decl>, foreign: set<Decl>)
      reads this, methodecls, allMethodecls
    {
      && AllHandled(program, roots, foreign, methodecls.minted, allMethodecls.names, generatedFunctions, processes)
      && AllMinted(methodecls.minted, allMethodecls.names, foreign)
    }

    ghost predicate Wanted(roots: set<Decl>)
      reads this, allMethodecls
    {
      AllWanted(program, roots, allMethodecls.names.Keys)
    }

    /** The body of `f`: the names of its calls, and what it calls becomes known. */
    method NameCalls(f: Decl, ghost foreign: set<Decl>) returns (calls: seq<string>)
      requires Valid() && f in allMethodecls.names && AllMinted(methodecls.minted, allMethodecls.names, foreign)
      modifies methodecls, allMethodecls
      ensures Valid() && Kept(old(allMethodecls.names), allMethodecls.names)
      ensures allMethodecls.names.Keys == old(allMethodecls.names).Keys + Elements(program[f].Calls())
      ensures AllMinted(methodecls.minted, allMethodecls.names, foreign)
      ensures NewMinted(old(methodecls.minted), methodecls.minted, old(allMethodecls.names), allMethodecls.names)
      ensures Named(program, old(allMethodecls.names).Keys, foreign, methodecls.minted, allMethodecls.names,
                    program[f].Calls(), calls)
    {
      ghost var names0, minted0 := allMethodecls.names, methodecls.minted;
      CallsDeclared(program, f);
      hide Declared, BodyNamed, AllMinted, NewMinted, NoneEmpty, Kept, Named, Elements, Function.Calls;
      calls := RunBody(program[f].Calls());
      BodyIsNamed(program, names0, minted0, methodecls.minted, methodecls.names, program[f].Calls(), calls, foreign);
      MergeKeeps(methodecls.names, names0);
      AllDeclared(program, methodecls.names + names0, names0, f);
      allMethodecls.InsertAll(methodecls.names);
    }

    /** Generates `f`, which was just taken up. */
    method GenerateBody(f: Decl, ghost taken: set<Decl>, ghost roots: set<Decl>, ghost foreign: set<Decl>)
      requires Valid() && Wanted(roots) && f in allMethodecls.names && program[f].body.Calling?
      requires f !in taken && generatedFunctions == taken + {f}
      requires AllHandled(program, roots, foreign, methodecls.minted, allMethodecls.names, taken, processes)
      requires AllMinted(methodecls.minted, allMethodecls.names, foreign)
      modifies this, methodecls, allMethodecls
      ensures Valid() && Handled(roots, foreign) && Wanted(roots) && Kept(old(allMethodecls.names), allMethodecls.names)
      ensures generatedFunctions == old(generatedFunctions)
    {
      ghost var names0, minted0 := allMethodecls.names, methodecls.minted;
      CallsWanted(program, roots, names0.Keys, f);
      KeptAll(names0, names0, names0);
      hide AllHandled, Declared, AllWanted, AllMinted, NewMinted, NoneEmpty, Named, Elements, Function.Calls;
      var calls := NameCalls(f, foreign);
      GeneratedOne(program, roots, foreign, minted0, methodecls.minted, names0, allMethodecls.names, taken, processes, f, calls);
      processes := processes + [Generated(f, allMethodecls.names[f], calls)];
    }

    method GenerateFunction(f: Decl, ghost roots: set<Decl>, ghost foreign: set<Decl>)
      requires Valid() && Handled(roots, foreign) && Wanted(roots) && f in allMethodecls.names && f !in generatedFunctions
      modifies this, methodecls, allMethodecls
      ensures Valid() && Handled(roots, foreign) && Wanted(roots) && Kept(old(allMethodecls.names), allMethodecls.names)
      ensures generatedFunctions == old(generatedFunctions) + {f}
    {
      ghost var taken := generatedFunctions;
      KeptAll(allMethodecls.names, allMethodecls.names, allMethodecls.names);
      hide AllHandled, Declared, AllWanted, AllMinted, NoneEmpty, Kept;
      generatedFunctions := generatedFunctions + {f};
      if program[f].body.Calling? {
        GenerateBody(f, taken, roots, foreign);
      } else {
        SkippedOne(program, roots, foreign, methodecls.minted, allMethodecls.names, taken, processes, f);
      }
    }

    /** The smallest function after `last` that is known by now. */
    method Next(last: int) returns (f: Decl, found: bool)
      ensures IsNext(allMethodecls.names.Keys, last, f, found)
    {
      f, found := 0, false;
      var keys := allMethodecls.names.Keys;
      while keys != {}
        invariant keys <= allMethodecls.names.Keys
        invariant found ==> f in allMethodecls.names && f > last
        invariant forall d :: d in allMethodecls.names && d > last && d !in keys ==> found && f <= d
      {
        var k :| k in keys;
        if k > last && (!found || k < f) {
          f, found := k, true;
        }
        keys := keys - {k};
      }
    }

    ghost function Above(last: int): set<Decl> {
      set d | d in program && d > last
    }

    lemma FewerAbove(last: int, f: Decl)
      requires f in program && f > last
      ensures Above(f) < Above(last)
    {
      assert f in Above(last) && f !in Above(f);
    }

    /** One pass over the map, which grows meanwhile: a function added behind the current one
        is left for the next pass. */
    method Pass(ghost roots: set<Decl>, ghost foreign: set<Decl>)
      requires Valid() && Handled(roots, foreign) && Wanted(roots)
      modifies this, methodecls, allMethodecls
      ensures Valid() && Handled(roots, foreign) && Wanted(roots) && Kept(old(allMethodecls.names), allMethodecls.names)
      ensures old(generatedFunctions) <= generatedFunctions && old(allMethodecls.names).Keys <= generatedFunctions
    {
      KeptAll(allMethodecls.names, allMethodecls.names, allMethodecls.names);
      hide AllHandled, AllMinted, AllWanted, Declared, NoneEmpty, Kept;
      var last: int := -1;
      var f: Decl, found: bool := Next(last);
      ghost var keys := allMethodecls.names.Keys;
      PassStarts(keys, generatedFunctions, f, found);
      hide IsNext, ToVisit, Above;
      while found
        invariant Valid() && Handled(roots, foreign) && Wanted(roots) && Kept(old(allMethodecls.names), allMethodecls.names)
        invariant old(generatedFunctions) <= generatedFunctions
        invariant found ==> f in allMethodecls.names && f > last
        invariant ToVisit(keys, generatedFunctions, f, found)
        decreases Above(last), found
      {
        ghost var names, taken, at := allMethodecls.names, generatedFunctions, f;
        if f !in generatedFunctions {
          GenerateFunction(f, roots, foreign);
        }
        KeptAll(old(allMethodecls.names), names, allMethodecls.names);
        FewerAbove(last, f);
        last := f;
        f, found := Next(last);
        PassOn(keys, allMethodecls.names.Keys, taken, generatedFunctions, at, f, found);
      }
      PassEnds(keys, generatedFunctions, f, found);
    }

    /** The functions that are taken up are the least set with the functions known at first and
        all functions called from bodies in the set; each that has a body is generated once, and
        its call sites have the right names, except those `Misnamed` describes, which have names
        that no function has.  (`foreign`: functions known at first by the name another map gave.) */
    method GenerateFunctions(ghost foreign: set<Decl>)
      requires Valid() && generatedFunctions == {} && processes == []
      requires AllMinted(methodecls.minted, allMethodecls.names, foreign)
      modifies this, methodecls, allMethodecls
      ensures Valid() && Handled(old(allMethodecls.names).Keys, foreign) && Kept(old(allMethodecls.names), allMethodecls.names)
      ensures Least(program, old(allMethodecls.names).Keys, generatedFunctions)
      ensures generatedFunctions == allMethodecls.names.Keys
    {
      ghost var roots := allMethodecls.names.Keys;
      NothingHandled(program, foreign, methodecls.minted, allMethodecls.names);
      KeptAll(allMethodecls.names, allMethodecls.names, allMethodecls.names);
      hide AllHandled, AllMinted, Least, AllWanted, Declared, NoneEmpty, Kept;
      while |allMethodecls.names| > |generatedFunctions|
        invariant Valid() && Handled(roots, foreign) && Wanted(roots) && Kept(old(allMethodecls.names), allMethodecls.names)
        decreases program.Keys - generatedFunctions
      {
        ghost var generated := generatedFunctions;
        Smaller(generated, allMethodecls.names);
        ghost var names := allMethodecls.names;
        Pass(roots, foreign);
        KeptAll(old(allMethodecls.names), names, allMethodecls.names);
        assert generated < generatedFunctions <= program.Keys;
      }
      SameSize(generatedFunctions, allMethodecls.names.Keys);
      KnownHandled(program, roots, foreign, methodecls.minted, allMethodecls.names, generatedFunctions, processes);
      IsLeast(program, roots, allMethodecls.names, generatedFunctions);
    }
  }

  lemma Smaller(s: set<Decl>, names: map<Decl, string>)
    requires |s| < |names| && s <= names.Keys
    ensures s < names.Keys
  {
    assert |s| < |names.Keys|;
    assert s != names.Keys;
  }

  lemma NothingHandled(program: Program, foreign: set<Decl>, minted: seq<Mint>, names: map<Decl, string>)
    ensures AllHandled(program, names.Keys, foreign, minted, names, {}, [])
    ensures AllWanted(program, names.Keys, names.Keys)
  {
  }

  lemma KnownHandled(program: Program, roots: set<Decl>, foreign: set<Decl>, minted: seq<Mint>, names: map<Decl, string>,
                     taken: set<Decl>, processes: seq<Generated>)
    requires AllHandled(program, roots, foreign, minted, names, taken, processes)
    ensures CallsKnown(program, names, taken) && roots <= names.Keys
  {
  }

  lemma {:induction false} SameSize(a: set<Decl>, b: set<Decl>)
    requires a <= b
    ensures |a| <= |b| && (|a| == |b| ==> a == b)
    decreases a
  {
    if a != {} {
      var x :| x in a;
      SameSize(a - {x}, b - {x});
    }
  }

  // ----- A module in which a constructor is called from two functions -----

  function TwoCalls(): Program {
    map[0 := Function("f", false, Calling([2])), 1 := Function("g", false, Calling([2])), 2 := Function("C", true, Calling([]))]
  }

  lemma {:induction false} CalledHas(program: Program, processes: seq<Generated>, i: nat, c: Decl)
    requires i < |processes| && processes[i].fn in program && c in program[processes[i].fn].Calls()
    ensures c in Called(program, processes)
  {
    if i < |processes| - 1 { CalledHas(program, processes[..|processes| - 1], i, c); }
  }

  /** In the function that is generated later the constructor is called by a name that no
      function has. */
  lemma {:induction false} LaterCallMisnamed(minted: seq<Mint>, names: map<Decl, string>, taken: set<Decl>, processes: seq<Generated>)
    returns (i: nat)
    requires AllHandled(TwoCalls(), {0, 1}, {}, minted, names, taken, processes) && 0 in taken && 1 in taken
    ensures i < |processes| && processes[i].fn <= 1 && |processes[i].calls| == 1
    ensures forall d :: d in names ==> names[d] != processes[i].calls[0]
  {
    var first;
    first, i := TwoGenerated(processes, taken);
    hide AllHandled, AllTaken, AllGenerated, CallsKnown, TwoCalls;
    TwoBodies(processes[first].fn);
    TwoBodies(processes[i].fn);
    CalledHas(TwoCalls(), processes[..i], first, 2);
    MisnamedCall(minted, names, {0, 1} + Called(TwoCalls(), processes[..i]), processes[i]);
  }

  lemma TwoBodies(f: Decl)
    requires f <= 1
    ensures f in TwoCalls() && TwoCalls()[f].Calls() == [2]
  {
  }

  lemma TwoGenerated(processes: seq<Generated>, taken: set<Decl>) returns (first: nat, i: nat)
    requires AllGenerated(TwoCalls(), taken, processes) && 0 in taken && 1 in taken
    ensures first < i < |processes| && processes[first].fn <= 1 && processes[i].fn <= 1
  {
    assert IsGenerated(processes, 0) && IsGenerated(processes, 1);
    var a: nat :| a < |processes| && processes[a].fn == 0;
    var b: nat :| b < |processes| && processes[b].fn == 1;
    first, i := if a < b then a else b, if a < b then b else a;
  }

  lemma MisnamedCall(minted: seq<Mint>, names: map<Decl, string>, known: set<Decl>, g: Generated)
    requires Right(TwoCalls(), known, {}, minted, names, g) && g.fn <= 1 && 2 in known
    ensures |g.calls| == 1 && forall d :: d in names ==> names[d] != g.calls[0]
  {
    TwoBodies(g.fn);
    assert Misnamed(TwoCalls(), known, TwoCalls()[g.fn].Calls()[0]);
  }

  method CallsMisnamed() returns (generator: FunctionGenerator, ghost i: nat)
    ensures i < |generator.processes| && |generator.processes[i].calls| == 1
    ensures forall d :: d in generator.allMethodecls.names ==>
              generator.allMethodecls.names[d] != generator.processes[i].calls[0]
  {
    var methodecls := new NewnameMap("_func_");
    var allMethodecls := new NewnameMap("_func_");
    var f := methodecls.AddEntry(0, "f");
    var g := methodecls.AddEntry(1, "g");
    assert MintedFrom(methodecls.minted, 0, f) by { assert methodecls.minted[0].Name(0) == f; }
    assert MintedFrom(methodecls.minted, 0, g) by { assert methodecls.minted[1].Name(1) == g; }
    allMethodecls.InsertAll(methodecls.names);
    generator := new FunctionGenerator(TwoCalls(), methodecls, allMethodecls);
    ghost var roots := allMethodecls.names.Keys;
    assert roots == {0, 1};
    generator.GenerateFunctions({});
    i := LaterCallMisnamed(methodecls.minted, allMethodecls.names, generator.generatedFunctions, generator.processes);
  }
}
