/** The text form of hcode, and a reader for it.

The operations are an enumeration whose names are printed; `ops` are these names in the order
of the enumeration.  Being distinct C++ identifiers they are distinct words. */
module HcodeText {
  import opened Sequences

  /** What a reader made of some words, and the words that are left. */
  datatype Parsed<T> = Failed | Parsed(value: T, rest: seq<string>)

  /** A tree of hcode without null children. */
  datatype HNode = HNode(op: nat, name: string, children: seq<HNode>)

  predicate IsWhite(c: char) {
    c == ' ' || c == '\n' || c == '\t' || c == '\r'
  }

  predicate IsWord(s: string) {
    s != [] && forall c :: c in s ==> !IsWhite(c)
  }

  predicate OpsOk(ops: seq<string>) {
    && ops != []
    && (forall i :: 0 <= i < |ops| ==> IsWord(ops[i]) && ops[i] != "]")
    && forall i, j :: 0 <= i < j < |ops| ==> ops[i] != ops[j]
  }

  predicate Typed(ops: seq<string>, t: HNode) {
    t.op < |ops| && forall i :: 0 <= i < |t.children| ==> Typed(ops, t.children[i])
  }

  /** The names that can be read back. */
  predicate Readable(t: HNode) {
    && (forall c :: c in t.name ==> !IsWhite(c)) && t.name != "NONAME"
    && forall i :: 0 <= i < |t.children| ==> Readable(t.children[i])
  }

  function Indent(n: nat): string {
    seq(n, i => ' ')
  }

  function Print(ops: seq<string>, t: HNode, indent: nat): string
    requires Typed(ops, t)
    decreases t, 0
  {
    Indent(indent) + (ops[t.op] + (" " + ((if t.name == "" then " NONAME" else t.name) + List(ops, t, indent))))
  }

  function List(ops: seq<string>, t: HNode, indent: nat): string
    requires Typed(ops, t)
    decreases t.children, 2
  {
    if t.children == [] then " NOLIST\n"
    else " [\n" + (PrintAll(ops, t.children, indent + 2) + (Indent(indent) + "]\n"))
  }

  function PrintAll(ops: seq<string>, ts: seq<HNode>, indent: nat): string
    requires forall i :: 0 <= i < |ts| ==> Typed(ops, ts[i])
    decreases ts, 1
  {
    if ts == [] then "" else Print(ops, ts[0], indent) + PrintAll(ops, ts[1..], indent)
  }

  // ----- The layout -----

  /** The lines of the text: one for each node and one for each closing bracket, indented by two
      spaces more than the line of its parent. */
  function Lines(ops: seq<string>, t: HNode, indent: nat): seq<string>
    requires Typed(ops, t)
    decreases t, 0
  {
    [Head(ops, t, indent)] + if t.children == [] then [] else LinesAll(ops, t.children, indent + 2) + [Spaces(indent) + "]"]
  }

  function Head(ops: seq<string>, t: HNode, indent: nat): string
    requires t.op < |ops|
  {
    Spaces(indent) +
    (ops[t.op] + (" " + ((if t.name == "" then " NONAME" else t.name) + if t.children == [] then " NOLIST" else " [")))
  }

  function LinesAll(ops: seq<string>, ts: seq<HNode>, indent: nat): seq<string>
    requires forall i :: 0 <= i < |ts| ==> Typed(ops, ts[i])
    decreases ts, 1
  {
    if ts == [] then [] else Lines(ops, ts[0], indent) + LinesAll(ops, ts[1..], indent)
  }

  function Spaces(n: nat): string {
    if n == 0 then "" else " " + Spaces(n - 1)
  }

  function Joined(lines: seq<string>): string {
    if lines == [] then "" else lines[0] + ("\n" + Joined(lines[1..]))
  }

  lemma {:induction false} SpacesIndent(n: nat)
    ensures Spaces(n) == Indent(n)
  {
    if n > 0 {
      SpacesIndent(n - 1);
      assert Indent(n) == " " + Indent(n - 1);
    }
  }

  lemma {:induction false} JoinedAppend(a: seq<string>, b: seq<string>)
    ensures Joined(a + b) == Joined(a) + Joined(b)
    decreases |a|
  {
    if a == [] {
      assert a + b == b;
    } else {
      assert (a + b)[1..] == a[1..] + b;
      JoinedAppend(a[1..], b);
      Regroup("\n", Joined(a[1..]), Joined(b));
      Regroup(a[0], "\n" + Joined(a[1..]), Joined(b));
    }
  }

  lemma JoinedOne(line: string)
    ensures Joined([line]) == line + "\n"
  {
    assert [line][1..] == [];
    NothingAdded("\n");
  }

  /** The printed text, line by line. */
  lemma {:induction false} PrintIsLines(ops: seq<string>, t: HNode, indent: nat)
    requires Typed(ops, t)
    ensures Print(ops, t, indent) == Joined(Lines(ops, t, indent))
    decreases t, 1
  {
    HeadEnds(ops, t, indent);
    JoinedOne(Head(ops, t, indent));
    if t.children == [] {
      NothingAdded([Head(ops, t, indent)]);
      hide Print, Head, Joined;
    } else {
      var close := Spaces(indent) + "]";
      var all := LinesAll(ops, t.children, indent + 2);
      PrintAllIsLines(ops, t.children, indent + 2);
      hide Print, Head, Joined, PrintAll, LinesAll;
      JoinedOne(close);
      JoinedAppend(all, [close]);
      JoinedAppend([Head(ops, t, indent)], all + [close]);
      SpacesIndent(indent);
      Regroup(Spaces(indent), "]", "\n");
      assert "]" + "\n" == "]\n";
    }
  }

  /** The head line, and what is printed behind it. */
  lemma HeadEnds(ops: seq<string>, t: HNode, indent: nat)
    requires Typed(ops, t)
    ensures Print(ops, t, indent) == Head(ops, t, indent) + "\n" +
            if t.children == [] then ""
            else PrintAll(ops, t.children, indent + 2) + (Indent(indent) + "]\n")
  {
    SpacesIndent(indent);
    var name := if t.name == "" then " NONAME" else t.name;
    var last := if t.children == [] then " NOLIST" else " [";
    var rest := if t.children == [] then "" else PrintAll(ops, t.children, indent + 2) + (Indent(indent) + "]\n");
    assert List(ops, t, indent) == (last + "\n") + rest by {
      assert " NOLIST" + "\n" == " NOLIST\n" && " [" + "\n" == " [\n";
      NothingAdded(" NOLIST\n");
    }
    var end := "\n" + rest;
    HeadParts(Spaces(indent), ops[t.op], name, last, "\n", rest);
    hide Indent, PrintAll, List, Spaces;
  }

  lemma HeadParts(a: string, b: string, c: string, d: string, e: string, f: string)
    ensures a + (b + (" " + (c + ((d + e) + f)))) == (a + (b + (" " + (c + d)))) + e + f
  {
    Regroup(d, e, f);
    Regroup(c, d, e + f);
    Regroup(" ", c + d, e + f);
    Regroup(b, " " + (c + d), e + f);
    Regroup(a, b + (" " + (c + d)), e + f);
    Regroup(a + (b + (" " + (c + d))), e, f);
  }

  lemma {:induction false} PrintAllIsLines(ops: seq<string>, ts: seq<HNode>, indent: nat)
    requires forall i :: 0 <= i < |ts| ==> Typed(ops, ts[i])
    ensures PrintAll(ops, ts, indent) == Joined(LinesAll(ops, ts, indent))
    decreases ts, 2
  {
    if ts != [] {
      PrintIsLines(ops, ts[0], indent);
      PrintAllIsLines(ops, ts[1..], indent);
      hide Print, Joined, Lines;
      JoinedAppend(Lines(ops, ts[0], indent), LinesAll(ops, ts[1..], indent));
    }
  }

  /** The first operation with this name, or the last of all. */
  method Str2HdlOpEnum(ops: seq<string>, st: string) returns (op: nat)
    requires ops != []
    ensures op == OpOf(ops, st)
    ensures if st in ops then op < |ops| && ops[op] == st && forall i :: 0 <= i < op ==> ops[i] != st else op == |ops| - 1
  {
    for i := 0 to |ops|
      invariant OpOf(ops, st) == OpFrom(ops, st, i)
      invariant forall j :: 0 <= j < i ==> ops[j] != st
    {
      if ops[i] == st {
        return i;
      }
    }
    return |ops| - 1;
  }

  function OpFrom(ops: seq<string>, st: string, i: nat): (op: nat)
    requires ops != [] && i <= |ops|
    ensures op < |ops|
    decreases |ops| - i
  {
    if i == |ops| then |ops| - 1 else if ops[i] == st then i else OpFrom(ops, st, i + 1)
  }

  function OpOf(ops: seq<string>, st: string): nat
    requires ops != []
  {
    OpFrom(ops, st, 0)
  }

  lemma {:induction false} OpFromName(ops: seq<string>, op: nat, i: nat)
    requires OpsOk(ops) && i <= op < |ops|
    ensures OpFrom(ops, ops[op], i) == op
    decreases op - i
  {
    if i < op { OpFromName(ops, op, i + 1); }
  }

  // ----- The reader: words first, then trees -----

  function WordLength(s: string): (n: nat)
    ensures n <= |s|
  {
    if s == [] || IsWhite(s[0]) then 0 else 1 + WordLength(s[1..])
  }

  /** The text cut at white space. */
  function Words(s: string): seq<string>
    decreases |s|
  {
    if s == [] then []
    else if IsWhite(s[0]) then Words(s[1..])
    else [s[..WordLength(s)]] + Words(s[WordLength(s)..])
  }

  /** One tree from the front of the words, and what is left of them. */
  function Read(ops: seq<string>, ws: seq<string>): (r: Parsed<HNode>)
    requires ops != []
    ensures r.Parsed? ==> |r.rest| < |ws|
    decreases |ws|, 0
  {
    if |ws| < 3 then Failed
    else
      var op, name := OpOf(ops, ws[0]), if ws[1] == "NONAME" then "" else ws[1];
      if ws[2] == "NOLIST" then Parsed(HNode(op, name, []), ws[3..])
      else if ws[2] != "[" then Failed
      else match ReadAll(ops, ws[3..])
           case Failed => Failed
           case Parsed(children, rest) => Parsed(HNode(op, name, children), rest)
  }

  /** Trees up to the closing bracket. */
  function ReadAll(ops: seq<string>, ws: seq<string>): (r: Parsed<seq<HNode>>)
    requires ops != []
    ensures r.Parsed? ==> |r.rest| < |ws|
    decreases |ws|, 1
  {
    if ws == [] then Failed
    else if ws[0] == "]" then Parsed([], ws[1..])
    else match Read(ops, ws)
         case Failed => Failed
         case Parsed(first, rest) =>
           match ReadAll(ops, rest)
           case Failed => Failed
           case Parsed(others, rest') => Parsed([first] + others, rest')
  }

  /** The words of the text form. */
  function Tokens(ops: seq<string>, t: HNode): seq<string>
    requires Typed(ops, t)
    decreases t, 0
  {
    [ops[t.op], if t.name == "" then "NONAME" else t.name] +
    (if t.children == [] then ["NOLIST"] else ["["] + (TokensAll(ops, t.children) + ["]"]))
  }

  function TokensAll(ops: seq<string>, ts: seq<HNode>): seq<string>
    requires forall i :: 0 <= i < |ts| ==> Typed(ops, ts[i])
    decreases ts, 1
  {
    if ts == [] then [] else Tokens(ops, ts[0]) + TokensAll(ops, ts[1..])
  }

  lemma {:induction false} WordLengthOf(w: string, s: string)
    requires (forall c :: c in w ==> !IsWhite(c)) && (s == [] || IsWhite(s[0]))
    ensures WordLength(w + s) == |w|
  {
    if w == [] {
      assert w + s == s;
    } else {
      assert (w + s)[1..] == w[1..] + s && w[0] in w;
      WordLengthOf(w[1..], s);
    }
  }

  lemma WordsWord(w: string, s: string)
    requires IsWord(w) && s != [] && IsWhite(s[0])
    ensures Words(w + s) == [w] + Words(s)
  {
    WordLengthOf(w, s);
    assert w[0] in w && (w + s)[..|w|] == w && (w + s)[|w|..] == s;
  }

  lemma WordsWhite(c: char, s: string)
    requires IsWhite(c)
    ensures Words([c] + s) == Words(s)
  {
    assert ([c] + s)[1..] == s;
  }

  lemma {:induction false} WordsIndent(n: nat, s: string)
    ensures Words(Indent(n) + s) == Words(s)
  {
    if n == 0 {
      assert Indent(n) + s == s;
    } else {
      assert Indent(n) + s == [' '] + (Indent(n - 1) + s);
      WordsWhite(' ', Indent(n - 1) + s);
      WordsIndent(n - 1, s);
    }
  }

  /** No name has white space. */
  predicate Spaceless(t: HNode) {
    (forall c :: c in t.name ==> !IsWhite(c)) && forall i :: 0 <= i < |t.children| ==> Spaceless(t.children[i])
  }

  function Tail(ops: seq<string>, t: HNode, indent: nat, s: string): string
    requires Typed(ops, t)
  {
    if t.children == [] then " NOLIST\n" + s
    else " [\n" + (PrintAll(ops, t.children, indent + 2) + (Indent(indent) + ("]\n" + s)))
  }

  lemma PrintParts(ops: seq<string>, t: HNode, indent: nat, s: string)
    requires Typed(ops, t)
    ensures Print(ops, t, indent) + s ==
            Indent(indent) + (ops[t.op] + ([' '] + NamePart(t.name, Tail(ops, t, indent, s))))
  {
    var name := if t.name == "" then " NONAME" else t.name;
    var list := List(ops, t, indent);
    ListParts(ops, t, indent, s);
    NameParts(t.name, list + s);
    hide List, NamePart, Tail, Indent;
    Regroup(Indent(indent), ops[t.op] + (" " + (name + list)), s);
    Regroup(ops[t.op], " " + (name + list), s);
    Regroup(" ", name + list, s);
    Regroup(name, list, s);
  }

  lemma ListParts(ops: seq<string>, t: HNode, indent: nat, s: string)
    requires Typed(ops, t)
    ensures List(ops, t, indent) + s == Tail(ops, t, indent, s)
  {
    hide Indent, PrintAll;
    if t.children != [] {
      var all := PrintAll(ops, t.children, indent + 2);
      Regroup(" [\n", all + (Indent(indent) + "]\n"), s);
      Regroup(all, Indent(indent) + "]\n", s);
      Regroup(Indent(indent), "]\n", s);
    }
  }

  lemma NameParts(name: string, tail: string)
    ensures (if name == "" then " NONAME" else name) + tail == NamePart(name, tail)
  {
    Regroup([' '], "NONAME", tail);
    assert [' '] + "NONAME" == " NONAME";
  }

  /** The words of the printed text are the tokens of the tree. */
  lemma {:induction false} WordsOfPrint(ops: seq<string>, t: HNode, indent: nat, s: string)
    requires OpsOk(ops) && Typed(ops, t) && Spaceless(t)
    ensures Words(Print(ops, t, indent) + s) == Tokens(ops, t) + Words(s)
    decreases t, 1
  {
    var tail := Tail(ops, t, indent, s);
    WordsOfTail(ops, t, indent, s);
    PrintParts(ops, t, indent, s);
    var rest := NamePart(t.name, tail);
    WordsOfName(t.name, tail);
    WordsOfHead(ops[t.op], indent, rest);
    TokensThen(ops, t, Words(s));
    hide *;
  }

  lemma TokensThen(ops: seq<string>, t: HNode, ws: seq<string>)
    requires Typed(ops, t)
    ensures Tokens(ops, t) + ws ==
            [ops[t.op]] + ([if t.name == "" then "NONAME" else t.name] +
              ((if t.children == [] then ["NOLIST"] else ["["] + (TokensAll(ops, t.children) + ["]"])) + ws))
  {
    hide TokensAll;
  }

  function NamePart(name: string, tail: string): string {
    if name == "" then [' '] + ("NONAME" + tail) else name + tail
  }

  lemma WordsOfName(name: string, tail: string)
    requires (forall c :: c in name ==> !IsWhite(c)) && tail != [] && IsWhite(tail[0])
    ensures Words(NamePart(name, tail)) == [if name == "" then "NONAME" else name] + Words(tail)
  {
    hide Words;
    if name == "" {
      WordsWhite(' ', "NONAME" + tail);
      WordsWord("NONAME", tail);
    } else {
      WordsWord(name, tail);
    }
  }

  lemma WordsOfHead(op: string, indent: nat, rest: string)
    requires IsWord(op)
    ensures Words(Indent(indent) + (op + ([' '] + rest))) == [op] + Words(rest)
  {
    hide Words;
    WordsWhite(' ', rest);
    WordsWord(op, [' '] + rest);
    WordsIndent(indent, op + ([' '] + rest));
  }

  lemma {:induction false} WordsOfTail(ops: seq<string>, t: HNode, indent: nat, s: string)
    requires OpsOk(ops) && Typed(ops, t) && Spaceless(t)
    ensures var tail := Tail(ops, t, indent, s);
            && tail != [] && IsWhite(tail[0])
            && Words(tail) == (if t.children == [] then ["NOLIST"] else ["["] + (TokensAll(ops, t.children) + ["]"])) + Words(s)
    decreases t, 0
  {
    TailParts(ops, t, indent, s);
    if t.children == [] {
      hide *;
      WordsLine("NOLIST", s);
    } else {
      var close := Indent(indent) + ("]" + (['\n'] + s));
      WordsOfPrintAll(ops, t.children, indent + 2, close);
      hide *;
      WordsOfList(PrintAll(ops, t.children, indent + 2), TokensAll(ops, t.children), indent, s);
    }
  }

  lemma WordsOfList(list: string, tokens: seq<string>, indent: nat, s: string)
    requires var close := Indent(indent) + ("]" + (['\n'] + s)); Words(list + close) == tokens + Words(close)
    ensures Words([' '] + ("[" + (['\n'] + (list + (Indent(indent) + ("]" + (['\n'] + s)))))))
            == ["["] + (tokens + ["]"]) + Words(s)
  {
    hide *;
    var close := "]" + (['\n'] + s);
    WordsLine("[", list + (Indent(indent) + close));
    WordsIndent(indent, close);
    WordsLine("]", s);
    assert ["["] + (tokens + (["]"] + Words(s))) == ["["] + (tokens + ["]"]) + Words(s);
  }

  lemma TailParts(ops: seq<string>, t: HNode, indent: nat, s: string)
    requires Typed(ops, t)
    ensures Tail(ops, t, indent, s) ==
            if t.children == [] then [' '] + ("NOLIST" + (['\n'] + s))
            else [' '] + ("[" + (['\n'] + (PrintAll(ops, t.children, indent + 2) + (Indent(indent) + ("]" + (['\n'] + s))))))
  {
    assert "]\n" + s == "]" + (['\n'] + s);
  }

  /** A word at the end of a line. */
  lemma WordsLine(w: string, s: string)
    requires w == "NOLIST" || w == "[" || w == "]"
    ensures Words(w + (['\n'] + s)) == [w] + Words(s)
    ensures Words([' '] + (w + (['\n'] + s))) == [w] + Words(s)
  {
    WordsWord(w, ['\n'] + s);
    WordsWhite('\n', s);
    WordsWhite(' ', w + (['\n'] + s));
  }

  lemma {:induction false} WordsOfPrintAll(ops: seq<string>, ts: seq<HNode>, indent: nat, s: string)
    requires OpsOk(ops) && forall i :: 0 <= i < |ts| ==> Typed(ops, ts[i]) && Spaceless(ts[i])
    ensures Words(PrintAll(ops, ts, indent) + s) == TokensAll(ops, ts) + Words(s)
    decreases ts, 2
  {
    if ts == [] {
      assert PrintAll(ops, ts, indent) + s == s;
    } else {
      var rest := PrintAll(ops, ts[1..], indent) + s;
      assert PrintAll(ops, ts, indent) == Print(ops, ts[0], indent) + PrintAll(ops, ts[1..], indent);
      assert TokensAll(ops, ts) == Tokens(ops, ts[0]) + TokensAll(ops, ts[1..]);
      assert Typed(ops, ts[0]) && Spaceless(ts[0]);
      hide Words, Print, PrintAll, Tokens, TokensAll, Typed, Spaceless;
      assert PrintAll(ops, ts, indent) + s == Print(ops, ts[0], indent) + rest;
      WordsOfPrint(ops, ts[0], indent, rest);
      WordsOfPrintAll(ops, ts[1..], indent, s);
    }
  }

  /** The tokens of a tree are read as this tree. */
  lemma {:induction false} ReadTokens(ops: seq<string>, t: HNode, ws: seq<string>)
    requires OpsOk(ops) && Typed(ops, t) && Readable(t)
    ensures Read(ops, Tokens(ops, t) + ws) == Parsed(t, ws)
    decreases t, 0
  {
    OpFromName(ops, t.op, 0);
    TokensSplit(ops, t, ws);
    if t.children != [] { ReadTokensAll(ops, t.children, ws); }
    hide Tokens, TokensAll, ReadAll, Typed;
  }

  lemma TokensSplit(ops: seq<string>, t: HNode, ws: seq<string>)
    requires Typed(ops, t)
    ensures var all := Tokens(ops, t) + ws;
            && |all| >= 3 && all[0] == ops[t.op] && all[1] == (if t.name == "" then "NONAME" else t.name)
            && all[2] == (if t.children == [] then "NOLIST" else "[")
            && all[3..] == if t.children == [] then ws else TokensAll(ops, t.children) + (["]"] + ws)
  {
    TokensThen(ops, t, ws);
    hide Tokens, TokensAll;
    if t.children != [] {
      Regroup(["["], TokensAll(ops, t.children) + ["]"], ws);
      Regroup(TokensAll(ops, t.children), ["]"], ws);
    }
    ThreeFirst(ops[t.op], if t.name == "" then "NONAME" else t.name, if t.children == [] then "NOLIST" else "[",
               if t.children == [] then ws else TokensAll(ops, t.children) + (["]"] + ws));
  }

  lemma ThreeFirst(a: string, b: string, c: string, rest: seq<string>)
    ensures var all := [a] + ([b] + ([c] + rest));
            |all| >= 3 && all[0] == a && all[1] == b && all[2] == c && all[3..] == rest
  {
  }

  lemma {:induction false} ReadTokensAll(ops: seq<string>, ts: seq<HNode>, ws: seq<string>)
    requires OpsOk(ops) && forall i :: 0 <= i < |ts| ==> Typed(ops, ts[i]) && Readable(ts[i])
    ensures ReadAll(ops, TokensAll(ops, ts) + (["]"] + ws)) == Parsed(ts, ws)
    decreases ts, 1
  {
    var all := TokensAll(ops, ts) + (["]"] + ws);
    if ts == [] {
      assert all == ["]"] + ws && all[1..] == ws;
    } else {
      var rest := TokensAll(ops, ts[1..]) + (["]"] + ws);
      assert all == Tokens(ops, ts[0]) + rest;
      assert all[0] == ops[ts[0].op];
      ReadTokens(ops, ts[0], rest);
      ReadTokensAll(ops, ts[1..], ws);
      hide Read, Tokens, TokensAll;
      assert ts == [ts[0]] + ts[1..];
    }
  }

  lemma ReadableIsSpaceless(t: HNode)
    requires Readable(t)
    ensures Spaceless(t)
  {
  }

  lemma {:induction false} WordsAreWords(s: string)
    ensures forall w :: w in Words(s) ==> IsWord(w)
    decreases |s|
  {
    if s != [] && IsWhite(s[0]) {
      WordsAreWords(s[1..]);
    } else if s != [] {
      FirstWord(s);
      WordsAreWords(s[WordLength(s)..]);
    }
  }

  lemma {:induction false} FirstWord(s: string)
    ensures forall i :: 0 <= i < WordLength(s) ==> !IsWhite(s[i])
  {
    if s != [] && !IsWhite(s[0]) { FirstWord(s[1..]); }
  }

  /** Whatever is read has names that can be read. */
  lemma {:induction false} ReadIsReadable(ops: seq<string>, ws: seq<string>)
    requires ops != [] && forall w :: w in ws ==> IsWord(w)
    ensures var r := Read(ops, ws); r.Parsed? ==> Readable(r.value) && forall w :: w in r.rest ==> IsWord(w)
    decreases |ws|, 0
  {
    if |ws| >= 3 {
      var rest := ws[3..];
      forall w | w in rest ensures IsWord(w) {
        assert w in ws;
      }
      assert ws[1] in ws;
      ReadAllIsReadable(ops, rest);
    }
    hide IsWord, ReadAll, OpOf;
  }

  lemma {:induction false} ReadAllIsReadable(ops: seq<string>, ws: seq<string>)
    requires ops != [] && forall w :: w in ws ==> IsWord(w)
    ensures var r := ReadAll(ops, ws);
            r.Parsed? ==> (forall i :: 0 <= i < |r.value| ==> Readable(r.value[i])) && forall w :: w in r.rest ==> IsWord(w)
    decreases |ws|, 1
  {
    if ws != [] && ws[0] != "]" {
      ReadIsReadable(ops, ws);
      var first := Read(ops, ws);
      if first.Parsed? {
        ReadAllIsReadable(ops, first.rest);
        var others := ReadAll(ops, first.rest);
        if others.Parsed? {
          var all := [first.value] + others.value;
          assert ReadAll(ops, ws) == Parsed(all, others.rest);
          forall i | 0 <= i < |all| ensures Readable(all[i]) {
            assert i > 0 ==> all[i] == others.value[i - 1];
          }
        }
      }
    }
  }

  /** A reader recovers just the printed tree if and only if no name in it has white space or
      is NONAME. */
  lemma {:induction false} PrintedIsReadIff(ops: seq<string>, t: HNode, indent: nat)
    requires OpsOk(ops) && Typed(ops, t)
    ensures Read(ops, Words(Print(ops, t, indent))) == Parsed(t, []) <==> Readable(t)
  {
    hide Print, Words, Read;
    if Readable(t) {
      ReadableIsSpaceless(t);
      WordsOfPrint(ops, t, indent, "");
      assert Print(ops, t, indent) + "" == Print(ops, t, indent);
      assert Words("") == [] by { NoWords(); }
      ReadTokens(ops, t, []);
    }
    WordsAreWords(Print(ops, t, indent));
    ReadIsReadable(ops, Words(Print(ops, t, indent)));
  }

  lemma NoWords()
    ensures Words("") == []
  {
  }
}
