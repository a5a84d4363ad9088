// The assembler's token trie, generated by printing every opcode.
module Parsers {
  import opened Words
  import opened Bits

  type Tokens = seq<string>

  // What the disassembler tells about an opcode.
  datatype Printer = Printer(text: u16 -> Tokens, needsExpansion: u16 -> bool)

  datatype Entry = Entry(opcode: u16, expansion: bool)

  datatype Opcode = Invalid | Valid(opcode: u16) | ValidWithExpansion(opcode: u16)

  predicate Contains(s: string, part: string) {
    if |s| < |part| then false else part <= s || Contains(s[1..], part)
  }

  // No token reports a word that is not an instruction.
  predicate Legible(tokens: Tokens) {
    forall i :: 0 <= i < |tokens| ==> !Contains(tokens[i], "[ERROR]")
  }

  // A string contains what stands in its middle, and nothing else.
  lemma {:induction false} ContainsMiddle(a: string, part: string, b: string)
    ensures Contains(a + part + b, part)
  {
    var s := a + part + b;
    if a == [] {
      assert s == part + b;
    } else {
      ContainsMiddle(a[1..], part, b);
      assert s[1..] == a[1..] + part + b;
    }
  }

  lemma {:induction false} MiddleOf(s: string, part: string) returns (a: string, b: string)
    requires Contains(s, part)
    ensures s == a + part + b
  {
    if part <= s {
      a, b := [], s[|part|..];
    } else {
      a, b := MiddleOf(s[1..], part);
      assert s == [s[0]] + s[1..];
      a := [s[0]] + a;
    }
  }

  // An error report anywhere in any token makes the list illegible, and only that.
  lemma ErrorIsIllegible(tokens: Tokens, i: nat, a: string, b: string)
    requires i < |tokens| && tokens[i] == a + "[ERROR]" + b
    ensures !Legible(tokens)
  {
    hide Contains;
    ContainsMiddle(a, "[ERROR]", b);
  }

  lemma IllegibleHasError(tokens: Tokens) returns (i: nat, a: string, b: string)
    requires !Legible(tokens)
    ensures i < |tokens| && tokens[i] == a + "[ERROR]" + b
  {
    hide Contains;
    i :| i < |tokens| && Contains(tokens[i], "[ERROR]");
    a, b := MiddleOf(tokens[i], "[ERROR]");
  }

  // Every bit set in a is set in b.
  predicate BitSubset(a: u16, b: u16) {
    AndNot(a, b) == 0
  }

  lemma BitSubsetIs(a: u16, b: u16)
    ensures BitSubset(a, b) <==> forall i :: 0 <= i < 16 ==> Bit(a, i) == 1 ==> Bit(b, i) == 1
  {
    hide Pow2, AndNot, Bit;
    Pow2Values();
    NothingLeft(a, b, 16);
  }

  // --- the table the trie stands for ---

  // What the first n opcodes enter: each token list keeps its first opcode.
  function Table(p: Printer, n: nat): map<Tokens, Entry>
    requires n <= 0x1_0000
  {
    if n == 0 then map[]
    else
      var t := Table(p, n - 1);
      var tokens := p.text(n - 1);
      if !Legible(tokens) || tokens in t then t else t[tokens := Entry(n - 1, p.needsExpansion(n - 1))]
  }

  // Whether entering opcode o meets the assertion about repeated token lists.
  predicate Asserted(p: Printer, o: u16) {
    var tokens := p.text(o);
    Legible(tokens) && tokens in Table(p, o) ==> BitSubset(Table(p, o)[tokens].opcode, o)
  }

  // o is the smallest error-free opcode below n that prints as ts.
  predicate FirstBelow(p: Printer, n: nat, ts: Tokens, o: u16)
    requires n <= 0x1_0000
  {
    && o < n && Legible(ts) && p.text(o) == ts
    && forall x: u16 :: x < o ==> p.text(x) != ts
  }

  lemma {:induction false} TableHoldsFirst(p: Printer, n: nat, ts: Tokens)
    requires n <= 0x1_0000
    ensures ts in Table(p, n) ==>
      && FirstBelow(p, n, ts, Table(p, n)[ts].opcode)
      && Table(p, n)[ts].expansion == p.needsExpansion(Table(p, n)[ts].opcode)
    ensures Legible(ts) && ts !in Table(p, n) ==> forall x: u16 :: x < n ==> p.text(x) != ts
  {
    hide Legible;
    if n > 0 {
      TableHoldsFirst(p, n - 1, ts);
    }
  }

  function Looked(t: map<Tokens, Entry>, ts: Tokens): Opcode {
    if ts !in t then Invalid
    else if t[ts].expansion then ValidWithExpansion(t[ts].opcode) else Valid(t[ts].opcode)
  }

  // --- the trie ---

  // What a node says about the tokens up to it.
  datatype Mark = Mark(end: bool, entry: Entry)

  function Ended(marks: map<Tokens, Mark>): map<Tokens, Entry> {
    map p | p in marks && marks[p].end :: marks[p].entry
  }

  lemma EndedSets(marks: map<Tokens, Mark>, p: Tokens, entry: Entry)
    ensures Ended(marks[p := Mark(true, entry)]) == Ended(marks)[p := entry]
  {
  }

  lemma EndedGrows(marks: map<Tokens, Mark>, p: Tokens, m: Mark)
    requires p !in marks && !m.end
    ensures Ended(marks[p := m]) == Ended(marks)
  {
  }

  class Node {
    var end: bool
    var opcode: u16
    var expansion: bool
    var children: map<string, Node>

    constructor ()
      ensures !end && children == map[]
    {
      end, opcode, expansion, children := false, 0, false, map[];
    }
  }

  // Paths from the root: one token further, and back.
  function Under(path: Tokens, token: string): Tokens {
    path + [token]
  }

  function Above(path: Tokens): Tokens
    requires path != []
  {
    path[..|path| - 1]
  }

  function Last(path: Tokens): string
    requires path != []
  {
    path[|path| - 1]
  }

  lemma AboveUnder(path: Tokens, token: string)
    ensures Under(path, token) != []
    ensures Above(Under(path, token)) == path && Last(Under(path, token)) == token
  {
  }

  type Nodes = map<Tokens, Node>
  type Kids = map<Tokens, map<string, Node>>

  // Every node has one path, the children of a node are at the paths one token
  // further, and every path but the root's extends one.
  ghost predicate Distinct(nodes: Nodes) {
    forall p, q :: p in nodes && q in nodes && nodes[p] == nodes[q] ==> p == q
  }

  ghost predicate Linked(nodes: Nodes, kids: Kids) {
    forall p, t :: p in kids && t in kids[p] ==> Under(p, t) in nodes && kids[p][t] == nodes[Under(p, t)]
  }

  ghost predicate Closed(nodes: Nodes, kids: Kids) {
    forall p :: p in nodes && p != [] ==> Above(p) in kids && Last(p) in kids[Above(p)]
  }

  ghost predicate Tree(nodes: Nodes, kids: Kids) {
    [] in nodes && kids.Keys == nodes.Keys && Distinct(nodes) && Linked(nodes, kids) && Closed(nodes, kids)
  }

  lemma NewPath(nodes: Nodes, kids: Kids, path: Tokens, token: string)
    requires Tree(nodes, kids) && path in nodes
    ensures token in kids[path] <==> Under(path, token) in nodes
    ensures token in kids[path] ==> kids[path][token] == nodes[Under(path, token)]
  {
  }

  function Added(kids: map<string, Node>, token: string, next: Node): map<string, Node> {
    kids[token := next]
  }

  function WithKid(kids: Kids, path: Tokens, token: string, next: Node): Kids
    requires path in kids
  {
    kids[path := Added(kids[path], token, next)][Under(path, token) := map[]]
  }

  lemma LinkedGrows(nodes: Nodes, kids: Kids, path: Tokens, token: string, next: Node)
    requires kids.Keys == nodes.Keys && Linked(nodes, kids) && path in nodes && Under(path, token) !in nodes
    ensures Linked(nodes[Under(path, token) := next], WithKid(kids, path, token, next))
  {
  }

  lemma KidsStay(kids: Kids, path: Tokens, token: string, next: Node, above: Tokens, last: string)
    requires path in kids && above in kids && last in kids[above] && above != Under(path, token)
    ensures var more := WithKid(kids, path, token, next); above in more && last in more[above]
  {
    hide Under;
  }

  lemma NewKid(kids: Kids, path: Tokens, token: string, next: Node)
    requires path in kids && path != Under(path, token)
    ensures var more := WithKid(kids, path, token, next); path in more && token in more[path]
  {
    hide Under;
  }

  lemma ClosedGrows(nodes: Nodes, kids: Kids, path: Tokens, token: string, next: Node)
    requires kids.Keys == nodes.Keys && Closed(nodes, kids) && path in nodes && Under(path, token) !in nodes
    ensures Closed(nodes[Under(path, token) := next], WithKid(kids, path, token, next))
  {
    hide Under, Above, Last, WithKid;
    AboveUnder(path, token);
    var grown, more := nodes[Under(path, token) := next], WithKid(kids, path, token, next);
    forall p | p in grown && p != [] ensures Above(p) in more && Last(p) in more[Above(p)] {
      if p in nodes {
        KidsStay(kids, path, token, next, Above(p), Last(p));
      } else {
        NewKid(kids, path, token, next);
      }
    }
  }

  lemma TreeGrows(nodes: Nodes, kids: Kids, path: Tokens, token: string, next: Node)
    requires Tree(nodes, kids) && path in nodes && token !in kids[path] && next !in nodes.Values
    ensures Under(path, token) !in nodes
    ensures Tree(nodes[Under(path, token) := next], WithKid(kids, path, token, next))
  {
    hide Under, Linked, Closed;
    NewPath(nodes, kids, path, token);
    LinkedGrows(nodes, kids, path, token, next);
    ClosedGrows(nodes, kids, path, token, next);
  }

  lemma TreeHasRoot(nodes: Nodes, kids: Kids)
    requires Tree(nodes, kids)
    ensures [] in nodes && kids.Keys == nodes.Keys
  {
  }

  lemma OnlyPath(nodes: Nodes, kids: Kids, path: Tokens, q: Tokens)
    requires Tree(nodes, kids) && path in nodes && q in nodes && nodes[q] == nodes[path]
    ensures q == path
  {
  }

  class Parser {
    const root: Node
    ghost var nodes: Nodes

    constructor ()
      ensures Valid() && Entries() == map[] && fresh(nodes.Values)
    {
      root := new Node();
      nodes := map[[] := root];
    }

    ghost predicate Valid()
      reads this`nodes, nodes.Values`children
    {
      Tree(nodes, Children()) && nodes[[]] == root
    }

    ghost function Children(): Kids
      reads this`nodes, nodes.Values`children
    {
      map p | p in nodes :: nodes[p].children
    }

    ghost function Marks(): map<Tokens, Mark>
      reads this`nodes, nodes.Values`end, nodes.Values`opcode, nodes.Values`expansion
    {
      map p | p in nodes :: Mark(nodes[p].end, Entry(nodes[p].opcode, nodes[p].expansion))
    }

    ghost function Entries(): map<Tokens, Entry>
      reads this`nodes, nodes.Values`end, nodes.Values`opcode, nodes.Values`expansion
    {
      Ended(Marks())
    }

    // The child of `current` under `token`, created when missing.
    method Child(current: Node, token: string, ghost path: Tokens) returns (next: Node)
      requires Valid() && path in nodes && nodes[path] == current
      modifies this`nodes, current`children
      ensures Valid() && Entries() == old(Entries())
      ensures Under(path, token) in nodes && nodes[Under(path, token)] == next
      ensures fresh(nodes.Values - old(nodes.Values))
    {
      hide Tree, Under, WithKid, Ended, Marks;
      ghost var kids := Children();
      NewPath(nodes, kids, path, token);
      if token in current.children {
        next := current.children[token];
      } else {
        next := new Node();
        AddKid(current, token, path, next);
      }
    }

    method AddKid(current: Node, token: string, ghost path: Tokens, next: Node)
      requires Valid() && path in nodes && nodes[path] == current && token !in current.children
      requires next !in nodes.Values && !next.end && next.children == map[]
      modifies this`nodes, current`children
      ensures Valid() && Entries() == old(Entries())
      ensures nodes == old(nodes)[Under(path, token) := next]
    {
      ghost var kids := Children();
      TreeGrows(nodes, kids, path, token, next);
      TreeHasRoot(nodes, kids);
      AboveUnder(path, token);
      EndedGrows(Marks(), Under(path, token), Mark(false, Entry(next.opcode, next.expansion)));
      forall q | q in nodes && q != path ensures nodes[q] != current {
        if nodes[q] == current {
          OnlyPath(nodes, kids, path, q);
        }
      }
      assert kids[path] == current.children;
      Link(current, token, path, next);
      Register(Under(path, token), next);
      UnfoldWithKid(kids, path, token, next);
    }

    method Link(current: Node, token: string, ghost path: Tokens, next: Node)
      requires path in nodes && nodes[path] == current
      requires forall q :: q in nodes && q != path ==> nodes[q] != current
      modifies current`children
      ensures Marks() == old(Marks())
      ensures Children() == old(Children())[path := Added(old(current.children), token, next)]
    {
      hide Added, Marks;
      current.children := Added(current.children, token, next);
    }

    ghost method Register(path: Tokens, next: Node)
      requires path !in nodes && !next.end && next.children == map[]
      modifies this`nodes
      ensures nodes == old(nodes)[path := next]
      ensures Children() == old(Children())[path := map[]]
      ensures Marks() == old(Marks())[path := Mark(false, Entry(next.opcode, next.expansion))]
    {
      nodes := nodes[path := next];
    }

    // The node of a whole token list.
    method Walk(tokens: Tokens) returns (current: Node)
      requires Valid()
      modifies this`nodes, nodes.Values`children
      ensures Valid() && Entries() == old(Entries())
      ensures tokens in nodes && nodes[tokens] == current
      ensures fresh(nodes.Values - old(nodes.Values))
    {
      hide Tree, Under, Ended, Marks, Children;
      RootIsEmptyPath();
      current := root;
      var i := 0;
      while i < |tokens|
        invariant i <= |tokens| && Valid() && Entries() == old(Entries())
        invariant tokens[..i] in nodes && nodes[tokens[..i]] == current
        invariant fresh(nodes.Values - old(nodes.Values))
      {
        PrefixUnder(tokens, i);
        current := Child(current, tokens[i], tokens[..i]);
        i := i + 1;
      }
      assert tokens[..i] == tokens;
    }

    lemma RootIsEmptyPath()
      requires Valid()
      ensures [] in nodes && nodes[[]] == root
    {
    }

    // Enters one opcode; false when the assertion about repeats fails.
    method Enter(p: Printer, o: u16) returns (ok: bool)
      requires Valid() && Entries() == Table(p, o)
      modifies this`nodes, nodes.Values
      ensures ok == Asserted(p, o)
      ensures ok ==> Valid() && Entries() == Table(p, o + 1)
      ensures fresh(nodes.Values - old(nodes.Values))
    {
      hide Legible, BitSubset, Valid, Entries;
      var expansion := p.needsExpansion(o);
      var tokens := p.text(o);
      ok := true;
      if !Legible(tokens) {
        return;
      }
      var current := Walk(tokens);
      EntryAt(tokens);
      if current.end {
        ok := BitSubset(current.opcode, o);
        return;
      }
      Finish(current, tokens, Entry(o, expansion));
    }

    method Finish(current: Node, ghost tokens: Tokens, entry: Entry)
      requires Valid() && tokens in nodes && nodes[tokens] == current
      modifies current`end, current`opcode, current`expansion
      ensures Valid() && Entries() == old(Entries())[tokens := entry]
    {
      hide Tree, Children, Marks, Ended;
      forall q | q in nodes && q != tokens ensures nodes[q] != current {
        if nodes[q] == current {
          OnlyPath(nodes, Children(), tokens, q);
        }
      }
      EndedSets(Marks(), tokens, entry);
      SetMark(current, tokens, entry);
    }

    method SetMark(current: Node, ghost tokens: Tokens, entry: Entry)
      requires tokens in nodes && nodes[tokens] == current
      requires forall q :: q in nodes && q != tokens ==> nodes[q] != current
      modifies current`end, current`opcode, current`expansion
      ensures Marks() == old(Marks())[tokens := Mark(true, entry)]
    {
      current.end := true;
      current.opcode := entry.opcode;
      current.expansion := entry.expansion;
    }

    lemma EntryAt(tokens: Tokens)
      ensures tokens in Entries() <==> tokens in nodes && nodes[tokens].end
      ensures tokens in Entries() ==> Entries()[tokens] == Entry(nodes[tokens].opcode, nodes[tokens].expansion)
    {
    }

    lemma HasChild(path: Tokens, token: string)
      requires Valid() && path in nodes
      ensures token in nodes[path].children <==> Under(path, token) in nodes
      ensures token in nodes[path].children ==> nodes[path].children[token] == nodes[Under(path, token)]
    {
    }

    method Parse(tokens: Tokens) returns (r: Opcode)
      requires Valid()
      ensures r == Looked(Entries(), tokens)
    {
      hide Tree, Under, Ended, Marks, Children, Entries;
      EntryAt(tokens);
      RootIsEmptyPath();
      var current := root;
      var i := 0;
      while i < |tokens|
        invariant i <= |tokens|
        invariant tokens[..i] in nodes && nodes[tokens[..i]] == current
      {
        PrefixUnder(tokens, i);
        HasChild(tokens[..i], tokens[i]);
        if tokens[i] in current.children {
          current := current.children[tokens[i]];
        } else {
          NoDescendant(nodes, Children(), tokens, i + 1);
          assert tokens !in nodes;
          return Invalid;
        }
        i := i + 1;
      }
      assert tokens[..i] == tokens;
      if !current.end {
        return Invalid;
      }
      r := if current.expansion then ValidWithExpansion(current.opcode) else Opcode.Valid(current.opcode);
    }
  }

  lemma PrefixUnder(tokens: Tokens, i: nat)
    requires i < |tokens|
    ensures tokens[..i + 1] == Under(tokens[..i], tokens[i])
  {
  }

  // A list with a prefix that has no node has no node.
  lemma {:induction false} NoDescendant(nodes: Nodes, kids: Kids, tokens: Tokens, i: nat)
    requires Tree(nodes, kids) && i <= |tokens| && tokens[..i] !in nodes
    ensures tokens !in nodes
    decreases |tokens| - i
  {
    if i == |tokens| {
      assert tokens[..i] == tokens;
    } else {
      PrefixUnder(tokens, i);
      AboveUnder(tokens[..i], tokens[i]);
      NoDescendant(nodes, kids, tokens, i + 1);
    }
  }

  lemma EmptyTable(p: Printer)
    ensures Table(p, 0) == map[]
  {
  }

  // No parser at all when the assertion fails.
  method GenerateParser(p: Printer) returns (parser: Parser, ok: bool)
    ensures fresh(parser) && fresh(parser.nodes.Values)
    ensures ok <==> forall o: u16 :: Asserted(p, o)
    ensures ok ==> parser.Valid() && parser.Entries() == Table(p, 0x1_0000)
  {
    hide Asserted, Table, Parser.Valid, Parser.Entries;
    EmptyTable(p);
    parser := new Parser();
    ok := true;
    var opcode := 0;
    while opcode < 0x1_0000
      invariant opcode <= 0x1_0000 && fresh(parser) && fresh(parser.nodes.Values)
      invariant parser.Valid() && parser.Entries() == Table(p, opcode)
      invariant forall o: u16 :: o < opcode ==> Asserted(p, o)
    {
      ok := parser.Enter(p, opcode);
      if !ok {
        return;
      }
      opcode := opcode + 1;
    }
  }

  lemma UnfoldWithKid(kids: Kids, path: Tokens, token: string, next: Node)
    requires path in kids
    ensures WithKid(kids, path, token, next) ==
            kids[path := Added(kids[path], token, next)][Under(path, token) := map[]]
  {
  }

  // --- what the table means for the printer ---

  // Some error-free opcode prints as ts.
  ghost predicate Printed(p: Printer, ts: Tokens) {
    Legible(ts) && exists o: u16 :: p.text(o) == ts
  }

  // r names the smallest error-free opcode that prints as ts, with that opcode's
  // expansion, or says that there is none.
  ghost predicate Inverts(p: Printer, ts: Tokens, r: Opcode) {
    && (r != Invalid <==> Printed(p, ts))
    && (r != Invalid ==> FirstBelow(p, 0x1_0000, ts, r.opcode))
    && (r != Invalid ==> (r.ValidWithExpansion? <==> p.needsExpansion(r.opcode)))
  }

  lemma TableInvertsPrinter(p: Printer, ts: Tokens)
    ensures Inverts(p, ts, Looked(Table(p, 0x1_0000), ts))
  {
    hide Table, Legible;
    TableHoldsFirst(p, 0x1_0000, ts);
    if ts in Table(p, 0x1_0000) {
      assert p.text(Table(p, 0x1_0000)[ts].opcode) == ts;
    }
  }

  // b repeats the tokens of a, the first opcode to have them, without
  // containing all its bits.
  predicate Clashes(p: Printer, a: u16, b: u16) {
    a < b && FirstBelow(p, b, p.text(b), a) && !BitSubset(a, b)
  }

  lemma AssertedMeans(p: Printer, b: u16, a: u16)
    ensures Clashes(p, a, b) ==> !Asserted(p, b)
    ensures !Asserted(p, b) && a == Table(p, b)[p.text(b)].opcode ==> Clashes(p, a, b)
  {
    hide Table, Legible, BitSubset;
    TableHoldsFirst(p, b, p.text(b));
    if Clashes(p, a, b) {
      assert p.text(a) == p.text(b);
      var w := Table(p, b)[p.text(b)].opcode;
      assert w == a;
    }
  }

  // The assertion holds throughout exactly when no two opcodes clash.
  lemma AssertionHoldsExactly(p: Printer)
    ensures (forall o: u16 :: Asserted(p, o)) <==> (forall a: u16, b: u16 :: !Clashes(p, a, b))
  {
    hide Asserted, Clashes;
    forall a: u16, b: u16 ensures Clashes(p, a, b) ==> !Asserted(p, b) {
      AssertedMeans(p, b, a);
    }
    forall b: u16 | !Asserted(p, b) ensures exists a: u16 :: Clashes(p, a, b) {
      ClashOf(p, b);
    }
  }

  lemma ClashOf(p: Printer, b: u16)
    requires !Asserted(p, b)
    ensures exists a: u16 :: Clashes(p, a, b)
  {
    hide Clashes, Table;
    AssertedMeans(p, b, Table(p, b)[p.text(b)].opcode);
    assert Clashes(p, Table(p, b)[p.text(b)].opcode, b) by {
    }
  }

  // Parsing what an error-free opcode prints finds an opcode that prints the
  // same and has no bits the given one lacks; the same opcode when no smaller
  // one prints alike.
  lemma PrintThenParse(p: Printer, o: u16)
    requires Legible(p.text(o)) && (forall a: u16, b: u16 :: !Clashes(p, a, b))
    ensures var r := Looked(Table(p, 0x1_0000), p.text(o));
            && r != Invalid && p.text(r.opcode) == p.text(o) && r.opcode <= o
            && forall i :: 0 <= i < 16 ==> Bit(r.opcode, i) == 1 ==> Bit(o, i) == 1
    ensures (forall x: u16 :: x < o ==> p.text(x) != p.text(o)) ==> Looked(Table(p, 0x1_0000), p.text(o)).opcode == o
  {
    hide Table, Legible, BitSubset, Looked, Bit;
    TableInvertsPrinter(p, p.text(o));
    var r := Looked(Table(p, 0x1_0000), p.text(o));
    assert p.text(r.opcode) == p.text(o);
    assert !Clashes(p, r.opcode, o);
    BitSubsetIs(r.opcode, o);
  }

  // Building the parser and using it once.
  method BuildAndParse(p: Printer, ts: Tokens) returns (ok: bool, r: Opcode)
    ensures ok <==> forall a: u16, b: u16 :: !Clashes(p, a, b)
    ensures ok ==> Inverts(p, ts, r)
  {
    hide Asserted, Clashes, Inverts, Table, Looked, Parser.Valid, Parser.Entries;
    AssertionHoldsExactly(p);
    TableInvertsPrinter(p, ts);
    r := Invalid;
    var parser;
    parser, ok := GenerateParser(p);
    if ok {
      r := parser.Parse(ts);
    }
  }
}
