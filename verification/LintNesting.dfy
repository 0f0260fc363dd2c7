/** The nesting, elif-chain and isinstance-ladder rules of tools/lint_antipatterns.py.

    Expressions carry no statements, so only statements are modelled.  An `If` has a
    number, which stands for the identity of the AST node. */
module LintNesting {
  import opened Text

  const NESTING_CEILING := 3
  const ELIF_CHAIN_MIN := 5
  const ISINSTANCE_LADDER_MIN := 3

  datatype Stmt =
    | If(id: nat, isinstanceTest: bool, body: seq<Stmt>, orelse: seq<Stmt>)
    | Loop(body: seq<Stmt>, orelse: seq<Stmt>)       // for, async for, while
    | Try(body: seq<Stmt>, handlers: seq<Block>, orelse: seq<Stmt>, finalbody: seq<Stmt>)
    | With(body: seq<Stmt>)                          // with, async with
    | Other(parts: seq<Block>)                         // nested def or class, match, try*
    | Simple

  datatype Block = Block(stmts: seq<Stmt>)

  // ---------------------------------------------------------------- sizes

  function Size(stmts: seq<Stmt>): nat
    decreases stmts
  {
    if stmts == [] then 0 else StmtSize(stmts[0]) + Size(stmts[1..])
  }

  function StmtSize(s: Stmt): nat
    decreases s
  {
    1 + match s
        case If(_, _, body, orelse) => Size(body) + Size(orelse)
        case Loop(body, orelse) => Size(body) + Size(orelse)
        case Try(body, handlers, orelse, finalbody) =>
          Size(body) + BlocksSize(handlers) + Size(orelse) + Size(finalbody)
        case With(body) => Size(body)
        case Other(parts) => BlocksSize(parts)
        case Simple => 0
  }

  function BlocksSize(blocks: seq<Block>): nat
    decreases blocks
  {
    if blocks == [] then 0 else Size(blocks[0].stmts) + BlocksSize(blocks[1..])
  }

  function ListsSize(lists: seq<seq<Stmt>>): nat {
    if lists == [] then 0 else Size(lists[0]) + ListsSize(lists[1..])
  }

  function Lists(blocks: seq<Block>): (r: seq<seq<Stmt>>)
    ensures ListsSize(r) == BlocksSize(blocks)
  {
    if blocks == [] then [] else [blocks[0].stmts] + Lists(blocks[1..])
  }

  lemma {:induction false} TwoLists(a: seq<Stmt>, b: seq<Stmt>)
    ensures ListsSize([a]) == Size(a) && ListsSize([a, b]) == Size(a) + Size(b)
  {
    assert [a][1..] == [] && [a, b][1..] == [b] && [b][1..] == [];
    assert ListsSize([b]) == Size(b);
  }

  lemma {:induction false} SizeConcat(a: seq<Stmt>, b: seq<Stmt>)
    ensures Size(a + b) == Size(a) + Size(b)
  {
    if a == [] {
      assert a + b == b;
    } else {
      assert (a + b)[1..] == a[1..] + b;
      SizeConcat(a[1..], b);
    }
  }

  lemma {:induction false} ListsSizeConcat(a: seq<seq<Stmt>>, b: seq<seq<Stmt>>)
    ensures ListsSize(a + b) == ListsSize(a) + ListsSize(b)
  {
    if a == [] {
      assert a + b == b;
    } else {
      assert (a + b)[1..] == a[1..] + b;
      ListsSizeConcat(a[1..], b);
    }
  }

  // ---------------------------------------------------------------- block depth (AP007)

  predicate IsBlock(s: Stmt) { s.If? || s.Loop? || s.Try? || s.With? }

  function NonEmpty(lists: seq<seq<Stmt>>): (r: seq<seq<Stmt>>)
    ensures ListsSize(r) <= ListsSize(lists)
  {
    if lists == [] then []
    else
      var rest := NonEmpty(lists[1..]);
      if lists[0] == [] then rest else [lists[0]] + rest
  }

  // Every statement list attached to a block.
  function AllBranches(s: Stmt): (r: seq<seq<Stmt>>)
    ensures ListsSize(r) < StmtSize(s)
  {
    match s
    case If(_, _, body, orelse) => TwoLists(body, orelse); [body, orelse]
    case Loop(body, orelse) => TwoLists(body, orelse); [body, orelse]
    case Try(body, handlers, orelse, finalbody) =>
      TwoLists(body, []);
      TwoLists(orelse, finalbody);
      ListsSizeConcat([body], Lists(handlers));
      ListsSizeConcat([body] + Lists(handlers), [orelse, finalbody]);
      [body] + Lists(handlers) + [orelse, finalbody]
    case With(body) => TwoLists(body, []); [body]
    case _ => []
  }

  // A statement list of a block, read off the fields of the statement.
  predicate HasBranch(s: Stmt, list: seq<Stmt>) {
    match s
    case If(_, _, body, orelse) => list == body || list == orelse
    case Loop(body, orelse) => list == body || list == orelse
    case Try(body, handlers, orelse, finalbody) =>
      list == body || Block(list) in handlers || list == orelse || list == finalbody
    case With(body) => list == body
    case Other(_) => false
    case Simple => false
  }

  lemma {:induction false} ListsMeans(blocks: seq<Block>, list: seq<Stmt>)
    ensures list in Lists(blocks) <==> Block(list) in blocks
  {
    if blocks != [] {
      ListsMeans(blocks[1..], list);
      assert blocks == [blocks[0]] + blocks[1..];
      assert Block(list) in blocks <==> Block(list) == blocks[0] || Block(list) in blocks[1..];
    }
  }

  lemma BranchesMean(s: Stmt, list: seq<Stmt>)
    ensures list in AllBranches(s) <==> HasBranch(s, list)
    ensures HasBranch(s, list) ==> IsBlock(s)
  {
    if s.Try? { ListsMeans(s.handlers, list); }
  }

  // `_branches_of`
  function Branches(s: Stmt): (r: seq<seq<Stmt>>)
    ensures ListsSize(r) < StmtSize(s)
  {
    NonEmpty(AllBranches(s))
  }

  // `_max_block_depth`
  function MaxBlockDepth(stmts: seq<Stmt>, depth: nat): (worst: nat)
    ensures worst >= depth
    decreases Size(stmts), 1
  {
    if stmts == [] then depth
    else
      assert Size(stmts) == StmtSize(stmts[0]) + Size(stmts[1..]);
      Max(if IsBlock(stmts[0]) then WorstBranch(Branches(stmts[0]), depth) else depth,
          MaxBlockDepth(stmts[1..], depth))
  }

  function WorstBranch(branches: seq<seq<Stmt>>, depth: nat): (worst: nat)
    ensures worst >= depth
    decreases ListsSize(branches), 2, |branches|
  {
    if branches == [] then depth
    else Max(MaxBlockDepth(branches[0], depth + 1), WorstBranch(branches[1..], depth))
  }

  lemma {:induction false} WorstBranchCovers(branches: seq<seq<Stmt>>, depth: nat, i: nat)
    requires i < |branches|
    ensures WorstBranch(branches, depth) >= MaxBlockDepth(branches[i], depth + 1)
  {
    if i > 0 { WorstBranchCovers(branches[1..], depth, i - 1); }
  }

  // ---------------------------------------------------------------- walking the tree

  function Flatten(lists: seq<seq<Stmt>>): (r: seq<Stmt>)
    ensures Size(r) == ListsSize(lists)
  {
    if lists == [] then []
    else
      SizeConcat(lists[0], Flatten(lists[1..]));
      lists[0] + Flatten(lists[1..])
  }

  // `ast.iter_child_nodes`, statements only.
  function Children(s: Stmt): (r: seq<Stmt>)
    ensures Size(r) < StmtSize(s)
  {
    match s
    case Other(parts) => Flatten(Lists(parts))
    case _ => Flatten(AllBranches(s))
  }

  // Every `If` among and below these statements, nested functions and all.
  function AllIfs(stmts: seq<Stmt>): seq<Stmt>
    decreases Size(stmts), 1
  {
    if stmts == [] then []
    else
      assert Size(stmts) == StmtSize(stmts[0]) + Size(stmts[1..]);
      IfsOf(stmts[0]) + AllIfs(stmts[1..])
  }

  function IfsOf(s: Stmt): seq<Stmt>
    decreases StmtSize(s), 0
  {
    (if s.If? then [s] else []) + AllIfs(Children(s))
  }

  lemma {:induction false} AllIfsConcat(a: seq<Stmt>, b: seq<Stmt>)
    ensures AllIfs(a + b) == AllIfs(a) + AllIfs(b)
    decreases |a|
  {
    if a == [] {
      assert a + b == b;
    } else {
      assert (a + b)[1..] == a[1..] + b;
      AllIfsConcat(a[1..], b);
    }
  }

  // The `If`s of these blocks.
  function IfsOfBlocks(blocks: seq<Block>): seq<Stmt> {
    if blocks == [] then [] else AllIfs(blocks[0].stmts) + IfsOfBlocks(blocks[1..])
  }

  function IfsOfLists(lists: seq<seq<Stmt>>): seq<Stmt> {
    if lists == [] then [] else AllIfs(lists[0]) + IfsOfLists(lists[1..])
  }

  lemma {:induction false} IfsOfFlat(lists: seq<seq<Stmt>>)
    ensures AllIfs(Flatten(lists)) == IfsOfLists(lists)
  {
    if lists != [] {
      IfsOfFlat(lists[1..]);
      AllIfsConcat(lists[0], Flatten(lists[1..]));
    }
  }

  lemma {:induction false} IfsOfListsConcat(a: seq<seq<Stmt>>, b: seq<seq<Stmt>>)
    ensures IfsOfLists(a + b) == IfsOfLists(a) + IfsOfLists(b)
  {
    if a == [] {
      assert a + b == b;
    } else {
      assert (a + b)[1..] == a[1..] + b;
      IfsOfListsConcat(a[1..], b);
      Regroup(AllIfs(a[0]), IfsOfLists(a[1..]), IfsOfLists(b));
    }
  }

  lemma {:induction false} IfsOfTheirLists(blocks: seq<Block>)
    ensures IfsOfLists(Lists(blocks)) == IfsOfBlocks(blocks)
  {
    if blocks != [] { IfsOfTheirLists(blocks[1..]); }
  }

  lemma IfsOfTwo(a: seq<Stmt>, b: seq<Stmt>)
    ensures IfsOfLists([a]) == AllIfs(a) && IfsOfLists([a, b]) == AllIfs(a) + AllIfs(b)
  {
    assert [a][1..] == [] && [a, b][1..] == [b] && [b][1..] == [];
  }

  lemma {:induction false} IfsOfTry(body: seq<Stmt>, handlers: seq<Block>, orelse: seq<Stmt>, finalbody: seq<Stmt>)
    ensures IfsOfLists([body] + Lists(handlers) + [orelse, finalbody]) ==
            AllIfs(body) + IfsOfBlocks(handlers) + (AllIfs(orelse) + AllIfs(finalbody))
  {
    IfsOfTwo(body, []);
    IfsOfTwo(orelse, finalbody);
    IfsOfTheirLists(handlers);
    IfsOfListsConcat([body], Lists(handlers));
    IfsOfListsConcat([body] + Lists(handlers), [orelse, finalbody]);
  }

  // The `If`s below a statement are those of its fields, each once.
  lemma {:induction false} IfsByFields(s: Stmt)
    ensures IfsOf(s) ==
            (if s.If? then [s] else []) +
            match s
            case If(_, _, body, orelse) => AllIfs(body) + AllIfs(orelse)
            case Loop(body, orelse) => AllIfs(body) + AllIfs(orelse)
            case Try(body, handlers, orelse, finalbody) =>
              AllIfs(body) + IfsOfBlocks(handlers) + (AllIfs(orelse) + AllIfs(finalbody))
            case With(body) => AllIfs(body)
            case Other(parts) => IfsOfBlocks(parts)
            case Simple => []
  {
    match s
    case If(_, _, body, orelse) => IfsOfFlat(AllBranches(s)); IfsOfTwo(body, orelse);
    case Loop(body, orelse) => IfsOfFlat(AllBranches(s)); IfsOfTwo(body, orelse);
    case Try(body, handlers, orelse, finalbody) =>
      IfsOfFlat(AllBranches(s));
      IfsOfTry(body, handlers, orelse, finalbody);
    case With(body) => IfsOfFlat(AllBranches(s)); IfsOfTwo(body, []);
    case Other(parts) => IfsOfFlat(Lists(parts)); IfsOfTheirLists(parts);
    case Simple =>
  }

  lemma {:induction false} WalkStep(node: Stmt, rest: seq<Stmt>)
    ensures Size(rest + Children(node)) < Size([node] + rest)
    ensures multiset(AllIfs([node] + rest)) ==
            multiset(if node.If? then [node] else []) + multiset(AllIfs(rest + Children(node)))
  {
    SizeConcat(rest, Children(node));
    AllIfsConcat(rest, Children(node));
    assert ([node] + rest)[1..] == rest;
  }

  // What is visited and what is still to come.
  ghost predicate Visited(ifs: seq<Stmt>, todo: seq<Stmt>, fn: seq<Stmt>) {
    multiset(ifs) + multiset(AllIfs(todo)) == multiset(AllIfs(fn))
  }

  lemma {:induction false} VisitStep(ifs: seq<Stmt>, todo: seq<Stmt>, fn: seq<Stmt>)
    requires todo != [] && Visited(ifs, todo, fn)
    ensures Size(todo[1..] + Children(todo[0])) < Size(todo)
    ensures Visited(if todo[0].If? then ifs + [todo[0]] else ifs, todo[1..] + Children(todo[0]), fn)
  {
    var node, rest := todo[0], todo[1..];
    assert [node] + rest == todo;
    WalkStep(node, rest);
    var now, next := AllIfs(todo), AllIfs(rest + Children(node));
    MoveOne(ifs, node, now, next, multiset(AllIfs(fn)));
  }

  lemma MoveOne(ifs: seq<Stmt>, node: Stmt, now: seq<Stmt>, next: seq<Stmt>, total: multiset<Stmt>)
    requires multiset(ifs) + multiset(now) == total
    requires multiset(now) == multiset(if node.If? then [node] else []) + multiset(next)
    ensures multiset(if node.If? then ifs + [node] else ifs) + multiset(next) == total
  {
  }

  // `ast.walk`: breadth first with a queue; it visits every `If` exactly once.
  method WalkIfs(fn: seq<Stmt>) returns (ifs: seq<Stmt>)
    ensures multiset(ifs) == multiset(AllIfs(fn))
  {
    var todo := fn;
    ifs := [];
    while todo != []
      invariant Visited(ifs, todo, fn)
      decreases Size(todo)
    {
      VisitStep(ifs, todo, fn);
      var node := todo[0];
      todo := todo[1..] + Children(node);
      if node.If? {
        ifs := ifs + [node];
      }
    }
  }

  // ---------------------------------------------------------------- elif chains (AP009)

  // The `elif` part: an `If` alone in the else branch.
  predicate HasElif(s: Stmt) { s.If? && |s.orelse| == 1 && s.orelse[0].If? }

  function Elif(s: Stmt): Stmt
    requires HasElif(s)
  {
    s.orelse[0]
  }

  function ChainLength(s: Stmt): nat
    decreases s
  {
    if HasElif(s) then 1 + ChainLength(s.orelse[0]) else 1
  }

  // `_if_chain_length`
  method IfChainLength(node: Stmt) returns (length: nat)
    requires node.If?
    ensures length == ChainLength(node)
  {
    length := 1;
    var cur := node;
    while HasElif(cur)
      invariant length + ChainLength(cur) == ChainLength(node) + 1
      decreases cur
    {
      cur := cur.orelse[0];
      length := length + 1;
    }
  }

  // An `if` and its elifs, down to one whose else branch is no single `if`.
  predicate IsChain(c: seq<Stmt>) {
    && c != [] && (forall j :: 0 <= j < |c| ==> c[j].If?)
    && (forall j :: 0 <= j < |c| - 1 ==> c[j].orelse == [c[j + 1]])
    && !(|c[|c| - 1].orelse| == 1 && c[|c| - 1].orelse[0].If?)
  }

  // The length of a chain is the number of its `if`s.
  lemma {:induction false} ChainLengthMeans(n: Stmt) returns (c: seq<Stmt>)
    requires n.If?
    ensures IsChain(c) && c[0] == n && |c| == ChainLength(n)
    decreases n
  {
    c := [n];
    if HasElif(n) {
      var below := ChainLengthMeans(n.orelse[0]);
      c := [n] + below;
    }
  }

  // The elif tails of these statements.
  function Tails(ifs: seq<Stmt>): seq<Stmt> {
    if ifs == [] then [] else OwnTail(ifs[0]) + Tails(ifs[1..])
  }

  // No AST node occurs twice.
  predicate DistinctIds(ifs: seq<Stmt>) {
    && (forall i :: 0 <= i < |ifs| ==> ifs[i].If?)
    && (forall i, j :: 0 <= i < j < |ifs| ==> ifs[i].id != ifs[j].id)
  }

  // `_is_chain_continuation`, `is` being equality of ids.
  predicate IsContinuation(ifs: seq<Stmt>, target: Stmt)
    requires target.If?
  {
    exists i :: 0 <= i < |ifs| && ifs[i].If? && ifs[i].id != target.id
             && HasElif(ifs[i]) && Elif(ifs[i]).id == target.id
  }

  // The heads of the maximal chains, found by descending: below an `If` first its body,
  // then along its elif tail, and only at the end of the tail a plain else branch.
  function Heads(stmts: seq<Stmt>): seq<Stmt>
    decreases Size(stmts), 2
  {
    if stmts == [] then []
    else
      assert Size(stmts) == StmtSize(stmts[0]) + Size(stmts[1..]);
      HeadsOf(stmts[0]) + Heads(stmts[1..])
  }

  function HeadsOf(s: Stmt): seq<Stmt>
    decreases StmtSize(s), 1
  {
    if s.If? then [s] + HeadsBelowChain(s) else Heads(Children(s))
  }

  function HeadsBelowChain(s: Stmt): seq<Stmt>
    requires s.If?
    decreases StmtSize(s), 0
  {
    Heads(s.body) + if HasElif(s) then (ElifSize(s); HeadsBelowChain(s.orelse[0])) else Heads(s.orelse)
  }

  lemma {:induction false} ElifSize(s: Stmt)
    requires HasElif(s)
    ensures StmtSize(s.orelse[0]) < StmtSize(s)
  {
    assert Size(s.orelse) == StmtSize(s.orelse[0]) + Size(s.orelse[1..]);
  }

  function OwnTail(s: Stmt): seq<Stmt> { if HasElif(s) then [Elif(s)] else [] }

  lemma {:induction false} TailsConcat(a: seq<Stmt>, b: seq<Stmt>)
    ensures Tails(a + b) == Tails(a) + Tails(b)
  {
    if a == [] {
      assert a + b == b;
    } else {
      assert (a + b)[0] == a[0] && (a + b)[1..] == a[1..] + b;
      TailsConcat(a[1..], b);
      Regroup(OwnTail(a[0]), Tails(a[1..]), Tails(b));
    }
  }

  lemma Regroup(x: seq<Stmt>, y: seq<Stmt>, z: seq<Stmt>)
    ensures x + (y + z) == x + y + z
  {
  }

  lemma IfChildren(s: Stmt)
    requires s.If?
    ensures Children(s) == s.body + s.orelse
    ensures AllIfs(Children(s)) == AllIfs(s.body) + AllIfs(s.orelse)
  {
    assert [s.body, s.orelse][1..] == [s.orelse] && [s.orelse][1..] == [];
    assert Flatten([s.orelse]) == s.orelse + Flatten([]);
    AllIfsConcat(s.body, s.orelse);
  }

  lemma {:induction false} IfTails(s: Stmt, below: seq<Stmt>)
    ensures Tails([s] + below) == OwnTail(s) + Tails(below)
  {
    var all := [s] + below;
    assert all[0] == s && all[1..] == below;
  }

  lemma {:induction false} IfParts(s: Stmt)
    requires s.If?
    ensures var body, orelse := AllIfs(s.body), AllIfs(s.orelse);
            && IfsOf(s) == [s] + body + orelse
            && Tails(IfsOf(s)) == OwnTail(s) + Tails(body) + Tails(orelse)
  {
    IfChildren(s);
    var body, orelse := AllIfs(s.body), AllIfs(s.orelse);
    Regroup([s], body, orelse);
    IfTails(s, body + orelse);
    TailsConcat(body, orelse);
    Regroup(OwnTail(s), Tails(body), Tails(orelse));
  }

  // Each `If` is the head of a chain or the tail of another `If`, never both.
  lemma {:induction false} HeadsAndTails(stmts: seq<Stmt>)
    ensures multiset(AllIfs(stmts)) == multiset(Heads(stmts)) + multiset(Tails(AllIfs(stmts)))
    decreases Size(stmts), 2
  {
    if stmts != [] {
      assert Size(stmts) == StmtSize(stmts[0]) + Size(stmts[1..]);
      HeadsAndTailsOf(stmts[0]);
      HeadsAndTails(stmts[1..]);
      TailsConcat(IfsOf(stmts[0]), AllIfs(stmts[1..]));
    }
  }

  lemma {:induction false} HeadsAndTailsOf(s: Stmt)
    ensures multiset(IfsOf(s)) == multiset(HeadsOf(s)) + multiset(Tails(IfsOf(s)))
    decreases StmtSize(s), 1
  {
    if s.If? {
      ChainHeadsAndTails(s);
      HeadFirst(s);
    } else {
      HeadsAndTails(Children(s));
      NoHeadHere(s);
    }
  }

  lemma {:induction false} HeadFirst(s: Stmt)
    requires s.If?
    ensures multiset(HeadsOf(s)) == multiset{s} + multiset(HeadsBelowChain(s))
  {
    var below := HeadsBelowChain(s);
    assert HeadsOf(s) == [s] + below;
  }

  lemma {:induction false} NoHeadHere(s: Stmt)
    requires !s.If?
    ensures IfsOf(s) == AllIfs(Children(s)) && HeadsOf(s) == Heads(Children(s))
  {
    var below := AllIfs(Children(s));
    assert [] + below == below;
  }

  // One link of a chain: `tail` is its elif and `below` the heads found further along.
  lemma {:induction false} ChainStep(s: Stmt, tail: seq<Stmt>, below: seq<Stmt>)
    requires s.If? && tail == (if HasElif(s) then [s.orelse[0]] else [])
    requires HeadsBelowChain(s) == Heads(s.body) + below
    requires multiset(AllIfs(s.body)) == multiset(Heads(s.body)) + multiset(Tails(AllIfs(s.body)))
    requires multiset(AllIfs(s.orelse)) == multiset(tail) + multiset(below) + multiset(Tails(AllIfs(s.orelse)))
    ensures multiset(IfsOf(s)) == multiset{s} + multiset(HeadsBelowChain(s)) + multiset(Tails(IfsOf(s)))
  {
    IfParts(s);
    AddUp(s, tail, AllIfs(s.body), AllIfs(s.orelse), Heads(s.body), below,
          Tails(AllIfs(s.body)), Tails(AllIfs(s.orelse)));
  }

  lemma {:induction false} ElifLink(s: Stmt)
    requires HasElif(s)
    requires multiset(AllIfs(s.body)) == multiset(Heads(s.body)) + multiset(Tails(AllIfs(s.body)))
    requires var e := s.orelse[0];
             multiset(IfsOf(e)) == multiset{e} + multiset(HeadsBelowChain(e)) + multiset(Tails(IfsOf(e)))
    ensures multiset(IfsOf(s)) == multiset{s} + multiset(HeadsBelowChain(s)) + multiset(Tails(IfsOf(s)))
  {
    var e := s.orelse[0];
    OneStatement(e);
    assert s.orelse == [e];
    ChainStep(s, [e], HeadsBelowChain(e));
  }

  lemma {:induction false} PlainElse(s: Stmt)
    requires s.If? && !HasElif(s)
    requires multiset(AllIfs(s.body)) == multiset(Heads(s.body)) + multiset(Tails(AllIfs(s.body)))
    requires multiset(AllIfs(s.orelse)) == multiset(Heads(s.orelse)) + multiset(Tails(AllIfs(s.orelse)))
    ensures multiset(IfsOf(s)) == multiset{s} + multiset(HeadsBelowChain(s)) + multiset(Tails(IfsOf(s)))
  {
    ChainStep(s, [], Heads(s.orelse));
  }

  lemma {:induction false} ChainHeadsAndTails(s: Stmt)
    requires s.If?
    ensures multiset(IfsOf(s)) == multiset{s} + multiset(HeadsBelowChain(s)) + multiset(Tails(IfsOf(s)))
    decreases StmtSize(s), 0
  {
    HeadsAndTails(s.body);
    if HasElif(s) {
      ElifSize(s);
      ChainHeadsAndTails(s.orelse[0]);
      ElifLink(s);
    } else {
      HeadsAndTails(s.orelse);
      PlainElse(s);
    }
  }

  lemma AddUp(s: Stmt, e: seq<Stmt>, body: seq<Stmt>, orelse: seq<Stmt>,
              h1: seq<Stmt>, h2: seq<Stmt>, t1: seq<Stmt>, t2: seq<Stmt>)
    requires multiset(body) == multiset(h1) + multiset(t1)
    requires multiset(orelse) == multiset(e) + multiset(h2) + multiset(t2)
    ensures multiset([s] + body + orelse) == multiset{s} + multiset(h1 + h2) + multiset(e + t1 + t2)
  {
  }

  lemma {:induction false} OneStatement(s: Stmt)
    ensures AllIfs([s]) == IfsOf(s)
  {
    assert [s][1..] == [];
  }

  lemma {:induction false} TailsHaveParents(ifs: seq<Stmt>, t: Stmt)
    ensures t in Tails(ifs) <==> exists i :: 0 <= i < |ifs| && HasElif(ifs[i]) && Elif(ifs[i]) == t
  {
    if ifs != [] {
      TailsHaveParents(ifs[1..], t);
      assert forall i :: 1 <= i < |ifs| ==> ifs[i] == ifs[1..][i - 1];
      assert HasElif(ifs[0]) ==> (t in [Elif(ifs[0])] <==> Elif(ifs[0]) == t);
      if exists i :: 0 <= i < |ifs[1..]| && HasElif(ifs[1..][i]) && Elif(ifs[1..][i]) == t {
        var i :| 0 <= i < |ifs[1..]| && HasElif(ifs[1..][i]) && Elif(ifs[1..][i]) == t;
        assert ifs[i + 1] == ifs[1..][i];
      }
    }
  }

  lemma {:induction false} ContinuationIsTail(fn: seq<Stmt>, n: Stmt)
    requires DistinctIds(AllIfs(fn)) && n in AllIfs(fn) && n.If? && IsContinuation(AllIfs(fn), n)
    ensures n in Tails(AllIfs(fn))
  {
    var ifs := AllIfs(fn);
    var i :| 0 <= i < |ifs| && ifs[i].id != n.id && HasElif(ifs[i]) && Elif(ifs[i]).id == n.id;
    var e := Elif(ifs[i]);
    ElifIsListed(fn, ifs[i]);
    SameId(ifs, e, n);
    TailsHaveParents(ifs, n);
  }

  lemma SameId(ifs: seq<Stmt>, a: Stmt, b: Stmt)
    requires DistinctIds(ifs) && a in ifs && b in ifs
    ensures a.If? && b.If? && (a.id == b.id ==> a == b)
  {
  }

  lemma {:induction false} TailIsContinuation(fn: seq<Stmt>, n: Stmt)
    requires DistinctIds(AllIfs(fn)) && n in AllIfs(fn) && n.If? && n in Tails(AllIfs(fn))
    ensures IsContinuation(AllIfs(fn), n)
  {
    var ifs := AllIfs(fn);
    TailsHaveParents(ifs, n);
    var i :| 0 <= i < |ifs| && HasElif(ifs[i]) && Elif(ifs[i]) == n;
    if ifs[i] == n { ElifSize(n); }
    SameId(ifs, ifs[i], n);
  }

  lemma {:induction false} HeadsAreNotTails(fn: seq<Stmt>, n: Stmt)
    requires DistinctIds(AllIfs(fn)) && n in AllIfs(fn)
    ensures n in Heads(fn) <==> n !in Tails(AllIfs(fn))
    ensures multiset(Heads(fn))[n] <= 1
  {
    HeadsAndTails(fn);
    DistinctMeansOnce(AllIfs(fn), n);
    var heads, tails := multiset(Heads(fn)), multiset(Tails(AllIfs(fn)));
    assert n in multiset(AllIfs(fn));
    assert heads[n] + tails[n] == 1;
    assert n in Heads(fn) <==> heads[n] > 0;
    assert n in Tails(AllIfs(fn)) <==> tails[n] > 0;
  }

  // The scan's own test (no other `If` of the function has this one as its elif) holds
  // exactly of the chain heads, and every head is listed once.
  lemma {:induction false} HeadsAreNotContinuations(fn: seq<Stmt>, n: Stmt)
    requires DistinctIds(AllIfs(fn)) && n in AllIfs(fn)
    ensures n.If?
    ensures n in Heads(fn) <==> !IsContinuation(AllIfs(fn), n)
    ensures multiset(Heads(fn))[n] <= 1
  {
    SameId(AllIfs(fn), n, n);
    HeadsAreNotTails(fn, n);
    if IsContinuation(AllIfs(fn), n) {
      ContinuationIsTail(fn, n);
    } else if n in Tails(AllIfs(fn)) {
      TailIsContinuation(fn, n);
    }
  }

  lemma {:induction false} DistinctMeansOnce(ifs: seq<Stmt>, n: Stmt)
    requires DistinctIds(ifs)
    ensures multiset(ifs)[n] <= 1
  {
    if ifs != [] {
      DistinctMeansOnce(ifs[1..], n);
      assert ifs == [ifs[0]] + ifs[1..];
      if ifs[0] == n {
        forall i | 0 <= i < |ifs[1..]| ensures ifs[1..][i] != n { assert ifs[i + 1] != ifs[0]; }
        assert n !in ifs[1..];
      }
    }
  }

  lemma {:induction false} ElifIsListed(fn: seq<Stmt>, n: Stmt)
    requires n in AllIfs(fn) && HasElif(n)
    ensures Elif(n) in AllIfs(fn)
  {
    var ifs := AllIfs(fn);
    HeadsAndTails(fn);
    TailsHaveParents(ifs, Elif(n));
    var i :| 0 <= i < |ifs| && ifs[i] == n;
    assert Elif(n) in multiset(Tails(ifs));
    assert Elif(n) in multiset(ifs);
  }

  lemma SameMembers(a: seq<Stmt>, b: seq<Stmt>)
    requires multiset(a) == multiset(b)
    ensures forall x :: x in a <==> x in b
  {
    forall x ensures x in a <==> x in b {
      assert x in a <==> x in multiset(a);
      assert x in b <==> x in multiset(b);
    }
  }

  lemma SameContinuation(a: seq<Stmt>, b: seq<Stmt>, target: Stmt)
    requires target.If? && forall x :: x in a ==> x in b
    ensures IsContinuation(a, target) ==> IsContinuation(b, target)
  {
    if IsContinuation(a, target) {
      var i :| 0 <= i < |a| && a[i].If? && a[i].id != target.id && HasElif(a[i]) && Elif(a[i]).id == target.id;
      assert a[i] in b;
      var j :| 0 <= j < |b| && b[j] == a[i];
    }
  }

  // The loop of `_is_chain_continuation`.
  method HasParent(ifs: seq<Stmt>, target: Stmt) returns (b: bool)
    requires target.If?
    ensures b <==> IsContinuation(ifs, target)
  {
    for k := 0 to |ifs|
      invariant forall i :: 0 <= i < k && ifs[i].If? && HasElif(ifs[i]) && ifs[i].id != target.id ==>
                  Elif(ifs[i]).id != target.id
    {
      var n := ifs[k];
      if n.If? && n.id != target.id && HasElif(n) && Elif(n).id == target.id {
        return true;
      }
    }
    return false;
  }

  // `_is_chain_continuation`
  method IsChainContinuation(fn: seq<Stmt>, target: Stmt) returns (b: bool)
    requires target.If?
    ensures b <==> IsContinuation(AllIfs(fn), target)
  {
    var ifs := WalkIfs(fn);
    SameMembers(ifs, AllIfs(fn));
    SameContinuation(ifs, AllIfs(fn), target);
    SameContinuation(AllIfs(fn), ifs, target);
    b := HasParent(ifs, target);
  }

  predicate IsLongHead(fn: seq<Stmt>, n: Stmt) {
    n in Heads(fn) && n.If? && ChainLength(n) >= 5
  }

  // The findings are the long heads among these statements, each once, with its length.
  ghost predicate Reported(fn: seq<Stmt>, seen: seq<Stmt>, findings: seq<(Stmt, nat)>) {
    && (forall i :: 0 <= i < |findings| ==>
          && findings[i].0 in seen && IsLongHead(fn, findings[i].0)
          && findings[i].1 == ChainLength(findings[i].0))
    && (forall n :: n in seen && IsLongHead(fn, n) ==> (n, ChainLength(n)) in findings)
    && (forall i, j :: 0 <= i < j < |findings| ==> findings[i].0 != findings[j].0)
  }

  lemma ReportStep(fn: seq<Stmt>, seen: seq<Stmt>, findings: seq<(Stmt, nat)>, n: Stmt)
    requires Reported(fn, seen, findings) && n !in seen
    ensures Reported(fn, seen + [n], if IsLongHead(fn, n) then findings + [(n, ChainLength(n))] else findings)
  {
  }

  // The test of the scan: long enough, and the elif of no other `If`.
  method LongHead(fn: seq<Stmt>, n: Stmt) returns (report: bool, length: nat)
    requires DistinctIds(AllIfs(fn)) && n in AllIfs(fn)
    ensures n.If? && length == ChainLength(n)
    ensures report <==> IsLongHead(fn, n)
  {
    HeadsAreNotContinuations(fn, n);
    length := IfChainLength(n);
    report := false;
    if length >= ELIF_CHAIN_MIN {
      var continues := IsChainContinuation(fn, n);
      report := !continues;
    }
  }

  // Every `If` of the function, none twice.
  predicate EachOnce(fn: seq<Stmt>, ifs: seq<Stmt>) {
    forall k :: 0 <= k < |ifs| ==> ifs[k] in AllIfs(fn) && ifs[k] !in ifs[..k]
  }

  // What the loop of `_scan_function_for_long_elif` does with one `If`.
  method ReportIfLong(fn: seq<Stmt>, ghost seen: seq<Stmt>, before: seq<(Stmt, nat)>, n: Stmt)
    returns (findings: seq<(Stmt, nat)>)
    requires DistinctIds(AllIfs(fn)) && n in AllIfs(fn) && n !in seen
    requires Reported(fn, seen, before)
    ensures Reported(fn, seen + [n], findings)
  {
    ReportStep(fn, seen, before, n);
    findings := before;
    var report, length := LongHead(fn, n);
    if report {
      findings := findings + [(n, length)];
    }
  }

  lemma NothingReported(fn: seq<Stmt>)
    ensures Reported(fn, [], [])
  {
  }

  lemma EachOnceAt(fn: seq<Stmt>, ifs: seq<Stmt>, k: nat)
    requires EachOnce(fn, ifs) && k < |ifs|
    ensures ifs[k] in AllIfs(fn) && ifs[k] !in ifs[..k]
    ensures ifs[..k + 1] == ifs[..k] + [ifs[k]]
  {
  }

  // The loop of `_scan_function_for_long_elif`.
  method ReportLongHeads(fn: seq<Stmt>, ifs: seq<Stmt>) returns (findings: seq<(Stmt, nat)>)
    requires DistinctIds(AllIfs(fn)) && EachOnce(fn, ifs)
    ensures Reported(fn, ifs, findings)
  {
    findings := [];
    ghost var seen: seq<Stmt> := [];
    NothingReported(fn);
    for k := 0 to |ifs|
      invariant seen == ifs[..k] && Reported(fn, seen, findings)
    {
      EachOnceAt(fn, ifs, k);
      findings := ReportIfLong(fn, seen, findings, ifs[k]);
      seen := seen + [ifs[k]];
    }
    assert seen == ifs;
  }

  // `_scan_function_for_long_elif`: each maximal chain of at least five branches is
  // reported, once, at its head, with its length; nothing else is.
  method ScanForLongElif(fn: seq<Stmt>) returns (findings: seq<(Stmt, nat)>)
    requires DistinctIds(AllIfs(fn))
    ensures Reported(fn, Heads(fn), findings)
  {
    var ifs := WalkIfs(fn);
    WalkedOnce(fn, ifs);
    findings := ReportLongHeads(fn, ifs);
    ReportEnd(fn, ifs, findings);
  }

  lemma ReportEnd(fn: seq<Stmt>, seen: seq<Stmt>, findings: seq<(Stmt, nat)>)
    requires Reported(fn, seen, findings) && forall n :: n in Heads(fn) ==> n in seen
    ensures Reported(fn, Heads(fn), findings)
  {
  }

  lemma {:induction false} HeadsAreWalked(fn: seq<Stmt>, ifs: seq<Stmt>)
    requires multiset(ifs) == multiset(AllIfs(fn))
    ensures forall n :: n in Heads(fn) ==> n in ifs
  {
    HeadsAndTails(fn);
    forall n | n in Heads(fn) ensures n in ifs {
      assert n in multiset(Heads(fn));
      assert n in multiset(ifs);
    }
  }

  lemma {:induction false} WalkedOnce(fn: seq<Stmt>, ifs: seq<Stmt>)
    requires DistinctIds(AllIfs(fn)) && multiset(ifs) == multiset(AllIfs(fn))
    ensures EachOnce(fn, ifs) && forall n :: n in Heads(fn) ==> n in ifs
  {
    forall k | 0 <= k < |ifs| ensures ifs[k] in AllIfs(fn) && ifs[k] !in ifs[..k] { WalkedOnceAt(fn, ifs, k); }
    HeadsAreWalked(fn, ifs);
  }

  lemma {:induction false} WalkedOnceAt(fn: seq<Stmt>, ifs: seq<Stmt>, k: nat)
    requires DistinctIds(AllIfs(fn)) && multiset(ifs) == multiset(AllIfs(fn)) && k < |ifs|
    ensures ifs[k] !in ifs[..k] && ifs[k] in AllIfs(fn)
  {
    DistinctMeansOnce(AllIfs(fn), ifs[k]);
    OnlyOnce(ifs, k);
    assert ifs[k] in multiset(ifs);
  }

  lemma OnlyOnce<T>(s: seq<T>, k: nat)
    requires k < |s| && multiset(s)[s[k]] <= 1
    ensures s[k] !in s[..k]
  {
    assert s == s[..k] + ([s[k]] + s[k + 1..]);
    assert multiset(s[..k])[s[k]] == 0;
  }

  // ---------------------------------------------------------------- what block depth means

  function OwnDepth(s: Stmt, depth: nat): nat {
    if IsBlock(s) then WorstBranch(Branches(s), depth) else depth
  }

  lemma DepthStep(stmts: seq<Stmt>, i: nat, depth: nat)
    requires i < |stmts|
    ensures MaxBlockDepth(stmts[i..], depth) == Max(OwnDepth(stmts[i], depth), MaxBlockDepth(stmts[i + 1..], depth))
  {
    assert stmts[i..][0] == stmts[i] && stmts[i..][1..] == stmts[i + 1..];
  }

  lemma BranchStep(branches: seq<seq<Stmt>>, j: nat, depth: nat)
    requires j < |branches|
    ensures WorstBranch(branches[j..], depth) ==
            Max(MaxBlockDepth(branches[j], depth + 1), WorstBranch(branches[j + 1..], depth))
  {
    assert branches[j..][0] == branches[j] && branches[j..][1..] == branches[j + 1..];
  }

  lemma {:induction false} StmtWithin(stmts: seq<Stmt>, i: nat)
    requires i < |stmts|
    ensures StmtSize(stmts[i]) <= Size(stmts)
  {
    if i > 0 { StmtWithin(stmts[1..], i - 1); }
  }

  lemma {:induction false} ListWithin(lists: seq<seq<Stmt>>, j: nat)
    requires j < |lists|
    ensures Size(lists[j]) <= ListsSize(lists)
  {
    if j > 0 { ListWithin(lists[1..], j - 1); }
  }

  // `_max_block_depth` as it is written, its inner loop a method of its own.
  method BlockDepth(stmts: seq<Stmt>, depth: nat) returns (worst: nat)
    ensures worst == MaxBlockDepth(stmts, depth)
    decreases Size(stmts), 1
  {
    worst := depth;
    assert stmts[0..] == stmts;
    for i := 0 to |stmts|
      invariant worst >= depth
      invariant Max(worst, MaxBlockDepth(stmts[i..], depth)) == MaxBlockDepth(stmts, depth)
    {
      DepthStep(stmts, i, depth);
      if IsBlock(stmts[i]) {
        StmtWithin(stmts, i);
        worst := WorstOf(Branches(stmts[i]), depth, worst);
      }
    }
    assert stmts[|stmts|..] == [];
  }

  method WorstOf(branches: seq<seq<Stmt>>, depth: nat, before: nat) returns (worst: nat)
    requires before >= depth
    ensures worst == Max(before, WorstBranch(branches, depth))
    decreases ListsSize(branches), 2
  {
    worst := before;
    assert branches[0..] == branches;
    for j := 0 to |branches|
      invariant worst >= depth
      invariant Max(worst, WorstBranch(branches[j..], depth)) == Max(before, WorstBranch(branches, depth))
    {
      BranchStep(branches, j, depth);
      ListWithin(branches, j);
      var sub := BlockDepth(branches[j], depth + 1);
      worst := Max(worst, sub);
    }
    assert branches[|branches|..] == [];
  }

  // `_scan_function_for_nesting`
  method ScanForNesting(body: seq<Stmt>) returns (reported: bool, worst: nat)
    ensures worst == MaxBlockDepth(body, 0)
    ensures reported <==> worst > 3
  {
    worst := BlockDepth(body, 0);
    reported := worst > NESTING_CEILING;
  }

  // A way down: at each level a non-empty branch of one of the statements.
  predicate IsPath(stmts: seq<Stmt>, path: seq<seq<Stmt>>)
    decreases |path|
  {
    path == [] ||
    (&& path[0] != [] && (exists i :: 0 <= i < |stmts| && HasBranch(stmts[i], path[0]))
     && IsPath(path[0], path[1..]))
  }

  function At(stmts: seq<Stmt>, path: seq<seq<Stmt>>): seq<Stmt>
    decreases |path|
  {
    if path == [] then stmts else At(path[0], path[1..])
  }

  lemma {:induction false} NonEmptyKeeps(lists: seq<seq<Stmt>>, list: seq<Stmt>)
    ensures list in NonEmpty(lists) <==> list in lists && list != []
  {
    if lists != [] {
      NonEmptyKeeps(lists[1..], list);
      assert list in lists <==> list == lists[0] || list in lists[1..] by {
        assert lists == [lists[0]] + lists[1..];
      }
    }
  }

  lemma {:induction false} DepthCoversStatement(stmts: seq<Stmt>, depth: nat, i: nat)
    requires i < |stmts| && IsBlock(stmts[i])
    ensures MaxBlockDepth(stmts, depth) >= WorstBranch(Branches(stmts[i]), depth)
  {
    if i > 0 { DepthCoversStatement(stmts[1..], depth, i - 1); }
  }

  lemma {:induction false} BranchIsCovered(stmts: seq<Stmt>, depth: nat, i: nat, list: seq<Stmt>)
    requires i < |stmts| && list != [] && HasBranch(stmts[i], list)
    ensures MaxBlockDepth(stmts, depth) >= MaxBlockDepth(list, depth + 1)
  {
    var s := stmts[i];
    BranchesMean(s, list);
    NonEmptyKeeps(AllBranches(s), list);
    var j :| 0 <= j < |Branches(s)| && Branches(s)[j] == list;
    WorstBranchCovers(Branches(s), depth, j);
    DepthCoversStatement(stmts, depth, i);
  }

  // The number is at least the length of every way down ...
  lemma {:induction false} DepthCoversPaths(stmts: seq<Stmt>, depth: nat, path: seq<seq<Stmt>>)
    requires IsPath(stmts, path)
    ensures MaxBlockDepth(stmts, depth) >= depth + |path|
    decreases |path|
  {
    if path != [] {
      DepthCoversPaths(path[0], depth + 1, path[1..]);
      var i :| 0 <= i < |stmts| && HasBranch(stmts[i], path[0]);
      BranchIsCovered(stmts, depth, i, path[0]);
    }
  }

  lemma PathInto(stmts: seq<Stmt>, branch: seq<Stmt>, below: seq<seq<Stmt>>) returns (path: seq<seq<Stmt>>)
    requires stmts != [] && branch in Branches(stmts[0]) && IsPath(branch, below)
    ensures IsPath(stmts, path) && |path| == |below| + 1
  {
    NonEmptyKeeps(AllBranches(stmts[0]), branch);
    BranchesMean(stmts[0], branch);
    path := [branch] + below;
    assert path[1..] == below;
  }

  lemma PathBeyond(stmts: seq<Stmt>, path: seq<seq<Stmt>>)
    requires stmts != [] && IsPath(stmts[1..], path)
    ensures IsPath(stmts, path)
  {
    if path != [] {
      var i :| 0 <= i < |stmts[1..]| && HasBranch(stmts[1..][i], path[0]);
      assert HasBranch(stmts[i + 1], path[0]);
    }
  }

  // ... and some way down is that long.
  lemma {:induction false} DepthIsReached(stmts: seq<Stmt>, depth: nat) returns (path: seq<seq<Stmt>>)
    ensures IsPath(stmts, path)
    ensures MaxBlockDepth(stmts, depth) == depth + |path|
    decreases Size(stmts), 1
  {
    path := [];
    if stmts != [] {
      DepthStep(stmts, 0, depth);
      assert stmts[0..] == stmts && Size(stmts) == StmtSize(stmts[0]) + Size(stmts[1..]);
      var s := stmts[0];
      if OwnDepth(s, depth) > MaxBlockDepth(stmts[1..], depth) {
        var j, below := WorstBranchIsReached(Branches(s), depth);
        path := PathInto(stmts, Branches(s)[j], below);
      } else {
        path := DepthIsReached(stmts[1..], depth);
        PathBeyond(stmts, path);
      }
    }
  }

  lemma {:induction false} WorstBranchIsReached(branches: seq<seq<Stmt>>, depth: nat)
    returns (j: nat, path: seq<seq<Stmt>>)
    requires WorstBranch(branches, depth) > depth
    ensures j < |branches| && IsPath(branches[j], path)
    ensures WorstBranch(branches, depth) == depth + 1 + |path|
    decreases ListsSize(branches), 2, |branches|
  {
    if MaxBlockDepth(branches[0], depth + 1) >= WorstBranch(branches[1..], depth) {
      j := 0;
      path := DepthIsReached(branches[0], depth + 1);
    } else {
      var k, p := WorstBranchIsReached(branches[1..], depth);
      j, path := k + 1, p;
    }
  }

  // Python's grammar: no branch of the chain has an empty body.
  predicate BodiesWritten(s: Stmt)
    requires s.If?
    decreases s
  {
    s.body != [] && (HasElif(s) ==> BodiesWritten(s.orelse[0]))
  }

  lemma {:induction false} ChainIsDeep(stmts: seq<Stmt>, depth: nat, i: nat)
    requires i < |stmts| && stmts[i].If? && BodiesWritten(stmts[i])
    ensures MaxBlockDepth(stmts, depth) >= depth + ChainLength(stmts[i])
    decreases stmts[i]
  {
    var s := stmts[i];
    var branch := if HasElif(s) then s.orelse else s.body;
    if HasElif(s) { ChainIsDeep(s.orelse, depth + 1, 0); }
    BranchIsCovered(stmts, depth, i, branch);
  }

  // An elif chain of length k at block depth d nests the function at least d + k deep.
  lemma {:induction false} ChainForcesDepth(fn: seq<Stmt>, depth: nat, path: seq<seq<Stmt>>, n: Stmt)
    requires IsPath(fn, path) && n in At(fn, path) && n.If? && BodiesWritten(n)
    ensures MaxBlockDepth(fn, depth) >= depth + |path| + ChainLength(n)
    decreases |path|
  {
    if path == [] {
      var i :| 0 <= i < |fn| && fn[i] == n;
      ChainIsDeep(fn, depth, i);
    } else {
      ChainForcesDepth(path[0], depth + 1, path[1..], n);
      var i :| 0 <= i < |fn| && HasBranch(fn[i], path[0]);
      BranchIsCovered(fn, depth, i, path[0]);
    }
  }

  // Of a chain that is reached through if, for, while, try and with blocks alone, what AP009
  // reports AP007 reports the function for too ...
  lemma {:induction false} LongChainMeansDeepNesting(fn: seq<Stmt>, path: seq<seq<Stmt>>, n: Stmt)
    requires IsPath(fn, path) && n in At(fn, path) && n.If? && BodiesWritten(n)
    requires ChainLength(n) >= ELIF_CHAIN_MIN
    ensures MaxBlockDepth(fn, 0) > NESTING_CEILING + 1 + |path|
  {
    ChainForcesDepth(fn, 0, path, n);
  }

  lemma InEither(n: Stmt, a: seq<Stmt>, b: seq<Stmt>)
    ensures n in a + b <==> n in a || n in b
  {
  }

  lemma {:induction false} InFirstOrRest(stmts: seq<Stmt>, n: Stmt)
    requires n in AllIfs(stmts)
    ensures stmts != [] && (n in IfsOf(stmts[0]) || n in AllIfs(stmts[1..]))
  {
    InEither(n, IfsOf(stmts[0]), AllIfs(stmts[1..]));
  }

  lemma {:induction false} IfsAreBelow(stmts: seq<Stmt>, n: Stmt) returns (s: Stmt)
    requires n in AllIfs(stmts)
    ensures s in stmts && n in IfsOf(s)
    decreases |stmts|
  {
    InFirstOrRest(stmts, n);
    if n in IfsOf(stmts[0]) {
      s := stmts[0];
    } else {
      s := IfsAreBelow(stmts[1..], n);
    }
  }

  lemma {:induction false} InFirstList(lists: seq<seq<Stmt>>, n: Stmt)
    requires n in AllIfs(Flatten(lists))
    ensures lists != [] && (n in AllIfs(lists[0]) || n in AllIfs(Flatten(lists[1..])))
  {
    if lists != [] {
      AllIfsConcat(lists[0], Flatten(lists[1..]));
      InEither(n, AllIfs(lists[0]), AllIfs(Flatten(lists[1..])));
    }
  }

  lemma {:induction false} IfsAreInList(lists: seq<seq<Stmt>>, n: Stmt) returns (j: nat)
    requires n in AllIfs(Flatten(lists))
    ensures j < |lists| && n in AllIfs(lists[j])
    decreases |lists|
  {
    InFirstList(lists, n);
    j := 0;
    if n !in AllIfs(lists[0]) {
      var k := IfsAreInList(lists[1..], n);
      j := k + 1;
    }
  }

  lemma {:induction false} IfsAreInBranch(s: Stmt, n: Stmt) returns (list: seq<Stmt>)
    requires n in IfsOf(s) && n != s && !s.Other?
    ensures HasBranch(s, list) && n in AllIfs(list)
    ensures Size(list) < StmtSize(s)
  {
    InEither(n, if s.If? then [s] else [], AllIfs(Children(s)));
    var j := IfsAreInList(AllBranches(s), n);
    list := AllBranches(s)[j];
    BranchesMean(s, list);
    ListWithin(AllBranches(s), j);
  }

  lemma PathThrough(stmts: seq<Stmt>, i: nat, list: seq<Stmt>, below: seq<seq<Stmt>>, via: Stmt)
    returns (path: seq<seq<Stmt>>)
    requires i < |stmts| && HasBranch(stmts[i], list) && list != []
    requires IsPath(list, below) && via in At(list, below)
    ensures IsPath(stmts, path) && via in At(stmts, path)
  {
    path := [list] + below;
    assert path[1..] == below;
  }

  // Every `if` is reached through such blocks, or stands below another kind of statement
  // (a nested definition, a match, a try*) that is.
  lemma {:induction false} IfsAreReached(stmts: seq<Stmt>, n: Stmt) returns (path: seq<seq<Stmt>>, via: Stmt)
    requires n in AllIfs(stmts)
    ensures IsPath(stmts, path) && via in At(stmts, path)
    ensures via == n || (via.Other? && n in IfsOf(via))
    decreases Size(stmts)
  {
    via := IfsAreBelow(stmts, n);
    var i :| 0 <= i < |stmts| && stmts[i] == via;
    path := [];
    if via != n && !via.Other? {
      var list := IfsAreInBranch(via, n);
      StmtWithin(stmts, i);
      var below, v := IfsAreReached(list, n);
      path := PathThrough(stmts, i, list, below, v);
      via := v;
    }
  }

  // ... so a chain that AP009 reports in a function that AP007 does not is below such a
  // statement ...
  lemma {:induction false} UnnestedLongChain(fn: seq<Stmt>, n: Stmt) returns (path: seq<seq<Stmt>>, via: Stmt)
    requires n in AllIfs(fn) && n.If? && BodiesWritten(n) && ChainLength(n) >= ELIF_CHAIN_MIN
    requires MaxBlockDepth(fn, 0) <= NESTING_CEILING
    ensures IsPath(fn, path) && via in At(fn, path) && via.Other? && n in IfsOf(via)
  {
    path, via := IfsAreReached(fn, n);
    if via == n { LongChainMeansDeepNesting(fn, path, n); }
  }

  // ... where it can be: what is below does not count for the depth, but its chains are found.
  lemma {:induction false} OtherHidesDepth(parts: seq<Block>)
    ensures MaxBlockDepth([Other(parts)], 0) == 0
    ensures Heads([Other(parts)]) == Heads(Flatten(Lists(parts)))
  {
    var fn := [Other(parts)];
    assert fn[1..] == [];
    assert Heads(fn) == HeadsOf(fn[0]) + Heads([]);
  }

  // ---------------------------------------------------------------- isinstance ladders (AP008)

  function LadderLength(s: Stmt): nat
    decreases s
  {
    if !s.If? || !s.isinstanceTest then 0
    else 1 + if |s.orelse| == 1 then LadderLength(s.orelse[0]) else 0
  }

  // `_isinstance_ladder_length`
  method IsinstanceLadderLength(node: Stmt) returns (length: nat)
    ensures length == LadderLength(node)
  {
    length := 0;
    var cur := Some(node);
    while cur.Some? && cur.value.If? && cur.value.isinstanceTest
      invariant length + (if cur.Some? then LadderLength(cur.value) else 0) == LadderLength(node)
      decreases if cur.Some? then StmtSize(cur.value) + 1 else 0
    {
      length := length + 1;
      if |cur.value.orelse| == 1 {
        assert Size(cur.value.orelse) == StmtSize(cur.value.orelse[0]) + Size(cur.value.orelse[1..]);
        cur := Some(cur.value.orelse[0]);
      } else {
        cur := None;
      }
    }
  }

  // An `if` that tests isinstance and the ones its else branches consist of, as far as they
  // test isinstance.
  predicate IsLadder(c: seq<Stmt>) {
    && c != [] && (forall j :: 0 <= j < |c| ==> c[j].If? && c[j].isinstanceTest)
    && (forall j :: 0 <= j < |c| - 1 ==> c[j].orelse == [c[j + 1]])
    && (var last := c[|c| - 1];
        !(|last.orelse| == 1 && last.orelse[0].If? && last.orelse[0].isinstanceTest))
  }

  // The length of a ladder is the number of its arms.
  lemma {:induction false} LadderLengthMeans(n: Stmt) returns (c: seq<Stmt>)
    requires n.If? && n.isinstanceTest
    ensures IsLadder(c) && c[0] == n && |c| == LadderLength(n)
    decreases n
  {
    c := [n];
    if |n.orelse| == 1 && n.orelse[0].If? && n.orelse[0].isinstanceTest {
      var below := LadderLengthMeans(n.orelse[0]);
      c := [n] + below;
    }
  }

  // `_is_isinstance_ladder_head`
  predicate IsLadderHead(s: Stmt) { s.If? && s.isinstanceTest && LadderLength(s) >= ISINSTANCE_LADDER_MIN }

  // The findings are the `If`s among these that pass the test, with their length.
  ghost predicate Listed(seen: seq<Stmt>, findings: seq<(Stmt, nat)>) {
    forall n, length: nat :: (n, length) in findings <==> n in seen && IsLadderHead(n) && length == LadderLength(n)
  }

  // No `If` is reported twice.
  predicate ReportedOnce(findings: seq<(Stmt, nat)>) {
    forall i, j :: 0 <= i < j < |findings| ==> findings[i].0 != findings[j].0
  }

  lemma ListStep(seen: seq<Stmt>, findings: seq<(Stmt, nat)>, n: Stmt)
    requires Listed(seen, findings)
    ensures var after := if IsLadderHead(n) then findings + [(n, LadderLength(n))] else findings;
            && Listed(seen + [n], after)
            && (n !in seen && ReportedOnce(findings) ==> ReportedOnce(after))
  {
    forall i | 0 <= i < |findings| ensures findings[i].0 in seen { assert (findings[i].0, findings[i].1) in findings; }
  }

  // The loop of `_scan_function_for_isinstance_ladder`.
  method ListLadders(ifs: seq<Stmt>) returns (findings: seq<(Stmt, nat)>)
    ensures Listed(ifs, findings)
    ensures (forall k :: 0 <= k < |ifs| ==> ifs[k] !in ifs[..k]) ==> ReportedOnce(findings)
  {
    findings := [];
    for k := 0 to |ifs|
      invariant Listed(ifs[..k], findings)
      invariant (forall i :: 0 <= i < k ==> ifs[i] !in ifs[..i]) ==> ReportedOnce(findings)
    {
      var n := ifs[k];
      ListStep(ifs[..k], findings, n);
      assert ifs[..k + 1] == ifs[..k] + [n];
      var length := IsinstanceLadderLength(n);
      if n.If? && n.isinstanceTest && length >= ISINSTANCE_LADDER_MIN {
        findings := findings + [(n, length)];
      }
    }
    assert ifs[..|ifs|] == ifs;
  }

  // `_scan_function_for_isinstance_ladder`; an AST node occurs once in its function.
  method ScanForIsinstanceLadder(fn: seq<Stmt>) returns (findings: seq<(Stmt, nat)>)
    ensures Listed(AllIfs(fn), findings)
    ensures DistinctIds(AllIfs(fn)) ==> ReportedOnce(findings)
  {
    var ifs := WalkIfs(fn);
    if DistinctIds(AllIfs(fn)) { WalkedOnce(fn, ifs); }
    SameMembers(ifs, AllIfs(fn));
    findings := ListLadders(ifs);
  }

  // The j-th arm of a ladder.
  function Arm(s: Stmt, j: nat): (arm: Stmt)
    requires j < LadderLength(s)
    ensures arm.If?
    decreases j
  {
    if j == 0 then s else Arm(s.orelse[0], j - 1)
  }

  lemma {:induction false} ArmLength(fn: seq<Stmt>, s: Stmt, j: nat)
    requires j < LadderLength(s)
    ensures LadderLength(Arm(s, j)) == LadderLength(s) - j
    ensures s in AllIfs(fn) ==> Arm(s, j) in AllIfs(fn)
    decreases j
  {
    if j > 0 {
      ArmLength(fn, s.orelse[0], j - 1);
      if s in AllIfs(fn) { ElifIsListed(fn, s); }
    }
  }

  // The docstring says only the first `if` of a ladder passes the test.  In fact every arm
  // with at least two more below it does ...
  lemma {:induction false} LadderReportsPerArm(fn: seq<Stmt>, s: Stmt, j: nat)
    requires s in AllIfs(fn) && j < LadderLength(s)
    ensures Arm(s, j) in AllIfs(fn)
    ensures IsLadderHead(Arm(s, j)) <==> j + 2 < LadderLength(s)
  {
    ArmLength(fn, s, j);
  }

  // The first k arms.
  ghost function Arms(s: Stmt, k: nat): set<Stmt>
    requires k <= LadderLength(s)
  {
    set j: nat | j < k :: Arm(s, j)
  }

  lemma {:induction false} LastArmIsNew(s: Stmt, k: nat)
    requires 0 < k <= LadderLength(s)
    ensures Arm(s, k - 1) !in Arms(s, k - 1)
  {
    ArmLength([], s, k - 1);
    forall j: nat | j < k - 1 ensures Arm(s, j) != Arm(s, k - 1) { ArmLength([], s, j); }
  }

  lemma {:induction false} ArmsCount(s: Stmt, k: nat)
    requires k <= LadderLength(s)
    ensures |Arms(s, k)| == k
  {
    if k > 0 {
      ArmsCount(s, k - 1);
      LastArmIsNew(s, k);
      assert Arms(s, k) == Arms(s, k - 1) + {Arm(s, k - 1)};
    }
  }

  // The nodes of `among` that are reported, and how many reports that makes.
  function ReportedNodes(findings: seq<(Stmt, nat)>, among: set<Stmt>): set<Stmt> {
    if findings == [] then {}
    else
      var n := findings[|findings| - 1].0;
      ReportedNodes(findings[..|findings| - 1], among) + if n in among then {n} else {}
  }

  function Reports(findings: seq<(Stmt, nat)>, among: set<Stmt>): nat {
    if findings == [] then 0
    else Reports(findings[..|findings| - 1], among) + if findings[|findings| - 1].0 in among then 1 else 0
  }

  lemma {:induction false} NodesAreReported(findings: seq<(Stmt, nat)>, among: set<Stmt>, n: Stmt)
    ensures n in ReportedNodes(findings, among) <==> n in among && exists i :: 0 <= i < |findings| && findings[i].0 == n
  {
    if findings != [] {
      var before := findings[..|findings| - 1];
      NodesAreReported(before, among, n);
      assert forall i :: 0 <= i < |before| ==> before[i] == findings[i];
    }
  }

  lemma {:induction false} OneReportEach(findings: seq<(Stmt, nat)>, among: set<Stmt>)
    requires ReportedOnce(findings)
    ensures Reports(findings, among) == |ReportedNodes(findings, among)|
  {
    if findings != [] {
      var before, n := findings[..|findings| - 1], findings[|findings| - 1].0;
      OneReportEach(before, among);
      NodesAreReported(before, among, n);
      assert n !in ReportedNodes(before, among);
    }
  }

  lemma {:induction false} ArmIsReported(fn: seq<Stmt>, s: Stmt, j: nat, findings: seq<(Stmt, nat)>)
    requires s in AllIfs(fn) && 2 <= LadderLength(s) && j < LadderLength(s) && Listed(AllIfs(fn), findings)
    ensures Arm(s, j) in ReportedNodes(findings, Arms(s, LadderLength(s))) <==> j + 2 < LadderLength(s)
    ensures Arm(s, j) in Arms(s, LadderLength(s) - 2) <==> j + 2 < LadderLength(s)
  {
    var arm, arms := Arm(s, j), Arms(s, LadderLength(s));
    LadderReportsPerArm(fn, s, j);
    NodesAreReported(findings, arms, arm);
    if IsLadderHead(arm) {
      assert (arm, LadderLength(arm)) in findings;
      var i :| 0 <= i < |findings| && findings[i] == (arm, LadderLength(arm));
      assert findings[i].0 == arm;
    } else {
      forall i | 0 <= i < |findings| ensures findings[i].0 != arm {
        assert (findings[i].0, findings[i].1) in findings;
      }
    }
    forall k: nat | k < LadderLength(s) && Arm(s, k) == arm ensures k == j { SameArm(s, k, j); }
  }

  lemma {:induction false} SameArm(s: Stmt, k: nat, j: nat)
    requires k < LadderLength(s) && j < LadderLength(s) && Arm(s, k) == Arm(s, j)
    ensures k == j
  {
    ArmLength([], s, k);
    ArmLength([], s, j);
  }

  // ... so a ladder of m arms, m at least 2, is reported m - 2 times ...
  lemma {:induction false} LadderReportCount(fn: seq<Stmt>, s: Stmt, findings: seq<(Stmt, nat)>)
    requires s in AllIfs(fn) && LadderLength(s) >= 2
    requires Listed(AllIfs(fn), findings) && ReportedOnce(findings)
    ensures Reports(findings, Arms(s, LadderLength(s))) == LadderLength(s) - 2
  {
    var arms, some := Arms(s, LadderLength(s)), Arms(s, LadderLength(s) - 2);
    assert some <= arms;
    forall n ensures n in ReportedNodes(findings, arms) <==> n in some {
      if n in arms {
        var j: nat :| j < LadderLength(s) && Arm(s, j) == n;
        ArmIsReported(fn, s, j, findings);
      } else {
        NodesAreReported(findings, arms, n);
      }
    }
    assert ReportedNodes(findings, arms) == some;
    OneReportEach(findings, arms);
    ArmsCount(s, LadderLength(s) - 2);
  }

  predicate OnlyFirstIsHead(s: Stmt) {
    forall j: nat :: j < LadderLength(s) && IsLadderHead(Arm(s, j)) ==> j == 0
  }

  // ... and the docstring is right exactly about ladders of three arms.
  lemma {:induction false} LadderReportedOnce(s: Stmt)
    requires IsLadderHead(s)
    ensures OnlyFirstIsHead(s) <==> LadderLength(s) == ISINSTANCE_LADDER_MIN
  {
    forall j: nat | j < LadderLength(s)
      ensures IsLadderHead(Arm(s, j)) <==> j + 2 < LadderLength(s)
    {
      ArmLength([], s, j);
    }
    assert IsLadderHead(Arm(s, 1)) <==> 3 < LadderLength(s);
  }
}
