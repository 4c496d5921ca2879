/** The block tree of a stylesheet: apps/docs/scripts/check-contracts.ts, `cssBlocks`. */
module CssGrammar {
  import opened Basics
  import opened Wrappers
  import opened CssText

  datatype CssBlock = CssBlock(body: string, children: seq<CssBlock>, ownBody: string, prelude: string)

  // ---------------------------------------------------------------- what a stylesheet means

  /**
   * The grammar. The content of a stylesheet or of a block is a list of nested blocks, each after the declarations
   * that lead up to it, and the declarations after the last one.
   */
  datatype Content = Content(nodes: seq<Node>, tail: seq<Token>)
  datatype Node = Node(lead: seq<Token>, prelude: seq<Token>, content: Content)

  const OPEN: Token := Ch('{')
  const CLOSE: Token := Ch('}')
  const SEMICOLON: Token := Ch(';')

  predicate IsPlain(tokens: seq<Token>) {
    forall i :: 0 <= i < |tokens| ==> tokens[i] != OPEN && tokens[i] != CLOSE
  }

  /** Declarations end in a semicolon; a prelude holds none; braces only stand around blocks. */
  predicate WellFormed(c: Content) {
    (forall i :: 0 <= i < |c.nodes| ==> WellFormedNode(c.nodes[i])) && IsPlain(c.tail)
  }

  predicate WellFormedNode(n: Node) {
    && IsPlain(n.lead) && (n.lead == [] || n.lead[|n.lead| - 1] == SEMICOLON)
    && IsPlain(n.prelude) && SEMICOLON !in n.prelude
    && WellFormed(n.content)
  }

  function Flatten(c: Content): seq<Token> {
    FlattenNodes(c.nodes) + c.tail
  }

  function FlattenNodes(nodes: seq<Node>): seq<Token> {
    if nodes == [] then []
    else FlattenNodes(nodes[..|nodes| - 1]) + FlattenNode(nodes[|nodes| - 1])
  }

  function FlattenNode(n: Node): seq<Token> {
    n.lead + n.prelude + [OPEN] + Flatten(n.content) + [CLOSE]
  }

  /** The content without the blocks nested in it. */
  function Own(c: Content): seq<Token> {
    Leads(c.nodes) + c.tail
  }

  function Leads(nodes: seq<Node>): seq<Token> {
    if nodes == [] then [] else Leads(nodes[..|nodes| - 1]) + nodes[|nodes| - 1].lead
  }

  function Blocks(nodes: seq<Node>): seq<CssBlock> {
    if nodes == [] then [] else Blocks(nodes[..|nodes| - 1]) + [Block(nodes[|nodes| - 1])]
  }

  function Block(n: Node): CssBlock {
    CssBlock(Text(Flatten(n.content)), Blocks(n.content.nodes), Text(Own(n.content)), Collapse(Text(n.prelude)))
  }

  // ---------------------------------------------------------------- whitespace

  /** What `\s` matches and `trim` removes. */
  predicate IsSpace(c: char) {
    var n := c as int;
    9 <= n <= 13 || n == 0x20 || n == 0xA0 || n == 0x1680 || 0x2000 <= n <= 0x200A || n == 0x2028 || n == 0x2029
    || n == 0x202F || n == 0x205F || n == 0x3000 || n == 0xFEFF
  }

  /** Each run of whitespace becomes one space. `after` tells whether the text follows a whitespace character. */
  function Squeeze(s: string, after: bool): string {
    if s == "" then ""
    else if IsSpace(s[0]) then (if after then "" else " ") + Squeeze(s[1..], true)
    else [s[0]] + Squeeze(s[1..], false)
  }

  function TrimStart(s: string): string {
    if s != "" && IsSpace(s[0]) then TrimStart(s[1..]) else s
  }

  function TrimEnd(s: string): string {
    if s != "" && IsSpace(s[|s| - 1]) then TrimEnd(s[..|s| - 1]) else s
  }

  function Collapse(s: string): string {
    TrimEnd(TrimStart(Squeeze(s, false)))
  }

  // ---------------------------------------------------------------- a machine that reads the tokens

  /** An unfinished block: its finished children, and the declarations and the statement read since the last of them. */
  datatype Frame = Frame(nodes: seq<Node>, lead: seq<Token>, statement: seq<Token>)

  /** The unfinished blocks, with the stylesheet itself at the base. A block's prelude is the statement below it. */
  datatype Stack = Base(top: Frame) | Above(below: Stack, top: Frame)

  const EMPTY: Frame := Frame([], [], [])

  function ContentOf(f: Frame): Content {
    Content(f.nodes, f.lead + f.statement)
  }

  function Feed(stack: Stack, t: Token): Option<Stack> {
    var top := stack.top;
    if t == OPEN then Some(Above(stack, EMPTY))
    else if t == CLOSE then
      if stack.Base? then None
      else
        var parent := stack.below.top;
        Some(stack.below.(top := Frame(parent.nodes + [Node(parent.lead, parent.statement, ContentOf(top))], [], [])))
    else if t == SEMICOLON then Some(stack.(top := Frame(top.nodes, top.lead + top.statement + [t], [])))
    else Some(stack.(top := Frame(top.nodes, top.lead, top.statement + [t])))
  }

  function FeedAll(stack: Stack, tokens: seq<Token>): Option<Stack>
    decreases |tokens|
  {
    if tokens == [] then Some(stack)
    else
      var next := Feed(stack, tokens[0]);
      if next.None? then None else FeedAll(next.value, tokens[1..])
  }

  /** The content the tokens spell, if they spell one. */
  function Parse(tokens: seq<Token>): Option<Content> {
    var r := FeedAll(Base(EMPTY), tokens);
    if r.Some? && r.value.Base? then Some(ContentOf(r.value.top)) else None
  }

  // ---------------------------------------------------------------- the machine decides the grammar

  function FlattenFrame(f: Frame): seq<Token> {
    FlattenNodes(f.nodes) + f.lead + f.statement
  }

  /** The tokens read into the frames of a stack. */
  function FlattenStack(stack: Stack): seq<Token> {
    match stack
    case Base(top) => FlattenFrame(top)
    case Above(below, top) => FlattenStack(below) + [OPEN] + FlattenFrame(top)
  }

  predicate WellFormedFrame(f: Frame) {
    && (forall i :: 0 <= i < |f.nodes| ==> WellFormedNode(f.nodes[i]))
    && IsPlain(f.lead) && (f.lead == [] || f.lead[|f.lead| - 1] == SEMICOLON)
    && IsPlain(f.statement) && SEMICOLON !in f.statement
  }

  predicate WellFormedStack(stack: Stack) {
    WellFormedFrame(stack.top) && (stack.Above? ==> WellFormedStack(stack.below))
  }

  /** Reading more into the top frame reads it into the stack. */
  lemma TopGrows(stack: Stack, top: Frame, more: seq<Token>)
    requires FlattenFrame(top) == FlattenFrame(stack.top) + more
    ensures FlattenStack(stack.(top := top)) == FlattenStack(stack) + more
  {
    if stack.Above? {
      Regroup(FlattenStack(stack.below) + [OPEN], FlattenFrame(stack.top), more);
    }
  }

  lemma NodesGrow(nodes: seq<Node>, node: Node)
    ensures FlattenNodes(nodes + [node]) == FlattenNodes(nodes) + FlattenNode(node)
    ensures Leads(nodes + [node]) == Leads(nodes) + node.lead
    ensures Blocks(nodes + [node]) == Blocks(nodes) + [Block(node)]
  {
    assert (nodes + [node])[..|nodes|] == nodes;
  }

  lemma Splice<T>(n: seq<T>, l: seq<T>, s: seq<T>, o: seq<T>, c: seq<T>, e: seq<T>)
    ensures n + (l + s + o + c + e) == n + l + s + (o + c + e)
    ensures n + (o + c + e) == n + o + c + e
  {
  }

  lemma FlattenContent(f: Frame)
    ensures Flatten(ContentOf(f)) == FlattenFrame(f)
  {
    Regroup(FlattenNodes(f.nodes), f.lead, f.statement);
  }

  lemma FlattenWhole(nodes: seq<Node>)
    ensures FlattenFrame(Frame(nodes, [], [])) == FlattenNodes(nodes)
  {
    hide FlattenNodes;
  }

  /** Closing a block moves its tokens, between braces, into its parent. */
  lemma CloseFlatten(parent: Frame, child: Frame)
    ensures var closed := Frame(parent.nodes + [Node(parent.lead, parent.statement, ContentOf(child))], [], []);
            FlattenFrame(closed) == FlattenFrame(parent) + ([OPEN] + FlattenFrame(child) + [CLOSE])
  {
    var node := Node(parent.lead, parent.statement, ContentOf(child));
    NodesGrow(parent.nodes, node);
    FlattenContent(child);
    FlattenWhole(parent.nodes + [node]);
    Splice(FlattenNodes(parent.nodes), parent.lead, parent.statement, [OPEN], FlattenFrame(child), [CLOSE]);
    assert FlattenNode(node) == parent.lead + parent.statement + [OPEN] + FlattenFrame(child) + [CLOSE];
    assert FlattenFrame(parent) == FlattenNodes(parent.nodes) + parent.lead + parent.statement;
    hide *;
  }

  lemma FeedFlatten(stack: Stack, t: Token)
    requires Feed(stack, t).Some?
    ensures FlattenStack(Feed(stack, t).value) == FlattenStack(stack) + [t]
  {
    var top, after := stack.top, Feed(stack, t).value;
    if t == OPEN {
      FlattenWhole([]);
      NoNodes();
    } else if t == CLOSE {
      CloseFlatten(stack.below.top, top);
      TopGrows(stack.below, after.top, [OPEN] + FlattenFrame(top) + [CLOSE]);
      Splice(FlattenStack(stack.below), [], [], [OPEN], FlattenFrame(top), [CLOSE]);
      hide FlattenFrame, FlattenNodes;
    } else {
      GrowFrame(top, t);
      TopGrows(stack, after.top, [t]);
      hide FlattenStack, FlattenFrame;
    }
  }

  lemma GrowFrame(f: Frame, t: Token)
    ensures FlattenFrame(Frame(f.nodes, f.lead, f.statement + [t])) == FlattenFrame(f) + [t]
    ensures FlattenFrame(Frame(f.nodes, f.lead + f.statement + [t], [])) == FlattenFrame(f) + [t]
  {
    hide FlattenNodes;
  }

  lemma FeedWellFormed(stack: Stack, t: Token)
    requires WellFormedStack(stack) && Feed(stack, t).Some?
    ensures WellFormedStack(Feed(stack, t).value)
  {
  }

  /** Whatever the machine reads is spelt by the frames it leaves. */
  lemma {:induction false} FeedAllSound(stack: Stack, tokens: seq<Token>)
    requires WellFormedStack(stack) && FeedAll(stack, tokens).Some?
    ensures var after := FeedAll(stack, tokens).value;
            WellFormedStack(after) && FlattenStack(after) == FlattenStack(stack) + tokens
    decreases |tokens|
  {
    if tokens == [] {
    } else {
      FeedWellFormed(stack, tokens[0]);
      FeedFlatten(stack, tokens[0]);
      FeedAllSound(Feed(stack, tokens[0]).value, tokens[1..]);
      Regroup(FlattenStack(stack), [tokens[0]], tokens[1..]);
      assert [tokens[0]] + tokens[1..] == tokens;
      hide FlattenStack, WellFormedStack, Feed;
    }
  }

  lemma NoNodes()
    ensures FlattenNodes([]) == [] && Leads([]) == [] && Blocks([]) == []
  {
  }

  lemma {:induction false} FeedAllConcat(stack: Stack, a: seq<Token>, b: seq<Token>)
    ensures FeedAll(stack, a + b)
         == if FeedAll(stack, a).None? then None else FeedAll(FeedAll(stack, a).value, b)
    decreases |a|
  {
    if a == [] {
      assert a + b == b;
    } else {
      assert (a + b)[0] == a[0] && (a + b)[1..] == a[1..] + b;
      if Feed(stack, a[0]).Some? {
        FeedAllConcat(Feed(stack, a[0]).value, a[1..], b);
      }
      hide Feed;
    }
  }

  lemma FeedOne(stack: Stack, t: Token)
    ensures FeedAll(stack, [t]) == Feed(stack, t)
  {
    assert [t][1..] == [];
  }

  lemma FeedPlainOne(stack: Stack, t: Token)
    requires t != OPEN && t != CLOSE
    ensures Feed(stack, t).Some?
    ensures var after, f := Feed(stack, t).value, stack.top;
            && after
               == stack.(top :=
                    if t == SEMICOLON then Frame(f.nodes, f.lead + f.statement + [t], [])
                    else Frame(f.nodes, f.lead, f.statement + [t]))
            && after.top.lead + after.top.statement == f.lead + f.statement + [t]
  {
  }

  /** Tokens other than braces stay in the top frame; a last semicolon ends the statement. */
  lemma {:induction false} FeedPlain(stack: Stack, tokens: seq<Token>)
    requires IsPlain(tokens)
    ensures FeedAll(stack, tokens).Some?
    ensures var after := FeedAll(stack, tokens).value;
            && after == stack.(top := after.top)
            && after.top.nodes == stack.top.nodes
            && after.top.lead + after.top.statement == stack.top.lead + stack.top.statement + tokens
            && (SEMICOLON !in tokens ==> after.top == stack.top.(statement := stack.top.statement + tokens))
            && (tokens != [] && tokens[|tokens| - 1] == SEMICOLON ==> after.top.statement == [])
    decreases |tokens|
  {
    if tokens == [] {
    } else {
      FeedPlainOne(stack, tokens[0]);
      hide Feed;
      var next := Feed(stack, tokens[0]).value;
      FeedPlain(next, tokens[1..]);
      assert tokens == [tokens[0]] + tokens[1..];
    }
  }

  lemma FeedLead(stack: Stack, lead: seq<Token>)
    requires stack.top.lead == [] && stack.top.statement == []
    requires IsPlain(lead) && (lead == [] || lead[|lead| - 1] == SEMICOLON)
    ensures FeedAll(stack, lead) == Some(stack.(top := Frame(stack.top.nodes, lead, [])))
  {
    FeedPlain(stack, lead);
    var top := FeedAll(stack, lead).value.top;
    if lead != [] {
      assert top.lead == top.lead + top.statement == lead;
    }
  }

  lemma FeedNode(stack: Stack, node: Node)
    requires stack.top.lead == [] && stack.top.statement == [] && WellFormedNode(node)
    ensures FeedAll(stack, FlattenNode(node)) == Some(stack.(top := Frame(stack.top.nodes + [node], [], [])))
    decreases node, 0
  {
    var led := stack.(top := Frame(stack.top.nodes, node.lead, []));
    var stated := stack.(top := Frame(stack.top.nodes, node.lead, node.prelude));
    FeedLead(stack, node.lead);
    FeedPlain(led, node.prelude);
    assert [] + node.prelude == node.prelude;
    FeedOne(stated, OPEN);
    assert FeedAll(led, node.prelude) == Some(stated);
    assert Feed(stated, OPEN) == Some(Above(stated, EMPTY));
    FeedBody(Above(stated, EMPTY), node.content);
    var inner := FeedAll(Above(stated, EMPTY), Flatten(node.content)).value;
    FeedOne(inner, CLOSE);
    assert Feed(inner, CLOSE) == Some(stack.(top := Frame(stack.top.nodes + [node], [], [])));
    FeedAllConcat(stack, node.lead, node.prelude);
    FeedAllConcat(stack, node.lead + node.prelude, [OPEN]);
    FeedAllConcat(stack, node.lead + node.prelude + [OPEN], Flatten(node.content));
    FeedAllConcat(stack, node.lead + node.prelude + [OPEN] + Flatten(node.content), [CLOSE]);
    hide FeedAll, Feed, Flatten, WellFormedNode;
  }

  lemma {:induction false} FeedNodes(stack: Stack, nodes: seq<Node>)
    requires stack.top.lead == [] && stack.top.statement == []
    requires forall i :: 0 <= i < |nodes| ==> WellFormedNode(nodes[i])
    ensures FeedAll(stack, FlattenNodes(nodes)) == Some(stack.(top := Frame(stack.top.nodes + nodes, [], [])))
    decreases nodes, 0
  {
    if nodes == [] {
      assert stack.top == Frame(stack.top.nodes + nodes, [], []);
    } else {
      var rest, last := nodes[..|nodes| - 1], nodes[|nodes| - 1];
      FeedNodes(stack, rest);
      FeedNode(stack.(top := Frame(stack.top.nodes + rest, [], [])), last);
      FeedAllConcat(stack, FlattenNodes(rest), FlattenNode(last));
      assert (stack.top.nodes + rest) + [last] == stack.top.nodes + nodes;
      hide FeedAll, FlattenNode;
    }
  }

  /** The machine finds the content the tokens spell. */
  lemma FeedBody(stack: Stack, c: Content)
    requires WellFormed(c) && stack.top == EMPTY
    ensures var r := FeedAll(stack, Flatten(c));
            r.Some? && r.value == stack.(top := r.value.top) && ContentOf(r.value.top) == c
    decreases c
  {
    var filled := stack.(top := Frame(c.nodes, [], []));
    FeedNodes(stack, c.nodes);
    assert EMPTY.nodes + c.nodes == c.nodes;
    FeedPlain(filled, c.tail);
    FeedAllConcat(stack, FlattenNodes(c.nodes), c.tail);
    assert ContentOf(FeedAll(filled, c.tail).value.top).tail == c.tail;
    hide FeedAll, FlattenNodes;
  }

  /** A content is read back from the tokens it spells. */
  lemma ParseComplete(c: Content)
    requires WellFormed(c)
    ensures Parse(Flatten(c)) == Some(c)
  {
    FeedBody(Base(EMPTY), c);
  }

  /** What is read spells the tokens. */
  lemma ParseSound(tokens: seq<Token>)
    requires Parse(tokens).Some?
    ensures WellFormed(Parse(tokens).value) && Flatten(Parse(tokens).value) == tokens
  {
    FeedAllSound(Base(EMPTY), tokens);
    var top := FeedAll(Base(EMPTY), tokens).value.top;
    FlattenContent(top);
    FlattenWhole([]);
    NoNodes();
    assert [] + tokens == tokens;
    assert IsPlain(top.lead + top.statement);
  }

  /** Every content spells different tokens, and the machine finds the one content there is. */
  lemma ParseExact(tokens: seq<Token>, c: Content)
    ensures Parse(tokens) == Some(c) <==> WellFormed(c) && Flatten(c) == tokens
  {
    if Parse(tokens) == Some(c) {
      ParseSound(tokens);
    }
    if WellFormed(c) && Flatten(c) == tokens {
      ParseComplete(c);
    }
  }

  // ---------------------------------------------------------------- balance

  /** Counting braces, with `depth` blocks open, never closes more than are open and ends with none open. */
  predicate Balanced(tokens: seq<Token>, depth: nat)
    decreases |tokens|
  {
    if tokens == [] then depth == 0
    else if tokens[0] == OPEN then Balanced(tokens[1..], depth + 1)
    else if tokens[0] == CLOSE then 0 < depth && Balanced(tokens[1..], depth - 1)
    else Balanced(tokens[1..], depth)
  }

  function Depth(stack: Stack): nat {
    if stack.Base? then 0 else Depth(stack.below) + 1
  }

  lemma FeedDepth(stack: Stack, t: Token)
    ensures Feed(stack, t).None? <==> t == CLOSE && Depth(stack) == 0
    ensures Feed(stack, t).Some? ==>
              Depth(Feed(stack, t).value) == Depth(stack) + if t == OPEN then 1 else if t == CLOSE then -1 else 0
  {
  }

  lemma {:induction false} FeedAllBalanced(stack: Stack, tokens: seq<Token>)
    ensures Balanced(tokens, Depth(stack)) <==> FeedAll(stack, tokens).Some? && FeedAll(stack, tokens).value.Base?
    decreases |tokens|
  {
    if tokens == [] {
    } else {
      FeedDepth(stack, tokens[0]);
      if Feed(stack, tokens[0]).Some? {
        FeedAllBalanced(Feed(stack, tokens[0]).value, tokens[1..]);
      }
      hide Feed, Depth;
    }
  }

  lemma ParseIffBalanced(tokens: seq<Token>)
    ensures Parse(tokens).Some? <==> Balanced(tokens, 0)
  {
    FeedAllBalanced(Base(EMPTY), tokens);
  }
}
