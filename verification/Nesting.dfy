/** Listing a stylesheet's blocks with what they are nested in: apps/docs/scripts/check-contracts.ts, `nestedBlocks`. */
module Nesting {
  import opened Basics
  import opened Wrappers
  import opened CssText
  import opened CssGrammar
  import opened Stylesheet

  /** Every block, with the preludes of the blocks it is nested in. */
  function NestedBlocks(blocks: seq<CssBlock>, outer: seq<string>): seq<(CssBlock, seq<string>)>
    decreases blocks
  {
    if blocks == [] then []
    else
      var n := |blocks| - 1;
      NestedBlocks(blocks[..n], outer) + [(blocks[n], outer)]
        + NestedBlocks(blocks[n].children, outer + [blocks[n].prelude])
  }

  /**
   * What a brace opens: the prelude before it, those of the blocks around it, and the text up to the brace that closes
   * it.
   */
  datatype Opening = Opening(prelude: string, outer: seq<string>, body: string)

  /** The tokens before the brace that closes `depth` blocks and the one around them. */
  function UpToClose(tokens: seq<Token>, depth: nat): seq<Token>
    decreases |tokens|
  {
    if tokens == [] || (tokens[0] == CLOSE && depth == 0) then []
    else
      var inside := if tokens[0] == OPEN then depth + 1 else if tokens[0] == CLOSE then depth - 1 else depth;
      [tokens[0]] + UpToClose(tokens[1..], inside)
  }

  /**
   * The opening braces in order, found without a tree: `outer` are the preludes of the blocks open so far, and
   * `statement` is what has been read since the last brace or semicolon.
   */
  function Openings(tokens: seq<Token>, outer: seq<string>, statement: seq<Token>): seq<Opening>
    decreases |tokens|
  {
    if tokens == [] then []
    else if tokens[0] == OPEN then
      var prelude := Collapse(Text(statement));
      [Opening(prelude, outer, Text(UpToClose(tokens[1..], 0)))] + Openings(tokens[1..], outer + [prelude], [])
    else if tokens[0] == CLOSE then Openings(tokens[1..], if outer == [] then [] else outer[..|outer| - 1], [])
    else if tokens[0] == SEMICOLON then Openings(tokens[1..], outer, [])
    else Openings(tokens[1..], outer, statement + [tokens[0]])
  }

  function Summary(list: seq<(CssBlock, seq<string>)>): seq<Opening> {
    if list == [] then []
    else
      var (block, outer) := list[|list| - 1];
      Summary(list[..|list| - 1]) + [Opening(block.prelude, outer, block.body)]
  }

  lemma {:induction false} SummaryConcat(a: seq<(CssBlock, seq<string>)>, b: seq<(CssBlock, seq<string>)>)
    ensures Summary(a + b) == Summary(a) + Summary(b)
  {
    if b == [] {
      assert a + b == a;
    } else {
      var n := |b| - 1;
      SummaryConcat(a, b[..n]);
      assert (a + b)[..|a| + n] == a + b[..n] && (a + b)[|a| + n] == b[n];
    }
  }

  // ---------------------------------------------------------------- the brace that closes a block

  lemma PlainTokenUpToClose(t: Token, more: seq<Token>, depth: nat)
    requires t != OPEN && t != CLOSE
    ensures UpToClose([t] + more, depth) == [t] + UpToClose(more, depth)
  {
    assert ([t] + more)[1..] == more;
  }

  /** What holds no brace, and what closes all it opens, is passed over. */
  lemma {:induction false} PlainUpToClose(tokens: seq<Token>, more: seq<Token>, depth: nat)
    requires IsPlain(tokens)
    ensures UpToClose(tokens + more, depth) == tokens + UpToClose(more, depth)
    decreases |tokens|
  {
    if tokens == [] {
      assert tokens + more == more;
    } else {
      PlainTokenUpToClose(tokens[0], tokens[1..] + more, depth);
      hide UpToClose;
      PlainUpToClose(tokens[1..], more, depth);
      assert tokens == [tokens[0]] + tokens[1..];
      Regroup([tokens[0]], tokens[1..], more);
      Regroup([tokens[0]], tokens[1..], UpToClose(more, depth));
    }
  }

  lemma OneUpToClose(t: Token, more: seq<Token>, depth: nat)
    ensures t == OPEN ==> UpToClose([t] + more, depth) == [t] + UpToClose(more, depth + 1)
    ensures t == CLOSE && depth > 0 ==> UpToClose([t] + more, depth) == [t] + UpToClose(more, depth - 1)
    ensures t == CLOSE && depth == 0 ==> UpToClose([t] + more, depth) == []
  {
    assert ([t] + more)[1..] == more;
  }

  lemma Splice4<T>(a: seq<T>, b: seq<T>, c: seq<T>, d: seq<T>, e: seq<T>, more: seq<T>)
    ensures a + b + c + d + e + more == a + (b + (c + (d + (e + more))))
  {
  }

  lemma NodeUpToClose(n: Node, more: seq<Token>, depth: nat)
    requires WellFormedNode(n)
    ensures UpToClose(FlattenNode(n) + more, depth) == FlattenNode(n) + UpToClose(more, depth)
    decreases n, 0
  {
    var c := Flatten(n.content);
    assert FlattenNode(n) == n.lead + n.prelude + [OPEN] + c + [CLOSE];
    ContentUpToClose(n.content, [CLOSE] + more, depth + 1);
    PlainUpToClose(n.lead, n.prelude + ([OPEN] + (c + ([CLOSE] + more))), depth);
    PlainUpToClose(n.prelude, [OPEN] + (c + ([CLOSE] + more)), depth);
    OneUpToClose(OPEN, c + ([CLOSE] + more), depth);
    OneUpToClose(CLOSE, more, depth + 1);
    hide *;
    Splice4(n.lead, n.prelude, [OPEN], c, [CLOSE], more);
    Splice4(n.lead, n.prelude, [OPEN], c, [CLOSE], UpToClose(more, depth));
  }

  lemma {:induction false} NodesUpToClose(nodes: seq<Node>, more: seq<Token>, depth: nat)
    requires forall i :: 0 <= i < |nodes| ==> WellFormedNode(nodes[i])
    ensures UpToClose(FlattenNodes(nodes) + more, depth) == FlattenNodes(nodes) + UpToClose(more, depth)
    decreases nodes, 0
  {
    if nodes == [] {
      assert FlattenNodes(nodes) + more == more;
    } else {
      var rest, last := nodes[..|nodes| - 1], nodes[|nodes| - 1];
      NodesUpToClose(rest, FlattenNode(last) + more, depth);
      NodeUpToClose(last, more, depth);
      assert FlattenNodes(nodes) == FlattenNodes(rest) + FlattenNode(last);
      hide *;
      Regroup(FlattenNodes(rest), FlattenNode(last), more);
      Regroup(FlattenNodes(rest), FlattenNode(last), UpToClose(more, depth));
    }
  }

  lemma ContentUpToClose(c: Content, more: seq<Token>, depth: nat)
    requires WellFormed(c)
    ensures UpToClose(Flatten(c) + more, depth) == Flatten(c) + UpToClose(more, depth)
    decreases c
  {
    NodesUpToClose(c.nodes, c.tail + more, depth);
    PlainUpToClose(c.tail, more, depth);
    assert Flatten(c) == FlattenNodes(c.nodes) + c.tail;
    hide *;
    Regroup(FlattenNodes(c.nodes), c.tail, more);
    Regroup(FlattenNodes(c.nodes), c.tail, UpToClose(more, depth));
  }

  // ---------------------------------------------------------------- the openings of a reading

  lemma {:induction false} StatementOpenings(
    tokens: seq<Token>, more: seq<Token>, outer: seq<string>, statement: seq<Token>)
    requires IsPlain(tokens) && SEMICOLON !in tokens
    ensures Openings(tokens + more, outer, statement) == Openings(more, outer, statement + tokens)
    decreases |tokens|
  {
    if tokens == [] {
      assert tokens + more == more && statement + tokens == statement;
    } else {
      assert (tokens + more)[0] == tokens[0] && (tokens + more)[1..] == tokens[1..] + more;
      StatementOpenings(tokens[1..], more, outer, statement + [tokens[0]]);
      assert (statement + [tokens[0]]) + tokens[1..] == statement + tokens;
    }
    hide Collapse, Text, UpToClose;
  }

  /** Declarations that end in a semicolon, or any before a closing brace or the end. */
  lemma {:induction false} PlainOpenings(
    tokens: seq<Token>, more: seq<Token>, outer: seq<string>, statement: seq<Token>)
    requires IsPlain(tokens)
    requires (tokens == [] && statement == []) || (tokens != [] && tokens[|tokens| - 1] == SEMICOLON) || more == []
             || more[0] == CLOSE
    ensures Openings(tokens + more, outer, statement) == Openings(more, outer, [])
    decreases |tokens|
  {
    if tokens == [] {
      assert tokens + more == more;
    } else {
      assert (tokens + more)[0] == tokens[0] && (tokens + more)[1..] == tokens[1..] + more;
      PlainOpenings(tokens[1..], more, outer, if tokens[0] == SEMICOLON then [] else statement + [tokens[0]]);
    }
    hide Collapse, Text, UpToClose;
  }

  /** The listing of one block and what is in it. */
  function Listed(block: CssBlock, outer: seq<string>): seq<Opening> {
    [Opening(block.prelude, outer, block.body)] + Summary(NestedBlocks(block.children, outer + [block.prelude]))
  }

  lemma OpenOpenings(more: seq<Token>, outer: seq<string>, statement: seq<Token>)
    ensures Openings([OPEN] + more, outer, statement)
         == [Opening(Collapse(Text(statement)), outer, Text(UpToClose(more, 0)))]
            + Openings(more, outer + [Collapse(Text(statement))], [])
  {
    assert ([OPEN] + more)[1..] == more;
    hide Collapse, Text, UpToClose;
  }

  lemma CloseOpenings(more: seq<Token>, outer: seq<string>, prelude: string)
    ensures Openings([CLOSE] + more, outer + [prelude], []) == Openings(more, outer, [])
  {
    assert ([CLOSE] + more)[1..] == more && (outer + [prelude])[..|outer|] == outer;
    hide Collapse, Text, UpToClose;
  }

  lemma NodeOpenings(n: Node, more: seq<Token>, outer: seq<string>)
    requires WellFormedNode(n)
    ensures Openings(FlattenNode(n) + more, outer, []) == Listed(Block(n), outer) + Openings(more, outer, [])
    decreases n, 0
  {
    var c, p := Flatten(n.content), Collapse(Text(n.prelude));
    var inner := c + ([CLOSE] + more);
    assert FlattenNode(n) == n.lead + n.prelude + [OPEN] + c + [CLOSE];
    PlainOpenings(n.lead, n.prelude + ([OPEN] + inner), outer, []);
    StatementOpenings(n.prelude, [OPEN] + inner, outer, []);
    OpenOpenings(inner, outer, n.prelude);
    ContentUpToClose(n.content, [CLOSE] + more, 0);
    OneUpToClose(CLOSE, more, 0);
    ContentOpenings(n.content, [CLOSE] + more, outer + [p]);
    CloseOpenings(more, outer, p);
    Splice4(n.lead, n.prelude, [OPEN], c, [CLOSE], more);
    assert Block(n).prelude == p && Block(n).body == Text(c) && Block(n).children == Blocks(n.content.nodes);
    assert c + [] == c && [] + n.prelude == n.prelude;
    assert Listed(Block(n), outer)
        == [Opening(p, outer, Text(c))] + Summary(NestedBlocks(Blocks(n.content.nodes), outer + [p]));
    hide *;
    Regroup(
      [Opening(p, outer, Text(c))], Summary(NestedBlocks(Blocks(n.content.nodes), outer + [p])),
      Openings(more, outer, []));
  }

  lemma ListMore(nodes: seq<Node>, n: Node, outer: seq<string>)
    ensures Summary(NestedBlocks(Blocks(nodes + [n]), outer))
         == Summary(NestedBlocks(Blocks(nodes), outer)) + Listed(Block(n), outer)
  {
    var before, block := Blocks(nodes), Block(n);
    NodesGrow(nodes, n);
    assert (before + [block])[..|before|] == before;
    var inner := NestedBlocks(block.children, outer + [block.prelude]);
    assert NestedBlocks(before + [block], outer) == NestedBlocks(before, outer) + [(block, outer)] + inner;
    assert Summary([(block, outer)]) == [Opening(block.prelude, outer, block.body)];
    hide Summary, NestedBlocks, Block, Blocks;
    SummaryConcat(NestedBlocks(before, outer) + [(block, outer)], inner);
    SummaryConcat(NestedBlocks(before, outer), [(block, outer)]);
    Regroup(Summary(NestedBlocks(before, outer)), [Opening(block.prelude, outer, block.body)], Summary(inner));
  }

  lemma {:induction false} NodesOpenings(nodes: seq<Node>, more: seq<Token>, outer: seq<string>)
    requires forall i :: 0 <= i < |nodes| ==> WellFormedNode(nodes[i])
    ensures Openings(FlattenNodes(nodes) + more, outer, [])
         == Summary(NestedBlocks(Blocks(nodes), outer)) + Openings(more, outer, [])
    decreases nodes, 0
  {
    if nodes == [] {
      assert FlattenNodes(nodes) + more == more;
    } else {
      var rest, last := nodes[..|nodes| - 1], nodes[|nodes| - 1];
      assert FlattenNodes(nodes) == FlattenNodes(rest) + FlattenNode(last);
      hide *;
      assert nodes == rest + [last];
      NodesOpenings(rest, FlattenNode(last) + more, outer);
      NodeOpenings(last, more, outer);
      ListMore(rest, last, outer);
      Regroup(FlattenNodes(rest), FlattenNode(last), more);
      Regroup(Summary(NestedBlocks(Blocks(rest), outer)), Listed(Block(last), outer), Openings(more, outer, []));
    }
  }

  lemma ContentOpenings(c: Content, more: seq<Token>, outer: seq<string>)
    requires WellFormed(c) && (more == [] || more[0] == CLOSE)
    ensures Openings(Flatten(c) + more, outer, [])
         == Summary(NestedBlocks(Blocks(c.nodes), outer)) + Openings(more, outer, [])
    decreases c
  {
    NodesOpenings(c.nodes, c.tail + more, outer);
    PlainOpenings(c.tail, more, outer, []);
    assert Flatten(c) == FlattenNodes(c.nodes) + c.tail;
    hide *;
    Regroup(FlattenNodes(c.nodes), c.tail, more);
  }

  /**
   * The listing has one entry for each opening brace outside strings and comments, in their order: the prelude before
   * it, the preludes of exactly the blocks that are open there, and the text up to the brace that closes it.
   */
  lemma ListingIsTheOpenings(source: string)
    requires BlockTree(source).Some?
    ensures Summary(NestedBlocks(BlockTree(source).value, [])) == Openings(Blanked(Tokens(source)), [], [])
  {
    TokensWithoutComments(source);
    var tokens := Blanked(Tokens(source));
    ParseSound(tokens);
    var c := Parse(tokens).value;
    ContentOpenings(c, [], []);
    assert Flatten(c) + [] == tokens && Openings([], [], []) == [];
    var list := Summary(NestedBlocks(Blocks(c.nodes), []));
    assert list + [] == list;
  }
}
