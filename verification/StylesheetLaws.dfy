/** What the block tree of a stylesheet says about its text: apps/docs/scripts/check-contracts.ts, `cssBlocks`. */
module StylesheetLaws {
  import opened Wrappers
  import opened CssText
  import opened CssGrammar
  import opened Stylesheet

  // ---------------------------------------------------------------- when there is a tree

  lemma {:induction false} BlankedBalance(tokens: seq<Token>, depth: nat)
    ensures Balanced(Blanked(tokens), depth) <==> Balanced(tokens, depth)
    decreases |tokens|
  {
    if tokens == [] {
    } else {
      assert Blanked(tokens)[1..] == Blanked(tokens[1..]);
      BlankedBalance(tokens[1..], if tokens[0] == OPEN then depth + 1
        else if tokens[0] == CLOSE && depth > 0 then depth - 1 else depth);
    }
  }

  /** There is a tree exactly when the braces outside strings and comments balance. */
  lemma TreeIffBalanced(source: string)
    ensures BlockTree(source).Some? <==> Balanced(Tokens(source), 0)
  {
    TokensWithoutComments(source);
    ParseIffBalanced(Blanked(Tokens(source)));
    BlankedBalance(Tokens(source), 0);
  }

  /** The tree is that of the one reading of the tokens, with a space for each comment, as nested blocks. */
  lemma TreeIsTheReading(source: string, blocks: seq<CssBlock>)
    ensures BlockTree(source) == Some(blocks) <==>
            exists c :: WellFormed(c) && Flatten(c) == Blanked(Tokens(source)) && blocks == Blocks(c.nodes)
  {
    TokensWithoutComments(source);
    var tokens := Blanked(Tokens(source));
    if BlockTree(source) == Some(blocks) {
      ParseSound(tokens);
    }
    forall c | WellFormed(c) && Flatten(c) == tokens && blocks == Blocks(c.nodes)
      ensures BlockTree(source) == Some(blocks)
    {
      ParseComplete(c);
    }
  }

  // ---------------------------------------------------------------- how the texts of a tree fit together

  /**
   * What stands before a block in the text around it: the declarations before it, and its prelude as it was written.
   */
  datatype Piece = Piece(declarations: string, prelude: string)

  /** The text of `blocks`, each after its piece. */
  function Layout(pieces: seq<Piece>, blocks: seq<CssBlock>): string
    requires |pieces| == |blocks|
  {
    if blocks == [] then ""
    else
      var n := |blocks| - 1;
      Layout(pieces[..n], blocks[..n]) + pieces[n].declarations + pieces[n].prelude + "{" + blocks[n].body + "}"
  }

  function Declarations(pieces: seq<Piece>): string {
    if pieces == [] then "" else Declarations(pieces[..|pieces| - 1]) + pieces[|pieces| - 1].declarations
  }

  /** No brace outside a string. */
  predicate Braceless(s: string) {
    IsPlain(Tokens(s))
  }

  /** Declarations end in a semicolon, a prelude has none, and neither has a brace, save in strings. */
  predicate WellWritten(piece: Piece) {
    && Braceless(piece.declarations)
      && (piece.declarations != "" ==> piece.declarations[|piece.declarations| - 1] == ';')
    && Braceless(piece.prelude) && SEMICOLON !in Tokens(piece.prelude)
  }

  /** `text` is `blocks` in order with `own` around them. */
  predicate Spells(pieces: seq<Piece>, tail: string, blocks: seq<CssBlock>, text: string, own: string) {
    && |pieces| == |blocks|
    && text == Layout(pieces, blocks) + tail
    && own == Declarations(pieces) + tail && Braceless(tail)
    && forall i :: 0 <= i < |blocks| ==> WellWritten(pieces[i]) && blocks[i].prelude == Collapse(pieces[i].prelude)
  }

  /** The texts fit together at every depth. */
  ghost predicate Fits(blocks: seq<CssBlock>, text: string, own: string)
    decreases blocks
  {
    && (exists pieces, tail :: Spells(pieces, tail, blocks, text, own))
    && forall i :: 0 <= i < |blocks| ==> Fits(blocks[i].children, blocks[i].body, blocks[i].ownBody)
  }

  function Pieces(nodes: seq<Node>): (pieces: seq<Piece>)
    ensures |pieces| == |nodes|
  {
    if nodes == [] then []
    else Pieces(nodes[..|nodes| - 1]) + [Piece(Text(nodes[|nodes| - 1].lead), Text(nodes[|nodes| - 1].prelude))]
  }

  lemma {:induction false} BlockAt(nodes: seq<Node>, i: nat)
    requires i < |nodes|
    ensures |Blocks(nodes)| == |nodes| && Blocks(nodes)[i] == Block(nodes[i])
  {
    var rest, last := nodes[..|nodes| - 1], nodes[|nodes| - 1];
    assert Blocks(nodes) == Blocks(rest) + [Block(last)];
    BlocksCount(nodes);
    BlocksCount(rest);
    hide *;
    if i < |rest| {
      BlockAt(rest, i);
      assert rest[i] == nodes[i];
    }
  }

  lemma {:induction false} PieceAt(nodes: seq<Node>, i: nat)
    requires i < |nodes|
    ensures Pieces(nodes)[i] == Piece(Text(nodes[i].lead), Text(nodes[i].prelude))
  {
    var rest, last := nodes[..|nodes| - 1], nodes[|nodes| - 1];
    assert Pieces(nodes) == Pieces(rest) + [Piece(Text(last.lead), Text(last.prelude))];
    hide *;
    if i < |rest| {
      PieceAt(rest, i);
      assert rest[i] == nodes[i];
    }
  }

  lemma {:induction false} BlocksCount(nodes: seq<Node>)
    ensures |Blocks(nodes)| == |nodes|
  {
    if nodes != [] {
      BlocksCount(nodes[..|nodes| - 1]);
    }
    hide Block;
  }

  lemma TextOfNode(before: seq<Token>, n: Node)
    ensures Text(before + FlattenNode(n))
         == Text(before) + Text(n.lead) + Text(n.prelude) + "{" + Text(Flatten(n.content)) + "}"
  {
    var c := Flatten(n.content);
    assert FlattenNode(n) == n.lead + n.prelude + [OPEN] + c + [CLOSE];
    TextOne(OPEN);
    TextOne(CLOSE);
    hide *;
    TextConcat(n.lead, n.prelude);
    TextConcat(n.lead + n.prelude, [OPEN]);
    TextConcat(n.lead + n.prelude + [OPEN], c);
    TextConcat(n.lead + n.prelude + [OPEN] + c, [CLOSE]);
    TextConcat(before, FlattenNode(n));
    Chain6(Text(before), Text(n.lead), Text(n.prelude), "{", Text(c), "}");
  }

  lemma Chain6(a: string, b: string, c: string, d: string, e: string, f: string)
    ensures a + (b + c + d + e + f) == a + b + c + d + e + f
  {
  }

  lemma {:induction false} LayoutOfNodes(nodes: seq<Node>)
    ensures |Blocks(nodes)| == |nodes|
    ensures Text(FlattenNodes(nodes)) == Layout(Pieces(nodes), Blocks(nodes))
    ensures Text(Leads(nodes)) == Declarations(Pieces(nodes))
  {
    if nodes == [] {
    } else {
      var rest, last := nodes[..|nodes| - 1], nodes[|nodes| - 1];
      LayoutOfNodes(rest);
      TextOfNode(FlattenNodes(rest), last);
      TextConcat(Leads(rest), last.lead);
      assert Blocks(nodes)[..|rest|] == Blocks(rest) && Pieces(nodes)[..|rest|] == Pieces(rest);
      assert Block(last).body == Text(Flatten(last.content));
      hide Text, FlattenNode, Flatten, Own, Collapse;
    }
  }

  lemma LeadText(lead: seq<Token>)
    requires lead == [] || lead[|lead| - 1] == SEMICOLON
    ensures Text(lead) != "" ==> Text(lead)[|Text(lead)| - 1] == ';'
  {
    if lead != [] {
      TextConcat(lead[..|lead| - 1], [SEMICOLON]);
      TextOne(SEMICOLON);
      assert lead == lead[..|lead| - 1] + [SEMICOLON];
    }
  }

  lemma {:induction false} CleanSplit(a: seq<Token>, b: seq<Token>)
    requires Clean(a + b)
    ensures Clean(a) && Clean(b)
  {
    if a == [] {
      assert a + b == b;
    } else {
      assert (a + b)[1..] == a[1..] + b;
      CleanSplit(a[1..], b);
    }
  }

  lemma {:induction false} CleanNode(nodes: seq<Node>, i: nat)
    requires i < |nodes| && Clean(FlattenNodes(nodes))
    ensures Clean(nodes[i].lead) && Clean(nodes[i].prelude) && Clean(Flatten(nodes[i].content))
  {
    var n := |nodes| - 1;
    CleanSplit(FlattenNodes(nodes[..n]), FlattenNode(nodes[n]));
    if i < n {
      CleanNode(nodes[..n], i);
    } else {
      var node := nodes[n];
      assert FlattenNode(node) == node.lead + node.prelude + [OPEN] + Flatten(node.content) + [CLOSE];
      hide *;
      CleanSplit(node.lead + node.prelude + [OPEN] + Flatten(node.content), [CLOSE]);
      CleanSplit(node.lead + node.prelude + [OPEN], Flatten(node.content));
      CleanSplit(node.lead + node.prelude, [OPEN]);
      CleanSplit(node.lead, node.prelude);
    }
  }

  lemma PieceFits(nodes: seq<Node>, i: nat)
    requires i < |nodes| && WellFormedNode(nodes[i]) && Clean(FlattenNodes(nodes))
    ensures |Blocks(nodes)| == |nodes|
    ensures WellWritten(Pieces(nodes)[i]) && Blocks(nodes)[i].prelude == Collapse(Pieces(nodes)[i].prelude)
  {
    BlockAt(nodes, i);
    PieceAt(nodes, i);
    LeadText(nodes[i].lead);
    CleanNode(nodes, i);
    TokensOfText(nodes[i].lead);
    TokensOfText(nodes[i].prelude);
    assert Block(nodes[i]).prelude == Collapse(Text(nodes[i].prelude));
    hide Clean, FlattenNodes, Text, Tokens, Flatten, Collapse, Blocks, Pieces, Block;
  }

  lemma SpellsContent(c: Content)
    requires WellFormed(c) && Clean(Flatten(c))
    ensures Spells(Pieces(c.nodes), Text(c.tail), Blocks(c.nodes), Text(Flatten(c)), Text(Own(c)))
  {
    LayoutOfNodes(c.nodes);
    TextConcat(FlattenNodes(c.nodes), c.tail);
    TextConcat(Leads(c.nodes), c.tail);
    CleanSplit(FlattenNodes(c.nodes), c.tail);
    TokensOfText(c.tail);
    hide Text, FlattenNodes, Leads, Collapse, Layout, Declarations, Block, Blocks, Pieces, WellFormedNode, Tokens,
      Clean, WellWritten;
    forall i | 0 <= i < |c.nodes|
      ensures WellWritten(Pieces(c.nodes)[i]) && Blocks(c.nodes)[i].prelude == Collapse(Pieces(c.nodes)[i].prelude)
    {
      PieceFits(c.nodes, i);
    }
  }

  lemma {:induction false} FitsContent(c: Content)
    requires WellFormed(c) && Clean(Flatten(c))
    ensures Fits(Blocks(c.nodes), Text(Flatten(c)), Text(Own(c)))
  {
    var blocks := Blocks(c.nodes);
    SpellsContent(c);
    BlocksCount(c.nodes);
    CleanSplit(FlattenNodes(c.nodes), c.tail);
    hide Text, Flatten, FlattenNodes, Own, Collapse, Layout, Declarations, Spells, Blocks, Clean, WellFormedNode;
    forall i | 0 <= i < |blocks|
      ensures Fits(blocks[i].children, blocks[i].body, blocks[i].ownBody)
    {
      BlockAt(c.nodes, i);
      CleanNode(c.nodes, i);
      NodeContent(c.nodes[i]);
      FitsContent(c.nodes[i].content);
    }
  }

  lemma NodeContent(n: Node)
    requires WellFormedNode(n)
    ensures WellFormed(n.content)
  {
  }

  /**
   * The stylesheet is its blocks with their preludes and declarations around them, and so is the body of every block.
   */
  lemma TreeFitsText(source: string)
    requires BlockTree(source).Some?
    ensures exists own :: Fits(BlockTree(source).value, WithoutComments(source), own)
  {
    var css := WithoutComments(source);
    ParseSound(Tokens(css));
    TextOfTokens(css);
    NoCommentIsLeft(source);
    var c := Parse(Tokens(css)).value;
    FitsContent(c);
    assert Fits(BlockTree(source).value, css, Text(Own(c)));
  }
}
