/**
 * Reading a stylesheet into its block tree in one pass over it: apps/docs/scripts/check-contracts.ts, `cssBlocks`.
 *
 * The loop keeps a stack of open blocks and positions in the text, not tokens. It is proved equal to the stack machine
 * of CssGrammar on the tokens of the text without comments: `Stands` says how the loop's variables stand for the
 * machine's stack once the text up to an index has been read, and each kind of character has a lemma that says what
 * reading it does to both.
 */
module Stylesheet {
  import opened Basics
  import opened Wrappers
  import opened CssText
  import opened CssGrammar

  /** The block tree of a stylesheet, or nothing if its braces do not balance. */
  function BlockTree(source: string): Option<seq<CssBlock>> {
    var content := Parse(Tokens(WithoutComments(source)));
    if content.None? then None else Some(Blocks(content.value.nodes))
  }

  // ---------------------------------------------------------------- the loop

  /** An open block, as `cssBlocks` keeps it on its stack. */
  datatype Open = Open(children: seq<CssBlock>, ownBody: string, ownStart: nat, prelude: string, start: nat)

  /** A frame that waits for its child to close, whose brace stands at `at`. */
  ghost predicate Waits(o: Open, f: Frame, prelude: seq<Token>, css: string, at: int) {
    && o.children == Blocks(f.nodes)
    && o.ownBody == Text(Leads(f.nodes)) + Text(f.lead)
    && 0 < o.start <= at <= |css| && css[o.start..at] == Text(FlattenFrame(f))
    && o.prelude == Collapse(Text(prelude))
  }

  /** The frame being read, once the text up to `index` has been. */
  ghost predicate Reads(o: Open, f: Frame, prelude: seq<Token>, css: string, index: nat, statementStart: nat) {
    && o.children == Blocks(f.nodes)
    && o.ownBody == Text(Leads(f.nodes))
    && 0 < o.start <= o.ownStart <= statementStart <= index <= |css|
    && css[o.ownStart..statementStart] == Text(f.lead)
    && css[o.start..index] == Text(FlattenFrame(f))
    && o.prelude == Collapse(Text(prelude))
  }

  /** The loop's stack of open blocks, innermost outside. */
  datatype Chain = Empty | Link(below: Chain, block: Open)

  /** The same stack as the sequence the loop keeps. */
  function AsSeq(chain: Chain): seq<Open> {
    match chain
    case Empty => []
    case Link(below, block) => AsSeq(below) + [block]
  }

  /** The frames below an open block, whose brace stands at `at`, as the loop keeps them. */
  ghost predicate Below(stack: Stack, chain: Chain, top: seq<CssBlock>, css: string, at: int) {
    && 0 <= at < |css| && css[at] == '{'
    && match stack
       case Base(f) => chain.Empty? && top == Blocks(f.nodes)
       case Above(below, f) =>
         && chain.Link?
         && Waits(chain.block, f, below.top.statement, css, at)
         && Below(below, chain.below, top, css, chain.block.start - 1)
  }

  /** How the variables of the loop stand for the machine's stack, once the text up to `index` has been read. */
  ghost predicate Stands(stack: Stack, chain: Chain, top: seq<CssBlock>, css: string, index: nat, statementStart: nat) {
    && statementStart <= index <= |css| && css[statementStart..index] == Text(stack.top.statement)
    && match stack
       case Base(f) => chain.Empty? && top == Blocks(f.nodes)
       case Above(below, f) =>
         && chain.Link?
         && Reads(chain.block, f, below.top.statement, css, index, statementStart)
         && Below(below, chain.below, top, css, chain.block.start - 1)
  }

  /** A block that has just been opened, or whose child has just closed. */
  lemma StandsAfresh(stack: Stack, chain: Chain, top: seq<CssBlock>, css: string, index: nat)
    requires stack.Above? && stack.top.statement == [] && chain.Link? && index <= |css|
    requires Reads(chain.block, stack.top, stack.below.top.statement, css, index, index)
    requires Below(stack.below, chain.below, top, css, chain.block.start - 1)
    ensures Stands(stack, chain, top, css, index, index)
  {
    assert css[index..index] == "" && Text([]) == "";
    hide Reads, Below, Text;
  }

  lemma StandsAtBase(stack: Stack, top: seq<CssBlock>, css: string, index: nat)
    requires stack.Base? && stack.top.statement == [] && top == Blocks(stack.top.nodes) && index <= |css|
    ensures Stands(stack, Empty, top, css, index, index)
  {
    assert css[index..index] == "" && Text([]) == "";
    hide Blocks;
  }

  lemma {:induction false} TextConcat(a: seq<Token>, b: seq<Token>)
    ensures Text(a + b) == Text(a) + Text(b)
  {
    if a == [] {
      assert a + b == b;
    } else {
      TextConcat(a[1..], b);
      assert (a + b)[0] == a[0] && (a + b)[1..] == a[1..] + b;
      var x, y, z := TokenText(a[0]), Text(a[1..]), Text(b);
      assert Text(a + b) == x + (y + z) && Text(a) == x + y;
      hide *;
      Regroup(x, y, z);
    }
  }

  lemma TextOne(t: Token)
    ensures Text([t]) == TokenText(t)
  {
    assert [t][1..] == [];
  }

  lemma Joined(css: string, i: nat, j: nat, k: nat)
    requires i <= j <= k <= |css|
    ensures css[i..k] == css[i..j] + css[j..k]
  {
  }

  lemma ReadsAfterPlain(
    o: Open, f: Frame, prelude: seq<Token>, css: string, index: nat, statementStart: nat, t: Token, next: nat)
    requires Reads(o, f, prelude, css, index, statementStart)
    requires index <= next <= |css| && css[index..next] == TokenText(t)
    ensures Reads(o, Frame(f.nodes, f.lead, f.statement + [t]), prelude, css, next, statementStart)
  {
    GrowFrame(f, t);
    TextOne(t);
    TextConcat(FlattenFrame(f), [t]);
    Joined(css, o.start, index, next);
    hide FlattenFrame, Text, Blocks, Leads, Collapse;
  }

  lemma StatementGrows(f: Frame, css: string, index: nat, statementStart: nat, t: Token, next: nat)
    requires statementStart <= index <= next <= |css| && css[statementStart..index] == Text(f.statement)
    requires css[index..next] == TokenText(t)
    ensures css[statementStart..next] == Text(f.statement + [t])
  {
    TextOne(t);
    TextConcat(f.statement, [t]);
    Joined(css, statementStart, index, next);
    hide Text;
  }

  /** A token that is neither a brace nor a semicolon. */
  lemma StandsAfterPlain(
    stack: Stack, chain: Chain, top: seq<CssBlock>, css: string, index: nat, statementStart: nat, t: Token, next: nat)
    requires Stands(stack, chain, top, css, index, statementStart)
    requires index <= next <= |css| && css[index..next] == TokenText(t)
    requires t != OPEN && t != CLOSE && t != SEMICOLON
    ensures Stands(Feed(stack, t).value, chain, top, css, next, statementStart)
  {
    hide Below, Reads, Text, Blocks, TokenText;
    StatementGrows(stack.top, css, index, statementStart, t, next);
    match stack
    case Base(f) =>
      assert Feed(stack, t).value == Base(Frame(f.nodes, f.lead, f.statement + [t]));
    case Above(below, f) =>
      ReadsAfterPlain(chain.block, f, below.top.statement, css, index, statementStart, t, next);
      assert Feed(stack, t).value == Above(below, Frame(f.nodes, f.lead, f.statement + [t]));
  }

  lemma ReadsAfterSemicolon(o: Open, f: Frame, prelude: seq<Token>, css: string, index: nat, statementStart: nat)
    requires Reads(o, f, prelude, css, index, statementStart) && index < |css| && css[index] == ';'
    requires css[statementStart..index] == Text(f.statement)
    ensures Reads(o, Frame(f.nodes, f.lead + f.statement + [SEMICOLON], []), prelude, css, index + 1, index + 1)
  {
    GrowFrame(f, SEMICOLON);
    GrowText(css, o.start, index, FlattenFrame(f), SEMICOLON);
    TextConcat(f.lead, f.statement);
    Joined(css, o.ownStart, statementStart, index);
    GrowText(css, o.ownStart, index, f.lead + f.statement, SEMICOLON);
    hide FlattenFrame, Text, Blocks, Leads, Collapse;
  }

  lemma StandsAfterSemicolon(
    stack: Stack, chain: Chain, top: seq<CssBlock>, css: string, index: nat, statementStart: nat)
    requires Stands(stack, chain, top, css, index, statementStart) && index < |css| && css[index] == ';'
    ensures Stands(Feed(stack, SEMICOLON).value, chain, top, css, index + 1, index + 1)
  {
    assert css[index + 1..index + 1] == "" && Text([]) == "";
    hide Below, Reads, Text, Blocks;
    match stack
    case Base(f) =>
      assert Feed(stack, SEMICOLON).value == Base(Frame(f.nodes, f.lead + f.statement + [SEMICOLON], []));
    case Above(below, f) =>
      ReadsAfterSemicolon(chain.block, f, below.top.statement, css, index, statementStart);
      assert Feed(stack, SEMICOLON).value == Above(below, Frame(f.nodes, f.lead + f.statement + [SEMICOLON], []));
  }

  /** Reading one character more. */
  lemma GrowText(css: string, from: nat, index: nat, tokens: seq<Token>, t: Token)
    requires from <= index < |css| && css[from..index] == Text(tokens) && TokenText(t) == [css[index]]
    ensures css[from..index + 1] == Text(tokens + [t])
  {
    TextOne(t);
    TextConcat(tokens, [t]);
    Joined(css, from, index, index + 1);
    assert css[index..index + 1] == [css[index]];
    hide Text;
  }

  /** The stack after an opening brace: the parent gets the declarations before it, and its child starts after it. */
  function Opened(chain: Chain, css: string, index: nat, statementStart: nat): Chain
    requires statementStart <= index <= |css| && (chain.Link? ==> chain.block.ownStart <= statementStart)
  {
    Link(WithOwn(chain, css, statementStart), Open([], "", index + 1, Collapse(css[statementStart..index]), index + 1))
  }

  function WithOwn(chain: Chain, css: string, statementStart: nat): Chain
    requires statementStart <= |css| && (chain.Link? ==> chain.block.ownStart <= statementStart)
  {
    if chain.Empty? then Empty
    else Link(chain.below, chain.block.(ownBody := chain.block.ownBody + css[chain.block.ownStart..statementStart]))
  }

  lemma WaitsAfterOpen(o: Open, f: Frame, prelude: seq<Token>, css: string, index: nat, statementStart: nat)
    requires Reads(o, f, prelude, css, index, statementStart)
    ensures Waits(o.(ownBody := o.ownBody + css[o.ownStart..statementStart]), f, prelude, css, index)
  {
    hide Blocks, Text, Leads, FlattenFrame, Collapse;
  }

  lemma ReadsNewBlock(statement: seq<Token>, css: string, index: nat, statementStart: nat)
    requires statementStart <= index < |css| && css[statementStart..index] == Text(statement)
    ensures Reads(Open([], "", index + 1, Collapse(css[statementStart..index]), index + 1), EMPTY, statement, css,
            index + 1, index + 1)
  {
    NoNodes();
    FlattenWhole([]);
    assert css[index + 1..index + 1] == "" && Text([]) == "";
    hide Collapse;
  }

  /** An opening brace outside every block. */
  lemma StandsAfterOuterOpen(f: Frame, top: seq<CssBlock>, css: string, index: nat, statementStart: nat)
    requires Stands(Base(f), Empty, top, css, index, statementStart) && index < |css| && css[index] == '{'
    ensures Stands(Above(Base(f), EMPTY), Opened(Empty, css, index, statementStart), top, css, index + 1, index + 1)
  {
    ReadsNewBlock(f.statement, css, index, statementStart);
    hide Text, Blocks, Collapse, Reads;
    assert Below(Base(f), Empty, top, css, index);
    hide Below, Stands;
    StandsAfresh(Above(Base(f), EMPTY), Opened(Empty, css, index, statementStart), top, css, index + 1);
  }

  /** An opening brace inside a block. */
  lemma StandsAfterInnerOpen(
    below: Stack, f: Frame, rest: Chain, o: Open, top: seq<CssBlock>, css: string, index: nat, statementStart: nat)
    requires Stands(Above(below, f), Link(rest, o), top, css, index, statementStart) && index < |css|
             && css[index] == '{'
    ensures o.ownStart <= statementStart
    ensures Stands(Above(Above(below, f), EMPTY), Opened(Link(rest, o), css, index, statementStart), top, css,
            index + 1, index + 1)
  {
    hide Text, Blocks, Collapse;
    ReadsNewBlock(f.statement, css, index, statementStart);
    WaitsAfterOpen(o, f, below.top.statement, css, index, statementStart);
    assert o.ownStart <= statementStart;
    hide Reads, Waits;
    assert Below(Above(below, f), WithOwn(Link(rest, o), css, statementStart), top, css, index);
    hide Below, Stands;
    StandsAfresh(Above(Above(below, f), EMPTY), Opened(Link(rest, o), css, index, statementStart), top, css, index + 1);
  }

  lemma StandsAfterOpen(
    stack: Stack, chain: Chain, top: seq<CssBlock>, css: string, index: nat, statementStart: nat)
    requires Stands(stack, chain, top, css, index, statementStart) && index < |css| && css[index] == '{'
    ensures chain.Link? ==> chain.block.ownStart <= statementStart
    ensures Stands(Feed(stack, OPEN).value, Opened(chain, css, index, statementStart), top, css, index + 1, index + 1)
  {
    hide Reads, Below, Opened, Text, Blocks;
    match stack
    case Base(f) =>
      assert chain == Empty;
      hide Stands;
      StandsAfterOuterOpen(f, top, css, index, statementStart);
    case Above(below, f) =>
      assert chain == Link(chain.below, chain.block);
      hide Stands;
      StandsAfterInnerOpen(below, f, chain.below, chain.block, top, css, index, statementStart);
  }

  /** The finished block. */
  function Finished(o: Open, css: string, index: nat): CssBlock
    requires o.start <= index <= |css| && o.ownStart <= index
  {
    CssBlock(css[o.start..index], o.children, o.ownBody + css[o.ownStart..index], o.prelude)
  }

  lemma FinishedIsBlock(o: Open, f: Frame, parent: Frame, css: string, index: nat, statementStart: nat)
    requires Reads(o, f, parent.statement, css, index, statementStart)
    requires css[statementStart..index] == Text(f.statement)
    ensures Finished(o, css, index) == Block(Node(parent.lead, parent.statement, ContentOf(f)))
  {
    FlattenContent(f);
    TextConcat(f.lead, f.statement);
    TextConcat(Leads(f.nodes), f.lead + f.statement);
    Joined(css, o.ownStart, statementStart, index);
    Regroup(Leads(f.nodes), f.lead, f.statement);
    hide FlattenFrame, Flatten, Text, Blocks, Leads, Collapse;
  }

  /** The stack after a closing brace: the finished block is among its parent's children, if it has a parent. */
  function Closed(chain: Chain, css: string, index: nat): Chain
    requires chain.Link? && chain.block.start <= index <= |css| && chain.block.ownStart <= index
  {
    match chain.below
    case Empty => Empty
    case Link(below, p) =>
      Link(below, p.(ownStart := index + 1, children := p.children + [Finished(chain.block, css, index)]))
  }

  function ClosedTop(chain: Chain, top: seq<CssBlock>, css: string, index: nat): seq<CssBlock>
    requires chain.Link? && chain.block.start <= index <= |css| && chain.block.ownStart <= index
  {
    if chain.below.Empty? then top + [Finished(chain.block, css, index)] else top
  }

  /** The parent goes on being read after its child has closed. */
  lemma ReadsAfterClose(
    p: Open, parent: Frame, prelude: seq<Token>, o: Open, f: Frame, css: string, index: nat, statementStart: nat)
    requires 0 < o.start && Waits(p, parent, prelude, css, o.start - 1)
             && Reads(o, f, parent.statement, css, index, statementStart)
    requires css[statementStart..index] == Text(f.statement)
    requires index < |css| && css[o.start - 1] == '{' && css[index] == '}'
    ensures var closed := Frame(parent.nodes + [Node(parent.lead, parent.statement, ContentOf(f))], [], []);
            Reads(p.(ownStart := index + 1, children := p.children + [Finished(o, css, index)]), closed, prelude, css,
              index + 1, index + 1)
  {
    var node := Node(parent.lead, parent.statement, ContentOf(f));
    FinishedIsBlock(o, f, parent, css, index, statementStart);
    NodesGrow(parent.nodes, node);
    CloseFlatten(parent, f);
    TextConcat(Leads(parent.nodes), parent.lead);
    assert css[index + 1..index + 1] == "" && Text([]) == "";
    assert css[o.start..index] == Text(FlattenFrame(f)) && css[p.start..o.start - 1] == Text(FlattenFrame(parent));
    hide FlattenFrame, FlattenNodes, FlattenNode, Text, Blocks, Leads, Collapse, Block, ContentOf, Finished;
    CloseText(css, p.start, o.start, index, FlattenFrame(parent), FlattenFrame(f));
  }

  /** The parent's frame once its child has closed. */
  function ClosedFrame(parent: Frame, child: Frame): Frame {
    Frame(parent.nodes + [Node(parent.lead, parent.statement, ContentOf(child))], [], [])
  }

  /** A closing brace of a block that is not nested in another. */
  lemma StandsAfterOuterClose(
    parent: Frame, f: Frame, o: Open, top: seq<CssBlock>, css: string, index: nat, statementStart: nat)
    requires Stands(Above(Base(parent), f), Link(Empty, o), top, css, index, statementStart)
    requires index < |css| && css[index] == '}'
    ensures o.start <= index && o.ownStart <= index
    ensures Stands(Base(ClosedFrame(parent, f)), Empty, top + [Finished(o, css, index)], css, index + 1, index + 1)
  {
    FinishedIsBlock(o, f, parent, css, index, statementStart);
    NodesGrow(parent.nodes, Node(parent.lead, parent.statement, ContentOf(f)));
    hide Text, Blocks, ContentOf, Finished, Reads, Block;
    assert top == Blocks(parent.nodes);
    assert o.start <= index && o.ownStart <= index;
    hide Stands, Below;
    StandsAtBase(Base(ClosedFrame(parent, f)), top + [Finished(o, css, index)], css, index + 1);
  }

  /** A closing brace of a nested block. */
  lemma StandsAfterInnerClose(
    below: Stack, parent: Frame, f: Frame, rest: Chain, p: Open, o: Open,
    top: seq<CssBlock>, css: string, index: nat, statementStart: nat)
    requires Stands(Above(Above(below, parent), f), Link(Link(rest, p), o), top, css, index, statementStart)
    requires index < |css| && css[index] == '}'
    ensures o.start <= index && o.ownStart <= index
    ensures Stands(Above(below, ClosedFrame(parent, f)),
                   Link(rest, p.(ownStart := index + 1, children := p.children + [Finished(o, css, index)])),
                   top, css, index + 1, index + 1)
  {
    hide Text, Blocks, ContentOf, Finished, Reads, Waits;
    assert Reads(o, f, parent.statement, css, index, statementStart);
    assert Below(Above(below, parent), Link(rest, p), top, css, o.start - 1);
    assert Waits(p, parent, below.top.statement, css, o.start - 1);
    ReadsBounds(o, f, parent.statement, css, index, statementStart);
    ReadsAfterClose(p, parent, below.top.statement, o, f, css, index, statementStart);
    hide Stands, Below;
    StandsAfresh(
      Above(below, ClosedFrame(parent, f)),
      Link(rest, p.(ownStart := index + 1, children := p.children + [Finished(o, css, index)])), top, css, index + 1);
  }

  lemma ReadsBounds(o: Open, f: Frame, prelude: seq<Token>, css: string, index: nat, statementStart: nat)
    requires Reads(o, f, prelude, css, index, statementStart)
    ensures 0 < o.start <= o.ownStart <= statementStart <= index
  {
  }

  lemma StandsAfterClose(
    stack: Stack, chain: Chain, top: seq<CssBlock>, css: string, index: nat, statementStart: nat)
    requires Stands(stack, chain, top, css, index, statementStart) && index < |css| && css[index] == '}' && stack.Above?
    ensures chain.Link? && chain.block.start <= index && chain.block.ownStart <= index
    ensures Stands(Feed(stack, CLOSE).value, Closed(chain, css, index), ClosedTop(chain, top, css, index), css,
            index + 1, index + 1)
  {
    hide Reads, Waits, Finished, Text, Blocks;
    match stack.below
    case Base(parent) =>
      assert chain == Link(Empty, chain.block);
      hide Stands;
      StandsAfterOuterClose(parent, stack.top, chain.block, top, css, index, statementStart);
    case Above(below, parent) =>
      assert chain == Link(Link(chain.below.below, chain.below.block), chain.block);
      hide Stands, Below;
      StandsAfterInnerClose(
        below, parent, stack.top, chain.below.below, chain.below.block, chain.block, top, css, index, statementStart);
  }

  lemma Nest<T>(a: seq<T>, o: seq<T>, i: seq<T>, c: seq<T>)
    ensures a + ((o + i) + c) == a + (o + (i + c))
  {
  }

  lemma CloseText(css: string, outer: nat, inner: nat, index: nat, before: seq<Token>, inside: seq<Token>)
    requires outer < inner <= index < |css| && css[inner - 1] == '{' && css[index] == '}'
    requires css[outer..inner - 1] == Text(before) && css[inner..index] == Text(inside)
    ensures css[outer..index + 1] == Text(before + ([OPEN] + inside + [CLOSE]))
  {
    hide Text;
    Joined(css, outer, inner - 1, index + 1);
    Joined(css, inner - 1, inner, index + 1);
    Joined(css, inner, index, index + 1);
    assert css[inner - 1..inner] == "{" && css[index..index + 1] == "}";
    TextOne(OPEN);
    TextOne(CLOSE);
    TextConcat([OPEN], inside);
    TextConcat([OPEN] + inside, [CLOSE]);
    TextConcat(before, [OPEN] + inside + [CLOSE]);
    Nest(Text(before), "{", Text(inside), "}");
  }

  // ---------------------------------------------------------------- the tokens the loop meets

  /** The tokens not yet met. */
  ghost function Ahead(css: string, index: nat): seq<Token> {
    Tokens(css[Min(index, |css|)..])
  }

  lemma NextString(css: string, index: nat)
    requires index < |css| && IsQuote(css[index]) && Clean(Ahead(css, index))
    ensures var next := Close(css, css[index], index + 1);
            && index < next
            && Ahead(css, index) == [Str(css[index..Min(next, |css|)])] + Ahead(css, next) && Clean(Ahead(css, next))
  {
    var rest := css[index..];
    CloseShift(css, css[index], index + 1, index);
    var n := StringLength(rest);
    Suffix(css, index, n);
    assert Tokens(rest) == [Str(rest[..n])] + Tokens(rest[n..]);
    assert Tokens(rest)[1..] == Tokens(rest[n..]);
  }

  lemma NextChar(css: string, index: nat)
    requires index < |css| && !IsQuote(css[index]) && Clean(Ahead(css, index))
    ensures Ahead(css, index) == [Ch(css[index])] + Ahead(css, index + 1) && Clean(Ahead(css, index + 1))
  {
    var rest := css[index..];
    Suffix(css, index, 1);
    assert !OpensComment(rest);
    assert Tokens(rest)[1..] == Tokens(rest[1..]);
  }

  lemma ChainAsSeq(chain: Chain)
    ensures AsSeq(chain) == [] <==> chain.Empty?
    ensures chain.Link? ==>
              && AsSeq(chain)[|AsSeq(chain)| - 1] == chain.block
              && AsSeq(chain)[..|AsSeq(chain)| - 1] == AsSeq(chain.below)
  {
  }

  /**
   * The loop's invariant: the variables stand for the machine's stack, and the tokens ahead lead where all tokens do.
   */
  ghost predicate Going(stack: Stack, chain: Chain, top: seq<CssBlock>, css: string, index: nat, statementStart: nat) {
    && Stands(stack, chain, top, css, Min(index, |css|), statementStart)
    && FeedAll(stack, Ahead(css, index)) == FeedAll(Base(EMPTY), Tokens(css))
    && Clean(Ahead(css, index))
  }

  lemma GoingBounds(stack: Stack, chain: Chain, top: seq<CssBlock>, css: string, index: nat, statementStart: nat)
    requires Going(stack, chain, top, css, index, statementStart)
    ensures statementStart <= Min(index, |css|) && (chain.Empty? <==> stack.Base?)
    ensures chain.Link? ==> 0 < chain.block.start <= chain.block.ownStart <= statementStart
  {
    hide FeedAll, Tokens, Clean, Collapse, Ahead, Below;
  }

  lemma Unfold(stack: Stack, chain: Chain, top: seq<CssBlock>, css: string, index: nat, statementStart: nat)
    requires index < |css| && Going(stack, chain, top, css, index, statementStart)
    ensures Stands(stack, chain, top, css, index, statementStart) && Clean(Ahead(css, index))
  {
    hide FeedAll, Tokens, Clean, Stands, Ahead;
  }

  lemma FeedFirst(stack: Stack, t: Token, tokens: seq<Token>)
    ensures FeedAll(stack, [t] + tokens) == if Feed(stack, t).None? then None else FeedAll(Feed(stack, t).value, tokens)
  {
    assert ([t] + tokens)[1..] == tokens;
    hide Feed;
  }

  /** A round of the loop over the token `t`. */
  lemma GoesOn(
    stack: Stack, chain: Chain, top: seq<CssBlock>, css: string, index: nat, statementStart: nat, t: Token,
    after: Stack, chainAfter: Chain, topAfter: seq<CssBlock>, next: nat, at: nat, statementStartAfter: nat)
    requires Going(stack, chain, top, css, index, statementStart) && Feed(stack, t) == Some(after)
    requires Ahead(css, index) == [t] + Ahead(css, next) && Clean(Ahead(css, next)) && at == Min(next, |css|)
    requires Stands(after, chainAfter, topAfter, css, at, statementStartAfter)
    ensures Going(after, chainAfter, topAfter, css, next, statementStartAfter)
  {
    FeedFirst(stack, t, Ahead(css, next));
    hide FeedAll, Feed, Tokens, Clean, Stands, Ahead;
  }

  lemma FeedSome(stack: Stack, t: Token)
    requires t != CLOSE || stack.Above?
    ensures Feed(stack, t) == Some(Feed(stack, t).value)
  {
  }

  lemma Marks(c: char)
    ensures c == '{' <==> Ch(c) == OPEN
    ensures c == '}' <==> Ch(c) == CLOSE
    ensures c == ';' <==> Ch(c) == SEMICOLON
    ensures IsQuote(c) ==> c != '{' && c != '}' && c != ';'
    ensures OPEN != CLOSE && CLOSE != SEMICOLON && SEMICOLON != OPEN
  {
  }

  lemma OneChar(css: string, index: nat)
    requires index < |css|
    ensures css[index..index + 1] == TokenText(Ch(css[index]))
  {
  }

  lemma GoesPastString(stack: Stack, chain: Chain, top: seq<CssBlock>, css: string, index: nat, statementStart: nat)
    requires index < |css| && IsQuote(css[index]) && Going(stack, chain, top, css, index, statementStart)
    ensures var next := Close(css, css[index], index + 1);
            var t := Str(css[index..Min(next, |css|)]);
            Feed(stack, t).Some? && Going(Feed(stack, t).value, chain, top, css, next, statementStart)
  {
    var next := Close(css, css[index], index + 1);
    var end := Min(next, |css|);
    var t := Str(css[index..end]);
    TextOfString(css[index..end]);
    FeedSome(stack, t);
    hide *;
    Unfold(stack, chain, top, css, index, statementStart);
    NextString(css, index);
    StandsAfterPlain(stack, chain, top, css, index, statementStart, t, end);
    GoesOn(stack, chain, top, css, index, statementStart, t, Feed(stack, t).value, chain, top, next, end,
      statementStart);
  }

  lemma TextOfString(s: string)
    ensures TokenText(Str(s)) == s
    ensures Str(s) != OPEN && Str(s) != CLOSE && Str(s) != SEMICOLON
  {
  }

  lemma GoesPastChar(stack: Stack, chain: Chain, top: seq<CssBlock>, css: string, index: nat, statementStart: nat)
    requires index < |css| && !IsQuote(css[index]) && css[index] != '{' && css[index] != '}' && css[index] != ';'
    requires Going(stack, chain, top, css, index, statementStart)
    ensures Feed(stack, Ch(css[index])).Some?
    ensures Going(Feed(stack, Ch(css[index])).value, chain, top, css, index + 1, statementStart)
  {
    var t := Ch(css[index]);
    hide *;
    Marks(css[index]);
    OneChar(css, index);
    FeedSome(stack, t);
    Unfold(stack, chain, top, css, index, statementStart);
    NextChar(css, index);
    StandsAfterPlain(stack, chain, top, css, index, statementStart, t, index + 1);
    GoesOn(stack, chain, top, css, index, statementStart, t, Feed(stack, t).value, chain, top, index + 1, index + 1,
      statementStart);
  }

  lemma GoesPastSemicolon(stack: Stack, chain: Chain, top: seq<CssBlock>, css: string, index: nat, statementStart: nat)
    requires index < |css| && css[index] == ';' && Going(stack, chain, top, css, index, statementStart)
    ensures Feed(stack, SEMICOLON).Some?
    ensures Going(Feed(stack, SEMICOLON).value, chain, top, css, index + 1, index + 1)
  {
    hide *;
    Marks(css[index]);
    FeedSome(stack, SEMICOLON);
    Unfold(stack, chain, top, css, index, statementStart);
    NextChar(css, index);
    StandsAfterSemicolon(stack, chain, top, css, index, statementStart);
    GoesOn(stack, chain, top, css, index, statementStart, SEMICOLON, Feed(stack, SEMICOLON).value, chain, top,
      index + 1, index + 1, index + 1);
  }

  lemma GoesPastOpen(stack: Stack, chain: Chain, top: seq<CssBlock>, css: string, index: nat, statementStart: nat)
    requires index < |css| && css[index] == '{' && Going(stack, chain, top, css, index, statementStart)
    requires statementStart <= index && (chain.Link? ==> chain.block.ownStart <= statementStart)
    ensures Feed(stack, OPEN).Some?
    ensures Going(Feed(stack, OPEN).value, Opened(chain, css, index, statementStart), top, css, index + 1, index + 1)
  {
    hide *;
    Marks(css[index]);
    FeedSome(stack, OPEN);
    Unfold(stack, chain, top, css, index, statementStart);
    NextChar(css, index);
    StandsAfterOpen(stack, chain, top, css, index, statementStart);
    GoesOn(
      stack, chain, top, css, index, statementStart, OPEN,
      Feed(stack, OPEN).value, Opened(chain, css, index, statementStart), top, index + 1, index + 1, index + 1);
  }

  lemma GoesPastClose(stack: Stack, chain: Chain, top: seq<CssBlock>, css: string, index: nat, statementStart: nat)
    requires index < |css| && css[index] == '}' && Going(stack, chain, top, css, index, statementStart)
    requires stack.Above? && chain.Link? && chain.block.start <= index && chain.block.ownStart <= index
    ensures Feed(stack, CLOSE).Some?
    ensures Going(Feed(stack, CLOSE).value, Closed(chain, css, index), ClosedTop(chain, top, css, index), css,
            index + 1, index + 1)
  {
    hide *;
    Marks(css[index]);
    FeedSome(stack, CLOSE);
    Unfold(stack, chain, top, css, index, statementStart);
    NextChar(css, index);
    StandsAfterClose(stack, chain, top, css, index, statementStart);
    GoesOn(
      stack, chain, top, css, index, statementStart, CLOSE,
      Feed(stack, CLOSE).value, Closed(chain, css, index), ClosedTop(chain, top, css, index), index + 1, index + 1,
      index + 1);
  }

  /** A closing brace too many. */
  lemma CannotClose(
    stack: Stack, chain: Chain, top: seq<CssBlock>, source: string, css: string, index: nat, statementStart: nat)
    requires css == WithoutComments(source) && index < |css| && css[index] == '}'
    requires Going(stack, chain, top, css, index, statementStart) && stack.Base?
    ensures BlockTree(source) == None
  {
    assert Feed(stack, CLOSE).None?;
    assert FeedAll(Base(EMPTY), Tokens(css)).None? ==> BlockTree(source) == None;
    Quotes(css[index]);
    assert FeedAll(stack, Ahead(css, index)) == FeedAll(Base(EMPTY), Tokens(css)) && Clean(Ahead(css, index));
    hide *;
    NextChar(css, index);
    FeedFirst(stack, CLOSE, Ahead(css, index + 1));
  }

  lemma Starts(source: string)
    ensures Going(Base(EMPTY), Empty, [], WithoutComments(source), 0, 0) && AsSeq(Empty) == []
  {
    var css := WithoutComments(source);
    NoCommentIsLeft(source);
    NoNodes();
    assert css[Min(0, |css|)..] == css;
    assert css[0..0] == "" && Text([]) == "";
  }

  lemma Ends(
    stack: Stack, chain: Chain, top: seq<CssBlock>, source: string, css: string, index: nat, statementStart: nat)
    requires css == WithoutComments(source) && |css| <= index && Going(stack, chain, top, css, index, statementStart)
    ensures BlockTree(source) == if AsSeq(chain) == [] then Some(top) else None
  {
    GoingBounds(stack, chain, top, css, index, statementStart);
    ChainAsSeq(chain);
    assert css[|css|..] == "";
    assert FeedAll(Base(EMPTY), Tokens(css)) == Some(stack);
  }

  lemma OpenedAsSeq(chain: Chain, css: string, index: nat, statementStart: nat)
    requires statementStart <= index <= |css| && (chain.Link? ==> chain.block.ownStart <= statementStart)
    ensures AsSeq(chain) == [] <==> chain.Empty?
    ensures chain.Link? ==>
              AsSeq(chain)[..|AsSeq(chain)| - 1] == AsSeq(chain.below)
              && AsSeq(chain)[|AsSeq(chain)| - 1] == chain.block
    ensures AsSeq(Opened(chain, css, index, statementStart))
         == AsSeq(WithOwn(chain, css, statementStart))
           + [Open([], "", index + 1, Collapse(css[statementStart..index]), index + 1)]
    ensures chain.Link? ==>
              (AsSeq(WithOwn(chain, css, statementStart))
               == AsSeq(chain.below)
                 + [chain.block.(ownBody := chain.block.ownBody + css[chain.block.ownStart..statementStart])])
    ensures chain.Empty? ==> AsSeq(WithOwn(chain, css, statementStart)) == []
  {
  }

  lemma ClosedAsSeq(chain: Chain, top: seq<CssBlock>, css: string, index: nat)
    requires chain.Link? && chain.block.start <= index <= |css| && chain.block.ownStart <= index
    ensures AsSeq(chain.below) == [] <==> chain.below.Empty?
    ensures chain.below.Link? ==>
              && AsSeq(chain.below)[..|AsSeq(chain.below)| - 1] == AsSeq(chain.below.below)
              && AsSeq(chain.below)[|AsSeq(chain.below)| - 1] == chain.below.block
    ensures var o, finished := chain.block, Finished(chain.block, css, index);
            && finished == CssBlock(css[o.start..index], o.children, o.ownBody + css[o.ownStart..index], o.prelude)
            && (chain.below.Empty? ==>
              AsSeq(Closed(chain, css, index)) == [] && ClosedTop(chain, top, css, index) == top + [finished])
            && (chain.below.Link? ==>
                  var p := chain.below.block;
                  && AsSeq(Closed(chain, css, index))
                  == AsSeq(chain.below.below) + [p.(ownStart := index + 1, children := p.children + [finished])]
                  && ClosedTop(chain, top, css, index) == top)
  {
  }

  /** What an opening brace does to the stack. */
  method OpenBlock(
    css: string, open: seq<Open>, statementStart: nat, index: nat, ghost chain: Chain) returns (after: seq<Open>)
    requires statementStart <= index < |css| && (chain.Link? ==> chain.block.ownStart <= statementStart)
    requires open == AsSeq(chain)
    ensures after == AsSeq(Opened(chain, css, index, statementStart))
  {
    after := open;
    OpenedAsSeq(chain, css, index, statementStart);
    hide *;
    if after != [] {
      var parent := after[|after| - 1];
      after := after[..|after| - 1] + [parent.(ownBody := parent.ownBody + css[parent.ownStart..statementStart])];
    }
    after := after + [Open([], "", index + 1, Collapse(css[statementStart..index]), index + 1)];
  }

  /** What a closing brace does to the stack and to the list of blocks. */
  method CloseBlock(css: string, open: seq<Open>, top: seq<CssBlock>, index: nat, ghost chain: Chain)
    returns (after: seq<Open>, topAfter: seq<CssBlock>)
    requires chain.Link? && chain.block.start <= index < |css| && chain.block.ownStart <= index
    requires open == AsSeq(chain)
    ensures after == AsSeq(Closed(chain, css, index))
    ensures topAfter == ClosedTop(chain, top, css, index)
  {
    ChainAsSeq(chain);
    ClosedAsSeq(chain, top, css, index);
    hide *;
    topAfter := top;
    var block := open[|open| - 1];
    after := open[..|open| - 1];
    var finished :=
      CssBlock(css[block.start..index], block.children, block.ownBody + css[block.ownStart..index], block.prelude);
    if after != [] {
      var parent := after[|after| - 1];
      after := after[..|after| - 1] + [parent.(ownStart := index + 1, children := parent.children + [finished])];
    } else {
      topAfter := topAfter + [finished];
    }
  }

  method CssBlocks(source: string) returns (blocks: Option<seq<CssBlock>>)
    ensures blocks == BlockTree(source)
  {
    var css := WithoutCssComments(source);
    var top: seq<CssBlock> := [];
    var open: seq<Open> := [];
    var statementStart := 0;
    var index := 0;
    ghost var stack, chain := Base(EMPTY), Empty;
    Starts(source);
    hide *;
    while index < |css|
      invariant open == AsSeq(chain)
      invariant Going(stack, chain, top, css, index, statementStart)
      decreases if index < |css| then |css| - index else 0
    {
      var c := css[index];
      var next := index + 1;
      GoingBounds(stack, chain, top, css, index, statementStart);
      if c == '"' || c == '\'' {
        next := CssStringEnd(css, index);
        Quotes(c);
        GoesPastString(stack, chain, top, css, index, statementStart);
        stack := Feed(stack, Str(css[index..Min(next, |css|)])).value;
      } else if c == '{' {
        GoesPastOpen(stack, chain, top, css, index, statementStart);
        open := OpenBlock(css, open, statementStart, index, chain);
        stack, chain := Feed(stack, OPEN).value, Opened(chain, css, index, statementStart);
        statementStart := next;
      } else if c == '}' {
        ChainAsSeq(chain);
        if open == [] {
          CannotClose(stack, chain, top, source, css, index, statementStart);
          return None;
        }
        GoesPastClose(stack, chain, top, css, index, statementStart);
        ghost var after := Closed(chain, css, index);
        open, top := CloseBlock(css, open, top, index, chain);
        stack, chain := Feed(stack, CLOSE).value, after;
        statementStart := next;
      } else if c == ';' {
        GoesPastSemicolon(stack, chain, top, css, index, statementStart);
        stack := Feed(stack, SEMICOLON).value;
        statementStart := next;
      } else {
        Quotes(c);
        GoesPastChar(stack, chain, top, css, index, statementStart);
        stack := Feed(stack, Ch(c)).value;
      }
      index := next;
    }
    Ends(stack, chain, top, source, css, index, statementStart);
    return if open == [] then Some(top) else None;
  }
}
