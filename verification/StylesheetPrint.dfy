/**
 * Stylesheets that are written out and read back: apps/docs/scripts/check-contracts.ts, `cssBlocks`.
 *
 * The first part is about the whitespace of preludes, which `cssBlocks` collapses. The second prints a tree of rules,
 * declarations and nested rules in one tidy way, and shows that reading the print gives the tree: the tokens of the
 * print are those of the tree, the grammar has one reading of them, and the blocks of that reading are the rules. The
 * third does the same for any reading whose tokens stand on their own, so that strings may hold what would otherwise be
 * a brace, a semicolon or a comment.
 */
module StylesheetPrint {
  import opened Wrappers
  import opened CssText
  import opened CssGrammar
  import opened Stylesheet
  import StylesheetLaws

  // ---------------------------------------------------------------- whitespace

  /** The words between the whitespace. */
  function Words(s: string): (words: seq<string>)
    ensures s != "" && !IsSpace(s[0]) ==> words != []
  {
    if s == "" then []
    else if IsSpace(s[0]) then Words(s[1..])
    else
      var rest := Words(s[1..]);
      if |s| > 1 && !IsSpace(s[1]) then [[s[0]] + rest[0]] + rest[1..] else [[s[0]]] + rest
  }

  function Join(words: seq<string>): string {
    if words == [] then "" else if |words| == 1 then words[0] else words[0] + " " + Join(words[1..])
  }

  function TrailingSpace(s: string): string {
    if Words(s) != [] && IsSpace(s[|s| - 1]) then " " else ""
  }

  lemma JoinFirst(c: char, words: seq<string>)
    requires words != []
    ensures Join([[c] + words[0]] + words[1..]) == [c] + Join(words)
  {
    var longer := [[c] + words[0]] + words[1..];
    assert longer[1..] == words[1..];
    if |words| > 1 {
      assert ([c] + words[0]) + " " + Join(words[1..]) == [c] + (words[0] + " " + Join(words[1..]));
    }
  }

  lemma JoinMore(c: char, words: seq<string>)
    requires words != []
    ensures Join([[c]] + words) == [c] + " " + Join(words)
  {
    assert ([[c]] + words)[1..] == words;
  }

  lemma {:induction false} NoWords(s: string)
    ensures Words(s) == [] <==> forall i :: 0 <= i < |s| ==> IsSpace(s[i])
  {
    if s != "" {
      NoWords(s[1..]);
      assert forall i :: 1 <= i < |s| ==> s[i] == s[1..][i - 1];
    }
    hide IsSpace;
  }

  lemma SqueezeStep(s: string)
    requires s != ""
    ensures IsSpace(s[0]) ==> Squeeze(s, true) == Squeeze(s[1..], true) && Squeeze(s, false) == " " + Squeeze(s, true)
    ensures !IsSpace(s[0]) ==>
              Squeeze(s, true) == [s[0]] + Squeeze(s[1..], false) && Squeeze(s, false) == Squeeze(s, true)
  {
    assert "" + Squeeze(s[1..], true) == Squeeze(s[1..], true);
    hide IsSpace;
  }

  lemma WordsStep(s: string)
    requires s != ""
    ensures IsSpace(s[0]) ==> Words(s) == Words(s[1..])
    ensures !IsSpace(s[0]) && |s| > 1 && !IsSpace(s[1]) ==>
              Words(s[1..]) != [] && Words(s) == [[s[0]] + Words(s[1..])[0]] + Words(s[1..])[1..]
    ensures !IsSpace(s[0]) && !(|s| > 1 && !IsSpace(s[1])) ==> Words(s) == [[s[0]]] + Words(s[1..])
  {
    hide IsSpace;
  }

  lemma TrailingStep(s: string)
    requires s != ""
    ensures IsSpace(s[0]) ==> TrailingSpace(s) == TrailingSpace(s[1..])
    ensures !IsSpace(s[0]) && s[1..] == "" ==> TrailingSpace(s) == ""
    ensures !IsSpace(s[0]) && s[1..] != "" && Words(s[1..]) == [] ==>
              TrailingSpace(s) == " " && TrailingSpace(s[1..]) == ""
    ensures !IsSpace(s[0]) && Words(s[1..]) != [] ==> TrailingSpace(s) == TrailingSpace(s[1..])
  {
    NoWords(s);
    NoWords(s[1..]);
    assert s[1..] != "" ==> s[|s| - 1] == s[1..][|s| - 2];
    hide IsSpace, Words;
  }

  lemma Regrouped(a: string, b: string, c: string, d: string)
    ensures a + (b + (c + d)) == a + b + c + d && a + (c + d) == a + c + d
  {
  }

  lemma {:induction false} SqueezeWords(s: string)
    ensures Squeeze(s, true) == Join(Words(s)) + TrailingSpace(s)
  {
    if s == "" {
    } else {
      SqueezeWords(s[1..]);
      SqueezeStep(s);
      WordsStep(s);
      TrailingStep(s);
      if s[1..] != "" {
        SqueezeStep(s[1..]);
        assert s[1..][0] == s[1];
      }
      Regrouped([s[0]], " ", Join(Words(s[1..])), TrailingSpace(s[1..]));
      assert Join([]) == "" && Join([[s[0]]]) == [s[0]];
      if Words(s[1..]) != [] {
        JoinMore(s[0], Words(s[1..]));
        JoinFirst(s[0], Words(s[1..]));
      }
      assert Words("") == [] && Squeeze("", false) == "";
      hide *;
    }
  }

  predicate IsWord(s: string) {
    s != "" && forall i :: 0 <= i < |s| ==> !IsSpace(s[i])
  }

  lemma {:induction false} WordsAreWords(s: string)
    ensures forall i :: 0 <= i < |Words(s)| ==> IsWord(Words(s)[i])
  {
    if s != "" {
      WordsAreWords(s[1..]);
    }
    hide IsSpace;
  }

  lemma {:induction false} JoinEnds(words: seq<string>)
    requires forall i :: 0 <= i < |words| ==> IsWord(words[i])
    ensures words != [] ==> Join(words) != "" && !IsSpace(Join(words)[0]) && !IsSpace(Join(words)[|Join(words)| - 1])
  {
    if |words| > 1 {
      JoinEnds(words[1..]);
      var rest := Join(words[1..]);
      assert Join(words) == words[0] + " " + rest;
      assert Join(words)[|Join(words)| - 1] == rest[|rest| - 1];
    }
    hide IsSpace;
  }

  lemma TrimStartOfSqueeze(s: string)
    ensures TrimStart(Squeeze(s, false)) == TrimStart(Squeeze(s, true))
  {
    if s != "" {
      SqueezeStep(s);
      var squeezed := Squeeze(s, true);
      assert (" " + squeezed)[1..] == squeezed && IsSpace((" " + squeezed)[0]);
      hide IsSpace, Squeeze;
    }
  }

  /** Collapsing whitespace leaves the words, with one space between them. */
  lemma CollapseJoinsWords(s: string)
    ensures Collapse(s) == Join(Words(s))
  {
    var joined := Join(Words(s));
    TrimStartOfSqueeze(s);
    SqueezeWords(s);
    WordsAreWords(s);
    JoinEnds(Words(s));
    if Words(s) == [] {
      assert Squeeze(s, true) == "";
    } else {
      assert TrimStart(joined + TrailingSpace(s)) == joined + TrailingSpace(s);
      assert (joined + " ")[..|joined|] == joined && IsSpace((joined + " ")[|joined|]);
      assert TrimEnd(joined) == joined;
      assert joined + "" == joined;
      hide Squeeze, Words, Join, IsSpace;
    }
  }

  lemma {:induction false} FirstWord(w: string, rest: string)
    requires IsWord(w) && (rest == "" || IsSpace(rest[0]))
    ensures Words(w + rest) == [w] + Words(rest)
  {
    assert (w + rest)[0] == w[0] && (w + rest)[1..] == w[1..] + rest;
    if |w| == 1 {
      assert w[1..] + rest == rest && [w[0]] == w;
    } else {
      FirstWord(w[1..], rest);
      assert ([w[1..]] + Words(rest))[1..] == Words(rest) && [w[0]] + w[1..] == w;
    }
    WordsStep(w + rest);
    hide Words, IsSpace;
  }

  lemma {:induction false} WordsOfJoin(words: seq<string>)
    requires forall i :: 0 <= i < |words| ==> IsWord(words[i])
    ensures Words(Join(words)) == words
  {
    if words == [] {
    } else if |words| == 1 {
      FirstWord(words[0], "");
      assert words[0] + "" == words[0] && words == [words[0]];
    } else {
      WordsOfJoin(words[1..]);
      FirstWord(words[0], " " + Join(words[1..]));
      WordsStep(" " + Join(words[1..]));
      assert (" " + Join(words[1..]))[1..] == Join(words[1..]);
      assert words[0] + " " + Join(words[1..]) == words[0] + (" " + Join(words[1..]));
      hide Words;
    }
  }

  lemma CollapseIsIdempotent(s: string)
    ensures Words(Collapse(s)) == Words(s) && Collapse(Collapse(s)) == Collapse(s)
  {
    CollapseJoinsWords(s);
    WordsAreWords(s);
    WordsOfJoin(Words(s));
    CollapseJoinsWords(Collapse(s));
    hide *;
  }

  // ---------------------------------------------------------------- writing out

  /** Rules, each after the declarations before it, and the declarations after the last one. */
  datatype Sheet = Sheet(rules: seq<Rule>, tail: string)
  datatype Rule = Rule(declarations: string, prelude: string, body: Sheet)

  function Print(sheet: Sheet): string {
    PrintRules(sheet.rules) + sheet.tail
  }

  function PrintRules(rules: seq<Rule>): string {
    if rules == [] then ""
    else
      var last := rules[|rules| - 1];
      PrintRules(rules[..|rules| - 1]) + last.declarations + last.prelude + "{" + Print(last.body) + "}"
  }

  function OwnText(sheet: Sheet): string {
    RuleDeclarations(sheet.rules) + sheet.tail
  }

  function RuleDeclarations(rules: seq<Rule>): string {
    if rules == [] then "" else RuleDeclarations(rules[..|rules| - 1]) + rules[|rules| - 1].declarations
  }

  /** The tree the rules are meant to be read as. */
  function RuleBlocks(rules: seq<Rule>): seq<CssBlock> {
    if rules == [] then []
    else
      var last := rules[|rules| - 1];
      RuleBlocks(rules[..|rules| - 1])
        + [CssBlock(Print(last.body), RuleBlocks(last.body.rules), OwnText(last.body), last.prelude)]
  }

  /** No brace, no quote, no comment mark. */
  predicate Simple(s: string) {
    && (forall i :: 0 <= i < |s| ==> !IsQuote(s[i]) && s[i] != '{' && s[i] != '}')
    && (forall i, j :: 0 <= i && j == i + 1 < |s| ==> !(s[i] == '/' && s[j] == '*'))
  }

  predicate Tidy(sheet: Sheet) {
    (forall i :: 0 <= i < |sheet.rules| ==> TidyRule(sheet.rules[i])) && Simple(sheet.tail)
  }

  /** Declarations end in a semicolon; a prelude has none, and single spaces between its words. */
  predicate TidyRule(rule: Rule) {
    && Simple(rule.declarations) && (rule.declarations == "" || rule.declarations[|rule.declarations| - 1] == ';')
    && Simple(rule.prelude) && ';' !in rule.prelude && rule.prelude == Join(Words(rule.prelude))
    && Tidy(rule.body)
  }

  // ---------------------------------------------------------------- reading back

  function Chars(s: string): (tokens: seq<Token>)
    ensures |tokens| == |s| && forall i :: 0 <= i < |s| ==> tokens[i] == Ch(s[i])
  {
    if s == "" then [] else [Ch(s[0])] + Chars(s[1..])
  }

  lemma {:induction false} TextOfChars(s: string)
    ensures Text(Chars(s)) == s
  {
    if s != "" {
      TextOfChars(s[1..]);
      assert Chars(s)[1..] == Chars(s[1..]);
    }
  }

  function ContentFor(sheet: Sheet): Content {
    Content(NodesFor(sheet.rules), Chars(sheet.tail))
  }

  function NodesFor(rules: seq<Rule>): (nodes: seq<Node>)
    ensures |nodes| == |rules|
  {
    if rules == [] then [] else NodesFor(rules[..|rules| - 1]) + [NodeFor(rules[|rules| - 1])]
  }

  function NodeFor(rule: Rule): Node {
    Node(Chars(rule.declarations), Chars(rule.prelude), ContentFor(rule.body))
  }

  lemma {:induction false} NodeAt(rules: seq<Rule>, i: nat)
    requires i < |rules|
    ensures NodesFor(rules)[i] == NodeFor(rules[i])
  {
    var rest, last := rules[..|rules| - 1], rules[|rules| - 1];
    assert NodesFor(rules) == NodesFor(rest) + [NodeFor(last)];
    hide *;
    if i < |rest| {
      NodeAt(rest, i);
      assert rest[i] == rules[i];
    }
  }

  lemma {:induction false} WellFormedFor(sheet: Sheet)
    requires Tidy(sheet)
    ensures WellFormed(ContentFor(sheet))
  {
    hide Join, Words, NodesFor;
    forall i | 0 <= i < |sheet.rules|
      ensures WellFormedNode(NodesFor(sheet.rules)[i])
    {
      NodeAt(sheet.rules, i);
      WellFormedFor(sheet.rules[i].body);
    }
  }

  /** Characters without quotes and comment marks. */
  predicate Safe(tokens: seq<Token>) {
    && (forall i :: 0 <= i < |tokens| ==> tokens[i].Ch? && !IsQuote(tokens[i].c))
    && (forall i, j :: 0 <= i && j == i + 1 < |tokens| ==> !(tokens[i] == Ch('/') && tokens[j] == Ch('*')))
  }

  lemma {:induction false} SafeIsClean(tokens: seq<Token>)
    requires Safe(tokens)
    ensures Clean(tokens)
  {
    if tokens != [] {
      SafeIsClean(tokens[1..]);
    }
    hide IsQuote;
  }

  lemma SafeConcat(a: seq<Token>, b: seq<Token>)
    requires Safe(a) && Safe(b)
    requires a == [] || a[|a| - 1] != Ch('/') || b == [] || b[0] != Ch('*')
    ensures Safe(a + b)
  {
    hide IsQuote;
  }

  lemma SafeChars(s: string)
    requires Simple(s)
    ensures Safe(Chars(s))
    ensures s != "" ==> Chars(s)[|s| - 1] == Ch(s[|s| - 1])
  {
    var tokens := Chars(s);
    hide IsQuote, Chars;
    forall i, j | 0 <= i && j == i + 1 < |tokens|
      ensures !(tokens[i] == Ch('/') && tokens[j] == Ch('*'))
    {
      assert tokens[i] == Ch(s[i]) && tokens[j] == Ch(s[j]);
    }
  }

  lemma SafeAround(l: seq<Token>, p: seq<Token>, c: seq<Token>)
    requires Safe(l) && Safe(p) && Safe(c) && (l == [] || l[|l| - 1] != Ch('/'))
    ensures Safe(l + p + [OPEN] + c + [CLOSE])
  {
    assert Safe([OPEN]) && Safe([CLOSE]);
    hide *;
    SafeConcat(l, p);
    SafeConcat(l + p, [OPEN]);
    SafeConcat(l + p + [OPEN], c);
    SafeConcat(l + p + [OPEN] + c, [CLOSE]);
  }

  lemma {:induction false} SafeNode(rule: Rule)
    requires TidyRule(rule)
    ensures Safe(FlattenNode(NodeFor(rule)))
    ensures FlattenNode(NodeFor(rule)) != [] && FlattenNode(NodeFor(rule))[|FlattenNode(NodeFor(rule))| - 1] == CLOSE
    decreases rule, 0
  {
    var l, p, c := Chars(rule.declarations), Chars(rule.prelude), Flatten(ContentFor(rule.body));
    assert FlattenNode(NodeFor(rule)) == l + p + [OPEN] + c + [CLOSE];
    SafeChars(rule.declarations);
    SafeChars(rule.prelude);
    hide Safe, Simple, FlattenNode, Flatten, NodeFor, ContentFor, Words, Join, Tidy;
    SafeSheet(rule.body);
    SafeAround(l, p, c);
  }

  lemma {:induction false} SafeRules(rules: seq<Rule>)
    requires forall i :: 0 <= i < |rules| ==> TidyRule(rules[i])
    ensures Safe(FlattenNodes(NodesFor(rules)))
    ensures rules != [] ==>
              FlattenNodes(NodesFor(rules)) != []
              && FlattenNodes(NodesFor(rules))[|FlattenNodes(NodesFor(rules))| - 1] == CLOSE
    decreases rules, 0
  {
    if rules == [] {
    } else {
      var rest, last := rules[..|rules| - 1], rules[|rules| - 1];
      SafeRules(rest);
      SafeNode(last);
      assert NodesFor(rules)[..|rest|] == NodesFor(rest);
      assert FlattenNodes(NodesFor(rules)) == FlattenNodes(NodesFor(rest)) + FlattenNode(NodeFor(last));
      assert rest == [] ==> FlattenNodes(NodesFor(rest)) == [];
      hide *;
      SafeConcat(FlattenNodes(NodesFor(rest)), FlattenNode(NodeFor(last)));
    }
  }

  lemma SafeSheet(sheet: Sheet)
    requires Tidy(sheet)
    ensures Safe(Flatten(ContentFor(sheet)))
    decreases sheet
  {
    SafeRules(sheet.rules);
    SafeChars(sheet.tail);
    assert sheet.rules == [] ==> FlattenNodes(NodesFor(sheet.rules)) == [];
    assert Flatten(ContentFor(sheet)) == FlattenNodes(NodesFor(sheet.rules)) + Chars(sheet.tail);
    hide *;
    SafeConcat(FlattenNodes(NodesFor(sheet.rules)), Chars(sheet.tail));
  }

  lemma {:induction false} TextOfRules(rules: seq<Rule>)
    ensures Text(FlattenNodes(NodesFor(rules))) == PrintRules(rules)
    decreases rules, 0
  {
    if rules == [] {
    } else {
      var rest, last := rules[..|rules| - 1], rules[|rules| - 1];
      TextOfRules(rest);
      TextOfSheet(last.body);
      StylesheetLaws.TextOfNode(FlattenNodes(NodesFor(rest)), NodeFor(last));
      TextOfChars(last.declarations);
      TextOfChars(last.prelude);
      assert NodesFor(rules)[..|rest|] == NodesFor(rest);
      hide Text, FlattenNode, Flatten, Chars, Print;
    }
  }

  lemma TextOfSheet(sheet: Sheet)
    ensures Text(Flatten(ContentFor(sheet))) == Print(sheet)
    decreases sheet
  {
    TextOfRules(sheet.rules);
    TextOfChars(sheet.tail);
    TextConcat(FlattenNodes(NodesFor(sheet.rules)), Chars(sheet.tail));
  }

  lemma {:induction false} OwnOfRules(rules: seq<Rule>)
    ensures Text(Leads(NodesFor(rules))) == RuleDeclarations(rules)
  {
    if rules == [] {
    } else {
      var rest, last := rules[..|rules| - 1], rules[|rules| - 1];
      OwnOfRules(rest);
      TextOfChars(last.declarations);
      TextConcat(Leads(NodesFor(rest)), Chars(last.declarations));
      assert NodesFor(rules)[..|rest|] == NodesFor(rest);
      hide Text, ContentFor;
    }
  }

  lemma BlockOfRule(rule: Rule, blocks: seq<CssBlock>)
    requires rule.prelude == Join(Words(rule.prelude)) && Blocks(NodesFor(rule.body.rules)) == blocks
    ensures Block(NodeFor(rule)) == CssBlock(Print(rule.body), blocks, OwnText(rule.body), rule.prelude)
  {
    TextOfSheet(rule.body);
    OwnOfRules(rule.body.rules);
    TextOfChars(rule.body.tail);
    TextConcat(Leads(NodesFor(rule.body.rules)), Chars(rule.body.tail));
    TextOfChars(rule.prelude);
    CollapseJoinsWords(rule.prelude);
    hide Text, Flatten, Leads, Chars, NodesFor, Print, RuleDeclarations, Collapse, Join, Words, Blocks;
  }

  lemma {:induction false} BlocksOfRules(rules: seq<Rule>)
    requires forall i :: 0 <= i < |rules| ==> TidyRule(rules[i])
    ensures Blocks(NodesFor(rules)) == RuleBlocks(rules)
  {
    if rules == [] {
    } else {
      var rest, last := rules[..|rules| - 1], rules[|rules| - 1];
      BlocksOfRules(rest);
      assert Tidy(last.body);
      BlocksOfRules(last.body.rules);
      BlockOfRule(last, RuleBlocks(last.body.rules));
      assert NodesFor(rules)[..|rest|] == NodesFor(rest);
      hide Block, NodeFor, TidyRule, Print, OwnText;
    }
  }

  /** A tidy stylesheet is read back as the rules that were written out. */
  lemma PrintedSheetIsReadBack(sheet: Sheet)
    requires Tidy(sheet)
    ensures BlockTree(Print(sheet)) == Some(RuleBlocks(sheet.rules))
  {
    var c := ContentFor(sheet);
    SafeSheet(sheet);
    SafeIsClean(Flatten(c));
    WellFormedFor(sheet);
    TextOfSheet(sheet);
    BlocksOfRules(sheet.rules);
    ContentIsReadBack(c);
    hide WellFormed, Clean, Print, RuleBlocks, Blocks, Tidy;
  }

  /** So is every reading whose tokens stand on their own, strings and all. */
  lemma ContentIsReadBack(c: Content)
    requires WellFormed(c) && Clean(Flatten(c))
    ensures BlockTree(Text(Flatten(c))) == Some(Blocks(c.nodes))
  {
    WithoutCommentsOfClean(Flatten(c));
    ParseComplete(c);
    hide WellFormed, Clean, Flatten, Text, Blocks, Tokens;
  }
}
