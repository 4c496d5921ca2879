/** Strings and comments in a stylesheet: apps/docs/scripts/check-contracts.ts, `withoutCssComments`. */
module CssText {
  import opened Basics

  /** A string with its quotes, a comment with its marks, or any other character. */
  datatype Token = Str(text: string) | Comment(text: string) | Ch(c: char)

  predicate IsQuote(c: char) {
    c == '"' || c == '\''
  }

  lemma Quotes(c: char)
    ensures IsQuote(c) <==> c == '"' || c == '\''
  {
  }

  // ---------------------------------------------------------------- strings

  /** The index past the string that is open at `i`. It lies past the end of the text if the string does not close. */
  function Close(css: string, quote: char, i: nat): (end: nat)
    ensures i < end
    decreases if i < |css| then |css| - i else 0
  {
    if i >= |css| || css[i] == quote then i + 1 else Close(css, quote, if css[i] == '\\' then i + 2 else i + 1)
  }

  /** How many backslashes stand directly before `i`, from `from` on. */
  function Backslashes(css: string, from: nat, i: nat): nat
    requires from <= i <= |css|
    decreases i
  {
    if i > from && css[i - 1] == '\\' then Backslashes(css, from, i - 1) + 1 else 0
  }

  /** The quote at `i` ends the string that opens at `start`: backslashes before it pair up with each other. */
  predicate IsUnescaped(css: string, start: nat, i: nat) {
    start < i < |css| && css[i] == css[start] && Backslashes(css, start + 1, i) % 2 == 0
  }

  /** From any place that no backslash escapes, the string ends at the first quote that none does. */
  lemma {:induction false} CloseFrom(css: string, start: nat, from: nat)
    requires start < from && start < |css| && IsQuote(css[start])
    requires from <= |css| ==> Backslashes(css, start + 1, from) % 2 == 0
    ensures var end := Close(css, css[start], from);
            && (end <= |css| ==> IsUnescaped(css, start, end - 1))
            && forall i :: from <= i < end - 1 ==> !IsUnescaped(css, start, i)
    decreases if from < |css| then |css| - from else 0
  {
    if from >= |css| || css[from] == css[start] {
    } else if css[from] == '\\' {
      CloseFrom(css, start, from + 2);
      assert from + 1 < |css| ==> Backslashes(css, start + 1, from + 1) == Backslashes(css, start + 1, from) + 1;
    } else {
      CloseFrom(css, start, from + 1);
    }
  }

  /** Where a string ends: past the first quote like its own that is not escaped, or past the text if there is none. */
  lemma CloseIsFirst(css: string, start: nat)
    requires start < |css| && IsQuote(css[start])
    ensures var end := Close(css, css[start], start + 1);
            && (end <= |css| ==> IsUnescaped(css, start, end - 1))
            && (forall i: nat :: i < end - 1 ==> !IsUnescaped(css, start, i))
            && (end > |css| <==> forall i: nat :: !IsUnescaped(css, start, i))
  {
    CloseFrom(css, start, start + 1);
  }

  method CssStringEnd(css: string, start: nat) returns (end: nat)
    requires start < |css|
    ensures end == Close(css, css[start], start + 1)
    ensures IsQuote(css[start]) ==>
              && (end <= |css| ==> IsUnescaped(css, start, end - 1))
              && (forall i: nat :: i < end - 1 ==> !IsUnescaped(css, start, i))
              && (end > |css| <==> forall i: nat :: !IsUnescaped(css, start, i))
  {
    if IsQuote(css[start]) {
      CloseIsFirst(css, start);
    }
    hide IsUnescaped, IsQuote;
    var index := start + 1;
    while index < |css| && css[index] != css[start]
      invariant Close(css, css[start], index) == Close(css, css[start], start + 1)
      decreases if index < |css| then |css| - index else 0
    {
      index := index + if css[index] == '\\' then 2 else 1;
    }
    end := index + 1;
  }

  lemma {:induction false} CloseShift(css: string, quote: char, i: nat, k: nat)
    requires k <= i && k <= |css|
    ensures Close(css, quote, i) == k + Close(css[k..], quote, i - k)
    decreases if i < |css| then |css| - i else 0
  {
    if i >= |css| || css[i] == quote {
    } else {
      CloseShift(css, quote, if css[i] == '\\' then i + 2 else i + 1, k);
    }
  }

  /** A string that closes does so whatever follows it, and the text up to there closes at its end. */
  lemma {:induction false} CloseLocal(a: string, b: string, quote: char, i: nat)
    requires Close(a, quote, i) <= |a|
    ensures Close(a + b, quote, i) == Close(a, quote, i)
    decreases if i < |a| then |a| - i else 0
  {
    if i >= |a| || a[i] == quote {
    } else {
      CloseLocal(a, b, quote, if a[i] == '\\' then i + 2 else i + 1);
    }
  }

  lemma {:induction false} CloseCut(css: string, quote: char, i: nat)
    requires Close(css, quote, i) <= |css|
    ensures var end := Close(css, quote, i); Close(css[..end], quote, i) == end
    decreases if i < |css| then |css| - i else 0
  {
    if i >= |css| || css[i] == quote {
    } else {
      CloseCut(css, quote, if css[i] == '\\' then i + 2 else i + 1);
    }
  }

  /** How long the string at the start of the text is. */
  function StringLength(s: string): nat
    requires s != ""
  {
    Min(Close(s, s[0], 1), |s|)
  }

  // ---------------------------------------------------------------- comments

  predicate OpensComment(s: string) {
    |s| >= 2 && s[0] == '/' && s[1] == '*'
  }

  /** The index past the first comment end at or after `i`, or the length of the text. */
  function CommentEnd(s: string, i: nat): (end: nat)
    requires i <= |s|
    ensures i <= end <= |s|
    decreases |s| - i
  {
    if i + 1 >= |s| then |s| else if s[i] == '*' && s[i + 1] == '/' then i + 2 else CommentEnd(s, i + 1)
  }

  /** `css.indexOf('*' + '/', from)`, -1 if there is none. */
  method IndexOfCommentEnd(css: string, from: nat) returns (end: int)
    ensures end == -1 || (from <= end < |css| - 1 && css[end] == '*' && css[end + 1] == '/')
    ensures forall k :: from <= k < |css| - 1 && (end == -1 || k < end) ==> css[k] != '*' || css[k + 1] != '/'
    ensures from <= |css| ==> CommentEnd(css, from) == if end == -1 then |css| else end + 2
    ensures from > |css| ==> end == -1
  {
    var i := from;
    while i + 1 < |css|
      invariant from <= i
      invariant from <= |css| ==> i <= |css| && CommentEnd(css, i) == CommentEnd(css, from)
      invariant forall k :: from <= k < i && k < |css| - 1 ==> css[k] != '*' || css[k + 1] != '/'
    {
      if css[i] == '*' && css[i + 1] == '/' {
        return i;
      }
      i := i + 1;
    }
    return -1;
  }

  lemma {:induction false} CommentEndShift(s: string, i: nat, k: nat)
    requires k <= i <= |s|
    ensures CommentEnd(s, i) == k + CommentEnd(s[k..], i - k)
    decreases |s| - i
  {
    if i + 1 >= |s| || (s[i] == '*' && s[i + 1] == '/') {
    } else {
      CommentEndShift(s, i + 1, k);
    }
  }

  // ---------------------------------------------------------------- tokens

  function Tokens(s: string): seq<Token>
    decreases |s|
  {
    if s == "" then []
    else if IsQuote(s[0]) then
      var n := StringLength(s);
      [Str(s[..n])] + Tokens(s[n..])
    else if OpensComment(s) then
      var n := CommentEnd(s, 2);
      [Comment(s[..n])] + Tokens(s[n..])
    else [Ch(s[0])] + Tokens(s[1..])
  }

  function TokenText(t: Token): string {
    match t
    case Str(text) => text
    case Comment(text) => text
    case Ch(c) => [c]
  }

  function Text(tokens: seq<Token>): string {
    if tokens == [] then "" else TokenText(tokens[0]) + Text(tokens[1..])
  }

  /** Each comment becomes a space. */
  function Blank(t: Token): Token {
    if t.Comment? then Ch(' ') else t
  }

  function Blanked(tokens: seq<Token>): (r: seq<Token>)
    ensures |r| == |tokens|
    ensures forall i :: 0 <= i < |tokens| ==> r[i] == Blank(tokens[i])
  {
    if tokens == [] then [] else [Blank(tokens[0])] + Blanked(tokens[1..])
  }

  function WithoutComments(css: string): string {
    Text(Blanked(Tokens(css)))
  }

  lemma WithoutCommentsStep(s: string)
    requires s != ""
    ensures IsQuote(s[0]) ==> WithoutComments(s) == s[..StringLength(s)] + WithoutComments(s[StringLength(s)..])
    ensures !IsQuote(s[0]) && OpensComment(s) ==> WithoutComments(s) == " " + WithoutComments(s[CommentEnd(s, 2)..])
    ensures !IsQuote(s[0]) && !OpensComment(s) ==> WithoutComments(s) == [s[0]] + WithoutComments(s[1..])
  {
    var tokens := Tokens(s);
    assert tokens == [tokens[0]] + tokens[1..];
    assert Blanked(tokens)[1..] == Blanked(tokens[1..]);
  }

  /** What is left of the text from `index` on. */
  ghost function Rest(css: string, index: nat): string {
    WithoutComments(css[Min(index, |css|)..])
  }

  lemma Suffix(s: string, i: nat, n: nat)
    requires i + n <= |s|
    ensures s[i..][n..] == s[i + n..] && s[i..][..n] == s[i..i + n]
  {
  }

  /** The three kinds of round `withoutCssComments` makes. */
  lemma StringRound(css: string, index: nat)
    requires index < |css| && IsQuote(css[index])
    ensures var next := Close(css, css[index], index + 1);
            Rest(css, index) == css[index..Min(next, |css|)] + Rest(css, next)
  {
    var rest := css[index..];
    CloseShift(css, css[index], index + 1, index);
    var n := StringLength(rest);
    assert index + n == Min(Close(css, css[index], index + 1), |css|);
    WithoutCommentsStep(rest);
    Suffix(css, index, n);
    hide WithoutComments, Close, StringLength;
  }

  lemma CommentRound(css: string, index: nat)
    requires index + 1 < |css| && css[index] == '/' && css[index + 1] == '*'
    ensures Rest(css, index) == " " + Rest(css, CommentEnd(css, index + 2))
  {
    var rest := css[index..];
    CommentEndShift(css, index + 2, index);
    WithoutCommentsStep(rest);
    Suffix(css, index, CommentEnd(rest, 2));
  }

  lemma CharRound(css: string, index: nat)
    requires index < |css| && !IsQuote(css[index])
    requires !(index + 1 < |css| && css[index] == '/' && css[index + 1] == '*')
    ensures Rest(css, index) == [css[index]] + Rest(css, index + 1)
  {
    WithoutCommentsStep(css[index..]);
    assert css[index..][1..] == css[index + 1..];
  }

  method WithoutCssComments(css: string) returns (result: string)
    ensures result == WithoutComments(css)
  {
    result := "";
    var index := 0;
    assert css[0..] == css && css[|css|..] == "";
    while index < |css|
      invariant result + Rest(css, index) == WithoutComments(css)
      decreases if index < |css| then |css| - index else 0
    {
      hide *;
      var next := index + 1;
      var piece := [css[index]];
      if css[index] == '"' || css[index] == '\'' {
        next := CssStringEnd(css, index);
        piece := css[index..Min(next, |css|)];
        assert IsQuote(css[index]) by { Quotes(css[index]); }
        StringRound(css, index);
      } else if index + 1 < |css| && css[index] == '/' && css[index + 1] == '*' {
        var end := IndexOfCommentEnd(css, index + 2);
        next := if end == -1 then |css| else end + 2;
        piece := " ";
        CommentRound(css, index);
      } else {
        Quotes(css[index]);
        CharRound(css, index);
      }
      Regroup(result, piece, Rest(css, next));
      result := result + piece;
      index := next;
    }
  }

  // ---------------------------------------------------------------- reading the tokens back

  /** The text of a string token: it closes at its end, or it is cut short by the end of the stylesheet. */
  predicate IsStringText(text: string, last: bool) {
    && text != "" && IsQuote(text[0])
    && (Close(text, text[0], 1) == |text| || (last && Close(text, text[0], 1) > |text|))
  }

  /** Tokens that are read back from their text: no comment, and no comment opener between two characters. */
  predicate Clean(tokens: seq<Token>) {
    tokens == [] ||
    (&& (match tokens[0]
         case Str(text) => IsStringText(text, |tokens| == 1)
         case Comment(_) => false
         case Ch(c) => !IsQuote(c) && !(c == '/' && |tokens| > 1 && tokens[1] == Ch('*')))
     && Clean(tokens[1..]))
  }

  lemma {:induction false} TokensOfText(tokens: seq<Token>)
    requires Clean(tokens)
    ensures Tokens(Text(tokens)) == tokens
  {
    if tokens == [] {
    } else {
      var rest := tokens[1..];
      var text := Text(tokens);
      TokensOfText(rest);
      match tokens[0]
      case Str(s) =>
        if |tokens| == 1 {
          assert text == s;
        } else {
          CloseLocal(s, Text(rest), s[0], 1);
        }
        assert StringLength(text) == |s| && text[..|s|] == s && text[|s|..] == Text(rest);
        assert Tokens(text) == [Str(s)] + Tokens(Text(rest));
      case Ch(c) =>
        FirstChar(rest);
        assert text[0] == c && text[1..] == Text(rest);
        assert !OpensComment(text);
        assert Tokens(text) == [Ch(c)] + Tokens(Text(rest));
    }
  }

  /** A text starts with `*` only if its first token is that character. */
  lemma FirstChar(tokens: seq<Token>)
    requires Clean(tokens)
    ensures Text(tokens) == "" <==> tokens == []
    ensures tokens != [] && Text(tokens)[0] == '*' ==> tokens[0] == Ch('*')
  {
  }

  lemma {:induction false} BlankedIsClean(s: string)
    ensures Clean(Blanked(Tokens(s)))
    decreases |s|
  {
    if s == "" {
    } else {
      var n := if IsQuote(s[0]) then StringLength(s) else if OpensComment(s) then CommentEnd(s, 2) else 1;
      var rest := s[n..];
      BlankedIsClean(rest);
      var tokens := Blanked(Tokens(s));
      assert tokens[1..] == Blanked(Tokens(rest));
      if IsQuote(s[0]) {
        if Close(s, s[0], 1) <= |s| {
          CloseCut(s, s[0], 1);
        } else {
          assert s[..n] == s && Tokens(rest) == [];
        }
        assert IsStringText(s[..n], |tokens| == 1);
      }
    }
  }

  // ---------------------------------------------------------------- main results

  /** Reading a stylesheet into tokens loses nothing. */
  lemma {:induction false} TextOfTokens(s: string)
    ensures Text(Tokens(s)) == s
    decreases |s|
  {
    if s == "" {
    } else {
      var n := if IsQuote(s[0]) then StringLength(s) else if OpensComment(s) then CommentEnd(s, 2) else 1;
      TextOfTokens(s[n..]);
      assert Tokens(s)[1..] == Tokens(s[n..]);
      assert s == s[..n] + s[n..];
    }
  }

  /**
   * What is left is read as the same tokens with a space for each comment: every string is kept, character by
   * character.
   */
  lemma TokensWithoutComments(css: string)
    ensures Tokens(WithoutComments(css)) == Blanked(Tokens(css))
  {
    BlankedIsClean(css);
    TokensOfText(Blanked(Tokens(css)));
  }

  /** No comment is left, not even one that only came together when another was taken out. */
  lemma NoCommentIsLeft(css: string)
    ensures forall t :: t in Tokens(WithoutComments(css)) ==> !t.Comment?
    ensures Clean(Tokens(WithoutComments(css)))
  {
    TokensWithoutComments(css);
    BlankedIsClean(css);
  }

  lemma WithoutCommentsIsIdempotent(css: string)
    ensures WithoutComments(WithoutComments(css)) == WithoutComments(css)
  {
    TokensWithoutComments(css);
    var tokens := Blanked(Tokens(css));
    assert Blanked(tokens) == tokens;
  }

  /** A stylesheet is left as it is exactly when it has no comment, so `Clean` texts are. */
  lemma WithoutCommentsOfClean(tokens: seq<Token>)
    requires Clean(tokens)
    ensures WithoutComments(Text(tokens)) == Text(tokens) && Tokens(Text(tokens)) == tokens
  {
    TokensOfText(tokens);
    CleanHasNoComment(tokens);
    assert Blanked(tokens) == tokens;
  }

  lemma {:induction false} CleanHasNoComment(tokens: seq<Token>)
    requires Clean(tokens)
    ensures forall i :: 0 <= i < |tokens| ==> !tokens[i].Comment?
  {
    if tokens == [] {
    } else {
      CleanHasNoComment(tokens[1..]);
      assert forall i :: 1 <= i < |tokens| ==> tokens[i] == tokens[1..][i - 1];
    }
  }
}
