/** The one way to read a stylesheet into strings and comments: apps/docs/scripts/check-contracts.ts:119-147. */
module CssLexing {
  import opened Basics
  import opened CssText

  // ---------------------------------------------------------------- what a string and a comment are

  /** A quote, what no quote like it ends, and a quote like it. */
  predicate IsClosedString(t: string) {
    && |t| >= 2 && IsQuote(t[0]) && IsUnescaped(t, 0, |t| - 1)
    && forall i :: 0 <= i < |t| - 1 ==> !IsUnescaped(t, 0, i)
  }

  predicate IsOpenString(t: string) {
    t != "" && IsQuote(t[0]) && forall i :: 0 <= i < |t| ==> !IsUnescaped(t, 0, i)
  }

  /** The opening two characters do not count towards the closing ones. */
  predicate ClosesAt(t: string, i: nat) {
    4 <= i <= |t| && t[i - 2] == '*' && t[i - 1] == '/'
  }

  predicate IsClosedComment(t: string) {
    OpensComment(t) && ClosesAt(t, |t|) && forall i :: 0 <= i < |t| ==> !ClosesAt(t, i)
  }

  predicate IsOpenComment(t: string) {
    OpensComment(t) && forall i :: 0 <= i <= |t| ==> !ClosesAt(t, i)
  }

  /** A token that may stand before others: only the last may be a string or a comment that does not close. */
  predicate Fits(t: Token, rest: seq<Token>) {
    match t
    case Str(text) => IsClosedString(text) || (IsOpenString(text) && rest == [])
    case Comment(text) => IsClosedComment(text) || (IsOpenComment(text) && rest == [])
    case Ch(c) => !IsQuote(c) && !(c == '/' && rest != [] && rest[0] == Ch('*'))
  }

  predicate IsReading(tokens: seq<Token>) {
    tokens == [] || (Fits(tokens[0], tokens[1..]) && IsReading(tokens[1..]))
  }

  // ---------------------------------------------------------------- strings

  lemma {:induction false} BackslashesOfPrefix(a: string, b: string, from: nat, i: nat)
    requires from <= i <= |a|
    ensures Backslashes(a + b, from, i) == Backslashes(a, from, i)
    decreases i
  {
    if i > from {
      BackslashesOfPrefix(a, b, from, i - 1);
    }
  }

  lemma UnescapedInPrefix(a: string, b: string, i: nat)
    requires i < |a|
    ensures IsUnescaped(a + b, 0, i) <==> IsUnescaped(a, 0, i)
  {
    if 0 < i {
      BackslashesOfPrefix(a, b, 1, i);
    }
  }

  /** A closed string ends where it closes, whatever follows. */
  lemma ClosedStringEnds(t: string, rest: string)
    requires IsClosedString(t)
    ensures Close(t + rest, t[0], 1) == |t|
  {
    var s := t + rest;
    CloseIsFirst(s, 0);
    var end := Close(s, s[0], 1);
    UnescapedInPrefix(t, rest, |t| - 1);
    if end - 1 < |t| - 1 {
      UnescapedInPrefix(t, rest, end - 1);
    }
  }

  lemma OpenStringRuns(t: string)
    requires IsOpenString(t)
    ensures Close(t, t[0], 1) > |t|
  {
    CloseIsFirst(t, 0);
    assert forall i: nat :: !IsUnescaped(t, 0, i);
  }

  lemma StringIsClosedOrOpen(s: string)
    requires s != "" && IsQuote(s[0])
    ensures var end := Close(s, s[0], 1);
            if end <= |s| then IsClosedString(s[..end]) else IsOpenString(s)
  {
    CloseIsFirst(s, 0);
    var end := Close(s, s[0], 1);
    if end <= |s| {
      var t := s[..end];
      assert s == t + s[end..];
      forall i: nat | i < end
        ensures IsUnescaped(t, 0, i) <==> IsUnescaped(s, 0, i)
      {
        UnescapedInPrefix(t, s[end..], i);
      }
      hide IsUnescaped, Close;
    }
  }

  // ---------------------------------------------------------------- comments

  /** Where a comment ends: past the first mark that closes it, or with the text. */
  lemma {:induction false} CommentEndIsFirst(s: string, i: nat)
    requires 2 <= i <= |s|
    ensures var end := CommentEnd(s, i);
            && (end < |s| ==> ClosesAt(s, end))
            && (forall j :: i + 2 <= j < end ==> !ClosesAt(s, j))
    decreases |s| - i
  {
    if i + 1 < |s| && !(s[i] == '*' && s[i + 1] == '/') {
      CommentEndIsFirst(s, i + 1);
    }
  }

  lemma ClosesInPrefix(a: string, b: string, i: nat)
    requires i <= |a|
    ensures ClosesAt(a + b, i) <==> ClosesAt(a, i)
  {
  }

  lemma ClosedCommentEnds(t: string, rest: string)
    requires IsClosedComment(t)
    ensures OpensComment(t + rest) && CommentEnd(t + rest, 2) == |t|
  {
    var s := t + rest;
    CommentEndIsFirst(s, 2);
    var end := CommentEnd(s, 2);
    ClosesInPrefix(t, rest, |t|);
    if end < |t| {
      ClosesInPrefix(t, rest, end);
    }
  }

  lemma OpenCommentRuns(t: string)
    requires IsOpenComment(t)
    ensures CommentEnd(t, 2) == |t|
  {
    CommentEndIsFirst(t, 2);
  }

  lemma CommentIsClosedOrOpen(s: string)
    requires OpensComment(s)
    ensures var t := s[..CommentEnd(s, 2)];
            IsClosedComment(t) || (IsOpenComment(t) && t == s)
  {
    CommentEndIsFirst(s, 2);
    var end := CommentEnd(s, 2);
    var t := s[..end];
    assert s == t + s[end..];
    CommentIsLong(s, 2);
    forall i: nat | i <= end
      ensures ClosesAt(t, i) <==> ClosesAt(s, i)
    {
      ClosesInPrefix(t, s[end..], i);
    }
    assert forall j: nat :: j < end ==> !ClosesAt(s, j);
  }

  lemma {:induction false} CommentIsLong(s: string, i: nat)
    requires 2 <= i <= |s|
    ensures CommentEnd(s, i) == |s| || CommentEnd(s, i) >= i + 2
    decreases |s| - i
  {
    if i + 1 < |s| && !(s[i] == '*' && s[i + 1] == '/') {
      CommentIsLong(s, i + 1);
    }
  }

  // ---------------------------------------------------------------- the one reading

  lemma FirstOfReading(tokens: seq<Token>)
    requires IsReading(tokens)
    ensures Text(tokens) == "" <==> tokens == []
    ensures tokens != [] && Text(tokens)[0] == '*' ==> tokens[0] == Ch('*')
  {
    hide IsUnescaped;
  }

  lemma TokensStep(s: string)
    requires s != ""
    ensures IsQuote(s[0]) ==>
              var n := Min(Close(s, s[0], 1), |s|);
              Tokens(s) == [Str(s[..n])] + Tokens(s[n..])
    ensures !IsQuote(s[0]) && OpensComment(s) ==>
              var n := CommentEnd(s, 2);
              Tokens(s) == [Comment(s[..n])] + Tokens(s[n..])
    ensures !IsQuote(s[0]) && !OpensComment(s) ==> Tokens(s) == [Ch(s[0])] + Tokens(s[1..])
  {
    hide Close, CommentEnd;
  }

  lemma TextStep(tokens: seq<Token>)
    requires tokens != []
    ensures Text(tokens) == TokenText(tokens[0]) + Text(tokens[1..])
    ensures tokens[1..] == [] ==> Text(tokens[1..]) == "" && Text(tokens) == TokenText(tokens[0])
  {
  }

  /** Any reading of a text is the one that is found. */
  lemma {:induction false} ReadingIsFound(tokens: seq<Token>)
    requires IsReading(tokens)
    ensures Tokens(Text(tokens)) == tokens
  {
    if tokens != [] {
      var rest := tokens[1..];
      var tail := Text(rest);
      ReadingIsFound(rest);
      TextStep(tokens);
      FirstOfReading(rest);
      assert tokens == [tokens[0]] + rest;
      match tokens[0]
      case Str(t) => FindsString(t, tail, rest == []);
      case Comment(t) => FindsComment(t, tail, rest == []);
      case Ch(c) =>
        TokensStep(Text(tokens));
        assert Text(tokens)[1..] == tail;
    }
  }

  lemma FindsString(t: string, tail: string, last: bool)
    requires IsClosedString(t) || (IsOpenString(t) && last)
    requires last ==> tail == ""
    ensures Tokens(t + tail) == [Str(t)] + Tokens(tail)
  {
    TokensStep(t + tail);
    if IsClosedString(t) {
      ClosedStringEnds(t, tail);
    } else {
      OpenStringRuns(t);
      assert t + tail == t;
    }
    assert (t + tail)[..|t|] == t && (t + tail)[|t|..] == tail;
    hide Tokens, Close, IsUnescaped;
  }

  lemma FindsComment(t: string, tail: string, last: bool)
    requires IsClosedComment(t) || (IsOpenComment(t) && last)
    requires last ==> tail == ""
    ensures Tokens(t + tail) == [Comment(t)] + Tokens(tail)
  {
    TokensStep(t + tail);
    if IsClosedComment(t) {
      ClosedCommentEnds(t, tail);
    } else {
      OpenCommentRuns(t);
      assert t + tail == t;
    }
    assert (t + tail)[..|t|] == t && (t + tail)[|t|..] == tail;
    hide Tokens, CommentEnd;
  }

  lemma {:induction false} TokensAreReading(s: string)
    ensures IsReading(Tokens(s))
    decreases |s|
  {
    if s != "" {
      TokensStep(s);
      hide Close, CommentEnd, IsUnescaped;
      if IsQuote(s[0]) {
        var n := Min(Close(s, s[0], 1), |s|);
        StringIsClosedOrOpen(s);
        assert n == |s| ==> s[..n] == s && Tokens(s[n..]) == [];
        TokensAreReading(s[n..]);
      } else if OpensComment(s) {
        var n := CommentEnd(s, 2);
        CommentIsClosedOrOpen(s);
        assert n == |s| ==> s[..n] == s && Tokens(s[n..]) == [];
        TokensAreReading(s[n..]);
      } else {
        TokensAreReading(s[1..]);
        if s[1..] != "" {
          TokensStep(s[1..]);
          StarIsFirst(s[1..]);
        }
      }
    }
  }

  /** A text that starts with a star has it as its first token, and no other has. */
  lemma StarIsFirst(s: string)
    requires s != ""
    ensures Tokens(s) != [] && (Tokens(s)[0] == Ch('*') <==> s[0] == '*')
  {
    TokensStep(s);
    hide Close, CommentEnd;
  }

  /**
   * A list of strings, comments and characters is what a text is read into if and only if it spells the text, each of
   * its strings and comments ends where it first can, and nothing else in it could be the start of one.
   */
  lemma ReadingIsUnique(s: string, tokens: seq<Token>)
    ensures tokens == Tokens(s) <==> Text(tokens) == s && IsReading(tokens)
  {
    TextOfTokens(s);
    TokensAreReading(s);
    if Text(tokens) == s && IsReading(tokens) {
      ReadingIsFound(tokens);
    }
    hide Tokens, Text, IsReading;
  }
}
