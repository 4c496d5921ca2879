/** What a replacement text puts in the place of what it replaces: scripts/check-agent-navigation.ts:41, `replace`. */
module Replacing {
  import opened Braces

  /** A character, or one of the four patterns: `$$`, `$&`, a dollar sign with a backquote, or with an apostrophe. */
  datatype Piece = Char(c: char) | Dollar | Found | Before | After

  function PieceText(piece: Piece): string {
    match piece
    case Char(c) => [c]
    case Dollar => ['$', '$']
    case Found => ['$', '&']
    case Before => ['$', '`']
    case After => ['$', '\'']
  }

  function Spelling(pieces: seq<Piece>): string {
    if pieces == [] then [] else PieceText(pieces[0]) + Spelling(pieces[1..])
  }

  /** A dollar sign is just that only where no pattern begins. */
  predicate Fits(piece: Piece, rest: string) {
    piece == Char('$') ==> rest == "" || (rest[0] != '$' && rest[0] != '&' && rest[0] != '`' && rest[0] != '\'')
  }

  predicate WellSpelt(pieces: seq<Piece>) {
    pieces == [] || (Fits(pieces[0], Spelling(pieces[1..])) && WellSpelt(pieces[1..]))
  }

  /** A dollar sign, what was found, and the text before and after it. */
  function Meant(piece: Piece, found: string, before: string, after: string): string {
    match piece
    case Char(c) => [c]
    case Dollar => ['$']
    case Found => found
    case Before => before
    case After => after
  }

  function AllMeant(pieces: seq<Piece>, found: string, before: string, after: string): string {
    if pieces == [] then [] else Meant(pieces[0], found, before, after) + AllMeant(pieces[1..], found, before, after)
  }

  lemma ReplacementStep(piece: Piece, rest: string, found: string, before: string, after: string)
    requires Fits(piece, rest)
    ensures Replacement(PieceText(piece) + rest, found, before, after)
         == Meant(piece, found, before, after) + Replacement(rest, found, before, after)
  {
    var s := PieceText(piece) + rest;
    if piece.Char? {
      assert s[1..] == rest && (rest != "" ==> s[1] == rest[0]);
    } else {
      assert s[0] == '$' && s[2..] == rest;
    }
  }

  /** Each pattern is replaced by what it stands for, and every other character stands for itself. */
  lemma {:induction false} ReplacementExactly(pieces: seq<Piece>, found: string, before: string, after: string)
    requires WellSpelt(pieces)
    ensures Replacement(Spelling(pieces), found, before, after) == AllMeant(pieces, found, before, after)
  {
    if pieces != [] {
      ReplacementExactly(pieces[1..], found, before, after);
      ReplacementStep(pieces[0], Spelling(pieces[1..]), found, before, after);
    }
    hide Replacement;
  }

  /** Every text can be read so. */
  lemma {:induction false} ReadsAsPieces(s: string) returns (pieces: seq<Piece>)
    ensures WellSpelt(pieces) && Spelling(pieces) == s
  {
    if s == "" {
      pieces := [];
    } else {
      var piece :=
        if s[0] != '$' || |s| == 1 then Char(s[0])
        else if s[1] == '$' then Dollar
        else if s[1] == '&' then Found
        else if s[1] == '`' then Before
        else if s[1] == '\'' then After
        else Char('$');
      var n := |PieceText(piece)|;
      var rest := ReadsAsPieces(s[n..]);
      pieces := [piece] + rest;
      assert pieces[1..] == rest && PieceText(piece) == s[..n] && s == s[..n] + s[n..];
    }
  }
}
