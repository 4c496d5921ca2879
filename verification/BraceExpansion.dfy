/** Brace expansion finds what a pattern means: scripts/check-agent-navigation.ts, `expandPaths`. */
module BraceExpansion {
  import opened Basics
  import opened Strings
  import opened Wrappers
  import opened Braces
  import opened BracePatterns

  // ---------------------------------------------------------------- the text around the next group

  function Before(p: Pattern): string
    requires HasReady(p)
  {
    match p
    case Literal(c, rest) => [c] + Before(rest)
    case Group(options, rest) =>
      if AnyReady(options) then "{" + BeforeIn(options)
      else if Ready(options) then ""
      else ("{" + PrintOptions(options) + "}") + Before(rest)
  }

  function BeforeIn(o: Options): string
    requires AnyReady(o)
  {
    match o
    case One(p) => Before(p)
    case More(p, others) => if HasReady(p) then Before(p) else (Print(p) + ",") + BeforeIn(others)
  }

  function Next(p: Pattern): (o: Options)
    requires HasReady(p)
    ensures Ready(o) && Size(o) == Width(p)
  {
    match p
    case Literal(_, rest) => Next(rest)
    case Group(options, rest) =>
      if AnyReady(options) then NextIn(options) else if Ready(options) then options else Next(rest)
  }

  function NextIn(o: Options): (next: Options)
    requires AnyReady(o)
    ensures Ready(next) && Size(next) == WidthIn(o)
  {
    match o
    case One(p) => Next(p)
    case More(p, others) => if HasReady(p) then Next(p) else NextIn(others)
  }

  function After(p: Pattern): string
    requires HasReady(p)
  {
    match p
    case Literal(_, rest) => After(rest)
    case Group(options, rest) =>
      if AnyReady(options) then AfterIn(options) + ("}" + Print(rest))
      else if Ready(options) then Print(rest)
      else After(rest)
  }

  function AfterIn(o: Options): string
    requires AnyReady(o)
  {
    match o
    case One(p) => After(p)
    case More(p, others) => if HasReady(p) then After(p) + ("," + PrintOptions(others)) else AfterIn(others)
  }

  /** `before`, the group, `after`. */
  function Around(before: string, middle: string, after: string): string {
    before + (middle + after)
  }

  lemma AroundMore(a: string, before: string, middle: string, after: string, b: string)
    ensures a + Around(before, middle, after) == Around(a + before, middle, after)
    ensures Around(before, middle, after) + b == Around(before, middle, after + b)
  {
    assert a + (before + (middle + after)) == (a + before) + (middle + after);
    assert (before + (middle + after)) + b == before + (middle + (after + b));
  }

  lemma {:induction false} PrintAround(p: Pattern)
    requires HasReady(p)
    ensures Print(p) == Around(Before(p), "{" + PrintOptions(Next(p)) + "}", After(p))
    decreases p, 1
  {
    match p
    case Literal(c, rest) =>
      PrintAround(rest);
      AroundMore([c], Before(rest), "{" + PrintOptions(Next(rest)) + "}", After(rest), "");
      hide Around;
    case Group(options, rest) =>
      var text := PrintOptions(options);
      assert Print(p) == "{" + text + "}" + Print(rest);
      if AnyReady(options) {
        PrintInAround(options);
        var middle := "{" + PrintOptions(NextIn(options)) + "}";
        AroundMore("{", BeforeIn(options), middle, AfterIn(options), "}" + Print(rest));
        AroundMore("{", BeforeIn(options), middle, AfterIn(options) + ("}" + Print(rest)), "");
        hide Around;
        Regroup("{" + text, "}", Print(rest));
        Regroup("{", text, "}" + Print(rest));
      } else if Ready(options) {
        assert "" + ("{" + text + "}" + Print(rest)) == "{" + text + "}" + Print(rest);
      } else {
        PrintAround(rest);
        AroundMore("{" + text + "}", Before(rest), "{" + PrintOptions(Next(rest)) + "}", After(rest), "");
        hide Around;
      }
  }

  lemma {:induction false} PrintInAround(o: Options)
    requires AnyReady(o)
    ensures PrintOptions(o) == Around(BeforeIn(o), "{" + PrintOptions(NextIn(o)) + "}", AfterIn(o))
    decreases o, 0
  {
    match o
    case One(p) => PrintAround(p);
    case More(p, others) =>
      Regroup(Print(p), ",", PrintOptions(others));
      if HasReady(p) {
        PrintAround(p);
        AroundMore("", Before(p), "{" + PrintOptions(Next(p)) + "}", After(p), "," + PrintOptions(others));
      } else {
        PrintInAround(others);
        AroundMore(Print(p) + ",", BeforeIn(others), "{" + PrintOptions(NextIn(others)) + "}", AfterIn(others), "");
      }
      hide Around;
  }

  lemma {:induction false} PrintAppend(p: Pattern, rest: Pattern)
    requires Flat(p)
    ensures Print(Append(p, rest)) == Print(p) + Print(rest)
  {
    if p.Literal? {
      PrintAppend(p.rest, rest);
      Regroup([p.c], Print(p.rest), Print(rest));
    } else {
      assert "" + Print(rest) == Print(rest);
    }
  }

  lemma {:induction false} ChoiceAround(p: Pattern, k: nat)
    requires HasReady(p) && k < Width(p)
    ensures Print(Choose(p, k)) == Around(Before(p), Print(Nth(Next(p), k)), After(p))
    decreases p, 1
  {
    match p
    case Literal(c, rest) =>
      ChoiceAround(rest, k);
      AroundMore([c], Before(rest), Print(Nth(Next(rest), k)), After(rest), "");
      hide Around;
    case Group(options, rest) =>
      if AnyReady(options) {
        ChoiceInAround(options, k);
        var text, middle := PrintOptions(ChooseIn(options, k)), Print(Nth(NextIn(options), k));
        AroundMore("{", BeforeIn(options), middle, AfterIn(options), "}" + Print(rest));
        AroundMore("{", BeforeIn(options), middle, AfterIn(options) + ("}" + Print(rest)), "");
        assert Print(Choose(p, k)) == "{" + text + "}" + Print(rest);
        hide Around;
        Regroup("{" + text, "}", Print(rest));
        Regroup("{", text, "}" + Print(rest));
      } else if Ready(options) {
        OptionMeans(options, k);
        PrintAppend(Nth(options, k), rest);
        var text := Print(Nth(options, k)) + Print(rest);
        assert "" + text == text;
      } else {
        ChoiceAround(rest, k);
        AroundMore("{" + PrintOptions(options) + "}", Before(rest), Print(Nth(Next(rest), k)), After(rest), "");
        hide Around;
      }
  }

  lemma {:induction false} ChoiceInAround(o: Options, k: nat)
    requires AnyReady(o) && k < WidthIn(o)
    ensures PrintOptions(ChooseIn(o, k)) == Around(BeforeIn(o), Print(Nth(NextIn(o), k)), AfterIn(o))
    decreases o, 0
  {
    match o
    case One(p) => ChoiceAround(p, k);
    case More(p, others) =>
      if HasReady(p) {
        ChoiceAround(p, k);
        Regroup(Print(Choose(p, k)), ",", PrintOptions(others));
        AroundMore("", Before(p), Print(Nth(Next(p), k)), After(p), "," + PrintOptions(others));
      } else {
        ChoiceInAround(others, k);
        Regroup(Print(p), ",", PrintOptions(ChooseIn(others, k)));
        AroundMore(Print(p) + ",", BeforeIn(others), Print(Nth(NextIn(others), k)), AfterIn(others), "");
      }
      hide Around;
  }

  // ---------------------------------------------------------------- no group before it

  ghost predicate Quiet(s: string) {
    forall i, j :: !IsGroup(s, i, j)
  }

  /** The first brace, if any, opens. */
  predicate Opens(s: string) {
    forall j :: 0 <= j < |s| && s[j] == '}' ==> exists i :: 0 <= i < j && s[i] == '{'
  }

  /** The last brace, if any, closes. */
  predicate Closes(s: string) {
    forall i :: 0 <= i < |s| && s[i] == '{' ==> exists j :: i < j < |s| && s[j] == '}'
  }

  /** No group lies across the place where `a` and `b` meet. */
  lemma NoneAcross(a: string, b: string, i: nat, j: nat)
    requires Closes(a) || Opens(b)
    ensures !(i < |a| <= j && IsGroup(a + b, i, j))
  {
    var s := a + b;
    if i < |a| <= j < |s| && s[i] == '{' && s[j] == '}' {
      assert a[i] == '{' && b[j - |a|] == '}';
      if Closes(a) {
        var k :| i < k < |a| && a[k] == '}';
        assert s[k] == '}';
      } else {
        var k :| 0 <= k < j - |a| && b[k] == '{';
        assert s[k + |a|] == '{';
      }
    }
  }

  lemma GroupInFirst(a: string, b: string, i: nat, j: nat)
    requires j < |a| && IsGroup(a + b, i, j)
    ensures IsGroup(a, i, j)
  {
    assert forall k :: 0 <= k < |a| ==> (a + b)[k] == a[k];
  }

  lemma GroupInSecond(a: string, b: string, i: nat, j: nat)
    requires |a| <= i && IsGroup(a + b, i, j)
    ensures IsGroup(b, i - |a|, j - |a|)
  {
    forall k | i - |a| < k < j - |a|
      ensures !IsBrace(b[k])
    {
      assert (a + b)[k + |a|] == b[k];
    }
  }

  lemma QuietConcat(a: string, b: string)
    requires Quiet(a) && Quiet(b) && (Closes(a) || Opens(b))
    ensures Quiet(a + b)
  {
    hide IsGroup, Closes, Opens;
    forall i: nat, j: nat
      ensures !IsGroup(a + b, i, j)
    {
      if IsGroup(a + b, i, j) {
        NoneAcross(a, b, i, j);
        GroupOrder(a + b, i, j);
        if j < |a| {
          GroupInFirst(a, b, i, j);
        } else {
          GroupInSecond(a, b, i, j);
        }
      }
    }
  }

  lemma GroupOrder(s: string, i: nat, j: nat)
    requires IsGroup(s, i, j)
    ensures i < j < |s|
  {
  }

  lemma OpensConcat(a: string, b: string)
    requires Opens(a) && Opens(b)
    ensures Opens(a + b)
  {
    var s := a + b;
    forall j | 0 <= j < |s| && s[j] == '}'
      ensures exists i :: 0 <= i < j && s[i] == '{'
    {
      if j < |a| {
        var i :| 0 <= i < j && a[i] == '{';
        assert s[i] == '{';
      } else {
        var i :| 0 <= i < j - |a| && b[i] == '{';
        assert s[i + |a|] == '{';
      }
    }
  }

  lemma ClosesConcat(a: string, b: string)
    requires Closes(a) && Closes(b)
    ensures Closes(a + b)
  {
    var s := a + b;
    forall i | 0 <= i < |s| && s[i] == '{'
      ensures exists j :: i < j < |s| && s[j] == '}'
    {
      if i < |a| {
        var j :| i < j < |a| && a[j] == '}';
        assert s[j] == '}';
      } else {
        var j :| i - |a| < j < |b| && b[j] == '}';
        assert s[j + |a|] == '}';
      }
    }
  }

  lemma Single(c: char)
    requires !IsBrace(c)
    ensures Quiet([c]) && Opens([c]) && Closes([c])
  {
  }

  lemma Wrapped(s: string)
    ensures Opens("{" + s) && Closes(s + "}") && Opens("{" + s + "}") && Closes("{" + s + "}")
  {
    var o, c, w := "{" + s, s + "}", "{" + s + "}";
    assert o[0] == '{' && c[|c| - 1] == '}' && w[0] == '{' && w[|w| - 1] == '}';
  }

  lemma {:induction false} PrintOpensAndCloses(p: Pattern, inside: bool)
    requires Valid(p, inside)
    ensures Opens(Print(p)) && Closes(Print(p))
  {
    match p
    case End =>
    case Literal(c, rest) =>
      PrintOpensAndCloses(rest, inside);
      Single(c);
      OpensConcat([c], Print(rest));
      ClosesConcat([c], Print(rest));
    case Group(options, rest) =>
      PrintOpensAndCloses(rest, inside);
      Wrapped(PrintOptions(options));
      OpensConcat("{" + PrintOptions(options) + "}", Print(rest));
      ClosesConcat("{" + PrintOptions(options) + "}", Print(rest));
      hide Opens, Closes;
  }

  lemma {:induction false} OptionsOpenAndClose(o: Options)
    requires ValidOptions(o)
    ensures Opens(PrintOptions(o)) && Closes(PrintOptions(o))
  {
    match o
    case One(p) => PrintOpensAndCloses(p, true);
    case More(p, others) =>
      PrintOpensAndCloses(p, true);
      OptionsOpenAndClose(others);
      Single(',');
      OpensConcat(Print(p), ",");
      ClosesConcat(Print(p), ",");
      OpensConcat(Print(p) + ",", PrintOptions(others));
      ClosesConcat(Print(p) + ",", PrintOptions(others));
      hide Opens, Closes;
  }

  /** A group that is never replaced holds a brace, or nothing. */
  lemma {:induction false} UnreadyText(o: Options)
    requires !FlatOptions(o)
    ensures '{' in PrintOptions(o)
  {
    match o
    case One(p) => UnflatText(p);
    case More(p, others) =>
      if Flat(p) {
        UnreadyText(others);
      } else {
        UnflatText(p);
      }
  }

  lemma {:induction false} UnflatText(p: Pattern)
    requires !Flat(p)
    ensures '{' in Print(p)
  {
    if p.Literal? {
      UnflatText(p.rest);
    } else {
      assert Print(p)[0] == '{';
    }
  }

  lemma Brackets()
    ensures Quiet("{") && Quiet("}") && Quiet("{" + "" + "}")
  {
  }

  lemma StuckGroup(text: string)
    requires Quiet(text) && Opens(text) && Closes(text) && (text == "" || '{' in text)
    ensures Quiet("{" + text + "}")
  {
    Brackets();
    if text != "" {
      var i :| 0 <= i < |text| && text[i] == '{';
      var j :| i < j < |text| && text[j] == '}';
      hide *;
      ClosesAfter(text, j);
      QuietConcat("{", text);
      QuietConcat("{" + text, "}");
    }
  }

  lemma ClosesAfter(text: string, j: nat)
    requires Closes(text) && j < |text| && text[j] == '}'
    ensures Closes("{" + text)
  {
    var s := "{" + text;
    assert s[j + 1] == '}';
    forall i | 0 <= i < |s| && s[i] == '{'
      ensures exists k :: i < k < |s| && s[k] == '}'
    {
      if i > 0 {
        assert text[i - 1] == '{';
        var k :| i - 1 < k < |text| && text[k] == '}';
        assert s[k + 1] == '}';
      }
    }
  }

  lemma {:induction false} DoneIsQuiet(p: Pattern, inside: bool)
    requires !HasReady(p) && Valid(p, inside)
    ensures Quiet(Print(p))
    decreases p, 1
  {
    match p
    case End =>
    case Literal(c, rest) =>
      DoneIsQuiet(rest, inside);
      Single(c);
      QuietConcat([c], Print(rest));
      hide Quiet, Closes, Opens;
    case Group(options, rest) =>
      DoneIsQuiet(rest, inside);
      StuckIsQuiet(options);
      Wrapped(PrintOptions(options));
      QuietConcat("{" + PrintOptions(options) + "}", Print(rest));
      hide Quiet, Closes, Opens;
  }

  lemma {:induction false} StuckIsQuiet(o: Options)
    requires !AnyReady(o) && !Ready(o) && ValidOptions(o)
    ensures Quiet("{" + PrintOptions(o) + "}")
    decreases o, 1
  {
    DoneInIsQuiet(o);
    OptionsOpenAndClose(o);
    if !FlatOptions(o) {
      UnreadyText(o);
    }
    StuckGroup(PrintOptions(o));
  }

  lemma {:induction false} DoneInIsQuiet(o: Options)
    requires !AnyReady(o) && ValidOptions(o)
    ensures Quiet(PrintOptions(o))
    decreases o, 0
  {
    match o
    case One(p) => DoneIsQuiet(p, true);
    case More(p, others) =>
      DoneIsQuiet(p, true);
      DoneInIsQuiet(others);
      PrintOpensAndCloses(p, true);
      Single(',');
      QuietConcat(Print(p), ",");
      ClosesConcat(Print(p), ",");
      QuietConcat(Print(p) + ",", PrintOptions(others));
      hide Quiet, Closes, Opens;
  }

  lemma {:induction false} BeforeIsQuiet(p: Pattern, inside: bool)
    requires HasReady(p) && Valid(p, inside)
    ensures Quiet(Before(p)) && Opens(Before(p))
    decreases p, 1
  {
    match p
    case Literal(c, rest) =>
      BeforeIsQuiet(rest, inside);
      Single(c);
      QuietConcat([c], Before(rest));
      OpensConcat([c], Before(rest));
      hide Quiet, Closes, Opens;
    case Group(options, rest) =>
      if AnyReady(options) {
        BeforeInIsQuiet(options);
        Brackets();
        QuietConcat("{", BeforeIn(options));
        Wrapped(BeforeIn(options));
        hide Quiet, Closes, Opens;
      } else if Ready(options) {
      } else {
        BeforeIsQuiet(rest, inside);
        StuckIsQuiet(options);
        Wrapped(PrintOptions(options));
        QuietConcat("{" + PrintOptions(options) + "}", Before(rest));
        OpensConcat("{" + PrintOptions(options) + "}", Before(rest));
        hide Quiet, Closes, Opens;
      }
  }

  lemma {:induction false} BeforeInIsQuiet(o: Options)
    requires AnyReady(o) && ValidOptions(o)
    ensures Quiet(BeforeIn(o)) && Opens(BeforeIn(o))
    decreases o, 0
  {
    match o
    case One(p) => BeforeIsQuiet(p, true);
    case More(p, others) =>
      if HasReady(p) {
        BeforeIsQuiet(p, true);
      } else {
        BeforeInIsQuiet(others);
        DoneIsQuiet(p, true);
        PrintOpensAndCloses(p, true);
        Single(',');
        QuietConcat(Print(p), ",");
        OpensConcat(Print(p), ",");
        ClosesConcat(Print(p), ",");
        QuietConcat(Print(p) + ",", BeforeIn(others));
        OpensConcat(Print(p) + ",", BeforeIn(others));
        hide Quiet, Closes, Opens;
      }
  }

  // ---------------------------------------------------------------- the options of the next group

  lemma {:induction false} FlatText(p: Pattern, inside: bool)
    requires Flat(p) && Valid(p, inside)
    ensures forall i :: 0 <= i < |Print(p)| ==> !IsBrace(Print(p)[i]) && (inside ==> Print(p)[i] != ',')
  {
    if p.Literal? {
      FlatText(p.rest, inside);
    }
  }

  /** An option's dollar signs are tame, unless one stands for the group itself. */
  lemma {:induction false} FlatDollars(p: Pattern)
    requires Flat(p) && Valid(p, true)
    ensures !HasEcho(p, true) ==> Tame(Print(p))
    ensures Followed(Print(p)) && (HasEcho(p, true) ==> Echoes(Print(p)))
  {
    if p.Literal? {
      var text := Print(p);
      FlatDollars(p.rest);
      assert text[0] == p.c && text[1..] == Print(p.rest);
      if p.rest.Literal? {
        assert Print(p.rest)[0] == p.rest.c && Print(p.rest)[1..] == Print(p.rest.rest);
        assert text[1] == p.rest.c && text[2..] == Print(p.rest.rest);
        FlatDollars(p.rest.rest);
      }
    }
  }

  lemma {:induction false} SplitMore(a: string, rest: string)
    requires ',' !in a
    ensures Split(a + ("," + rest), ',') == [a] + Split(rest, ',')
  {
    var s := a + ("," + rest);
    if a == "" {
      assert s[1..] == rest;
    } else {
      SplitMore(a[1..], rest);
      assert s[1..] == a[1..] + ("," + rest) && [a[0]] + a[1..] == a;
      assert ([a[1..]] + Split(rest, ','))[1..] == Split(rest, ',');
    }
  }

  predicate HasNoBrace(s: string) {
    forall i :: 0 <= i < |s| ==> !IsBrace(s[i])
  }

  lemma {:induction false} SplitOptions(o: Options)
    requires FlatOptions(o) && ValidOptions(o)
    ensures HasNoBrace(PrintOptions(o)) && |Split(PrintOptions(o), ',')| == Size(o)
    ensures forall k: nat :: k < Size(o) ==> Split(PrintOptions(o), ',')[k] == Print(Nth(o, k))
  {
    match o
    case One(p) =>
      FlatText(p, true);
      SplitWithoutComma(Print(p));
    case More(p, others) =>
      FlatText(p, true);
      SplitOptions(others);
      SplitMore(Print(p), PrintOptions(others));
      Regroup(Print(p), ",", PrintOptions(others));
      assert PrintOptions(o) == Print(p) + ("," + PrintOptions(others));
  }

  lemma {:induction false} NextIsValid(p: Pattern, inside: bool)
    requires HasReady(p) && Valid(p, inside)
    ensures ValidOptions(Next(p))
    decreases p, 1
  {
    match p
    case Literal(_, rest) => NextIsValid(rest, inside);
    case Group(options, rest) =>
      if AnyReady(options) {
        NextInIsValid(options);
      } else if !Ready(options) {
        NextIsValid(rest, inside);
      }
  }

  lemma {:induction false} NextInIsValid(o: Options)
    requires AnyReady(o) && ValidOptions(o)
    ensures ValidOptions(NextIn(o))
    decreases o, 0
  {
    match o
    case One(p) => NextIsValid(p, true);
    case More(p, others) =>
      if HasReady(p) {
        NextIsValid(p, true);
      } else {
        NextInIsValid(others);
      }
  }

  lemma {:induction false} NextHasNoEcho(p: Pattern, inside: bool)
    requires HasReady(p) && !HasEcho(p, inside)
    ensures !AnyEcho(Next(p))
    decreases p, 1
  {
    match p
    case Literal(_, rest) => NextHasNoEcho(rest, inside);
    case Group(options, rest) =>
      if AnyReady(options) {
        NextInHasNoEcho(options);
      } else if !Ready(options) {
        NextHasNoEcho(rest, inside);
      }
  }

  lemma {:induction false} NextInHasNoEcho(o: Options)
    requires AnyReady(o) && !AnyEcho(o)
    ensures !AnyEcho(NextIn(o))
    decreases o, 0
  {
    match o
    case One(p) => NextHasNoEcho(p, true);
    case More(p, others) =>
      if HasReady(p) {
        NextHasNoEcho(p, true);
      } else {
        NextInHasNoEcho(others);
      }
  }

  lemma GroupStands(before: string, text: string, after: string)
    requires HasNoBrace(text) && text != ""
    ensures IsGroup(before + ("{" + text + "}" + after), |before|, |before| + 1 + |text|)
  {
    var s := before + ("{" + text + "}" + after);
    forall k | |before| < k < |before| + 1 + |text|
      ensures !IsBrace(s[k])
    {
      assert s[k] == text[k - |before| - 1];
    }
  }

  lemma StartsWithOpen(text: string, after: string)
    ensures Opens("{" + text + "}" + after)
  {
    assert ("{" + text + "}" + after)[0] == '{';
  }

  lemma NoneStartsInQuiet(before: string, rest: string, k: nat, l: nat)
    requires Quiet(before) && Opens(rest) && k < |before|
    ensures !IsGroup(before + rest, k, l)
  {
    NoneAcross(before, rest, k, l);
    if l < |before| && IsGroup(before + rest, k, l) {
      GroupInFirst(before, rest, k, l);
    }
  }

  lemma FirstAfterQuiet(before: string, rest: string, j: nat)
    requires Quiet(before) && Opens(rest) && IsGroup(before + rest, |before|, j)
    ensures FindGroup(before + rest, 0) == Some((|before|, j))
  {
    hide *;
    forall k: nat, l: nat | k < |before|
      ensures !IsGroup(before + rest, k, l)
    {
      NoneStartsInQuiet(before, rest, k, l);
    }
    Leftmost(before + rest, |before|, j);
  }

  lemma GroupAfterQuiet(before: string, text: string, after: string)
    requires Quiet(before) && HasNoBrace(text) && text != ""
    ensures FindGroup(before + ("{" + text + "}" + after), 0) == Some((|before|, |before| + 1 + |text|))
  {
    hide *;
    GroupStands(before, text, after);
    StartsWithOpen(text, after);
    FirstAfterQuiet(before, "{" + text + "}" + after, |before| + 1 + |text|);
  }

  lemma Parts(before: string, text: string, after: string, s: string)
    requires s == before + ("{" + text + "}" + after)
    ensures |before| + 2 + |text| <= |s|
    ensures s[|before| + 1..|before| + 1 + |text|] == text && s[..|before|] == before
            && s[|before| + 2 + |text|..] == after
  {
  }

  lemma NextGroup(p: Pattern)
    requires HasReady(p) && Valid(p, false)
    ensures var i, j, s := |Before(p)|, |Before(p)| + 1 + |PrintOptions(Next(p))|, Print(p);
            && FindGroup(s, 0) == Some((i, j))
            && j < |s| && s[i + 1..j] == PrintOptions(Next(p)) && s[..i] == Before(p) && s[j + 1..] == After(p)
  {
    var before, text, after := Before(p), PrintOptions(Next(p)), After(p);
    PrintAround(p);
    BeforeIsQuiet(p, false);
    NextIsValid(p, false);
    SplitOptions(Next(p));
    assert text != "";
    assert Print(p) == before + ("{" + text + "}" + after);
    hide *;
    GroupAfterQuiet(before, text, after);
    Parts(before, text, after, Print(p));
  }

  lemma AlternativeText(s: string, i: nat, j: nat, before: string, text: string, after: string, k: nat)
    requires FindGroup(s, 0) == Some((i, j)) && j < |s| && s[i + 1..j] == text && s[..i] == before
             && s[j + 1..] == after
    requires k < |Split(text, ',')| && Tame(Split(text, ',')[k])
    ensures Alternatives(s).Some? && k < |Alternatives(s).value|
    ensures Alternatives(s).value[k] == before + Split(text, ',')[k] + after
  {
    hide *;
    AlternativeAt(s, i, j, k);
    ReplacesGroup(s, i, j, Split(text, ',')[k]);
  }

  lemma NextOption(p: Pattern, k: nat)
    requires HasReady(p) && Valid(p, false) && k < Width(p)
    ensures k < |Split(PrintOptions(Next(p)), ',')| && Split(PrintOptions(Next(p)), ',')[k] == Print(Nth(Next(p), k))
    ensures Flat(Nth(Next(p), k)) && Valid(Nth(Next(p), k), true)
  {
    assert FlatOptions(Next(p));
    hide *;
    NextIsValid(p, false);
    SplitOptions(Next(p));
    OptionMeans(Next(p), k);
    ValidOption(Next(p), k);
  }

  /** The text's alternatives are the choices from the next group, if its options do not stand for the group itself. */
  lemma AlternativeIsChoice(p: Pattern, k: nat)
    requires HasReady(p) && Valid(p, false) && k < Width(p) && !HasEcho(Nth(Next(p), k), true)
    ensures Alternatives(Print(p)).Some? && k < |Alternatives(Print(p)).value|
    ensures Alternatives(Print(p)).value[k] == Print(Choose(p, k))
  {
    hide *;
    NextOption(p, k);
    FlatDollars(Nth(Next(p), k));
    NextGroup(p);
    AlternativeText(
      Print(p), |Before(p)|, |Before(p)| + 1 + |PrintOptions(Next(p))|, Before(p), PrintOptions(Next(p)), After(p), k);
    ChoiceAround(p, k);
    AroundIs(Before(p), Print(Nth(Next(p), k)), After(p));
  }

  lemma AroundIs(before: string, middle: string, after: string)
    ensures Around(before, middle, after) == before + middle + after
  {
  }

  lemma NextGroupText(p: Pattern) returns (i: nat, j: nat)
    requires HasReady(p) && Valid(p, false)
    ensures FindGroup(Print(p), 0) == Some((i, j)) && i < j < |Print(p)| && Print(p)[i + 1..j] == PrintOptions(Next(p))
  {
    hide *;
    NextGroup(p);
    i, j := |Before(p)|, |Before(p)| + 1 + |PrintOptions(Next(p))|;
  }

  lemma NextOptionCount(p: Pattern)
    requires HasReady(p) && Valid(p, false)
    ensures |Split(PrintOptions(Next(p)), ',')| == Width(p)
  {
    assert FlatOptions(Next(p));
    hide *;
    NextIsValid(p, false);
    SplitOptions(Next(p));
  }

  lemma AlternativeCount(p: Pattern)
    requires HasReady(p) && Valid(p, false)
    ensures Alternatives(Print(p)).Some? && |Alternatives(Print(p)).value| == Width(p)
  {
    hide *;
    var i, j := NextGroupText(p);
    NextOptionCount(p);
    CountAlternatives(Print(p), i, j);
  }

  lemma CountAlternatives(s: string, i: nat, j: nat)
    requires FindGroup(s, 0) == Some((i, j)) && i < j < |s|
    ensures Alternatives(s).Some? && |Alternatives(s).value| == |Split(s[i + 1..j], ',')|
  {
    hide FindGroup, Split, Replace;
  }

  lemma NoAlternatives(p: Pattern)
    requires !HasReady(p) && Valid(p, false)
    ensures Alternatives(Print(p)).None?
  {
    DoneIsQuiet(p, false);
    assert FindGroup(Print(p), 0).None?;
  }

  // ---------------------------------------------------------------- the whole expansion

  /** All results, choice by choice. */
  function Results(p: Pattern): seq<string>
    decreases Groups(p), 1, 0
  {
    if !HasReady(p) then [Print(p)] else ResultsFrom(p, 0)
  }

  function ResultsFrom(p: Pattern, k: nat): seq<string>
    requires HasReady(p) && k <= Width(p)
    decreases Groups(p), 0, Width(p) - k
  {
    if k == Width(p) then []
    else
      GroupsShrink(p, k);
      Results(Choose(p, k)) + ResultsFrom(p, k + 1)
  }

  lemma ExpandStep(path: string, depth: nat)
    ensures Alternatives(path).Some? && depth > 0 ==>
              ExpandPaths(path, depth) == ExpandEach(Alternatives(path).value[0..], depth - 1)
    ensures Alternatives(path).None? ==> ExpandPaths(path, depth) == Some([path])
  {
    if Alternatives(path).Some? {
      var paths := Alternatives(path).value;
      assert paths[0..] == paths;
    }
    hide Alternatives, ExpandEach;
  }

  lemma ResultsStep(p: Pattern)
    ensures HasReady(p) ==> Results(p) == ResultsFrom(p, 0)
    ensures !HasReady(p) ==> Results(p) == [Print(p)]
  {
  }

  lemma DoneExpansion(p: Pattern, depth: nat)
    requires Valid(p, false) && !HasReady(p)
    ensures ExpandPaths(Print(p), depth) == Some(Results(p))
  {
    hide *;
    ResultsStep(p);
    NoAlternatives(p);
    ExpandStep(Print(p), depth);
  }

  lemma {:induction false} ExpansionIsResults(p: Pattern, depth: nat)
    requires Valid(p, false) && !HasEcho(p, false) && Groups(p) <= depth
    ensures ExpandPaths(Print(p), depth) == Some(Results(p))
    decreases depth, 1, 0
  {
    hide *;
    if HasReady(p) {
      ResultsStep(p);
      GroupsShrink(p, 0);
      EachIsResults(p, 0, depth - 1);
      ExpandStep(Print(p), depth);
    } else {
      DoneExpansion(p, depth);
    }
  }

  lemma {:induction false} EachIsResults(p: Pattern, k: nat, depth: nat)
    requires Valid(p, false) && !HasEcho(p, false) && Groups(p) <= depth + 1 && HasReady(p) && k <= Width(p)
    ensures Alternatives(Print(p)).Some? && |Alternatives(Print(p)).value| == Width(p)
    ensures ExpandEach(Alternatives(Print(p)).value[k..], depth) == Some(ResultsFrom(p, k))
    decreases depth + 1, 0, Width(p) - k
  {
    hide Alternatives, Print, Choose, Width, HasReady, ExpandPaths, Results, Valid, HasEcho, Groups, Next;
    AlternativeCount(p);
    var rest := Alternatives(Print(p)).value[k..];
    if k < Width(p) {
      NextHasNoEcho(p, false);
      OptionEcho(Next(p), k);
      AlternativeIsChoice(p, k);
      GroupsShrink(p, k);
      ChooseIsValid(p, k, false);
      ChooseHasNoEcho(p, k, false);
      ExpansionIsResults(Choose(p, k), depth);
      EachIsResults(p, k + 1, depth);
      assert rest[0] == Print(Choose(p, k)) && rest[1..] == Alternatives(Print(p)).value[k + 1..];
    }
  }

  lemma TimesStep(w: nat, x: nat, rest: nat, left: nat, product: nat)
    requires product == Times(w, x) && Times(w, rest) == Times(left, product)
    ensures Times(w, x + rest) == Times(left + 1, product)
  {
    assert w * (x + rest) == w * x + w * rest && (left + 1) * product == left * product + product;
  }

  lemma TimesGrows(w: nat, a: nat, b: nat)
    requires w > 0 && a < b
    ensures Times(w, a) < Times(w, b)
  {
    assert w * b == w * a + w * (b - a) && w * (b - a) >= 1;
  }

  lemma {:induction false} ResultCount(p: Pattern)
    requires Solid(p)
    ensures |Results(p)| == Product(p)
    decreases Groups(p), 1, 0
  {
    if HasReady(p) {
      ResultCountFrom(p, 0);
      if |Results(p)| < Product(p) {
        TimesGrows(Width(p), |Results(p)|, Product(p));
      } else if Product(p) < |Results(p)| {
        TimesGrows(Width(p), Product(p), |Results(p)|);
      }
    } else {
      DoneIsFlat(p);
      FlatCounts(p, End);
    }
  }

  lemma {:induction false} ResultCountFrom(p: Pattern, k: nat)
    requires Solid(p) && HasReady(p) && k <= Width(p)
    ensures Times(Width(p), |ResultsFrom(p, k)|) == Times(Width(p) - k, Product(p))
    decreases Groups(p), 0, Width(p) - k
  {
    if k < Width(p) {
      GroupsShrink(p, k);
      ChooseIsSolid(p, k);
      ResultCount(Choose(p, k));
      ResultCountFrom(p, k + 1);
      ProductSplits(p, k);
      assert ResultsFrom(p, k) == Results(Choose(p, k)) + ResultsFrom(p, k + 1);
      hide *;
      TimesStep(Width(p), |Results(Choose(p, k))|, |ResultsFrom(p, k + 1)|, Width(p) - k - 1, Product(p));
    }
  }

  lemma {:induction false} ResultsMean(p: Pattern, s: string)
    requires Solid(p)
    ensures s in Results(p) <==> Means(p, s)
    decreases Groups(p), 1, 0
  {
    if HasReady(p) {
      if s in Results(p) {
        var k := ResultIsMeant(p, 0, s);
        ChosenMeans(p, k, s);
      }
      if Means(p, s) {
        var k := MeantChoice(p, s);
        MeantIsResult(p, 0, k, s);
      }
    } else {
      DoneIsFlat(p);
      FlatMeans(p, s);
    }
    hide Choose, HasReady, Width, Solid, Means, Print;
  }

  lemma {:induction false} ResultIsMeant(p: Pattern, k: nat, s: string) returns (m: nat)
    requires Solid(p) && HasReady(p) && k <= Width(p) && s in ResultsFrom(p, k)
    ensures m < Width(p) && Means(Choose(p, m), s)
    decreases Groups(p), 0, Width(p) - k
  {
    GroupsShrink(p, k);
    ChooseIsSolid(p, k);
    if s in Results(Choose(p, k)) {
      ResultsMean(Choose(p, k), s);
      m := k;
    } else {
      m := ResultIsMeant(p, k + 1, s);
    }
  }

  lemma {:induction false} MeantIsResult(p: Pattern, k: nat, m: nat, s: string)
    requires Solid(p) && HasReady(p) && k <= m < Width(p) && Means(Choose(p, m), s)
    ensures s in ResultsFrom(p, k)
    decreases Groups(p), 0, Width(p) - k
  {
    GroupsShrink(p, k);
    if k == m {
      ChooseIsSolid(p, k);
      ResultsMean(Choose(p, k), s);
    } else {
      MeantIsResult(p, k + 1, m, s);
    }
  }

  lemma {:induction false} SolidLeavesNoBrace(p: Pattern, s: string)
    requires Solid(p) && Valid(p, false) && s in Results(p)
    ensures HasNoBrace(s)
    decreases Groups(p), 1, 0
  {
    if HasReady(p) {
      SolidLeavesNone(p, 0, s);
    } else {
      DoneIsFlat(p);
      FlatText(p, false);
    }
  }

  lemma {:induction false} SolidLeavesNone(p: Pattern, k: nat, s: string)
    requires Solid(p) && Valid(p, false) && HasReady(p) && k <= Width(p) && s in ResultsFrom(p, k)
    ensures HasNoBrace(s)
    decreases Groups(p), 0, Width(p) - k
  {
    GroupsShrink(p, k);
    ChooseIsSolid(p, k);
    ChooseIsValid(p, k, false);
    if s in Results(Choose(p, k)) {
      SolidLeavesNoBrace(Choose(p, k), s);
    } else {
      SolidLeavesNone(p, k + 1, s);
    }
  }

  lemma {:induction false} HollowLeavesBrace(p: Pattern) returns (s: string)
    requires !Solid(p)
    ensures s in Results(p) && !HasNoBrace(s)
    decreases Groups(p)
  {
    if HasReady(p) {
      var k := HollowChoice(p);
      GroupsShrink(p, k);
      s := HollowLeavesBrace(Choose(p, k));
      ResultOfChoice(p, 0, k, s);
    } else {
      DoneIsFlat(p);
      UnflatText(p);
      s := Print(p);
      var i :| 0 <= i < |s| && s[i] == '{';
    }
  }

  lemma {:induction false} ResultOfChoice(p: Pattern, k: nat, m: nat, s: string)
    requires HasReady(p) && k <= m < Width(p) && s in Results(Choose(p, m))
    ensures s in ResultsFrom(p, k)
    decreases m - k
  {
    if k < m {
      ResultOfChoice(p, k + 1, m, s);
    }
  }

  // ---------------------------------------------------------------- main results

  /**
   * A pattern whose groups all stand for something is expanded to what it means, in as many paths as there are
   * combinations of options, although the innermost groups are replaced first and as text.
   */
  lemma ExpansionIsMeaning(p: Pattern, depth: nat)
    requires Valid(p, false) && !HasEcho(p, false) && Solid(p) && Groups(p) <= depth
    ensures ExpandPaths(Print(p), depth).Some?
    ensures var paths := ExpandPaths(Print(p), depth).value;
            && |paths| == Product(p)
            && (forall s :: s in paths <==> Means(p, s))
            && (forall s :: s in paths ==> HasNoBrace(s))
  {
    ExpansionIsResults(p, depth);
    ResultCount(p);
    forall s
      ensures s in Results(p) <==> Means(p, s)
      ensures s in Results(p) ==> HasNoBrace(s)
    {
      ResultsMean(p, s);
      if s in Results(p) {
        SolidLeavesNoBrace(p, s);
      }
    }
  }

  /** No brace is left exactly when no group without a choice can come to stand for nothing. */
  lemma NoBraceLeftIffSolid(p: Pattern, depth: nat)
    requires Valid(p, false) && !HasEcho(p, false) && Groups(p) <= depth
    ensures ExpandPaths(Print(p), depth).Some?
    ensures (forall s :: s in ExpandPaths(Print(p), depth).value ==> HasNoBrace(s)) <==> Solid(p)
  {
    ExpansionIsResults(p, depth);
    if Solid(p) {
      ExpansionIsMeaning(p, depth);
    } else {
      var s := HollowLeavesBrace(p);
      assert s in ExpandPaths(Print(p), depth).value && !HasNoBrace(s);
    }
  }

  /** Every group offers at least two options. */
  predicate Branching(p: Pattern) {
    match p
    case End => true
    case Literal(_, rest) => Branching(rest)
    case Group(options, rest) => options.More? && BranchingOptions(options) && Branching(rest)
  }

  predicate BranchingOptions(o: Options) {
    match o
    case One(p) => Branching(p)
    case More(p, others) => Branching(p) && BranchingOptions(others)
  }

  lemma {:induction false} BranchingIsSolid(p: Pattern)
    requires Branching(p)
    ensures Solid(p)
    decreases p, 1
  {
    match p
    case End =>
    case Literal(_, rest) => BranchingIsSolid(rest);
    case Group(options, rest) =>
      BranchingIsSolidIn(options);
      BranchingIsSolid(rest);
  }

  lemma {:induction false} BranchingIsSolidIn(o: Options)
    requires BranchingOptions(o)
    ensures SolidOptions(o)
    decreases o, 0
  {
    match o
    case One(p) => BranchingIsSolid(p);
    case More(p, others) =>
      BranchingIsSolid(p);
      BranchingIsSolidIn(others);
  }

  // ---------------------------------------------------------------- patterns that stand for themselves

  /** An echo outside the group that is replaced next is still there after the replacement. */
  lemma {:induction false} EchoStays(p: Pattern, k: nat, inside: bool)
    requires HasReady(p) && k < Width(p) && Valid(p, inside) && HasEcho(p, inside) && !AnyEcho(Next(p))
    ensures HasEcho(Choose(p, k), inside)
    decreases p, 1
  {
    match p
    case Literal(c, rest) =>
      if HasEcho(rest, inside) {
        EchoStays(rest, k, inside);
      }
    case Group(options, rest) =>
      if AnyReady(options) {
        if AnyEcho(options) {
          EchoStaysIn(options, k);
        }
      } else if Ready(options) {
        OptionMeans(options, k);
        ValidOption(options, k);
        AppendEcho(Nth(options, k), rest, inside);
      } else if HasEcho(rest, inside) {
        EchoStays(rest, k, inside);
      }
  }

  lemma {:induction false} EchoStaysIn(o: Options, k: nat)
    requires AnyReady(o) && k < WidthIn(o) && ValidOptions(o) && AnyEcho(o) && !AnyEcho(NextIn(o))
    ensures AnyEcho(ChooseIn(o, k))
    decreases o, 0
  {
    match o
    case One(p) => EchoStays(p, k, true);
    case More(p, others) =>
      if HasReady(p) {
        if HasEcho(p, true) {
          EchoStays(p, k, true);
        }
      } else if AnyEcho(others) {
        EchoStaysIn(others, k);
      }
  }

  lemma {:induction false} EchoOption(o: Options) returns (k: nat)
    requires AnyEcho(o)
    ensures k < Size(o) && HasEcho(Nth(o, k), true)
  {
    if o.More? && !HasEcho(o.first, true) {
      k := EchoOption(o.others);
      k := k + 1;
    } else {
      k := 0;
    }
  }

  lemma {:induction false} FlatHasNoEcho(p: Pattern)
    requires Flat(p)
    ensures !HasEcho(p, false)
  {
    if p.Literal? {
      FlatHasNoEcho(p.rest);
    }
  }

  /** The next group has an option that stands for the group itself. */
  lemma NextEchoes(p: Pattern, depth: nat)
    requires HasReady(p) && Valid(p, false) && AnyEcho(Next(p))
    ensures ExpandPaths(Print(p), depth) == None
  {
    var k := EchoOption(Next(p));
    hide *;
    NextOption(p, k);
    FlatDollars(Nth(Next(p), k));
    var i, j := NextGroupText(p);
    EchoNeverEnds(Print(p), i, j, k, depth);
  }

  lemma {:induction false} EchoingNeverEnds(p: Pattern, depth: nat)
    requires Valid(p, false) && Solid(p) && HasEcho(p, false)
    ensures ExpandPaths(Print(p), depth) == None
    decreases depth
  {
    hide *;
    if !HasReady(p) {
      DoneIsFlat(p);
      FlatHasNoEcho(p);
    }
    if AnyEcho(Next(p)) {
      NextEchoes(p, depth);
    } else {
      OptionEcho(Next(p), 0);
      AlternativeIsChoice(p, 0);
      if depth > 0 {
        ChooseIsValid(p, 0, false);
        ChooseIsSolid(p, 0);
        EchoStays(p, 0, false);
        EchoingNeverEnds(Choose(p, 0), depth - 1);
      }
      NotCompleted(Print(p), Alternatives(Print(p)).value, 0, depth);
    }
  }

  /**
   * The expansion of a pattern whose groups all stand for something is completed, at some depth, if and only if `$&`
   * stands in no group.
   */
  lemma EndsIffNoEcho(p: Pattern)
    requires Valid(p, false) && Solid(p)
    ensures (exists depth: nat :: ExpandPaths(Print(p), depth).Some?) <==> !HasEcho(p, false)
  {
    hide Valid, Solid, HasEcho, Print, ExpandPaths;
    if HasEcho(p, false) {
      forall depth: nat
        ensures ExpandPaths(Print(p), depth) == None
      {
        EchoingNeverEnds(p, depth);
      }
    } else {
      ExpansionIsResults(p, Groups(p));
      assert ExpandPaths(Print(p), Groups(p)).Some?;
    }
  }
}
