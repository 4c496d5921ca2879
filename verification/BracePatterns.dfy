/**
 * What brace expansion means for nested patterns: scripts/check-agent-navigation.ts, `expandPaths`.
 *
 * A pattern is a tree of literals and groups, and `Means` says which paths it stands for without any rewriting. The
 * expansion replaces one group at a time: the first that has no group in it, by each of its options. `Choose` is that
 * replacement on trees. This file shows what it does to a pattern's meaning, to the product of its group sizes and to
 * `Solid`, the condition under which no brace is left; BraceExpansion shows that the text replacement is `Choose`.
 */
module BracePatterns {
  import opened Braces

  /** A path with groups of options, each of them such a path. */
  datatype Pattern = End | Literal(c: char, rest: Pattern) | Group(options: Options, rest: Pattern)
  datatype Options = One(last: Pattern) | More(first: Pattern, others: Options)

  function Print(p: Pattern): string {
    match p
    case End => ""
    case Literal(c, rest) => [c] + Print(rest)
    case Group(options, rest) => "{" + PrintOptions(options) + "}" + Print(rest)
  }

  function PrintOptions(o: Options): string {
    match o
    case One(p) => Print(p)
    case More(p, others) => Print(p) + "," + PrintOptions(others)
  }

  /**
   * Braces are groups; inside them commas separate options, and every dollar sign has a tame character after it, or
   * `&`.
   */
  predicate Valid(p: Pattern, inside: bool) {
    match p
    case End => true
    case Literal(c, rest) =>
      && !IsBrace(c) && (inside ==> c != ',' && (c == '$' ==> FollowedIn(rest)))
      && Valid(rest, inside)
    case Group(options, rest) => ValidOptions(options) && Valid(rest, inside)
  }

  predicate FollowedIn(rest: Pattern) {
    rest.Literal? && (IsTame(rest.c) || rest.c == '&')
  }

  predicate ValidOptions(o: Options) {
    match o
    case One(p) => Valid(p, true)
    case More(p, others) => Valid(p, true) && ValidOptions(others)
  }

  /** The text `$&` stands inside a group. */
  predicate HasEcho(p: Pattern, inside: bool) {
    match p
    case End => false
    case Literal(c, rest) => (inside && IsEcho(c, rest)) || HasEcho(rest, inside)
    case Group(options, rest) => AnyEcho(options) || HasEcho(rest, inside)
  }

  predicate IsEcho(c: char, rest: Pattern) {
    c == '$' && rest.Literal? && rest.c == '&'
  }

  predicate AnyEcho(o: Options) {
    match o
    case One(p) => HasEcho(p, true)
    case More(p, others) => HasEcho(p, true) || AnyEcho(others)
  }

  // ---------------------------------------------------------------- what a pattern means

  /** `s` is a path the pattern stands for. */
  predicate Means(p: Pattern, s: string) {
    match p
    case End => s == ""
    case Literal(c, rest) => s != "" && s[0] == c && Means(rest, s[1..])
    case Group(options, rest) => exists i :: 0 <= i <= |s| && MeansOne(options, s[..i]) && Means(rest, s[i..])
  }

  predicate MeansOne(o: Options, s: string) {
    match o
    case One(p) => Means(p, s)
    case More(p, others) => Means(p, s) || MeansOne(others, s)
  }

  function Size(o: Options): (n: nat)
    ensures n > 0
  {
    match o
    case One(_) => 1
    case More(_, others) => 1 + Size(others)
  }

  /** The product of the sizes of all groups. */
  function Product(p: Pattern): (n: nat)
    ensures n > 0
  {
    match p
    case End => 1
    case Literal(_, rest) => Product(rest)
    case Group(options, rest) => Times(Times(Size(options), ProductOfAll(options)), Product(rest))
  }

  function ProductOfAll(o: Options): (n: nat)
    ensures n > 0
  {
    match o
    case One(p) => Product(p)
    case More(p, others) => Times(Product(p), ProductOfAll(others))
  }

  function Times(a: nat, b: nat): (n: nat)
    ensures a > 0 && b > 0 ==> n > 0
  {
    a * b
  }

  /** Each group that offers no choice stands for a text: `{` `}` alone is no group. */
  predicate Solid(p: Pattern) {
    match p
    case End => true
    case Literal(_, rest) => Solid(rest)
    case Group(options, rest) => !(options.One? && Means(options.last, "")) && SolidOptions(options) && Solid(rest)
  }

  predicate SolidOptions(o: Options) {
    match o
    case One(p) => Solid(p)
    case More(p, others) => Solid(p) && SolidOptions(others)
  }

  // ---------------------------------------------------------------- the group that is replaced next

  predicate Flat(p: Pattern) {
    match p
    case End => true
    case Literal(_, rest) => Flat(rest)
    case Group(_, _) => false
  }

  predicate FlatOptions(o: Options) {
    match o
    case One(p) => Flat(p)
    case More(p, others) => Flat(p) && FlatOptions(others)
  }

  /** A group without groups in it, and not just a pair of braces. */
  predicate Ready(o: Options) {
    FlatOptions(o) && PrintOptions(o) != ""
  }

  predicate HasReady(p: Pattern) {
    match p
    case End => false
    case Literal(_, rest) => HasReady(rest)
    case Group(options, rest) => AnyReady(options) || Ready(options) || HasReady(rest)
  }

  predicate AnyReady(o: Options) {
    match o
    case One(p) => HasReady(p)
    case More(p, others) => HasReady(p) || AnyReady(others)
  }

  function Nth(o: Options, k: nat): Pattern
    requires k < Size(o)
  {
    match o
    case One(p) => p
    case More(p, others) => if k == 0 then p else Nth(others, k - 1)
  }

  function Append(p: Pattern, rest: Pattern): Pattern {
    match p
    case End => rest
    case Literal(c, r) => Literal(c, Append(r, rest))
    case Group(options, r) => Group(options, Append(r, rest))
  }

  /** How many options the first ready group has. */
  function Width(p: Pattern): (n: nat)
    requires HasReady(p)
    ensures n > 0
  {
    match p
    case Literal(_, rest) => Width(rest)
    case Group(options, rest) =>
      if AnyReady(options) then WidthIn(options) else if Ready(options) then Size(options) else Width(rest)
  }

  function WidthIn(o: Options): (n: nat)
    requires AnyReady(o)
    ensures n > 0
  {
    match o
    case One(p) => Width(p)
    case More(p, others) => if HasReady(p) then Width(p) else WidthIn(others)
  }

  /** The pattern with its first ready group replaced by its `k`th option. */
  function Choose(p: Pattern, k: nat): Pattern
    requires HasReady(p) && k < Width(p)
  {
    match p
    case Literal(c, rest) => Literal(c, Choose(rest, k))
    case Group(options, rest) =>
      if AnyReady(options) then Group(ChooseIn(options, k), rest)
      else if Ready(options) then Append(Nth(options, k), rest)
      else Group(options, Choose(rest, k))
  }

  function ChooseIn(o: Options, k: nat): Options
    requires AnyReady(o) && k < WidthIn(o)
  {
    match o
    case One(p) => One(Choose(p, k))
    case More(p, others) => if HasReady(p) then More(Choose(p, k), others) else More(p, ChooseIn(others, k))
  }

  function Groups(p: Pattern): nat {
    match p
    case End => 0
    case Literal(_, rest) => Groups(rest)
    case Group(options, rest) => 1 + GroupsIn(options) + Groups(rest)
  }

  function GroupsIn(o: Options): nat {
    match o
    case One(p) => Groups(p)
    case More(p, others) => Groups(p) + GroupsIn(others)
  }

  // ---------------------------------------------------------------- choosing keeps the meaning

  lemma {:induction false} FlatMeans(p: Pattern, s: string)
    requires Flat(p)
    ensures Means(p, s) <==> s == Print(p)
  {
    if p.Literal? {
      if s != "" {
        FlatMeans(p.rest, s[1..]);
        assert [s[0]] + s[1..] == s;
      }
      assert Print(p)[0] == p.c && Print(p)[1..] == Print(p.rest);
    }
  }

  lemma {:induction false} OptionMeans(o: Options, k: nat)
    requires FlatOptions(o) && k < Size(o)
    ensures Flat(Nth(o, k)) && MeansOne(o, Print(Nth(o, k)))
  {
    match o
    case One(p) => FlatMeans(p, Print(p));
    case More(p, others) =>
      if k == 0 {
        FlatMeans(p, Print(p));
      } else {
        OptionMeans(others, k - 1);
      }
  }

  lemma {:induction false} MeantOption(o: Options, s: string) returns (k: nat)
    requires FlatOptions(o) && MeansOne(o, s)
    ensures k < Size(o) && s == Print(Nth(o, k))
  {
    match o
    case One(p) =>
      FlatMeans(p, s);
      k := 0;
    case More(p, others) =>
      FlatMeans(p, s);
      if Means(p, s) {
        k := 0;
      } else {
        k := MeantOption(others, s);
        k := k + 1;
      }
  }

  lemma {:induction false} AppendMeans(p: Pattern, rest: Pattern, s: string)
    requires Flat(p)
    ensures Means(Append(p, rest), s) <==> Print(p) <= s && Means(rest, s[|Print(p)|..])
  {
    match p
    case End => assert s[0..] == s;
    case Literal(c, r) =>
      if s != "" {
        AppendMeans(r, rest, s[1..]);
        assert Print(p) == [c] + Print(r);
        if Print(r) <= s[1..] {
          assert s[1..][|Print(r)|..] == s[|Print(p)|..];
        }
        assert s == [s[0]] + s[1..];
        assert Print(p) <= s <==> s[0] == c && Print(r) <= s[1..] by {
          if Print(p) <= s {
            assert s[..|Print(p)|][1..] == s[1..][..|Print(r)|];
          }
        }
      }
  }

  // A path is in the meaning exactly when it is in that of a choice from the group that is replaced next.

  lemma {:induction false} ChosenMeans(p: Pattern, k: nat, s: string)
    requires HasReady(p) && k < Width(p) && Means(Choose(p, k), s)
    ensures Means(p, s)
    decreases p, 1
  {
    match p
    case Literal(c, rest) => ChosenMeans(rest, k, s[1..]);
    case Group(options, rest) =>
      if AnyReady(options) {
        var i :| 0 <= i <= |s| && MeansOne(ChooseIn(options, k), s[..i]) && Means(rest, s[i..]);
        ChosenMeansIn(options, k, s[..i]);
      } else if Ready(options) {
        OptionMeans(options, k);
        AppendMeans(Nth(options, k), rest, s);
        var i := |Print(Nth(options, k))|;
        assert s[..i] == Print(Nth(options, k));
      } else {
        var i :| 0 <= i <= |s| && MeansOne(options, s[..i]) && Means(Choose(rest, k), s[i..]);
        ChosenMeans(rest, k, s[i..]);
      }
  }

  lemma {:induction false} ChosenMeansIn(o: Options, k: nat, s: string)
    requires AnyReady(o) && k < WidthIn(o) && MeansOne(ChooseIn(o, k), s)
    ensures MeansOne(o, s)
    decreases o, 0
  {
    match o
    case One(p) => ChosenMeans(p, k, s);
    case More(p, others) =>
      if HasReady(p) {
        if Means(Choose(p, k), s) {
          ChosenMeans(p, k, s);
        }
      } else if MeansOne(ChooseIn(others, k), s) {
        ChosenMeansIn(others, k, s);
      }
  }

  lemma {:induction false} MeantChoice(p: Pattern, s: string) returns (k: nat)
    requires HasReady(p) && Means(p, s)
    ensures k < Width(p) && Means(Choose(p, k), s)
    decreases p, 1
  {
    match p
    case Literal(c, rest) => k := MeantChoice(rest, s[1..]);
    case Group(options, rest) =>
      var i :| 0 <= i <= |s| && MeansOne(options, s[..i]) && Means(rest, s[i..]);
      if AnyReady(options) {
        k := MeantChoiceIn(options, s[..i]);
        assert MeansOne(ChooseIn(options, k), s[..i]) && Means(rest, s[i..]);
      } else if Ready(options) {
        k := MeantOption(options, s[..i]);
        OptionMeans(options, k);
        AppendMeans(Nth(options, k), rest, s);
      } else {
        k := MeantChoice(rest, s[i..]);
        assert MeansOne(options, s[..i]) && Means(Choose(rest, k), s[i..]);
      }
  }

  lemma {:induction false} MeantChoiceIn(o: Options, s: string) returns (k: nat)
    requires AnyReady(o) && MeansOne(o, s)
    ensures k < WidthIn(o) && MeansOne(ChooseIn(o, k), s)
    decreases o, 0
  {
    match o
    case One(p) => k := MeantChoice(p, s);
    case More(p, others) =>
      if HasReady(p) {
        if Means(p, s) {
          k := MeantChoice(p, s);
        } else {
          k := 0;
        }
      } else if MeansOne(others, s) {
        k := MeantChoiceIn(others, s);
      } else {
        k := 0;
      }
  }

  // ---------------------------------------------------------------- what choosing keeps

  lemma {:induction false} FlatCounts(p: Pattern, rest: Pattern)
    requires Flat(p)
    ensures Groups(Append(p, rest)) == Groups(rest) && Product(Append(p, rest)) == Product(rest)
    ensures Groups(p) == 0 && Product(p) == 1
    ensures Solid(Append(p, rest)) <==> Solid(rest)
  {
    if p.Literal? {
      FlatCounts(p.rest, rest);
    }
  }

  lemma {:induction false} FlatOptionsCount(o: Options)
    requires FlatOptions(o)
    ensures GroupsIn(o) == 0 && ProductOfAll(o) == 1 && SolidOptions(o)
  {
    match o
    case One(p) =>
      FlatCounts(p, End);
      FlatIsSolid(p);
    case More(p, others) =>
      FlatCounts(p, End);
      FlatIsSolid(p);
      FlatOptionsCount(others);
  }

  lemma {:induction false} FlatIsSolid(p: Pattern)
    requires Flat(p)
    ensures Solid(p)
  {
    if p.Literal? {
      FlatIsSolid(p.rest);
    }
  }

  lemma {:induction false} GroupsShrink(p: Pattern, k: nat)
    requires HasReady(p) && k < Width(p)
    ensures Groups(Choose(p, k)) + 1 == Groups(p)
    decreases p, 1
  {
    match p
    case Literal(_, rest) => GroupsShrink(rest, k);
    case Group(options, rest) =>
      if AnyReady(options) {
        GroupsShrinkIn(options, k);
      } else if Ready(options) {
        OptionMeans(options, k);
        FlatOptionsCount(options);
        FlatCounts(Nth(options, k), rest);
      } else {
        GroupsShrink(rest, k);
      }
  }

  lemma {:induction false} GroupsShrinkIn(o: Options, k: nat)
    requires AnyReady(o) && k < WidthIn(o)
    ensures GroupsIn(ChooseIn(o, k)) + 1 == GroupsIn(o)
    decreases o, 0
  {
    match o
    case One(p) => GroupsShrink(p, k);
    case More(p, others) =>
      if HasReady(p) {
        GroupsShrink(p, k);
      } else {
        GroupsShrinkIn(others, k);
      }
  }

  lemma TimesLaws(w: nat, a: nat, b: nat)
    ensures Times(a, Times(w, b)) == Times(w, Times(a, b)) && Times(Times(w, a), b) == Times(w, Times(a, b))
    ensures Times(a, 1) == a && Times(a, b) == Times(b, a)
  {
    assert a * (w * b) == w * (a * b) && (w * a) * b == w * (a * b);
  }

  lemma {:induction false} ProductSplits(p: Pattern, k: nat)
    requires HasReady(p) && k < Width(p)
    ensures Product(p) == Times(Width(p), Product(Choose(p, k)))
    decreases p, 1
  {
    match p
    case Literal(_, rest) => ProductSplits(rest, k);
    case Group(options, rest) =>
      if AnyReady(options) {
        ProductSplitsIn(options, k);
        var w, size, all := Width(p), Size(options), ProductOfAll(ChooseIn(options, k));
        TimesLaws(w, size, all);
        TimesLaws(w, Times(size, all), Product(rest));
      } else if Ready(options) {
        OptionMeans(options, k);
        FlatOptionsCount(options);
        FlatCounts(Nth(options, k), rest);
        TimesLaws(1, Size(options), 1);
      } else {
        ProductSplits(rest, k);
        TimesLaws(Width(p), Times(Size(options), ProductOfAll(options)), Product(Choose(rest, k)));
      }
      hide Times;
  }

  lemma {:induction false} ProductSplitsIn(o: Options, k: nat)
    requires AnyReady(o) && k < WidthIn(o)
    ensures ProductOfAll(o) == Times(WidthIn(o), ProductOfAll(ChooseIn(o, k))) && Size(ChooseIn(o, k)) == Size(o)
    decreases o, 0
  {
    match o
    case One(p) => ProductSplits(p, k);
    case More(p, others) =>
      if HasReady(p) {
        ProductSplits(p, k);
        TimesLaws(WidthIn(o), Product(Choose(p, k)), ProductOfAll(others));
      } else {
        ProductSplitsIn(others, k);
        TimesLaws(WidthIn(o), Product(p), ProductOfAll(ChooseIn(others, k)));
      }
      hide Times;
  }

  lemma {:induction false} ValidOutside(p: Pattern)
    requires Valid(p, true)
    ensures Valid(p, false)
  {
    match p
    case End =>
    case Literal(_, rest) => ValidOutside(rest);
    case Group(_, rest) => ValidOutside(rest);
  }

  lemma {:induction false} ValidAppend(p: Pattern, rest: Pattern, inside: bool)
    requires Valid(p, inside) && Valid(rest, inside)
    ensures Valid(Append(p, rest), inside)
  {
    match p
    case End =>
    case Literal(_, r) => ValidAppend(r, rest, inside);
    case Group(_, r) => ValidAppend(r, rest, inside);
  }

  lemma {:induction false} ValidOption(o: Options, k: nat)
    requires ValidOptions(o) && k < Size(o)
    ensures Valid(Nth(o, k), true)
  {
    if o.More? && k > 0 {
      ValidOption(o.others, k - 1);
    }
  }

  lemma {:induction false} ChooseIsValid(p: Pattern, k: nat, inside: bool)
    requires HasReady(p) && k < Width(p) && Valid(p, inside)
    ensures Valid(Choose(p, k), inside)
    decreases p, 1
  {
    match p
    case Literal(_, rest) => ChooseIsValid(rest, k, inside);
    case Group(options, rest) =>
      if AnyReady(options) {
        ChooseInIsValid(options, k);
      } else if Ready(options) {
        ValidOption(options, k);
        ValidOutside(Nth(options, k));
        ValidAppend(Nth(options, k), rest, inside);
      } else {
        ChooseIsValid(rest, k, inside);
      }
  }

  lemma {:induction false} ChooseInIsValid(o: Options, k: nat)
    requires AnyReady(o) && k < WidthIn(o) && ValidOptions(o)
    ensures ValidOptions(ChooseIn(o, k))
    decreases o, 0
  {
    match o
    case One(p) => ChooseIsValid(p, k, true);
    case More(p, others) =>
      if HasReady(p) {
        ChooseIsValid(p, k, true);
      } else {
        ChooseInIsValid(others, k);
      }
  }

  lemma {:induction false} AppendEcho(p: Pattern, rest: Pattern, inside: bool)
    requires Flat(p) && Valid(p, true)
    ensures HasEcho(Append(p, rest), inside) <==> (inside && HasEcho(p, true)) || HasEcho(rest, inside)
  {
    if p.Literal? {
      AppendEcho(p.rest, rest, inside);
    }
  }

  lemma {:induction false} OptionEcho(o: Options, k: nat)
    requires k < Size(o) && !AnyEcho(o)
    ensures !HasEcho(Nth(o, k), true)
  {
    if o.More? && k > 0 {
      OptionEcho(o.others, k - 1);
    }
  }

  lemma {:induction false} ChooseHasNoEcho(p: Pattern, k: nat, inside: bool)
    requires HasReady(p) && k < Width(p) && Valid(p, inside) && !HasEcho(p, inside)
    ensures !HasEcho(Choose(p, k), inside)
    decreases p, 1
  {
    match p
    case Literal(_, rest) => ChooseHasNoEcho(rest, k, inside);
    case Group(options, rest) =>
      if AnyReady(options) {
        ChooseInHasNoEcho(options, k);
      } else if Ready(options) {
        OptionMeans(options, k);
        ValidOption(options, k);
        OptionEcho(options, k);
        AppendEcho(Nth(options, k), rest, inside);
      } else {
        ChooseHasNoEcho(rest, k, inside);
      }
  }

  lemma {:induction false} ChooseInHasNoEcho(o: Options, k: nat)
    requires AnyReady(o) && k < WidthIn(o) && ValidOptions(o) && !AnyEcho(o)
    ensures !AnyEcho(ChooseIn(o, k))
    decreases o, 0
  {
    match o
    case One(p) => ChooseHasNoEcho(p, k, true);
    case More(p, others) =>
      if HasReady(p) {
        ChooseHasNoEcho(p, k, true);
      } else {
        ChooseInHasNoEcho(others, k);
      }
  }

  lemma {:induction false} ChooseIsSolid(p: Pattern, k: nat)
    requires HasReady(p) && k < Width(p) && Solid(p)
    ensures Solid(Choose(p, k))
    decreases p, 1
  {
    match p
    case Literal(_, rest) => ChooseIsSolid(rest, k);
    case Group(options, rest) =>
      if AnyReady(options) {
        ChooseInIsSolid(options, k);
        if ChooseIn(options, k).One? && Means(ChooseIn(options, k).last, "") {
          ChosenMeans(options.last, k, "");
        }
      } else if Ready(options) {
        OptionMeans(options, k);
        FlatCounts(Nth(options, k), rest);
      } else {
        ChooseIsSolid(rest, k);
      }
  }

  lemma {:induction false} ChooseInIsSolid(o: Options, k: nat)
    requires AnyReady(o) && k < WidthIn(o) && SolidOptions(o)
    ensures SolidOptions(ChooseIn(o, k))
    decreases o, 0
  {
    match o
    case One(p) => ChooseIsSolid(p, k);
    case More(p, others) =>
      if HasReady(p) {
        ChooseIsSolid(p, k);
      } else {
        ChooseInIsSolid(others, k);
      }
  }

  /** A group that can come to stand for nothing does so after some choice. */
  lemma {:induction false} HollowChoice(p: Pattern) returns (k: nat)
    requires HasReady(p) && !Solid(p)
    ensures k < Width(p) && !Solid(Choose(p, k))
    decreases p, 1
  {
    match p
    case Literal(_, rest) => k := HollowChoice(rest);
    case Group(options, rest) =>
      if AnyReady(options) {
        if options.One? && Means(options.last, "") {
          k := MeantChoice(options.last, "");
        } else if !SolidOptions(options) {
          k := HollowChoiceIn(options);
        } else {
          k := 0;
        }
      } else if Ready(options) {
        FlatOptionsCount(options);
        if options.One? {
          FlatMeans(options.last, "");
        }
        k := 0;
        OptionMeans(options, k);
        FlatCounts(Nth(options, k), rest);
      } else if Solid(rest) {
        k := 0;
      } else {
        k := HollowChoice(rest);
      }
  }

  lemma {:induction false} HollowChoiceIn(o: Options) returns (k: nat)
    requires AnyReady(o) && !SolidOptions(o)
    ensures k < WidthIn(o) && !SolidOptions(ChooseIn(o, k))
    decreases o, 0
  {
    match o
    case One(p) => k := HollowChoice(p);
    case More(p, others) =>
      if HasReady(p) {
        if Solid(p) {
          k := 0;
        } else {
          k := HollowChoice(p);
        }
      } else if SolidOptions(others) {
        k := 0;
      } else {
        k := HollowChoiceIn(others);
      }
  }

  /** When nothing is left to replace, the pattern is flat if it is solid. */
  lemma {:induction false} DoneIsFlat(p: Pattern)
    requires !HasReady(p)
    ensures Flat(p) <==> Solid(p)
    decreases p, 1
  {
    match p
    case End =>
    case Literal(_, rest) => DoneIsFlat(rest);
    case Group(options, rest) =>
      if Solid(p) {
        DoneIsFlatIn(options);
        assert PrintOptions(options) == "";
        FlatMeans(options.last, "");
        assert false;
      }
  }

  lemma {:induction false} DoneIsFlatIn(o: Options)
    requires !AnyReady(o) && SolidOptions(o)
    ensures FlatOptions(o)
    decreases o, 0
  {
    match o
    case One(p) => DoneIsFlat(p);
    case More(p, others) =>
      DoneIsFlat(p);
      DoneIsFlatIn(others);
  }
}
