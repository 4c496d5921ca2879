/**
 * Which color each theme gets: apps/docs/scripts/check-contracts.ts, `cssDeclarations` and the loops that build
 * `colorRules` and `themes`.
 */
module Theme {
  import opened Wrappers
  import opened CssGrammar
  import opened Strings

  // ---------------------------------------------------------------- the declarations of a block

  /** `s.indexOf(c)`, the length of the text if there is none. */
  function Find(s: string, c: char): (i: nat)
    ensures i <= |s| && (i < |s| ==> s[i] == c) && c !in s[..i]
  {
    if s == "" || s[0] == c then 0 else 1 + Find(s[1..], c)
  }

  /** A declaration has a colon, and not as its first character. */
  predicate IsDeclaration(part: string) {
    0 < Find(part, ':') < |part|
  }

  function Property(part: string): string {
    TrimEnd(TrimStart(part[..Find(part, ':')]))
  }

  function ValueOf(part: string): string
    requires IsDeclaration(part)
  {
    Collapse(part[Find(part, ':') + 1..])
  }

  predicate Declares(part: string, property: string) {
    IsDeclaration(part) && Property(part) == property
  }

  /** Which part declares a property last. */
  function LastDeclaring(parts: seq<string>, property: string): (i: int)
    ensures -1 <= i < |parts| && (i >= 0 ==> Declares(parts[i], property))
    ensures forall j :: i < j < |parts| ==> !Declares(parts[j], property)
  {
    if parts == [] then -1
    else
      var n := |parts| - 1;
      if Declares(parts[n], property) then n else LastDeclaring(parts[..n], property)
  }

  /** A property has the value of its last declaration. */
  ghost predicate AreDeclarations(parts: seq<string>, declarations: map<string, string>) {
    forall property ::
      && (property in declarations <==> LastDeclaring(parts, property) >= 0)
      && (property in declarations ==> declarations[property] == ValueOf(parts[LastDeclaring(parts, property)]))
  }

  lemma LastOfMore(parts: seq<string>, part: string, property: string)
    ensures LastDeclaring(parts + [part], property)
         == if Declares(part, property) then |parts| else LastDeclaring(parts, property)
  {
    assert (parts + [part])[..|parts|] == parts;
    hide Declares;
  }

  lemma DeclareMore(parts: seq<string>, part: string, declarations: map<string, string>)
    requires AreDeclarations(parts, declarations)
    ensures AreDeclarations(
              parts + [part], if IsDeclaration(part) then declarations[Property(part) := ValueOf(part)]
                else declarations)
  {
    hide LastDeclaring, Find, Property, ValueOf, IsDeclaration;
    var more := if IsDeclaration(part) then declarations[Property(part) := ValueOf(part)] else declarations;
    forall property
      ensures property in more <==> LastDeclaring(parts + [part], property) >= 0
      ensures property in more ==> more[property] == ValueOf((parts + [part])[LastDeclaring(parts + [part], property)])
    {
      LastOfMore(parts, part, property);
    }
  }

  method CssDeclarations(body: string) returns (declarations: map<string, string>)
    ensures AreDeclarations(Split(body, ';'), declarations)
  {
    declarations := map[];
    var parts := Split(body, ';');
    for i := 0 to |parts|
      invariant AreDeclarations(parts[..i], declarations)
    {
      hide *;
      DeclareMore(parts[..i], parts[i], declarations);
      assert parts[..i + 1] == parts[..i] + [parts[i]];
      if IsDeclaration(parts[i]) {
        declarations := declarations[Property(parts[i]) := ValueOf(parts[i])];
      }
    }
    assert parts[..|parts|] == parts;
  }

  // ---------------------------------------------------------------- the cascade

  /** A selector and the themes whose colors it sets. The rules come weakest first. */
  datatype ThemeRule = ThemeRule(prelude: string, themes: seq<string>)

  /** A block of the stylesheet that sets colors. */
  datatype ColorRule = ColorRule(colors: map<string, string>, prelude: string)

  /** The `i`th block sets the colors of a theme by the rule of strength `s`. */
  predicate Applies(themeRules: seq<ThemeRule>, colorRules: seq<ColorRule>, theme: string, s: nat, i: nat) {
    && s < |themeRules| && i < |colorRules|
    && colorRules[i].prelude == themeRules[s].prelude && theme in themeRules[s].themes
  }

  predicate Sets(themeRules: seq<ThemeRule>, colorRules: seq<ColorRule>, theme: string, color: string, s: nat, i: nat) {
    Applies(themeRules, colorRules, theme, s, i) && color in colorRules[i].colors
  }

  /** It is weaker, or as strong and comes first. */
  predicate Precedes(s: nat, i: nat, t: nat, j: nat) {
    s < t || (s == t && i < j)
  }

  /** The strongest setting of a color before place (`s`, `i`), found from the strong end. */
  function Strongest(
    themeRules: seq<ThemeRule>, colorRules: seq<ColorRule>, theme: string, color: string, s: nat,
    i: nat): Option<(nat, nat)>
    requires s <= |themeRules| && i <= |colorRules|
    decreases s, i
  {
    if i > 0 then
      if Sets(themeRules, colorRules, theme, color, s, i - 1) then Some((s, i - 1))
      else Strongest(themeRules, colorRules, theme, color, s, i - 1)
    else if s > 0 then Strongest(themeRules, colorRules, theme, color, s - 1, |colorRules|)
    else None
  }

  lemma {:induction false} StrongestSets(
    themeRules: seq<ThemeRule>, colorRules: seq<ColorRule>, theme: string, color: string, s: nat, i: nat)
    requires s <= |themeRules| && i <= |colorRules|
    ensures var r := Strongest(themeRules, colorRules, theme, color, s, i);
            r.Some? ==>
              && Sets(themeRules, colorRules, theme, color, r.value.0, r.value.1)
              && Precedes(r.value.0, r.value.1, s, i)
    decreases s, i
  {
    if i > 0 {
      StrongestSets(themeRules, colorRules, theme, color, s, i - 1);
    } else if s > 0 {
      StrongestSets(themeRules, colorRules, theme, color, s - 1, |colorRules|);
    }
    hide Sets;
  }

  /** Nothing that sets the color comes after the strongest setting. */
  lemma {:induction false} NoneStronger(
    themeRules: seq<ThemeRule>, colorRules: seq<ColorRule>, theme: string, color: string, s: nat, i: nat, t: nat,
    j: nat)
    requires s <= |themeRules| && i <= |colorRules|
    requires Sets(themeRules, colorRules, theme, color, t, j) && Precedes(t, j, s, i)
    ensures var r := Strongest(themeRules, colorRules, theme, color, s, i);
            r.Some? && !Precedes(r.value.0, r.value.1, t, j)
    decreases s, i
  {
    if i > 0 {
      if !Sets(themeRules, colorRules, theme, color, s, i - 1) {
        NoneStronger(themeRules, colorRules, theme, color, s, i - 1, t, j);
      }
    } else {
      NoneStronger(themeRules, colorRules, theme, color, s - 1, |colorRules|, t, j);
    }
  }

  function Lookup(themes: map<string, map<string, string>>, theme: string, color: string): Option<string> {
    if theme in themes && color in themes[theme] then Some(themes[theme][color]) else None
  }

  function ColorAt(colorRules: seq<ColorRule>, place: Option<(nat, nat)>, color: string): Option<string> {
    if place.Some? && place.value.1 < |colorRules| && color in colorRules[place.value.1].colors
    then Some(colorRules[place.value.1].colors[color])
    else None
  }

  /** Each theme gets each color from the strongest setting before place (`s`, `i`). */
  ghost predicate IsCascade(
    themeRules: seq<ThemeRule>, colorRules: seq<ColorRule>, themes: map<string, map<string, string>>, s: nat, i: nat)
    requires s <= |themeRules| && i <= |colorRules|
  {
    forall theme, color ::
      Lookup(themes, theme, color) == ColorAt(colorRules, Strongest(themeRules, colorRules, theme, color, s, i), color)
  }

  /** What one block that applies does. */
  ghost predicate Merged(
    before: map<string, map<string, string>>, names: seq<string>, colors: map<string, string>,
    after: map<string, map<string, string>>)
  {
    forall theme, color ::
      Lookup(after, theme, color)
      == if theme in names && color in colors then Some(colors[color]) else Lookup(before, theme, color)
  }

  lemma CascadeMore(
    themeRules: seq<ThemeRule>, colorRules: seq<ColorRule>, s: nat, i: nat,
    before: map<string, map<string, string>>, after: map<string, map<string, string>>)
    requires s < |themeRules| && i < |colorRules| && IsCascade(themeRules, colorRules, before, s, i)
    requires if colorRules[i].prelude == themeRules[s].prelude
             then Merged(before, themeRules[s].themes, colorRules[i].colors, after) else after == before
    ensures IsCascade(themeRules, colorRules, after, s, i + 1)
  {
    hide Lookup;
    forall theme, color
      ensures Lookup(after, theme, color)
           == ColorAt(colorRules, Strongest(themeRules, colorRules, theme, color, s, i + 1), color)
    {
      assert Lookup(before, theme, color)
        == ColorAt(colorRules, Strongest(themeRules, colorRules, theme, color, s, i), color);
    }
  }

  lemma CascadeNextRule(
    themeRules: seq<ThemeRule>, colorRules: seq<ColorRule>, s: nat, themes: map<string, map<string, string>>)
    requires s < |themeRules| && IsCascade(themeRules, colorRules, themes, s, |colorRules|)
    ensures IsCascade(themeRules, colorRules, themes, s + 1, 0)
  {
    forall theme, color
      ensures Lookup(themes, theme, color)
           == ColorAt(colorRules, Strongest(themeRules, colorRules, theme, color, s + 1, 0), color)
    {
      assert Lookup(themes, theme, color)
          == ColorAt(colorRules, Strongest(themeRules, colorRules, theme, color, s, |colorRules|), color);
    }
  }

  lemma MergedMore(
    before: map<string, map<string, string>>, names: seq<string>, name: string, colors: map<string, string>,
    themes: map<string, map<string, string>>)
    requires Merged(before, names, colors, themes)
    ensures Merged(before, names + [name], colors,
            themes[name := (if name in themes then themes[name] else map[]) + colors])
  {
    var after := themes[name := (if name in themes then themes[name] else map[]) + colors];
    forall theme, color
      ensures Lookup(after, theme, color)
           == if theme in names + [name] && color in colors then Some(colors[color]) else Lookup(before, theme, color)
    {
      assert Lookup(themes, theme, color)
          == if theme in names && color in colors then Some(colors[color]) else Lookup(before, theme, color);
    }
  }

  method Themes(
    themeRules: seq<ThemeRule>, colorRules: seq<ColorRule>) returns (themes: map<string, map<string, string>>)
    ensures IsCascade(themeRules, colorRules, themes, |themeRules|, 0)
  {
    themes := map[];
    for s := 0 to |themeRules|
      invariant IsCascade(themeRules, colorRules, themes, s, 0)
    {
      hide *;
      var names := themeRules[s].themes;
      for i := 0 to |colorRules|
        invariant IsCascade(themeRules, colorRules, themes, s, i)
      {
        ghost var before := themes;
        var rule := colorRules[i];
        if rule.prelude == themeRules[s].prelude {
          NothingMerged(before, rule.colors);
          for n := 0 to |names|
            invariant Merged(before, names[..n], rule.colors, themes)
          {
            MergedMore(before, names[..n], names[n], rule.colors, themes);
            assert names[..n + 1] == names[..n] + [names[n]];
            themes := themes[names[n] := (if names[n] in themes then themes[names[n]] else map[]) + rule.colors];
          }
          assert names[..|names|] == names;
        }
        CascadeMore(themeRules, colorRules, s, i, before, themes);
      }
      CascadeNextRule(themeRules, colorRules, s, themes);
    }
  }

  lemma NothingMerged(themes: map<string, map<string, string>>, colors: map<string, string>)
    ensures Merged(themes, [], colors, themes)
  {
  }

  /**
   * A theme has a color exactly when some block sets it for the theme, and then it is that of the last block, by
   * strength and then by place, that does.
   */
  lemma CascadeIsLast(
    themeRules: seq<ThemeRule>, colorRules: seq<ColorRule>, themes: map<string, map<string, string>>,
    theme: string, color: string, s: nat, i: nat)
    requires IsCascade(themeRules, colorRules, themes, |themeRules|, 0)
    requires Sets(themeRules, colorRules, theme, color, s, i)
    requires forall t: nat, j: nat :: Sets(themeRules, colorRules, theme, color, t, j) ==> !Precedes(s, i, t, j)
    ensures Lookup(themes, theme, color) == Some(colorRules[i].colors[color])
  {
    NoneStronger(themeRules, colorRules, theme, color, |themeRules|, 0, s, i);
    StrongestSets(themeRules, colorRules, theme, color, |themeRules|, 0);
    var (t, j) := Strongest(themeRules, colorRules, theme, color, |themeRules|, 0).value;
    assert !Precedes(s, i, t, j);
    assert Lookup(themes, theme, color) == ColorAt(colorRules, Some((t, j)), color);
  }

  lemma HasColorIffSet(
    themeRules: seq<ThemeRule>, colorRules: seq<ColorRule>, themes: map<string, map<string, string>>, theme: string,
    color: string)
    requires IsCascade(themeRules, colorRules, themes, |themeRules|, 0)
    ensures Lookup(themes, theme, color).Some?
            <==> exists s: nat, i: nat :: Sets(themeRules, colorRules, theme, color, s, i)
  {
    var strongest := Strongest(themeRules, colorRules, theme, color, |themeRules|, 0);
    StrongestSets(themeRules, colorRules, theme, color, |themeRules|, 0);
    assert Lookup(themes, theme, color) == ColorAt(colorRules, strongest, color);
    forall s: nat, i: nat | Sets(themeRules, colorRules, theme, color, s, i)
      ensures strongest.Some?
    {
      NoneStronger(themeRules, colorRules, theme, color, |themeRules|, 0, s, i);
    }
  }
}
