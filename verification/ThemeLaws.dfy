/** What declarations and colors are, by text and by rules: apps/docs/scripts/check-contracts.ts:203-218, 489-496. */
module ThemeLaws {
  import opened CssGrammar
  import opened Strings
  import opened Theme
  import opened Wrappers
  import StylesheetPrint

  // ---------------------------------------------------------------- trimming

  /** The 25 characters that JavaScript takes for whitespace. */
  lemma SpacesAre(c: char)
    ensures IsSpace(c) <==>
            c as int in {0x9, 0xA, 0xB, 0xC, 0xD, 0x20, 0xA0, 0x1680, 0x2000, 0x2001, 0x2002, 0x2003, 0x2004, 0x2005,
                         0x2006, 0x2007, 0x2008, 0x2009, 0x200A, 0x2028, 0x2029, 0x202F, 0x205F, 0x3000, 0xFEFF}
  {
  }

  predicate IsBlank(s: string) {
    forall i :: 0 <= i < |s| ==> IsSpace(s[i])
  }

  predicate IsTrim(s: string) {
    s == "" || (!IsSpace(s[0]) && !IsSpace(s[|s| - 1]))
  }

  lemma {:induction false} TrimStartOf(before: string, s: string)
    requires IsBlank(before) && (s == "" || !IsSpace(s[0]))
    ensures TrimStart(before + s) == s
  {
    if before == "" {
      assert before + s == s;
    } else {
      TrimStartOf(before[1..], s);
      assert (before + s)[1..] == before[1..] + s;
    }
    hide IsSpace;
  }

  lemma {:induction false} TrimEndOf(s: string, after: string)
    requires IsBlank(after) && (s == "" || !IsSpace(s[|s| - 1]))
    ensures TrimEnd(s + after) == s
  {
    if after == "" {
      assert s + after == s;
    } else {
      var n := |after| - 1;
      TrimEndOf(s, after[..n]);
      assert (s + after)[..|s + after| - 1] == s + after[..n];
    }
    hide IsSpace;
  }

  /** Trimming leaves what is between the whitespace at the ends. */
  lemma TrimExactly(before: string, s: string, after: string)
    requires IsBlank(before) && IsTrim(s) && IsBlank(after)
    ensures TrimEnd(TrimStart(before + (s + after))) == s
  {
    hide IsSpace;
    if s == "" {
      assert before + (s + after) == (before + after) + "";
      TrimStartOf(before + after, "");
    } else {
      assert (s + after)[0] == s[0];
      TrimStartOf(before, s + after);
      TrimEndOf(s, after);
    }
  }

  // ---------------------------------------------------------------- declarations

  lemma {:induction false} FindMark(name: string, c: char, value: string)
    requires c !in name
    ensures Find(name + ([c] + value), c) == |name|
  {
    var s := name + ([c] + value);
    if name != "" {
      assert s[1..] == name[1..] + ([c] + value);
      FindMark(name[1..], c, value);
    }
  }

  /** The text before the first colon, and the text after it. */
  predicate IsPair(part: string, name: string, value: string) {
    name != "" && ':' !in name && part == name + ([':'] + value)
  }

  /** A part of a body declares something exactly if it has a colon that is not its first character. */
  lemma DeclarationIffPair(part: string)
    ensures IsDeclaration(part) <==> exists name, value :: IsPair(part, name, value)
  {
    if IsDeclaration(part) {
      var i := Find(part, ':');
      assert IsPair(part, part[..i], part[i + 1..]);
    }
    forall name, value | IsPair(part, name, value)
      ensures IsDeclaration(part)
    {
      FindMark(name, ':', value);
    }
    hide Find;
  }

  /** Its property is what stands before the first colon, trimmed, and its value the words after it, one space apart. */
  lemma DeclarationExactly(part: string, before: string, property: string, after: string, value: string)
    requires IsBlank(before) && IsTrim(property) && IsBlank(after) && IsPair(part, before + (property + after), value)
    ensures IsDeclaration(part) && Property(part) == property
    ensures ValueOf(part) == StylesheetPrint.Join(StylesheetPrint.Words(value))
  {
    var name := before + (property + after);
    FindMark(name, ':', value);
    assert part[..|name|] == name && part[|name| + 1..] == value;
    TrimExactly(before, property, after);
    StylesheetPrint.CollapseJoinsWords(value);
    hide Find, TrimStart, TrimEnd, Collapse, StylesheetPrint.Join, StylesheetPrint.Words, IsSpace;
  }

  // ---------------------------------------------------------------- colors

  /** A rule of the theme names the block's selector, and the block sets the color. */
  predicate IsSetBy(
    themeRules: seq<ThemeRule>, colorRules: seq<ColorRule>, theme: string, color: string, s: nat, i: nat) {
    && s < |themeRules| && theme in themeRules[s].themes
    && i < |colorRules| && colorRules[i].prelude == themeRules[s].prelude && color in colorRules[i].colors
  }

  /**
   * A theme has a color if and only if a rule for the theme names the selector of a block that sets it, and it is then
   * the one that the last such block sets for the last such rule.
   */
  lemma ColorExactly(
    themeRules: seq<ThemeRule>, colorRules: seq<ColorRule>, themes: map<string, map<string, string>>, theme: string,
    color: string, value: string)
    requires IsCascade(themeRules, colorRules, themes, |themeRules|, 0)
    ensures theme in themes && color in themes[theme] && themes[theme][color] == value <==>
            exists s: nat, i: nat ::
              && IsSetBy(themeRules, colorRules, theme, color, s, i) && colorRules[i].colors[color] == value
              && forall t: nat, j: nat :: IsSetBy(themeRules, colorRules, theme, color, t, j) ==>
                t < s || (t == s && j <= i)
  {
    var place := Strongest(themeRules, colorRules, theme, color, |themeRules|, 0);
    assert Lookup(themes, theme, color) == ColorAt(colorRules, place, color);
    assert forall t: nat, j: nat ::
        IsSetBy(themeRules, colorRules, theme, color, t, j) <==> Sets(themeRules, colorRules, theme, color, t, j);
    StrongestSets(themeRules, colorRules, theme, color, |themeRules|, 0);
    hide Sets, IsCascade, Strongest;
    forall t: nat, j: nat | IsSetBy(themeRules, colorRules, theme, color, t, j)
      ensures place.Some? && !Precedes(place.value.0, place.value.1, t, j)
    {
      assert t < |themeRules|;
      NoneStronger(themeRules, colorRules, theme, color, |themeRules|, 0, t, j);
    }
  }
}
