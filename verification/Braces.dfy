/** Brace expansion of documented paths: scripts/check-agent-navigation.ts, `expandPaths` with `BRACE_OPTIONS`. */
module Braces {
  import opened Strings
  import opened Wrappers

  predicate IsBrace(c: char) {
    c == '{' || c == '}'
  }

  // ---------------------------------------------------------------- the text

  /** Where the first brace at or after `i` stands. */
  function NextBrace(s: string, i: nat): (j: nat)
    requires i <= |s|
    ensures i <= j <= |s| && (j < |s| ==> IsBrace(s[j]))
    ensures forall k :: i <= k < j ==> !IsBrace(s[k])
    decreases |s| - i
  {
    if i == |s| || IsBrace(s[i]) then i else NextBrace(s, i + 1)
  }

  /** A group without braces in it: what `BRACE_OPTIONS` matches. */
  predicate IsGroup(s: string, i: nat, j: nat) {
    && i + 1 < j < |s| && s[i] == '{' && s[j] == '}'
    && forall k :: i < k < j ==> !IsBrace(s[k])
  }

  /** The leftmost group from `i` on. */
  function FindGroup(s: string, i: nat): (group: Option<(nat, nat)>)
    requires i <= |s|
    ensures group.Some? ==>
              && IsGroup(s, group.value.0, group.value.1)
              && forall k, j :: i <= k < group.value.0 ==> !IsGroup(s, k, j)
    ensures group.None? ==> forall k, j :: i <= k ==> !IsGroup(s, k, j)
    decreases |s| - i
  {
    if i == |s| then None
    else
      var j := NextBrace(s, i + 1);
      if IsGroup(s, i, j) then Some((i, j)) else FindGroup(s, i + 1)
  }

  /** Where `part` first occurs in `s` at or after `i`, if it does. */
  function IndexOf(s: string, part: string, i: nat): (at: Option<nat>)
    requires i <= |s|
    ensures at.Some? ==> at.value + |part| <= |s|
    decreases |s| - i
  {
    if part <= s[i..] then Some(i) else if i == |s| then None else IndexOf(s, part, i + 1)
  }

  /** What `replace` puts for a found text: a dollar sign in the replacement may stand for a part of the string. */
  function Replacement(option: string, found: string, before: string, after: string): string {
    if |option| < 2 || option[0] != '$' then
      if option == "" then "" else [option[0]] + Replacement(option[1..], found, before, after)
    else
      var rest := Replacement(option[2..], found, before, after);
      if option[1] == '$' then "$" + rest
      else if option[1] == '&' then found + rest
      else if option[1] == '`' then before + rest
      else if option[1] == '\'' then after + rest
      else "$" + Replacement(option[1..], found, before, after)
  }

  /** `path.replace(found, option)` */
  function Replace(path: string, found: string, option: string): string {
    match IndexOf(path, found, 0)
    case None => path
    case Some(i) =>
      var before, after := path[..i], path[i + |found|..];
      before + Replacement(option, found, before, after) + after
  }

  /** The paths that take the place of one with a group, one for each of its options. */
  function Alternatives(path: string): Option<seq<string>> {
    match FindGroup(path, 0)
    case None => None
    case Some((i, j)) => Some(ReplaceEach(path, path[i..j + 1], Split(path[i + 1..j], ',')))
  }

  function ReplaceEach(path: string, found: string, options: seq<string>): (paths: seq<string>)
    ensures |paths| == |options|
    ensures forall k :: 0 <= k < |options| ==> paths[k] == Replace(path, found, options[k])
  {
    if options == [] then [] else [Replace(path, found, options[0])] + ReplaceEach(path, found, options[1..])
  }

  /** The expansion of a path, if calls nested `depth` deep complete it. */
  function ExpandPaths(path: string, depth: nat): Option<seq<string>>
    decreases depth, 0
  {
    match Alternatives(path)
    case None => Some([path])
    case Some(paths) => if depth == 0 then None else ExpandEach(paths, depth - 1)
  }

  function ExpandEach(paths: seq<string>, depth: nat): Option<seq<string>>
    decreases depth, 1, |paths|
  {
    if paths == [] then Some([])
    else
      var first, rest := ExpandPaths(paths[0], depth), ExpandEach(paths[1..], depth);
      if first.Some? && rest.Some? then Some(first.value + rest.value) else None
  }

  /** The result does not depend on how deep the calls may be nested. */
  lemma {:induction false} DepthDoesNotMatter(path: string, depth: nat, deeper: nat)
    requires ExpandPaths(path, depth).Some? && depth <= deeper
    ensures ExpandPaths(path, deeper) == ExpandPaths(path, depth)
    decreases depth, 0
  {
    if Alternatives(path).Some? {
      DepthsDoNotMatter(Alternatives(path).value, depth - 1, deeper - 1);
    }
    hide Alternatives;
  }

  lemma {:induction false} DepthsDoNotMatter(paths: seq<string>, depth: nat, deeper: nat)
    requires ExpandEach(paths, depth).Some? && depth <= deeper
    ensures ExpandEach(paths, deeper) == ExpandEach(paths, depth)
    decreases depth, 1, |paths|
  {
    if paths != [] {
      DepthDoesNotMatter(paths[0], depth, deeper);
      DepthsDoNotMatter(paths[1..], depth, deeper);
    }
    hide ExpandPaths;
  }

  // ---------------------------------------------------------------- one replacement

  /** Wherever the text of a group occurs there is a group. */
  lemma OccurrenceIsGroup(s: string, i: nat, j: nat, at: nat)
    requires IsGroup(s, i, j) && at <= |s| && s[i..j + 1] <= s[at..]
    ensures IsGroup(s, at, at + (j - i))
  {
    var found := s[i..j + 1];
    forall m {:trigger s[m]} | at <= m <= at + (j - i)
      ensures m < |s| && s[m] == s[i + (m - at)]
    {
      assert s[at..][m - at] == found[m - at];
    }
  }

  /** The group that is found is the first place where its text occurs, so it is the one that is replaced. */
  lemma {:induction false} FoundFirst(s: string, i: nat, j: nat, from: nat)
    requires from <= i && IsGroup(s, i, j) && forall k, l :: from <= k < i ==> !IsGroup(s, k, l)
    ensures IndexOf(s, s[i..j + 1], from) == Some(i)
    decreases i - from
  {
    assert s[i..][..j + 1 - i] == s[i..j + 1];
    if from < i {
      FoundFirst(s, i, j, from + 1);
      if s[i..j + 1] <= s[from..] {
        OccurrenceIsGroup(s, i, j, from);
      }
    }
  }

  /** What leaves a dollar sign before it to itself, wherever the expansion puts the two. */
  predicate IsTame(c: char) {
    c != '$' && c != '&' && c != '`' && c != '\'' && c != '{' && c != '}' && c != ','
  }

  /** Every dollar sign has such a character after it. */
  predicate Tame(option: string) {
    option == "" || ((option[0] == '$' ==> |option| > 1 && IsTame(option[1])) && Tame(option[1..]))
  }

  lemma {:induction false} PlainReplacement(option: string, found: string, before: string, after: string)
    requires Tame(option)
    ensures Replacement(option, found, before, after) == option
  {
    if option != "" {
      PlainReplacement(option[1..], found, before, after);
      assert [option[0]] + option[1..] == option;
    }
  }

  lemma ReplaceAt(path: string, found: string, option: string, i: nat, end: nat)
    requires IndexOf(path, found, 0) == Some(i) && i + |found| == end <= |path| && Tame(option)
    ensures Replace(path, found, option) == path[..i] + option + path[end..]
  {
    assert Replace(path, found, option) == path[..i] + Replacement(option, found, path[..i], path[end..]) + path[end..];
    hide *;
    PlainReplacement(option, found, path[..i], path[end..]);
  }

  lemma FoundAt(path: string, i: nat, j: nat)
    requires FindGroup(path, 0) == Some((i, j))
    ensures i < j < |path| && IndexOf(path, path[i..j + 1], 0) == Some(i)
  {
    assert IsGroup(path, i, j);
    FoundFirst(path, i, j, 0);
  }

  lemma ReplacesGroup(path: string, i: nat, j: nat, option: string)
    requires FindGroup(path, 0) == Some((i, j)) && Tame(option)
    ensures i < j < |path| && Replace(path, path[i..j + 1], option) == path[..i] + option + path[j + 1..]
  {
    hide *;
    FoundAt(path, i, j);
    ReplaceAt(path, path[i..j + 1], option, i, j + 1);
  }

  // ---------------------------------------------------------------- when the expansion ends

  predicate TameAt(path: string, j: nat) {
    j + 1 < |path| && IsTame(path[j + 1])
  }

  /** Between an opening brace and a closing one, every dollar sign has a tame character after it. */
  predicate TameInside(path: string) {
    forall i, j, k :: 0 <= i < j < k < |path| && path[i] == '{' && path[j] == '$' && path[k] == '}' ==> TameAt(path, j)
  }

  function OpeningBraces(s: string): nat {
    if s == "" then 0 else (if s[0] == '{' then 1 else 0) + OpeningBraces(s[1..])
  }

  lemma {:induction false} OpeningBracesConcat(a: string, b: string)
    ensures OpeningBraces(a + b) == OpeningBraces(a) + OpeningBraces(b)
  {
    if a == "" {
      assert a + b == b;
    } else {
      assert (a + b)[1..] == a[1..] + b;
      OpeningBracesConcat(a[1..], b);
    }
  }

  lemma {:induction false} NoOpeningBraces(s: string)
    requires forall i :: 0 <= i < |s| ==> !IsBrace(s[i])
    ensures OpeningBraces(s) == 0
  {
    if s != "" {
      NoOpeningBraces(s[1..]);
    }
  }

  /** Each option is a part of the text that is split. */
  lemma {:induction false} SplitPart(s: string, k: nat) returns (from: nat, to: nat)
    requires k < |Split(s, ',')|
    ensures from <= to <= |s| && Split(s, ',')[k] == s[from..to] && (to < |s| ==> s[to] == ',')
  {
    if s == "" || (s[0] == ',' && k == 0) {
      from, to := 0, 0;
    } else {
      var rest := s[1..];
      if s[0] == ',' {
        from, to := SplitPart(rest, k - 1);
      } else if k == 0 {
        SplitFirst(s);
        return 0, |Split(s, ',')[0]|;
      } else {
        from, to := SplitPart(rest, k);
      }
      assert to < |rest| ==> rest[to] == s[to + 1];
      assert rest[from..to] == s[from + 1..to + 1];
      from, to := from + 1, to + 1;
    }
  }

  lemma {:induction false} SplitFirst(s: string)
    ensures var first := Split(s, ',')[0]; first <= s && (|first| < |s| ==> s[|first|] == ',')
  {
    if s != "" && s[0] != ',' {
      SplitFirst(s[1..]);
    }
  }

  /** Putting a part of what is between two places for both of them and all between them. */
  function Cut(path: string, i: nat, j: nat, from: nat, to: nat): string
    requires i < from <= to <= j < |path|
  {
    path[..i] + path[from..to] + path[j + 1..]
  }

  lemma CutKeepsOrder(path: string, i: nat, j: nat, from: nat, to: nat)
    requires i < from <= to <= j < |path| && path[i] == '{' && path[j] == '}' && (path[to] == ',' || path[to] == '}')
    requires TameInside(path)
    ensures TameInside(Cut(path, i, j, from, to))
  {
    var cut := Cut(path, i, j, from, to);
    forall x, y, z | 0 <= x < y < z < |cut| && cut[x] == '{' && cut[y] == '$' && cut[z] == '}'
      ensures TameAt(cut, y)
    {
      var x', y', z' := Place(path, i, j, from, to, x), Place(path, i, j, from, to, y), Place(path, i, j, from, to, z);
      assert x' < y' < z' && path[x'] == '{' && path[y'] == '$' && path[z'] == '}';
      assert TameAt(path, y');
      assert y' + 1 != i && y' + 1 != to;
      var next := Place(path, i, j, from, to, y + 1);
    }
  }

  /** Where a character of the shorter text was in the longer one. */
  function Place(path: string, i: nat, j: nat, from: nat, to: nat, x: nat): (y: nat)
    requires i < from <= to <= j < |path| && x < |Cut(path, i, j, from, to)|
    ensures y < |path| && Cut(path, i, j, from, to)[x] == path[y]
  {
    if x < i then x else if x < i + (to - from) then from + (x - i) else j + 1 + (x - i - (to - from))
  }

  lemma Slice(s: string, i: nat, j: nat, from: nat, to: nat)
    requires i <= j <= |s| && from <= to <= j - i
    ensures s[i..j][from..to] == s[i + from..i + to]
  {
    var part := s[i..j];
    assert part[from..to] == s[i + from..i + to] by {
      assert |part[from..to]| == to - from;
      assert forall k :: 0 <= k < to - from ==> part[from..to][k] == part[from + k] == s[i + from + k];
    }
  }

  lemma OptionPlace(path: string, i: nat, j: nat, k: nat) returns (from: nat, to: nat)
    requires i < j < |path| && k < |Split(path[i + 1..j], ',')|
    ensures i < from <= to <= j && Split(path[i + 1..j], ',')[k] == path[from..to] && (to < j ==> path[to] == ',')
  {
    from, to := SplitPart(path[i + 1..j], k);
    hide *;
    Slice(path, i + 1, j, from, to);
    assert to < j - i - 1 ==> path[i + 1..j][to] == path[i + 1 + to];
    from, to := i + 1 + from, i + 1 + to;
  }

  lemma {:induction false} TameOption(path: string, i: nat, j: nat, from: nat, to: nat)
    requires TameInside(path) && IsGroup(path, i, j) && i < from <= to <= j && (path[to] == ',' || path[to] == '}')
    ensures Tame(path[from..to])
    decreases |path| - from
  {
    if from < to {
      TameOption(path, i, j, from + 1, to);
      assert path[from..to][1..] == path[from + 1..to];
      if path[from] == '$' {
        assert TameAt(path, from);
        assert path[from..to][1] == path[from + 1];
      }
    }
  }

  lemma AlternativeAt(path: string, i: nat, j: nat, k: nat)
    requires FindGroup(path, 0) == Some((i, j)) && k < |Split(path[i + 1..j], ',')|
    ensures Alternatives(path).Some? && k < |Alternatives(path).value|
    ensures Alternatives(path).value[k] == Replace(path, path[i..j + 1], Split(path[i + 1..j], ',')[k])
  {
    hide FindGroup, Split, Replace;
  }

  lemma AlternativeIsCut(path: string, i: nat, j: nat, k: nat)
    requires TameInside(path) && FindGroup(path, 0) == Some((i, j)) && k < |Split(path[i + 1..j], ',')|
    ensures Alternatives(path).Some? && k < |Alternatives(path).value|
    ensures TameInside(Alternatives(path).value[k])
    ensures OpeningBraces(Alternatives(path).value[k]) + 1 == OpeningBraces(path)
  {
    assert IsGroup(path, i, j) && path[i] == '{' && path[j] == '}';
    hide *;
    var from, to := OptionPlace(path, i, j, k);
    TameOption(path, i, j, from, to);
    AlternativeAt(path, i, j, k);
    ReplacesGroup(path, i, j, path[from..to]);
    CutIs(path, i, j, from, to);
    CutKeepsOrder(path, i, j, from, to);
    CutCount(path, i, j, from, to);
  }

  lemma CutIs(path: string, i: nat, j: nat, from: nat, to: nat)
    requires i < from <= to <= j < |path|
    ensures Cut(path, i, j, from, to) == path[..i] + path[from..to] + path[j + 1..]
  {
  }

  lemma CutCount(path: string, i: nat, j: nat, from: nat, to: nat)
    requires IsGroup(path, i, j) && i < from <= to <= j
    ensures OpeningBraces(Cut(path, i, j, from, to)) + 1 == OpeningBraces(path)
  {
    var before, content, after := path[..i], path[i + 1..j], path[j + 1..];
    assert path == before + ("{" + (content + ("}" + after)));
    assert OpeningBraces("{") == 1 && OpeningBraces("}") == 0;
    NoOpeningBraces(content);
    NoOpeningBraces(path[from..to]);
    OpeningBracesConcat(before + path[from..to], after);
    OpeningBracesConcat(before, path[from..to]);
    OpeningBracesConcat("}", after);
    OpeningBracesConcat(content, "}" + after);
    OpeningBracesConcat("{", content + ("}" + after));
    OpeningBracesConcat(before, "{" + (content + ("}" + after)));
  }

  lemma AlternativesShrink(path: string, paths: seq<string>)
    requires TameInside(path) && Alternatives(path) == Some(paths)
    ensures forall k :: 0 <= k < |paths| ==> TameInside(paths[k]) && OpeningBraces(paths[k]) + 1 == OpeningBraces(path)
  {
    var (i, j) := FindGroup(path, 0).value;
    assert |paths| == |Split(path[i + 1..j], ',')|;
    hide *;
    forall k | 0 <= k < |paths|
      ensures TameInside(paths[k]) && OpeningBraces(paths[k]) + 1 == OpeningBraces(path)
    {
      AlternativeIsCut(path, i, j, k);
    }
  }

  /** The expansion ends, after no more rounds than there are opening braces, if dollar signs inside braces are tame. */
  lemma {:induction false} ExpansionEnds(path: string, depth: nat)
    requires TameInside(path) && OpeningBraces(path) <= depth
    ensures ExpandPaths(path, depth).Some?
    decreases depth, 0
  {
    hide Alternatives, OpeningBraces, TameInside;
    if Alternatives(path).Some? {
      var paths := Alternatives(path).value;
      AlternativesShrink(path, paths);
      SomeAlternative(path);
      assert OpeningBraces(paths[0]) + 1 == OpeningBraces(path);
      ExpansionsEnd(paths, depth - 1);
    }
  }

  lemma SomeAlternative(path: string)
    ensures Alternatives(path).Some? ==> Alternatives(path).value != []
  {
    hide FindGroup, Split, Replace;
  }

  lemma {:induction false} ExpansionsEnd(paths: seq<string>, depth: nat)
    requires forall k :: 0 <= k < |paths| ==> TameInside(paths[k]) && OpeningBraces(paths[k]) <= depth
    ensures ExpandEach(paths, depth).Some?
    decreases depth, 1, |paths|
  {
    if paths != [] {
      ExpansionEnds(paths[0], depth);
      ExpansionsEnd(paths[1..], depth);
    }
    hide TameInside, OpeningBraces, ExpandPaths;
  }

  // ---------------------------------------------------------------- when it does not

  /** Every dollar sign has a tame character after it, or `&`, and one has `&`: it stands for the group itself. */
  predicate Echoes(option: string) {
    && option != ""
    && if option[0] == '$' && |option| > 1 && option[1] == '&' then Followed(option[2..])
       else (option[0] == '$' ==> |option| > 1 && IsTame(option[1])) && Echoes(option[1..])
  }

  /** Every dollar sign has a tame character or `&` after it. */
  predicate Followed(option: string) {
    option == ""
    || ((option[0] == '$' ==> |option| > 1 && (IsTame(option[1]) || option[1] == '&')) && Followed(option[1..]))
  }

  /** Such a replacement puts the group back, after a part of the option. */
  lemma {:induction false} EchoReplacement(option: string, found: string, before: string, after: string)
    returns (x: string, y: string)
    requires Echoes(option)
    ensures Replacement(option, found, before, after) == x + (found + y) && x <= option
  {
    if option[0] == '$' && |option| > 1 && option[1] == '&' {
      x, y := "", Replacement(option[2..], found, before, after);
      assert x + (found + y) == found + y;
    } else {
      x, y := EchoReplacement(option[1..], found, before, after);
      assert [option[0]] + (x + (found + y)) == ([option[0]] + x) + (found + y);
      assert option == [option[0]] + option[1..];
      x := [option[0]] + x;
    }
  }

  /** The only group that starts where one does. */
  lemma GroupUnique(s: string, i: nat, j: nat, k: nat)
    requires IsGroup(s, i, j) && IsGroup(s, i, k)
    ensures j == k
  {
  }

  lemma Leftmost(s: string, i: nat, j: nat)
    requires IsGroup(s, i, j) && forall k, l :: 0 <= k < i ==> !IsGroup(s, k, l)
    ensures FindGroup(s, 0) == Some((i, j))
  {
    var (k, l) := FindGroup(s, 0).value;
    assert IsGroup(s, k, l);
    hide FindGroup, IsGroup;
    GroupUnique(s, i, j, if k == i then l else j);
  }

  /** A path with its group put back after a part of an option. */
  function Again(path: string, i: nat, j: nat, x: string, y: string): string
    requires i < j < |path|
  {
    path[..i] + (x + (path[i..j + 1] + y))
  }

  lemma AgainAt(path: string, i: nat, j: nat, x: string, y: string, m: nat)
    requires i < j < |path| && m <= j + |x|
    ensures m < |Again(path, i, j, x, y)|
    ensures Again(path, i, j, x, y)[m]
         == if m < i then path[m] else if m < i + |x| then x[m - i] else path[m - |x|]
  {
  }

  lemma EarlierGroup(path: string, i: nat, j: nat, x: string, y: string, k: nat, l: nat)
    requires IsGroup(path, i, j) && (forall m :: 0 <= m < |x| ==> !IsBrace(x[m])) && k < i + |x|
    requires IsGroup(Again(path, i, j, x, y), k, l)
    ensures k < i && IsGroup(path, k, l)
  {
    var again := Again(path, i, j, x, y);
    AgainAt(path, i, j, x, y, i + |x|);
    AgainAt(path, i, j, x, y, k);
    assert l < i + |x|;
    AgainAt(path, i, j, x, y, l);
    assert k < i && l < i;
    forall m | k < m < l
      ensures !IsBrace(path[m])
    {
      AgainAt(path, i, j, x, y, m);
      assert !IsBrace(again[m]);
    }
  }

  lemma GroupStays(path: string, i: nat, j: nat, x: string, y: string)
    requires IsGroup(path, i, j)
    ensures IsGroup(Again(path, i, j, x, y), i + |x|, j + |x|)
    ensures Again(path, i, j, x, y)[i + |x| + 1..j + |x|] == path[i + 1..j]
  {
    var again := Again(path, i, j, x, y);
    AgainAt(path, i, j, x, y, i + |x|);
    AgainAt(path, i, j, x, y, j + |x|);
    forall m | i + |x| < m < j + |x|
      ensures again[m] == path[m - |x|]
    {
      AgainAt(path, i, j, x, y, m);
    }
    hide Again;
  }

  /** The group stands where it is put back, and is again the leftmost. */
  lemma GroupAgain(path: string, i: nat, j: nat, x: string, y: string)
    requires FindGroup(path, 0) == Some((i, j)) && forall k :: 0 <= k < |x| ==> !IsBrace(x[k])
    ensures i < j < |path| && FindGroup(Again(path, i, j, x, y), 0) == Some((i + |x|, j + |x|))
    ensures j + |x| < |Again(path, i, j, x, y)| && Again(path, i, j, x, y)[i + |x| + 1..j + |x|] == path[i + 1..j]
  {
    assert IsGroup(path, i, j);
    GroupStays(path, i, j, x, y);
    var again := Again(path, i, j, x, y);
    assert j + |x| < |again|;
    hide Again, IsGroup;
    forall k: nat, l: nat | k < i + |x|
      ensures !IsGroup(again, k, l)
    {
      if IsGroup(again, k, l) {
        EarlierGroup(path, i, j, x, y, k, l);
      }
    }
    hide FindGroup;
    Leftmost(again, i + |x|, j + |x|);
  }

  lemma EchoedOption(path: string, i: nat, j: nat, k: nat) returns (x: string, y: string)
    requires FindGroup(path, 0) == Some((i, j)) && k < |Split(path[i + 1..j], ',')|
    requires Echoes(Split(path[i + 1..j], ',')[k])
    ensures i < j < |path| && Replace(path, path[i..j + 1], Split(path[i + 1..j], ',')[k]) == Again(path, i, j, x, y)
    ensures forall m :: 0 <= m < |x| ==> !IsBrace(x[m])
  {
    var option := Split(path[i + 1..j], ',')[k];
    FoundAt(path, i, j);
    var from, to := OptionPlace(path, i, j, k);
    assert IsGroup(path, i, j);
    var found, before, after := path[i..j + 1], path[..i], path[j + 1..];
    var z;
    x, z := EchoReplacement(option, found, before, after);
    y := z + after;
    forall m | 0 <= m < |x|
      ensures !IsBrace(x[m])
    {
      assert x[m] == option[m] == path[from + m];
    }
    hide *;
    ReplaceAny(path, found, option, i, j + 1);
    Nest(before, x, found, z, after);
    AgainIs(path, i, j, x, y);
  }

  lemma ReplaceAny(path: string, found: string, option: string, i: nat, end: nat)
    requires IndexOf(path, found, 0) == Some(i) && i + |found| == end <= |path|
    ensures Replace(path, found, option) == path[..i] + Replacement(option, found, path[..i], path[end..]) + path[end..]
  {
    hide IndexOf, Replacement;
  }

  lemma Nest(a: string, x: string, f: string, z: string, b: string)
    ensures a + (x + (f + z)) + b == a + (x + (f + (z + b)))
  {
  }

  lemma AgainIs(path: string, i: nat, j: nat, x: string, y: string)
    requires i < j < |path|
    ensures Again(path, i, j, x, y) == path[..i] + (x + (path[i..j + 1] + y))
  {
  }

  /** One expansion that is not completed is enough. */
  lemma {:induction false} EachCompletes(paths: seq<string>, k: nat, depth: nat)
    requires k < |paths| && ExpandPaths(paths[k], depth) == None
    ensures ExpandEach(paths, depth) == None
    decreases |paths|
  {
    if k > 0 {
      EachCompletes(paths[1..], k - 1, depth);
    }
    hide ExpandPaths;
  }

  lemma ExpandUnfolds(path: string, paths: seq<string>, depth: nat)
    requires Alternatives(path) == Some(paths)
    ensures ExpandPaths(path, depth) == if depth == 0 then None else ExpandEach(paths, depth - 1)
  {
    hide Alternatives, ExpandEach;
  }

  lemma NotCompleted(path: string, paths: seq<string>, k: nat, depth: nat)
    requires Alternatives(path) == Some(paths) && k < |paths|
    requires depth > 0 ==> ExpandPaths(paths[k], depth - 1) == None
    ensures ExpandPaths(path, depth) == None
  {
    hide *;
    ExpandUnfolds(path, paths, depth);
    if depth > 0 {
      EachCompletes(paths, k, depth - 1);
    }
  }

  /** A path whose leftmost group has an option that stands for the group itself is never expanded to the end. */
  lemma {:induction false} EchoNeverEnds(path: string, i: nat, j: nat, k: nat, depth: nat)
    requires FindGroup(path, 0) == Some((i, j)) && k < |Split(path[i + 1..j], ',')|
    requires Echoes(Split(path[i + 1..j], ',')[k])
    ensures ExpandPaths(path, depth) == None
    decreases depth
  {
    hide *;
    AlternativeAt(path, i, j, k);
    var x, y := EchoedOption(path, i, j, k);
    if depth > 0 {
      GroupAgain(path, i, j, x, y);
      EchoNeverEnds(Again(path, i, j, x, y), i + |x|, j + |x|, k, depth - 1);
    }
    NotCompleted(path, Alternatives(path).value, k, depth);
  }

  lemma {:induction false} SplitWithoutComma(s: string)
    requires ',' !in s
    ensures Split(s, ',') == [s]
  {
    if s != "" {
      SplitWithoutComma(s[1..]);
      assert [s[0]] + s[1..] == s;
    }
  }
}
