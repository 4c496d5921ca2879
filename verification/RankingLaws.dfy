/** The order of search results by their places in the list: apps/docs/scripts/check-routes.ts:203-235. */
module RankingLaws {
  import opened Basics
  import opened Ranking
  import opened Wrappers

  // ---------------------------------------------------------------- what a result holds

  predicate OccursAt(text: string, word: string, i: nat) {
    i + |word| <= |text| && text[i..i + |word|] == word
  }

  lemma {:induction false} ContainsIffOccurs(text: string, word: string)
    ensures Contains(text, word) <==> exists i: nat :: OccursAt(text, word, i)
  {
    if word <= text {
      assert OccursAt(text, word, 0);
    } else if text != "" {
      ContainsIffOccurs(text[1..], word);
      if Contains(text[1..], word) {
        var i: nat :| OccursAt(text[1..], word, i);
        assert OccursAt(text, word, i + 1);
      }
      forall i: nat | OccursAt(text, word, i)
        ensures Contains(text, word)
      {
        assert i > 0;
        assert OccursAt(text[1..], word, i - 1);
      }
    }
  }

  /** Which of the words a result holds. */
  function HeldWords(result: Result, words: seq<string>): set<nat> {
    set i: nat | i < |words| && Contains(result.text, words[i])
  }

  /** A result holds as many words as occur in its text, each counted as often as it is asked for. */
  lemma {:induction false} HeldIsCount(result: Result, words: seq<string>)
    ensures Held(result, words) == |HeldWords(result, words)|
  {
    if words == [] {
    } else {
      var n: nat := |words| - 1;
      HeldIsCount(result, words[..n]);
      assert HeldWords(result, words)
          == HeldWords(result, words[..n]) + if Contains(result.text, words[n]) then {n} else {};
    }
  }

  // ---------------------------------------------------------------- where the groups are

  /** Where each group starts: a page, or the first section if it has no page. */
  function Starts(results: seq<Result>): (starts: seq<nat>)
    ensures starts != []
  {
    if results == [] then [0]
    else
      var n := |results| - 1;
      if results[n].isPage then Starts(results[..n]) + [n] else Starts(results[..n])
  }

  function EndOf(results: seq<Result>, g: nat): nat
    requires g < |Starts(results)|
  {
    if g + 1 < |Starts(results)| then Starts(results)[g + 1] else |results|
  }

  /** A group is the results from `lo` on and before `hi`. */
  predicate IsRange(results: seq<Result>, group: Group, lo: nat, hi: nat) {
    && lo <= hi <= |results|
    && (forall k :: lo < k < hi ==> !results[k].isPage)
    && (hi < |results| ==> results[hi].isPage)
    && match group.page
       case Some(page) => lo < hi && page.isPage && page == results[lo] && group.sections == results[lo + 1..hi]
       case None => lo == 0 && (hi > 0 ==> !results[0].isPage) && group.sections == results[lo..hi]
  }

  predicate AreRanges(results: seq<Result>) {
    && |Starts(results)| == |Groups(results)|
    && (forall g :: 0 <= g < |Groups(results)| ==>
         IsRange(results, Groups(results)[g], Starts(results)[g], EndOf(results, g)))
    && (forall g :: 0 < g < |Groups(results)| ==> Groups(results)[g].page.Some?)
    && (forall g, h :: 0 <= g < h < |Starts(results)| ==> Starts(results)[g] <= Starts(results)[h])
  }

  /** Another result after the end of a range. */
  lemma RangeStays(results: seq<Result>, result: Result, group: Group, lo: nat, hi: nat)
    requires IsRange(results, group, lo, hi) && (hi < |results| || result.isPage)
    ensures IsRange(results + [result], group, lo, hi)
  {
    assert forall k :: 0 <= k < |results| ==> (results + [result])[k] == results[k];
    assert (results + [result])[lo..hi] == results[lo..hi];
    assert lo < hi ==> (results + [result])[lo + 1..hi] == results[lo + 1..hi];
  }

  lemma RangeGrows(results: seq<Result>, section: Result, group: Group, lo: nat)
    requires IsRange(results, group, lo, |results|) && !section.isPage
    ensures IsRange(results + [section], Group(group.page, group.sections + [section]), lo, |results| + 1)
  {
    var more := results + [section];
    assert forall k :: 0 <= k < |results| ==> more[k] == results[k];
    assert more[lo..|results| + 1] == results[lo..] + [section];
    assert lo < |results| ==> more[lo + 1..|results| + 1] == results[lo + 1..] + [section];
  }

  lemma StartsMore(results: seq<Result>, result: Result)
    ensures Starts(results + [result]) == if result.isPage then Starts(results) + [|results|] else Starts(results)
  {
    assert (results + [result])[..|results|] == results;
  }

  lemma EndsMore(results: seq<Result>, result: Result, g: nat)
    requires g < |Starts(results + [result])|
    ensures var more, n := results + [result], |Starts(results)| - 1;
            && (g < n ==> EndOf(more, g) == EndOf(results, g))
            && (g == n ==> EndOf(results, g) == |results|)
            && (g == n && result.isPage ==> EndOf(more, g) == |results|)
            && (g == n && !result.isPage ==> EndOf(more, g) == |results| + 1)
            && (g == n + 1 ==> EndOf(more, g) == |results| + 1)
  {
    StartsMore(results, result);
    hide Starts;
  }

  lemma RangeKnown(results: seq<Result>, g: nat)
    requires AreRanges(results) && g < |Groups(results)|
    ensures g < |Groups(results)| == |Starts(results)|
    ensures IsRange(results, Groups(results)[g], Starts(results)[g], EndOf(results, g))
    ensures g + 1 < |Groups(results)| ==> EndOf(results, g) < |results|
  {
    if g + 1 < |Groups(results)| {
      NextStarts(results, g);
    }
    hide Starts, Groups, IsRange;
  }

  lemma NewRange(results: seq<Result>, page: Result)
    requires page.isPage
    ensures IsRange(results + [page], Group(Some(page), []), |results|, |results| + 1)
  {
  }

  /** What a further result does to a group. */
  lemma RangeStep(results: seq<Result>, result: Result, g: nat)
    requires AreRanges(results) && g < |Groups(results + [result])|
    ensures var more := results + [result];
            && g < |Starts(more)| == |Groups(more)|
            && IsRange(more, Groups(more)[g], Starts(more)[g], EndOf(more, g))
  {
    assert |Groups(results)| == |Starts(results)|;
    hide *;
    var groups, starts := Groups(results), Starts(results);
    var n := |groups| - 1;
    GroupsMore(results, result);
    StartsMore(results, result);
    EndsMore(results, result, g);
    if g <= n {
      RangeKnown(results, g);
      if g < n || result.isPage {
        RangeStays(results, result, groups[g], starts[g], EndOf(results, g));
      } else {
        RangeGrows(results, result, groups[g], starts[g]);
      }
    } else {
      NewRange(results, result);
    }
  }

  lemma RangesMore(results: seq<Result>, result: Result)
    requires AreRanges(results)
    ensures AreRanges(results + [result])
  {
    var more := results + [result];
    GroupsMore(results, result);
    StartsMore(results, result);
    StartsAreInside(results);
    forall g | 0 <= g < |Groups(more)|
      ensures |Starts(more)| == |Groups(more)| && IsRange(more, Groups(more)[g], Starts(more)[g], EndOf(more, g))
    {
      RangeStep(results, result, g);
    }
    hide IsRange, Groups, Starts, EndOf;
  }

  lemma {:induction false} RangesAre(results: seq<Result>)
    ensures AreRanges(results)
  {
    if results != [] {
      hide *;
      var n := |results| - 1;
      RangesAre(results[..n]);
      RangesMore(results[..n], results[n]);
      assert results == results[..n] + [results[n]];
    }
  }

  lemma {:induction false} StartsAreInside(results: seq<Result>)
    ensures forall g :: 0 <= g < |Starts(results)| ==> Starts(results)[g] <= |results|
  {
    if results != [] {
      StartsAreInside(results[..|results| - 1]);
    }
  }

  lemma NextStarts(results: seq<Result>, g: nat)
    requires AreRanges(results) && g + 1 < |Starts(results)|
    ensures EndOf(results, g) < |results|
  {
    assert IsRange(results, Groups(results)[g + 1], Starts(results)[g + 1], EndOf(results, g + 1));
    assert Groups(results)[g + 1].page.Some?;
  }

  // ---------------------------------------------------------------- groups and places

  /** The results from `i` to `j` are of one page: no page starts between them. */
  predicate Together(results: seq<Result>, i: nat, j: nat) {
    i <= j < |results| && forall k :: i < k <= j ==> !results[k].isPage
  }

  /** A page whose next result is a section of it. */
  predicate HasSection(results: seq<Result>, p: nat) {
    p + 1 < |results| && results[p].isPage && !results[p + 1].isPage
  }

  lemma {:induction false} GroupAt(results: seq<Result>, i: nat) returns (g: nat)
    requires i < |results|
    ensures g < |Starts(results)| && Starts(results)[g] <= i < EndOf(results, g)
  {
    var n := |results| - 1;
    assert results == results[..n] + [results[n]];
    StartsMore(results[..n], results[n]);
    StartsAreInside(results[..n]);
    if i == n {
      g := |Starts(results)| - 1;
    } else {
      g := GroupAt(results[..n], i);
    }
    hide Starts;
  }

  lemma RangeOf(results: seq<Result>, g: nat)
    requires g < |Groups(results)| || g < |Starts(results)|
    ensures g < |Groups(results)| == |Starts(results)|
    ensures IsRange(results, Groups(results)[g], Starts(results)[g], EndOf(results, g))
  {
    RangesAre(results);
    hide IsRange, Groups, Starts, EndOf;
  }

  lemma StartsRise(results: seq<Result>, g: nat, h: nat)
    requires g <= h < |Starts(results)|
    ensures Starts(results)[g] <= Starts(results)[h]
  {
    RangesAre(results);
    hide IsRange, Groups, Starts, EndOf;
  }

  /** What is together is in one group. */
  lemma SameGroup(results: seq<Result>, g: nat, i: nat, j: nat)
    requires g < |Starts(results)| && Starts(results)[g] <= i < EndOf(results, g)
    requires Together(results, i, j)
    ensures j < EndOf(results, g)
  {
    RangeOf(results, g);
    hide Starts, Groups, EndOf;
  }

  /** How much each result from `lo` on and before `hi` holds. */
  lemma SectionHolds(results: seq<Result>, group: Group, lo: nat, hi: nat, i: nat)
    requires IsRange(results, group, lo, hi) && lo <= i < hi && !results[i].isPage
    ensures var first := if group.page.Some? then lo + 1 else lo;
            && first <= i && i - first < |group.sections| && group.sections[i - first] == results[i]
  {
  }

  /** The best of a group is the most that any of its results holds. */
  lemma {:induction false} BestIsMost(group: Group, words: seq<string>)
    ensures group.page.Some? ==> Held(group.page.value, words) <= Best(group, words)
    ensures forall i :: 0 <= i < |group.sections| ==> Held(group.sections[i], words) <= Best(group, words)
    ensures || (group.page.Some? && Best(group, words) == Held(group.page.value, words))
            || (exists i :: 0 <= i < |group.sections| && Best(group, words) == Held(group.sections[i], words))
            || (group.page.None? && Best(group, words) == 0)
    decreases |group.sections|
  {
    if group.sections != [] {
      var n := |group.sections| - 1;
      var fewer := Group(group.page, group.sections[..n]);
      BestIsMost(fewer, words);
      assert Best(group, words) == Max(Best(fewer, words), Held(group.sections[n], words));
      assert forall i :: 0 <= i < n ==> fewer.sections[i] == group.sections[i];
      hide Best, Held;
    }
  }

  predicate Ranked(group: Group) {
    group.page.Some? && group.sections != []
  }

  lemma FallingAll(counts: seq<nat>, count: nat)
    ensures Falling(counts + [count]) <==> Falling(counts) && forall i :: 0 <= i < |counts| ==> counts[i] >= count
  {
    var more := counts + [count];
    assert forall i :: 0 <= i < |counts| ==> more[i] == counts[i];
    assert more[|counts|] == count;
  }

  lemma {:induction false} BestsAre(groups: seq<Group>, words: seq<string>, least: nat)
    ensures (forall i :: 0 <= i < |Bests(groups, words)| ==> Bests(groups, words)[i] >= least)
            <==> forall g :: 0 <= g < |groups| && Ranked(groups[g]) ==> Best(groups[g], words) >= least
  {
    if groups != [] {
      var n := |groups| - 1;
      BestsAre(groups[..n], words, least);
      BestsMore(groups[..n], groups[n], words);
      assert groups == groups[..n] + [groups[n]];
      AllMore(Bests(groups[..n], words), Best(groups[n], words), least);
      hide Best, Bests;
      assert forall g :: 0 <= g < n ==> groups[..n][g] == groups[g];
      assert Bests(groups[..n], words) + [] == Bests(groups[..n], words);
    }
  }

  lemma AllMore(counts: seq<nat>, count: nat, least: nat)
    ensures (forall i :: 0 <= i < |counts + [count]| ==> (counts + [count])[i] >= least)
            <==> count >= least && forall i :: 0 <= i < |counts| ==> counts[i] >= least
  {
    assert forall i :: 0 <= i < |counts| ==> (counts + [count])[i] == counts[i];
    assert (counts + [count])[|counts|] == count;
  }

  lemma {:induction false} BestsFall(groups: seq<Group>, words: seq<string>)
    ensures Falling(Bests(groups, words)) <==>
            forall g, h :: 0 <= g < h < |groups| && Ranked(groups[g]) && Ranked(groups[h]) ==>
              Best(groups[g], words) >= Best(groups[h], words)
  {
    if groups != [] {
      var n := |groups| - 1;
      BestsFall(groups[..n], words);
      BestsMore(groups[..n], groups[n], words);
      BestsAre(groups[..n], words, Best(groups[n], words));
      FallingAll(Bests(groups[..n], words), Best(groups[n], words));
      assert groups == groups[..n] + [groups[n]];
      assert Bests(groups[..n], words) + [] == Bests(groups[..n], words);
      hide Best, Bests, Falling;
    }
  }

  // ---------------------------------------------------------------- the order by places

  /** No section comes after one of its page that holds less. */
  predicate SectionsFall(results: seq<Result>, words: seq<string>) {
    forall i, j :: 0 <= i < j < |results| && !results[i].isPage && Together(results, i, j) ==>
      Held(results[i], words) >= Held(results[j], words)
  }

  /** Of two pages with sections, the first or one of its sections holds as much as each result of the second. */
  ghost predicate PagesFall(results: seq<Result>, words: seq<string>) {
    forall p, q, j :: 0 <= p < q && HasSection(results, p) && HasSection(results, q) && Together(results, q, j) ==>
      HoldsAsMuch(results, words, p, j)
  }

  ghost predicate HoldsAsMuch(results: seq<Result>, words: seq<string>, p: nat, j: nat) {
    && j < |results|
    && exists i: nat :: Together(results, p, i) && Held(results[i], words) >= Held(results[j], words)
  }

  lemma OrderedMeansSectionsFall(results: seq<Result>, words: seq<string>, i: nat, j: nat)
    requires OrderedWithin(Groups(results), words)
    requires i < j < |results| && !results[i].isPage && Together(results, i, j)
    ensures Held(results[i], words) >= Held(results[j], words)
  {
    var g := GroupAt(results, i);
    RangeOf(results, g);
    SameGroup(results, g, i, j);
    assert Falling(Counts(Groups(results)[g].sections, words));
    hide Groups, Starts, EndOf, OrderedWithin, Held;
    var group, lo, hi := Groups(results)[g], Starts(results)[g], EndOf(results, g);
    assert !results[j].isPage;
    SectionHolds(results, group, lo, hi, i);
    SectionHolds(results, group, lo, hi, j);
    hide IsRange;
    var first := if group.page.Some? then lo + 1 else lo;
    var counts := Counts(group.sections, words);
    assert counts[i - first] >= counts[j - first];
  }

  lemma SectionsAreTogether(results: seq<Result>, group: Group, lo: nat, hi: nat, i: nat, j: nat)
    requires IsRange(results, group, lo, hi) && i < j < |group.sections|
    ensures var first := if group.page.Some? then lo + 1 else lo;
            && first + j < |results|
            && group.sections[i] == results[first + i] && group.sections[j] == results[first + j]
            && !results[first + i].isPage && Together(results, first + i, first + j)
  {
  }

  lemma SectionsFallMeansOrdered(results: seq<Result>, words: seq<string>, g: nat)
    requires SectionsFall(results, words) && g < |Groups(results)|
    ensures Falling(Counts(Groups(results)[g].sections, words))
  {
    RangeOf(results, g);
    hide Groups, Starts, EndOf, IsRange, Together, Held;
    var group, lo, hi := Groups(results)[g], Starts(results)[g], EndOf(results, g);
    forall i, j | 0 <= i < j < |group.sections|
      ensures Held(group.sections[i], words) >= Held(group.sections[j], words)
    {
      SectionsAreTogether(results, group, lo, hi, i, j);
    }
  }

  /** A page with a section is the first of a group with sections. */
  lemma PageOfGroup(results: seq<Result>, p: nat) returns (g: nat)
    requires HasSection(results, p)
    ensures g < |Groups(results)| == |Starts(results)| && Starts(results)[g] == p && Ranked(Groups(results)[g])
    ensures IsRange(results, Groups(results)[g], p, EndOf(results, g))
  {
    g := GroupAt(results, p);
    hide Groups, Starts, EndOf;
    RangeOf(results, g);
    SameGroup(results, g, p, p + 1);
  }

  lemma GroupOfPage(results: seq<Result>, g: nat)
    requires g < |Groups(results)| && Ranked(Groups(results)[g])
    ensures g < |Groups(results)| == |Starts(results)| && HasSection(results, Starts(results)[g])
    ensures IsRange(results, Groups(results)[g], Starts(results)[g], EndOf(results, g))
  {
    RangeOf(results, g);
    hide Groups, Starts, EndOf;
  }

  /** What a page holds, or a section of it, is at most the best of its group. */
  lemma AtMostBest(results: seq<Result>, group: Group, p: nat, hi: nat, j: nat, words: seq<string>)
    requires IsRange(results, group, p, hi) && group.page.Some? && p <= j < hi
    ensures Held(results[j], words) <= Best(group, words)
  {
    BestIsMost(group, words);
    hide Best, Held;
    if j > p {
      assert group.sections[j - p - 1] == results[j];
    }
  }

  /** The best is what some result of the page holds. */
  lemma BestIsHeld(results: seq<Result>, group: Group, p: nat, hi: nat, words: seq<string>) returns (i: nat)
    requires IsRange(results, group, p, hi) && group.page.Some?
    ensures Together(results, p, i) && i < hi && Held(results[i], words) == Best(group, words)
  {
    BestIsMost(group, words);
    hide Best, Held;
    if Best(group, words) == Held(group.page.value, words) {
      i := p;
    } else {
      var k :| 0 <= k < |group.sections| && Best(group, words) == Held(group.sections[k], words);
      i := p + 1 + k;
      assert group.sections[k] == results[i];
    }
  }

  lemma OrderedMeansPagesFall(results: seq<Result>, words: seq<string>, p: nat, q: nat, j: nat)
    requires Falling(Bests(Groups(results), words))
    requires p < q && HasSection(results, p) && HasSection(results, q) && Together(results, q, j)
    ensures HoldsAsMuch(results, words, p, j)
  {
    BestsFall(Groups(results), words);
    var g := PageOfGroup(results, p);
    var h := PageOfGroup(results, q);
    hide Groups, Starts, EndOf, Bests, Falling, IsRange, Best, Held, Together, HasSection;
    if h <= g {
      StartsRise(results, h, g);
    }
    InRange(results, h, q, j);
    AtMostBest(results, Groups(results)[h], q, EndOf(results, h), j, words);
    var i := BestIsHeld(results, Groups(results)[g], p, EndOf(results, g), words);
  }

  /** What is together with the first of a group is in it. */
  lemma InRange(results: seq<Result>, g: nat, p: nat, j: nat)
    requires g < |Groups(results)| == |Starts(results)| && Starts(results)[g] == p && Together(results, p, j)
    requires p < EndOf(results, g) || IsRange(results, Groups(results)[g], p, EndOf(results, g))
    requires Groups(results)[g].page.Some?
    ensures p <= j < EndOf(results, g)
  {
    hide Groups, Starts, EndOf;
    SameGroup(results, g, p, j);
  }

  lemma PagesFallMeansOrdered(results: seq<Result>, words: seq<string>, g: nat, h: nat)
    requires PagesFall(results, words) && g < h < |Groups(results)|
    requires Ranked(Groups(results)[g]) && Ranked(Groups(results)[h])
    ensures Best(Groups(results)[g], words) >= Best(Groups(results)[h], words)
  {
    GroupOfPage(results, g);
    GroupOfPage(results, h);
    StartsRise(results, g, h);
    var p, q := Starts(results)[g], Starts(results)[h];
    StartsApart(results, g, h);
    hide Groups, Starts, EndOf, IsRange, Best, Held, Together, HasSection;
    var j := BestIsHeld(results, Groups(results)[h], q, EndOf(results, h), words);
    assert HoldsAsMuch(results, words, p, j);
    hide PagesFall;
    var i: nat :| Together(results, p, i) && Held(results[i], words) >= Held(results[j], words);
    InRange(results, g, p, i);
    AtMostBest(results, Groups(results)[g], p, EndOf(results, g), i, words);
  }

  lemma StartsApart(results: seq<Result>, g: nat, h: nat)
    requires g < h < |Groups(results)| && Ranked(Groups(results)[g])
    ensures h < |Starts(results)| && Starts(results)[g] < Starts(results)[h]
  {
    RangeOf(results, g);
    RangeOf(results, h);
    StartsRise(results, g + 1, h);
    hide Groups, Starts;
  }

  /**
   * The order by places: on each page no section comes after one that holds less, and no page with sections comes after
   * one whose results all hold less than its best.
   */
  lemma OrderedByPlaces(results: seq<Result>, words: seq<string>)
    ensures Ordered(Groups(results), words) <==> SectionsFall(results, words) && PagesFall(results, words)
  {
    hide Groups, Bests, Best, Held, Together, HasSection, HoldsAsMuch, Falling, Counts;
    if Ordered(Groups(results), words) {
      forall i, j | 0 <= i < j < |results| && !results[i].isPage && Together(results, i, j)
        ensures Held(results[i], words) >= Held(results[j], words)
      {
        OrderedMeansSectionsFall(results, words, i, j);
      }
      forall p, q, j | 0 <= p < q && HasSection(results, p) && HasSection(results, q) && Together(results, q, j)
        ensures HoldsAsMuch(results, words, p, j)
      {
        OrderedMeansPagesFall(results, words, p, q, j);
      }
    }
    if SectionsFall(results, words) && PagesFall(results, words) {
      PlacesMeanOrdered(results, words);
    }
  }

  lemma PlacesMeanOrdered(results: seq<Result>, words: seq<string>)
    requires SectionsFall(results, words) && PagesFall(results, words)
    ensures Ordered(Groups(results), words)
  {
    hide Groups, Bests, Best, Held, SectionsFall, PagesFall, Falling, Counts, Ranked;
    forall g | 0 <= g < |Groups(results)|
      ensures Falling(Counts(Groups(results)[g].sections, words))
    {
      SectionsFallMeansOrdered(results, words, g);
    }
    forall g, h | 0 <= g < h < |Groups(results)| && Ranked(Groups(results)[g]) && Ranked(Groups(results)[h])
      ensures Best(Groups(results)[g], words) >= Best(Groups(results)[h], words)
    {
      PagesFallMeansOrdered(results, words, g, h);
    }
    BestsFall(Groups(results), words);
  }
}
