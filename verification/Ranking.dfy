/**
 * Whether search results come in order: apps/docs/scripts/check-routes.ts, `held` and `outranked`.
 *
 * The results come as pages with their sections after them. The check reads them once and keeps three variables: the
 * best of the last page that had sections, what the section before held, and a page whose sections may still come. The
 * order is defined on the groups instead, a page and its sections at a time: `Ordered` asks that the sections of each
 * page never rise, and that the bests of the pages with sections never rise either. `Tracks` says how the variables
 * stand for the groups read so far, and each kind of result has a lemma that says what reading it does to both.
 */
module Ranking {
  import opened Basics
  import opened Wrappers

  /** A page, or a section of the page before it, with its text in lower case and without highlight marks. */
  datatype Result = Result(isPage: bool, text: string, url: string)

  predicate Contains(text: string, word: string) {
    word <= text || (text != "" && Contains(text[1..], word))
  }

  /** How many of the words a result holds. */
  function Held(result: Result, words: seq<string>): nat {
    if words == [] then 0
    else Held(result, words[..|words| - 1]) + if Contains(result.text, words[|words| - 1]) then 1 else 0
  }

  // ---------------------------------------------------------------- what the order is

  /** A page with its sections. The sections before the first page, if any, are of no page. */
  datatype Group = Group(page: Option<Result>, sections: seq<Result>)

  function Groups(results: seq<Result>): (groups: seq<Group>)
    ensures groups != []
  {
    if results == [] then [Group(None, [])]
    else
      var groups, last := Groups(results[..|results| - 1]), results[|results| - 1];
      var n := |groups| - 1;
      if last.isPage then groups + [Group(Some(last), [])]
      else groups[..n] + [Group(groups[n].page, groups[n].sections + [last])]
  }

  /** The most words a page's title or any of its sections holds. */
  function Best(group: Group, words: seq<string>): nat
    decreases |group.sections|
  {
    if group.sections == [] then if group.page.Some? then Held(group.page.value, words) else 0
    else
      var n := |group.sections| - 1;
      Max(Best(Group(group.page, group.sections[..n]), words), Held(group.sections[n], words))
  }

  /** The best of each page that has sections. */
  function Bests(groups: seq<Group>, words: seq<string>): seq<nat> {
    if groups == [] then []
    else
      var last := groups[|groups| - 1];
      Bests(groups[..|groups| - 1], words) + if last.page.Some? && last.sections != [] then [Best(last, words)] else []
  }

  predicate Falling(counts: seq<nat>) {
    forall i, j :: 0 <= i < j < |counts| ==> counts[i] >= counts[j]
  }

  function Counts(sections: seq<Result>, words: seq<string>): (counts: seq<nat>)
    ensures |counts| == |sections| && forall i :: 0 <= i < |counts| ==> counts[i] == Held(sections[i], words)
  {
    if sections == [] then []
    else Counts(sections[..|sections| - 1], words) + [Held(sections[|sections| - 1], words)]
  }

  predicate OrderedWithin(groups: seq<Group>, words: seq<string>) {
    forall i :: 0 <= i < |groups| ==> Falling(Counts(groups[i].sections, words))
  }

  /** Sections do not get better within a page, nor pages with sections from one to the next. */
  predicate Ordered(groups: seq<Group>, words: seq<string>) {
    OrderedWithin(groups, words) && Falling(Bests(groups, words))
  }

  // ---------------------------------------------------------------- one result more

  lemma FallingMore(counts: seq<nat>, count: nat)
    ensures Falling(counts + [count]) <==> Falling(counts) && (counts == [] || counts[|counts| - 1] >= count)
  {
    var more := counts + [count];
    if Falling(more) {
      assert forall i :: 0 <= i < |counts| ==> counts[i] == more[i];
      assert counts != [] ==> more[|counts| - 1] >= more[|counts|];
    }
  }

  lemma CountsMore(sections: seq<Result>, section: Result, words: seq<string>)
    ensures Counts(sections + [section], words) == Counts(sections, words) + [Held(section, words)]
  {
    assert (sections + [section])[..|sections|] == sections;
  }

  lemma BestsMore(groups: seq<Group>, group: Group, words: seq<string>)
    ensures Bests(groups + [group], words)
         == Bests(groups, words) + if group.page.Some? && group.sections != [] then [Best(group, words)] else []
  {
    assert (groups + [group])[..|groups|] == groups;
    hide Best;
  }

  lemma OrderedMore(groups: seq<Group>, group: Group, words: seq<string>)
    ensures Ordered(groups + [group], words) <==>
            && OrderedWithin(groups, words) && Falling(Counts(group.sections, words))
            && Falling(Bests(groups + [group], words))
  {
    var more := groups + [group];
    assert forall i :: 0 <= i < |groups| ==> more[i] == groups[i];
    assert more[|groups|] == group;
    hide Falling, Counts, Bests;
  }

  lemma BestMore(group: Group, section: Result, words: seq<string>)
    ensures Best(Group(group.page, group.sections + [section]), words) == Max(Best(group, words), Held(section, words))
  {
    assert (group.sections + [section])[..|group.sections|] == group.sections;
    assert group == Group(group.page, group.sections);
    hide Held, Max;
  }

  /** A group is at least as good as its last section. */
  lemma BestOfLast(group: Group, words: seq<string>)
    requires group.sections != []
    ensures Best(group, words) >= Held(group.sections[|group.sections| - 1], words)
  {
  }

  /** A further page changes nothing by itself. */
  lemma PageKeepsOrder(groups: seq<Group>, page: Result, words: seq<string>)
    ensures Ordered(groups + [Group(Some(page), [])], words) <==> Ordered(groups, words)
    ensures Bests(groups + [Group(Some(page), [])], words) == Bests(groups, words)
  {
    var group := Group(Some(page), []);
    OrderedMore(groups, group, words);
    BestsMore(groups, group, words);
    assert Bests(groups, words) + [] == Bests(groups, words);
    assert Falling(Counts([], words));
    hide Falling, Bests, Counts, OrderedWithin;
  }

  /** The first section of a page decides how good the page is. */
  lemma FirstSection(groups: seq<Group>, page: Result, section: Result, words: seq<string>)
    ensures var best := Max(Held(section, words), Held(page, words));
            var bests := Bests(groups, words);
            && (Ordered(groups + [Group(Some(page), [section])], words)
                <==> Ordered(groups, words) && (bests == [] || bests[|bests| - 1] >= best))
            && Bests(groups + [Group(Some(page), [section])], words) == bests + [best]
  {
    var group := Group(Some(page), [section]);
    hide *;
    BestOfFirst(page, section, words);
    FallingOne(section, words);
    BestsMore(groups, group, words);
    FallingMore(Bests(groups, words), Best(group, words));
    OrderedMore(groups, group, words);
    OrderedIs(groups, words);
  }

  lemma FallingOne(section: Result, words: seq<string>)
    ensures Falling(Counts([section], words))
  {
  }

  lemma BestOfFirst(page: Result, section: Result, words: seq<string>)
    ensures Best(Group(Some(page), [section]), words) == Max(Held(section, words), Held(page, words))
  {
    BestMore(Group(Some(page), []), section, words);
    assert [] + [section] == [section];
    hide Held;
  }

  lemma OrderedIs(groups: seq<Group>, words: seq<string>)
    ensures Ordered(groups, words) <==> OrderedWithin(groups, words) && Falling(Bests(groups, words))
  {
  }

  /** A further section of a page that is in order so far must not hold more than the one before it. */
  lemma NextSection(groups: seq<Group>, group: Group, section: Result, words: seq<string>)
    requires group.sections != [] || group.page.None?
    ensures var more := Group(group.page, group.sections + [section]);
            var n := |group.sections|;
            && (Ordered(groups + [more], words) <==>
                && Ordered(groups + [group], words)
                && (n == 0 || Held(group.sections[n - 1], words) >= Held(section, words)))
            && (Ordered(groups + [more], words) ==> Bests(groups + [more], words) == Bests(groups + [group], words))
  {
    var more := Group(group.page, group.sections + [section]);
    OrderedMore(groups, group, words);
    OrderedMore(groups, more, words);
    BestsMore(groups, group, words);
    BestsMore(groups, more, words);
    BestMore(group, section, words);
    CountsMore(group.sections, section, words);
    FallingMore(Counts(group.sections, words), Held(section, words));
    if group.sections != [] {
      BestOfLast(group, words);
    }
    hide Falling, Bests, Counts, Held, Best, OrderedWithin;
  }

  lemma GroupsMore(results: seq<Result>, result: Result)
    ensures var groups := Groups(results);
            var n := |groups| - 1;
            Groups(results + [result])
            == if result.isPage then groups + [Group(Some(result), [])]
               else groups[..n] + [Group(groups[n].page, groups[n].sections + [result])]
  {
    assert (results + [result])[..|results|] == results;
  }

  // ---------------------------------------------------------------- the loop

  /** What the loop's variables stand for, once `groups` have been read and found in order. */
  predicate Tracks(
    groups: seq<Group>, words: seq<string>, pageBest: Option<nat>, previous: Option<nat>, page: Option<Result>)
    requires groups != []
  {
    var last, bests := groups[|groups| - 1], Bests(groups, words);
    var n := |last.sections|;
    && pageBest == (if bests == [] then None else Some(bests[|bests| - 1]))
    && page == (if n == 0 then last.page else None)
    && (page.None? ==> previous == if n == 0 then None else Some(Held(last.sections[n - 1], words)))
  }

  /** Whether a count exceeds one that is infinite at first. */
  predicate Exceeds(count: nat, limit: Option<nat>) {
    limit.Some? && count > limit.value
  }

  lemma TracksStart(words: seq<string>)
    ensures Groups([]) == [Group(None, [])] && Ordered(Groups([]), words) && Tracks(Groups([]), words, None, None, None)
  {
    assert Bests([Group(None, [])], words) == [];
  }

  /** A page is read. */
  lemma ReadsPage(
    groups: seq<Group>, words: seq<string>, pageBest: Option<nat>, previous: Option<nat>,
    page: Option<Result>, result: Result)
    requires groups != [] && Ordered(groups, words) && Tracks(groups, words, pageBest, previous, page)
    ensures var more := groups + [Group(Some(result), [])];
            Ordered(more, words) && Tracks(more, words, pageBest, previous, Some(result))
  {
    PageKeepsOrder(groups, result, words);
    hide Ordered, Bests, Held;
  }

  /** The first section of a page is read. */
  lemma ReadsFirst(
    groups: seq<Group>, words: seq<string>, pageBest: Option<nat>, previous: Option<nat>, page: Result,
    result: Result)
    requires groups != [] && Ordered(groups, words) && Tracks(groups, words, pageBest, previous, Some(page))
    ensures var n := |groups| - 1;
            var more := groups[..n] + [Group(groups[n].page, groups[n].sections + [result])];
            var best := Max(Held(result, words), Held(page, words));
            && (Ordered(more, words) <==> !Exceeds(best, pageBest))
            && Tracks(more, words, Some(best), Some(Held(result, words)), None)
  {
    var n := |groups| - 1;
    TracksAfterFirst(groups[..n], words, page, result, Max(Held(result, words), Held(page, words)));
    assert groups[n].page == Some(page) && groups[n].sections == [];
    assert groups == groups[..n] + [Group(Some(page), [])] && [] + [result] == [result];
    TracksBest(groups, words, pageBest, previous, Some(page));
    hide *;
    PageKeepsOrder(groups[..n], page, words);
    FirstSection(groups[..n], page, result, words);
  }

  lemma TracksBest(
    groups: seq<Group>, words: seq<string>, pageBest: Option<nat>, previous: Option<nat>, page: Option<Result>)
    requires groups != [] && Tracks(groups, words, pageBest, previous, page)
    ensures var bests := Bests(groups, words);
            forall best :: Exceeds(best, pageBest) <==> !(bests == [] || bests[|bests| - 1] >= best)
  {
    hide Bests, Held;
  }

  lemma TracksAfterFirst(groups: seq<Group>, words: seq<string>, page: Result, section: Result, best: nat)
    requires best == Max(Held(section, words), Held(page, words))
    ensures Tracks(groups + [Group(Some(page), [section])], words, Some(best), Some(Held(section, words)), None)
  {
    FirstSection(groups, page, section, words);
    hide Bests, Held, Ordered, Max;
  }

  lemma TracksNext(
    groups: seq<Group>, group: Group, words: seq<string>, pageBest: Option<nat>, previous: Option<nat>,
    result: Result)
    requires Tracks(groups + [group], words, pageBest, previous, None)
    ensures group.sections != [] || group.page.None?
    ensures var n := |group.sections|; previous == if n == 0 then None else Some(Held(group.sections[n - 1], words))
    ensures var more := groups + [Group(group.page, group.sections + [result])];
            Bests(more, words) == Bests(groups + [group], words) ==>
              Tracks(more, words, pageBest, Some(Held(result, words)), None)
  {
    assert (groups + [group])[|groups|] == group;
    hide Bests, Held;
  }

  /** A further section is read. */
  lemma ReadsNext(groups: seq<Group>, words: seq<string>, pageBest: Option<nat>, previous: Option<nat>, result: Result)
    requires groups != [] && Ordered(groups, words) && Tracks(groups, words, pageBest, previous, None)
    ensures var n := |groups| - 1;
            var more := groups[..n] + [Group(groups[n].page, groups[n].sections + [result])];
            && (Ordered(more, words) <==> !Exceeds(Held(result, words), previous))
            && (Ordered(more, words) ==> Tracks(more, words, pageBest, Some(Held(result, words)), None))
  {
    var n := |groups| - 1;
    hide Ordered, Bests, Held, Tracks;
    assert groups == groups[..n] + [groups[n]];
    TracksNext(groups[..n], groups[n], words, pageBest, previous, result);
    NextSection(groups[..n], groups[n], result, words);
  }

  /** What is in order was in order all along. */
  lemma OrderedBefore(results: seq<Result>, result: Result, words: seq<string>)
    requires Ordered(Groups(results + [result]), words)
    ensures Ordered(Groups(results), words)
  {
    var groups := Groups(results);
    var n := |groups| - 1;
    hide *;
    GroupsMore(results, result);
    OrderedGroupsBefore(groups[..n], groups[n].page, groups[n].sections, result, words);
    assert groups == groups[..n] + [Group(groups[n].page, groups[n].sections)];
  }

  lemma OrderedGroupsBefore(
    groups: seq<Group>, page: Option<Result>, sections: seq<Result>, result: Result, words: seq<string>)
    ensures Ordered(groups + [Group(page, sections)] + [Group(Some(result), [])], words)
            || Ordered(groups + [Group(page, sections + [result])], words)
            ==> Ordered(groups + [Group(page, sections)], words)
  {
    PageKeepsOrder(groups + [Group(page, sections)], result, words);
    hide *;
    if sections == [] && page.Some? {
      assert sections + [result] == [result];
      FirstSection(groups, page.value, result, words);
      PageKeepsOrder(groups, page.value, words);
    } else {
      NextSection(groups, Group(page, sections), result, words);
    }
  }

  lemma {:induction false} OrderedPrefix(results: seq<Result>, i: nat, words: seq<string>)
    requires i <= |results| && Ordered(Groups(results), words)
    ensures Ordered(Groups(results[..i]), words)
    decreases |results|
  {
    hide *;
    if i == |results| {
      assert results[..i] == results;
    } else {
      var n := |results| - 1;
      assert results == results[..n] + [results[n]];
      OrderedBefore(results[..n], results[n], words);
      OrderedPrefix(results[..n], i, words);
      assert results[..n][..i] == results[..i];
    }
  }

  /** The `i`th result is the first that breaks the order. */
  predicate Breaks(results: seq<Result>, words: seq<string>, i: nat) {
    i < |results| && Ordered(Groups(results[..i]), words) && !Ordered(Groups(results[..i + 1]), words)
  }

  /**
   * Nothing is told if the results are in order. Otherwise it is the URL of the first result that breaks the order, or
   * of its page if that comes right before it.
   */
  method Outranked(results: seq<Result>, words: seq<string>) returns (url: Option<string>)
    ensures url.None? <==> Ordered(Groups(results), words)
    ensures url.Some? ==>
              exists i: nat ::
                && Breaks(results, words, i)
                && url.value == if i > 0 && results[i - 1].isPage then results[i - 1].url else results[i].url
  {
    var pageBest, previous: Option<nat> := None, None;
    var page: Option<Result> := None;
    TracksStart(words);
    hide *;
    for i := 0 to |results|
      invariant Ordered(Groups(results[..i]), words)
      invariant Tracks(Groups(results[..i]), words, pageBest, previous, page)
      invariant page.Some? ==> i > 0 && page.value == results[i - 1] && results[i - 1].isPage
      invariant page.None? ==> i == 0 || !results[i - 1].isPage
    {
      var result := results[i];
      ghost var groups := Groups(results[..i]);
      assert results[..i + 1] == results[..i] + [result];
      GroupsMore(results[..i], result);
      if result.isPage {
        ReadsPage(groups, words, pageBest, previous, page, result);
        page := Some(result);
      } else {
        var count := Held(result, words);
        if page.Some? {
          ReadsFirst(groups, words, pageBest, previous, page.value, result);
          var best: nat := Max(count, Held(page.value, words));
          if Exceeds(best, pageBest) {
            TellCulprit(results, words, i, page.value.url);
            return Some(page.value.url);
          }
          pageBest := Some(best);
          page := None;
        } else {
          ReadsNext(groups, words, pageBest, previous, result);
          if Exceeds(count, previous) {
            TellCulprit(results, words, i, result.url);
            return Some(result.url);
          }
        }
        previous := Some(count);
      }
    }
    assert results[..|results|] == results;
    return None;
  }

  lemma TellCulprit(results: seq<Result>, words: seq<string>, i: nat, url: string)
    requires i < |results| && Ordered(Groups(results[..i]), words) && !Ordered(Groups(results[..i + 1]), words)
    requires url == if i > 0 && results[i - 1].isPage then results[i - 1].url else results[i].url
    ensures !Ordered(Groups(results), words)
    ensures exists k: nat ::
              && Breaks(results, words, k)
              && url == if k > 0 && results[k - 1].isPage then results[k - 1].url else results[k].url
  {
    BreaksAt(results, words, i);
    hide *;
  }

  lemma BreaksAt(results: seq<Result>, words: seq<string>, i: nat)
    requires i < |results| && Ordered(Groups(results[..i]), words) && !Ordered(Groups(results[..i + 1]), words)
    ensures !Ordered(Groups(results), words) && Breaks(results, words, i)
  {
    hide Ordered, Groups;
    if Ordered(Groups(results), words) {
      OrderedPrefix(results, i + 1, words);
    }
  }
}
