/** The side list: the games grouped by venue and by coach under two
    collapsible headings, each group collapsible on its own, with the
    groups sorted by name and the games of a group sorted by start time. */
module GameList {
  import opened Wrappers
  import opened JsString
  import opened Seqs
  import opened Ordering
  import opened Records

  // ================================================================ grouping

  /** `gamesByLocation` / `gamesByCoach` as their entries: one group per
      distinct key in first-occurrence order, each holding exactly the games
      with that key in their original order. */
  function GroupGames(games: seq<Game>, key: Game -> string): (groups: seq<(string, seq<Game>)>)
    ensures Distinct(Keys(groups))
    ensures forall k :: k in Keys(groups) <==> k in Map(games, key)
    ensures forall i :: 0 <= i < |groups| ==> groups[i].1 == WithKey(games, key, groups[i].0)
  {
    GroupByCorrect(games, key);
    GroupBy(games, key)
  }

  /** Every game is in exactly the group for its key. */
  lemma GroupGamesPartition(games: seq<Game>, key: Game -> string, g: Game)
    requires g in games
    ensures key(g) in Keys(GroupGames(games, key))
    ensures forall i :: 0 <= i < |GroupGames(games, key)| ==>
      (g in GroupGames(games, key)[i].1 <==> GroupGames(games, key)[i].0 == key(g))
  {
    GroupByPartition(games, key, g);
  }

  /** `Object.keys(groups).sort()`: the group names, each once, strictly
      ascending. */
  function SortedKeys(groups: seq<(string, seq<Game>)>): (names: seq<string>)
    requires Distinct(Keys(groups))
    ensures StrictlyAscending(names)
    ensures forall k :: k in names <==> k in Keys(groups)
  {
    SortStringsDistinct(Keys(groups));
    SortStrings(Keys(groups))
  }

  /** The headings of a grouping are exactly the distinct keys of the games,
      in ascending order: the same list whatever order the games came in. */
  lemma SortedKeysAreDistinctKeys(games: seq<Game>, key: Game -> string)
    ensures SortedKeys(GroupGames(games, key)) == SortedDistinct(Map(games, key))
  {
    StrictlyAscendingUnique(SortedKeys(GroupGames(games, key)), SortedDistinct(Map(games, key)));
  }

  /** The group of `name`, as `gamesByLocation[name]` looks it up. */
  function GroupOf(groups: seq<(string, seq<Game>)>, name: string): (games: seq<Game>)
    requires name in Keys(groups)
    ensures exists i :: 0 <= i < |groups| && groups[i] == (name, games)
  {
    if groups[0].0 == name then groups[0].1
    else
      assert Keys(groups) == [groups[0].0] + Keys(groups[1..]);
      GroupOf(groups[1..], name)
  }

  // ================================================================ time order

  /** The comparator `a.time24.localeCompare(b.time24)`, as "not after". */
  predicate ByTime24(a: Game, b: Game) {
    StrLe(a.time24, b.time24)
  }

  /** A group's games sorted by start time. */
  function SortByTime(games: seq<Game>): (sorted: seq<Game>)
    ensures multiset(sorted) == multiset(games)
    ensures forall i, j :: 0 <= i < j < |sorted| ==> StrLe(sorted[i].time24, sorted[j].time24)
  {
    StrLeTotalPreorder();
    assert TotalPreorder(ByTime24);
    SortBySorted(games, ByTime24);
    SortBy(games, ByTime24)
  }

  /** Games that start at the same time stay in their original order: any
      selection of games sharing one start time is picked out of the sorted
      group in the same order as out of the unsorted one. */
  lemma SortByTimeStable(games: seq<Game>, sameTime: Game -> bool)
    requires forall a, b :: sameTime(a) && sameTime(b) ==> a.time24 == b.time24
    ensures Filter(SortByTime(games), sameTime) == Filter(games, sameTime)
  {
    forall a, b | sameTime(a) && sameTime(b) ensures ByTime24(a, b) {
      StrLeReflexive(a.time24);
    }
    SortByStable(games, ByTime24, sameTime);
  }

  // ================================================================ view

  /** What a group renders: its heading name, its game count and the word
      after it, whether it is highlighted and expanded, and the cards shown
      (each with its highlight flag), in start-time order. */
  datatype GroupView = GroupView(
    name: string, count: nat, noun: string,
    highlighted: bool, expanded: bool,
    cards: seq<(Game, bool)>)

  /** One group of the list, given the group's games, the active filter for
      this grouping, the expanded names and the selected match. */
  function ViewGroup(
    name: string, games: seq<Game>, filter: string, expanded: set<string>, selectedMatchId: Option<string>)
    : (v: GroupView)
    ensures v.name == name && v.count == |games|
    ensures v.noun == (if |games| > 1 then "Games" else "Game")
    ensures v.highlighted <==> filter == name
    ensures v.expanded <==> name in expanded
    ensures !v.expanded ==> v.cards == []
    ensures v.expanded ==> |v.cards| == |games| && forall i :: 0 <= i < |v.cards| ==>
      v.cards[i].0 == SortByTime(games)[i] && (v.cards[i].1 <==> selectedMatchId == Some(v.cards[i].0.matchId))
  {
    var sorted := SortByTime(games);
    var isExpanded := name in expanded;
    GroupView(
      name, |sorted|, if |sorted| > 1 then "Games" else "Game",
      filter == name, isExpanded,
      if isExpanded then seq(|sorted|, i requires 0 <= i < |sorted| => (sorted[i], Some(sorted[i].matchId) == selectedMatchId))
      else [])
  }

  /** One section (by location or by coach): nothing while its heading is
      closed, otherwise one view per group in name order. */
  function ViewSection(
    games: seq<Game>, key: Game -> string, open: bool, filter: string,
    expanded: set<string>, selectedMatchId: Option<string>)
    : (views: seq<GroupView>)
    ensures !open ==> views == []
    ensures open ==> |views| == |SortedKeys(GroupGames(games, key))|
    ensures open ==> forall i :: 0 <= i < |views| ==>
      var name := SortedKeys(GroupGames(games, key))[i];
      views[i] == ViewGroup(name, GroupOf(GroupGames(games, key), name), filter, expanded, selectedMatchId)
  {
    if !open then []
    else
      var groups := GroupGames(games, key);
      var names := SortedKeys(groups);
      seq(|names|, i requires 0 <= i < |names| =>
        ViewGroup(names[i], GroupOf(groups, names[i]), filter, expanded, selectedMatchId))
  }

  /** The games under a group heading are exactly that group's games, a
      permutation of them ordered by start time. */
  lemma SectionGroupIsItsGames(games: seq<Game>, key: Game -> string, name: string)
    requires name in Keys(GroupGames(games, key))
    ensures multiset(SortByTime(GroupOf(GroupGames(games, key), name))) == multiset(WithKey(games, key, name))
  {
  }

  // ================================================================ accordions

  /** `new Set(s)` with `k` deleted when present and added when absent. */
  function Toggled(s: set<string>, k: string): (r: set<string>)
    ensures k in r <==> k !in s
    ensures forall x :: x != k ==> (x in r <==> x in s)
  {
    if k in s then s - {k} else s + {k}
  }

  /** Toggling the same name twice restores the set. */
  lemma ToggleTwice(s: set<string>, k: string)
    ensures Toggled(Toggled(s, k), k) == s
  {
  }

  /** The list's own state: the two section headings and the expanded groups
      of each section. */
  class ListState {
    var isLocationGroupOpen: bool
    var isCoachGroupOpen: bool
    var expandedLocations: set<string>
    var expandedCoaches: set<string>

    /** Both sections closed, nothing expanded. */
    constructor ()
      ensures !isLocationGroupOpen && !isCoachGroupOpen
      ensures expandedLocations == {} && expandedCoaches == {}
    {
      isLocationGroupOpen := false;
      isCoachGroupOpen := false;
      expandedLocations := {};
      expandedCoaches := {};
    }

    /** Clicking the "Games by Location" heading. */
    method ToggleLocationGroup()
      modifies this
      ensures isLocationGroupOpen == !old(isLocationGroupOpen)
      ensures isCoachGroupOpen == old(isCoachGroupOpen)
      ensures expandedLocations == old(expandedLocations) && expandedCoaches == old(expandedCoaches)
    {
      isLocationGroupOpen := !isLocationGroupOpen;
    }

    /** Clicking the "Games by Coach" heading. */
    method ToggleCoachGroup()
      modifies this
      ensures isCoachGroupOpen == !old(isCoachGroupOpen)
      ensures isLocationGroupOpen == old(isLocationGroupOpen)
      ensures expandedLocations == old(expandedLocations) && expandedCoaches == old(expandedCoaches)
    {
      isCoachGroupOpen := !isCoachGroupOpen;
    }

    /** `toggleLocationAccordion(loc)`: only `loc` flips in the venue set. */
    method ToggleLocationAccordion(loc: string)
      modifies this
      ensures expandedLocations == Toggled(old(expandedLocations), loc)
      ensures expandedCoaches == old(expandedCoaches)
      ensures isLocationGroupOpen == old(isLocationGroupOpen) && isCoachGroupOpen == old(isCoachGroupOpen)
    {
      var newSet := expandedLocations;
      if loc in newSet {
        newSet := newSet - {loc};
      } else {
        newSet := newSet + {loc};
      }
      expandedLocations := newSet;
    }

    /** `toggleCoachAccordion(coach)`: only `coach` flips in the coach set. */
    method ToggleCoachAccordion(coach: string)
      modifies this
      ensures expandedCoaches == Toggled(old(expandedCoaches), coach)
      ensures expandedLocations == old(expandedLocations)
      ensures isLocationGroupOpen == old(isLocationGroupOpen) && isCoachGroupOpen == old(isCoachGroupOpen)
    {
      var newSet := expandedCoaches;
      if coach in newSet {
        newSet := newSet - {coach};
      } else {
        newSet := newSet + {coach};
      }
      expandedCoaches := newSet;
    }

    /** The effect run when the venue filter changes: a filter other than
        'all' opens the venue section with exactly that venue expanded; 'all'
        leaves everything as it was. */
    method LocationFilterChanged(locationFilter: string)
      modifies this
      ensures locationFilter != "all" ==> isLocationGroupOpen && expandedLocations == {locationFilter}
      ensures locationFilter == "all" ==>
        isLocationGroupOpen == old(isLocationGroupOpen) && expandedLocations == old(expandedLocations)
      ensures isCoachGroupOpen == old(isCoachGroupOpen) && expandedCoaches == old(expandedCoaches)
    {
      if locationFilter != "all" {
        isLocationGroupOpen := true;
        expandedLocations := {locationFilter};
      }
    }

    /** The effect run when the coach filter changes, likewise. */
    method CoachFilterChanged(coachFilter: string)
      modifies this
      ensures coachFilter != "all" ==> isCoachGroupOpen && expandedCoaches == {coachFilter}
      ensures coachFilter == "all" ==>
        isCoachGroupOpen == old(isCoachGroupOpen) && expandedCoaches == old(expandedCoaches)
      ensures isLocationGroupOpen == old(isLocationGroupOpen) && expandedLocations == old(expandedLocations)
    {
      if coachFilter != "all" {
        isCoachGroupOpen := true;
        expandedCoaches := {coachFilter};
      }
    }
  }

  /** After a venue filter is picked, the filtered venue is the one group
      of its section shown expanded, and it is highlighted. */
  lemma FilteredVenueIsExpanded(
    games: seq<Game>, locationFilter: string, selectedMatchId: Option<string>, i: nat)
    requires locationFilter != "all"
    requires i < |SortedKeys(GroupGames(games, LocationOf))|
    ensures var v := ViewSection(games, LocationOf, true, locationFilter, {locationFilter}, selectedMatchId)[i];
      (v.expanded <==> v.name == locationFilter) && (v.highlighted <==> v.name == locationFilter)
  {
  }
}
