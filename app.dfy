/** The viewer's top level: the date, venue and coach filters, the lists
    the filter menus offer, the games handed to the map and to the list,
    and the rule that picks a date when none is chosen. */
module App {
  import opened Wrappers
  import opened JsNumber
  import opened Seqs
  import opened Ordering
  import opened Records

  // ================================================================ dates

  /** `formatDate`: `MM/DD/YYYY` from a calendar date (`month0` counts from
      0 as `getMonth` does): the month and the day as two digits each, then
      the year as `String` prints it. */
  function FormatDate(year: int, month0: int, day: int): (r: string)
    requires 0 <= month0 < 12 && 1 <= day <= 31
    ensures |r| == 6 + |IntToString(year)|
    ensures r[2] == '/' && r[5] == '/'
    ensures AllDigits(r[..2]) && DigitsValue(r[..2]) == month0 + 1
    ensures AllDigits(r[3..5]) && DigitsValue(r[3..5]) == day
    ensures r[6..] == IntToString(year) && ParseInt(r[6..]) == Some(year)
  {
    var month := PadStart2(IntToString(month0 + 1));
    var dd := PadStart2(IntToString(day));
    PadStart2TwoDigits(month0 + 1);
    PadStart2TwoDigits(day);
    ParseIntOfIntToString(year);
    SlashedFields(month, dd, IntToString(year));
    month + "/" + dd + "/" + IntToString(year)
  }

  /** Where the three fields of `MM/DD/…` sit. */
  lemma SlashedFields(mm: string, dd: string, rest: string)
    requires |mm| == 2 && |dd| == 2
    ensures var r := mm + "/" + dd + "/" + rest;
      && |r| == 6 + |rest| && r[2] == '/' && r[5] == '/'
      && r[..2] == mm && r[3..5] == dd && r[6..] == rest
  {
    var r := mm + "/" + dd + "/" + rest;
    assert r[..2] == mm;
    assert r[3..5] == dd;
    assert r[6..] == rest;
  }

  /** Two different calendar days format differently. */
  lemma FormatDateInjective(y1: int, m1: int, d1: int, y2: int, m2: int, d2: int)
    requires 0 <= m1 < 12 && 1 <= d1 <= 31 && 0 <= m2 < 12 && 1 <= d2 <= 31
    requires FormatDate(y1, m1, d1) == FormatDate(y2, m2, d2)
    ensures y1 == y2 && m1 == m2 && d1 == d2
  {
    var r := FormatDate(y1, m1, d1);
    assert r[..2] == FormatDate(y2, m2, d2)[..2];
    assert r[3..5] == FormatDate(y2, m2, d2)[3..5];
    assert r[6..] == FormatDate(y2, m2, d2)[6..];
  }

  /** `new Date(s)` for the date strings of the dataset, as a time value;
      which strings it accepts and what it yields is left abstract. */
  type DateParser = string -> int

  /** The comparator `new Date(a) - new Date(b)`, as "not after". */
  function DateOrder(parse: DateParser): (le: (string, string) -> bool)
    ensures TotalPreorder(le)
    ensures forall a, b :: le(a, b) <==> parse(a) <= parse(b)
  {
    (a, b) => parse(a) <= parse(b)
  }


  /** `availableDates`: the distinct dates of all games, in calendar order,
      dates on the same day keeping the order they first occur in. */
  function AvailableDates(allGames: seq<Game>, parse: DateParser): (dates: seq<string>)
    ensures Distinct(dates)
    ensures forall d :: d in dates <==> exists g :: g in allGames && g.date == d
    ensures forall i, j :: 0 <= i < j < |dates| ==> parse(dates[i]) <= parse(dates[j])
  {
    var distinct := Dedup(Map(allGames, DateOf));
    var dates := SortBy(distinct, DateOrder(parse));
    SortBySorted(distinct, DateOrder(parse));
    PermutationKeepsDistinct(distinct, dates);
    forall d ensures d in dates <==> exists g :: g in allGames && g.date == d {
      assert d in dates <==> d in multiset(dates);
      assert d in distinct <==> d in multiset(distinct);
      if d in Map(allGames, DateOf) {
        var i :| 0 <= i < |allGames| && Map(allGames, DateOf)[i] == d;
        assert allGames[i] in allGames;
      }
      if exists g :: g in allGames && g.date == d {
        var g :| g in allGames && g.date == d;
        var i :| 0 <= i < |allGames| && allGames[i] == g;
        assert Map(allGames, DateOf)[i] == d;
      }
    }
    dates
  }

  // ================================================================ derived lists

  /** `gamesOnDate`: nothing while no date is chosen, otherwise the games of
      that date in their original order. */
  function GamesOnDate(selectedDate: string, allGames: seq<Game>): (games: seq<Game>)
    ensures selectedDate == "" ==> games == []
    ensures selectedDate != "" ==> Subsequence(games, allGames)
    ensures selectedDate != "" ==> forall g :: g in games <==> g in allGames && g.date == selectedDate
    ensures selectedDate != "" ==>
      forall g :: multiset(games)[g] == if g.date == selectedDate then multiset(allGames)[g] else 0
  {
    if selectedDate == "" then []
    else
      WithKeySubsequence(allGames, DateOf, selectedDate);
      WithKeyMembers(allGames, DateOf, selectedDate);
      WithKeyCounts(allGames, DateOf, selectedDate);
      WithKey(allGames, DateOf, selectedDate)
  }

  /** `availableLocations`: the venues of the day's games, each once, in
      ascending order. */
  function AvailableLocations(gamesOnDate: seq<Game>): (names: seq<string>)
    ensures StrictlyAscending(names)
    ensures forall x :: x in names <==> exists g :: g in gamesOnDate && g.location == x
  {
    MapMembers(gamesOnDate, LocationOf);
    SortedDistinct(Map(gamesOnDate, LocationOf))
  }

  /** `availableCoaches`: the coaches of the day's games, each once, in
      ascending order. */
  function AvailableCoaches(gamesOnDate: seq<Game>): (names: seq<string>)
    ensures StrictlyAscending(names)
    ensures forall x :: x in names <==> exists g :: g in gamesOnDate && g.coachName == x
  {
    MapMembers(gamesOnDate, CoachOf);
    SortedDistinct(Map(gamesOnDate, CoachOf))
  }

  /** A value occurs in `Map(s, f)` exactly when some element maps to it. */
  lemma MapMembers(s: seq<Game>, f: Game -> string)
    ensures forall x :: x in Map(s, f) <==> exists g :: g in s && f(g) == x
  {
    forall x ensures x in Map(s, f) <==> exists g :: g in s && f(g) == x {
      if x in Map(s, f) {
        var i :| 0 <= i < |s| && Map(s, f)[i] == x;
        assert s[i] in s;
      }
      if exists g :: g in s && f(g) == x {
        var g :| g in s && f(g) == x;
        var i :| 0 <= i < |s| && s[i] == g;
        assert Map(s, f)[i] == x;
      }
    }
  }

  /** `gamesForMap`: the day's games, or only those of the chosen coach. */
  function GamesForMap(coachFilter: string, gamesOnDate: seq<Game>): (games: seq<Game>)
    ensures coachFilter == "all" ==> games == gamesOnDate
    ensures coachFilter != "all" ==> Subsequence(games, gamesOnDate)
    ensures coachFilter != "all" ==> forall g :: g in games <==> g in gamesOnDate && g.coachName == coachFilter
    ensures coachFilter != "all" ==>
      forall g :: multiset(games)[g] == if g.coachName == coachFilter then multiset(gamesOnDate)[g] else 0
  {
    if coachFilter == "all" then gamesOnDate
    else
      WithKeySubsequence(gamesOnDate, CoachOf, coachFilter);
      WithKeyMembers(gamesOnDate, CoachOf, coachFilter);
      WithKeyCounts(gamesOnDate, CoachOf, coachFilter);
      WithKey(gamesOnDate, CoachOf, coachFilter)
  }

  /** Every venue on the map is one the venue menu offers. */
  lemma MapVenuesAreOffered(selectedDate: string, coachFilter: string, allGames: seq<Game>, g: Game)
    requires g in GamesForMap(coachFilter, GamesOnDate(selectedDate, allGames))
    ensures g.location in AvailableLocations(GamesOnDate(selectedDate, allGames))
  {
  }

  // ================================================================ default date

  /** `availableDates.find(date => new Date(date) >= today)`. */
  function FindFrom(dates: seq<string>, parse: DateParser, now: int): (found: Option<nat>)
    ensures found.Some? ==> found.value < |dates| && parse(dates[found.value]) >= now
    ensures found.Some? ==> forall i :: 0 <= i < found.value ==> parse(dates[i]) < now
    ensures found.None? ==> forall i :: 0 <= i < |dates| ==> parse(dates[i]) < now
  {
    if dates == [] then None
    else if parse(dates[0]) >= now then Some(0)
    else
      match FindFrom(dates[1..], parse, now)
      case None => None
      case Some(k) => Some(k + 1)
  }

  /** The date the default-date effect picks from a non-empty list: today's
      if listed, else the first date not before now unless that is the empty
      string, else the last date. */
  function DefaultDate(dates: seq<string>, todayString: string, parse: DateParser, now: int): (d: string)
    requires |dates| > 0
    ensures d in dates
    ensures todayString in dates ==> d == todayString
    ensures todayString !in dates ==>
      match FindFrom(dates, parse, now)
      case Some(k) => d == (if dates[k] != "" then dates[k] else dates[|dates| - 1])
      case None => d == dates[|dates| - 1]
  {
    if todayString in dates then todayString
    else
      match FindFrom(dates, parse, now)
      case Some(k) => if dates[k] != "" then dates[k] else dates[|dates| - 1]
      case None => dates[|dates| - 1]
  }

  /** The viewer's state. */
  class Viewer {
    var allGames: seq<Game>
    var selectedDate: string
    var locationFilter: string
    var coachFilter: string
    var showAwaySummaries: bool
    var selectedMatchId: Option<string>

    /** The initial state: no date, both filters 'all', summaries shown,
        no match selected, and the games once `games.json` has loaded. */
    constructor (loaded: seq<Game>)
      ensures allGames == loaded && selectedDate == ""
      ensures locationFilter == "all" && coachFilter == "all"
      ensures showAwaySummaries && selectedMatchId == None
    {
      allGames := loaded;
      selectedDate := "";
      locationFilter := "all";
      coachFilter := "all";
      showAwaySummaries := true;
      selectedMatchId := None;
    }

    /** `resetFilters`: both filters back to 'all', nothing else changes. */
    method ResetFilters()
      modifies this
      ensures locationFilter == "all" && coachFilter == "all"
      ensures allGames == old(allGames) && selectedDate == old(selectedDate)
      ensures showAwaySummaries == old(showAwaySummaries) && selectedMatchId == old(selectedMatchId)
    {
      locationFilter := "all";
      coachFilter := "all";
    }

    /** Choosing a date in the date menu: the date is set and the filters
        are reset. */
    method ChangeDate(value: string)
      modifies this
      ensures selectedDate == value
      ensures locationFilter == "all" && coachFilter == "all"
      ensures allGames == old(allGames)
      ensures showAwaySummaries == old(showAwaySummaries) && selectedMatchId == old(selectedMatchId)
    {
      selectedDate := value;
      ResetFilters();
    }

    /** The default-date effect, given the current calendar date and time:
        when dates exist and none is chosen, pick one by `DefaultDate`;
        otherwise change nothing. A picked date is one of the available
        dates. */
    method DefaultDateEffect(parse: DateParser, year: int, month0: int, day: int, now: int)
      requires 0 <= month0 < 12 && 1 <= day <= 31
      modifies this
      ensures var dates := AvailableDates(old(allGames), parse);
        selectedDate == if |dates| > 0 && old(selectedDate) == ""
                        then DefaultDate(dates, FormatDate(year, month0, day), parse, now)
                        else old(selectedDate)
      ensures var dates := AvailableDates(old(allGames), parse);
        |dates| > 0 && old(selectedDate) == "" ==> selectedDate in dates
      ensures allGames == old(allGames) && locationFilter == old(locationFilter)
      ensures coachFilter == old(coachFilter)
      ensures showAwaySummaries == old(showAwaySummaries) && selectedMatchId == old(selectedMatchId)
    {
      selectedDate := DefaultDateFor(allGames, selectedDate, parse, year, month0, day, now);
    }
  }

  /** The date the default-date effect leaves chosen: when dates exist and
      none is chosen, the one `DefaultDate` picks, which is one of them;
      otherwise the date already chosen. */
  method DefaultDateFor(allGames: seq<Game>, selectedDate: string, parse: DateParser,
                        year: int, month0: int, day: int, now: int) returns (d: string)
    requires 0 <= month0 < 12 && 1 <= day <= 31
    ensures var dates := AvailableDates(allGames, parse);
      d == if |dates| > 0 && selectedDate == ""
           then DefaultDate(dates, FormatDate(year, month0, day), parse, now)
           else selectedDate
    ensures var dates := AvailableDates(allGames, parse);
      |dates| > 0 && selectedDate == "" ==> d in dates
  {
    var dates := AvailableDates(allGames, parse);
    d := selectedDate;
    if |dates| > 0 && selectedDate == "" {
      d := PickDate(dates, year, month0, day, parse, now);
    }
  }

  /** The branches of the default-date effect once dates exist: today's
      date, formatted, when listed, else the first date not before now when
      there is one and it is not empty, else the last date. */
  method PickDate(dates: seq<string>, year: int, month0: int, day: int, parse: DateParser, now: int)
    returns (d: string)
    requires |dates| > 0 && 0 <= month0 < 12 && 1 <= day <= 31
    ensures d == DefaultDate(dates, FormatDate(year, month0, day), parse, now)
  {
    var todayString := FormatDate(year, month0, day);
    if todayString in dates {
      d := todayString;
    } else {
      var next := FindFrom(dates, parse, now);
      if next.Some? && dates[next.value] != "" {
        d := dates[next.value];
      } else {
        d := dates[|dates| - 1];
      }
    }
  }
}
