/** The enrichment script: turns schedule rows into game records, resolving
    each venue to an address through a fixed table and each address to
    coordinates through a memo dictionary in front of a geocoding service. */
module GetData {
  import opened Wrappers
  import opened JsString
  import opened JsNumber
  import opened Seqs
  import opened Records

  // ================================================================ time

  /** `hours` after the PM and midnight corrections; `None` is NaN, which
      neither comparison matches. */
  function Hour24(hours: Option<int>, modifier: string): Option<int>
  {
    match hours
    case None => None
    case Some(h) =>
      var afternoon := if modifier == "PM" && h < 12 then h + 12 else h;
      Some(if modifier == "AM" && afternoon == 12 then 0 else afternoon)
  }

  /** `String(hours)`. */
  function HourText(hours: Option<int>): string
  {
    match hours
    case None => "NaN"
    case Some(h) => IntToString(h)
  }

  /** `convertTo24Hour`: `""` for a missing time or one without a space;
      otherwise the part before the first space is the clock time and the
      part after it the modifier. */
  function ConvertTo24Hour(timeString: Option<string>): (r: string)
    ensures r == "" <==> (timeString.None? || ' ' !in timeString.value)
  {
    if timeString.None? || timeString.value == "" || ' ' !in timeString.value then ""
    else
      var s := timeString.value;
      SplitHasSecond(s, ' ');
      var parts := Split(s, ' ');
      ConvertParts(parts[0], parts[1])
  }

  /** The clock time is split at ':' into hours and minutes; the result is
      the padded corrected hour, ':', and the minutes piece as it stands
      (the text "undefined" when there is no ':'). */
  function ConvertParts(time: string, modifier: string): (r: string)
    ensures r != ""
  {
    var clock := Split(time, ':');
    var minutes := if |clock| > 1 then clock[1] else "undefined";
    PadStart2(HourText(Hour24(ParseInt(clock[0]), modifier))) + ":" + minutes
  }

  /** The 12-hour reading of a 24-hour hour: the partner of `Hour24` on
      clock times. */
  function Clock12(hour: nat): (nat, string)
  {
    if hour == 0 then (12, "AM")
    else if hour < 12 then (hour, "AM")
    else if hour == 12 then (12, "PM")
    else (hour - 12, "PM")
  }

  /** A digit string that does not start with white space or a sign parses
      to its value. */
  lemma ParseIntOfDigits(s: string)
    requires |s| >= 1 && AllDigits(s)
    ensures ParseInt(s) == Some(DigitsValue(s))
  {
    assert TrimStart(s) == s;
    DigitsOnly(s);
  }

  /** `convertTo24Hour` on `h:mm M` with a digit hour `h`: the hour parses
      to its digit value, is corrected by `Hour24`, printed and padded to two
      digits, and the minutes are copied verbatim. */
  lemma ConvertDigitHour(hs: string, minutes: string, modifier: string)
    requires |hs| >= 1 && AllDigits(hs)
    requires ':' !in minutes && ' ' !in minutes && ' ' !in modifier
    ensures ConvertTo24Hour(Some(hs + ":" + minutes + " " + modifier))
      == PadStart2(HourText(Hour24(Some(DigitsValue(hs)), modifier))) + ":" + minutes
  {
    DigitsHaveNoSeparator(hs);
    SplitClockTime(hs + ":" + minutes, modifier);
    ClockParts(hs, minutes, modifier);
    ParseIntOfDigits(hs);
  }

  /** A clock time `h:mm` splits into the hour text and the minutes. */
  lemma ClockParts(hs: string, minutes: string, modifier: string)
    requires ':' !in hs && ':' !in minutes
    ensures ConvertParts(hs + ":" + minutes, modifier)
      == PadStart2(HourText(Hour24(ParseInt(hs), modifier))) + ":" + minutes
  {
    SplitAtFirst(hs, ':', minutes);
    SplitNoSeparator(minutes, ':');
    assert Split(hs + ":" + minutes, ':') == [hs, minutes];
  }

  /** The corrections on an hour that parsed: PM below 12 adds 12, 12 AM
      becomes 0, anything else stays; a non-negative hour stays
      non-negative and prints without a sign. */
  lemma Hour24Corrected(h: nat, modifier: string)
    ensures var corrected := if modifier == "PM" && h < 12 then h + 12
                             else if modifier == "AM" && h == 12 then 0 else h;
      Hour24(Some(h), modifier) == Some(corrected) && HourText(Some(corrected)) == NatToString(corrected)
  {
  }

  lemma DigitsHaveNoSeparator(s: string)
    requires AllDigits(s)
    ensures ' ' !in s && ':' !in s
  {
    forall i | 0 <= i < |s| ensures s[i] != ' ' && s[i] != ':' {
      assert IsDigit(s[i]);
    }
  }

  /** A clock time and a modifier, neither holding a space, are the two
      parts the conversion looks at. */
  lemma SplitClockTime(time: string, modifier: string)
    requires ' ' !in time && ' ' !in modifier
    ensures ConvertTo24Hour(Some(time + " " + modifier)) == ConvertParts(time, modifier)
  {
    var s := time + " " + modifier;
    assert s[|time|] == ' ';
    SplitAtFirst(time, ' ', modifier);
    SplitNoSeparator(modifier, ' ');
    assert Split(s, ' ') == [time, modifier];
  }

  /** On a well-formed clock time the corrected hour is a 24-hour hour
      whose 12-hour reading is the one it came from. */
  lemma Clock12OfHour24(h: int, modifier: string)
    requires 1 <= h <= 12 && (modifier == "AM" || modifier == "PM")
    ensures var c := Hour24(Some(h), modifier);
      c.Some? && 0 <= c.value < 24 && Clock12(c.value) == (h, modifier)
  {
  }

  /** For a well-formed clock time (hour 1 to 12, AM or PM) the result is
      `HH:mm` with a 24-hour hour below 24 whose 12-hour reading is the
      input's: the conversion loses nothing. */
  lemma ConvertClockTime(hs: string, minutes: string, modifier: string)
    requires |hs| >= 1 && AllDigits(hs) && 1 <= DigitsValue(hs) <= 12
    requires modifier == "AM" || modifier == "PM"
    requires ':' !in minutes && ' ' !in minutes
    ensures var r := ConvertTo24Hour(Some(hs + ":" + minutes + " " + modifier));
      && |r| == 3 + |minutes| && r[2] == ':' && r[3..] == minutes
      && AllDigits(r[..2]) && DigitsValue(r[..2]) < 24
      && Clock12(DigitsValue(r[..2])) == (DigitsValue(hs), modifier)
  {
    var h := DigitsValue(hs);
    ConvertDigitHour(hs, minutes, modifier);
    Hour24Corrected(h, modifier);
    Clock12OfHour24(h, modifier);
    PaddedHour(if modifier == "PM" && h < 12 then h + 12
               else if modifier == "AM" && h == 12 then 0 else h, minutes);
  }

  /** A padded hour below 24, ':' and the minutes. */
  lemma PaddedHour(n: nat, minutes: string)
    requires n < 24
    ensures var r := PadStart2(NatToString(n)) + ":" + minutes;
      && |r| == 3 + |minutes| && r[2] == ':' && r[3..] == minutes
      && AllDigits(r[..2]) && DigitsValue(r[..2]) == n
  {
    PadStart2TwoDigits(n);
    var hh := PadStart2(NatToString(n));
    assert (hh + ":" + minutes)[..2] == hh;
  }

  // ================================================================ team names

  /** Drops one space at the start, as the ` ?` after the dash does. */
  function DropSpace(s: string): (r: string)
    ensures |r| <= |s| && (r == s || r == s[1..])
  {
    if s != [] && s[0] == ' ' then s[1..] else s
  }

  /** `name.replace(/ ?- ?/g, ' ')`: every dash, with at most one space on
      either side, becomes a single space, scanning left to right. */
  function ReplaceDashes(s: string): (r: string)
    ensures '-' !in r
    decreases |s|
  {
    if s == [] then []
    else if s[0] == '-' then " " + ReplaceDashes(DropSpace(s[1..]))
    else if |s| >= 2 && s[0] == ' ' && s[1] == '-' then " " + ReplaceDashes(DropSpace(s[2..]))
    else [s[0]] + ReplaceDashes(s[1..])
  }

  /** The characters of `s` other than spaces and dashes, in order. */
  function Skeleton(s: string): string
  {
    if s == [] then []
    else if s[0] == ' ' || s[0] == '-' then Skeleton(s[1..])
    else [s[0]] + Skeleton(s[1..])
  }

  /** The dash rewrite touches only spaces and dashes: every other character
      survives, in order. */
  lemma {:induction false} ReplaceDashesKeepsSkeleton(s: string)
    ensures Skeleton(ReplaceDashes(s)) == Skeleton(s)
    decreases |s|
  {
    if s == [] {
    } else if s[0] == '-' {
      ReplaceDashesKeepsSkeleton(DropSpace(s[1..]));
      SkeletonDropSpace(s[1..]);
    } else if |s| >= 2 && s[0] == ' ' && s[1] == '-' {
      ReplaceDashesKeepsSkeleton(DropSpace(s[2..]));
      SkeletonDropSpace(s[2..]);
      assert s[1..][1..] == s[2..];
    } else {
      ReplaceDashesKeepsSkeleton(s[1..]);
    }
  }

  lemma SkeletonDropSpace(s: string)
    ensures Skeleton(DropSpace(s)) == Skeleton(s)
  {
  }

  /** A name without dashes is left as it is. */
  lemma {:induction false} ReplaceDashesNoDash(s: string)
    requires '-' !in s
    ensures ReplaceDashes(s) == s
  {
    if s != [] {
      ReplaceDashesNoDash(s[1..]);
      assert s == [s[0]] + s[1..];
    }
  }

  const ClubName := "ELI7E FC"

  /** `cleanEli7eTeamName`: `''` for a missing or empty name; otherwise the
      name with its dashes rewritten, the first "ELI7E FC" removed and the
      white space around it trimmed. The result holds no dash and neither
      starts nor ends with white space. */
  function CleanEli7eTeamName(name: Option<string>): (r: string)
    ensures (name.None? || name.value == "") ==> r == ""
    ensures '-' !in r
    ensures r == [] || (!IsWhitespace(r[0]) && !IsWhitespace(r[|r| - 1]))
  {
    if name.None? || name.value == "" then ""
    else
      Trim(RemoveFirst(ReplaceDashes(name.value), ClubName))
  }

  /** Characters before any dash pass through the dash rewrite unchanged,
      provided the last of them is not a space (which could pair with a
      following dash). */
  lemma {:induction false} ReplaceDashesPrefix(a: string, b: string)
    requires '-' !in a && (a == [] || a[|a| - 1] != ' ')
    ensures ReplaceDashes(a + b) == a + ReplaceDashes(b)
  {
    if a != [] {
      var s := a + b;
      assert s[0] == a[0] && s[1..] == a[1..] + b;
      assert a[0] != '-' by { assert a[0] in a; }
      if a[0] == ' ' {
        assert |a| >= 2 && s[1] == a[1];
        assert a[1] in a;
      }
      assert ReplaceDashes(s) == [a[0]] + ReplaceDashes(s[1..]);
      ReplaceDashesPrefix(a[1..], b);
      assert ReplaceDashes(s) == [a[0]] + (a[1..] + ReplaceDashes(b));
      assert a == [a[0]] + a[1..];
    } else {
      assert a + b == b;
    }
  }

  /** The usual form of the sheet's team cell, "ELI7E FC - " and the team,
      cleans to the team. */
  lemma CleanClubPrefix(team: string)
    requires '-' !in team
    requires team == [] || (!IsWhitespace(team[0]) && !IsWhitespace(team[|team| - 1]))
    ensures CleanEli7eTeamName(Some(ClubName + " - " + team)) == team
  {
    CleanHeadAndTeam(ClubName, team);
  }

  /** Dash rewrite, removal of the head and trimming of "head - team". */
  lemma CleanHeadAndTeam(head: string, team: string)
    requires '-' !in head && head != [] && head[|head| - 1] != ' '
    requires '-' !in team
    requires team == [] || (!IsWhitespace(team[0]) && !IsWhitespace(team[|team| - 1]))
    ensures Trim(RemoveFirst(ReplaceDashes(head + " - " + team), head)) == team
  {
    HeadRemoved(head, team);
    TrimLeadingSpace(team);
  }

  lemma HeadRemoved(head: string, team: string)
    requires '-' !in head && head != [] && head[|head| - 1] != ' '
    requires '-' !in team
    ensures RemoveFirst(ReplaceDashes(head + " - " + team), head) == " " + team
  {
    var s := ReplaceDashes(head + " - " + team);
    SpacedDash(head, team);
    RemoveFirstAtStart(head, " " + team);
    assert s == head + (" " + team);
  }

  lemma TrimLeadingSpace(team: string)
    requires team == [] || (!IsWhitespace(team[0]) && !IsWhitespace(team[|team| - 1]))
    ensures Trim(" " + team) == team
  {
    assert (" " + team)[1..] == team;
    assert TrimStart(" " + team) == TrimStart(team);
  }

  /** A spaced dash between a dash-free head and tail becomes one space. */
  lemma SpacedDash(head: string, team: string)
    requires '-' !in head && head != [] && head[|head| - 1] != ' '
    requires '-' !in team
    ensures ReplaceDashes(head + " - " + team) == head + (" " + team)
  {
    var tail := " - " + team;
    assert tail[2..] == " " + team;
    assert DropSpace(" " + team) == team;
    ReplaceDashesNoDash(team);
    assert ReplaceDashes(tail) == " " + team;
    ReplaceDashesPrefix(head, tail);
    assert head + " - " + team == head + tail;
  }

  /** Removing the first occurrence of a prefix removes that prefix. */
  lemma RemoveFirstAtStart(pat: string, rest: string)
    ensures RemoveFirst(pat + rest, pat) == rest
  {
    var t := pat + rest;
    assert t[0..|pat|] == pat;
    assert OccursAt(t, pat, 0);
    assert IndexOf(t, pat) == Some(0);
    assert t[|pat|..] == rest;
  }

  /** A club name without dashes or "ELI7E FC" is only trimmed. */
  lemma CleanPlainName(s: string)
    requires s != [] && '-' !in s && !Includes(s, ClubName)
    ensures CleanEli7eTeamName(Some(s)) == Trim(s)
  {
    ReplaceDashesNoDash(s);
  }

  // ================================================================ geocoding

  const NotApplicable := "Not applicable"

  /** The geocoding service, seen from the script: given how many requests
      went before and the address, the first candidate's `parseFloat`-ed
      `lat` and `lon`, or `None` when the request throws or finds nothing. */
  type Service = (nat, string) -> Option<(Number, Number)>

  /** The memo dictionary `geocodedCache` (a `null` entry is a remembered
      failure) and the log of the requests sent to the service. */
  datatype Memo = Memo(entries: map<string, Option<Coordinate>>, requests: seq<string>)

  /** `geocode` answers from the dictionary: only a non-null entry is a hit. */
  predicate IsHit(m: Memo, address: string) {
    address in m.entries && m.entries[address].Some?
  }

  /** `geocode(address)`. A falsy or "Not applicable" address gives `null`
      and changes nothing; a hit gives the entry and changes nothing;
      otherwise one request is sent, and a result with two non-NaN numbers
      is stored and returned while anything else stores and returns `null`;
      only the entry for `address` changes. */
  function Lookup(m: Memo, address: string, service: Service): (res: (Option<Coordinate>, Memo))
    ensures address == "" || address == NotApplicable ==> res == (None, m)
    ensures address != "" && address != NotApplicable && IsHit(m, address) ==>
      res == (m.entries[address], m)
    ensures address != "" && address != NotApplicable && !IsHit(m, address) ==>
      && res.1.requests == m.requests + [address]
      && res.1.entries == m.entries[address := res.0]
      && (res.0.Some? ==> !IsNaN(res.0.value.lat) && !IsNaN(res.0.value.lon))
      && (res.0.Some? <==> service(|m.requests|, address).Some?
                           && !IsNaN(service(|m.requests|, address).value.0)
                           && !IsNaN(service(|m.requests|, address).value.1))
      && (res.0.Some? ==> res.0.value == Coordinate(service(|m.requests|, address).value.0,
                                                     service(|m.requests|, address).value.1))
  {
    if address == "" || address == NotApplicable then (None, m)
    else if IsHit(m, address) then (m.entries[address], m)
    else
      var sent := m.requests + [address];
      match service(|m.requests|, address)
      case Some((lat, lon)) =>
        if !IsNaN(lat) && !IsNaN(lon) then
          var c := Some(Coordinate(lat, lon));
          (c, Memo(m.entries[address := c], sent))
        else (None, Memo(m.entries[address := None], sent))
      case None => (None, Memo(m.entries[address := None], sent))
  }

  /** A lookup never loses a coordinate the dictionary holds and never drops
      a key; it only appends to the request log. */
  lemma GeocodeMonotone(m: Memo, address: string, service: Service)
    ensures var m' := Lookup(m, address, service).1;
      && m.entries.Keys <= m'.entries.Keys
      && (forall a :: IsHit(m, a) ==> IsHit(m', a) && m'.entries[a] == m.entries[a])
      && m.requests <= m'.requests
  {
  }

  // ================================================================ rows

  /** `locationAddresses[locationName]` when it is truthy. */
  function Resolve(table: map<string, string>, location: string): (address: Option<string>)
    ensures address.Some? <==> location in table && table[location] != ""
    ensures address.Some? ==> address.value == table[location]
  {
    if location in table && table[location] != "" then Some(table[location]) else None
  }

  /** The record for a row whose venue resolved to `address` and whose
      address geocoded to `c`. A non-blank 'ELI7E Team' replaces each team
      name that contains "ELI7E" by its cleaned form, and only then is the
      game an ELI7E game. */
  function MakeRecord(row: Row, address: string, c: Coordinate): (g: Game)
    ensures g.matchId == row.matchId && g.date == row.date && g.time == row.time
    ensures g.location == row.location && g.address == address
    ensures g.division == row.division && g.coachName == row.coachName
    ensures g.time24 == ConvertTo24Hour(Some(row.time))
    ensures g.coords == Some(c)
    ensures g.isEli7eGame <==>
      Trim(row.eli7eTeam) != "" && (Includes(row.homeTeam, "ELI7E") || Includes(row.awayTeam, "ELI7E"))
    ensures g.eli7eTeamName.Some? <==> g.isEli7eGame
    ensures g.isEli7eGame ==> g.eli7eTeamName == Some(CleanEli7eTeamName(Some(row.eli7eTeam)))
    ensures g.homeTeam == if g.isEli7eGame && Includes(row.homeTeam, "ELI7E")
                          then CleanEli7eTeamName(Some(row.eli7eTeam)) else row.homeTeam
    ensures g.awayTeam == if g.isEli7eGame && Includes(row.awayTeam, "ELI7E")
                          then CleanEli7eTeamName(Some(row.eli7eTeam)) else row.awayTeam
  {
    var named := row.eli7eTeam != "" && Trim(row.eli7eTeam) != "";
    var cleaned := CleanEli7eTeamName(Some(row.eli7eTeam));
    var home := named && Includes(row.homeTeam, "ELI7E");
    var away := named && Includes(row.awayTeam, "ELI7E");
    var isEli7eGame := home || away;
    Game(
      matchId := row.matchId, date := row.date, time := row.time,
      time24 := ConvertTo24Hour(Some(row.time)),
      homeTeam := if home then cleaned else row.homeTeam,
      awayTeam := if away then cleaned else row.awayTeam,
      location := row.location, address := address,
      division := row.division, coachName := row.coachName,
      isEli7eGame := isEli7eGame,
      eli7eTeamName := if isEli7eGame then Some(cleaned) else None,
      coords := Some(c))
  }

  /** One pass of the `for await` loop: a row yields a record exactly when
      its venue resolves and the address geocodes; a row whose venue does
      not resolve leaves the dictionary alone. */
  function EnrichRow(row: Row, table: map<string, string>, m: Memo, service: Service): (res: (Option<Game>, Memo))
    ensures Resolve(table, row.location).None? ==> res == (None, m)
    ensures Resolve(table, row.location).Some? ==>
      var address := Resolve(table, row.location).value;
      var looked := Lookup(m, address, service);
      && res.1 == looked.1
      && (res.0.Some? <==> looked.0.Some?)
      && (res.0.Some? ==> res.0.value == MakeRecord(row, address, looked.0.value))
  {
    match Resolve(table, row.location)
    case None => (None, m)
    case Some(address) =>
      var looked := Lookup(m, address, service);
      if looked.0.Some? then (Some(MakeRecord(row, address, looked.0.value)), looked.1)
      else (None, looked.1)
  }

  /** The whole loop, row by row: the records in row order and the
      dictionary and request log at the end. Each row pushes at most one
      record and sends at most one request. */
  function Enrich(rows: seq<Row>, table: map<string, string>, m: Memo, service: Service): (res: (seq<Game>, Memo))
    ensures |res.0| <= |rows|
    ensures |m.requests| <= |res.1.requests| <= |m.requests| + |rows|
    decreases |rows|
  {
    if rows == [] then ([], m)
    else
      var before := Enrich(rows[..|rows| - 1], table, m, service);
      var step := EnrichRow(rows[|rows| - 1], table, before.1, service);
      (before.0 + Emitted(step.0), step.1)
  }

  /** The records a step pushes: none or one. */
  function Emitted(g: Option<Game>): (out: seq<Game>)
    ensures |out| <= 1 && (out != [] <==> g.Some?) && (g.Some? ==> out == [g.value])
  {
    if g.Some? then [g.value] else []
  }

  /** The cells a record copies from its row unchanged. */
  function RowKey(r: Row): (string, string, string, string, string, string)
  {
    (r.matchId, r.date, r.time, r.location, r.division, r.coachName)
  }

  function GameKey(g: Game): (string, string, string, string, string, string)
  {
    (g.matchId, g.date, g.time, g.location, g.division, g.coachName)
  }

  /** The records come out in row order, one per emitting row, each with
      its row's cells. */
  lemma {:induction false} EnrichKeepsRowOrder(rows: seq<Row>, table: map<string, string>, m: Memo, service: Service)
    ensures Subsequence(Map(Enrich(rows, table, m, service).0, GameKey), Map(rows, RowKey))
    decreases |rows|
  {
    if rows != [] {
      var init := rows[..|rows| - 1];
      var row := rows[|rows| - 1];
      EnrichKeepsRowOrder(init, table, m, service);
      var before := Enrich(init, table, m, service);
      var step := EnrichRow(row, table, before.1, service);
      LastSplit(rows);
      EnrichRowKeepsKey(row, table, before.1, service);
      KeysStep(before.0, init, row, step.0);
    }
  }

  /** A record made from a row carries that row's cells. */
  lemma EnrichRowKeepsKey(row: Row, table: map<string, string>, m: Memo, service: Service)
    ensures var g := EnrichRow(row, table, m, service).0;
      g.Some? ==> GameKey(g.value) == RowKey(row)
  {
  }

  /** One more row keeps the records' cells a subsequence of the rows'
      cells, when what it emits carries that row's cells. */
  lemma KeysStep(games: seq<Game>, rows: seq<Row>, row: Row, emitted: Option<Game>)
    requires Subsequence(Map(games, GameKey), Map(rows, RowKey))
    requires emitted.Some? ==> GameKey(emitted.value) == RowKey(row)
    ensures Subsequence(Map(games + Emitted(emitted), GameKey), Map(rows + [row], RowKey))
  {
    MapSnoc(rows, row, RowKey);
    if emitted.Some? {
      MapSnoc(games, emitted.value, GameKey);
      SubsequenceSnoc(Map(games, GameKey), Map(rows, RowKey), RowKey(row));
    } else {
      assert games + Emitted(emitted) == games;
      SubsequenceExtend(Map(games, GameKey), Map(rows, RowKey), RowKey(row));
    }
  }

  /** An address `geocode` will look up: resolved, and not the placeholder. */
  predicate Geocodable(table: map<string, string>, row: Row) {
    Resolve(table, row.location).Some? && Resolve(table, row.location).value != NotApplicable
  }

  /** Every row's address is a hit in the dictionary. */
  predicate Warm(rows: seq<Row>, table: map<string, string>, m: Memo) {
    forall i :: 0 <= i < |rows| && Geocodable(table, rows[i]) ==>
      IsHit(m, Resolve(table, rows[i].location).value)
  }

  /** With a warm dictionary a run sends no request, leaves the dictionary
      as it was, and emits one record for every row with a geocodable
      address: re-running over the same rows is free and repeatable. */
  lemma {:induction false} EnrichWarm(rows: seq<Row>, table: map<string, string>, m: Memo, service: Service)
    requires Warm(rows, table, m)
    ensures Enrich(rows, table, m, service).1 == m
    ensures |Enrich(rows, table, m, service).0| == |Filter(rows, r => Geocodable(table, r))|
    decreases |rows|
  {
    if rows != [] {
      var init := rows[..|rows| - 1];
      var row := rows[|rows| - 1];
      assert Warm(init, table, m) by {
        forall i | 0 <= i < |init| && Geocodable(table, init[i])
          ensures IsHit(m, Resolve(table, init[i].location).value)
        {
          assert init[i] == rows[i];
        }
      }
      EnrichWarm(init, table, m, service);
      LastSplit(rows);
      FilterAppend(init, [row], r => Geocodable(table, r));
    }
  }

  /** After a run every geocodable address of the rows has an entry, coordinate
      or `null`: each attempt is remembered. Coordinates held at the start are
      kept, and the log only grows. */
  lemma {:induction false} EnrichRemembers(rows: seq<Row>, table: map<string, string>, m: Memo, service: Service)
    ensures var m' := Enrich(rows, table, m, service).1;
      && (forall i :: 0 <= i < |rows| && Geocodable(table, rows[i]) ==>
            Resolve(table, rows[i].location).value in m'.entries)
      && m.entries.Keys <= m'.entries.Keys
      && (forall a :: IsHit(m, a) ==> IsHit(m', a) && m'.entries[a] == m.entries[a])
      && m.requests <= m'.requests
    decreases |rows|
  {
    if rows != [] {
      var init := rows[..|rows| - 1];
      var row := rows[|rows| - 1];
      EnrichRemembers(init, table, m, service);
      var m1 := Enrich(init, table, m, service).1;
      var m' := Enrich(rows, table, m, service).1;
      if Resolve(table, row.location).Some? {
        GeocodeMonotone(m1, Resolve(table, row.location).value, service);
      }
      forall i | 0 <= i < |rows| && Geocodable(table, rows[i])
        ensures Resolve(table, rows[i].location).value in m'.entries
      {
        if i < |init| {
          assert rows[i] == init[i];
        }
      }
    }
  }

  // ================================================================ the script

  /** The module-level `geocodedCache` together with the requests the
      script sends while it runs. */
  class GeocodeCache {
    var entries: map<string, Option<Coordinate>>
    var requests: seq<string>

    /** The dictionary as loaded from `geocache.json` (empty when the file
        is missing or unreadable). */
    constructor (loaded: map<string, Option<Coordinate>>)
      ensures entries == loaded && requests == []
    {
      entries := loaded;
      requests := [];
    }

    function State(): Memo
      reads this
    {
      Memo(entries, requests)
    }

    /** `geocode`, updating the dictionary in place. */
    method Geocode(address: string, service: Service) returns (coords: Option<Coordinate>)
      modifies this
      ensures (coords, State()) == Lookup(old(State()), address, service)
    {
      if address == "" || address == NotApplicable {
        return None;
      }
      if address in entries && entries[address].Some? {
        return entries[address];
      }
      var answer := service(|requests|, address);
      requests := requests + [address];
      if answer.Some? && !IsNaN(answer.value.0) && !IsNaN(answer.value.1) {
        coords := Some(Coordinate(answer.value.0, answer.value.1));
        entries := entries[address := coords];
        return coords;
      }
      entries := entries[address := None];
      return None;
    }
  }

  /** `processData` after the feed has been fetched and parsed: each row in
      turn is resolved, geocoded through `cache`, and pushed as a record. */
  method ProcessData(cache: GeocodeCache, rows: seq<Row>, table: map<string, string>, service: Service)
    returns (allGames: seq<Game>)
    modifies cache
    ensures (allGames, cache.State()) == Enrich(rows, table, old(cache.State()), service)
  {
    allGames := [];
    var i := 0;
    while i < |rows|
      invariant 0 <= i <= |rows|
      invariant (allGames, cache.State()) == Enrich(rows[..i], table, old(cache.State()), service)
    {
      var row := rows[i];
      assert rows[..i + 1][..i] == rows[..i];
      ghost var before := cache.State();
      ghost var step := EnrichRow(row, table, before, service);
      var address := Resolve(table, row.location);
      if address.Some? {
        var coords := cache.Geocode(address.value, service);
        if coords.Some? {
          allGames := allGames + [MakeRecord(row, address.value, coords.value)];
        }
        assert allGames == Enrich(rows[..i], table, old(cache.State()), service).0 + Emitted(step.0);
      }
      assert cache.State() == step.1;
      assert rows[..i + 1][i] == row;
      assert allGames == Enrich(rows[..i], table, old(cache.State()), service).0 + Emitted(step.0);
      i := i + 1;
    }
    assert rows[..|rows|] == rows;
  }
}
