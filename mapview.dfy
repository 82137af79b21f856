/** The marker layout of the map view: games are grouped by address, each
    address is split into its distinct venue names, and each venue gets a
    marker with a game count, a highlight flag, a position fanned out
    around the shared address, and an optional tooltip of ELI7E games. */
module MapView {
  import opened Wrappers
  import opened JsString
  import opened JsNumber
  import opened Seqs
  import opened Records

  predicate IsEli7e(g: Game) { g.isEli7eGame }

  /** `gamesByAddress` read as its entries: one bucket per distinct
      address, in the order the addresses first occur, each holding exactly
      the games with that address in their original order. */
  function GamesByAddress(games: seq<Game>): (buckets: seq<(string, seq<Game>)>)
    ensures Distinct(Keys(buckets))
    ensures Keys(buckets) == Dedup(Map(games, AddressOf))
    ensures forall i :: 0 <= i < |buckets| ==>
      buckets[i].1 == WithKey(games, AddressOf, buckets[i].0)
  {
    GroupByCorrect(games, AddressOf);
    GroupBy(games, AddressOf)
  }

  /** Every game lies in exactly one bucket, the one for its address. */
  lemma GamesByAddressPartition(games: seq<Game>, g: Game)
    requires g in games
    ensures g.address in Keys(GamesByAddress(games))
    ensures forall i :: 0 <= i < |GamesByAddress(games)| ==>
      (g in GamesByAddress(games)[i].1 <==> GamesByAddress(games)[i].0 == g.address)
  {
    GroupByPartition(games, AddressOf, g);
  }

  /** `uniqueLocations`: the venue names of a bucket, each once. */
  function UniqueLocations(bucket: seq<Game>): (names: seq<string>)
    ensures Distinct(names)
    ensures forall name :: name in names <==> name in Map(bucket, LocationOf)
  {
    Dedup(Map(bucket, LocationOf))
  }

  /** The venue names come in the order of their first game in the bucket. */
  lemma UniqueLocationsOrder(bucket: seq<Game>)
    ensures var names := UniqueLocations(bucket);
      forall i, j :: 0 <= i < j < |names| ==>
        FirstIndex(Map(bucket, LocationOf), names[i]) < FirstIndex(Map(bucket, LocationOf), names[j])
  {
    DedupOrder(Map(bucket, LocationOf));
  }

  /** `locationGames`: the games of the bucket at one venue, in order. */
  function LocationGames(bucket: seq<Game>, name: string): (here: seq<Game>)
    ensures forall g :: g in here <==> g in bucket && g.location == name
    ensures Subsequence(here, bucket)
    ensures forall g :: multiset(here)[g] == if g.location == name then multiset(bucket)[g] else 0
  {
    WithKeyMembers(bucket, LocationOf, name);
    WithKeySubsequence(bucket, LocationOf, name);
    WithKeyCounts(bucket, LocationOf, name);
    WithKey(bucket, LocationOf, name)
  }

  /** A venue name taken from the bucket has at least one game, so the
      `locationGames.length === 0` guard never fires. */
  lemma LocationGamesNonEmpty(bucket: seq<Game>, name: string)
    requires name in UniqueLocations(bucket)
    ensures |LocationGames(bucket, name)| >= 1
  {
    var i :| 0 <= i < |bucket| && Map(bucket, LocationOf)[i] == name;
    assert bucket[i] in LocationGames(bucket, name);
  }

  /** The marker guard: coordinates present and neither of them NaN. */
  predicate HasCoords(g: Game) {
    g.coords.Some? && !IsNaN(g.coords.value.lat) && !IsNaN(g.coords.value.lon)
  }

  /** Where a marker goes: on the coordinates, or offset from them at an
      angle in degrees (the offset itself is 0.001 degrees of arc). */
  datatype Position = At(point: Coordinate) | Around(center: Coordinate, angle: real)

  /** A venue marker: its name, the number on its icon, whether it uses the
      highlighted icon, its position, and the games its permanent tooltip
      lists when it has one. */
  datatype Marker = Marker(
    location: string, count: nat, highlighted: bool,
    position: Position, tooltip: Option<seq<Game>>)

  /** The angle of the venue at `index` among `total` at one address. */
  function Angle(total: nat, index: nat): real
    requires total > 0
  {
    (360.0 / total as real) * index as real
  }

  /** The fan-out angles of the venues at one address are distinct and lie
      in [0, 360). */
  lemma AnglesDistinct(total: nat, i: nat, j: nat)
    requires i < total && j < total && i != j
    ensures 0.0 <= Angle(total, i) < 360.0
    ensures Angle(total, i) != Angle(total, j)
  {
    var step := 360.0 / total as real;
    assert step * total as real == 360.0;
    assert step > 0.0;
    assert step * i as real < step * total as real;
    if i < j {
      assert step * i as real < step * j as real;
    } else {
      assert step * j as real < step * i as real;
    }
  }

  /** The venues at one address are spread evenly around the circle: the
      first sits at 0 degrees, neighbours are `360 / total` apart, and the
      gap from the last back to the first is that same step. */
  lemma AnglesEvenlySpaced(total: nat, i: nat)
    requires i + 1 < total
    ensures Angle(total, 0) == 0.0
    ensures Angle(total, i + 1) - Angle(total, i) == 360.0 / total as real
    ensures 360.0 - Angle(total, total - 1) == 360.0 / total as real
  {
    var step := 360.0 / total as real;
    assert step * total as real == 360.0;
    assert step * (i + 1) as real == step * i as real + step;
    assert step * (total - 1) as real == step * total as real - step;
  }

  /** The marker for the venue at `index` of a bucket, or `None` when it
      renders nothing. */
  function VenueMarker(bucket: seq<Game>, index: nat, locationFilter: string, showAwaySummaries: bool)
    : (m: Option<Marker>)
    requires index < |UniqueLocations(bucket)|
    ensures var name := UniqueLocations(bucket)[index];
      |LocationGames(bucket, name)| >= 1
    ensures var name := UniqueLocations(bucket)[index];
      var here := LocationGames(bucket, name);
      && (m.None? <==> !HasCoords(here[0]))
      && (m.Some? ==>
        && m.value.location == name
        && m.value.count == |here|
        && (m.value.highlighted <==> locationFilter == name)
        && (|UniqueLocations(bucket)| == 1 ==> m.value.position == At(here[0].coords.value))
        && (|UniqueLocations(bucket)| > 1 ==>
              m.value.position == Around(here[0].coords.value, Angle(|UniqueLocations(bucket)|, index)))
        && (m.value.tooltip.Some? <==>
              showAwaySummaries && !Includes(name, "Sweetwater") && exists g :: g in here && g.isEli7eGame)
        && (m.value.tooltip.Some? ==> m.value.tooltip.value == Filter(here, IsEli7e)))
  {
    var names := UniqueLocations(bucket);
    var name := names[index];
    LocationGamesNonEmpty(bucket, name);
    var here := LocationGames(bucket, name);
    if |here| == 0 then None
    else
      var coords := here[0].coords;
      if !HasCoords(here[0]) then None
      else
        var position := if |names| > 1 then Around(coords.value, Angle(|names|, index)) else At(coords.value);
        var isSweetwater := Includes(name, "Sweetwater");
        var eli7eGames := Filter(here, IsEli7e);
        FilterMembers(here, IsEli7e);
        var tooltip := if showAwaySummaries && !isSweetwater && |eli7eGames| > 0 then Some(eli7eGames) else None;
        assert |eli7eGames| > 0 <==> exists g :: g in here && g.isEli7eGame by {
          if |eli7eGames| > 0 {
            assert eli7eGames[0] in eli7eGames;
          }
        }
        Some(Marker(name, |here|, locationFilter == name, position, tooltip))
  }

  /** The markers of one address, one slot per venue in venue order. */
  function AddressMarkers(bucket: seq<Game>, locationFilter: string, showAwaySummaries: bool)
    : (ms: seq<Option<Marker>>)
    ensures |ms| == |UniqueLocations(bucket)|
    ensures forall i :: 0 <= i < |ms| ==> ms[i] == VenueMarker(bucket, i, locationFilter, showAwaySummaries)
  {
    var names := UniqueLocations(bucket);
    seq(|names|, i requires 0 <= i < |names| => VenueMarker(bucket, i, locationFilter, showAwaySummaries))
  }

  /** The whole map: the markers of each address, in address order. */
  function Layout(games: seq<Game>, locationFilter: string, showAwaySummaries: bool)
    : (layout: seq<seq<Option<Marker>>>)
    ensures |layout| == |GamesByAddress(games)|
    ensures forall i :: 0 <= i < |layout| ==>
      layout[i] == AddressMarkers(GamesByAddress(games)[i].1, locationFilter, showAwaySummaries)
  {
    var buckets := GamesByAddress(games);
    seq(|buckets|, i requires 0 <= i < |buckets| => AddressMarkers(buckets[i].1, locationFilter, showAwaySummaries))
  }

  /** The venue counts of an address add up to the games at that address:
      every game is counted on exactly one marker slot. */
  lemma VenueCountsSumToBucket(bucket: seq<Game>)
    ensures SumOfCounts(bucket, LocationOf, UniqueLocations(bucket)) == |bucket|
  {
    var names := UniqueLocations(bucket);
    forall i | 0 <= i < |bucket| ensures LocationOf(bucket[i]) in names {
      assert Map(bucket, LocationOf)[i] == LocationOf(bucket[i]);
    }
    SumOfCountsIsLength(bucket, LocationOf, names);
  }

  /** A tooltip lists only ELI7E games of its own venue and address, every
      such game, and in their original order. */
  lemma TooltipListsVenueEli7eGames(
    games: seq<Game>, b: nat, index: nat, locationFilter: string, showAwaySummaries: bool)
    requires b < |GamesByAddress(games)|
    requires index < |UniqueLocations(GamesByAddress(games)[b].1)|
    requires var m := VenueMarker(GamesByAddress(games)[b].1, index, locationFilter, showAwaySummaries);
      m.Some? && m.value.tooltip.Some?
    ensures var bucket := GamesByAddress(games)[b];
      var m := VenueMarker(bucket.1, index, locationFilter, showAwaySummaries).value;
      && (forall g :: g in m.tooltip.value <==>
            g in games && g.isEli7eGame && g.address == bucket.0 && g.location == m.location)
      && Subsequence(m.tooltip.value, LocationGames(bucket.1, m.location))
  {
    var bucket := GamesByAddress(games)[b];
    var m := VenueMarker(bucket.1, index, locationFilter, showAwaySummaries).value;
    var here := LocationGames(bucket.1, m.location);
    FilterMembers(here, IsEli7e);
    FilterSubsequence(here, IsEli7e);
    WithKeyMembers(games, AddressOf, bucket.0);
  }

  /** A Sweetwater venue keeps its own marker; only its tooltip is
      suppressed. */
  lemma SweetwaterHasNoTooltip(bucket: seq<Game>, index: nat, locationFilter: string, showAwaySummaries: bool)
    requires index < |UniqueLocations(bucket)|
    requires Includes(UniqueLocations(bucket)[index], "Sweetwater")
    ensures var m := VenueMarker(bucket, index, locationFilter, showAwaySummaries);
      m.Some? ==> m.value.tooltip.None? && m.value.location == UniqueLocations(bucket)[index]
  {
  }
}
