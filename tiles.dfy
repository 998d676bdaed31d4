/**
 * Tile logic shared by `MuseumManager` and the older `CustomMuseum`: which
 * tiles accept a donation, the scan for a free donation spot, and the
 * directional search used when rearranging.
 */
module Tiles {
  import opened Wrappers
  import opened Text
  import opened Models

  /**
   * The parts of a location's map that the core reads: the Buildings-layer
   * tile index per tile, the tile's own properties, the properties the
   * location reports for a tile when the tile itself has none (tile sheet and
   * map data), the `Action` property already split by spaces, and the size of
   * the first layer.
   */
  datatype Layout = Layout(
    buildings: map<Tile, int>,
    tileProperties: map<Tile, map<string, string>>,
    fallbackProperties: map<Tile, map<string, string>>,
    actions: map<Tile, seq<string>>,
    width: int,
    height: int)

  /** `getTileIndexAt(point, "Buildings")`: -1 where the layer has no tile. */
  function BuildingsIndex(layout: Layout, t: Tile): int {
    if t in layout.buildings then layout.buildings[t] else -1
  }

  /** The Buildings-layer indices of the pedestal tiles. */
  predicate IsPedestalIndex(index: int) {
    index == 1073 || index == 1074 || index == 1072 || index == 1237 || index == 1238
  }

  /** A Buildings-layer property: the tile's own value first, else the location's fallback lookup. */
  function PropertyValue(layout: Layout, t: Tile, name: string): Option<string> {
    if t in layout.tileProperties && name in layout.tileProperties[t] then Some(layout.tileProperties[t][name])
    else if t in layout.fallbackProperties && name in layout.fallbackProperties[t] then Some(layout.fallbackProperties[t][name])
    else None
  }

  /** `IsTileDonationSpot`: the named property equals "DonationSpot", ignoring case. */
  predicate IsTileDonationSpot(layout: Layout, propertyName: string, t: Tile) {
    var v := PropertyValue(layout, t, propertyName);
    v.Some? && EqualsIgnoreCase(v.value, "DonationSpot")
  }

  /** The property name `MuseumManager` reads. */
  const ManagerSpotProperty: string := "Spiderbuttons.CMF"
  /** The property name the older `CustomMuseum` reads. */
  const LegacySpotProperty: string := "Spiderbuttons.CustomMuseumFramework"

  /** `IsTileSuitableForMuseumItem`: an unoccupied pedestal or donation-spot tile. */
  predicate IsTileSuitableForMuseumItem(layout: Layout, occupied: set<Tile>, propertyName: string, t: Tile) {
    t !in occupied && (IsPedestalIndex(BuildingsIndex(layout, t)) || IsTileDonationSpot(layout, propertyName, t))
  }

  /** An occupied tile never accepts a donation; an unoccupied one does exactly on a pedestal or a donation spot. */
  lemma SuitableTileCases(layout: Layout, occupied: set<Tile>, propertyName: string, t: Tile)
    ensures t in occupied ==> !IsTileSuitableForMuseumItem(layout, occupied, propertyName, t)
    ensures t !in occupied && t in layout.buildings && layout.buildings[t] in {1072, 1073, 1074, 1237, 1238}
            ==> IsTileSuitableForMuseumItem(layout, occupied, propertyName, t)
    ensures t !in occupied && t !in layout.buildings
            ==> (IsTileSuitableForMuseumItem(layout, occupied, propertyName, t)
                 <==> IsTileDonationSpot(layout, propertyName, t))
  {
  }

  /** The property value is compared without regard to letter case. */
  lemma DonationSpotIgnoresCase(layout: Layout, propertyName: string, t: Tile)
    requires t in layout.tileProperties && propertyName in layout.tileProperties[t]
    requires layout.tileProperties[t][propertyName] == "DONATIONSPOT"
    ensures IsTileDonationSpot(layout, propertyName, t)
  {
    assert Lower("DONATIONSPOT") == Lower("DonationSpot");
  }

  // ---------------------------------------------------------------------------
  // The free-spot scan
  // ---------------------------------------------------------------------------

  /** The tiles the free-spot scan visits: both ranges include `Right` and `Bottom`. */
  predicate InScan(bounds: Rect, t: Tile) {
    bounds.x <= t.x <= bounds.Right() && bounds.y <= t.y <= bounds.Bottom()
  }

  /** Column-major visiting order: x in the outer loop, y in the inner one. */
  predicate ScanBefore(a: Tile, b: Tile) {
    a.x < b.x || (a.x == b.x && a.y < b.y)
  }

  /**
   * `GetFreeDonationSpot`: the first tile in scan order that `suitable` accepts,
   * or None when no tile of the scanned area does.
   */
  method GetFreeDonationSpot(bounds: Rect, suitable: Tile -> bool) returns (r: Option<Tile>)
    ensures r.Some? ==> InScan(bounds, r.value) && suitable(r.value)
    ensures r.Some? ==> forall t :: InScan(bounds, t) && ScanBefore(t, r.value) ==> !suitable(t)
    ensures r.None? <==> forall t :: InScan(bounds, t) ==> !suitable(t)
  {
    var x := bounds.x;
    while x <= bounds.Right()
      invariant bounds.x <= x || bounds.Right() < bounds.x
      invariant forall t :: InScan(bounds, t) && t.x < x ==> !suitable(t)
      decreases bounds.Right() - x
    {
      var y := bounds.y;
      while y <= bounds.Bottom()
        invariant forall t :: InScan(bounds, t) && (t.x < x || (t.x == x && t.y < y)) ==> !suitable(t)
        decreases bounds.Bottom() - y
      {
        if suitable(Tile(x, y)) {
          return Some(Tile(x, y));
        }
        y := y + 1;
      }
      x := x + 1;
    }
    return None;
  }

  /** The scan reaches the bottom-right corner: a rectangle whose only suitable tile is there yields it. */
  lemma ScanIncludesCorner(bounds: Rect, suitable: Tile -> bool)
    requires bounds.width >= 0 && bounds.height >= 0
    requires forall t :: suitable(t) <==> t == Tile(bounds.Right(), bounds.Bottom())
    ensures !(forall t :: InScan(bounds, t) ==> !suitable(t))
  {
    assert InScan(bounds, Tile(bounds.Right(), bounds.Bottom()));
  }

  // ---------------------------------------------------------------------------
  // The directional search
  // ---------------------------------------------------------------------------

  /** The step for a facing direction: 0 up, 1 right, 2 down, 3 left, anything else no movement. */
  function Offset(direction: int): (d: Tile)
    ensures 0 <= direction <= 3 ==> (d.x == 0) != (d.y == 0)
    ensures 0 <= direction <= 3 ==> -1 <= d.x <= 1 && -1 <= d.y <= 1
    ensures !(0 <= direction <= 3) ==> d == Tile(0, 0)
  {
    if direction == 0 then Tile(0, -1)
    else if direction == 1 then Tile(1, 0)
    else if direction == 2 then Tile(0, 1)
    else if direction == 3 then Tile(-1, 0)
    else Tile(0, 0)
  }

  /** The perpendicular shift applied after row `k`: sign -1 for even k, +1 for odd k, magnitude k/2 + 1. */
  function RowShift(k: nat): int {
    (if k % 2 != 0 then 1 else -1) * (k / 2 + 1)
  }

  /** Successive rows start -1, +1, -2, +2, ... away from the starting tile. */
  lemma RowShiftSequence(m: nat)
    ensures RowShift(2 * m) == -(m + 1)
    ensures RowShift(2 * m + 1) == m + 1
  {
  }

  /** No two rows share a start and no row after the first starts on the starting line. */
  lemma RowShiftInjective(a: nat, b: nat)
    ensures RowShift(a) != 0
    ensures RowShift(a) == RowShift(b) ==> a == b
  {
    if RowShift(a) == RowShift(b) {
      assert (a % 2 != 0) == (b % 2 != 0);
      assert a / 2 == b / 2;
    }
  }

  /** The tile the search starts row `j` from. */
  function RowStart(start: Tile, direction: int, j: nat): Tile {
    if j == 0 then start
    else if direction == 0 || direction == 2 then Tile(start.x + RowShift(j - 1), start.y)
    else if direction == 1 || direction == 3 then Tile(start.x, start.y + RowShift(j - 1))
    else start
  }

  /** The `i`-th probe of row `j`: `i + 1` steps from the row's start. */
  function Probe(start: Tile, direction: int, j: nat, i: nat): Tile {
    var s := RowStart(start, direction, j);
    var d := Offset(direction);
    Tile(s.x + (i + 1) * d.x, s.y + (i + 1) * d.y)
  }

  /** Every probe of rows 0..j-1 and of row j before `i` misses. */
  ghost predicate MissedBefore(start: Tile, direction: int, distance: int, hit: Tile -> bool, j: nat, i: nat) {
    forall jj: nat, ii: nat :: ii < distance && (jj < j || (jj == j && ii < i)) ==> !hit(Probe(start, direction, jj, ii))
  }

  /** Each probe is one step past the previous one in its row. */
  lemma ProbeStep(start: Tile, direction: int, j: nat, i: nat)
    ensures Probe(start, direction, j, 0) == Tile(RowStart(start, direction, j).x + Offset(direction).x,
                                                   RowStart(start, direction, j).y + Offset(direction).y)
    ensures Probe(start, direction, j, i + 1) == Tile(Probe(start, direction, j, i).x + Offset(direction).x,
                                                       Probe(start, direction, j, i).y + Offset(direction).y)
  {
    var d := Offset(direction);
    assert (i + 2) * d.x == (i + 1) * d.x + d.x;
    assert (i + 2) * d.y == (i + 1) * d.y + d.y;
  }

  /**
   * `FindMuseumPieceLocationInDirection`: `hit` is the test the caller applies
   * to each probed tile (suitable, or occupied when existing items are not
   * ignored). The probes are indexed by row `j` and step `i`, both below
   * `distance`; the result is the first probe that hits, in row order, or the
   * starting tile when none does.
   */
  method FindMuseumPieceLocationInDirection(start: Tile, direction: int, distance: int, hit: Tile -> bool)
    returns (r: Tile)
    ensures (r == start && MissedBefore(start, direction, distance, hit, if distance > 0 then distance else 0, 0))
         || (exists j: nat, i: nat :: j < distance && i < distance && r == Probe(start, direction, j, i)
              && hit(r) && MissedBefore(start, direction, distance, hit, j, i))
  {
    var offset := Offset(direction);
    var check := start;
    var j := 0;
    while j < distance
      invariant 0 <= j && (j <= distance || distance <= 0)
      invariant check == RowStart(start, direction, j)
      invariant MissedBefore(start, direction, distance, hit, j, 0)
    {
      var i := 0;
      while i < distance
        invariant 0 <= i <= distance
        invariant i > 0 ==> check == Probe(start, direction, j, i - 1)
        invariant i == 0 ==> check == RowStart(start, direction, j)
        invariant MissedBefore(start, direction, distance, hit, j, i)
      {
        ProbeStep(start, direction, j, if i > 0 then i - 1 else 0);
        check := Tile(check.x + offset.x, check.y + offset.y);
        assert check == Probe(start, direction, j, i);
        if hit(check) {
          return check;
        }
        i := i + 1;
      }
      assert MissedBefore(start, direction, distance, hit, j + 1, 0);
      check := start;
      var sign := if j % 2 != 0 then 1 else -1;
      if direction == 0 || direction == 2 {
        check := Tile(check.x + sign * (j / 2 + 1), check.y);
      } else if direction == 1 || direction == 3 {
        check := Tile(check.x, check.y + sign * (j / 2 + 1));
      }
      j := j + 1;
    }
    return start;
  }

  /** For a direction outside 0..3 every probe is the starting tile, so the search returns it. */
  lemma UnknownDirectionStaysPut(start: Tile, direction: int, j: nat, i: nat)
    requires !(0 <= direction <= 3)
    ensures Probe(start, direction, j, i) == start
  {
  }

  /** How far row `j` starts from the starting line. */
  function RowOffset(j: nat): int {
    if j == 0 then 0 else RowShift(j - 1)
  }

  /** Distinct rows start at distinct offsets. */
  lemma RowOffsetInjective(j1: nat, j2: nat)
    ensures RowOffset(j1) == RowOffset(j2) ==> j1 == j2
  {
    if j1 > 0 {
      RowShiftInjective(j1 - 1, if j2 > 0 then j2 - 1 else 0);
    }
    if j2 > 0 {
      RowShiftInjective(j2 - 1, j2 - 1);
    }
  }

  /** In a known direction no tile is probed twice. */
  lemma ProbesDistinct(start: Tile, direction: int, j1: nat, i1: nat, j2: nat, i2: nat)
    requires 0 <= direction <= 3
    requires Probe(start, direction, j1, i1) == Probe(start, direction, j2, i2)
    ensures j1 == j2 && i1 == i2
  {
    var d := Offset(direction);
    RowOffsetInjective(j1, j2);
    if direction == 0 || direction == 2 {
      assert RowStart(start, direction, j1).x == start.x + RowOffset(j1);
      assert RowStart(start, direction, j2).x == start.x + RowOffset(j2);
      assert (i1 + 1) * d.y == (i2 + 1) * d.y;
    } else {
      assert RowStart(start, direction, j1).y == start.y + RowOffset(j1);
      assert RowStart(start, direction, j2).y == start.y + RowOffset(j2);
      assert (i1 + 1) * d.x == (i2 + 1) * d.x;
    }
  }
}
