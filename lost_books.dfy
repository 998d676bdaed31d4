/**
 * The lost-book bookkeeping of `MuseumManager`: the location's counters of found
 * books, and the table of lost-book tiles declared by the map's `Action`
 * properties.
 */
module LostBooks {
  import opened Wrappers
  import opened Text
  import opened Models
  import Tiles

  const TotalLostBooksKey: string := "Spiderbuttons.CMF_TotalLostBooks"

  /** The location counter of one bookset. */
  function LostBooksKey(booksetId: string): string {
    "Spiderbuttons.CMF_LostBooks_" + booksetId
  }

  /** A bookset's counter is never the total counter. */
  lemma LostBookKeysDistinct(booksetId: string)
    ensures LostBooksKey(booksetId) != TotalLostBooksKey
  {
    assert LostBooksKey(booksetId)[18] == 'L';
    assert TotalLostBooksKey[18] == 'T';
  }

  /**
   * One counter step: a missing counter is written as "1"; otherwise the stored
   * number plus one, wrapping as Int32 does, is written back. None when the stored
   * text is not an Int32.
   */
  function BumpCounter(modData: map<string, string>, key: string): (r: Option<map<string, string>>)
    ensures r.Some? ==> r.value.Keys == modData.Keys + {key}
    ensures r.Some? ==> forall k :: k in modData && k != key ==> r.value[k] == modData[k]
    ensures r.None? <==> key in modData && ParseInt32(modData[key]).None?
  {
    if key !in modData then Some(modData[key := "1"])
    else match ParseInt32(modData[key])
      case None => None
      case Some(n) => Some(modData[key := IntToString(WrapInt32(n + 1))])
  }

  /** A counter read back after a step is one more than before (1 for a new counter), with Int32 wrap-around. */
  lemma BumpCounterCounts(modData: map<string, string>, key: string)
    ensures key !in modData ==> ParseInt32(BumpCounter(modData, key).value[key]) == Some(1)
    ensures key in modData && ParseInt32(modData[key]).Some? ==>
      ParseInt32(BumpCounter(modData, key).value[key]) == Some(WrapInt32(ParseInt32(modData[key]).value + 1))
  {
    if key !in modData {
      ParseIntToString(1);
      assert IntToString(1) == "1";
    } else if ParseInt32(modData[key]).Some? {
      ParseIntToString(WrapInt32(ParseInt32(modData[key]).value + 1));
    }
  }

  /** The tiles `getLostBooksLocations` scans. */
  predicate InGrid(layout: Tiles.Layout, t: Tile) {
    0 <= t.x < layout.width && 0 <= t.y < layout.height
  }

  /**
   * The lost book a tile's `Action` declares: the action must be
   * "Spiderbuttons.CMF_LostBook", argument 1 a non-blank book id and argument 2
   * an Int32 index; anything else declares none.
   */
  function LostBookEntry(layout: Tiles.Layout, t: Tile): (e: Option<(string, int)>)
    ensures e.Some? ==> !IsNullOrWhiteSpace(Some(e.value.0)) && IsInt32(e.value.1)
  {
    var action := if t in layout.actions then layout.actions[t] else [];
    if |action| == 0 || action[0] != "Spiderbuttons.CMF_LostBook" then None
    else if |action| < 2 || IsNullOrWhiteSpace(Some(action[1])) then None
    else if |action| < 3 then None
    else match ParseInt32(action[2])
      case None => None
      case Some(n) => Some((action[1], n))
  }

  /**
   * The table `getLostBooksLocations` builds: every registered book has at
   * least one tile, every registered tile lies in the grid, declares the book it is registered under, and is the first tile in
   * scan order to declare it; every declared book is registered.
   */
  ghost predicate IsLostBooksTable(layout: Tiles.Layout, r: map<string, map<int, Tile>>) {
    NoEmptyBook(r)
    && (forall id, n :: id in r && n in r[id] ==>
      InGrid(layout, r[id][n]) && LostBookEntry(layout, r[id][n]) == Some((id, n))
      && FirstDeclaring(layout, EntryOf(layout), r[id][n], id, n))
    && (forall t :: InGrid(layout, t) && LostBookEntry(layout, t).Some? ==>
      LostBookEntry(layout, t).value.0 in r && LostBookEntry(layout, t).value.1 in r[LostBookEntry(layout, t).value.0])
  }

  /** No grid tile before `t0` in scan order declares book `id`, index `n`. */
  ghost predicate FirstDeclaring(layout: Tiles.Layout, entry: Tile -> Option<(string, int)>, t0: Tile, id: string, n: int) {
    forall t :: InGrid(layout, t) && Tiles.ScanBefore(t, t0) ==> entry(t) != Some((id, n))
  }

  /** Every registered book has at least one tile. */
  predicate NoEmptyBook(r: map<string, map<int, Tile>>) {
    forall id :: id in r ==> |r[id]| > 0
  }

  /** The tiles scanned before column `x`, row `y`. */
  predicate ScannedBefore(t: Tile, x: int, y: int) {
    t.x < x || (t.x == x && t.y < y)
  }

  /** The loop invariant of `getLostBooksLocations`: the table is the first-occurrence table of the scanned tiles. */
  ghost predicate LostBooksSoFar(layout: Tiles.Layout, entry: Tile -> Option<(string, int)>, r: map<string, map<int, Tile>>, x: int, y: int) {
    NoEmptyBook(r)
    && (forall id, n :: id in r && n in r[id] ==>
       InGrid(layout, r[id][n]) && ScannedBefore(r[id][n], x, y) && entry(r[id][n]) == Some((id, n))
       && FirstDeclaring(layout, entry, r[id][n], id, n))
    && (forall t :: InGrid(layout, t) && ScannedBefore(t, x, y) && entry(t).Some? ==>
          entry(t).value.0 in r && entry(t).value.1 in r[entry(t).value.0])
  }

  /**
   * One tile of the scan: a declared book's id gets a table if it has none, and
   * the tile goes in under the book's index unless that index is taken.
   */
  function RegisterLostBook(r: map<string, map<int, Tile>>, entry: Option<(string, int)>, t: Tile): map<string, map<int, Tile>> {
    if entry.None? then r
    else
      var books := if entry.value.0 in r then r[entry.value.0] else map[];
      if entry.value.1 in books then r[entry.value.0 := books] else r[entry.value.0 := books[entry.value.1 := t]]
  }

  lemma LostBooksStep(layout: Tiles.Layout, entry: Tile -> Option<(string, int)>, r: map<string, map<int, Tile>>, x: int, y: int)
    requires LostBooksSoFar(layout, entry, r, x, y) && InGrid(layout, Tile(x, y))
    ensures LostBooksSoFar(layout, entry, RegisterLostBook(r, entry(Tile(x, y)), Tile(x, y)), x, y + 1)
  {
    var t := Tile(x, y);
    var e := entry(t);
    var r' := RegisterLostBook(r, e, t);
    forall id, n | id in r' && n in r'[id]
      ensures InGrid(layout, r'[id][n]) && ScannedBefore(r'[id][n], x, y + 1) && entry(r'[id][n]) == Some((id, n))
      ensures FirstDeclaring(layout, entry, r'[id][n], id, n)
    {
      if !(id in r && n in r[id]) {
        assert e == Some((id, n)) && r'[id][n] == t;
        forall u | InGrid(layout, u) && Tiles.ScanBefore(u, t) ensures entry(u) != Some((id, n)) {
          assert ScannedBefore(u, x, y);
        }
      }
    }
    forall u | InGrid(layout, u) && ScannedBefore(u, x, y + 1) && entry(u).Some?
      ensures entry(u).value.0 in r' && entry(u).value.1 in r'[entry(u).value.0]
    {
      if u != t {
        assert ScannedBefore(u, x, y);
      }
    }
  }

  lemma LostBooksNextColumn(layout: Tiles.Layout, entry: Tile -> Option<(string, int)>, r: map<string, map<int, Tile>>, x: int, y: int)
    requires LostBooksSoFar(layout, entry, r, x, y) && (y >= layout.height)
    ensures LostBooksSoFar(layout, entry, r, x + 1, 0)
  {
  }

  /** The lost-book declaration of every tile of a layout, as one function. */
  function EntryOf(layout: Tiles.Layout): Tile -> Option<(string, int)> {
    t => LostBookEntry(layout, t)
  }

  /** The loop invariant of the scan, over the layout's own declarations. */
  ghost predicate ScanInvariant(layout: Tiles.Layout, r: map<string, map<int, Tile>>, x: int, y: int) {
    LostBooksSoFar(layout, EntryOf(layout), r, x, y)
  }

  /** Before the scan nothing is registered and no tile is scanned. */
  lemma LostBooksStart(layout: Tiles.Layout)
    ensures ScanInvariant(layout, map[], 0, 0)
  {
  }

  /** One tile of the scan keeps the loop invariant. */
  lemma ScanStep(layout: Tiles.Layout, r: map<string, map<int, Tile>>, x: int, y: int)
    requires ScanInvariant(layout, r, x, y) && InGrid(layout, Tile(x, y))
    ensures ScanInvariant(layout, RegisterLostBook(r, LostBookEntry(layout, Tile(x, y)), Tile(x, y)), x, y + 1)
  {
    LostBooksStep(layout, EntryOf(layout), r, x, y);
  }

  /** A scanned column moves the loop invariant to the top of the next one. */
  lemma ScanNextColumn(layout: Tiles.Layout, r: map<string, map<int, Tile>>, x: int, y: int)
    requires ScanInvariant(layout, r, x, y) && y >= layout.height
    ensures ScanInvariant(layout, r, x + 1, 0)
  {
    LostBooksNextColumn(layout, EntryOf(layout), r, x, y);
  }

  /** The loop invariant once every column is scanned. */
  ghost predicate LostBooksComplete(layout: Tiles.Layout, r: map<string, map<int, Tile>>) {
    ScanInvariant(layout, r, layout.width, 0)
  }

  lemma LostBooksDone(layout: Tiles.Layout, r: map<string, map<int, Tile>>, x: int)
    requires LostBooksSoFar(layout, EntryOf(layout), r, x, 0) && x >= layout.width
    requires x == layout.width || x == 0
    ensures LostBooksComplete(layout, r)
  {
  }

  /** A completed scan is exactly the first-occurrence table of the layout's lost books. */
  lemma LostBooksCompleteIsTable(layout: Tiles.Layout, r: map<string, map<int, Tile>>)
    requires LostBooksComplete(layout, r)
    ensures IsLostBooksTable(layout, r)
  {
  }

  /** One column of `getLostBooksLocations`' scan: the tiles of column `x`, top to bottom. */
  method ScanLostBooksColumn(layout: Tiles.Layout, r0: map<string, map<int, Tile>>, x: int)
    returns (r: map<string, map<int, Tile>>)
    requires 0 <= x < layout.width && ScanInvariant(layout, r0, x, 0)
    ensures ScanInvariant(layout, r, x + 1, 0)
  {
    r := r0;
    var y := 0;
    while y < layout.height
      invariant 0 <= y <= layout.height || (layout.height <= 0 && y == 0)
      invariant ScanInvariant(layout, r, x, y)
    {
      var t := Tile(x, y);
      var entry := LostBookEntry(layout, t);
      ScanStep(layout, r, x, y);
      r := RegisterLostBook(r, entry, t);
      y := y + 1;
    }
    ScanNextColumn(layout, r, x, y);
  }

  /**
   * `getLostBooksLocations`, which reads only the location's map: the tiles of
   * the first layer are scanned column by column; each well-formed lost-book
   * action registers its tile under its book id and index unless that index is
   * already registered. `LostBooksCompleteIsTable` states what the result is.
   */
  method GetLostBooksLocations(layout: Tiles.Layout) returns (r: map<string, map<int, Tile>>)
    ensures LostBooksComplete(layout, r)
  {
    r := map[];
    var x := 0;
    LostBooksStart(layout);
    while x < layout.width
      invariant 0 <= x <= layout.width || (layout.width <= 0 && x == 0)
      invariant ScanInvariant(layout, r, x, 0)
    {
      r := ScanLostBooksColumn(layout, r, x);
      x := x + 1;
    }
    LostBooksDone(layout, r, x);
  }
}
