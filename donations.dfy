/**
 * The donation records of a `MuseumManager`, as values. A museum's donations
 * live in a shared inventory of items (null slots included); each item carries
 * the tile it stands on in its `CMF_Position` data, and the `DonatedItems`
 * dictionary is rebuilt from that inventory on every read.
 */
module Donations {
  import opened Wrappers
  import opened Text
  import opened Models
  import opened Matcher

  /** The museum's global inventory: null slots are kept. */
  type Inventory = seq<Option<Item>>

  /** The tile a non-null entry names, if any. */
  function PositionOf(e: Option<Item>): Option<Tile> {
    if e.Some? then e.value.position else None
  }

  /**
   * `DonatedItems`: every tile some entry names maps to that entry's qualified id;
   * an entry for a tile that is already a key overwrites the id.
   */
  function DonatedItems(inv: Inventory): map<Tile, string>
    decreases |inv|
  {
    if |inv| == 0 then map[]
    else
      var m := DonatedItems(inv[..|inv| - 1]);
      var e := inv[|inv| - 1];
      if PositionOf(e).Some? then m[PositionOf(e).value := e.value.qualifiedId] else m
  }

  /** The order in which `DonatedItems` enumerates its keys: first insertion; an overwrite keeps the key's place. */
  function DonatedOrder(inv: Inventory): seq<Tile>
    decreases |inv|
  {
    if |inv| == 0 then []
    else
      var o := DonatedOrder(inv[..|inv| - 1]);
      var p := PositionOf(inv[|inv| - 1]);
      if p.Some? && p.value !in DonatedItems(inv[..|inv| - 1]) then o + [p.value] else o
  }

  /** A tile is a key iff some entry names it, and its id is that of the last entry naming it. */
  lemma {:induction false} DonatedItemsChar(inv: Inventory, t: Tile)
    ensures t in DonatedItems(inv) <==> exists k :: 0 <= k < |inv| && PositionOf(inv[k]) == Some(t)
    ensures t in DonatedItems(inv) ==>
      exists k :: 0 <= k < |inv| && PositionOf(inv[k]) == Some(t) && inv[k].value.qualifiedId == DonatedItems(inv)[t]
        && forall k' :: k < k' < |inv| ==> PositionOf(inv[k']) != Some(t)
    decreases |inv|
  {
    if |inv| > 0 {
      var p := inv[..|inv| - 1];
      var e := inv[|inv| - 1];
      DonatedItemsChar(p, t);
      if PositionOf(e) == Some(t) {
        assert PositionOf(inv[|inv| - 1]) == Some(t);
      } else {
        if t in DonatedItems(p) {
          var k :| 0 <= k < |p| && PositionOf(p[k]) == Some(t) && p[k].value.qualifiedId == DonatedItems(p)[t]
            && forall k' :: k < k' < |p| ==> PositionOf(p[k']) != Some(t);
          assert inv[k] == p[k];
          assert forall k' :: k < k' < |inv| ==> PositionOf(inv[k']) != Some(t) by {
            forall k' | k < k' < |inv| ensures PositionOf(inv[k']) != Some(t) {
              if k' < |p| { assert inv[k'] == p[k']; }
            }
          }
        }
        if exists k :: 0 <= k < |inv| && PositionOf(inv[k]) == Some(t) {
          var k :| 0 <= k < |inv| && PositionOf(inv[k]) == Some(t);
          assert k < |p| && p[k] == inv[k];
        }
      }
    }
  }

  /** The enumeration order lists every key exactly once. */
  lemma {:induction false} DonatedOrderKeys(inv: Inventory)
    ensures forall t :: t in DonatedOrder(inv) <==> t in DonatedItems(inv)
    ensures forall i, j :: 0 <= i < j < |DonatedOrder(inv)| ==> DonatedOrder(inv)[i] != DonatedOrder(inv)[j]
    decreases |inv|
  {
    if |inv| > 0 {
      DonatedOrderKeys(inv[..|inv| - 1]);
    }
  }

  /** `HasDonatedItem()`: the dictionary has a value, that is, some entry names a tile. */
  function HasAnyDonation(inv: Inventory): (r: bool)
    ensures r <==> exists k :: 0 <= k < |inv| && PositionOf(inv[k]).Some?
  {
    if |DonatedItems(inv)| > 0 then
      var t :| t in DonatedItems(inv);
      DonatedItemsChar(inv, t);
      true
    else
      assert forall k :: 0 <= k < |inv| ==> PositionOf(inv[k]).None? by {
        forall k | 0 <= k < |inv| ensures PositionOf(inv[k]).None? {
          if PositionOf(inv[k]).Some? {
            DonatedItemsChar(inv, PositionOf(inv[k]).value);
            assert PositionOf(inv[k]).value in DonatedItems(inv);
          }
        }
      }
      false
  }

  /** `HasDonatedItemAt(tile)`. */
  predicate HasDonatedItemAt(inv: Inventory, t: Tile) {
    t in DonatedItems(inv)
  }

  /** `HasDonatedItem(itemId)`: null is never donated; otherwise the qualified id is some tile's value (exact match). */
  predicate HasDonatedItem(engine: Engine, inv: Inventory, itemId: Option<string>) {
    itemId.Some? && exists t :: t in DonatedItems(inv) && DonatedItems(inv)[t] == engine.qualify(itemId.value)
  }

  // ---------------------------------------------------------------------------
  // One entry per tile
  // ---------------------------------------------------------------------------

  /** No two entries name the same tile (the state `DonateItem` keeps). */
  predicate UniquePositions(inv: Inventory) {
    forall i, j :: 0 <= i < j < |inv| && PositionOf(inv[i]).Some? ==> PositionOf(inv[i]) != PositionOf(inv[j])
  }

  /** With one entry per tile, the entry standing on a tile gives the tile's id. */
  lemma UniqueLookup(inv: Inventory, k: int, t: Tile)
    requires UniquePositions(inv)
    requires 0 <= k < |inv| && PositionOf(inv[k]) == Some(t)
    ensures t in DonatedItems(inv) && DonatedItems(inv)[t] == inv[k].value.qualifiedId
  {
    DonatedItemsChar(inv, t);
    var k2 :| 0 <= k2 < |inv| && PositionOf(inv[k2]) == Some(t) && inv[k2].value.qualifiedId == DonatedItems(inv)[t]
      && forall k' :: k2 < k' < |inv| ==> PositionOf(inv[k']) != Some(t);
  }

  /** With one entry per tile, an id is donated iff some entry standing on a tile has it. */
  lemma HasDonatedItemUnique(engine: Engine, inv: Inventory, id: string)
    requires UniquePositions(inv)
    ensures HasDonatedItem(engine, inv, Some(id))
        <==> exists k :: 0 <= k < |inv| && PositionOf(inv[k]).Some? && inv[k].value.qualifiedId == engine.qualify(id)
  {
    if HasDonatedItem(engine, inv, Some(id)) {
      var t :| t in DonatedItems(inv) && DonatedItems(inv)[t] == engine.qualify(id);
      DonatedItemsChar(inv, t);
    }
    if exists k :: 0 <= k < |inv| && PositionOf(inv[k]).Some? && inv[k].value.qualifiedId == engine.qualify(id) {
      var k :| 0 <= k < |inv| && PositionOf(inv[k]).Some? && inv[k].value.qualifiedId == engine.qualify(id);
      UniqueLookup(inv, k, PositionOf(inv[k]).value);
    }
  }

  lemma UniqueAppend(s: Inventory, e: Option<Item>)
    ensures UniquePositions(s + [e])
        <==> UniquePositions(s) && forall x :: x in s && PositionOf(x).Some? ==> PositionOf(x) != PositionOf(e)
  {
    var s' := s + [e];
    if UniquePositions(s') {
      forall x | x in s && PositionOf(x).Some? ensures PositionOf(x) != PositionOf(e) {
        var i :| 0 <= i < |s| && s[i] == x;
        assert s'[i] == x && s'[|s|] == e;
      }
      forall i, j | 0 <= i < j < |s| && PositionOf(s[i]).Some? ensures PositionOf(s[i]) != PositionOf(s[j]) {
        assert s'[i] == s[i] && s'[j] == s[j];
      }
    }
    if UniquePositions(s) && forall x :: x in s && PositionOf(x).Some? ==> PositionOf(x) != PositionOf(e) {
      forall i, j | 0 <= i < j < |s'| && PositionOf(s'[i]).Some? ensures PositionOf(s'[i]) != PositionOf(s'[j]) {
        assert s'[i] == s[i] && s[i] in s;
        if j < |s| { assert s'[j] == s[j]; }
      }
    }
  }

  // ---------------------------------------------------------------------------
  // Donating and removing
  // ---------------------------------------------------------------------------

  /** Appending an item that stands on `pos` maps `pos` to its id and leaves every other tile as it was. */
  lemma DonateAppend(inv: Inventory, it: Item, pos: Tile)
    requires it.position == Some(pos)
    ensures DonatedItems(inv + [Some(it)]) == DonatedItems(inv)[pos := it.qualifiedId]
    ensures UniquePositions(inv) && pos !in DonatedItems(inv) ==> UniquePositions(inv + [Some(it)])
  {
    var s := inv + [Some(it)];
    assert s[..|s| - 1] == inv;
    if UniquePositions(inv) && pos !in DonatedItems(inv) {
      forall x | x in inv && PositionOf(x).Some? ensures PositionOf(x) != Some(pos) {
        var k :| 0 <= k < |inv| && inv[k] == x;
        DonatedItemsChar(inv, pos);
      }
      UniqueAppend(inv, Some(it));
    }
  }

  /** An entry whose id equals `id`, ignoring case. */
  predicate MatchesId(e: Option<Item>, id: string) {
    e.Some? && EqualsIgnoreCase(e.value.qualifiedId, id)
  }

  /** `RemoveWhere(item => item.QualifiedItemId.EqualsIgnoreCase(id))`: drops every matching entry, keeps the rest in order. */
  function RemoveId(inv: Inventory, id: string): (r: Inventory)
    ensures |r| <= |inv|
    decreases |inv|
  {
    if |inv| == 0 then []
    else
      var rest := RemoveId(inv[..|inv| - 1], id);
      if MatchesId(inv[|inv| - 1], id) then rest else rest + [inv[|inv| - 1]]
  }

  /** The entries left are exactly the entries that do not match. */
  lemma {:induction false} RemoveIdElements(inv: Inventory, id: string)
    ensures forall e :: e in RemoveId(inv, id) <==> e in inv && !MatchesId(e, id)
    decreases |inv|
  {
    if |inv| > 0 {
      var p := inv[..|inv| - 1];
      RemoveIdElements(p, id);
      assert inv == p + [inv[|inv| - 1]];
    }
  }

  /** Removal keeps one entry per tile. */
  lemma {:induction false} RemoveIdUnique(inv: Inventory, id: string)
    requires UniquePositions(inv)
    ensures UniquePositions(RemoveId(inv, id))
    decreases |inv|
  {
    if |inv| > 0 {
      var p := inv[..|inv| - 1];
      var e := inv[|inv| - 1];
      assert inv == p + [e];
      UniqueAppend(p, e);
      RemoveIdUnique(p, id);
      if !MatchesId(e, id) {
        var rest := RemoveId(p, id);
        RemoveIdElements(p, id);
        UniqueAppend(rest, e);
      }
    }
  }

  /** An entry standing on a key tile. */
  lemma KeyEntry(inv: Inventory, t: Tile) returns (k: int)
    requires t in DonatedItems(inv)
    ensures 0 <= k < |inv| && PositionOf(inv[k]) == Some(t)
  {
    DonatedItemsChar(inv, t);
    k :| 0 <= k < |inv| && PositionOf(inv[k]) == Some(t);
  }

  /** A tile left after removal by id held a non-matching id, and still holds it. */
  lemma RemoveIdKeeps(inv: Inventory, id: string, t: Tile)
    requires UniquePositions(inv) && UniquePositions(RemoveId(inv, id))
    requires forall e :: e in RemoveId(inv, id) <==> e in inv && !MatchesId(e, id)
    requires t in DonatedItems(RemoveId(inv, id))
    ensures t in DonatedItems(inv) && !EqualsIgnoreCase(DonatedItems(inv)[t], id)
    ensures DonatedItems(RemoveId(inv, id))[t] == DonatedItems(inv)[t]
  {
    var r := RemoveId(inv, id);
    var k := KeyEntry(r, t);
    assert r[k] in r;
    var k2 :| 0 <= k2 < |inv| && inv[k2] == r[k];
    UniqueLookup(inv, k2, t);
    UniqueLookup(r, k, t);
  }

  /** A tile whose id does not match survives removal by id. */
  lemma RemoveIdSurvives(inv: Inventory, id: string, t: Tile)
    requires UniquePositions(inv) && UniquePositions(RemoveId(inv, id))
    requires forall e :: e in RemoveId(inv, id) <==> e in inv && !MatchesId(e, id)
    requires t in DonatedItems(inv) && !EqualsIgnoreCase(DonatedItems(inv)[t], id)
    ensures t in DonatedItems(RemoveId(inv, id))
  {
    var r := RemoveId(inv, id);
    var k := KeyEntry(inv, t);
    UniqueLookup(inv, k, t);
    assert inv[k] in r;
    var k2 :| 0 <= k2 < |r| && r[k2] == inv[k];
    UniqueLookup(r, k2, t);
  }

  /**
   * With one entry per tile, removing an id clears every tile whose id matches
   * it (ignoring case) and leaves every other tile and its id as they were.
   */
  lemma RemoveIdDonated(inv: Inventory, id: string)
    requires UniquePositions(inv)
    ensures DonatedItems(RemoveId(inv, id))
         == map t | t in DonatedItems(inv) && !EqualsIgnoreCase(DonatedItems(inv)[t], id) :: DonatedItems(inv)[t]
  {
    RemoveIdUnique(inv, id);
    RemoveIdElements(inv, id);
    forall t | t in DonatedItems(RemoveId(inv, id)) {
      RemoveIdKeeps(inv, id, t);
    }
    forall t | t in DonatedItems(inv) && !EqualsIgnoreCase(DonatedItems(inv)[t], id) {
      RemoveIdSurvives(inv, id, t);
    }
  }

  /**
   * `DonatedItems.FirstOrDefault(pair => pair.Value.EqualsIgnoreCase(id)).Key`: the
   * first tile in enumeration order whose id matches, or the default tile (0, 0).
   */
  function FirstTileWithId(inv: Inventory, id: string): (t: Tile)
    ensures t != Tile(0, 0) ==> t in DonatedItems(inv) && EqualsIgnoreCase(DonatedItems(inv)[t], id)
  {
    DonatedOrderKeys(inv);
    FirstMatching(DonatedOrder(inv), DonatedItems(inv), id)
  }

  function FirstMatching(order: seq<Tile>, m: map<Tile, string>, id: string): (t: Tile)
    requires forall t :: t in order ==> t in m
    ensures t != Tile(0, 0) ==> t in order && EqualsIgnoreCase(m[t], id)
    decreases |order|
  {
    if |order| == 0 then Tile(0, 0)
    else if EqualsIgnoreCase(m[order[0]], id) then order[0]
    else FirstMatching(order[1..], m, id)
  }

  /** When no tile in the order matches, the default tile (0, 0) is returned. */
  lemma {:induction false} FirstMatchingNone(order: seq<Tile>, m: map<Tile, string>, id: string)
    requires forall t :: t in order ==> t in m
    requires forall i :: 0 <= i < |order| ==> !EqualsIgnoreCase(m[order[i]], id)
    ensures FirstMatching(order, m, id) == Tile(0, 0)
    decreases |order|
  {
    if |order| > 0 {
      assert !EqualsIgnoreCase(m[order[0]], id);
      forall i | 0 <= i < |order| - 1 ensures !EqualsIgnoreCase(m[order[1..][i]], id) {
        assert order[1..][i] == order[i + 1];
      }
      FirstMatchingNone(order[1..], m, id);
    }
  }

  /** The tile returned is the first one in the order that matches. */
  lemma {:induction false} FirstMatchingAt(order: seq<Tile>, m: map<Tile, string>, id: string, i: nat)
    requires forall t :: t in order ==> t in m
    requires i < |order| && EqualsIgnoreCase(m[order[i]], id)
    requires forall j :: 0 <= j < i ==> !EqualsIgnoreCase(m[order[j]], id)
    ensures FirstMatching(order, m, id) == order[i]
    decreases i
  {
    if i > 0 {
      assert !EqualsIgnoreCase(m[order[0]], id);
      forall j | 0 <= j < i - 1 ensures !EqualsIgnoreCase(m[order[1..][j]], id) {
        assert order[1..][j] == order[j + 1];
      }
      FirstMatchingAt(order[1..], m, id, i - 1);
    }
  }

  // ---------------------------------------------------------------------------
  // Suitability
  // ---------------------------------------------------------------------------

  const NotDonatableTag: string := "not_museum_donatable"

  /**
   * `MuseumManager.IsItemSuitableForDonation(itemId, checkDonatedItems)`: the item
   * created from the qualified id must not carry the "not_museum_donatable" tag,
   * must not be donated already when that is checked, and must satisfy one of the
   * museum's donation requirements.
   */
  predicate IsItemSuitableForDonation(engine: Engine, reqs: seq<DonationRequirement>, inv: Inventory,
                                      itemId: Option<string>, checkDonated: bool)
  {
    if itemId.None? then false
    else
      var item := engine.create(engine.qualify(itemId.value));
      if NotDonatableTag in item.tags then false
      else if checkDonated && HasDonatedItem(engine, inv, Some(item.qualifiedId)) then false
      else exists i :: 0 <= i < |reqs| && DoesItemSatisfyRequirement(Some(item), reqs[i], engine.tagQuery)
  }

  /** The public overload taking an item: null is unsuitable, otherwise its id is checked against donations. */
  predicate IsItemSuitable(engine: Engine, reqs: seq<DonationRequirement>, inv: Inventory, item: Option<Item>) {
    item.Some? && IsItemSuitableForDonation(engine, reqs, inv, Some(item.value.qualifiedId), true)
  }

  /** Each reason for refusal, and the requirement test that decides otherwise. */
  lemma SuitabilityCases(engine: Engine, reqs: seq<DonationRequirement>, inv: Inventory, id: string, checkDonated: bool)
    ensures var item := engine.create(engine.qualify(id));
      IsItemSuitableForDonation(engine, reqs, inv, Some(id), checkDonated)
      <==> (NotDonatableTag !in item.tags
            && !(checkDonated && HasDonatedItem(engine, inv, Some(item.qualifiedId)))
            && exists r :: r in reqs && DoesItemSatisfyRequirement(Some(item), r, engine.tagQuery))
    ensures !IsItemSuitableForDonation(engine, reqs, inv, None, checkDonated)
    ensures reqs == [] ==> !IsItemSuitableForDonation(engine, reqs, inv, Some(id), checkDonated)
  {
    var item := engine.create(engine.qualify(id));
    if exists r :: r in reqs && DoesItemSatisfyRequirement(Some(item), r, engine.tagQuery) {
      var r :| r in reqs && DoesItemSatisfyRequirement(Some(item), r, engine.tagQuery);
      var i :| 0 <= i < |reqs| && reqs[i] == r;
    }
  }

  /** Without the donated check the answer does not depend on what is donated. */
  lemma UncheckedIgnoresDonations(engine: Engine, reqs: seq<DonationRequirement>, a: Inventory, b: Inventory, id: Option<string>)
    ensures IsItemSuitableForDonation(engine, reqs, a, id, false) == IsItemSuitableForDonation(engine, reqs, b, id, false)
  {
  }

  /** `CalculateDonations`: every registered id that is suitable when donations are ignored. */
  function PossibleDonations(engine: Engine, reqs: seq<DonationRequirement>): (s: set<string>)
    ensures forall id :: id in s ==> id in engine.allIds
  {
    set id | id in engine.allIds && IsItemSuitableForDonation(engine, reqs, [], Some(id), false)
  }

  /** `DonationsSatisfyingRequirement`: entries, null slots included, that satisfy the requirement. */
  function DonationsSatisfyingRequirement(inv: Inventory, req: DonationRequirement, tagQuery: TagQuery): (n: nat)
    ensures n <= |inv|
  {
    CountSatisfying(inv, req, tagQuery)
  }
}
