/**
 * `MuseumManager`: the state of one custom museum. The donations live in the
 * museum's global inventory; the manager caches the set of every possible
 * donation, remembers which reward each offered item stands for, and keeps the
 * location's `modData` counters. The mod-wide `GlobalDonatableItems` flag map
 * (qualified id, then museum, then "donated here") is a separate object.
 */
module Manager {
  import opened Wrappers
  import opened Text
  import opened Models
  import opened Matcher
  import opened Donations
  import opened Rewards
  import Tiles
  import opened LostBooks
  import Quests
  import opened Comparer

  // ---------------------------------------------------------------------------
  // The global donated-here flags
  // ---------------------------------------------------------------------------

  /**
   * `CMF.GlobalDonatableItems`: for each qualified id, the museums and whether it is donated there. The
   * museums of an id are a list sorted by the manager comparer, so a museum is found by the comparer's key.
   */
  class DonatableFlags {
    var flags: map<string, map<MuseumKey, bool>>

    constructor (flags: map<string, map<MuseumKey, bool>>)
      ensures this.flags == flags
    {
      this.flags := flags;
    }
  }

  /** Record `value` for `museum` under `id`; an id without an entry is left alone. */
  function SetFlag(flags: map<string, map<MuseumKey, bool>>, id: string, museum: MuseumKey, value: bool): (r: map<string, map<MuseumKey, bool>>)
    ensures r.Keys == flags.Keys
    ensures id in flags ==> museum in r[id] && r[id][museum] == value && r[id].Keys == flags[id].Keys + {museum}
    ensures forall k :: k in flags && k != id ==> r[k] == flags[k]
    ensures forall m :: id in flags && m in flags[id] && m != museum ==> r[id][m] == flags[id][m]
  {
    if id in flags then flags[id := flags[id][museum := value]] else flags
  }

  // ---------------------------------------------------------------------------
  // Removal and donation, as values
  // ---------------------------------------------------------------------------

  /** `RemoveItem(tile)` on the inventory: every entry with the tile's id, ignoring case, goes; an empty tile changes nothing. */
  function RemoveAt(inv: Inventory, t: Tile): Inventory {
    if t in DonatedItems(inv) then RemoveId(inv, DonatedItems(inv)[t]) else inv
  }

  /** `RemoveItem(tile)` on the flag map: the removed id is no longer donated in the museum. */
  function ClearFlagAt(flags: map<string, map<MuseumKey, bool>>, inv: Inventory, t: Tile, museum: MuseumKey): map<string, map<MuseumKey, bool>> {
    if t in DonatedItems(inv) then SetFlag(flags, DonatedItems(inv)[t], museum, false) else flags
  }

  /**
   * With one entry per tile, removal at a tile empties that tile, keeps every tile
   * whose id differs (ignoring case) with its id, and adds no tile.
   */
  lemma RemoveAtSpec(inv: Inventory, t: Tile)
    requires UniquePositions(inv)
    ensures UniquePositions(RemoveAt(inv, t))
    ensures t !in DonatedItems(RemoveAt(inv, t))
    ensures DonatedItems(RemoveAt(inv, t)).Keys <= DonatedItems(inv).Keys
    ensures forall u :: (u in DonatedItems(inv) && (t !in DonatedItems(inv) || !EqualsIgnoreCase(DonatedItems(inv)[u], DonatedItems(inv)[t])))
                ==> (u in DonatedItems(RemoveAt(inv, t)) && DonatedItems(RemoveAt(inv, t))[u] == DonatedItems(inv)[u])
  {
    if t in DonatedItems(inv) {
      var id := DonatedItems(inv)[t];
      RemoveIdUnique(inv, id);
      RemoveIdDonated(inv, id);
    }
  }

  /** The id's flag for the museum has been cleared, when the id has an entry at all. */
  predicate ClearedFor(before: map<string, map<MuseumKey, bool>>, after: map<string, map<MuseumKey, bool>>, id: string, museum: MuseumKey) {
    id in before ==> id in after && after[id] == before[id][museum := false]
  }

  /** The flag map differs from `before` at most by clearing the museum's flag of some of the `ids`. */
  predicate OnlyCleared(before: map<string, map<MuseumKey, bool>>, after: map<string, map<MuseumKey, bool>>, ids: set<string>, museum: MuseumKey) {
    && after.Keys == before.Keys
    && forall k :: k in before ==> after[k] == before[k] || (k in ids && after[k] == before[k][museum := false])
  }

  /**
   * Where `Reset` stands after some removals, with `d0` the tiles and `f0` the flags it
   * started from: the tiles left are some of `d0`'s with their ids, the flags differ only
   * by cleared museum flags of `d0`'s ids, and every tile gone has a case-insensitively
   * equal id of `d0` whose flag has been cleared.
   */
  ghost predicate ResetProgress(inv: Inventory, flags: map<string, map<MuseumKey, bool>>, d0: map<Tile, string>,
                                f0: map<string, map<MuseumKey, bool>>, museum: MuseumKey)
  {
    && UniquePositions(inv)
    && (forall u :: u in DonatedItems(inv) ==> u in d0 && DonatedItems(inv)[u] == d0[u])
    && OnlyCleared(f0, flags, d0.Values, museum)
    && forall u :: u in d0 && u !in DonatedItems(inv) ==>
         exists w :: w in d0.Values && EqualsIgnoreCase(d0[u], w) && ClearedFor(f0, flags, w, museum)
  }

  /** One removal of `Reset` keeps its progress. */
  lemma ResetStep(inv: Inventory, flags: map<string, map<MuseumKey, bool>>, d0: map<Tile, string>,
                  f0: map<string, map<MuseumKey, bool>>, museum: MuseumKey, t: Tile)
    requires ResetProgress(inv, flags, d0, f0, museum)
    ensures ResetProgress(RemoveAt(inv, t), ClearFlagAt(flags, inv, t, museum), d0, f0, museum)
  {
    if t in DonatedItems(inv) {
      var d := DonatedItems(inv);
      var v := d[t];
      assert v == d0[t] && v in d0.Values;
      RemoveIdUnique(inv, v);
      RemoveIdDonated(inv, v);
      var flags' := ClearFlagAt(flags, inv, t, museum);
      assert ClearedFor(f0, flags', v, museum);
      forall k | k in f0
        ensures flags'[k] == f0[k] || (k in d0.Values && flags'[k] == f0[k][museum := false])
      {
        if k == v {
          assert flags'[k] == f0[k][museum := false];
        }
      }
      forall u | u in d0 && u !in DonatedItems(RemoveAt(inv, t))
        ensures exists w :: w in d0.Values && EqualsIgnoreCase(d0[u], w) && ClearedFor(f0, flags', w, museum)
      {
        if u in d {
          assert EqualsIgnoreCase(d0[u], v);
        } else {
          var w :| w in d0.Values && EqualsIgnoreCase(d0[u], w) && ClearedFor(f0, flags, w, museum);
          assert ClearedFor(f0, flags', w, museum);
        }
      }
    }
  }

  /** No two of the ids differ only in case. */
  predicate CaseDistinct(ids: set<string>) {
    forall a, b :: a in ids && b in ids && EqualsIgnoreCase(a, b) ==> a == b
  }

  /**
   * When no two donated ids differ only in case, the progress `Reset` reaches reads
   * plainly: the museum's flag of every donated id is cleared.
   */
  lemma ResetClearsEveryId(d0: map<Tile, string>, f0: map<string, map<MuseumKey, bool>>,
                           flags: map<string, map<MuseumKey, bool>>, museum: MuseumKey)
    requires forall t :: t in d0 ==> exists w :: w in d0.Values && EqualsIgnoreCase(d0[t], w) && ClearedFor(f0, flags, w, museum)
    requires CaseDistinct(d0.Values)
    ensures forall t :: t in d0 ==> ClearedFor(f0, flags, d0[t], museum)
  {
    forall t | t in d0 ensures ClearedFor(f0, flags, d0[t], museum) {
      var w :| w in d0.Values && EqualsIgnoreCase(d0[t], w) && ClearedFor(f0, flags, w, museum);
      assert d0[t] in d0.Values;
    }
  }

  /**
   * The flags `Reset` leaves, from the donations `d0` and flags `f0` it started
   * with: only this museum's flags of donated ids changed, each cleared; every
   * donated id is equal, ignoring case, to one whose flag was cleared; and when
   * no two donated ids differ only in case, every donated id's own flag is cleared.
   */
  predicate ResetCleared(d0: map<Tile, string>, f0: map<string, map<MuseumKey, bool>>,
                         flags: map<string, map<MuseumKey, bool>>, museum: MuseumKey)
  {
    && OnlyCleared(f0, flags, d0.Values, museum)
    && (forall t :: t in d0 ==> exists w :: w in d0.Values && EqualsIgnoreCase(d0[t], w) && ClearedFor(f0, flags, w, museum))
    && (CaseDistinct(d0.Values) ==> forall t :: t in d0 ==> ClearedFor(f0, flags, d0[t], museum))
  }

  /** With no donated tile left, `Reset`'s progress is the flag outcome it promises. */
  lemma ResetFlagsDone(inv: Inventory, flags: map<string, map<MuseumKey, bool>>, d0: map<Tile, string>,
                       f0: map<string, map<MuseumKey, bool>>, museum: MuseumKey)
    requires ResetProgress(inv, flags, d0, f0, museum)
    requires forall t :: t in d0 ==> t !in DonatedItems(inv)
    ensures ResetCleared(d0, f0, flags, museum)
  {
    if CaseDistinct(d0.Values) {
      ResetClearsEveryId(d0, f0, flags, museum);
    }
  }

  /** The item `DonateItem(tile, itemId)` creates: the registry's item, positioned on the tile. */
  function Placed(engine: Engine, itemId: string, t: Tile): (it: Item)
    ensures it.position == Some(t) && it.qualifiedId == engine.create(itemId).qualifiedId
  {
    engine.create(itemId).(position := Some(t))
  }

  /** The hit test of the manager's directional search: a suitable tile, or an occupied one unless those are ignored. */
  function ProbeHit(layout: Tiles.Layout, occupied: set<Tile>, ignoreExisting: bool): Tile -> bool {
    t => Tiles.IsTileSuitableForMuseumItem(layout, occupied, Tiles.ManagerSpotProperty, t) || (!ignoreExisting && t in occupied)
  }

  /** The suitability test of the manager's free-spot scan. */
  function SpotTest(layout: Tiles.Layout, occupied: set<Tile>): Tile -> bool {
    t => Tiles.IsTileSuitableForMuseumItem(layout, occupied, Tiles.ManagerSpotProperty, t)
  }

  /** Some reward carries the Id. */
  predicate RewardIdExists(rewards: seq<CustomMuseumReward>, id: string) {
    exists k :: 0 <= k < |rewards| && rewards[k].id == Some(id)
  }

  /** The first reward with the given Id (`Rewards.First(r => r.Id == rewardId)`). */
  function FirstRewardWithId(rewards: seq<CustomMuseumReward>, id: string): (r: Option<CustomMuseumReward>)
    ensures r.Some? ==> r.value in rewards && r.value.id == Some(id)
    ensures r.None? <==> forall k :: 0 <= k < |rewards| ==> rewards[k].id != Some(id)
    ensures r.Some? ==> exists k :: 0 <= k < |rewards| && rewards[k] == r.value
                          && forall k' :: 0 <= k' < k ==> rewards[k'].id != Some(id)
  {
    if |rewards| == 0 then None
    else if rewards[0].id == Some(id) then Some(rewards[0])
    else
      var rest := FirstRewardWithId(rewards[1..], id);
      assert rest.Some? ==> (exists k :: 0 <= k < |rewards[1..]| && rewards[1..][k] == rest.value
                               && forall k' :: 0 <= k' < k ==> rewards[1..][k'].id != Some(id));
      rest
  }

  /** The reward-collected flag that collecting `it` grants: the one of the reward it was offered for, if that reward flags. */
  function RewardFlagKeys(museumName: string, rewards: seq<CustomMuseumReward>, lookup: map<OfferedItem, string>, it: OfferedItem): (keys: set<string>)
    ensures keys != {} ==> it in lookup && keys == {RewardCollectedKey(museumName, lookup[it])}
  {
    if it in lookup && FirstRewardWithId(rewards, lookup[it]).Some? && FirstRewardWithId(rewards, lookup[it]).value.flagOnCompletion
    then {RewardCollectedKey(museumName, lookup[it])} else {}
  }

  // ---------------------------------------------------------------------------
  // The manager
  // ---------------------------------------------------------------------------

  class MuseumManager {
    /** The location's name (`Museum.Name`), its data entry, the engine services and the map's tile layer. */
    const name: string
    const data: CustomMuseumData
    const engine: Engine
    const layout: Tiles.Layout

    /** The global inventory `{UniqueID}_{Name}` that holds the donations. */
    var inventory: Inventory
    /** `_totalPossibleDonations`; empty means "not computed yet". */
    var totalPossible: set<string>
    /** `_itemToRewardsLookup`: reward item offered, then the Id of its reward. */
    var rewardLookup: map<OfferedItem, string>
    /** The location's `modData`. */
    var modData: map<string, string>

    /** The cache is empty or exact, and every offered item stands for a reward that exists. */
    ghost predicate Valid()
      reads this
    {
      (totalPossible == {} || totalPossible == PossibleDonations(engine, data.donationRequirements))
      && forall it :: it in rewardLookup ==> RewardIdExists(data.rewards, rewardLookup[it])
    }

    /** What the manager comparer reads of this museum, which identifies it in the flag map. */
    function Key(): MuseumKey {
      MuseumKey(data.overrideDescription, data.id)
    }

    /** `DonatedItems`, read through the inventory. */
    function Donated(): map<Tile, string>
      reads this
    {
      DonatedItems(inventory)
    }

    constructor (name: string, data: CustomMuseumData, engine: Engine, layout: Tiles.Layout,
                 inventory: Inventory, modData: map<string, string>)
      ensures this.name == name && this.data == data && this.engine == engine && this.layout == layout
      ensures this.inventory == inventory && this.modData == modData && rewardLookup == map[]
      ensures totalPossible == PossibleDonations(engine, data.donationRequirements)
      ensures Valid()
    {
      this.name := name;
      this.data := data;
      this.engine := engine;
      this.layout := layout;
      this.inventory := inventory;
      this.modData := modData;
      rewardLookup := map[];
      totalPossible := {};
      new;
      CalculateDonations();
    }

    /** `CalculateDonations`: every registered id that would be suitable if nothing were donated. */
    method CalculateDonations()
      modifies this
      ensures totalPossible == PossibleDonations(engine, data.donationRequirements)
      ensures inventory == old(inventory) && rewardLookup == old(rewardLookup) && modData == old(modData)
    {
      var ids := engine.allIds;
      var reqs := data.donationRequirements;
      var found: set<string> := {};
      var i := 0;
      while i < |ids|
        invariant 0 <= i <= |ids|
        invariant found == set id | id in ids[..i] && IsItemSuitableForDonation(engine, reqs, [], Some(id), false)
        invariant inventory == old(inventory) && rewardLookup == old(rewardLookup) && modData == old(modData)
      {
        UncheckedIgnoresDonations(engine, reqs, inventory, [], Some(ids[i]));
        if IsItemSuitableForDonation(engine, reqs, inventory, Some(ids[i]), false) {
          found := found + {ids[i]};
        }
        assert ids[..i + 1] == ids[..i] + [ids[i]];
        i := i + 1;
      }
      assert ids[..|ids|] == ids;
      totalPossible := found;
    }

    /** The `TotalPossibleDonations` getter: the cache when non-empty, otherwise a fresh calculation. */
    method TotalPossibleDonations() returns (total: set<string>)
      modifies this
      requires Valid()
      ensures total == PossibleDonations(engine, data.donationRequirements) && totalPossible == total
      ensures Valid()
      ensures inventory == old(inventory) && rewardLookup == old(rewardLookup) && modData == old(modData)
    {
      if |totalPossible| > 0 {
        return totalPossible;
      }
      CalculateDonations();
      return totalPossible;
    }

    /** `IsTileSuitableForMuseumItem`, with the occupied tiles those of `DonatedItems`. */
    predicate IsTileSuitable(t: Tile)
      reads this
    {
      Tiles.IsTileSuitableForMuseumItem(layout, Donated().Keys, Tiles.ManagerSpotProperty, t)
    }

    /** `GetFreeDonationSpot`: the first suitable tile of the museum's bounds in scan order, or none. */
    method GetFreeDonationSpot() returns (r: Option<Tile>)
      ensures r.Some? ==> Tiles.InScan(data.bounds, r.value) && IsTileSuitable(r.value)
      ensures r.Some? ==> forall t :: Tiles.InScan(data.bounds, t) && Tiles.ScanBefore(t, r.value) ==> !IsTileSuitable(t)
      ensures r.None? <==> forall t :: Tiles.InScan(data.bounds, t) ==> !IsTileSuitable(t)
    {
      r := Tiles.GetFreeDonationSpot(data.bounds, SpotTest(layout, Donated().Keys));
    }

    /**
     * `FindMuseumPieceLocationInDirection`: the first probe that is suitable, or
     * occupied when existing items are not ignored; the starting tile when none is.
     */
    method FindMuseumPieceLocationInDirection(start: Tile, direction: int, distance: int, ignoreExisting: bool)
      returns (r: Tile)
      ensures var hit := ProbeHit(layout, Donated().Keys, ignoreExisting);
        (r == start && Tiles.MissedBefore(start, direction, distance, hit, if distance > 0 then distance else 0, 0))
        || (exists j: nat, i: nat :: j < distance && i < distance && r == Tiles.Probe(start, direction, j, i)
              && (IsTileSuitable(r) || (!ignoreExisting && r in Donated()))
              && Tiles.MissedBefore(start, direction, distance, hit, j, i))
    {
      r := Tiles.FindMuseumPieceLocationInDirection(start, direction, distance, ProbeHit(layout, Donated().Keys, ignoreExisting));
    }

    /**
     * `DonateItem(tile, itemId, force)`: tile (0,0) is refused, and so is an unsuitable
     * tile unless forced; a forced donation first removes whatever stands on the tile.
     * The created item is positioned on the tile and appended to the inventory, every
     * quest of every farmer's log (`quests`) runs its donation check with the item
     * (a completion filtering its next quests by `check`), and the item's global
     * flag, if the id has an entry, becomes true for this museum.
     */
    method DonateItem(location: Tile, itemId: string, force: bool, global: DonatableFlags,
                      quests: seq<Quests.Quest>, questData: map<string, QuestData>, check: Option<string> -> bool)
      returns (ok: bool)
      modifies this, global, set q | q in quests
      ensures ok <==> location != Tile(0, 0) && (force || old(IsTileSuitable(location)))
      ensures var base := if force then RemoveAt(old(inventory), location) else old(inventory);
        inventory == if ok then base + [Some(Placed(engine, itemId, location))] else old(inventory)
      ensures var baseFlags := if force then ClearFlagAt(old(global.flags), old(inventory), location, Key()) else old(global.flags);
        global.flags == if ok then SetFlag(baseFlags, engine.create(itemId).qualifiedId, Key(), true) else old(global.flags)
      ensures ok ==> location in Donated() && Donated()[location] == engine.create(itemId).qualifiedId
      ensures ok && !force ==> Donated() == old(Donated())[location := engine.create(itemId).qualifiedId]
      ensures UniquePositions(old(inventory)) ==> UniquePositions(inventory)
      ensures !ok ==> unchanged(quests)
      ensures ok && Quests.Distinct(quests) ==> forall i :: 0 <= i < |quests| ==>
        var o := Quests.DonationOutcome(Quests.QuestDataFor(questData, old(quests[i].id)), old(quests[i].modData),
                                        Some(Placed(engine, itemId, location)), engine.tagQuery, false);
        quests[i].modData == o.modData && Quests.CompletedIf(quests[i], Quests.QuestDataFor(questData, old(quests[i].id)), check, o.completes)
      ensures forall q :: q in quests ==> q.id == old(q.id)
      ensures totalPossible == old(totalPossible) && rewardLookup == old(rewardLookup) && modData == old(modData)
    {
      if location == Tile(0, 0) || (!force && !IsTileSuitable(location)) {
        return false;
      }
      ghost var unique := UniquePositions(inventory);
      if force {
        if unique {
          RemoveAtSpec(inventory, location);
        }
        var _ := RemoveItemAt(location, global);
      }
      assert unique ==> UniquePositions(inventory) && location !in Donated();
      var item := Placed(engine, itemId, location);
      DonateAppend(inventory, item, location);
      inventory := inventory + [Some(item)];
      Quests.NotifyDonation(quests, questData, Some(item), engine.tagQuery, check);
      global.flags := SetFlag(global.flags, item.qualifiedId, Key(), true);
      return true;
    }

    /**
     * `RemoveItem(tile)`: false, with nothing changed, for a tile that holds no
     * donation; otherwise every inventory entry with the tile's id (ignoring case)
     * is removed and the id's global flag becomes false for this museum.
     */
    method RemoveItemAt(location: Tile, global: DonatableFlags) returns (ok: bool)
      modifies this, global
      ensures ok <==> location in old(Donated())
      ensures inventory == RemoveAt(old(inventory), location)
      ensures global.flags == ClearFlagAt(old(global.flags), old(inventory), location, Key())
      ensures UniquePositions(old(inventory)) ==> UniquePositions(inventory) && location !in Donated()
      ensures totalPossible == old(totalPossible) && rewardLookup == old(rewardLookup) && modData == old(modData)
    {
      if location !in Donated() {
        return false;
      }
      var id := Donated()[location];
      if UniquePositions(inventory) {
        RemoveAtSpec(inventory, location);
      }
      inventory := RemoveId(inventory, id);
      global.flags := SetFlag(global.flags, id, Key(), false);
      return true;
    }

    /**
     * `RemoveItem(itemId)`: the first tile, in `DonatedItems` order, whose id equals the
     * qualified id ignoring case is removed; (0,0), also the answer when none matches,
     * is refused.
     */
    method RemoveItem(itemId: string, global: DonatableFlags) returns (ok: bool)
      modifies this, global
      ensures var t := FirstTileWithId(old(inventory), engine.qualify(itemId));
        && (ok <==> t != Tile(0, 0))
        && inventory == (if ok then RemoveAt(old(inventory), t) else old(inventory))
        && global.flags == (if ok then ClearFlagAt(old(global.flags), old(inventory), t, Key()) else old(global.flags))
      ensures UniquePositions(old(inventory)) && ok ==>
        UniquePositions(inventory) && forall u :: u in Donated() ==> !EqualsIgnoreCase(Donated()[u], engine.qualify(itemId))
      ensures totalPossible == old(totalPossible) && rewardLookup == old(rewardLookup) && modData == old(modData)
    {
      var q := engine.qualify(itemId);
      var location := FirstTileWithId(inventory, q);
      if location == Tile(0, 0) {
        return false;
      }
      if UniquePositions(inventory) {
        RemoveIdClearsId(inventory, Donated()[location], q);
      }
      ok := RemoveItemAt(location, global);
    }

    /**
     * `Reset`: every tile of a snapshot of `DonatedItems` is removed in turn, then the
     * possible donations are recalculated. With one entry per tile nothing stays donated;
     * the only flags changed are this museum's flags of donated ids, each cleared, and
     * every donated tile's id is equal, ignoring case, to one whose flag was cleared
     * (itself unless a differently cased id was removed first, so every donated id's
     * own flag is cleared when no two of them differ only in case).
     */
    method Reset(global: DonatableFlags)
      modifies this, global
      ensures UniquePositions(old(inventory)) ==> Donated() == map[]
      ensures UniquePositions(old(inventory)) ==> ResetCleared(old(Donated()), old(global.flags), global.flags, Key())
      ensures totalPossible == PossibleDonations(engine, data.donationRequirements)
      ensures rewardLookup == old(rewardLookup) && modData == old(modData)
      ensures global.flags.Keys == old(global.flags.Keys)
    {
      ghost var unique := UniquePositions(inventory);
      var order := DonatedOrder(inventory);
      DonatedOrderKeys(inventory);
      ghost var d0 := Donated();
      ghost var f0 := global.flags;
      var i := 0;
      while i < |order|
        invariant 0 <= i <= |order|
        invariant forall t :: t in order <==> t in d0
        invariant unique ==> ResetProgress(inventory, global.flags, d0, f0, Key())
        invariant unique ==> forall j :: 0 <= j < i ==> order[j] !in Donated()
        invariant global.flags.Keys == old(global.flags.Keys)
        invariant rewardLookup == old(rewardLookup) && modData == old(modData)
      {
        if unique {
          RemoveAtSpec(inventory, order[i]);
          ResetStep(inventory, global.flags, d0, f0, Key(), order[i]);
        }
        var _ := RemoveItemAt(order[i], global);
        i := i + 1;
      }
      if unique {
        forall t | t in d0 ensures t !in Donated() {
          var j :| 0 <= j < |order| && order[j] == t;
        }
        assert Donated().Keys == {};
        ResetFlagsDone(inventory, global.flags, d0, f0, Key());
      }
      CalculateDonations();
    }

    /** `DonationsSatisfyingRequirement`: the inventory entries, null slots included, that satisfy the requirement. */
    method DonationsSatisfyingRequirement(req: DonationRequirement) returns (n: nat)
      ensures n == CountSatisfying(inventory, req, engine.tagQuery)
      ensures n <= |inventory|
    {
      n := 0;
      var i := 0;
      while i < |inventory|
        invariant 0 <= i <= |inventory|
        invariant n == CountSatisfying(inventory[..i], req, engine.tagQuery)
      {
        assert inventory[..i + 1][..i] == inventory[..i];
        if DoesItemSatisfyRequirement(inventory[i], req, engine.tagQuery) {
          n := n + 1;
        }
        i := i + 1;
      }
      assert inventory[..i] == inventory;
    }

    /**
     * `RewardRequirementsCheck`: the met table of the museum's rewards. A reward
     * without an Id, or with an Id already present, is skipped; a reward's entry
     * starts true and turns false at the first requirement that fails.
     */
    method RewardRequirementsCheck() returns (results: map<string, bool>)
      modifies this
      requires Valid()
      ensures results == RewardTable(data.rewards, inventory, engine.tagQuery, |PossibleDonations(engine, data.donationRequirements)|)
      ensures Valid()
      ensures inventory == old(inventory) && rewardLookup == old(rewardLookup) && modData == old(modData)
    {
      ghost var total := |PossibleDonations(engine, data.donationRequirements)|;
      var rewards := data.rewards;
      results := map[];
      var i := 0;
      while i < |rewards|
        invariant 0 <= i <= |rewards|
        invariant Valid()
        invariant inventory == old(inventory) && rewardLookup == old(rewardLookup) && modData == old(modData)
        invariant results == RewardTable(rewards[..i], inventory, engine.tagQuery, total)
      {
        assert rewards[..i + 1][..i] == rewards[..i];
        var reward := rewards[i];
        if reward.id.None? || reward.id.value in results {
          i := i + 1;
          continue;
        }
        var id := reward.id.value;
        ghost var before := results;
        results := results[id := true];
        if reward.requirements.Some? {
          var met := RequirementsMet(reward.requirements.value);
          if !met {
            results := results[id := false];
          }
        }
        assert results == before[id := RewardMet(reward, inventory, engine.tagQuery, total)];
        i := i + 1;
      }
      assert rewards[..i] == rewards;
    }

    /**
     * The requirement loop of `RewardRequirementsCheck` for one reward: it stops
     * at the first requirement that fails.
     */
    method RequirementsMet(reqs: seq<CountedRequirement>) returns (met: bool)
      modifies this
      requires Valid()
      ensures met <==> forall k :: 0 <= k < |reqs| ==>
        RequirementPasses(reqs[k], inventory, engine.tagQuery, |PossibleDonations(engine, data.donationRequirements)|)
      ensures Valid()
      ensures inventory == old(inventory) && rewardLookup == old(rewardLookup) && modData == old(modData)
    {
      ghost var total := |PossibleDonations(engine, data.donationRequirements)|;
      var j := 0;
      while j < |reqs|
        invariant 0 <= j <= |reqs|
        invariant Valid()
        invariant inventory == old(inventory) && rewardLookup == old(rewardLookup) && modData == old(modData)
        invariant forall k :: 0 <= k < j ==> RequirementPasses(reqs[k], inventory, engine.tagQuery, total)
      {
        var requirement := reqs[j];
        var shouldBreak := false;
        if IsBlank(requirement.req) {
          if requirement.count == -1 {
            var all := TotalPossibleDonations();
            if |Donated()| < |all| {
              shouldBreak := true;
            }
          } else if requirement.count > |Donated()| {
            shouldBreak := true;
          }
        } else {
          var count := DonationsSatisfyingRequirement(requirement.req);
          if count < requirement.count {
            shouldBreak := true;
          }
        }
        if shouldBreak {
          return false;
        }
        j := j + 1;
      }
      return true;
    }

    /**
     * `OnRewardCollected`: for an item offered as a reward, the reward's non-item
     * part is granted and the item leaves the lookup; in any case the item's own
     * mail key is added unless the farmer has or will receive it.
     */
    method OnRewardCollected(item: Option<OfferedItem>, who: Player) returns (actions: seq<string>)
      modifies this, who
      requires Valid()
      ensures Valid()
      ensures item.None? ==> actions == [] && rewardLookup == old(rewardLookup) && who.mailReceived == old(who.mailReceived)
      ensures item.Some? ==> rewardLookup == old(rewardLookup) - {item.value}
      ensures item.Some? ==>
        who.mailReceived == old(who.mailReceived) + RewardFlagKeys(name, data.rewards, old(rewardLookup), item.value)
          + (if old(who.HasOrWillReceiveMail(RewardItemKey(name, item.value.item))) then {} else {RewardItemKey(name, item.value.item)})
      ensures item.Some? ==> who.HasOrWillReceiveMail(RewardItemKey(name, item.value.item))
      ensures who.pendingMail == old(who.pendingMail)
      ensures inventory == old(inventory) && totalPossible == old(totalPossible) && modData == old(modData)
    {
      actions := [];
      if item.None? {
        return;
      }
      var it := item.value;
      var key := RewardItemKey(name, it.item);
      ghost var hadKey := who.HasOrWillReceiveMail(key);
      actions := GrantOfferedReward(it, who);
      assert who.HasOrWillReceiveMail(key) == hadKey;
      if !who.HasOrWillReceiveMail(key) {
        who.mailReceived := who.mailReceived + {key};
      }
    }

    /** The reward part of `OnRewardCollected`: the non-item reward of the reward `it` was offered for, and its lookup entry removed. */
    method GrantOfferedReward(it: OfferedItem, who: Player) returns (actions: seq<string>)
      modifies this, who
      requires Valid()
      ensures Valid()
      ensures rewardLookup == old(rewardLookup) - {it}
      ensures who.mailReceived == old(who.mailReceived) + RewardFlagKeys(name, data.rewards, old(rewardLookup), it)
      ensures RewardItemKey(name, it.item) !in RewardFlagKeys(name, data.rewards, old(rewardLookup), it)
      ensures who.pendingMail == old(who.pendingMail)
      ensures inventory == old(inventory) && totalPossible == old(totalPossible) && modData == old(modData)
    {
      actions := [];
      if it in rewardLookup {
        var rewardId := rewardLookup[it];
        var reward := FirstRewardWithId(data.rewards, rewardId);
        rewardLookup := rewardLookup - {it};
        RewardKeysDistinct(name, rewardId, it.item);
        actions := AddNonItemRewards(name, reward, rewardId, who);
      }
    }

    /**
     * `IncrementLostBookCount`: only the main player counts. The bookset's counter,
     * then the total counter, is started at "1" or incremented; a stored counter that
     * is not an Int32 makes `int.Parse` throw, which stops the update there (false).
     */
    method IncrementLostBookCount(isMainPlayer: bool, booksetId: string) returns (ok: bool)
      modifies this
      ensures !isMainPlayer ==> ok && modData == old(modData)
      ensures isMainPlayer ==>
        var first := BumpCounter(old(modData), LostBooksKey(booksetId));
        && (ok <==> first.Some? && BumpCounter(first.value, TotalLostBooksKey).Some?)
        && modData == (if first.None? then old(modData)
                       else if ok then BumpCounter(first.value, TotalLostBooksKey).value
                       else first.value)
      ensures inventory == old(inventory) && totalPossible == old(totalPossible) && rewardLookup == old(rewardLookup)
    {
      if !isMainPlayer {
        return true;
      }
      var first := BumpCounter(modData, LostBooksKey(booksetId));
      if first.None? {
        return false;
      }
      modData := first.value;
      var second := BumpCounter(modData, TotalLostBooksKey);
      if second.None? {
        return false;
      }
      modData := second.value;
      return true;
    }

  }

  /** Removing the id found at a tile removes every tile whose id matches the query that found it. */
  lemma RemoveIdClearsId(inv: Inventory, found: string, query: string)
    requires UniquePositions(inv)
    requires EqualsIgnoreCase(found, query)
    ensures forall u :: u in DonatedItems(RemoveId(inv, found)) ==> !EqualsIgnoreCase(DonatedItems(RemoveId(inv, found))[u], query)
  {
    RemoveIdDonated(inv, found);
  }

  // ---------------------------------------------------------------------------
  // Shop owner presence
  // ---------------------------------------------------------------------------

  /** A character of the current location: its name and the tile it stands on. */
  datatype Character = Character(name: string, tile: Tile)

  /** The area `IsNpcClockedIn` checks: a zero-size area stands for its single corner tile. */
  function ClockInArea(area: Rect): (a: Rect)
    ensures area.width == 0 && area.height == 0 ==> a == Rect(area.x, area.y, 1, 1)
    ensures !(area.width == 0 && area.height == 0) ==> a == area
  {
    if area.width == 0 && area.height == 0 then Rect(area.x, area.y, 1, 1) else area
  }

  /**
   * `IsNpcClockedIn`: no NPC, no area or the empty rectangle means no; otherwise
   * some character with the NPC's name stands in the area.
   */
  predicate IsNpcClockedIn(npcName: Option<string>, area: Option<Rect>, characters: seq<Character>) {
    if npcName.None? || area.None? || area.value.IsEmpty() then false
    else exists i :: 0 <= i < |characters| && characters[i].name == npcName.value
                     && ClockInArea(area.value).Contains(characters[i].tile)
  }

  /**
   * A zero-size area away from the origin holds exactly its corner tile; any other
   * area holds the tiles of the rectangle (right and bottom edges excluded).
   */
  lemma NpcClockedInCases(npcName: string, area: Rect, characters: seq<Character>)
    requires !area.IsEmpty()
    ensures area.width == 0 && area.height == 0 ==>
      (IsNpcClockedIn(Some(npcName), Some(area), characters)
       <==> exists c :: c in characters && c.name == npcName && c.tile == Tile(area.x, area.y))
    ensures !(area.width == 0 && area.height == 0) ==>
      (IsNpcClockedIn(Some(npcName), Some(area), characters)
       <==> exists c :: c in characters && c.name == npcName
                        && area.x <= c.tile.x < area.x + area.width && area.y <= c.tile.y < area.y + area.height)
  {
    if exists c :: c in characters && c.name == npcName && ClockInArea(area).Contains(c.tile) {
      var c :| c in characters && c.name == npcName && ClockInArea(area).Contains(c.tile);
      var i :| 0 <= i < |characters| && characters[i] == c;
    }
  }

  /** Without an NPC or an area, or with the empty rectangle, nobody is clocked in. */
  lemma NpcNotClockedIn(npcName: Option<string>, area: Option<Rect>, characters: seq<Character>)
    requires npcName.None? || area.None? || area.value == Rect(0, 0, 0, 0)
    ensures !IsNpcClockedIn(npcName, area, characters)
  {
  }
}

