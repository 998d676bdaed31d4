/**
 * `GlobalDonatableCache`: for each item type ("(O)", "(F)", ...), a cache built
 * on first use that records, for every item of the type and every museum,
 * whether the item could be donated there and whether it already is. An edit
 * to one of the game's item data assets invalidates the types it defines; when
 * a dropped cache had found a possible donation, every museum's cached total
 * of possible donations is cleared.
 */
module DonatableCache {
  import opened Wrappers
  import opened Donations
  import opened Comparer
  import Manager

  /** `AssetNameTypeLookup`: the item types each data asset defines. */
  function AssetTypes(assetName: string): (r: Option<seq<string>>)
    ensures r.Some? ==> 1 <= |r.value| <= 2
  {
    if assetName == "Data/Objects" then Some(["(O)"])
    else if assetName == "Data/Furniture" then Some(["(F)"])
    else if assetName == "Data/BigCraftables" then Some(["(BC)"])
    else if assetName == "Data/Boots" then Some(["(B)"])
    else if assetName == "Data/AdditionalWallpaperFlooring" then Some(["(WP)", "(FL)"])
    else if assetName == "Data/FloorsAndPaths" then Some(["(WP)", "(FL)"])
    else if assetName == "Data/Hats" then Some(["(H)"])
    else if assetName == "Data/Mannequins" then Some(["(M)"])
    else if assetName == "Data/Pants" then Some(["(P)"])
    else if assetName == "Data/Shirts" then Some(["(S)"])
    else if assetName == "Data/Tools" then Some(["(T)"])
    else if assetName == "Data/Trinkets" then Some(["(TR)"])
    else if assetName == "Data/Weapons" then Some(["(W)"])
    else None
  }

  /** `DonationInfo`: whether an item could be donated to a museum, and whether it is. */
  datatype DonationInfo = DonationInfo(isValidDonation: bool, isDonated: bool)

  /** An item type definition: its identifier prefix and the unqualified ids it registers. */
  datatype TypeDefinition = TypeDefinition(identifier: string, allIds: seq<string>)

  /** The qualified ids of a type's items, `{Identifier}{itemId}`, in registration order. */
  function Qualified(t: TypeDefinition): (r: seq<string>)
    ensures |r| == |t.allIds| && forall i :: 0 <= i < |r| ==> r[i] == t.identifier + t.allIds[i]
  {
    seq(|t.allIds|, i requires 0 <= i < |t.allIds| => t.identifier + t.allIds[i])
  }

  /**
   * What `BuildCache` reads of a museum: the key its list is sorted and deduplicated
   * by (what the comparer reads), and the `DonationInfo` it gives each qualified id.
   */
  datatype MuseumView = MuseumView(key: MuseumKey, info: string -> DonationInfo)

  /**
   * A museum as `BuildCache` sees it: an item's info says whether the item is
   * suitable when donations are ignored, and whether it is donated there.
   */
  function View(m: Manager.MuseumManager): (v: MuseumView)
    reads m
    ensures v.key == MuseumKey(m.data.overrideDescription, m.data.id)
    ensures forall q :: v.info(q) == DonationInfo(IsItemSuitableForDonation(m.engine, m.data.donationRequirements,
                                                                           m.inventory, Some(q), false),
                                                 HasDonatedItem(m.engine, m.inventory, Some(q)))
  {
    var engine := m.engine;
    var reqs := m.data.donationRequirements;
    var inv := m.inventory;
    MuseumView(m.Key(),
               q => DonationInfo(IsItemSuitableForDonation(engine, reqs, inv, Some(q), false),
                                 HasDonatedItem(engine, inv, Some(q))))
  }

  function Info(v: MuseumView, qid: string): DonationInfo {
    v.info(qid)
  }

  // ---------------------------------------------------------------------------
  // BuildCache, as a function
  // ---------------------------------------------------------------------------

  type Entries = map<string, map<MuseumKey, DonationInfo>>

  /**
   * The inner loop of `BuildCache` for one item: for each museum, the item's list
   * is created if missing, and `TryAdd` records the museum's info unless a museum
   * with the same key is already listed.
   */
  function AddInfos(e: Entries, qid: string, ms: seq<MuseumView>): Entries
    decreases |ms|
  {
    if |ms| == 0 then e
    else
      var e' := AddInfos(e, qid, ms[..|ms| - 1]);
      var m := ms[|ms| - 1];
      var row := if qid in e' then e'[qid] else map[];
      e'[qid := if m.key in row then row else row[m.key := Info(m, qid)]]
  }

  /** The outer loop of `BuildCache`, over the type's items. */
  function Built(e: Entries, qids: seq<string>, ms: seq<MuseumView>): Entries
    decreases |qids|
  {
    if |qids| == 0 then e
    else AddInfos(Built(e, qids[..|qids| - 1], ms), qids[|qids| - 1], ms)
  }

  /** Some museum would accept the item. */
  predicate ValidSomewhere(qid: string, ms: seq<MuseumView>)
  {
    exists j :: 0 <= j < |ms| && Info(ms[j], qid).isValidDonation
  }

  /** Some item of the list is a possible donation somewhere. */
  predicate AnyValid(qids: seq<string>, ms: seq<MuseumView>)
  {
    exists i :: 0 <= i < |qids| && ValidSomewhere(qids[i], ms)
  }

  // ---------------------------------------------------------------------------
  // The reference definition: one list per item, the first museum per key
  // ---------------------------------------------------------------------------

  /** The index of the first museum with a key. */
  function FirstWithKey(ms: seq<MuseumView>, k: MuseumKey): (j: nat)
    requires exists j :: 0 <= j < |ms| && ms[j].key == k
    ensures j < |ms| && ms[j].key == k && forall i :: 0 <= i < j ==> ms[i].key != k
    decreases |ms|
  {
    if ms[0].key == k then 0
    else
      var j :| 0 <= j < |ms| && ms[j].key == k;
      assert ms[1..][j - 1] == ms[j];
      1 + FirstWithKey(ms[1..], k)
  }

  /** The keys of the museums. */
  function Keys(ms: seq<MuseumView>): set<MuseumKey> {
    set j | 0 <= j < |ms| :: ms[j].key
  }

  /** An item's list when it is built in one pass over the museums. */
  function RowOf(ms: seq<MuseumView>, qid: string): map<MuseumKey, DonationInfo>
    decreases |ms|
  {
    if |ms| == 0 then map[]
    else
      var r := RowOf(ms[..|ms| - 1], qid);
      var m := ms[|ms| - 1];
      if m.key in r then r else r[m.key := Info(m, qid)]
  }

  /** An item's list names every museum key once, with the info of the first museum that has the key. */
  lemma {:induction false} RowOfSpec(ms: seq<MuseumView>, qid: string, k: MuseumKey)
    ensures k in RowOf(ms, qid) <==> k in Keys(ms)
    ensures k in Keys(ms) ==> RowOf(ms, qid)[k] == Info(ms[FirstWithKey(ms, k)], qid)
    decreases |ms|
  {
    if |ms| > 0 {
      var p := ms[..|ms| - 1];
      var m := ms[|ms| - 1];
      RowOfSpec(p, qid, k);
      RowOfSpec(p, qid, m.key);
      assert forall j :: 0 <= j < |p| ==> p[j] == ms[j];
      assert Keys(ms) == Keys(p) + {m.key};
      if |p| == 0 {
        if k == m.key {
          assert FirstWithKey(ms, k) == 0;
        }
      } else if k in Keys(ms) {
        FirstWithKeyPrefix(ms, k);
      }
    }
  }

  /** What a fresh cache holds after `BuildCache`: each item of the type has its list. */
  function Expected(qids: seq<string>, ms: seq<MuseumView>): Entries
  {
    map q | q in qids :: RowOf(ms, q)
  }

  /** Adding an item's infos leaves the other items' lists alone. */
  lemma {:induction false} AddInfosOthers(e: Entries, qid: string, ms: seq<MuseumView>)
    ensures AddInfos(e, qid, ms).Keys == if |ms| == 0 then e.Keys else e.Keys + {qid}
    ensures forall q :: q in e && q != qid ==> AddInfos(e, qid, ms)[q] == e[q]
    decreases |ms|
  {
    if |ms| > 0 {
      AddInfosOthers(e, qid, ms[..|ms| - 1]);
    }
  }

  /** An item seen for the first time gets its list built in one pass. */
  lemma {:induction false} AddInfosFresh(e: Entries, qid: string, ms: seq<MuseumView>)
    requires qid !in e && |ms| > 0
    ensures AddInfos(e, qid, ms) == e[qid := RowOf(ms, qid)]
    decreases |ms|
  {
    if |ms| > 1 {
      AddInfosFresh(e, qid, ms[..|ms| - 1]);
    }
  }

  /** The first museum with a key lies in the prefix when the prefix has the key, and is the last one otherwise. */
  lemma FirstWithKeyPrefix(ms: seq<MuseumView>, k: MuseumKey)
    requires |ms| > 1 && k in Keys(ms)
    ensures k in Keys(ms[..|ms| - 1]) ==> FirstWithKey(ms, k) == FirstWithKey(ms[..|ms| - 1], k)
    ensures k !in Keys(ms[..|ms| - 1]) ==> FirstWithKey(ms, k) == |ms| - 1 && ms[|ms| - 1].key == k
  {
    var p := ms[..|ms| - 1];
    assert forall j :: 0 <= j < |p| ==> p[j] == ms[j];
    var f := FirstWithKey(ms, k);
    if f < |p| {
      assert p[f].key == k;
      var g := FirstWithKey(p, k);
      assert ms[g].key == k;
    }
  }

  /** An item whose list already names every museum key is not changed by another pass. */
  lemma {:induction false} AddInfosFull(e: Entries, qid: string, ms: seq<MuseumView>)
    requires qid in e && Keys(ms) <= e[qid].Keys
    ensures AddInfos(e, qid, ms) == e
    decreases |ms|
  {
    if |ms| > 0 {
      var p := ms[..|ms| - 1];
      assert Keys(p) <= Keys(ms) by {
        forall k | k in Keys(p) ensures k in Keys(ms) {
          var j :| 0 <= j < |p| && p[j].key == k;
          assert p[j] == ms[j];
        }
      }
      AddInfosFull(e, qid, p);
      assert ms[|ms| - 1].key in Keys(ms);
    }
  }

  /**
   * A fresh cache built over at least one museum holds exactly one list per item
   * of the type, and each list keeps, per museum key, the first museum's info.
   */
  lemma {:induction false} BuiltIsExpected(qids: seq<string>, ms: seq<MuseumView>)
    requires |ms| > 0
    ensures Built(map[], qids, ms) == Expected(qids, ms)
    decreases |qids|
  {
    if |qids| > 0 {
      var p := qids[..|qids| - 1];
      var q := qids[|qids| - 1];
      BuiltIsExpected(p, ms);
      var e := Expected(p, ms);
      if q in p {
        forall k | k in Keys(ms) ensures k in e[q] {
          RowOfSpec(ms, q, k);
        }
        AddInfosFull(e, q, ms);
      } else {
        AddInfosFresh(e, q, ms);
      }
      ExpectedStep(qids, ms);
    }
  }

  /** The reference entries grow by one item per item of the list. */
  lemma ExpectedStep(qids: seq<string>, ms: seq<MuseumView>)
    requires |qids| > 0
    ensures Expected(qids, ms) == Expected(qids[..|qids| - 1], ms)[qids[|qids| - 1] := RowOf(ms, qids[|qids| - 1])]
  {
    var p := qids[..|qids| - 1];
    assert forall x :: x in qids <==> x in p || x == qids[|qids| - 1];
  }

  /** Without museums nothing is recorded. */
  lemma {:induction false} BuiltWithoutMuseums(e: Entries, qids: seq<string>)
    ensures Built(e, qids, []) == e
    decreases |qids|
  {
    if |qids| > 0 {
      BuiltWithoutMuseums(e, qids[..|qids| - 1]);
    }
  }

  // ---------------------------------------------------------------------------
  // The caches
  // ---------------------------------------------------------------------------

  /** `DonationInfoCache`: one item type's lists, and whether any item is a possible donation. */
  class DonationInfoCache {
    const itemType: TypeDefinition
    var entries: Entries
    var isUsed: bool

    constructor (itemType: TypeDefinition)
      ensures this.itemType == itemType && entries == map[] && !isUsed
    {
      this.itemType := itemType;
      entries := map[];
      isUsed := false;
    }

    /** The museum loop of `BuildCache` for one item. */
    method AddItem(qid: string, ms: seq<MuseumView>)
      modifies this
      ensures entries == AddInfos(old(entries), qid, ms)
      ensures isUsed == (old(isUsed) || ValidSomewhere(qid, ms))
    {
      var j := 0;
      while j < |ms|
        invariant 0 <= j <= |ms|
        invariant entries == AddInfos(old(entries), qid, ms[..j])
        invariant isUsed == (old(isUsed) || exists i :: 0 <= i < j && Info(ms[i], qid).isValidDonation)
      {
        assert ms[..j + 1][..j] == ms[..j];
        var m := ms[j];
        var info := Info(m, qid);
        if qid !in entries {
          entries := entries[qid := map[]];
        }
        if m.key !in entries[qid] {
          entries := entries[qid := entries[qid][m.key := info]];
        }
        if info.isValidDonation {
          isUsed := true;
        }
        j := j + 1;
      }
      assert ms[..j] == ms;
    }

    /**
     * `BuildCache`: every item of the type is checked against every museum. The
     * registration of possible donations with the museums is not part of this model.
     */
    method BuildCache(ms: seq<MuseumView>)
      modifies this
      ensures entries == Built(old(entries), Qualified(itemType), ms)
      ensures isUsed == (old(isUsed) || AnyValid(Qualified(itemType), ms))
    {
      var qids := Qualified(itemType);
      var i := 0;
      while i < |qids|
        invariant 0 <= i <= |qids|
        invariant entries == Built(old(entries), qids[..i], ms)
        invariant isUsed == (old(isUsed) || exists k :: 0 <= k < i && ValidSomewhere(qids[k], ms))
      {
        assert qids[..i + 1][..i] == qids[..i];
        AddItem(qids[i], ms);
        i := i + 1;
      }
      assert qids[..i] == qids;
    }
  }

  /** The types of a list, as a set. */
  function TypeSet(types: seq<string>): set<string> {
    set i | 0 <= i < |types| :: types[i]
  }

  /** Some cache that `types` names has found a possible donation. */
  predicate RemovesUsed(caches: map<string, DonationInfoCache>, types: seq<string>)
    reads set t | t in caches :: caches[t]
  {
    exists i :: 0 <= i < |types| && types[i] in caches && caches[types[i]].isUsed
  }

  /** Clear every museum's cached total of possible donations. */
  method ClearTotals(ms: seq<Manager.MuseumManager>)
    modifies set m | m in ms
    ensures forall m :: m in ms ==> m.totalPossible == {}
    ensures forall m :: m in ms ==> m.inventory == old(m.inventory) && m.rewardLookup == old(m.rewardLookup)
                                    && m.modData == old(m.modData)
    ensures forall m :: m in ms && old(m.Valid()) ==> m.Valid()
  {
    var i := 0;
    while i < |ms|
      invariant 0 <= i <= |ms|
      invariant forall j :: 0 <= j < i ==> ms[j].totalPossible == {}
      invariant forall m :: m in ms ==> m.inventory == old(m.inventory) && m.rewardLookup == old(m.rewardLookup)
                                        && m.modData == old(m.modData)
      invariant forall m :: m in ms && old(m.Valid()) ==> m.Valid()
    {
      ms[i].totalPossible := {};
      i := i + 1;
    }
  }

  /** `GlobalDonatableCache`: the item type caches built so far. */
  class GlobalDonatableCache {
    var caches: map<string, DonationInfoCache>

    constructor ()
      ensures caches == map[]
    {
      caches := map[];
    }

    /**
     * `Invalidate(assetName)`: an asset outside the table changes nothing. Otherwise
     * each of its types is dropped from the cache, and when a dropped cache had found
     * a possible donation the museums' totals are cleared.
     */
    method Invalidate(assetName: string, ms: seq<Manager.MuseumManager>)
      modifies this, set m | m in ms
      ensures var lookup := AssetTypes(assetName);
        lookup.None? ==> caches == old(caches) && forall m :: m in ms ==> unchanged(m)
      ensures var lookup := AssetTypes(assetName);
        lookup.Some? ==> caches == old(caches) - TypeSet(lookup.value)
      ensures var lookup := AssetTypes(assetName);
        lookup.Some? && RemovesUsed(old(caches), lookup.value) ==> forall m :: m in ms ==> m.totalPossible == {}
      ensures var lookup := AssetTypes(assetName);
        lookup.Some? && !RemovesUsed(old(caches), lookup.value) ==> forall m :: m in ms ==> unchanged(m)
      ensures forall m :: m in ms ==> m.inventory == old(m.inventory) && m.rewardLookup == old(m.rewardLookup)
                                      && m.modData == old(m.modData)
      ensures forall m :: m in ms && old(m.Valid()) ==> m.Valid()
    {
      var lookup := AssetTypes(assetName);
      if lookup.None? {
        return;
      }
      var clearTotals := RemoveTypes(lookup.value);
      if !clearTotals {
        return;
      }
      ClearTotals(ms);
    }

    /** The loop of `Invalidate` over the asset's types: present types are removed, absent ones skipped. */
    method RemoveTypes(types: seq<string>) returns (clearTotals: bool)
      modifies this
      ensures caches == old(caches) - TypeSet(types)
      ensures clearTotals == RemovesUsed(old(caches), types)
    {
      clearTotals := false;
      var i := 0;
      while i < |types|
        invariant 0 <= i <= |types|
        invariant caches == old(caches) - TypeSet(types[..i])
        invariant clearTotals == exists j :: 0 <= j < i && types[j] in old(caches) && old(caches)[types[j]].isUsed
      {
        assert TypeSet(types[..i + 1]) == TypeSet(types[..i]) + {types[i]};
        if types[i] in caches {
          if caches[types[i]].isUsed {
            clearTotals := true;
          }
          caches := caches - {types[i]};
        }
        i := i + 1;
      }
      assert types[..i] == types;
    }

    /** `InvalidateAll`: the cache is emptied and every museum's total is cleared. */
    method InvalidateAll(ms: seq<Manager.MuseumManager>)
      modifies this, set m | m in ms
      ensures caches == map[]
      ensures forall m :: m in ms ==> m.totalPossible == {}
      ensures forall m :: m in ms ==> m.inventory == old(m.inventory) && m.rewardLookup == old(m.rewardLookup)
                                      && m.modData == old(m.modData)
      ensures forall m :: m in ms && old(m.Valid()) ==> m.Valid()
    {
      caches := map[];
      ClearTotals(ms);
    }

    /**
     * `TryGetValue(itemType)`: a cached type is returned as it is. A type the item
     * registry does not know gives false and caches nothing. Otherwise a new cache
     * is stored, built over the museums and returned.
     */
    method TryGetValue(itemType: string, registry: map<string, TypeDefinition>, ms: seq<MuseumView>)
      returns (found: bool, cache: DonationInfoCache?)
      modifies this
      ensures itemType in old(caches) ==>
        found && cache == old(caches)[itemType] && caches == old(caches) && unchanged(cache)
      ensures itemType !in old(caches) && itemType !in registry ==> !found && cache == null && caches == old(caches)
      ensures itemType !in old(caches) && itemType in registry ==>
        found && cache != null && fresh(cache) && caches == old(caches)[itemType := cache]
        && cache.itemType == registry[itemType]
        && cache.entries == Built(map[], Qualified(registry[itemType]), ms)
        && cache.isUsed == AnyValid(Qualified(registry[itemType]), ms)
    {
      if itemType in caches {
        return true, caches[itemType];
      }
      if itemType !in registry {
        return false, null;
      }
      cache := new DonationInfoCache(registry[itemType]);
      caches := caches[itemType := cache];
      cache.BuildCache(ms);
      found := true;
    }
  }
}
