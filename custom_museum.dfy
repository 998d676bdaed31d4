/**
 * The older `CustomMuseum` location. Its donations are a tile-to-id dictionary,
 * its requirements have single-valued filters, its total of possible donations
 * is computed once and cached, and its reward flag is the bare reward Id.
 * Its museum records (`ValidContextTags`, `ValidItemIds`, `ValidCategories`,
 * and requirements with `ItemId`, `Category` and `ContextTag`) are modelled
 * by the datatypes below.
 */
module LegacyMuseum {
  import opened Wrappers
  import opened Text
  import opened Models
  import Matcher
  import Tiles
  import Donations
  import Rewards

  /** A requirement of the older records: each filter is one value or null; the category is compared as text. */
  datatype LegacyRequirement = LegacyRequirement(
    itemId: Option<string>,
    category: Option<string>,
    contextTag: Option<string>,
    count: int)

  datatype LegacyReward = LegacyReward(
    id: Option<string>,
    requirements: Option<seq<LegacyRequirement>>,
    rewardItems: Option<seq<RewardItemEntry>>,
    actions: Option<seq<string>>,
    rewardIsSpecial: bool,
    flagOnCompletion: bool)

  /** The older museum record: the three lists that decide what may be donated, and the rewards. */
  datatype LegacyMuseumData = LegacyMuseumData(
    validContextTags: seq<string>,
    validItemIds: seq<string>,
    validCategories: seq<int>,
    rewards: seq<LegacyReward>)

  /** The type prefix of the object item type. */
  const ObjectTypePrefix: string := "(O)"

  /** `ParsedItemData.HasTypeObject()`: the qualified id carries the object type prefix. */
  predicate HasTypeObject(qualifiedId: string) {
    |qualifiedId| >= 3 && qualifiedId[..3] == ObjectTypePrefix
  }

  /** `HasDonatedItem(itemId)`: null is never donated; otherwise some tile holds the qualified id exactly. */
  predicate HasDonatedItem(engine: Matcher.Engine, donated: map<Tile, string>, itemId: Option<string>) {
    itemId.Some? && exists t :: t in donated && donated[t] == engine.qualify(itemId.value)
  }

  /** Some valid context tag is among the item's base tags. */
  predicate HasValidTag(data: LegacyMuseumData, tags: set<string>) {
    exists i :: 0 <= i < |data.validContextTags| && data.validContextTags[i] in tags
  }

  /**
   * `IsItemSuitableForDonation(itemId, checkDonatedItems)`. `data` is the museum's
   * entry in the framework's museum data, None when the location has none.
   */
  predicate IsItemSuitableForDonation(engine: Matcher.Engine, data: Option<LegacyMuseumData>, donated: map<Tile, string>,
                                      itemId: Option<string>, checkDonated: bool)
  {
    if itemId.None? then false
    else
      var qid := engine.qualify(itemId.value);
      var item := engine.create(qid);
      if !HasTypeObject(item.qualifiedId) || Donations.NotDonatableTag in item.tags then false
      else if checkDonated && HasDonatedItem(engine, donated, Some(item.qualifiedId)) then false
      else if data.None? then false
      else if |data.value.validContextTags| > 0 && HasValidTag(data.value, item.tags) then true
      else if |data.value.validItemIds| > 0 && qid in data.value.validItemIds then true
      else if |data.value.validCategories| > 0 && item.category in data.value.validCategories then true
      else false
  }

  /**
   * An item is suitable exactly when it is an object, is not tagged
   * "not_museum_donatable", is not donated (when that is checked), the museum has
   * data, and one of the three lists admits it; the emptiness guards change nothing.
   */
  lemma SuitabilityCases(engine: Matcher.Engine, data: Option<LegacyMuseumData>, donated: map<Tile, string>,
                         id: string, checkDonated: bool)
    ensures var qid := engine.qualify(id);
      var item := engine.create(qid);
      IsItemSuitableForDonation(engine, data, donated, Some(id), checkDonated)
      <==> HasTypeObject(item.qualifiedId) && Donations.NotDonatableTag !in item.tags
           && !(checkDonated && HasDonatedItem(engine, donated, Some(item.qualifiedId)))
           && data.Some?
           && (HasValidTag(data.value, item.tags) || qid in data.value.validItemIds
               || item.category in data.value.validCategories)
    ensures !IsItemSuitableForDonation(engine, data, donated, None, checkDonated)
    ensures data.None? ==> !IsItemSuitableForDonation(engine, data, donated, Some(id), checkDonated)
  {
  }

  /** Without the donated check, suitability does not depend on what is donated. */
  lemma UncheckedIgnoresDonations(engine: Matcher.Engine, data: Option<LegacyMuseumData>, d1: map<Tile, string>,
                                  d2: map<Tile, string>, itemId: Option<string>)
    ensures IsItemSuitableForDonation(engine, data, d1, itemId, false)
        == IsItemSuitableForDonation(engine, data, d2, itemId, false)
  {
  }

  /** A donated item is never suitable again while donations are checked. */
  lemma DonatedNotSuitable(engine: Matcher.Engine, data: Option<LegacyMuseumData>, donated: map<Tile, string>,
                           id: string, t: Tile)
    requires t in donated && donated[t] == engine.qualify(engine.create(engine.qualify(id)).qualifiedId)
    ensures !IsItemSuitableForDonation(engine, data, donated, Some(id), true)
  {
  }

  /** The object ids the cached total counts: the suitable ones among `"(O)" + id`, donations ignored. */
  function CountSuitableObjects(engine: Matcher.Engine, data: Option<LegacyMuseumData>, ids: seq<string>): (n: nat)
    ensures n <= |ids|
    decreases |ids|
  {
    if |ids| == 0 then 0
    else CountSuitableObjects(engine, data, ids[..|ids| - 1])
         + (if IsItemSuitableForDonation(engine, data, map[], Some(ObjectTypePrefix + ids[|ids| - 1]), false) then 1 else 0)
  }

  /** A museum without data has no possible donations. */
  lemma {:induction false} NoDataNoPossibleDonations(engine: Matcher.Engine, ids: seq<string>)
    ensures CountSuitableObjects(engine, None, ids) == 0
    decreases |ids|
  {
    if |ids| > 0 {
      NoDataNoPossibleDonations(engine, ids[..|ids| - 1]);
    }
  }

  // ---------------------------------------------------------------------------
  // Requirements
  // ---------------------------------------------------------------------------

  /** A requirement with every filter null: it counts donated tiles. */
  predicate IsUnfiltered(req: LegacyRequirement) {
    req.itemId.None? && req.category.None? && req.contextTag.None?
  }

  /**
   * A donated id matches a requirement when each non-null filter agrees: the id
   * equals `ItemId`, the item's category written in decimal equals `Category`,
   * and `ContextTag` is one of the item's base tags.
   */
  predicate LegacyMatches(engine: Matcher.Engine, value: string, req: LegacyRequirement) {
    var item := engine.create(value);
    (req.itemId.None? || value == req.itemId.value)
    && (req.category.None? || IntToString(item.category) == req.category.value)
    && (req.contextTag.None? || req.contextTag.value in item.tags)
  }

  /** The tiles among `seen` whose donated id matches. */
  function MatchingIn(engine: Matcher.Engine, donated: map<Tile, string>, req: LegacyRequirement, seen: set<Tile>): set<Tile> {
    set t | t in seen && t in donated && LegacyMatches(engine, donated[t], req)
  }

  /** The donated tiles whose id matches. */
  function MatchingTiles(engine: Matcher.Engine, donated: map<Tile, string>, req: LegacyRequirement): set<Tile> {
    MatchingIn(engine, donated, req, donated.Keys)
  }

  /** A subset is no larger than its superset. */
  lemma {:induction false} SubsetCardinality<T>(a: set<T>, b: set<T>)
    requires a <= b
    ensures |a| <= |b|
    decreases |a|
  {
    if a != {} {
      var x :| x in a;
      SubsetCardinality(a - {x}, b - {x});
    }
  }

  /** Scanning one more donated tile adds one to the matches exactly when its id matches. */
  lemma MatchingStep(engine: Matcher.Engine, donated: map<Tile, string>, req: LegacyRequirement, seen: set<Tile>, t: Tile)
    requires t in donated && t !in seen
    ensures |MatchingIn(engine, donated, req, seen + {t})|
         == |MatchingIn(engine, donated, req, seen)| + (if LegacyMatches(engine, donated[t], req) then 1 else 0)
  {
    if LegacyMatches(engine, donated[t], req) {
      assert MatchingIn(engine, donated, req, seen + {t}) == MatchingIn(engine, donated, req, seen) + {t};
    } else {
      assert MatchingIn(engine, donated, req, seen + {t}) == MatchingIn(engine, donated, req, seen);
    }
  }

  /**
   * The counting loop of `RewardRequirementsCheck`, which stops as soon as the
   * count reaches the requirement's `Count`. Stopping early never changes the
   * verdict `count < Count`.
   */
  method CountMatchesUpTo(engine: Matcher.Engine, donated: map<Tile, string>, req: LegacyRequirement) returns (count: nat)
    ensures count <= |MatchingTiles(engine, donated, req)|
    ensures count < req.count <==> |MatchingTiles(engine, donated, req)| < req.count
  {
    count := 0;
    var rest := donated.Keys;
    while rest != {}
      invariant rest <= donated.Keys
      invariant count == |MatchingIn(engine, donated, req, donated.Keys - rest)|
      decreases |rest|
    {
      var t :| t in rest;
      MatchingStep(engine, donated, req, donated.Keys - rest, t);
      ScanOne(donated.Keys, rest, t);
      if LegacyMatches(engine, donated[t], req) {
        count := count + 1;
      }
      rest := rest - {t};
      if count >= req.count {
        SubsetCardinality(MatchingIn(engine, donated, req, donated.Keys - rest), MatchingTiles(engine, donated, req));
        return;
      }
    }
    assert donated.Keys - rest == donated.Keys;
  }

  /** Taking one element out of the unscanned part puts it in the scanned part. */
  lemma ScanOne<T>(all: set<T>, rest: set<T>, t: T)
    requires t in rest && rest <= all
    ensures all - (rest - {t}) == (all - rest) + {t}
  {
  }

  /**
   * One requirement: an unfiltered one compares `Count` with the number of
   * donated tiles, -1 standing for the total of possible donations; any other
   * one needs at least `Count` matching donated tiles.
   */
  predicate RequirementPasses(engine: Matcher.Engine, donated: map<Tile, string>, req: LegacyRequirement, total: int) {
    if IsUnfiltered(req) then
      if req.count == -1 then !(|donated| < total) else !(req.count > |donated|)
    else !(|MatchingTiles(engine, donated, req)| < req.count)
  }

  predicate RewardMet(engine: Matcher.Engine, donated: map<Tile, string>, reward: LegacyReward, total: int) {
    reward.requirements.None?
    || forall k :: 0 <= k < |reward.requirements.value| ==>
         RequirementPasses(engine, donated, reward.requirements.value[k], total)
  }

  /** The exception a null reward Id raises as a dictionary key. */
  const NullKeyError: string := "Value cannot be null. (Parameter 'key')"

  /**
   * The table `RewardRequirementsCheck` returns: each reward in order sets its Id's
   * entry, overwriting an earlier reward with the same Id; a null Id throws.
   */
  function RewardTable(engine: Matcher.Engine, donated: map<Tile, string>, rewards: seq<LegacyReward>, total: int)
    : Result<map<string, bool>, string>
    decreases |rewards|
  {
    if |rewards| == 0 then Success(map[])
    else
      match RewardTable(engine, donated, rewards[..|rewards| - 1], total)
      case Failure(_) => Failure(NullKeyError)
      case Success(t) =>
        var r := rewards[|rewards| - 1];
        if r.id.None? then Failure(NullKeyError)
        else Success(t[r.id.value := RewardMet(engine, donated, r, total)])
  }

  /** Any reward without an Id makes the whole check fail. */
  lemma {:induction false} NullIdFails(engine: Matcher.Engine, donated: map<Tile, string>, rewards: seq<LegacyReward>, total: int, i: nat)
    requires i < |rewards| && rewards[i].id.None?
    ensures RewardTable(engine, donated, rewards, total) == Failure(NullKeyError)
    decreases |rewards|
  {
    if i < |rewards| - 1 {
      var p := rewards[..|rewards| - 1];
      assert p[i] == rewards[i];
      NullIdFails(engine, donated, p, total, i);
    }
  }

  /** With every Id present the check succeeds, and its keys are exactly the Ids. */
  lemma {:induction false} RewardTableKeys(engine: Matcher.Engine, donated: map<Tile, string>, rewards: seq<LegacyReward>, total: int)
    requires forall i :: 0 <= i < |rewards| ==> rewards[i].id.Some?
    ensures RewardTable(engine, donated, rewards, total).Success?
    ensures forall x :: x in RewardTable(engine, donated, rewards, total).value
                    <==> exists i :: 0 <= i < |rewards| && rewards[i].id == Some(x)
    decreases |rewards|
  {
    if |rewards| > 0 {
      var p := rewards[..|rewards| - 1];
      assert forall i :: 0 <= i < |p| ==> p[i] == rewards[i];
      RewardTableKeys(engine, donated, p, total);
    }
  }

  /** The entry of the last reward with an Id is that reward's verdict. */
  lemma {:induction false} RewardTableEntry(engine: Matcher.Engine, donated: map<Tile, string>, rewards: seq<LegacyReward>,
                                            total: int, i: nat)
    requires forall j :: 0 <= j < |rewards| ==> rewards[j].id.Some?
    requires i < |rewards|
    requires forall j :: i < j < |rewards| ==> rewards[j].id != rewards[i].id
    ensures RewardTable(engine, donated, rewards, total).Success?
    ensures rewards[i].id.value in RewardTable(engine, donated, rewards, total).value
    ensures RewardTable(engine, donated, rewards, total).value[rewards[i].id.value]
         == RewardMet(engine, donated, rewards[i], total)
    decreases |rewards|
  {
    var p := rewards[..|rewards| - 1];
    assert forall j :: 0 <= j < |p| ==> p[j] == rewards[j];
    RewardTableKeys(engine, donated, p, total);
    if i < |rewards| - 1 {
      RewardTableEntry(engine, donated, p, total, i);
    }
  }

  // ---------------------------------------------------------------------------
  // Collecting rewards
  // ---------------------------------------------------------------------------

  /**
   * `CanCollectReward`: the flag is the bare reward Id. `firstAvailable`,
   * `available` and `ownsSpecial` are as in `Rewards.CanCollectReward`.
   */
  predicate CanCollectReward(reward: LegacyReward, rewardId: string, mail: set<string>, met: map<string, bool>,
                             firstAvailable: Option<Matcher.Item>, available: seq<Matcher.Item>, ownsSpecial: Matcher.Item -> bool)
    requires (reward.flagOnCompletion && rewardId in mail) || rewardId in met
  {
    if reward.flagOnCompletion && rewardId in mail then
      reward.rewardItems.Some? && firstAvailable.Some?
    else if !met[rewardId] then false
    else if reward.rewardItems.Some? && reward.rewardIsSpecial then
      !exists i :: 0 <= i < |available| && ownsSpecial(available[i])
    else true
  }

  /**
   * A flagged reward is collectable only for an item that still resolves; an
   * unflagged one needs met requirements and, when special, no owned item.
   */
  lemma CanCollectRewardCases(reward: LegacyReward, rewardId: string, mail: set<string>, met: map<string, bool>,
                              firstAvailable: Option<Matcher.Item>, available: seq<Matcher.Item>, ownsSpecial: Matcher.Item -> bool)
    requires (reward.flagOnCompletion && rewardId in mail) || rewardId in met
    ensures reward.flagOnCompletion && rewardId in mail ==>
      (CanCollectReward(reward, rewardId, mail, met, firstAvailable, available, ownsSpecial)
       <==> reward.rewardItems.Some? && firstAvailable.Some?)
    ensures !(reward.flagOnCompletion && rewardId in mail) ==>
      (CanCollectReward(reward, rewardId, mail, met, firstAvailable, available, ownsSpecial)
       <==> met[rewardId] && !(reward.rewardItems.Some? && reward.rewardIsSpecial
                               && exists it :: it in available && ownsSpecial(it)))
  {
    if exists it :: it in available && ownsSpecial(it) {
      var it :| it in available && ownsSpecial(it);
      var i :| 0 <= i < |available| && available[i] == it;
    }
  }

  /** `GetRewardItemKey`: the museum name, "_museumCollectedReward", then the item's standard description. */
  function RewardItemKey(museumName: string, description: string): string {
    museumName + "_museumCollectedReward" + description
  }

  /** In one museum, distinct descriptions give distinct keys. */
  lemma RewardItemKeyInjective(museumName: string, d1: string, d2: string)
    requires RewardItemKey(museumName, d1) == RewardItemKey(museumName, d2)
    ensures d1 == d2
  {
    Rewards.PrefixCancel(museumName + "_museumCollectedReward", d1, d2);
  }

  /** `AddRewardItemIfUncollected`: the item is offered, and true returned, exactly when its key is not received. */
  function AddRewardItemIfUncollected(key: string, mail: set<string>, offered: seq<Matcher.Item>, item: Matcher.Item): (r: (bool, seq<Matcher.Item>))
    ensures r.0 <==> key !in mail
    ensures r.1 == if r.0 then offered + [item] else offered
  {
    if key !in mail then (true, offered + [item]) else (false, offered)
  }

  /** `AddNonItemRewards`: the bare reward Id is flagged when `FlagOnCompletion` holds; `Actions` are the actions to run. */
  method AddNonItemRewards(reward: LegacyReward, rewardId: string, player: Rewards.Player) returns (actions: seq<string>)
    modifies player
    ensures player.mailReceived == old(player.mailReceived) + (if reward.flagOnCompletion then {rewardId} else {})
    ensures player.pendingMail == old(player.pendingMail)
    ensures actions == reward.actions.GetOr([])
  {
    if reward.flagOnCompletion {
      player.mailReceived := player.mailReceived + {rewardId};
    }
    if reward.actions.None? {
      return [];
    }
    actions := reward.actions.value;
  }

  /** Some reward carries the Id. */
  predicate RewardIdExists(rewards: seq<LegacyReward>, id: string) {
    exists k :: 0 <= k < |rewards| && rewards[k].id == Some(id)
  }

  /** `Rewards.First(r => r.Id == rewardId)`, for an Id some reward carries. */
  function FirstRewardWithId(rewards: seq<LegacyReward>, id: string): (r: LegacyReward)
    requires RewardIdExists(rewards, id)
    ensures r.id == Some(id)
    ensures exists k :: 0 <= k < |rewards| && rewards[k] == r && forall j :: 0 <= j < k ==> rewards[j].id != Some(id)
  {
    if rewards[0].id == Some(id) then rewards[0]
    else
      var k :| 0 <= k < |rewards| && rewards[k].id == Some(id);
      assert rewards[1..][k - 1] == rewards[k];
      var r := FirstRewardWithId(rewards[1..], id);
      var k' :| 0 <= k' < |rewards[1..]| && rewards[1..][k'] == r && forall j :: 0 <= j < k' ==> rewards[1..][j].id != Some(id);
      assert rewards[k' + 1] == r;
      r
  }

  /** The flag `OnRewardCollected` sets for an item offered for a reward: the reward's Id when it flags on completion. */
  function RewardFlagKeys(data: Option<LegacyMuseumData>, lookup: map<Rewards.OfferedItem, string>, isObject: bool, it: Rewards.OfferedItem): set<string>
    requires it in lookup && data.Some? ==> RewardIdExists(data.value.rewards, lookup[it])
  {
    if isObject && it in lookup && data.Some? && FirstRewardWithId(data.value.rewards, lookup[it]).flagOnCompletion
    then {lookup[it]} else {}
  }

  // ---------------------------------------------------------------------------
  // Tiles
  // ---------------------------------------------------------------------------

  /** `GetMuseumDonationBounds`: a fixed rectangle. */
  const DonationBounds: Rect := Rect(26, 5, 22, 13)

  /** Where `GetFreeDonationSpot` points when no tile is free. */
  const FallbackSpot: Tile := Tile(26, 5)

  function SpotTest(layout: Tiles.Layout, occupied: set<Tile>): Tile -> bool {
    t => Tiles.IsTileSuitableForMuseumItem(layout, occupied, Tiles.LegacySpotProperty, t)
  }

  function ProbeHit(layout: Tiles.Layout, occupied: set<Tile>, ignoreExisting: bool): Tile -> bool {
    t => Tiles.IsTileSuitableForMuseumItem(layout, occupied, Tiles.LegacySpotProperty, t) || (!ignoreExisting && t in occupied)
  }

  // ---------------------------------------------------------------------------
  // The location
  // ---------------------------------------------------------------------------

  /**
   * A `CustomMuseum` location: its name, its entry in the museum data (None when
   * it has none), the engine, the map, the donated tiles, the cached total
   * (negative until computed) and the items offered for each reward.
   * `describe` is `Utility.getStandardDescriptionFromItem(item, 1, '_')`.
   */
  class CustomMuseum {
    const name: string
    const museumData: Option<LegacyMuseumData>
    const engine: Matcher.Engine
    const layout: Tiles.Layout
    const describe: Matcher.Item -> string
    var donated: map<Tile, string>
    var totalCache: int
    var rewardLookup: map<Rewards.OfferedItem, string>

    /** The total the cache holds once computed. */
    function PossibleCount(): nat {
      CountSuitableObjects(engine, museumData, engine.objectIds)
    }

    /** The cache is either unset or right, and each offered item's reward exists. */
    ghost predicate Valid()
      reads this
    {
      (totalCache < 0 || totalCache == PossibleCount())
      && forall it :: it in rewardLookup ==> museumData.Some? && RewardIdExists(museumData.value.rewards, rewardLookup[it])
    }

    constructor (name: string, museumData: Option<LegacyMuseumData>, engine: Matcher.Engine, layout: Tiles.Layout,
                 describe: Matcher.Item -> string, donated: map<Tile, string>)
      ensures this.name == name && this.museumData == museumData && this.engine == engine
      ensures this.layout == layout && this.describe == describe && this.donated == donated
      ensures totalCache == -1 && rewardLookup == map[]
      ensures Valid()
    {
      this.name := name;
      this.museumData := museumData;
      this.engine := engine;
      this.layout := layout;
      this.describe := describe;
      this.donated := donated;
      totalCache := -1;
      rewardLookup := map[];
    }

    /** The `TotalPossibleDonations` getter: the cache when computed, otherwise a count over the object ids that fills it. */
    method TotalPossibleDonations() returns (n: int)
      modifies this
      requires Valid()
      ensures n == PossibleCount() && totalCache == n
      ensures Valid()
      ensures donated == old(donated) && rewardLookup == old(rewardLookup)
    {
      if totalCache >= 0 {
        return totalCache;
      }
      totalCache := 0;
      var ids := engine.objectIds;
      var i := 0;
      while i < |ids|
        invariant 0 <= i <= |ids|
        invariant totalCache == CountSuitableObjects(engine, museumData, ids[..i])
        invariant donated == old(donated) && rewardLookup == old(rewardLookup)
      {
        assert ids[..i + 1][..i] == ids[..i];
        UncheckedIgnoresDonations(engine, museumData, donated, map[], Some(ObjectTypePrefix + ids[i]));
        if IsItemSuitableForDonation(engine, museumData, donated, Some(ObjectTypePrefix + ids[i]), false) {
          totalCache := totalCache + 1;
        }
        i := i + 1;
      }
      assert ids[..i] == ids;
      n := totalCache;
    }

    /** `HasDonatedItem()`: some tile holds an item. */
    predicate HasAnyDonation()
      reads this
    {
      |donated| > 0
    }

    /** `IsItemSuitableForDonation(itemId, checkDonatedItems)` on this museum. */
    predicate IsSuitable(itemId: Option<string>, checkDonated: bool)
      reads this
    {
      IsItemSuitableForDonation(engine, museumData, donated, itemId, checkDonated)
    }

    /**
     * `RewardRequirementsCheck`: each reward's requirements in order, stopping at
     * the first that fails. Reading the total of possible donations may fill the cache.
     */
    method RewardRequirementsCheck(rewards: seq<LegacyReward>) returns (r: Result<map<string, bool>, string>)
      modifies this
      requires Valid()
      ensures r == RewardTable(engine, donated, rewards, PossibleCount())
      ensures Valid()
      ensures donated == old(donated) && rewardLookup == old(rewardLookup)
    {
      var results: map<string, bool> := map[];
      var i := 0;
      while i < |rewards|
        invariant 0 <= i <= |rewards|
        invariant Valid()
        invariant donated == old(donated) && rewardLookup == old(rewardLookup)
        invariant RewardTable(engine, donated, rewards[..i], PossibleCount()) == Success(results)
      {
        assert rewards[..i + 1][..i] == rewards[..i];
        var reward := rewards[i];
        if reward.id.None? {
          NullIdFails(engine, donated, rewards, PossibleCount(), i);
          return Failure(NullKeyError);
        }
        ghost var before := results;
        results := results[reward.id.value := true];
        if reward.requirements.Some? {
          var met := RequirementsMet(reward.requirements.value);
          if !met {
            results := results[reward.id.value := false];
          }
        }
        assert results == before[reward.id.value := RewardMet(engine, donated, reward, PossibleCount())];
        i := i + 1;
      }
      assert rewards[..i] == rewards;
      r := Success(results);
    }

    /** The requirement loop of `RewardRequirementsCheck` for one reward. */
    method RequirementsMet(reqs: seq<LegacyRequirement>) returns (met: bool)
      modifies this
      requires Valid()
      ensures met <==> forall k :: 0 <= k < |reqs| ==> RequirementPasses(engine, donated, reqs[k], PossibleCount())
      ensures Valid()
      ensures donated == old(donated) && rewardLookup == old(rewardLookup)
    {
      var j := 0;
      while j < |reqs|
        invariant 0 <= j <= |reqs|
        invariant Valid()
        invariant donated == old(donated) && rewardLookup == old(rewardLookup)
        invariant forall k :: 0 <= k < j ==> RequirementPasses(engine, donated, reqs[k], PossibleCount())
      {
        var req := reqs[j];
        var shouldBreak := false;
        if IsUnfiltered(req) {
          if req.count == -1 {
            var total := TotalPossibleDonations();
            if |donated| < total {
              shouldBreak := true;
            }
          } else if req.count > |donated| {
            shouldBreak := true;
          }
        } else {
          var count := CountMatchesUpTo(engine, donated, req);
          if count < req.count {
            shouldBreak := true;
          }
        }
        if shouldBreak {
          return false;
        }
        j := j + 1;
      }
      return true;
    }

    /** `GetRewardItemKey` for this museum. */
    function ItemKey(item: Matcher.Item): string
      reads this
    {
      RewardItemKey(name, describe(item))
    }

    /**
     * `OnRewardCollected`. `isObject` says whether the item is an `Object`; only
     * then is its reward looked up: the reward's non-item part is granted when
     * the museum has data, and the lookup entry removed. Finally the item's key
     * is added unless the farmer has or will receive it.
     */
    method OnRewardCollected(item: Option<Rewards.OfferedItem>, isObject: bool, who: Rewards.Player) returns (actions: seq<string>)
      modifies this, who
      requires Valid()
      ensures Valid()
      ensures item.None? ==> actions == [] && rewardLookup == old(rewardLookup) && who.mailReceived == old(who.mailReceived)
      ensures item.Some? ==>
        rewardLookup == (if isObject then old(rewardLookup) - {item.value} else old(rewardLookup))
      ensures item.Some? ==>
        who.mailReceived == old(who.mailReceived) + RewardFlagKeys(museumData, old(rewardLookup), isObject, item.value)
          + (if old(who.HasOrWillReceiveMail(ItemKey(item.value.item))) then {} else {ItemKey(item.value.item)})
      ensures item.Some? ==> who.HasOrWillReceiveMail(ItemKey(item.value.item))
      ensures who.pendingMail == old(who.pendingMail)
      ensures donated == old(donated) && totalCache == old(totalCache)
    {
      actions := [];
      if item.None? {
        return;
      }
      var it := item.value;
      var key := ItemKey(it.item);
      actions := GrantOfferedReward(it, isObject, who);
      if !who.HasOrWillReceiveMail(key) {
        who.mailReceived := who.mailReceived + {key};
      }
    }

    /** The reward part of `OnRewardCollected`. */
    method GrantOfferedReward(it: Rewards.OfferedItem, isObject: bool, who: Rewards.Player) returns (actions: seq<string>)
      modifies this, who
      requires Valid()
      ensures Valid()
      ensures rewardLookup == (if isObject then old(rewardLookup) - {it} else old(rewardLookup))
      ensures who.mailReceived == old(who.mailReceived) + RewardFlagKeys(museumData, old(rewardLookup), isObject, it)
      ensures who.pendingMail == old(who.pendingMail)
      ensures donated == old(donated) && totalCache == old(totalCache)
    {
      actions := [];
      if isObject && it in rewardLookup {
        var rewardId := rewardLookup[it];
        if museumData.Some? {
          var reward := FirstRewardWithId(museumData.value.rewards, rewardId);
          actions := AddNonItemRewards(reward, rewardId, who);
        }
        rewardLookup := rewardLookup - {it};
      }
    }

    /** `IsTileSuitableForMuseumItem`, reading the older spot property. */
    predicate IsTileSuitable(t: Tile)
      reads this
    {
      Tiles.IsTileSuitableForMuseumItem(layout, donated.Keys, Tiles.LegacySpotProperty, t)
    }

    /** `GetFreeDonationSpot`: the first suitable tile of the fixed bounds in scan order, else (26, 5). */
    method GetFreeDonationSpot() returns (r: Tile)
      ensures (exists t :: Tiles.InScan(DonationBounds, t) && IsTileSuitable(t)) ==>
        Tiles.InScan(DonationBounds, r) && IsTileSuitable(r)
        && forall t :: Tiles.InScan(DonationBounds, t) && Tiles.ScanBefore(t, r) ==> !IsTileSuitable(t)
      ensures (forall t :: Tiles.InScan(DonationBounds, t) ==> !IsTileSuitable(t)) ==> r == FallbackSpot
    {
      var found := Tiles.GetFreeDonationSpot(DonationBounds, SpotTest(layout, donated.Keys));
      r := if found.Some? then found.value else FallbackSpot;
    }

    /** `FindMuseumPieceLocationInDirection`, as in `MuseumManager`, with this museum's suitability. */
    method FindMuseumPieceLocationInDirection(start: Tile, direction: int, distance: int, ignoreExisting: bool)
      returns (r: Tile)
      ensures var hit := ProbeHit(layout, donated.Keys, ignoreExisting);
        (r == start && Tiles.MissedBefore(start, direction, distance, hit, if distance > 0 then distance else 0, 0))
        || (exists j: nat, i: nat :: j < distance && i < distance && r == Tiles.Probe(start, direction, j, i)
              && (IsTileSuitable(r) || (!ignoreExisting && r in donated))
              && Tiles.MissedBefore(start, direction, distance, hit, j, i))
    {
      r := Tiles.FindMuseumPieceLocationInDirection(start, direction, distance, ProbeHit(layout, donated.Keys, ignoreExisting));
    }
  }
}
