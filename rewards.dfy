/**
 * Reward bookkeeping of `MuseumManager`: which rewards have their requirements
 * met (`RewardRequirementsCheck`), whether a reward can be collected
 * (`CanCollectReward`), the mail keys that remember collected rewards, and
 * the farmer's mail flags.
 */
module Rewards {
  import opened Wrappers
  import opened Text
  import opened Models
  import opened Matcher
  import opened Donations

  // ---------------------------------------------------------------------------
  // Requirement checks
  // ---------------------------------------------------------------------------

  /** A list that is null or empty (`is null or []`). */
  predicate NullOrEmpty<T>(l: Option<seq<T>>) {
    l.None? || l.value == []
  }

  /** A requirement that filters nothing: every list null or empty. */
  predicate IsBlank(req: DonationRequirement) {
    NullOrEmpty(req.itemIds) && NullOrEmpty(req.categories) && NullOrEmpty(req.contextTags)
  }

  /**
   * One requirement of a reward. A blank requirement compares its count with the
   * number of donated tiles, -1 standing for "every possible donation"; any other
   * requirement compares it with the number of satisfying inventory entries.
   */
  predicate RequirementPasses(cr: CountedRequirement, inv: Inventory, tagQuery: TagQuery, total: int) {
    var donated := |DonatedItems(inv)|;
    if IsBlank(cr.req) then
      if cr.count == -1 then !(donated < total) else !(cr.count > donated)
    else !(CountSatisfying(inv, cr.req, tagQuery) < cr.count)
  }

  /** A reward's requirements are met when it has none, or when every one passes. */
  predicate RewardMet(reward: CustomMuseumReward, inv: Inventory, tagQuery: TagQuery, total: int) {
    reward.requirements.None?
    || forall k :: 0 <= k < |reward.requirements.value| ==> RequirementPasses(reward.requirements.value[k], inv, tagQuery, total)
  }

  /**
   * The table `RewardRequirementsCheck` returns: a reward without an Id is
   * skipped, and a reward whose Id is already present is skipped, so the first
   * reward with each Id decides its entry.
   */
  function RewardTable(rewards: seq<CustomMuseumReward>, inv: Inventory, tagQuery: TagQuery, total: int): map<string, bool>
    decreases |rewards|
  {
    if |rewards| == 0 then map[]
    else
      var t := RewardTable(rewards[..|rewards| - 1], inv, tagQuery, total);
      var r := rewards[|rewards| - 1];
      if r.id.None? || r.id.value in t then t else t[r.id.value := RewardMet(r, inv, tagQuery, total)]
  }

  /** The table's keys are exactly the rewards' Ids. */
  lemma {:induction false} RewardTableKeys(rewards: seq<CustomMuseumReward>, inv: Inventory, tagQuery: TagQuery, total: int)
    ensures forall x :: x in RewardTable(rewards, inv, tagQuery, total)
                    <==> exists i :: 0 <= i < |rewards| && rewards[i].id == Some(x)
    decreases |rewards|
  {
    if |rewards| > 0 {
      var p := rewards[..|rewards| - 1];
      RewardTableKeys(p, inv, tagQuery, total);
      forall x ensures (exists i :: 0 <= i < |p| && p[i].id == Some(x)) <==> (exists i :: 0 <= i < |p| && rewards[i].id == Some(x)) {
        assert forall i :: 0 <= i < |p| ==> rewards[i] == p[i];
      }
    }
  }

  /** The entry of the first reward with an Id is that reward's verdict. */
  lemma {:induction false} RewardTableEntry(rewards: seq<CustomMuseumReward>, inv: Inventory, tagQuery: TagQuery, total: int, i: nat)
    requires i < |rewards| && rewards[i].id.Some?
    requires forall j :: 0 <= j < i ==> rewards[j].id != rewards[i].id
    ensures rewards[i].id.value in RewardTable(rewards, inv, tagQuery, total)
    ensures RewardTable(rewards, inv, tagQuery, total)[rewards[i].id.value] == RewardMet(rewards[i], inv, tagQuery, total)
    decreases |rewards|
  {
    var p := rewards[..|rewards| - 1];
    var x := rewards[i].id.value;
    if i == |rewards| - 1 {
      RewardTableKeys(p, inv, tagQuery, total);
      assert forall j :: 0 <= j < |p| ==> p[j] == rewards[j];
      assert x !in RewardTable(p, inv, tagQuery, total);
    } else {
      assert p[i] == rewards[i];
      assert forall j :: 0 <= j < i ==> p[j] == rewards[j];
      RewardTableEntry(p, inv, tagQuery, total, i);
    }
  }

  /** Each Id's entry is decided by the first reward with that Id. */
  lemma RewardTableSpec(rewards: seq<CustomMuseumReward>, inv: Inventory, tagQuery: TagQuery, total: int)
    ensures forall i :: 0 <= i < |rewards| && rewards[i].id.Some?
               && (forall j :: 0 <= j < i ==> rewards[j].id != rewards[i].id)
               ==> rewards[i].id.value in RewardTable(rewards, inv, tagQuery, total)
                   && RewardTable(rewards, inv, tagQuery, total)[rewards[i].id.value] == RewardMet(rewards[i], inv, tagQuery, total)
  {
    forall i | 0 <= i < |rewards| && rewards[i].id.Some? && (forall j :: 0 <= j < i ==> rewards[j].id != rewards[i].id)
      ensures rewards[i].id.value in RewardTable(rewards, inv, tagQuery, total)
      ensures RewardTable(rewards, inv, tagQuery, total)[rewards[i].id.value] == RewardMet(rewards[i], inv, tagQuery, total)
    {
      RewardTableEntry(rewards, inv, tagQuery, total, i);
    }
  }

  /** A blank requirement with count -1 needs every possible donation; any other count needs that many donated tiles. */
  lemma BlankRequirementCases(cr: CountedRequirement, inv: Inventory, tagQuery: TagQuery, total: int)
    requires IsBlank(cr.req)
    ensures cr.count == -1 ==> (RequirementPasses(cr, inv, tagQuery, total) <==> |DonatedItems(inv)| >= total)
    ensures cr.count != -1 ==> (RequirementPasses(cr, inv, tagQuery, total) <==> cr.count <= |DonatedItems(inv)|)
    ensures cr.count <= 0 && cr.count != -1 ==> RequirementPasses(cr, inv, tagQuery, total)
  {
  }

  /** A filtering requirement needs at least `count` satisfying entries. */
  lemma FilteredRequirementCases(cr: CountedRequirement, inv: Inventory, tagQuery: TagQuery, total: int)
    requires !IsBlank(cr.req)
    ensures RequirementPasses(cr, inv, tagQuery, total) <==> CountSatisfying(inv, cr.req, tagQuery) >= cr.count
    ensures cr.count > |inv| ==> !RequirementPasses(cr, inv, tagQuery, total)
  {
  }

  /** Donating an item to a free tile never takes back a requirement that was met. */
  lemma DonationKeepsRequirement(cr: CountedRequirement, inv: Inventory, it: Item, pos: Tile, tagQuery: TagQuery, total: int)
    requires it.position == Some(pos) && pos !in DonatedItems(inv)
    requires RequirementPasses(cr, inv, tagQuery, total)
    ensures RequirementPasses(cr, inv + [Some(it)], tagQuery, total)
  {
    DonateAppend(inv, it, pos);
    assert |DonatedItems(inv + [Some(it)])| == |DonatedItems(inv)| + 1;
    CountSatisfyingAppend(inv, [Some(it)], cr.req, tagQuery);
  }

  /** Donating an item to a free tile never takes back a reward whose requirements were met. */
  lemma DonationKeepsReward(reward: CustomMuseumReward, inv: Inventory, it: Item, pos: Tile, tagQuery: TagQuery, total: int)
    requires it.position == Some(pos) && pos !in DonatedItems(inv)
    requires RewardMet(reward, inv, tagQuery, total)
    ensures RewardMet(reward, inv + [Some(it)], tagQuery, total)
  {
    if reward.requirements.Some? {
      forall k | 0 <= k < |reward.requirements.value|
        ensures RequirementPasses(reward.requirements.value[k], inv + [Some(it)], tagQuery, total)
      {
        DonationKeepsRequirement(reward.requirements.value[k], inv, it, pos, tagQuery, total);
      }
    }
  }

  // ---------------------------------------------------------------------------
  // Mail keys
  // ---------------------------------------------------------------------------

  /** The flag `AddNonItemRewards` sets for a reward with `FlagOnCompletion`. */
  function RewardCollectedKey(museumName: string, rewardId: string): string {
    museumName + "_RewardCollected_" + rewardId
  }

  /**
   * An item object offered in a reward menu. The reward lookup is a dictionary keyed
   * by item objects, which compares them by reference, so two offered items with
   * equal contents are two entries.
   */
  class OfferedItem {
    const item: Item

    constructor (item: Item)
      ensures this.item == item
    {
      this.item := item;
    }
  }

  /** `GetRewardItemKey`: the flag recording that one reward item (id and stack) was collected. */
  function RewardItemKey(museumName: string, item: Item): string {
    museumName + "_MuseumRewardItem_" + (item.qualifiedId + "_" + IntToString(item.stack))
  }

  /** A reward flag and a reward-item flag of the same museum never coincide. */
  lemma RewardKeysDistinct(museumName: string, rewardId: string, item: Item)
    ensures RewardCollectedKey(museumName, rewardId) != RewardItemKey(museumName, item)
  {
    var n := |museumName|;
    assert RewardCollectedKey(museumName, rewardId)[n + 1] == 'R';
    assert RewardItemKey(museumName, item)[n + 1] == 'M';
  }

  /** The position of the first underscore of a string, or its length when it has none. */
  function UnderscoreIndex(s: string): (n: nat)
    ensures n <= |s|
    decreases |s|
  {
    if |s| == 0 || s[0] == '_' then 0 else 1 + UnderscoreIndex(s[1..])
  }

  lemma {:induction false} UnderscoreIndexAfter(s: string, rest: string)
    requires !('_' in s)
    ensures UnderscoreIndex(s + "_" + rest) == |s|
    decreases |s|
  {
    if |s| > 0 {
      assert (s + "_" + rest)[1..] == s[1..] + "_" + rest;
      UnderscoreIndexAfter(s[1..], rest);
    }
  }

  /** Equal strings with a common prefix have equal remainders. */
  lemma PrefixCancel(p: string, s: string, t: string)
    requires p + s == p + t
    ensures s == t
  {
    assert s == (p + s)[|p|..];
    assert t == (p + t)[|p|..];
  }

  /** Splitting at the first underscore recovers a part that holds none. */
  lemma UnderscoreSplit(x1: string, y1: string, x2: string, y2: string)
    requires !('_' in x1) && !('_' in x2)
    requires x1 + "_" + y1 == x2 + "_" + y2
    ensures x1 == x2
  {
    UnderscoreIndexAfter(x1, y1);
    UnderscoreIndexAfter(x2, y2);
    assert x1 == (x1 + "_" + y1)[..|x1|];
    assert x2 == (x2 + "_" + y2)[..|x2|];
  }

  /** Reward-item keys of one museum tell item ids apart, as long as ids hold no underscore. */
  lemma RewardItemKeyInjective(museumName: string, a: Item, b: Item)
    requires !('_' in a.qualifiedId) && !('_' in b.qualifiedId)
    requires RewardItemKey(museumName, a) == RewardItemKey(museumName, b)
    ensures a.qualifiedId == b.qualifiedId
  {
    var ka := IntToString(a.stack);
    var kb := IntToString(b.stack);
    PrefixCancel(museumName + "_MuseumRewardItem_", a.qualifiedId + "_" + ka, b.qualifiedId + "_" + kb);
    UnderscoreSplit(a.qualifiedId, ka, b.qualifiedId, kb);
  }

  // ---------------------------------------------------------------------------
  // Collecting rewards
  // ---------------------------------------------------------------------------

  /**
   * `CanCollectReward`. `firstAvailable` is what `GetFirstAvailableReward` resolves,
   * `available` what `GetAllAvailableRewards` resolves, and `ownsSpecial` whether the
   * farmer already owns an item as a special item or special big craftable. The met
   * table is only consulted when the reward is not already flagged, and must then
   * hold the reward's Id.
   */
  predicate CanCollectReward(museumName: string, reward: CustomMuseumReward, rewardId: string, mail: set<string>,
                             met: map<string, bool>, firstAvailable: Option<Item>, available: seq<Item>,
                             ownsSpecial: Item -> bool)
    requires (reward.flagOnCompletion && RewardCollectedKey(museumName, rewardId) in mail) || rewardId in met
  {
    if reward.flagOnCompletion && RewardCollectedKey(museumName, rewardId) in mail then
      reward.rewardItems.Some? && firstAvailable.Some?
    else if !met[rewardId] then false
    else if reward.rewardItems.Some? && reward.rewardIsSpecial then
      !exists i :: 0 <= i < |available| && ownsSpecial(available[i])
    else true
  }

  /**
   * An already-flagged reward is collectable only for an item that still resolves;
   * otherwise the requirements must be met and a special reward must not be owned.
   */
  lemma CanCollectRewardCases(museumName: string, reward: CustomMuseumReward, rewardId: string, mail: set<string>,
                              met: map<string, bool>, firstAvailable: Option<Item>, available: seq<Item>,
                              ownsSpecial: Item -> bool)
    requires (reward.flagOnCompletion && RewardCollectedKey(museumName, rewardId) in mail) || rewardId in met
    ensures reward.flagOnCompletion && RewardCollectedKey(museumName, rewardId) in mail ==>
      (CanCollectReward(museumName, reward, rewardId, mail, met, firstAvailable, available, ownsSpecial)
       <==> reward.rewardItems.Some? && firstAvailable.Some?)
    ensures !(reward.flagOnCompletion && RewardCollectedKey(museumName, rewardId) in mail) ==>
      (CanCollectReward(museumName, reward, rewardId, mail, met, firstAvailable, available, ownsSpecial)
       <==> met[rewardId] && !(reward.rewardItems.Some? && reward.rewardIsSpecial
                               && exists it :: it in available && ownsSpecial(it)))
  {
    if exists it :: it in available && ownsSpecial(it) {
      var it :| it in available && ownsSpecial(it);
      var i :| 0 <= i < |available| && available[i] == it;
    }
  }

  /** A farmer's mail flags: received mail, and mail in the mailbox or due tomorrow. */
  class Player {
    var mailReceived: set<string>
    var pendingMail: set<string>

    constructor (mailReceived: set<string>, pendingMail: set<string>)
      ensures this.mailReceived == mailReceived && this.pendingMail == pendingMail
    {
      this.mailReceived := mailReceived;
      this.pendingMail := pendingMail;
    }

    /** `hasOrWillReceiveMail`. */
    predicate HasOrWillReceiveMail(key: string)
      reads this
    {
      key in mailReceived || key in pendingMail
    }
  }

  /**
   * `AddRewardItemIfUncollected`: the item is appended to the offered rewards,
   * and true returned, exactly when its key is not among the received mail.
   */
  function AddRewardItemIfUncollected(museumName: string, mail: set<string>, offered: seq<Item>, item: Item): (r: (bool, seq<Item>))
    ensures r.0 <==> RewardItemKey(museumName, item) !in mail
    ensures r.1 == if r.0 then offered + [item] else offered
  {
    if RewardItemKey(museumName, item) !in mail then (true, offered + [item]) else (false, offered)
  }

  /**
   * `AddNonItemRewards`: a null reward does nothing; otherwise the reward flag is set
   * when `FlagOnCompletion` holds, and the actions to run are `Action` then `Actions`.
   */
  method AddNonItemRewards(museumName: string, reward: Option<CustomMuseumReward>, rewardId: string, player: Player)
    returns (actions: seq<string>)
    modifies player
    ensures player.pendingMail == old(player.pendingMail)
    ensures player.mailReceived == old(player.mailReceived)
              + (if reward.Some? && reward.value.flagOnCompletion then {RewardCollectedKey(museumName, rewardId)} else {})
    ensures actions == if reward.None? then [] else
      (if reward.value.action.Some? then [reward.value.action.value] else [])
      + (if reward.value.actions.Some? then reward.value.actions.value else [])
  {
    if reward.None? {
      return [];
    }
    var data := reward.value;
    if data.flagOnCompletion {
      player.mailReceived := player.mailReceived + {RewardCollectedKey(museumName, rewardId)};
    }
    actions := [];
    if data.action.Some? {
      actions := actions + [data.action.value];
    }
    if data.actions.Some? {
      actions := actions + data.actions.value;
    }
  }
}
