/**
 * The content-pack records of the framework: donation requirements, museum
 * definitions, rewards and quests, each with the defaults a pack entry gets for
 * a field it leaves out. String-typed flags ("FALSE") are modelled as booleans.
 */
module Models {
  import opened Wrappers

  /** A map tile; game positions are whole tiles throughout this model. */
  datatype Tile = Tile(x: int, y: int)

  /** An XNA rectangle: origin, width and height. */
  datatype Rect = Rect(x: int, y: int, width: int, height: int) {
    function Right(): int { x + width }
    function Bottom(): int { y + height }

    /** `Rectangle.IsEmpty`: every component is zero. */
    predicate IsEmpty() { x == 0 && y == 0 && width == 0 && height == 0 }

    /** `Rectangle.Contains`: left and top edges inclusive, right and bottom exclusive. */
    predicate Contains(t: Tile) { x <= t.x < x + width && y <= t.y < y + height }
  }

  /** How the filters of a requirement combine. */
  datatype MatchType = Any | All

  /** A donation filter: item ids, categories and context-tag queries, any of which may be absent. */
  datatype DonationRequirement = DonationRequirement(
    id: Option<string>,
    categories: Option<seq<int>>,
    contextTags: Option<seq<string>>,
    itemIds: Option<seq<string>>,
    matchType: MatchType)

  /** `DonationRequirementWithCount` and `CustomMuseumQuestRequirement`: a filter with a required count. */
  datatype CountedRequirement = CountedRequirement(req: DonationRequirement, count: int)

  function DefaultDonationRequirement(): (r: DonationRequirement)
    ensures r.id == Some("")
    ensures r.categories.None? && r.contextTags.None? && r.itemIds.None?
    ensures r.matchType == Any
  {
    DonationRequirement(Some(""), None, None, None, Any)
  }

  function DefaultCountedRequirement(): (r: CountedRequirement)
    ensures r.req == DefaultDonationRequirement()
    ensures r.count == 1
  {
    CountedRequirement(DefaultDonationRequirement(), 1)
  }

  /** A reward item query (`GenericSpawnItemDataWithCondition`); only its id and condition matter here. */
  datatype RewardItemEntry = RewardItemEntry(id: Option<string>, condition: Option<string>)

  datatype CustomMuseumReward = CustomMuseumReward(
    id: Option<string>,
    requirements: Option<seq<CountedRequirement>>,
    rewardItems: Option<seq<RewardItemEntry>>,
    action: Option<string>,
    actions: Option<seq<string>>,
    rewardIsSpecial: bool,
    flagOnCompletion: bool)

  function DefaultReward(): (r: CustomMuseumReward)
    ensures r.id.None? && r.requirements.None? && r.rewardItems.None?
    ensures r.action.None? && r.actions.None?
    ensures !r.rewardIsSpecial && r.flagOnCompletion
  {
    CustomMuseumReward(None, None, None, None, None, false, true)
  }

  datatype OwnerData = OwnerData(name: Option<string>, area: Option<Rect>, requiredForDonation: bool)

  function DefaultOwner(): (r: OwnerData)
    ensures r.name.None? && r.area.None? && !r.requiredForDonation
  {
    OwnerData(None, None, false)
  }

  datatype MuseumStrings = MuseumStrings(
    onDonation: Option<string>, onMilestone: Option<string>, onCompletion: Option<string>,
    menuDonate: Option<string>, menuCollect: Option<string>, menuRearrange: Option<string>,
    menuRetrieve: Option<string>, clockedOut: Option<string>,
    busyOwner: Option<string>, busyNoOwner: Option<string>,
    museumCompleteOwner: Option<string>, museumCompleteNoOwner: Option<string>,
    nothingToDonateOwner: Option<string>, nothingToDonateNoOwner: Option<string>,
    noDonationsOwner: Option<string>, noDonationsNoOwner: Option<string>,
    canBeDonated: Option<string>, emptyPlaque: Option<string>)

  function DefaultStrings(): (r: MuseumStrings)
    ensures r.onDonation == Some("") && r.onMilestone == Some("") && r.onCompletion == Some("")
    ensures r.emptyPlaque == Some("")
    ensures r.menuDonate.None? && r.menuCollect.None? && r.busyOwner.None? && r.busyNoOwner.None?
  {
    MuseumStrings(Some(""), Some(""), Some(""), None, None, None, None, None, None, None,
                  None, None, None, None, None, None, None, Some(""))
  }

  datatype InteractionType = Default | Sign | Message | Letter | Custom | NoInteraction

  datatype InteractionData = InteractionData(kind: InteractionType, text: Option<string>, action: Option<string>)

  /** A museum definition. The donation bounds are one rectangle. */
  datatype CustomMuseumData = CustomMuseumData(
    id: string,
    owner: Option<OwnerData>,
    bounds: Rect,
    donationRequirements: seq<DonationRequirement>,
    blacklistedDonations: seq<DonationRequirement>,
    whitelistedDonations: seq<DonationRequirement>,
    completionNumber: Option<int>,
    countInvalidDonations: bool,
    allowRetrieval: bool,
    showDonationHint: Option<string>,
    overrideDescription: bool,
    pedestalAction: InteractionData,
    rewards: seq<CustomMuseumReward>,
    milestones: seq<int>,
    strings: MuseumStrings)

  function DefaultMuseumData(): (r: CustomMuseumData)
    ensures r.id == "" && r.owner.None?
    ensures r.bounds == Rect(0, 0, 0, 0)
    ensures r.donationRequirements == [] && r.blacklistedDonations == [] && r.whitelistedDonations == []
    ensures r.rewards == [] && r.milestones == []
    ensures r.completionNumber.None? && !r.countInvalidDonations
    ensures !r.allowRetrieval && !r.overrideDescription
    ensures r.strings == DefaultStrings()
  {
    CustomMuseumData("", None, Rect(0, 0, 0, 0), [], [], [], None, false, false, None, false,
                     InteractionData(Default, None, None), [], [], DefaultStrings())
  }

  datatype NextQuest = NextQuest(id: string, hostOnly: bool, condition: Option<string>)

  function DefaultNextQuest(): (r: NextQuest)
    ensures r.id == "" && !r.hostOnly && r.condition.None?
  {
    NextQuest("", false, None)
  }

  datatype QuestData = QuestData(
    id: string,
    museumId: string,
    title: Option<string>,
    description: Option<string>,
    hint: Option<string>,
    requirements: Option<seq<CountedRequirement>>,
    nextQuests: Option<seq<NextQuest>>,
    reward: int,
    canBeCancelled: bool,
    timeToComplete: int,
    actionOnCompletion: Option<string>,
    actionsOnCompletion: Option<seq<string>>)

  function DefaultQuestData(): (r: QuestData)
    ensures r.id == "" && r.museumId == ""
    ensures r.title.None? && r.description.None? && r.hint.None?
    ensures r.requirements.None? && r.nextQuests.None?
    ensures r.reward == 0 && r.canBeCancelled && r.timeToComplete == -1
    ensures r.actionOnCompletion.None? && r.actionsOnCompletion.None?
  {
    QuestData("", "", None, None, None, None, None, 0, true, -1, None, None)
  }
}
