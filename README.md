# Custom Museum Framework: donation and reward bookkeeping in Dafny

This project models the bookkeeping core of the Custom Museum Framework, a
Stardew Valley mod that lets content packs define their own museums. The model
covers these parts:

- **Donations.** Which items a museum accepts is decided by donation requirements.
  These are id, category and context-tag filters, matched in `Any` or `All` mode.
  Donations live in the museum's inventory, and each item records the tile it
  stands on. Donating, removing and resetting keep that inventory and a global
  "donated here" flag map up to date. A donation also runs the donation check of
  every quest in every farmer's quest log.
- **Rewards.** The reward table records which rewards have their requirements
  met. The module also covers whether a reward may be collected, the mail flags
  that record collected rewards and reward items, and the granting of a reward's
  non-item part.
- **Placement.** Tile suitability, the free-spot scan over the donation bounds,
  and the directional search that places a museum piece.
- **Lost books.** The lost-book counters and the scan that finds lost-book tiles.
- **The older `CustomMuseum` location.** Its single-valued requirements, its
  cached total of possible donations, its reward table (where a null Id throws),
  its reward keys and its fixed donation bounds.
- **Museum quests.** Quest progress counters: their decrement-and-clamp update on
  a donation, with a read-only probe mode. Also quest construction, the catch-up
  of counters when a quest is added, and the patched completion, which runs the
  quest's completion actions and filters its next quests by their conditions.
- **The global donatable cache.** A memoising table of per-item-type donation
  information, with per-asset invalidation. Museums are identified in it by the
  museum comparer's key (override flag and Id).
- **The `MUSEUM_DONATIONS` game state query**, and the `DonateItem`,
  `ForceDonateItem` and `RemoveDonation` trigger actions.
- **The two console command dispatchers**, and the help text.
- **The JSON converter** that reads a single value or a list as a list.
- **The data records and their defaults.**

Engine services are inputs to the model:

- The item registry and its qualified ids.
- Context-tag queries.
- The map's tile layers.
- Game state query conditions.

These are values of function type carried in records (`Matcher.Engine`,
`Tiles.Layout`), or they are parameters of the operations. Objects whose fields
the mod updates in place are classes: the museum manager, the older museum
location, the farmer's mail, the donatable flag map, quests and the caches.
Their methods are proved against specification functions.

Modules, one per file:

- `Wrappers` holds `Option` and `Result`.
- `Text` holds the .NET string and number primitives the mod relies on.
- `Args` holds the engine's argument readers.
- `Models` holds the records.
- `Matcher` holds the requirement matcher.
- `Donations` holds the donation map.
- `Tiles` holds tile suitability, the free-spot scan and the directional search.
- `Rewards` holds reward requirements and keys.
- `LostBooks` holds the lost-book counters and scan.
- `Manager` holds `MuseumManager`.
- `LegacyMuseum` holds `CustomMuseum`.
- `Quests` covers `QuestExtensions` and `QuestPatches`.
- `Comparer` holds `MuseumManagerComparer`.
- `DonatableCache` holds `GlobalDonatableCache` and `DonationInfoCache`.
- `Queries` holds the game state query.
- `TriggerActions` holds the trigger actions.
- `ConsoleCommands` holds the generic command handler.
- `CmfCommands` holds the `cmf` command table.
- `JsonConverter` holds `SingleOrListConverter`.

## Model

| member | source | states |
|---|---|---|
| Models.DefaultDonationRequirement | CustomMuseumFramework/Models/DonationRequirement.cs:7-12 | A new requirement has Id "", no category, tag or id list, and match type Any |
| Models.DefaultCountedRequirement | CustomMuseumFramework/Models/DonationRequirement.cs:16-18 | A counted requirement (reward or quest requirement) starts as the default filter with Count 1 |
| Models.DefaultReward | CustomMuseumFramework/Models/CustomMuseumReward.cs:8-14 | A new reward has no Id, requirements, reward items or actions; it is not special and flags on completion |
| Models.DefaultOwner | CustomMuseumFramework/Models/CustomMuseumData.cs:48-53 | A new owner has no name and no area, and is not required for donation |
| Models.DefaultStrings | CustomMuseumFramework/Models/CustomMuseumData.cs:55-83 | The donation, milestone, completion and empty-plaque strings start as ""; the menu and busy strings are absent |
| Models.DefaultMuseumData | CustomMuseumFramework/Models/CustomMuseumData.cs:14-46 | A new museum has one all-zero bounds rectangle, empty requirement, reward and milestone lists, no completion number, and false retrieval and override flags |
| Models.DefaultNextQuest | CustomMuseumFramework/Models/CustomMuseumQuestData.cs:26-31 | A next quest is not host-only and has no condition |
| Models.DefaultQuestData | CustomMuseumFramework/Models/CustomMuseumQuestData.cs:5-19 | Quest data starts with no text, requirements or next quests, reward 0, cancellable, and -1 days to complete |
| Text.WrapInt32 | CustomMuseumFramework/QuestExtensions.cs:31 | The result is an Int32, equals the input inside the range, and is congruent to it modulo 2^32 |
| Text.TrimEnd | CustomMuseumFramework/Helpers/CommandHandler.cs:105 | The result is a prefix of the input that does not end in white space, and only white space was dropped |
| Text.ParseInt32 | CustomMuseumFramework/QuestExtensions.cs:25 | Whatever `int.TryParse` accepts is an Int32 |
| Text.NatDigits | CustomMuseumFramework/Patches/QuestPatches.cs:47 | The decimal digits of n have no leading zero and read back as n |
| Text.ParseIntToString | CustomMuseumFramework/Patches/QuestPatches.cs:47 | Every Int32 written with ToString reads back with `int.TryParse` as the same number |
| Text.ParseBool | CustomMuseumFramework/TriggerActions.cs:73 | `bool.TryParse` gives true exactly for "true" and false exactly for "false", in any letter case, after trimming; anything else fails |
| Args.TryGetRequired | CustomMuseumFramework/Queries.cs:12 | Succeeds exactly when the index exists and the value is not blank, giving that value; a missing index is its own error |
| Args.TryGetOptionalInt | CustomMuseumFramework/Queries.cs:13-14 | The default when the index is absent; otherwise success exactly when the value parses as an Int32 |
| Args.TryGetOptionalBool | CustomMuseumFramework/TriggerActions.cs:73 | The default when the index is absent; otherwise success exactly when the value parses as a bool |
| Args.TryGetOptionalRemainder | CustomMuseumFramework/Queries.cs:15 | The default when the index is absent; otherwise the remaining arguments joined by spaces |
| Args.RemainderEmpty | CustomMuseumFramework/Queries.cs:29-32 | The remainder is empty exactly when there are no more arguments, or one empty argument |
| Args.TryGetTile | CustomMuseumFramework/TriggerActions.cs:26 | A tile is read exactly when two Int32 values follow the index, and it is made of them |
| Matcher.SatisfyNullAndUnfiltered | CustomMuseumFramework/MuseumManager.cs:207-212 | A null item satisfies nothing; a requirement with all three lists null admits every item |
| Matcher.SatisfyAny | CustomMuseumFramework/MuseumManager.cs:214-224 | In Any mode an item satisfies exactly when its id is listed, its category is listed, or a tag query matches |
| Matcher.AnyEmptyListsNeverMatch | CustomMuseumFramework/MuseumManager.cs:214-224 | In Any mode, lists that are present but empty never match |
| Matcher.SatisfyAll | CustomMuseumFramework/MuseumManager.cs:225-233 | In All mode every present id and category list must list the item, and then a tag query must match if tags are given |
| Matcher.AllImpliesAny | CustomMuseumFramework/MuseumManager.cs:214-233 | An item that satisfies a filtering requirement in All mode also satisfies it in Any mode |
| Matcher.ModesAgreeOnOneFilter | CustomMuseumFramework/MuseumManager.cs:214-233 | With exactly one list given, the two match modes agree |
| Matcher.DefaultRequirementAdmitsEverything | CustomMuseumFramework/MuseumManager.cs:207-212 | The default requirement admits every item |
| Matcher.CountSatisfying | CustomMuseumFramework/MuseumManager.cs:239-249 | The count of satisfying entries is at most the inventory's length |
| Matcher.CountItems | CustomMuseumFramework/MuseumManager.cs:239-249 | The count of non-null entries is at most the inventory's length |
| Matcher.CountSatisfyingBounds | CustomMuseumFramework/MuseumManager.cs:239-249 | Satisfying entries are never more than the non-null entries, and an unfiltered requirement counts all of them |
| Matcher.CountSatisfyingAppend | CustomMuseumFramework/MuseumManager.cs:239-249 | The count over two inventories one after the other is the sum of their counts |
| Donations.DonatedItemsChar | CustomMuseumFramework/MuseumManager.cs:52-70 | A tile is donated exactly when some entry stands on it, and its id is that of the last such entry |
| Donations.DonatedOrderKeys | CustomMuseumFramework/MuseumManager.cs:52-70 | The enumeration order of the donation map lists every donated tile exactly once |
| Donations.HasAnyDonation | CustomMuseumFramework/MuseumManager.cs:106-109 | `HasDonatedItem()` holds exactly when some inventory entry stands on a tile |
| Donations.UniqueLookup | CustomMuseumFramework/MuseumManager.cs:124-127 | With one entry per tile, the entry on a tile gives the tile's donated id |
| Donations.HasDonatedItemUnique | CustomMuseumFramework/MuseumManager.cs:111-122 | With one entry per tile, an id is donated exactly when some entry on a tile has that qualified id |
| Donations.UniqueAppend | CustomMuseumFramework/MuseumManager.cs:141-159 | Appending an entry for a free tile keeps one entry per tile |
| Donations.DonateAppend | CustomMuseumFramework/MuseumManager.cs:141-159 | Appending an item on a tile maps that tile to the item's id and leaves every other tile alone |
| Donations.RemoveId | CustomMuseumFramework/MuseumManager.cs:170-205 | Removal by id never lengthens the inventory |
| Donations.RemoveIdElements | CustomMuseumFramework/MuseumManager.cs:170-205 | The entries left are exactly those whose id does not match, ignoring case |
| Donations.RemoveIdUnique | CustomMuseumFramework/MuseumManager.cs:170-205 | Removal keeps one entry per tile |
| Donations.KeyEntry | CustomMuseumFramework/MuseumManager.cs:52-70 | Every donated tile has an inventory entry standing on it |
| Donations.RemoveIdKeeps | CustomMuseumFramework/MuseumManager.cs:170-205 | A tile that survives removal held a non-matching id and still holds it |
| Donations.RemoveIdSurvives | CustomMuseumFramework/MuseumManager.cs:170-205 | A tile whose id does not match survives removal |
| Donations.RemoveIdDonated | CustomMuseumFramework/MuseumManager.cs:170-205 | With one entry per tile, removal clears every tile whose id matches and keeps every other tile with its id |
| Donations.FirstTileWithId | CustomMuseumFramework/MuseumManager.cs:161-168 | The tile found for an id is (0,0) or a donated tile whose id matches, ignoring case |
| Donations.FirstMatching | CustomMuseumFramework/MuseumManager.cs:161-168 | The tile found is (0,0) or a matching tile of the order |
| Donations.FirstMatchingNone | CustomMuseumFramework/MuseumManager.cs:161-168 | When no tile matches, the default tile (0,0) is returned |
| Donations.FirstMatchingAt | CustomMuseumFramework/MuseumManager.cs:161-168 | The tile returned is the first matching one in enumeration order |
| Donations.SuitabilityCases | CustomMuseumFramework/MuseumManager.cs:257-280 | Null and "not_museum_donatable" items are refused, and so are donated ones when checked; otherwise the item is suitable exactly when some requirement is satisfied, so no requirements admit nothing |
| Donations.UncheckedIgnoresDonations | CustomMuseumFramework/MuseumManager.cs:257-280 | Without the donated check, suitability does not depend on what is donated |
| Donations.PossibleDonations | CustomMuseumFramework/MuseumManager.cs:81-94 | Every possible donation is a registered item id |
| Donations.DonationsSatisfyingRequirement | CustomMuseumFramework/MuseumManager.cs:239-249 | The number of satisfying donations never exceeds the number of inventory entries |
| Tiles.SuitableTileCases | CustomMuseumFramework/MuseumManager.cs:691-702 | An occupied tile is never suitable; a free tile on a pedestal index always is; a free tile without a building tile is suitable exactly when it is a donation spot |
| Tiles.DonationSpotIgnoresCase | CustomMuseumFramework/MuseumManager.cs:704-714 | The donation-spot property value is compared without regard to letter case |
| Tiles.GetFreeDonationSpot | CustomMuseumFramework/MuseumManager.cs:829-844 | The result is the first suitable tile in column-major order, with Right and Bottom included, or none exactly when no tile is suitable |
| Tiles.ScanIncludesCorner | CustomMuseumFramework/MuseumManager.cs:829-844 | The scan reaches the bottom-right corner: a rectangle whose only suitable tile is there yields that tile |
| Tiles.Offset | CustomMuseumFramework/MuseumManager.cs:846-897 | Directions 0 to 3 step up, right, down and left; any other direction does not move |
| Tiles.RowShiftSequence | CustomMuseumFramework/MuseumManager.cs:846-897 | Successive rows start -1, +1, -2, +2 and so on from the starting line |
| Tiles.RowShiftInjective | CustomMuseumFramework/MuseumManager.cs:846-897 | No two rows start at the same offset, and none after the first starts on the starting line |
| Tiles.ProbeStep | CustomMuseumFramework/MuseumManager.cs:846-897 | Each probe is one step past the previous probe of its row |
| Tiles.FindMuseumPieceLocationInDirection | CustomMuseumFramework/MuseumManager.cs:846-897 | The result is the first hit among at most distance² probes, or the starting tile when every probe misses |
| Tiles.UnknownDirectionStaysPut | CustomMuseumFramework/MuseumManager.cs:846-897 | For a direction outside 0 to 3 every probe is the starting tile |
| Tiles.RowOffsetInjective | CustomMuseumFramework/MuseumManager.cs:846-897 | Distinct rows start at distinct offsets |
| Tiles.ProbesDistinct | CustomMuseumFramework/MuseumManager.cs:846-897 | In a known direction no tile is probed twice |
| Rewards.RewardTableKeys | CustomMuseumFramework/MuseumManager.cs:346-404 | The table's keys are exactly the Ids of rewards that have one; rewards with a null Id are absent |
| Rewards.RewardTableEntry | CustomMuseumFramework/MuseumManager.cs:346-404 | The entry of the first reward with an Id is that reward's verdict, so a later duplicate is skipped |
| Rewards.RewardTableSpec | CustomMuseumFramework/MuseumManager.cs:346-404 | Each Id's entry is decided by the first reward that carries it |
| Rewards.BlankRequirementCases | CustomMuseumFramework/MuseumManager.cs:367-380 | A blank requirement with Count -1 needs every possible donation; any other Count needs that many donated tiles |
| Rewards.FilteredRequirementCases | CustomMuseumFramework/MuseumManager.cs:381-390 | A filtering requirement needs at least Count satisfying donations, so a Count above the inventory size never passes |
| Rewards.DonationKeepsRequirement | CustomMuseumFramework/MuseumManager.cs:346-404 | Donating to a free tile never un-meets a requirement that was met |
| Rewards.DonationKeepsReward | CustomMuseumFramework/MuseumManager.cs:346-404 | Donating to a free tile never un-meets a reward whose requirements were met |
| Rewards.RewardKeysDistinct | CustomMuseumFramework/MuseumManager.cs:295-298 | A museum's reward-collected flag never equals one of its reward-item keys |
| Rewards.UnderscoreIndex | CustomMuseumFramework/MuseumManager.cs:295-298 | The first underscore lies within the string |
| Rewards.UnderscoreIndexAfter | CustomMuseumFramework/MuseumManager.cs:295-298 | In `s + "_" + rest`, where s has no underscore, the first underscore is the separator |
| Rewards.UnderscoreSplit | CustomMuseumFramework/MuseumManager.cs:295-298 | Splitting at the first underscore recovers a part that holds none |
| Rewards.RewardItemKeyInjective | CustomMuseumFramework/MuseumManager.cs:295-298 | In one museum, reward-item keys tell apart items whose ids hold no underscore |
| Rewards.CanCollectRewardCases | CustomMuseumFramework/MuseumManager.cs:716-752 | A reward already flagged is collectable exactly when it has reward items and one is still available; otherwise exactly when its requirements are met and it is not a special reward whose item the farmer owns |
| Rewards.Player.constructor | CustomMuseumFramework/MuseumManager.cs:436-445 | A farmer's received and pending mail are as given |
| Rewards.AddRewardItemIfUncollected | CustomMuseumFramework/MuseumManager.cs:436-445 | The item is offered, and true returned, exactly when its key is not among the received mail |
| Rewards.AddNonItemRewards | CustomMuseumFramework/MuseumManager.cs:406-434 | A null reward does nothing; otherwise the reward flag is set when it flags on completion, and the actions are Action then Actions |
| LostBooks.LostBookKeysDistinct | CustomMuseumFramework/MuseumManager.cs:899-914 | A bookset's counter key is never the total counter key |
| LostBooks.BumpCounter | CustomMuseumFramework/MuseumManager.cs:899-914 | A missing counter is written as "1"; a stored Int32 is written back incremented with wrap-around; other text fails |
| LostBooks.BumpCounterCounts | CustomMuseumFramework/MuseumManager.cs:899-914 | A counter read back after a step is one more than before (1 for a new one), and no other key changes |
| LostBooks.LostBookEntry | CustomMuseumFramework/MuseumManager.cs:916-948 | A tile declares a lost book only through a well-formed `CMF_LostBook` action with a non-blank id and an Int32 index |
| LostBooks.LostBooksStep | CustomMuseumFramework/MuseumManager.cs:916-948 | Registering one more scanned tile keeps the first-occurrence table of the tiles scanned so far |
| LostBooks.LostBooksNextColumn | CustomMuseumFramework/MuseumManager.cs:916-948 | Finishing a column is the same as starting the next one |
| LostBooks.LostBooksDone | CustomMuseumFramework/MuseumManager.cs:916-948 | After the last column, every tile of the grid has been scanned |
| LostBooks.LostBooksCompleteIsTable | CustomMuseumFramework/MuseumManager.cs:916-948 | A completed scan is exactly the first-occurrence table of the layout's lost books: every registered book has a tile, and every declared one is registered |
| LostBooks.ScanLostBooksColumn | CustomMuseumFramework/MuseumManager.cs:916-948 | Scanning one column top to bottom extends the first-occurrence table by that column |
| LostBooks.GetLostBooksLocations | CustomMuseumFramework/MuseumManager.cs:916-948 | Each book's index maps to the first tile, in scan order, that declares it; only declared books are registered, each with at least one tile |
| Manager.DonatableFlags.constructor | CustomMuseumFramework/MuseumManager.cs:129-139 | The global donatable flag map is as given |
| Manager.SetFlag | CustomMuseumFramework/MuseumManager.cs:141-159 | Setting a museum's flag for an id changes only that entry, and only when the id is known |
| Manager.RemoveAtSpec | CustomMuseumFramework/MuseumManager.cs:170-205 | With one entry per tile, removal at a tile empties it, keeps every tile whose id differs with its id, and adds none |
| Manager.FirstRewardWithId | CustomMuseumFramework/MuseumManager.cs:491-509 | The first reward with the Id, or none exactly when no reward carries it |
| Manager.RewardFlagKeys | CustomMuseumFramework/MuseumManager.cs:491-509 | Collecting an item grants at most the reward flag of the reward it was offered for |
| Manager.MuseumManager.constructor | CustomMuseumFramework/MuseumManager.cs:75-79 | A new manager holds the given data and inventory, an empty reward lookup, and the possible donations |
| Manager.MuseumManager.CalculateDonations | CustomMuseumFramework/MuseumManager.cs:81-94 | The total holds every registered id that would be suitable if nothing were donated; nothing else changes |
| Manager.MuseumManager.TotalPossibleDonations | CustomMuseumFramework/MuseumManager.cs:41-50 | The getter always answers the set of possible donations, recalculating when the cache is empty |
| Manager.MuseumManager.GetFreeDonationSpot | CustomMuseumFramework/MuseumManager.cs:829-844 | The first suitable tile of the bounds in scan order, or none exactly when no tile is suitable |
| Manager.MuseumManager.FindMuseumPieceLocationInDirection | CustomMuseumFramework/MuseumManager.cs:846-897 | The first probe that is suitable, or occupied when existing items are not ignored; otherwise the starting tile |
| Manager.MuseumManager.DonateItem | CustomMuseumFramework/MuseumManager.cs:129-159 | Refuses (0,0), and refuses an unsuitable tile unless forced; a forced donation first clears the tile; on success the tile holds the item, its flag is set for this museum, and every quest of the farmers' logs (each listed once) takes the outcome of its donation check with the item, completions running the prefix; one entry per tile is kept |
| Manager.MuseumManager.RemoveItemAt | CustomMuseumFramework/MuseumManager.cs:170-205 | False with nothing changed for an empty tile; otherwise every entry with the tile's id, ignoring case, goes and the museum's flag for that id is cleared |
| Manager.MuseumManager.RemoveItem | CustomMuseumFramework/MuseumManager.cs:161-168 | Removes at the first tile whose id matches the qualified id, ignoring case; no match gives (0,0), which is refused |
| Manager.MuseumManager.Reset | CustomMuseumFramework/MuseumManager.cs:96-104 | With one entry per tile: nothing stays donated, the only flags changed are this museum's flags of donated ids, each donated id has a case-insensitively equal id whose flag was cleared, and when no two donated ids differ only in case every donated id's own flag is cleared; the possible donations are recalculated |
| Manager.ResetClearsEveryId | CustomMuseumFramework/MuseumManager.cs:96-104 | When no two donated ids differ only in case, "a case-insensitively equal id was cleared" means each donated id's own flag was cleared |
| Manager.MuseumManager.DonationsSatisfyingRequirement | CustomMuseumFramework/MuseumManager.cs:239-249 | The count of inventory entries satisfying the requirement, at most the inventory size |
| Manager.MuseumManager.RewardRequirementsCheck | CustomMuseumFramework/MuseumManager.cs:346-404 | The table of met rewards: null and duplicate Ids skipped, the first reward with an Id decides, and nothing else changes |
| Manager.MuseumManager.RequirementsMet | CustomMuseumFramework/MuseumManager.cs:360-398 | A reward's requirement loop: true exactly when every requirement passes, stopping at the first failure |
| Manager.MuseumManager.OnRewardCollected | CustomMuseumFramework/MuseumManager.cs:491-509 | An offered item object (looked up by identity) grants its own reward's non-item part and leaves the lookup; the item's own key is added to the mail, at most once |
| Manager.MuseumManager.GrantOfferedReward | CustomMuseumFramework/MuseumManager.cs:491-509 | Only the offered reward's flag is added, the item leaves the lookup, and the item's own key is not among the flags granted |
| Manager.MuseumManager.IncrementLostBookCount | CustomMuseumFramework/MuseumManager.cs:899-914 | Only the main player counts; the bookset counter and then the total counter are bumped, and a corrupt counter stops the update |
| Manager.RemoveIdClearsId | CustomMuseumFramework/MuseumManager.cs:161-205 | Removing the id found for a query leaves no tile whose id matches the query |
| Manager.NpcClockedInCases | CustomMuseumFramework/MuseumManager.cs:671-689 | An NPC is clocked in exactly when a character with its name stands in the area |
| Manager.NpcNotClockedIn | CustomMuseumFramework/MuseumManager.cs:671-689 | Without an NPC or an area, or with the empty rectangle, nobody is clocked in |
| LegacyMuseum.SuitabilityCases | CustomMuseumFramework/CustomMuseum.cs:116-156 | Non-objects, "not_museum_donatable" items, checked donated items and a museum without data are refused; otherwise a valid tag, id or category decides |
| LegacyMuseum.UncheckedIgnoresDonations | CustomMuseumFramework/CustomMuseum.cs:116-156 | Without the donated check, suitability does not depend on what is donated |
| LegacyMuseum.DonatedNotSuitable | CustomMuseumFramework/CustomMuseum.cs:97-156 | A donated item is never suitable again while donations are checked |
| LegacyMuseum.CountSuitableObjects | CustomMuseumFramework/CustomMuseum.cs:38-55 | The possible donations counted are at most the number of object ids |
| LegacyMuseum.NoDataNoPossibleDonations | CustomMuseumFramework/CustomMuseum.cs:38-55 | A museum without data has no possible donations |
| LegacyMuseum.MatchingStep | CustomMuseumFramework/CustomMuseum.cs:300-330 | Scanning one more donated tile adds one match exactly when its id matches |
| LegacyMuseum.CountMatchesUpTo | CustomMuseumFramework/CustomMuseum.cs:300-330 | The early-stopping count never exceeds the true number of matches and gives the same verdict against Count |
| LegacyMuseum.NullIdFails | CustomMuseumFramework/CustomMuseum.cs:281-345 | Any reward without an Id makes the whole check throw |
| LegacyMuseum.RewardTableKeys | CustomMuseumFramework/CustomMuseum.cs:281-345 | With every Id present the check succeeds, and its keys are exactly the Ids |
| LegacyMuseum.RewardTableEntry | CustomMuseumFramework/CustomMuseum.cs:281-345 | The entry of the last reward with an Id is that reward's verdict, so duplicates overwrite |
| LegacyMuseum.CanCollectRewardCases | CustomMuseumFramework/CustomMuseum.cs:558-594 | A reward already flagged is collectable exactly when it has reward items and one is still available; otherwise exactly when its requirements are met and it is not a special reward whose item the farmer owns |
| LegacyMuseum.RewardItemKeyInjective | CustomMuseumFramework/CustomMuseum.cs:204-208 | In one museum, distinct item descriptions give distinct keys |
| LegacyMuseum.AddRewardItemIfUncollected | CustomMuseumFramework/CustomMuseum.cs:368-377 | The item is offered, and true returned, exactly when its key is not received |
| LegacyMuseum.AddNonItemRewards | CustomMuseumFramework/CustomMuseum.cs:347-366 | The bare reward Id is flagged when it flags on completion; the reward's actions are run |
| LegacyMuseum.FirstRewardWithId | CustomMuseumFramework/CustomMuseum.cs:423-444 | The first reward that carries the Id |
| LegacyMuseum.CustomMuseum.constructor | CustomMuseumFramework/CustomMuseum.cs:38-55 | A new location has an unset total cache (-1) and an empty reward lookup |
| LegacyMuseum.CustomMuseum.TotalPossibleDonations | CustomMuseumFramework/CustomMuseum.cs:38-55 | The total is computed once and then cached; it counts the "(O)" ids suitable with donations ignored |
| LegacyMuseum.CustomMuseum.RewardRequirementsCheck | CustomMuseumFramework/CustomMuseum.cs:281-345 | The result is the reward table: a null Id throws, later duplicates overwrite, and each entry is the reward's verdict |
| LegacyMuseum.CustomMuseum.RequirementsMet | CustomMuseumFramework/CustomMuseum.cs:290-340 | True exactly when every requirement passes against the donated tiles |
| LegacyMuseum.CustomMuseum.OnRewardCollected | CustomMuseumFramework/CustomMuseum.cs:423-444 | An offered object (looked up by identity) grants its own reward and leaves the lookup; the item's key is added to the mail at most once |
| LegacyMuseum.CustomMuseum.GrantOfferedReward | CustomMuseumFramework/CustomMuseum.cs:423-444 | Only an object's reward flag is granted, and only objects leave the lookup |
| LegacyMuseum.CustomMuseum.GetFreeDonationSpot | CustomMuseumFramework/CustomMuseum.cs:664-684 | The first suitable tile of the fixed bounds (26, 5, 22, 13), with edges included, or (26, 5) when none is free |
| LegacyMuseum.CustomMuseum.FindMuseumPieceLocationInDirection | CustomMuseumFramework/CustomMuseum.cs:686-735 | The first probe that is suitable, or occupied when existing items are not ignored; otherwise the starting tile |
| Quests.RequirementKeysAreNotBookkeeping | CustomMuseumFramework/QuestExtensions.cs:15-25 | No requirement counter key is `CMF_Complete` or `CMF_MuseumId` |
| Quests.Quest.constructor | CustomMuseumFramework/Patches/QuestPatches.cs:22-41 | A new quest has the given fields and no completion yet |
| Quests.Quest.QuestComplete | CustomMuseumFramework/Patches/QuestPatches.cs:92-125 | Completing a quest runs the patched prefix first: the quest's completion actions are recorded in order and its next quests are filtered by their conditions (only ones it had survive); one more completion is counted and the counters are kept |
| Quests.ApplyRequirement | CustomMuseumFramework/QuestExtensions.cs:23-38 | One pass of the loop acts as the requirement step on the quest's counters |
| Quests.DecrementClamped | CustomMuseumFramework/QuestExtensions.cs:31 | The decremented counter is an Int32 and never negative |
| Quests.OnMuseumDonation | CustomMuseumFramework/QuestExtensions.cs:10-47 | Unknown quests give false and change nothing; quests without requirements or marked complete give true and complete unless probing; otherwise counters follow the step and the quest completes when every requirement is done; each completion runs the prefix (actions, next-quest filter) on the quest's data entry, and without one nothing about completion changes |
| Quests.NotifyDonation | CustomMuseumFramework/MuseumManager.cs:145-148 | With every quest listed once, each quest of the farmers' logs takes the outcome of one donation check with its own quest data entry, its completion running the prefix on that entry; quest ids never change |
| Quests.RunProbeKeepsCounters | CustomMuseumFramework/QuestExtensions.cs:29-33 | Probing never writes a counter |
| Quests.ProbeChangesNothing | CustomMuseumFramework/QuestExtensions.cs:17 | In probe mode no counter is written and the quest never completes |
| Quests.StepRewrites | CustomMuseumFramework/QuestExtensions.cs:27-35 | A real donation that satisfies a requirement with a readable counter rewrites that counter alone, with text that reads back as an Int32, and sets changed |
| Quests.StepSameReadable | CustomMuseumFramework/QuestExtensions.cs:25-35 | One requirement reads and skips the same counters in a real run as in a probe, and sets changed alike |
| Quests.RunProbeSameChanged | CustomMuseumFramework/QuestExtensions.cs:21-38 | Probing sets changed exactly when a real donation would, because a real run leaves every counter readable exactly when it was |
| Quests.RunKeys | CustomMuseumFramework/QuestExtensions.cs:23-38 | The counters' keys never change |
| Quests.RunKeepsOtherKey | CustomMuseumFramework/QuestExtensions.cs:23-38 | Keys other than the requirement counters are never rewritten |
| Quests.RunKeepsOtherKeys | CustomMuseumFramework/QuestExtensions.cs:23-38 | Keys other than the requirement counters are never rewritten, for every such key |
| Quests.StepDecrements | CustomMuseumFramework/QuestExtensions.cs:27-35 | A satisfied requirement's counter drops by exactly 1 and never below 0; only Int32.MinValue wraps |
| Quests.RunCompletedAtMost | CustomMuseumFramework/QuestExtensions.cs:37 | Each requirement completes at most once |
| Quests.RunMissingCounter | CustomMuseumFramework/QuestExtensions.cs:25 | A requirement without a readable counter is skipped and never counts as completed |
| Quests.MissingCounterBlocksCompletion | CustomMuseumFramework/QuestExtensions.cs:25-46 | A quest with a requirement lacking a counter completes only when it is already marked complete |
| Quests.HostFilter | CustomMuseumFramework/Patches/QuestPatches.cs:30-36 | A player is never offered more next quests than the data lists |
| Quests.HostFilterSpec | CustomMuseumFramework/Patches/QuestPatches.cs:30-36 | The main player gets every next quest in order; a farmhand gets exactly the ones that are not host-only |
| Quests.InitialCounterOwner | CustomMuseumFramework/Patches/QuestPatches.cs:43-48 | Every counter was written by a requirement with a positive count, the last one with that key |
| Quests.InitialCountersHas | CustomMuseumFramework/Patches/QuestPatches.cs:43-48 | Every requirement with a positive count gets a counter |
| Quests.InitialCountersSpec | CustomMuseumFramework/Patches/QuestPatches.cs:43-48 | Counters are written only for requirements with Count > 0, and each reads back as that Count |
| Quests.InitialCompleteFlag | CustomMuseumFramework/Patches/QuestPatches.cs:43-53 | `CMF_Complete` is "false" exactly when the requirement list is non-empty, and `CMF_MuseumId` is the data's museum |
| Quests.OfferedNextQuests | CustomMuseumFramework/Patches/QuestPatches.cs:30-36 | The loop adds exactly the filtered next quests, in order |
| Quests.WriteCounters | CustomMuseumFramework/Patches/QuestPatches.cs:43-48 | The loop writes exactly the initial counters |
| Quests.GetQuestFromId | CustomMuseumFramework/Patches/QuestPatches.cs:18-57 | An unknown id defers to the game and builds nothing; otherwise a fresh type-1 quest gets the data's fields (null text as ""), the offered next quests and the initial counters |
| Quests.ReduceCountersKeys | CustomMuseumFramework/Patches/QuestPatches.cs:77-84 | The catch-up keeps the set of keys |
| Quests.ReduceCounterChanged | CustomMuseumFramework/Patches/QuestPatches.cs:77-84 | A value the catch-up changed is a requirement's counter and reads as a non-negative number |
| Quests.ReduceCountersSpec | CustomMuseumFramework/Patches/QuestPatches.cs:77-84 | The catch-up writes only existing counters, and each value written is non-negative |
| Quests.ReduceLast | CustomMuseumFramework/Patches/QuestPatches.cs:79-83 | A positive counter goes down by the satisfying donations and stops at 0; others are skipped |
| Quests.CatchUpCounters | CustomMuseumFramework/Patches/QuestPatches.cs:77-84 | The loop leaves exactly the caught-up counters |
| Quests.CatchUpCounter | CustomMuseumFramework/Patches/QuestPatches.cs:79-83 | One iteration leaves a positive readable counter lowered by the satisfying donations and clamped at 0, and every other counter as it was |
| Quests.AddQuestPostfix | CustomMuseumFramework/Patches/QuestPatches.cs:67-86 | A quest without requirements completes (prefix included) and stops the scan; an unknown museum stops it with no completion; otherwise the counters are caught up and the donation check runs with no item, against the quest data of the quest's own id |
| Quests.AddQuest | CustomMuseumFramework/Patches/QuestPatches.cs:61-88 | Nothing happens without quest data, and quests with other ids are never touched; each matching quest up to the first that stops the scan takes the postfix outcome, and every quest after it is unchanged |
| Quests.FindNextQuest | CustomMuseumFramework/Patches/QuestPatches.cs:119 | The first next-quest entry with the Id, or none when no entry has it |
| Quests.FilterNextQuests | CustomMuseumFramework/Patches/QuestPatches.cs:115-124 | A next quest is kept exactly when the quest had it and its data entry is absent or its condition holds; none is added |
| Quests.UnlistedNextQuestKept | CustomMuseumFramework/Patches/QuestPatches.cs:119-120 | Next quests without a data entry are always kept |
| Quests.QuestCompletePrefix | CustomMuseumFramework/Patches/QuestPatches.cs:92-125 | Unknown quests are left alone; otherwise the completion actions run in order and the next quests are filtered |
| Quests.NextAfterCompletion | CustomMuseumFramework/Patches/QuestPatches.cs:115-124 | Completion only drops next quests, never adds one |
| Comparer.OrdinalCompare | CustomMuseumFramework/Helpers/MuseumManagerComparer.cs:23 | The ordinal comparison is reduced to its sign |
| Comparer.OrdinalCompareZero | CustomMuseumFramework/Helpers/MuseumManagerComparer.cs:23 | The ordinal comparison is 0 exactly on equal strings |
| Comparer.OrdinalCompareAntisymmetric | CustomMuseumFramework/Helpers/MuseumManagerComparer.cs:23 | Swapping the operands negates the ordinal comparison |
| Comparer.OrdinalCompareTransitive | CustomMuseumFramework/Helpers/MuseumManagerComparer.cs:23 | "Sorts before" under the ordinal comparison is transitive |
| Comparer.CompareCases | CustomMuseumFramework/Helpers/MuseumManagerComparer.cs:8-25 | Two nulls compare 0, null sorts first, an overriding museum sorts before a non-overriding one, and equal flags fall back to the Id |
| Comparer.CompareAntisymmetric | CustomMuseumFramework/Helpers/MuseumManagerComparer.cs:8-25 | Compare(x, y) is the negation of Compare(y, x) |
| Comparer.CompareZeroIffSame | CustomMuseumFramework/Helpers/MuseumManagerComparer.cs:8-25 | Two managers compare 0 exactly when their override flag and Id agree |
| Comparer.CompareTransitive | CustomMuseumFramework/Helpers/MuseumManagerComparer.cs:8-25 | The comparer is transitive, so it is a strict order, as a sorted list needs |
| DonatableCache.AssetTypes | CustomMuseumFramework/GlobalDonatableCache.cs:12-27 | Each asset in the table defines one or two item types |
| DonatableCache.FirstWithKey | CustomMuseumFramework/GlobalDonatableCache.cs:106 | The first museum that has the key |
| DonatableCache.RowOfSpec | CustomMuseumFramework/GlobalDonatableCache.cs:101-106 | An item's list names every museum key once, with the info of the first museum that has the key |
| DonatableCache.AddInfosOthers | CustomMuseumFramework/GlobalDonatableCache.cs:94-112 | Adding an item's infos leaves the other items' lists alone |
| DonatableCache.AddInfosFresh | CustomMuseumFramework/GlobalDonatableCache.cs:101-106 | An item seen for the first time gets its list built in one pass |
| DonatableCache.FirstWithKeyPrefix | CustomMuseumFramework/GlobalDonatableCache.cs:106 | The first museum with a key is in the prefix when the prefix has the key, and is the last museum otherwise |
| DonatableCache.AddInfosFull | CustomMuseumFramework/GlobalDonatableCache.cs:106 | `TryAdd` leaves an item's list alone when it already names every museum key |
| DonatableCache.BuiltIsExpected | CustomMuseumFramework/GlobalDonatableCache.cs:88-114 | A fresh cache holds one list per item, keeping the first info per (item, museum key) |
| DonatableCache.ExpectedStep | CustomMuseumFramework/GlobalDonatableCache.cs:90 | The expected entries grow by one item's list per item |
| DonatableCache.BuiltWithoutMuseums | CustomMuseumFramework/GlobalDonatableCache.cs:94 | Without museums nothing is recorded |
| DonatableCache.DonationInfoCache.constructor | CustomMuseumFramework/GlobalDonatableCache.cs:84-86 | A new cache is empty and unused |
| DonatableCache.DonationInfoCache.AddItem | CustomMuseumFramework/GlobalDonatableCache.cs:94-112 | The museum loop records the item's infos, and `IsUsed` becomes set when some museum accepts the item |
| DonatableCache.DonationInfoCache.BuildCache | CustomMuseumFramework/GlobalDonatableCache.cs:88-114 | The cache holds the built lists, and `IsUsed` is set exactly when some item is a valid donation somewhere |
| DonatableCache.ClearTotals | CustomMuseumFramework/GlobalDonatableCache.cs:48-51 | Every manager's total is cleared, and nothing else about them changes |
| DonatableCache.GlobalDonatableCache.constructor | CustomMuseumFramework/GlobalDonatableCache.cs:10 | The global cache starts empty |
| DonatableCache.GlobalDonatableCache.Invalidate | CustomMuseumFramework/GlobalDonatableCache.cs:29-52 | An unknown asset changes nothing; otherwise its types are removed, and totals are cleared exactly when a removed cache was used |
| DonatableCache.GlobalDonatableCache.RemoveTypes | CustomMuseumFramework/GlobalDonatableCache.cs:38-45 | Present types are removed and absent ones skipped; the flag says whether a removed cache was used |
| DonatableCache.GlobalDonatableCache.InvalidateAll | CustomMuseumFramework/GlobalDonatableCache.cs:54-61 | The cache is emptied and every manager's total is cleared |
| DonatableCache.GlobalDonatableCache.TryGetValue | CustomMuseumFramework/GlobalDonatableCache.cs:63-81 | A cached type is returned without rebuilding; an unknown type gives false and caches nothing; otherwise a new, built cache is stored and returned |
| Queries.FindRequirement | CustomMuseumFramework/Queries.cs:37 | A requirement found has an Id equal to the given one, ignoring case |
| Queries.FindRequirementNone | CustomMuseumFramework/Queries.cs:37-38 | Nothing is found exactly when no requirement's Id matches, ignoring case |
| Queries.FindRequirementIgnoresCase | CustomMuseumFramework/Queries.cs:37 | Ids that differ only in letter case find the same requirement |
| Queries.ListedCountAll | CustomMuseumFramework/Queries.cs:34-43 | When the engine visits every id, the count is the sum over all listed ids, and unknown ids add nothing |
| Queries.ListedCountFirst | CustomMuseumFramework/Queries.cs:34-43 | When the engine stops at the first accepted id, only the first known id counts |
| Queries.ListedCountUnknown | CustomMuseumFramework/Queries.cs:38 | Ids that name no requirement count 0 |
| Queries.QueryArgumentErrors | CustomMuseumFramework/Queries.cs:12-18 | A missing or blank museum id, or a min or max that does not parse, is an error, and the query is false |
| Queries.QueryUnknownMuseum | CustomMuseumFramework/Queries.cs:20-23 | Well-formed arguments naming no museum give the unknown-museum error |
| Queries.QueryWithoutMin | CustomMuseumFramework/Queries.cs:25 | With only a museum id, the query asks whether anything is donated |
| Queries.QueryDonatedRange | CustomMuseumFramework/Queries.cs:27-32 | Without requirement ids, min ≤ donated count ≤ max is checked, where max -1 means no bound |
| Queries.QueryListedRange | CustomMuseumFramework/Queries.cs:27-43 | With requirement ids, min ≤ listed count ≤ max is checked |
| Queries.CountListed | CustomMuseumFramework/Queries.cs:34-41 | The counting loop gives the listed count of the manager's snapshot |
| Queries.Query | CustomMuseumFramework/Queries.cs:10-44 | The query over the registered managers is `MUSEUM_DONATIONS` over their snapshots |
| TriggerActions.ParseIds | CustomMuseumFramework/TriggerActions.cs:13-17 | Succeeds exactly when the museum id and item id are present and not blank; the museum id is checked first |
| TriggerActions.ParseRemoveArgs | CustomMuseumFramework/TriggerActions.cs:71-76 | The ids must be valid, and pop defaults to true or must parse as a bool |
| TriggerActions.Donate | CustomMuseumFramework/TriggerActions.cs:11-67 | Bad ids, an unknown museum or a malformed tile fail with nothing changed; the tile is the explicit one or the first free spot, else (0,0); success is exactly a tile other than (0,0) that is suitable or forced; on success the inventory (cleared at the tile when forced, then the new item appended), the flag map (set for the item, over the cleared one when forced) and the quests' outcomes are stated in full, and the id is announced; a refused donation changes nothing |
| TriggerActions.DonateItem | CustomMuseumFramework/TriggerActions.cs:11-38 | The unforced donation effect at the returned tile: success means the explicit or first free tile, other than (0,0) and suitable, now holds the item, the item's flag is set and the quests take their outcomes; it is announced |
| TriggerActions.ForceDonateItem | CustomMuseumFramework/TriggerActions.cs:40-67 | The forced donation effect at the returned tile: success means the tile is not (0,0), whatever stood there is removed and its flag cleared, then the item is appended and flagged; the quests take their outcomes; it is announced |
| TriggerActions.RemoveDonation | CustomMuseumFramework/TriggerActions.cs:69-85 | Bad arguments or an unknown museum fail with nothing changed; otherwise the result is exactly the manager's `RemoveItem` |
| ConsoleCommands.Lookup | CustomMuseumFramework/Helpers/CommandHandler.cs:54 | A command found is registered under exactly that name; none is found exactly when no name matches |
| ConsoleCommands.Handle | CustomMuseumFramework/Helpers/CommandHandler.cs:50-66 | A handler runs exactly when the named command (help by default) is known and allowed now, on the arguments after the name; an unknown name logs the invalid-command error, and a title-screen refusal logs the not-ready error |
| ConsoleCommands.CommandArgs | CustomMuseumFramework/Helpers/CommandHandler.cs:53 | The handler's arguments are all arguments but the first |
| ConsoleCommands.HandleCases | CustomMuseumFramework/Helpers/CommandHandler.cs:50-66 | No arguments run help; a handler runs exactly when its name is known and it is allowed now, on the remaining arguments; otherwise an error is logged |
| ConsoleCommands.HelpDescription | CustomMuseumFramework/Helpers/CommandHandler.cs:71-80 | The help command's description opens with the root command and "help", and ends with a full stop |
| ConsoleCommands.Listing | CustomMuseumFramework/Helpers/CommandHandler.cs:91-95 | The listing is empty exactly when there are no commands, and otherwise opens with a blank line |
| ConsoleCommands.HelpText | CustomMuseumFramework/Helpers/CommandHandler.cs:87-103 | Without arguments: the intro followed by the listing, the intro alone exactly when no command is registered; a known name gives a line break and its description; an unknown name gives the invalid-command message |
| ConsoleCommands.ListingConcat | CustomMuseumFramework/Helpers/CommandHandler.cs:91-95 | The listing of two tables one after the other is their two listings one after the other |
| ConsoleCommands.ListingPrefix | CustomMuseumFramework/Helpers/CommandHandler.cs:91-95 | The listing up to and including a command ends with that command's entry |
| ConsoleCommands.ListingSplit | CustomMuseumFramework/Helpers/CommandHandler.cs:91-95 | The listing holds every command's description, in table order |
| ConsoleCommands.Help | CustomMuseumFramework/Helpers/CommandHandler.cs:82-106 | The text logged is the help text with trailing white space trimmed |
| ConsoleCommands.HelpTrimmed | CustomMuseumFramework/Helpers/CommandHandler.cs:87-105 | Trimming loses only trailing white space, and the intro always survives it |
| CmfCommands.LookupIn | CustomMuseumFramework/Commands/CommandHandler.cs:26 | A sub-command is found exactly when the table has the name, and the table pairs the name with it |
| CmfCommands.CommandTable | CustomMuseumFramework/Commands/CommandHandler.cs:14-20 | The table holds exactly help, reset, resetall and resetvanilla, one entry per name, and each name finds its own |
| CmfCommands.Handle | CustomMuseumFramework/Commands/CommandHandler.cs:22-32 | No arguments run help; a known name runs its sub-command on the remaining arguments; an unknown one logs an error |
| JsonConverter.ConvertAll | CustomMuseumFramework/Helpers/SingleOrListConverter.cs:21 | An array converts element by element, in order |
| JsonConverter.CanConvert | CustomMuseumFramework/Helpers/SingleOrListConverter.cs:10-13 | True exactly for `List<T>`, and never for `T` itself |
| JsonConverter.ReadJson | CustomMuseumFramework/Helpers/SingleOrListConverter.cs:15-24 | Null exactly for a JSON null; an array gives its converted elements in order; any other token gives a one-element list |
| JsonConverter.WriteJson | CustomMuseumFramework/Helpers/SingleOrListConverter.cs:26-31 | Writing always fails |
| JsonConverter.ReadJsonCases | CustomMuseumFramework/Helpers/SingleOrListConverter.cs:15-24 | A JSON null reads as null, an array as its converted elements, and any other token as a one-element list, as if it were an array holding only itself |

## Left out

- Engine services are inputs, not models:
  - the item registry (`ItemRegistry.Create`, qualified ids, the items of a type);
  - context-tag queries;
  - tile-layer reads;
  - `GameStateQuery.CheckConditions` and `TriggerActionManager`.
  They appear as function-valued fields of `Matcher.Engine`, as fields of `Tiles.Layout`, or as parameters.
- `GetRewardsForPlayer`, `GetAllAvailableRewards` and `GetFirstAvailableReward` use the engine's item queries and its seeded random numbers. `CanCollectReward` takes their results as inputs.
- `DoesFarmerHaveAnythingToDonate` is not part of this model. It only asks whether some item of the farmer's inventory is suitable.
- `HighlightCollectableRewards` and `HighlightPreviouslyDonated` are not part of this model either.
- Menus, dialogue, drawing and the `NetMutex` around menus are left out. This covers `OpenDonationMenu`, `OpenRewardMenu`, `OpenRearrangeMenu`, `OpenRetrievalMenu` and `OpenMuseumDialogueMenu`, together with `ReturnToMuseum`, `RetrieveItemFromMuseum` and `ResetModData`.
- Multiplayer messages and chat are left out. The `ON_DONATION` broadcast of a trigger action becomes the `announced` item id.
- Manager.MuseumManager.RemoveItemAt: popping the removed item into the world as debris is not modelled. This covers the `pop` argument, `float.Parse` of the position and the debris itself, because they are world effects.
- Manager.MuseumManager.Reset: has the same omission, since it removes with `pop`.
- Manager.MuseumManager.Reset: when two inventory entries share a tile, the contract states only the recalculated total and the kept flag-map keys; the donation map then reads the last entry per tile, and the removal order is not followed further.
- Manager.MuseumManager.DonateItem: the quest outcome is stated for logs in which no quest object appears twice; a quest listed twice would run its check twice, and that is not stated.
- Positions are integer tiles; `Vector2` floating-point coordinates are not modelled. A tile argument is read as two Int32 values.
- Manager.MuseumManager.TotalPossibleDonations: the registration of possible donations by the cache (`AddPossibleDonation`) is not modelled. That member is not part of the shown code, so the total is the set the manager computes itself.
- DonatableCache.DonationInfoCache.BuildCache: the `firstPass` overload of `IsItemSuitableForDonation` is not part of the shown code. It is modelled as suitability with donations ignored.
- The sorted list of `DonationInfo` per item is a map keyed by the comparer's key: the override flag and the Id. Two managers compare 0 exactly when their keys agree, so `TryAdd` keeps the first manager per key. The order of the list is not kept.
- Queries.ListedCountAll: the engine's `AnyArgMatches` may or may not stop at the first id the closure accepts. This is the parameter `stopsAtFirst`, and the sum over all ids holds only when it does not stop.
- Queries.Query: Int32 overflow of `count` is not modelled; counts are unbounded.
- Error results of the game state query are `Failure` values, so the query is false. The engine's logging of them is not modelled.
- The wording of the engine's argument errors is not modelled; they are the `ArgError` kinds.
- Case-insensitive comparison lower-cases ASCII letters only. Other Unicode case folding is not modelled.
- Comparer.OrdinalCompare: `String.Compare` with ordinal comparison works on UTF-16 code units and returns any integer. The model gives only its sign, on Dafny characters.
- The reflection-based `Register` of the console command helper is left out. The registered commands are given as an ordered table.
- The `cmf` sub-commands `HelpCommand`, `ResetCommand`, `ResetAllCommand` and `ResetVanillaCommand` are not modelled. Neither are the other console commands.
- JsonConverter.ReadJson: the JSON library's conversion of one token to a `T` is the parameter `convert`. The reader is given the token already loaded.
- Quests.QuestCompletePrefix: removing next quests while iterating over them is modelled as a filter. The source removes from the `NetList` it is enumerating; what the enumerator then does (an exception, or skipping the entry after each removed one) is not modelled, so the model keeps exactly the entries that pass. Trigger action errors are only logged, so the actions are returned in order.
- Quests.Quest.QuestComplete: the patched prefix runs at every completion (actions recorded, next quests filtered), but the game's own `questComplete` after it (rewards, journal and mail) is only counted. The condition oracle `check` stands for the game state queries.
- `DoesDonationSatisfyRequirement` and `DonationsSatisfyingQuestRequirement` are not part of the shown code. They are modelled by the requirement matcher and its count.
- The older `CustomMuseum` reads requirement and museum fields that the shown records do not declare (`ValidContextTags`, `ValidItemIds`, `ValidCategories`, and single `ItemId`, `Category` and `ContextTag`). They are the module's own records.
- String-typed flags (`AllowRetrieval`, `OverrideDescription`, `RequiredForDonation`) are booleans. `Bounds`, a list in the record, is the single rectangle that the museum reads.
- Harmony patches other than the quest patches, mod entry and asset loading are not part of this model, nor is `CMF.LostBooks`.
