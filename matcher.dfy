/**
 * The donation-requirement matcher (`MuseumManager.DoesItemSatisfyRequirement`)
 * and the count of donated entries that satisfy a requirement, over an
 * abstract item model. The engine's lookups are the function-valued fields of
 * `Engine`.
 */
module Matcher {
  import opened Wrappers
  import opened Models

  /**
   * An item: qualified id, category, context tags, stack size, and the tile its
   * `CMF_Position` data names (None when that entry is missing or does not
   * parse as a tile).
   */
  datatype Item = Item(qualifiedId: string, category: int, tags: set<string>, stack: int, position: Option<Tile>)

  /** The engine's test of one context-tag query against an item's tags (`ItemContextTagManager`). */
  type TagQuery = (string, set<string>) -> bool

  /**
   * The engine services the core calls: `ItemRegistry.QualifyItemId`, `ItemRegistry.Create`
   * (which never fails: an unknown id yields an error item), the qualified ids of every
   * registered item, the unqualified ids of the object type "(O)", and the context-tag
   * query test.
   */
  datatype Engine = Engine(
    qualify: string -> string,
    create: string -> Item,
    allIds: seq<string>,
    objectIds: seq<string>,
    tagQuery: TagQuery)

  /** `ItemContextTagManager.DoAnyTagsMatch`: some listed query matches the tags. */
  predicate DoAnyTagsMatch(queries: seq<string>, tags: set<string>, tagQuery: TagQuery) {
    exists i :: 0 <= i < |queries| && tagQuery(queries[i], tags)
  }

  /** No filter is given at all (every list is null). */
  predicate IsUnfiltered(req: DonationRequirement) {
    req.itemIds.None? && req.categories.None? && req.contextTags.None?
  }

  predicate IdListed(item: Item, req: DonationRequirement) {
    req.itemIds.Some? && item.qualifiedId in req.itemIds.value
  }

  predicate CategoryListed(item: Item, req: DonationRequirement) {
    req.categories.Some? && item.category in req.categories.value
  }

  predicate TagsListed(item: Item, req: DonationRequirement, tagQuery: TagQuery) {
    req.contextTags.Some? && DoAnyTagsMatch(req.contextTags.value, item.tags, tagQuery)
  }

  /** `MuseumManager.DoesItemSatisfyRequirement`. */
  predicate DoesItemSatisfyRequirement(item: Option<Item>, req: DonationRequirement, tagQuery: TagQuery) {
    if item.None? then false
    else if IsUnfiltered(req) then true
    else
      var it := item.value;
      match req.matchType
      case Any =>
        if req.itemIds.Some? && it.qualifiedId in req.itemIds.value then true
        else if req.categories.Some? && it.category in req.categories.value then true
        else if req.contextTags.Some? && DoAnyTagsMatch(req.contextTags.value, it.tags, tagQuery) then true
        else false
      case All =>
        if req.itemIds.Some? && it.qualifiedId !in req.itemIds.value then false
        else if req.categories.Some? && it.category !in req.categories.value then false
        else req.contextTags.None? || DoAnyTagsMatch(req.contextTags.value, it.tags, tagQuery)
  }

  /** A null item satisfies nothing; a requirement without any list admits every item. */
  lemma SatisfyNullAndUnfiltered(item: Option<Item>, req: DonationRequirement, tagQuery: TagQuery)
    ensures item.None? ==> !DoesItemSatisfyRequirement(item, req, tagQuery)
    ensures item.Some? && IsUnfiltered(req) ==> DoesItemSatisfyRequirement(item, req, tagQuery)
  {
  }

  /** Any mode: one listed id, category or matching tag query suffices, and nothing else does. */
  lemma SatisfyAny(item: Item, req: DonationRequirement, tagQuery: TagQuery)
    requires req.matchType == Any && !IsUnfiltered(req)
    ensures DoesItemSatisfyRequirement(Some(item), req, tagQuery)
        <==> IdListed(item, req) || CategoryListed(item, req) || TagsListed(item, req, tagQuery)
  {
  }

  /** Any mode: lists that are present but empty never match. */
  lemma AnyEmptyListsNeverMatch(item: Item, req: DonationRequirement, tagQuery: TagQuery)
    requires req.matchType == Any && !IsUnfiltered(req)
    requires req.itemIds.None? || req.itemIds.value == []
    requires req.categories.None? || req.categories.value == []
    requires req.contextTags.None? || req.contextTags.value == []
    ensures !DoesItemSatisfyRequirement(Some(item), req, tagQuery)
  {
  }

  /** All mode: every present id and category list must list the item; then a tag query must match if tags are given. */
  lemma SatisfyAll(item: Item, req: DonationRequirement, tagQuery: TagQuery)
    requires req.matchType == All && !IsUnfiltered(req)
    ensures DoesItemSatisfyRequirement(Some(item), req, tagQuery)
        <==> ((req.itemIds.None? || IdListed(item, req))
              && (req.categories.None? || CategoryListed(item, req))
              && (req.contextTags.None? || TagsListed(item, req, tagQuery)))
  {
  }

  /** Matching in All mode is never looser than in Any mode. */
  lemma AllImpliesAny(item: Item, req: DonationRequirement, tagQuery: TagQuery)
    requires DoesItemSatisfyRequirement(Some(item), req.(matchType := All), tagQuery)
    ensures DoesItemSatisfyRequirement(Some(item), req.(matchType := Any), tagQuery)
  {
  }

  /** With exactly one list given, the two match modes agree. */
  lemma ModesAgreeOnOneFilter(item: Item, req: DonationRequirement, tagQuery: TagQuery)
    requires (if req.itemIds.Some? then 1 else 0) + (if req.categories.Some? then 1 else 0)
           + (if req.contextTags.Some? then 1 else 0) == 1
    ensures DoesItemSatisfyRequirement(Some(item), req.(matchType := All), tagQuery)
        <==> DoesItemSatisfyRequirement(Some(item), req.(matchType := Any), tagQuery)
  {
  }

  /** The default requirement (no lists, Any mode) admits every item. */
  lemma DefaultRequirementAdmitsEverything(item: Item, tagQuery: TagQuery)
    ensures DoesItemSatisfyRequirement(Some(item), DefaultDonationRequirement(), tagQuery)
  {
  }

  /** The number of inventory entries that satisfy a requirement; null slots never do. */
  function CountSatisfying(inv: seq<Option<Item>>, req: DonationRequirement, tagQuery: TagQuery): (n: nat)
    ensures n <= |inv|
    decreases |inv|
  {
    if |inv| == 0 then 0
    else CountSatisfying(inv[..|inv| - 1], req, tagQuery)
         + (if DoesItemSatisfyRequirement(inv[|inv| - 1], req, tagQuery) then 1 else 0)
  }

  /** The number of non-null entries of an inventory. */
  function CountItems(inv: seq<Option<Item>>): (n: nat)
    ensures n <= |inv|
    decreases |inv|
  {
    if |inv| == 0 then 0 else CountItems(inv[..|inv| - 1]) + (if inv[|inv| - 1].Some? then 1 else 0)
  }

  /** An unfiltered requirement is satisfied by every non-null entry, and no count exceeds that. */
  lemma {:induction false} CountSatisfyingBounds(inv: seq<Option<Item>>, req: DonationRequirement, tagQuery: TagQuery)
    ensures CountSatisfying(inv, req, tagQuery) <= CountItems(inv)
    ensures IsUnfiltered(req) ==> CountSatisfying(inv, req, tagQuery) == CountItems(inv)
    decreases |inv|
  {
    if |inv| > 0 {
      CountSatisfyingBounds(inv[..|inv| - 1], req, tagQuery);
    }
  }

  /** Counting distributes over concatenation of inventories. */
  lemma {:induction false} CountSatisfyingAppend(a: seq<Option<Item>>, b: seq<Option<Item>>, req: DonationRequirement, tagQuery: TagQuery)
    ensures CountSatisfying(a + b, req, tagQuery) == CountSatisfying(a, req, tagQuery) + CountSatisfying(b, req, tagQuery)
    decreases |b|
  {
    if |b| > 0 {
      assert (a + b)[..|a + b| - 1] == a + b[..|b| - 1];
      CountSatisfyingAppend(a, b[..|b| - 1], req, tagQuery);
    } else {
      assert a + b == a;
    }
  }
}
