/**
 * The trigger actions `DonateItem <museum> <item> [x y]`, `ForceDonateItem <museum> <item> [x y]`
 * and `RemoveDonation <museum> <item> [pop]`: argument checks layered over the
 * manager's `DonateItem` and `RemoveItem`. The chat announcement of a donation is
 * returned as the id whose name would be broadcast.
 */
module TriggerActions {
  import opened Wrappers
  import opened Text
  import opened Models
  import opened Donations
  import opened Args
  import Tiles
  import Manager
  import Quests

  const UnknownMuseumMessage: string := "The museumId provided does not match an existing custom museum."

  /** The `error` an action reports: an argument error, or the unknown-museum message. */
  datatype ActionError = BadArgument(arg: ArgError) | UnknownMuseum(message: string)

  /** The museum id (index 1) and the item id (index 2), both required and non-blank, checked in that order. */
  function ParseIds(args: seq<string>): (r: Result<(string, string), ArgError>)
    ensures r.Success? <==> |args| > 2 && !IsNullOrWhiteSpace(Some(args[1])) && !IsNullOrWhiteSpace(Some(args[2]))
    ensures r.Success? ==> r.value == (args[1], args[2])
    ensures r.Failure? && (|args| <= 1 || IsNullOrWhiteSpace(Some(args[1]))) ==> r.error == TryGetRequired(args, 1).error
  {
    match TryGetRequired(args, 1)
    case Failure(e) => Failure(e)
    case Success(museumId) =>
      match TryGetRequired(args, 2)
      case Failure(e) => Failure(e)
      case Success(itemId) => Success((museumId, itemId))
  }

  /** `RemoveDonation`'s arguments: the two ids, then `pop`, which defaults to true. */
  function ParseRemoveArgs(args: seq<string>): (r: Result<(string, string, bool), ArgError>)
    ensures r.Success? <==> ParseIds(args).Success? && (|args| > 3 ==> ParseBool(args[3]).Some?)
    ensures r.Success? ==> (r.value.0, r.value.1) == ParseIds(args).value
    ensures r.Success? && |args| == 3 ==> r.value.2
    ensures r.Success? && |args| > 3 ==> r.value.2 == ParseBool(args[3]).value
  {
    match ParseIds(args)
    case Failure(e) => Failure(e)
    case Success(ids) =>
      match TryGetOptionalBool(args, 3, true)
      case Failure(e) => Failure(e)
      case Success(pop) => Success((ids.0, ids.1, pop))
  }

  /** `t` is the tile `GetFreeDonationSpot` answers: the first suitable tile of the bounds in scan order. */
  ghost predicate FirstFree(m: Manager.MuseumManager, t: Tile)
    reads m
  {
    Tiles.InScan(m.data.bounds, t) && m.IsTileSuitable(t)
    && forall u :: Tiles.InScan(m.data.bounds, u) && Tiles.ScanBefore(u, t) ==> !m.IsTileSuitable(u)
  }

  /** `GetFreeDonationSpot` answers null. */
  ghost predicate NoneFree(m: Manager.MuseumManager)
    reads m
  {
    forall t :: Tiles.InScan(m.data.bounds, t) ==> !m.IsTileSuitable(t)
  }

  /**
   * What `DonateItem` and `ForceDonateItem`, which differ only in `force`, do. Bad ids
   * and an unknown museum fail with nothing changed. The tile `location` is the explicit
   * `x y` pair when index 3 is present (a malformed pair fails with nothing changed),
   * otherwise the museum's first free spot, or (0,0) when there is none, which the
   * manager refuses. From there the manager's `DonateItem` decides: on success the
   * inventory, the flag map and the quests change as it states, and the item id is
   * announced; a refused donation changes nothing and is not announced.
   */
  twostate predicate DonationEffect(args: seq<string>, managers: map<string, Manager.MuseumManager>,
                                    global: Manager.DonatableFlags, quests: seq<Quests.Quest>,
                                    questData: map<string, QuestData>, check: Option<string> -> bool, force: bool,
                                    ok: bool, new error: Option<ActionError>, new announced: Option<string>, location: Tile)
    reads managers.Values, global, set q | q in quests
  {
    && (ok ==> |args| > 2 && announced == Some(args[2]))
    && (!ok ==> announced.None?)
    && (ParseIds(args).Failure? ==>
          !ok && error == Some(BadArgument(ParseIds(args).error)) && unchanged(managers.Values, global, quests))
    && (ParseIds(args).Success? && args[1] !in managers ==>
          !ok && error == Some(UnknownMuseum(UnknownMuseumMessage)) && unchanged(managers.Values, global, quests))
    && (ParseIds(args).Success? && args[1] in managers && |args| > 3 && TryGetTile(args, 3).Failure? ==>
          !ok && error == Some(BadArgument(TryGetTile(args, 3).error)) && unchanged(managers.Values, global, quests))
    && (ParseIds(args).Success? && args[1] in managers && |args| > 3 && TryGetTile(args, 3).Success? ==>
          location == TryGetTile(args, 3).value)
    && (ParseIds(args).Success? && args[1] in managers && |args| <= 3 ==>
          old(FirstFree(managers[args[1]], location)) || (old(NoneFree(managers[args[1]])) && location == Tile(0, 0)))
    && (ParseIds(args).Success? && args[1] in managers && (|args| <= 3 || TryGetTile(args, 3).Success?) ==>
          var m := managers[args[1]];
          var created := Manager.Placed(m.engine, args[2], location);
          && error.None?
          && (ok <==> location != Tile(0, 0) && (force || old(m.IsTileSuitable(location))))
          && m.inventory == (if !ok then old(m.inventory)
                             else (if force then Manager.RemoveAt(old(m.inventory), location) else old(m.inventory)) + [Some(created)])
          && global.flags == (if !ok then old(global.flags)
                              else Manager.SetFlag(if force then Manager.ClearFlagAt(old(global.flags), old(m.inventory), location, m.Key())
                                                   else old(global.flags), created.qualifiedId, m.Key(), true))
          && (ok ==> location in m.Donated() && m.Donated()[location] == created.qualifiedId)
          && (ok && !force ==> m.Donated() == old(m.Donated())[location := created.qualifiedId])
          && (ok && Quests.Distinct(quests) ==> forall i :: 0 <= i < |quests| ==>
                var data := Quests.QuestDataFor(questData, old(quests[i].id));
                var o := Quests.DonationOutcome(data, old(quests[i].modData), Some(created), m.engine.tagQuery, false);
                quests[i].modData == o.modData && Quests.CompletedIf(quests[i], data, check, o.completes))
          && (!ok ==> unchanged(quests))
          && m.totalPossible == old(m.totalPossible) && m.rewardLookup == old(m.rewardLookup) && m.modData == old(m.modData)
          && forall k :: k in managers && managers[k] != m ==> unchanged(managers[k]))
  }

  /** The shared body of `DonateItem` and `ForceDonateItem`; `location` is the tile it settles on. */
  method Donate(args: seq<string>, managers: map<string, Manager.MuseumManager>, global: Manager.DonatableFlags,
                quests: seq<Quests.Quest>, questData: map<string, QuestData>, check: Option<string> -> bool, force: bool)
    returns (ok: bool, error: Option<ActionError>, announced: Option<string>, ghost location: Tile)
    modifies managers.Values, global, set q | q in quests
    ensures DonationEffect(args, managers, global, quests, questData, check, force, ok, error, announced, location)
  {
    announced := None;
    location := Tile(0, 0);
    var ids := ParseIds(args);
    if ids.Failure? {
      return false, Some(BadArgument(ids.error)), None, location;
    }
    var museumId := ids.value.0;
    var itemId := ids.value.1;
    if museumId !in managers {
      return false, Some(UnknownMuseum(UnknownMuseumMessage)), None, location;
    }
    var museum := managers[museumId];
    var spot := museum.GetFreeDonationSpot();
    var tile := spot.GetOr(Tile(0, 0));
    if HasIndex(args, 3) {
      var parsed := TryGetTile(args, 3);
      if parsed.Failure? {
        return false, Some(BadArgument(parsed.error)), None, location;
      }
      tile := parsed.value;
    }
    location := tile;
    error := None;
    ok := museum.DonateItem(tile, itemId, force, global, quests, questData, check);
    if ok {
      announced := Some(itemId);
    }
  }

  /** `TriggerActions.DonateItem`: a donation to a suitable tile, at `location`. */
  method DonateItem(args: seq<string>, managers: map<string, Manager.MuseumManager>, global: Manager.DonatableFlags,
                    quests: seq<Quests.Quest>, questData: map<string, QuestData>, check: Option<string> -> bool)
    returns (ok: bool, error: Option<ActionError>, announced: Option<string>, ghost location: Tile)
    modifies managers.Values, global, set q | q in quests
    ensures DonationEffect(args, managers, global, quests, questData, check, false, ok, error, announced, location)
    ensures ok ==> location != Tile(0, 0) && old(managers[args[1]].IsTileSuitable(location))
  {
    ok, error, announced, location := Donate(args, managers, global, quests, questData, check, false);
  }

  /** `TriggerActions.ForceDonateItem`: a donation to any tile but (0,0), at `location`; whatever stood there is removed first. */
  method ForceDonateItem(args: seq<string>, managers: map<string, Manager.MuseumManager>, global: Manager.DonatableFlags,
                         quests: seq<Quests.Quest>, questData: map<string, QuestData>, check: Option<string> -> bool)
    returns (ok: bool, error: Option<ActionError>, announced: Option<string>, ghost location: Tile)
    modifies managers.Values, global, set q | q in quests
    ensures DonationEffect(args, managers, global, quests, questData, check, true, ok, error, announced, location)
    ensures ok ==> location != Tile(0, 0) && args[1] in managers
                   && managers[args[1]].inventory == Manager.RemoveAt(old(managers[args[1]].inventory), location)
                        + [Some(Manager.Placed(managers[args[1]].engine, args[2], location))]
  {
    ok, error, announced, location := Donate(args, managers, global, quests, questData, check, true);
  }

  /**
   * `TriggerActions.RemoveDonation`: bad arguments (a `pop` that is not a bool
   * included) and an unknown museum fail with nothing changed; otherwise the result is
   * the manager's `RemoveItem(itemId)`. The `pop` flag is parsed, but the popping of
   * the removed item into the world is not part of this model.
   */
  method RemoveDonation(args: seq<string>, managers: map<string, Manager.MuseumManager>, global: Manager.DonatableFlags)
    returns (ok: bool, error: Option<ActionError>)
    modifies managers.Values, global
    ensures ParseRemoveArgs(args).Failure? ==>
      !ok && error == Some(BadArgument(ParseRemoveArgs(args).error)) && unchanged(managers.Values, global)
    ensures ParseRemoveArgs(args).Success? && args[1] !in managers ==>
      !ok && error == Some(UnknownMuseum(UnknownMuseumMessage)) && unchanged(managers.Values, global)
    ensures ParseRemoveArgs(args).Success? && args[1] in managers ==>
      var m := managers[args[1]];
      var t := FirstTileWithId(old(m.inventory), m.engine.qualify(args[2]));
      && error.None?
      && (ok <==> t != Tile(0, 0))
      && m.inventory == (if ok then Manager.RemoveAt(old(m.inventory), t) else old(m.inventory))
      && global.flags == (if ok then Manager.ClearFlagAt(old(global.flags), old(m.inventory), t, m.Key()) else old(global.flags))
      && forall k :: k in managers && managers[k] != m ==> unchanged(managers[k])
  {
    var parsed := ParseRemoveArgs(args);
    if parsed.Failure? {
      return false, Some(BadArgument(parsed.error));
    }
    var museumId := parsed.value.0;
    var itemId := parsed.value.1;
    if museumId !in managers {
      return false, Some(UnknownMuseum(UnknownMuseumMessage));
    }
    error := None;
    ok := managers[museumId].RemoveItem(itemId, global);
  }
}
