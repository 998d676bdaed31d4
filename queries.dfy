/**
 * The `MUSEUM_DONATIONS <museum> [min] [max] [requirement ids…]` game state query.
 * Without a minimum it asks whether the museum holds any donation. Otherwise it
 * checks a count against the range [min, max]: the count is the number of donated
 * tiles, or, when requirement ids follow, the donations satisfying the listed
 * requirements. A max of -1 means no upper bound.
 *
 * The engine's `AnyArgMatches` feeds the ids to the counting closure; whether it
 * stops at the first id the closure accepts is the engine's business, so it is
 * the parameter `stopsAtFirst`.
 */
module Queries {
  import opened Wrappers
  import opened Text
  import opened Models
  import opened Matcher
  import opened Donations
  import opened Args
  import Manager

  const MaxInt32: int := 0x7FFF_FFFF

  const UnknownMuseumMessage: string := "The museumId provided does not match an existing museum."

  /** Why a query is an error result (logged by the engine; the query is then false). */
  datatype QueryError = BadArgument(arg: ArgError) | UnknownMuseum(message: string)

  /** What the query reads of a manager: its requirements, its inventory and the tag-query test. */
  datatype MuseumSnapshot = MuseumSnapshot(reqs: seq<DonationRequirement>, inventory: Inventory, tagQuery: TagQuery)

  /** `DonationRequirements.Find(x => x.Id.EqualsIgnoreCase(id))`: the first requirement whose Id matches, ignoring case. */
  function FindRequirement(reqs: seq<DonationRequirement>, id: string): (r: Option<DonationRequirement>)
    ensures r.Some? ==> r.value in reqs && r.value.id.Some? && EqualsIgnoreCase(r.value.id.value, id)
    decreases |reqs|
  {
    if |reqs| == 0 then None
    else if reqs[0].id.Some? && EqualsIgnoreCase(reqs[0].id.value, id) then Some(reqs[0])
    else FindRequirement(reqs[1..], id)
  }

  /** No requirement matches: nothing is found. */
  lemma {:induction false} FindRequirementNone(reqs: seq<DonationRequirement>, id: string)
    ensures FindRequirement(reqs, id).None?
        <==> forall i :: 0 <= i < |reqs| ==> reqs[i].id.None? || !EqualsIgnoreCase(reqs[i].id.value, id)
    decreases |reqs|
  {
    if |reqs| > 0 {
      FindRequirementNone(reqs[1..], id);
      assert forall i :: 1 <= i < |reqs| ==> reqs[1..][i - 1] == reqs[i];
    }
  }

  /** Ids that agree ignoring case find the same requirement. */
  lemma {:induction false} FindRequirementIgnoresCase(reqs: seq<DonationRequirement>, a: string, b: string)
    requires Lower(a) == Lower(b)
    ensures FindRequirement(reqs, a) == FindRequirement(reqs, b)
    decreases |reqs|
  {
    if |reqs| > 0 {
      FindRequirementIgnoresCase(reqs[1..], a, b);
    }
  }

  /**
   * The closure passed to `AnyArgMatches`, run over the ids in order: an unknown id
   * adds nothing; a known one adds its satisfying donations and, when the engine
   * stops at the first accepted id, ends the run.
   */
  function ListedCount(ids: seq<string>, m: MuseumSnapshot, stopsAtFirst: bool): nat
    decreases |ids|
  {
    if |ids| == 0 then 0
    else match FindRequirement(m.reqs, ids[0])
      case None => ListedCount(ids[1..], m, stopsAtFirst)
      case Some(req) =>
        CountSatisfying(m.inventory, req, m.tagQuery) + (if stopsAtFirst then 0 else ListedCount(ids[1..], m, stopsAtFirst))
  }

  /** The satisfying donations of one id's requirement, 0 for an unknown id. */
  function IdCount(id: string, m: MuseumSnapshot): nat {
    match FindRequirement(m.reqs, id)
    case None => 0
    case Some(req) => CountSatisfying(m.inventory, req, m.tagQuery)
  }

  /** The sum of `IdCount` over the ids. */
  function SumCounts(ids: seq<string>, m: MuseumSnapshot): nat
    decreases |ids|
  {
    if |ids| == 0 then 0 else IdCount(ids[0], m) + SumCounts(ids[1..], m)
  }

  /** When every id is visited, the count is the sum over all listed ids; unknown ids add nothing. */
  lemma {:induction false} ListedCountAll(ids: seq<string>, m: MuseumSnapshot)
    ensures ListedCount(ids, m, false) == SumCounts(ids, m)
    decreases |ids|
  {
    if |ids| > 0 {
      ListedCountAll(ids[1..], m);
    }
  }

  /** When the engine stops at the first accepted id, only the first known id counts. */
  lemma {:induction false} ListedCountFirst(ids: seq<string>, m: MuseumSnapshot, k: nat)
    requires k < |ids| && FindRequirement(m.reqs, ids[k]).Some?
    requires forall j :: 0 <= j < k ==> FindRequirement(m.reqs, ids[j]).None?
    ensures ListedCount(ids, m, true) == IdCount(ids[k], m)
    decreases k
  {
    if k > 0 {
      assert forall j :: 0 <= j < k - 1 ==> ids[1..][j] == ids[j + 1];
      ListedCountFirst(ids[1..], m, k - 1);
    }
  }

  /** Either way, ids none of which names a requirement count 0. */
  lemma {:induction false} ListedCountUnknown(ids: seq<string>, m: MuseumSnapshot, stopsAtFirst: bool)
    requires forall j :: 0 <= j < |ids| ==> FindRequirement(m.reqs, ids[j]).None?
    ensures ListedCount(ids, m, stopsAtFirst) == 0
    decreases |ids|
  {
    if |ids| > 0 {
      assert forall j :: 0 <= j < |ids| - 1 ==> ids[1..][j] == ids[j + 1];
      ListedCountUnknown(ids[1..], m, stopsAtFirst);
    }
  }

  /** The parsed arguments: museum id, min, max, requirement remainder. */
  datatype QueryArgs = QueryArgs(museumId: string, min: int, max: int, remainder: string)

  /** The argument checks, in order: a non-blank museum id, then an optional min (default 1) and max (default -1). */
  function ParseQuery(query: seq<string>): Result<QueryArgs, ArgError> {
    match TryGetRequired(query, 1)
    case Failure(e) => Failure(e)
    case Success(museumId) =>
      match TryGetOptionalInt(query, 2, 1)
      case Failure(e) => Failure(e)
      case Success(min) =>
        match TryGetOptionalInt(query, 3, -1)
        case Failure(e) => Failure(e)
        case Success(max) => Success(QueryArgs(museumId, min, max, TryGetOptionalRemainder(query, 4, "")))
  }

  /** `MUSEUM_DONATIONS`, over snapshots of the registered managers. */
  function MuseumDonations(query: seq<string>, museums: map<string, MuseumSnapshot>, stopsAtFirst: bool)
    : Result<bool, QueryError>
  {
    match ParseQuery(query)
    case Failure(e) => Failure(BadArgument(e))
    case Success(a) =>
      if a.museumId !in museums then Failure(UnknownMuseum(UnknownMuseumMessage))
      else
        var m := museums[a.museumId];
        if !HasIndex(query, 2) then Success(HasAnyDonation(m.inventory))
        else
          var max := if a.max == -1 then MaxInt32 else a.max;
          if a.remainder == "" then Success(a.min <= |DonatedItems(m.inventory)| <= max)
          else
            var count := ListedCount(query[4..], m, stopsAtFirst);
            Success(a.min <= count <= max)
  }

  /** The query is false exactly when it is an error or its test fails. */
  predicate Holds(r: Result<bool, QueryError>) {
    r.Success? && r.value
  }

  // ---------------------------------------------------------------------------
  // What the query promises
  // ---------------------------------------------------------------------------

  /** A missing or blank museum id, or a min or max that does not parse, is an argument error. */
  lemma QueryArgumentErrors(query: seq<string>, museums: map<string, MuseumSnapshot>, stopsAtFirst: bool)
    ensures !HasIndex(query, 1) ==> MuseumDonations(query, museums, stopsAtFirst) == Failure(BadArgument(MissingIndex(1)))
    ensures HasIndex(query, 1) && IsNullOrWhiteSpace(Some(query[1])) ==>
      MuseumDonations(query, museums, stopsAtFirst) == Failure(BadArgument(BlankValue(1)))
    ensures HasIndex(query, 2) && ParseInt32(query[2]).None? ==> MuseumDonations(query, museums, stopsAtFirst).Failure?
    ensures HasIndex(query, 3) && ParseInt32(query[3]).None? ==> MuseumDonations(query, museums, stopsAtFirst).Failure?
    ensures MuseumDonations(query, museums, stopsAtFirst).Failure? ==> !Holds(MuseumDonations(query, museums, stopsAtFirst))
  {
  }

  /** Well-formed arguments naming no registered museum give the unknown-museum error. */
  lemma QueryUnknownMuseum(query: seq<string>, museums: map<string, MuseumSnapshot>, stopsAtFirst: bool)
    requires ParseQuery(query).Success? && query[1] !in museums
    ensures MuseumDonations(query, museums, stopsAtFirst) == Failure(UnknownMuseum(UnknownMuseumMessage))
  {
  }

  /** With only a museum id the query asks whether anything is donated, the same test as the default range [1, ∞). */
  lemma QueryWithoutMin(museumId: string, museums: map<string, MuseumSnapshot>, stopsAtFirst: bool)
    requires !IsNullOrWhiteSpace(Some(museumId)) && museumId in museums
    ensures MuseumDonations(["MUSEUM_DONATIONS", museumId], museums, stopsAtFirst)
         == Success(HasAnyDonation(museums[museumId].inventory))
    ensures HasAnyDonation(museums[museumId].inventory) <==> 1 <= |DonatedItems(museums[museumId].inventory)|
  {
  }

  /** With a range and no requirement ids, the number of donated tiles is checked; max -1 is no bound. */
  lemma QueryDonatedRange(query: seq<string>, museums: map<string, MuseumSnapshot>, stopsAtFirst: bool)
    requires 3 <= |query| <= 4 && !IsNullOrWhiteSpace(Some(query[1])) && query[1] in museums
    requires ParseInt32(query[2]).Some?
    requires |query| == 4 ==> ParseInt32(query[3]).Some?
    ensures var min := ParseInt32(query[2]).value;
      var max := if |query| == 4 && ParseInt32(query[3]).value != -1 then ParseInt32(query[3]).value else MaxInt32;
      MuseumDonations(query, museums, stopsAtFirst)
        == Success(min <= |DonatedItems(museums[query[1]].inventory)| <= max)
  {
  }

  /** With requirement ids, the count of the listed requirements' donations is checked against the range. */
  lemma QueryListedRange(query: seq<string>, museums: map<string, MuseumSnapshot>, stopsAtFirst: bool)
    requires |query| >= 5 && !IsNullOrWhiteSpace(Some(query[1])) && query[1] in museums
    requires ParseInt32(query[2]).Some? && ParseInt32(query[3]).Some?
    requires !(|query| == 5 && query[4] == "")
    ensures var min := ParseInt32(query[2]).value;
      var max := if ParseInt32(query[3]).value != -1 then ParseInt32(query[3]).value else MaxInt32;
      MuseumDonations(query, museums, stopsAtFirst)
        == Success(min <= ListedCount(query[4..], museums[query[1]], stopsAtFirst) <= max)
  {
    RemainderEmpty(query, 4);
  }

  // ---------------------------------------------------------------------------
  // The query over the managers
  // ---------------------------------------------------------------------------

  /** What the query reads of one manager. */
  function Snapshot(m: Manager.MuseumManager): (s: MuseumSnapshot)
    reads m
    ensures s.inventory == m.inventory && s.reqs == m.data.donationRequirements && s.tagQuery == m.engine.tagQuery
  {
    MuseumSnapshot(m.data.donationRequirements, m.inventory, m.engine.tagQuery)
  }

  /** The counting loop: each id found among the requirements adds the manager's count for it. */
  method CountListed(ids: seq<string>, museum: Manager.MuseumManager, stopsAtFirst: bool) returns (count: nat)
    ensures count == ListedCount(ids, Snapshot(museum), stopsAtFirst)
  {
    var m := Snapshot(museum);
    count := 0;
    var i := 0;
    var stopped := false;
    while i < |ids| && !stopped
      invariant 0 <= i <= |ids|
      invariant stopped ==> stopsAtFirst && count == ListedCount(ids, m, true)
      invariant !stopped ==> count + ListedCount(ids[i..], m, stopsAtFirst) == ListedCount(ids, m, stopsAtFirst)
      decreases |ids| - i, !stopped
    {
      assert ids[i..][1..] == ids[i + 1..];
      var found := FindRequirement(museum.data.donationRequirements, ids[i]);
      if found.Some? {
        var n := museum.DonationsSatisfyingRequirement(found.value);
        count := count + n;
        if stopsAtFirst {
          stopped := true;
        }
      }
      i := i + 1;
    }
  }

  /** `Queries.MUSEUM_DONATIONS` over the registered managers, by museum id. */
  method Query(query: seq<string>, managers: map<string, Manager.MuseumManager>, stopsAtFirst: bool)
    returns (r: Result<bool, QueryError>)
    ensures r == MuseumDonations(query, map k | k in managers :: Snapshot(managers[k]), stopsAtFirst)
  {
    var parsed := ParseQuery(query);
    if parsed.Failure? {
      return Failure(BadArgument(parsed.error));
    }
    var a := parsed.value;
    if a.museumId !in managers {
      return Failure(UnknownMuseum(UnknownMuseumMessage));
    }
    var museum := managers[a.museumId];
    if !HasIndex(query, 2) {
      return Success(HasAnyDonation(museum.inventory));
    }
    var max := a.max;
    if max == -1 {
      max := MaxInt32;
    }
    if a.remainder == "" {
      return Success(a.min <= |museum.Donated()| && |museum.Donated()| <= max);
    }
    var count := CountListed(query[4..], museum, stopsAtFirst);
    return Success(a.min <= count && count <= max);
  }
}
