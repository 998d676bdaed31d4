/**
 * Museum quests: the quest object the framework builds from its quest data
 * (`getQuestFromId`), the per-requirement counters kept in the quest's
 * `modData`, their decrement on each donation (`OnMuseumDonation`), the
 * catch-up for donations made before the quest was accepted (`addQuest`), and
 * the next-quest filter run on completion (`questComplete`).
 */
module Quests {
  import opened Wrappers
  import opened Text
  import opened Models
  import opened Matcher
  import opened Donations

  /** The `modData` key of a requirement's counter; a null Id concatenates as "". */
  function RequirementKey(id: Option<string>): string {
    "CMF_Requirement_" + id.GetOr("")
  }

  const CompleteKey: string := "CMF_Complete"
  const MuseumIdKey: string := "CMF_MuseumId"

  /** No counter key is one of the two bookkeeping keys. */
  lemma RequirementKeysAreNotBookkeeping(id: Option<string>)
    ensures RequirementKey(id) != CompleteKey && RequirementKey(id) != MuseumIdKey
  {
    assert RequirementKey(id)[4] == 'R';
  }

  /**
   * A quest of the game's quest log. `completions` counts the calls of the
   * game's `questComplete`, whose own effects are not part of this model;
   * `completionActions` lists the trigger actions the framework's completion
   * prefix has run on it, in order.
   */
  class Quest {
    var id: string
    var questType: int
    var title: string
    var description: string
    var objective: string
    var daysLeft: int
    var nextQuests: seq<string>
    var showNew: bool
    var moneyReward: int
    var rewardDescription: Option<string>
    var canBeCancelled: bool
    var modData: map<string, string>
    var completions: nat
    var completionActions: seq<string>

    /** A quest whose fields are set from the given values; it has not been completed yet. */
    constructor (id: string, questType: int, title: string, description: string, objective: string, daysLeft: int,
                 nextQuests: seq<string>, showNew: bool, moneyReward: int, rewardDescription: Option<string>,
                 canBeCancelled: bool, modData: map<string, string>)
      ensures this.id == id && this.questType == questType && this.title == title
      ensures this.description == description && this.objective == objective && this.daysLeft == daysLeft
      ensures this.nextQuests == nextQuests && this.showNew == showNew && this.moneyReward == moneyReward
      ensures this.rewardDescription == rewardDescription && this.canBeCancelled == canBeCancelled
      ensures this.modData == modData && completions == 0 && completionActions == []
    {
      this.id := id;
      this.questType := questType;
      this.title := title;
      this.description := description;
      this.objective := objective;
      this.daysLeft := daysLeft;
      this.nextQuests := nextQuests;
      this.showNew := showNew;
      this.moneyReward := moneyReward;
      this.rewardDescription := rewardDescription;
      this.canBeCancelled := canBeCancelled;
      this.modData := modData;
      completions := 0;
      completionActions := [];
    }

    /**
     * `questComplete`, patched: the framework's prefix runs first with the quest
     * data entry `data` of this quest's id, running the completion actions and
     * filtering the next quests by their conditions (`check`); then the game
     * counts one more completion.
     */
    method QuestComplete(data: Option<QuestData>, check: Option<string> -> bool)
      modifies this
      ensures completions == old(completions) + 1
      ensures nextQuests == NextAfterCompletion(old(nextQuests), data, check)
      ensures completionActions == old(completionActions) + (if data.Some? then CompletionActions(data.value) else [])
      ensures modData == old(modData) && id == old(id)
    {
      var actions := QuestCompletePrefix(this, data, check);
      completionActions := completionActions + actions;
      completions := completions + 1;
    }
  }

  /** The actions `questComplete_Prefix` runs: `ActionOnCompletion`, then each of `ActionsOnCompletion`. */
  function CompletionActions(data: QuestData): seq<string> {
    (if data.actionOnCompletion.Some? then [data.actionOnCompletion.value] else []) + data.actionsOnCompletion.GetOr([])
  }

  /** The next quests left after the completion prefix: filtered when the quest has data, untouched otherwise. */
  function NextAfterCompletion(next: seq<string>, data: Option<QuestData>, check: Option<string> -> bool): (r: seq<string>)
    ensures forall x :: x in r ==> x in next
  {
    if data.Some? then FilterNextQuests(next, data.value, check) else next
  }

  /** Nothing that completing a quest changes has changed. */
  twostate predicate NotCompleted(q: Quest)
    reads q
  {
    q.id == old(q.id) && q.completions == old(q.completions)
    && q.nextQuests == old(q.nextQuests) && q.completionActions == old(q.completionActions)
  }

  /** The quest has been completed once, with the prefix run on `data`, when `completes`; otherwise it has not. */
  twostate predicate CompletedIf(q: Quest, data: Option<QuestData>, check: Option<string> -> bool, completes: bool)
    reads q
  {
    if completes then
      q.id == old(q.id) && q.completions == old(q.completions) + 1
      && q.nextQuests == NextAfterCompletion(old(q.nextQuests), data, check)
      && q.completionActions == old(q.completionActions) + (if data.Some? then CompletionActions(data.value) else [])
    else NotCompleted(q)
  }

  // ---------------------------------------------------------------------------
  // OnMuseumDonation
  // ---------------------------------------------------------------------------

  /** What the requirement loop of `OnMuseumDonation` carries: the counters, `changed`, `completedRequirements`. */
  datatype Tally = Tally(modData: map<string, string>, changed: bool, completed: nat)

  /**
   * One requirement: a missing or non-Int32 counter skips it. A requirement the
   * donation satisfies has its counter decremented (Int32 arithmetic) and
   * clamped at 0, unless probing, and sets `changed`. The requirement is
   * completed when its counter is then at most 0.
   */
  function Step(t: Tally, req: CountedRequirement, item: Option<Item>, tagQuery: TagQuery, probe: bool): Tally {
    var key := RequirementKey(req.req.id);
    if key !in t.modData || ParseInt32(t.modData[key]).None? then t
    else
      var count := ParseInt32(t.modData[key]).value;
      if DoesItemSatisfyRequirement(item, req.req, tagQuery) then
        var c := if probe then count else DecrementClamped(count);
        Tally(if probe then t.modData else t.modData[key := IntToString(c)], true,
              t.completed + (if c <= 0 then 1 else 0))
      else Tally(t.modData, t.changed, t.completed + (if count <= 0 then 1 else 0))
  }

  /** `if (--count < 0) count = 0;` on an Int32 counter. */
  function DecrementClamped(count: int): (c: int)
    ensures IsInt32(c) && c >= 0
  {
    if WrapInt32(count - 1) < 0 then 0 else WrapInt32(count - 1)
  }

  /** The requirement loop over `reqs`, in order. */
  function Run(reqs: seq<CountedRequirement>, t: Tally, item: Option<Item>, tagQuery: TagQuery, probe: bool): Tally
    decreases |reqs|
  {
    if |reqs| == 0 then t
    else Step(Run(reqs[..|reqs| - 1], t, item, tagQuery, probe), reqs[|reqs| - 1], item, tagQuery, probe)
  }

  /** What `OnMuseumDonation` returns, the counters it leaves, and whether it completes the quest. */
  datatype Outcome = Outcome(result: bool, modData: map<string, string>, completes: bool)

  /** `CMF_Complete` is present and equals "true", ignoring case. */
  predicate MarkedComplete(modData: map<string, string>) {
    CompleteKey in modData && EqualsIgnoreCase(modData[CompleteKey], "true")
  }

  /**
   * `OnMuseumDonation(quest, item, probe)`, where `data` is the quest's entry in
   * the quest data. An unknown quest gives false. A quest without requirements,
   * or already marked complete, gives true and completes unless probing.
   * Otherwise the requirement loop runs; when every requirement is completed
   * the result is true and the quest completes unless probing, else the result
   * is whether any requirement matched.
   */
  function DonationOutcome(data: Option<QuestData>, modData: map<string, string>, item: Option<Item>,
                           tagQuery: TagQuery, probe: bool): Outcome
  {
    if data.None? then Outcome(false, modData, false)
    else if data.value.requirements.None? || |data.value.requirements.value| == 0 || MarkedComplete(modData) then
      Outcome(true, modData, !probe)
    else
      var reqs := data.value.requirements.value;
      var t := Run(reqs, Tally(modData, false, 0), item, tagQuery, probe);
      if t.completed >= |reqs| then Outcome(true, t.modData, !probe)
      else Outcome(t.changed, t.modData, false)
  }

  /** One pass of the requirement loop of `OnMuseumDonation`. */
  method ApplyRequirement(quest: Quest, req: CountedRequirement, item: Option<Item>, tagQuery: TagQuery, probe: bool,
                          changed0: bool, completed0: nat)
    returns (changed: bool, completed: nat)
    modifies quest
    ensures Tally(quest.modData, changed, completed)
         == Step(Tally(old(quest.modData), changed0, completed0), req, item, tagQuery, probe)
    ensures NotCompleted(quest)
  {
    changed, completed := changed0, completed0;
    var key := RequirementKey(req.req.id);
    if key !in quest.modData {
      return;
    }
    var parsed := ParseInt32(quest.modData[key]);
    if parsed.None? {
      return;
    }
    var count := parsed.value;
    if DoesItemSatisfyRequirement(item, req.req, tagQuery) {
      if !probe {
        count := DecrementClamped(count);
        quest.modData := quest.modData[key := IntToString(count)];
      }
      changed := true;
    }
    if count <= 0 {
      completed := completed + 1;
    }
  }

  /**
   * `OnMuseumDonation` on the quest's counters, with `data` the quest data entry of
   * the quest's id; a completion runs the patched `questComplete` on that entry.
   */
  method OnMuseumDonation(quest: Quest, data: Option<QuestData>, item: Option<Item>, tagQuery: TagQuery, probe: bool,
                          check: Option<string> -> bool)
    returns (r: bool)
    modifies quest
    ensures var o := DonationOutcome(data, old(quest.modData), item, tagQuery, probe);
      r == o.result && quest.modData == o.modData && CompletedIf(quest, data, check, o.completes)
  {
    if data.None? {
      return false;
    }
    if data.value.requirements.None? || |data.value.requirements.value| == 0 || MarkedComplete(quest.modData) {
      if !probe {
        quest.QuestComplete(data, check);
      }
      return true;
    }
    var reqs := data.value.requirements.value;
    var changed := false;
    var completed: nat := 0;
    var i := 0;
    while i < |reqs|
      invariant 0 <= i <= |reqs|
      invariant Run(reqs[..i], Tally(old(quest.modData), false, 0), item, tagQuery, probe)
             == Tally(quest.modData, changed, completed)
      invariant NotCompleted(quest)
    {
      assert reqs[..i + 1][..i] == reqs[..i];
      changed, completed := ApplyRequirement(quest, reqs[i], item, tagQuery, probe, changed, completed);
      i := i + 1;
    }
    assert reqs[..i] == reqs;
    if completed >= |reqs| {
      if !probe {
        quest.QuestComplete(data, check);
      }
      return true;
    }
    return changed;
  }

  // ---------------------------------------------------------------------------
  // Notifying the quest logs
  // ---------------------------------------------------------------------------

  /** `CMF.QuestData.TryGetValue(id)`: the quest data entry of a quest id, if any. */
  function QuestDataFor(questData: map<string, QuestData>, id: string): Option<QuestData> {
    if id in questData then Some(questData[id]) else None
  }

  /** No quest object is listed twice. */
  predicate Distinct(log: seq<Quest>) {
    forall i, j :: 0 <= i < j < |log| ==> log[i] != log[j]
  }

  /**
   * `NotifyQuests(q => q.OnMuseumDonation(item))` for every farmer; `log` holds the
   * farmers' quest logs one after another. Each quest runs the donation check with
   * its own quest data entry, so with every quest listed once each quest receives
   * the outcome of exactly one check, whatever the order of the logs.
   */
  method NotifyDonation(log: seq<Quest>, questData: map<string, QuestData>, item: Option<Item>, tagQuery: TagQuery,
                        check: Option<string> -> bool)
    modifies set q | q in log
    ensures Distinct(log) ==> forall i :: 0 <= i < |log| ==>
      var data := QuestDataFor(questData, old(log[i].id));
      var o := DonationOutcome(data, old(log[i].modData), item, tagQuery, false);
      log[i].modData == o.modData && CompletedIf(log[i], data, check, o.completes)
    ensures forall q :: q in log ==> q.id == old(q.id)
  {
    var i := 0;
    while i < |log|
      invariant 0 <= i <= |log|
      invariant forall q :: q in log ==> q.id == old(q.id)
      invariant Distinct(log) ==> forall k :: 0 <= k < i ==>
        var data := QuestDataFor(questData, old(log[k].id));
        var o := DonationOutcome(data, old(log[k].modData), item, tagQuery, false);
        log[k].modData == o.modData && CompletedIf(log[k], data, check, o.completes)
      invariant Distinct(log) ==> forall k :: i <= k < |log| ==>
        log[k].modData == old(log[k].modData) && NotCompleted(log[k])
    {
      var q := log[i];
      var _ := OnMuseumDonation(q, QuestDataFor(questData, q.id), item, tagQuery, false, check);
      i := i + 1;
    }
  }

  /** Probing never writes a counter. */
  lemma {:induction false} RunProbeKeepsCounters(reqs: seq<CountedRequirement>, t: Tally, item: Option<Item>, tagQuery: TagQuery)
    ensures Run(reqs, t, item, tagQuery, true).modData == t.modData
    decreases |reqs|
  {
    if |reqs| > 0 {
      RunProbeKeepsCounters(reqs[..|reqs| - 1], t, item, tagQuery);
    }
  }

  /** In probe mode `OnMuseumDonation` writes no counter and never completes the quest. */
  lemma ProbeChangesNothing(data: Option<QuestData>, modData: map<string, string>, item: Option<Item>, tagQuery: TagQuery)
    ensures DonationOutcome(data, modData, item, tagQuery, true).modData == modData
    ensures !DonationOutcome(data, modData, item, tagQuery, true).completes
  {
    if data.Some? && data.value.requirements.Some? {
      RunProbeKeepsCounters(data.value.requirements.value, Tally(modData, false, 0), item, tagQuery);
    }
  }

  /** The same counters are present in both, and each reads as an Int32 in one exactly when it does in the other. */
  predicate SameReadable(a: map<string, string>, b: map<string, string>) {
    a.Keys == b.Keys && forall k :: k in a ==> (Readable(a, k) <==> Readable(b, k))
  }

  /** The counter under `key` is present and reads as an Int32. */
  predicate Readable(m: map<string, string>, key: string) {
    key in m && ParseInt32(m[key]).Some?
  }

  /** A satisfied requirement with a readable counter: a real donation writes an Int32 to that counter alone. */
  lemma StepWrites(t: Tally, req: CountedRequirement, item: Option<Item>, tagQuery: TagQuery) returns (c: int)
    requires Readable(t.modData, RequirementKey(req.req.id)) && DoesItemSatisfyRequirement(item, req.req, tagQuery)
    ensures IsInt32(c)
    ensures Step(t, req, item, tagQuery, false).modData == t.modData[RequirementKey(req.req.id) := IntToString(c)]
    ensures Step(t, req, item, tagQuery, false).changed
  {
    c := DecrementClamped(ParseInt32(t.modData[RequirementKey(req.req.id)]).value);
  }

  /** A satisfied requirement with a readable counter: a real donation rewrites that counter alone, with Int32 text. */
  lemma StepRewrites(t: Tally, req: CountedRequirement, item: Option<Item>, tagQuery: TagQuery) returns (c: int)
    requires Readable(t.modData, RequirementKey(req.req.id)) && DoesItemSatisfyRequirement(item, req.req, tagQuery)
    ensures Step(t, req, item, tagQuery, false).modData == t.modData[RequirementKey(req.req.id) := IntToString(c)]
    ensures Readable(Step(t, req, item, tagQuery, false).modData, RequirementKey(req.req.id))
    ensures Step(t, req, item, tagQuery, false).changed
  {
    c := StepWrites(t, req, item, tagQuery);
    ParseIntToString(c);
  }

  /** One requirement reads the same counters in a real run as in a probe, and sets `changed` alike. */
  lemma StepSameReadable(applied: Tally, probed: Tally, req: CountedRequirement, item: Option<Item>, tagQuery: TagQuery)
    requires SameReadable(applied.modData, probed.modData) && applied.changed == probed.changed
    ensures SameReadable(Step(applied, req, item, tagQuery, false).modData, probed.modData)
    ensures Step(applied, req, item, tagQuery, false).changed == Step(probed, req, item, tagQuery, true).changed
  {
    var key := RequirementKey(req.req.id);
    assert Readable(applied.modData, key) <==> Readable(probed.modData, key);
    if Readable(applied.modData, key) && DoesItemSatisfyRequirement(item, req.req, tagQuery) {
      var c := StepRewrites(applied, req, item, tagQuery);
      RewriteSameReadable(applied.modData, probed.modData, key, c);
    }
  }

  /** Rewriting a readable counter with Int32 text keeps which counters are readable. */
  lemma RewriteSameReadable(a: map<string, string>, b: map<string, string>, key: string, c: int)
    requires SameReadable(a, b) && Readable(a, key) && Readable(a[key := IntToString(c)], key)
    ensures SameReadable(a[key := IntToString(c)], b)
  {
    var written := a[key := IntToString(c)];
    forall k | k in written
      ensures Readable(written, k) <==> Readable(b, k)
    {
      if k != key {
        assert written[k] == a[k];
      }
    }
  }

  /**
   * Probing answers whether a real donation would change a counter: a real run
   * only rewrites counters with Int32 text, so every requirement is read, or
   * skipped, alike in both modes.
   */
  lemma {:induction false} RunProbeSameChanged(reqs: seq<CountedRequirement>, t: Tally, item: Option<Item>, tagQuery: TagQuery)
    ensures SameReadable(Run(reqs, t, item, tagQuery, false).modData, t.modData)
    ensures Run(reqs, t, item, tagQuery, true).changed == Run(reqs, t, item, tagQuery, false).changed
    decreases |reqs|
  {
    if |reqs| > 0 {
      var p := reqs[..|reqs| - 1];
      RunProbeSameChanged(p, t, item, tagQuery);
      RunProbeKeepsCounters(p, t, item, tagQuery);
      StepSameReadable(Run(p, t, item, tagQuery, false), Run(p, t, item, tagQuery, true), reqs[|reqs| - 1], item, tagQuery);
    }
  }

  /** The counters' keys never change. */
  lemma {:induction false} RunKeys(reqs: seq<CountedRequirement>, t: Tally, item: Option<Item>, tagQuery: TagQuery, probe: bool)
    ensures Run(reqs, t, item, tagQuery, probe).modData.Keys == t.modData.Keys
    decreases |reqs|
  {
    if |reqs| > 0 {
      RunKeys(reqs[..|reqs| - 1], t, item, tagQuery, probe);
    }
  }

  /** The counters' keys never change, and only requirement counters are rewritten. */
  lemma {:induction false} RunKeepsOtherKey(reqs: seq<CountedRequirement>, t: Tally, item: Option<Item>, tagQuery: TagQuery,
                                            probe: bool, k: string)
    requires k in t.modData && forall i :: 0 <= i < |reqs| ==> k != RequirementKey(reqs[i].req.id)
    ensures k in Run(reqs, t, item, tagQuery, probe).modData && Run(reqs, t, item, tagQuery, probe).modData[k] == t.modData[k]
    decreases |reqs|
  {
    if |reqs| > 0 {
      var p := reqs[..|reqs| - 1];
      assert forall i :: 0 <= i < |p| ==> p[i] == reqs[i];
      RunKeepsOtherKey(p, t, item, tagQuery, probe, k);
      assert k != RequirementKey(reqs[|reqs| - 1].req.id);
    }
  }

  lemma RunKeepsOtherKeys(reqs: seq<CountedRequirement>, t: Tally, item: Option<Item>, tagQuery: TagQuery, probe: bool)
    ensures Run(reqs, t, item, tagQuery, probe).modData.Keys == t.modData.Keys
    ensures forall k :: k in t.modData && (forall i :: 0 <= i < |reqs| ==> k != RequirementKey(reqs[i].req.id))
              ==> Run(reqs, t, item, tagQuery, probe).modData[k] == t.modData[k]
  {
    RunKeys(reqs, t, item, tagQuery, probe);
    forall k | k in t.modData && (forall i :: 0 <= i < |reqs| ==> k != RequirementKey(reqs[i].req.id))
      ensures Run(reqs, t, item, tagQuery, probe).modData[k] == t.modData[k]
    {
      RunKeepsOtherKey(reqs, t, item, tagQuery, probe, k);
    }
  }

  /**
   * A satisfied requirement's counter drops by exactly 1 and never below 0; only
   * the smallest Int32 wraps around, to the largest.
   */
  lemma StepDecrements(t: Tally, req: CountedRequirement, item: Option<Item>, tagQuery: TagQuery)
    requires RequirementKey(req.req.id) in t.modData
    requires ParseInt32(t.modData[RequirementKey(req.req.id)]).Some?
    requires DoesItemSatisfyRequirement(item, req.req, tagQuery)
    ensures var count := ParseInt32(t.modData[RequirementKey(req.req.id)]).value;
      var after := Step(t, req, item, tagQuery, false).modData[RequirementKey(req.req.id)];
      (count > MinInt32 ==> after == IntToString(if count - 1 < 0 then 0 else count - 1))
      && (count == MinInt32 ==> after == IntToString(MaxInt32))
    ensures Step(t, req, item, tagQuery, false).changed
  {
    WrapInt32Edges();
  }

  /** Each requirement completes at most once. */
  lemma {:induction false} RunCompletedAtMost(reqs: seq<CountedRequirement>, t: Tally, item: Option<Item>, tagQuery: TagQuery,
                                              probe: bool)
    ensures t.completed <= Run(reqs, t, item, tagQuery, probe).completed <= t.completed + |reqs|
    decreases |reqs|
  {
    if |reqs| > 0 {
      RunCompletedAtMost(reqs[..|reqs| - 1], t, item, tagQuery, probe);
    }
  }

  /** A requirement without a counter is never completed, so the loop falls short of completing them all. */
  lemma {:induction false} RunMissingCounter(reqs: seq<CountedRequirement>, t: Tally, item: Option<Item>, tagQuery: TagQuery,
                                             probe: bool, i: nat)
    requires i < |reqs| && RequirementKey(reqs[i].req.id) !in t.modData
    ensures Run(reqs, t, item, tagQuery, probe).completed < t.completed + |reqs|
    decreases |reqs|
  {
    var p := reqs[..|reqs| - 1];
    RunCompletedAtMost(p, t, item, tagQuery, probe);
    if i < |p| {
      assert p[i] == reqs[i];
      RunMissingCounter(p, t, item, tagQuery, probe, i);
    } else {
      RunKeys(p, t, item, tagQuery, probe);
    }
  }

  /** A quest with a requirement that has no counter completes only when already marked complete. */
  lemma MissingCounterBlocksCompletion(data: QuestData, modData: map<string, string>, item: Option<Item>,
                                       tagQuery: TagQuery, probe: bool, i: nat)
    requires data.requirements.Some? && i < |data.requirements.value|
    requires RequirementKey(data.requirements.value[i].req.id) !in modData
    requires !MarkedComplete(modData)
    ensures !DonationOutcome(Some(data), modData, item, tagQuery, probe).completes
  {
    RunMissingCounter(data.requirements.value, Tally(modData, false, 0), item, tagQuery, probe, i);
  }

  // ---------------------------------------------------------------------------
  // getQuestFromId
  // ---------------------------------------------------------------------------

  /** The next quests a player is offered: all for the main player, the non-host-only ones otherwise. */
  function HostFilter(next: seq<NextQuest>, isMainPlayer: bool): (r: seq<string>)
    ensures |r| <= |next|
    decreases |next|
  {
    if |next| == 0 then []
    else
      var rest := HostFilter(next[..|next| - 1], isMainPlayer);
      var q := next[|next| - 1];
      if isMainPlayer || !q.hostOnly then rest + [q.id] else rest
  }

  /** The main player gets every next quest, in order; a farmhand exactly the ones that are not host-only. */
  lemma {:induction false} HostFilterSpec(next: seq<NextQuest>, isMainPlayer: bool)
    ensures isMainPlayer ==> HostFilter(next, isMainPlayer) == seq(|next|, i requires 0 <= i < |next| => next[i].id)
    ensures forall x :: x in HostFilter(next, isMainPlayer)
              <==> exists i :: 0 <= i < |next| && next[i].id == x && (isMainPlayer || !next[i].hostOnly)
    decreases |next|
  {
    if |next| > 0 {
      var p := next[..|next| - 1];
      HostFilterSpec(p, isMainPlayer);
      assert forall i :: 0 <= i < |p| ==> p[i] == next[i];
    }
  }

  /** The counters written for the requirements with `Count > 0`, in order; a later Id overwrites an earlier one. */
  function InitialCounters(reqs: seq<CountedRequirement>): map<string, string>
    decreases |reqs|
  {
    if |reqs| == 0 then map[]
    else
      var m := InitialCounters(reqs[..|reqs| - 1]);
      var r := reqs[|reqs| - 1];
      if r.count > 0 then m[RequirementKey(r.req.id) := IntToString(r.count)] else m
  }

  /** The requirement a counter was written for: the last positive-count one with that key. */
  lemma {:induction false} InitialCounterOwner(reqs: seq<CountedRequirement>, k: string) returns (i: nat)
    requires k in InitialCounters(reqs)
    ensures i < |reqs| && reqs[i].count > 0 && k == RequirementKey(reqs[i].req.id)
    ensures InitialCounters(reqs)[k] == IntToString(reqs[i].count)
    decreases |reqs|
  {
    var p := reqs[..|reqs| - 1];
    var r := reqs[|reqs| - 1];
    if r.count > 0 && k == RequirementKey(r.req.id) {
      i := |reqs| - 1;
    } else {
      i := InitialCounterOwner(p, k);
      assert p[i] == reqs[i];
    }
  }

  /** Every requirement with a positive count gets a counter. */
  lemma {:induction false} InitialCountersHas(reqs: seq<CountedRequirement>, i: nat)
    requires i < |reqs| && reqs[i].count > 0
    ensures RequirementKey(reqs[i].req.id) in InitialCounters(reqs)
    decreases |reqs|
  {
    if i < |reqs| - 1 {
      var p := reqs[..|reqs| - 1];
      assert p[i] == reqs[i];
      InitialCountersHas(p, i);
    }
  }

  /** Every counter belongs to a requirement with a positive count, and reads back as that count. */
  lemma InitialCountersSpec(reqs: seq<CountedRequirement>)
    requires forall i :: 0 <= i < |reqs| ==> IsInt32(reqs[i].count)
    ensures forall k :: k in InitialCounters(reqs) ==>
      exists i :: 0 <= i < |reqs| && reqs[i].count > 0 && k == RequirementKey(reqs[i].req.id)
        && ParseInt32(InitialCounters(reqs)[k]) == Some(reqs[i].count)
    ensures forall i :: 0 <= i < |reqs| && reqs[i].count > 0 ==> RequirementKey(reqs[i].req.id) in InitialCounters(reqs)
  {
    forall k | k in InitialCounters(reqs)
      ensures exists i :: (0 <= i < |reqs| && reqs[i].count > 0 && k == RequirementKey(reqs[i].req.id)
                           && ParseInt32(InitialCounters(reqs)[k]) == Some(reqs[i].count))
    {
      var i := InitialCounterOwner(reqs, k);
      ParseIntToString(reqs[i].count);
    }
    forall i | 0 <= i < |reqs| && reqs[i].count > 0 ensures RequirementKey(reqs[i].req.id) in InitialCounters(reqs) {
      InitialCountersHas(reqs, i);
    }
  }

  /**
   * The quest data's `modData`: the counters, then `CMF_Complete` ("false" when the
   * requirement list is non-empty, "true" otherwise), then `CMF_MuseumId`.
   */
  function InitialModData(data: QuestData): map<string, string> {
    var hasReqs := data.requirements.Some? && |data.requirements.value| > 0;
    var counters := if hasReqs then InitialCounters(data.requirements.value) else map[];
    counters[CompleteKey := if hasReqs then "false" else "true"][MuseumIdKey := data.museumId]
  }

  /** A new quest is marked complete exactly when it has no requirements. */
  lemma InitialCompleteFlag(data: QuestData)
    ensures CompleteKey in InitialModData(data) && MuseumIdKey in InitialModData(data)
    ensures InitialModData(data)[CompleteKey] == "false" <==> data.requirements.Some? && |data.requirements.value| > 0
    ensures MarkedComplete(InitialModData(data)) <==> !(data.requirements.Some? && |data.requirements.value| > 0)
    ensures InitialModData(data)[MuseumIdKey] == data.museumId
  {
    var m := InitialModData(data);
    if data.requirements.Some? && |data.requirements.value| > 0 {
      assert m[CompleteKey] == "false";
      assert Lower("false") != Lower("true");
    } else {
      assert m[CompleteKey] == "true";
    }
  }

  /** The loop adding the offered next quests' Ids, in order. */
  method OfferedNextQuests(next: seq<NextQuest>, isMainPlayer: bool) returns (r: seq<string>)
    ensures r == HostFilter(next, isMainPlayer)
  {
    r := [];
    var i := 0;
    while i < |next|
      invariant 0 <= i <= |next|
      invariant r == HostFilter(next[..i], isMainPlayer)
    {
      assert next[..i + 1][..i] == next[..i];
      if isMainPlayer || !next[i].hostOnly {
        r := r + [next[i].id];
      }
      i := i + 1;
    }
    assert next[..i] == next;
  }

  /** The loop writing one counter per requirement with a positive count. */
  method WriteCounters(reqs: seq<CountedRequirement>) returns (m: map<string, string>)
    ensures m == InitialCounters(reqs)
  {
    m := map[];
    var i := 0;
    while i < |reqs|
      invariant 0 <= i <= |reqs|
      invariant m == InitialCounters(reqs[..i])
    {
      assert reqs[..i + 1][..i] == reqs[..i];
      if reqs[i].count > 0 {
        m := m[RequirementKey(reqs[i].req.id) := IntToString(reqs[i].count)];
      }
      i := i + 1;
    }
    assert reqs[..i] == reqs;
  }

  /**
   * `getQuestFromId_Prefix`: an id without quest data runs the game's own lookup
   * and builds nothing. Otherwise a fresh quest of type 1 gets the data's text
   * (null as ""), days, reward, cancel flag, the next quests this player is
   * offered and the initial counters, and the game's lookup is skipped.
   */
  method GetQuestFromId(id: string, data: Option<QuestData>, isMainPlayer: bool) returns (runOriginal: bool, quest: Quest?)
    ensures runOriginal <==> data.None?
    ensures runOriginal ==> quest == null
    ensures !runOriginal ==> (quest != null && fresh(quest)
      && quest.questType == 1 && quest.id == id
      && quest.title == data.value.title.GetOr("") && quest.description == data.value.description.GetOr("")
      && quest.objective == data.value.hint.GetOr("") && quest.daysLeft == data.value.timeToComplete
      && quest.nextQuests == HostFilter(data.value.nextQuests.GetOr([]), isMainPlayer)
      && quest.showNew && quest.moneyReward == data.value.reward && quest.rewardDescription.None?
      && quest.canBeCancelled == data.value.canBeCancelled
      && quest.modData == InitialModData(data.value) && quest.completions == 0)
  {
    if data.None? {
      return true, null;
    }
    var d := data.value;
    var next := OfferedNextQuests(d.nextQuests.GetOr([]), isMainPlayer);
    var modData: map<string, string>;
    if d.requirements.Some? && |d.requirements.value| > 0 {
      modData := WriteCounters(d.requirements.value);
      modData := modData[CompleteKey := "false"];
    } else {
      modData := map[CompleteKey := "true"];
    }
    modData := modData[MuseumIdKey := d.museumId];
    quest := new Quest(id, 1, d.title.GetOr(""), d.description.GetOr(""), d.hint.GetOr(""), d.timeToComplete,
                       next, true, d.reward, None, d.canBeCancelled, modData);
    runOriginal := false;
  }

  // ---------------------------------------------------------------------------
  // addQuest
  // ---------------------------------------------------------------------------

  /**
   * The catch-up of `addQuest_Postfix`: each positive Int32 counter is reduced by
   * the number of donations already satisfying its requirement, clamped at 0.
   */
  function ReduceCounters(reqs: seq<CountedRequirement>, modData: map<string, string>, inv: Inventory, tagQuery: TagQuery)
    : map<string, string>
    decreases |reqs|
  {
    if |reqs| == 0 then modData
    else ReduceCounter(ReduceCounters(reqs[..|reqs| - 1], modData, inv, tagQuery), reqs[|reqs| - 1], inv, tagQuery)
  }

  /** One pass of the catch-up: a positive counter goes down by the satisfying donations, clamped at 0. */
  function ReduceCounter(m: map<string, string>, r: CountedRequirement, inv: Inventory, tagQuery: TagQuery): map<string, string> {
    var key := RequirementKey(r.req.id);
    if key !in m || ParseInt32(m[key]).None? || ParseInt32(m[key]).value <= 0 then m
    else
      var c := ParseInt32(m[key]).value - CountSatisfying(inv, r.req, tagQuery);
      m[key := IntToString(if c < 0 then 0 else c)]
  }

  /** The catch-up keeps the set of keys. */
  lemma {:induction false} ReduceCountersKeys(reqs: seq<CountedRequirement>, modData: map<string, string>, inv: Inventory,
                                              tagQuery: TagQuery)
    ensures ReduceCounters(reqs, modData, inv, tagQuery).Keys == modData.Keys
    decreases |reqs|
  {
    if |reqs| > 0 {
      ReduceCountersKeys(reqs[..|reqs| - 1], modData, inv, tagQuery);
    }
  }

  /** A value the catch-up changed is the counter of one of the requirements, and reads as a non-negative number. */
  lemma {:induction false} ReduceCounterChanged(reqs: seq<CountedRequirement>, modData: map<string, string>, inv: Inventory,
                                                tagQuery: TagQuery, k: string) returns (i: nat)
    requires k in modData && k in ReduceCounters(reqs, modData, inv, tagQuery)
    requires ReduceCounters(reqs, modData, inv, tagQuery)[k] != modData[k]
    ensures i < |reqs| && k == RequirementKey(reqs[i].req.id)
    ensures ParseInt32(ReduceCounters(reqs, modData, inv, tagQuery)[k]).Some?
    ensures ParseInt32(ReduceCounters(reqs, modData, inv, tagQuery)[k]).value >= 0
    decreases |reqs|
  {
    var p := reqs[..|reqs| - 1];
    var m := ReduceCounters(p, modData, inv, tagQuery);
    var r := reqs[|reqs| - 1];
    var key := RequirementKey(r.req.id);
    ReduceCountersKeys(p, modData, inv, tagQuery);
    if key == k && key in m && ParseInt32(m[key]).Some? && ParseInt32(m[key]).value > 0 {
      i := |reqs| - 1;
      var c := ParseInt32(m[key]).value - CountSatisfying(inv, r.req, tagQuery);
      var written := if c < 0 then 0 else c;
      assert IsInt32(written);
      assert ReduceCounters(reqs, modData, inv, tagQuery)[k] == IntToString(written);
      ParseIntToString(written);
    } else {
      assert ReduceCounters(reqs, modData, inv, tagQuery)[k] == m[k];
      i := ReduceCounterChanged(p, modData, inv, tagQuery, k);
      assert p[i] == reqs[i];
    }
  }

  /** The catch-up writes only counters that already exist, and each one it writes is non-negative. */
  lemma ReduceCountersSpec(reqs: seq<CountedRequirement>, modData: map<string, string>, inv: Inventory, tagQuery: TagQuery)
    ensures ReduceCounters(reqs, modData, inv, tagQuery).Keys == modData.Keys
    ensures forall k :: k in modData && ReduceCounters(reqs, modData, inv, tagQuery)[k] != modData[k] ==>
      (exists i :: 0 <= i < |reqs| && k == RequirementKey(reqs[i].req.id))
      && ParseInt32(ReduceCounters(reqs, modData, inv, tagQuery)[k]).Some?
      && ParseInt32(ReduceCounters(reqs, modData, inv, tagQuery)[k]).value >= 0
  {
    ReduceCountersKeys(reqs, modData, inv, tagQuery);
    forall k | k in modData && ReduceCounters(reqs, modData, inv, tagQuery)[k] != modData[k]
      ensures exists i :: 0 <= i < |reqs| && k == RequirementKey(reqs[i].req.id)
      ensures ParseInt32(ReduceCounters(reqs, modData, inv, tagQuery)[k]).Some?
      ensures ParseInt32(ReduceCounters(reqs, modData, inv, tagQuery)[k]).value >= 0
    {
      var i := ReduceCounterChanged(reqs, modData, inv, tagQuery, k);
    }
  }

  /** One counter of the catch-up: it goes down by the satisfying donations, and stops at 0. */
  lemma ReduceLast(reqs: seq<CountedRequirement>, modData: map<string, string>, inv: Inventory, tagQuery: TagQuery)
    requires |reqs| > 0
    requires var m := ReduceCounters(reqs[..|reqs| - 1], modData, inv, tagQuery);
      var key := RequirementKey(reqs[|reqs| - 1].req.id);
      key in m && ParseInt32(m[key]).Some? && ParseInt32(m[key]).value > 0
    ensures var m := ReduceCounters(reqs[..|reqs| - 1], modData, inv, tagQuery);
      var key := RequirementKey(reqs[|reqs| - 1].req.id);
      var before := ParseInt32(m[key]).value;
      var n := CountSatisfying(inv, reqs[|reqs| - 1].req, tagQuery);
      ParseInt32(ReduceCounters(reqs, modData, inv, tagQuery)[key]) == Some(if before <= n then 0 else before - n)
  {
    var m := ReduceCounters(reqs[..|reqs| - 1], modData, inv, tagQuery);
    var key := RequirementKey(reqs[|reqs| - 1].req.id);
    var before := ParseInt32(m[key]).value;
    var c := before - CountSatisfying(inv, reqs[|reqs| - 1].req, tagQuery);
    var written := if c < 0 then 0 else c;
    assert 0 <= written <= before && IsInt32(written);
    assert ReduceCounters(reqs, modData, inv, tagQuery) == m[key := IntToString(written)];
    ParseIntToString(written);
  }

  /** The catch-up loop of `addQuest_Postfix` over the requirements, on the quest's counters. */
  method CatchUpCounters(reqs: seq<CountedRequirement>, modData: map<string, string>, inv: Inventory, tagQuery: TagQuery)
    returns (m: map<string, string>)
    ensures m == ReduceCounters(reqs, modData, inv, tagQuery)
  {
    m := modData;
    var i := 0;
    while i < |reqs|
      invariant 0 <= i <= |reqs|
      invariant m == ReduceCounters(reqs[..i], modData, inv, tagQuery)
    {
      assert reqs[..i + 1][..i] == reqs[..i];
      m := CatchUpCounter(m, reqs[i], inv, tagQuery);
      i := i + 1;
    }
    assert reqs[..i] == reqs;
  }

  /** One iteration of the catch-up loop. */
  method CatchUpCounter(m0: map<string, string>, req: CountedRequirement, inv: Inventory, tagQuery: TagQuery)
    returns (m: map<string, string>)
    ensures m == ReduceCounter(m0, req, inv, tagQuery)
  {
    m := m0;
    var key := RequirementKey(req.req.id);
    if key in m {
      var parsed := ParseInt32(m[key]);
      if parsed.Some? && parsed.value > 0 {
        var count := parsed.value - CountSatisfying(inv, req.req, tagQuery);
        if count < 0 {
          count := 0;
        }
        m := m[key := IntToString(count)];
      }
    }
  }

  /** What `addQuest_Postfix` does to one quest whose id is the data's Id: whether the scan stops, the counters left, whether the quest completes. */
  datatype PostfixOutcome = PostfixOutcome(stop: bool, modData: map<string, string>, completes: bool)

  /** The effect of `addQuest_Postfix` on one matching quest with id `id` and counters `modData`. */
  function PostfixEffect(data: QuestData, questData: map<string, QuestData>, id: string, modData: map<string, string>,
                         museums: map<string, Inventory>, tagQuery: TagQuery): PostfixOutcome
  {
    if data.requirements.None? || |data.requirements.value| == 0 then PostfixOutcome(true, modData, true)
    else if MuseumIdKey !in modData || modData[MuseumIdKey] !in museums then PostfixOutcome(true, modData, false)
    else
      var reduced := ReduceCounters(data.requirements.value, modData, museums[modData[MuseumIdKey]], tagQuery);
      var o := DonationOutcome(QuestDataFor(questData, id), reduced, None, tagQuery, false);
      PostfixOutcome(false, o.modData, o.completes)
  }

  /**
   * `addQuest_Postfix` for one quest of the log whose id is the data's Id. A quest
   * without requirements completes and stops the scan of the log. A quest whose
   * museum is unknown stops the scan. Otherwise the counters are caught up with
   * the museum's donations (`museums` maps a museum id to its inventory) and the
   * quest is checked as for a donation of nothing, with the quest data entry of
   * the quest's own id.
   */
  method AddQuestPostfix(quest: Quest, data: QuestData, questData: map<string, QuestData>, museums: map<string, Inventory>,
                         tagQuery: TagQuery, check: Option<string> -> bool)
    returns (stop: bool)
    modifies quest
    ensures data.requirements.None? || |data.requirements.value| == 0 ==>
      stop && quest.modData == old(quest.modData) && CompletedIf(quest, QuestDataFor(questData, old(quest.id)), check, true)
    ensures data.requirements.Some? && |data.requirements.value| > 0
              && (MuseumIdKey !in old(quest.modData) || old(quest.modData)[MuseumIdKey] !in museums) ==>
      stop && quest.modData == old(quest.modData) && NotCompleted(quest)
    ensures data.requirements.Some? && |data.requirements.value| > 0
              && MuseumIdKey in old(quest.modData) && old(quest.modData)[MuseumIdKey] in museums ==>
      var reduced := ReduceCounters(data.requirements.value, old(quest.modData),
                                    museums[old(quest.modData)[MuseumIdKey]], tagQuery);
      var o := DonationOutcome(QuestDataFor(questData, old(quest.id)), reduced, None, tagQuery, false);
      !stop && quest.modData == o.modData && CompletedIf(quest, QuestDataFor(questData, old(quest.id)), check, o.completes)
    ensures var e := PostfixEffect(data, questData, old(quest.id), old(quest.modData), museums, tagQuery);
      stop == e.stop && quest.modData == e.modData && CompletedIf(quest, QuestDataFor(questData, old(quest.id)), check, e.completes)
  {
    if data.requirements.None? || |data.requirements.value| == 0 {
      quest.QuestComplete(QuestDataFor(questData, quest.id), check);
      return true;
    }
    if MuseumIdKey !in quest.modData || quest.modData[MuseumIdKey] !in museums {
      return true;
    }
    var inv := museums[quest.modData[MuseumIdKey]];
    var reqs := data.requirements.value;
    quest.modData := CatchUpCounters(reqs, quest.modData, inv, tagQuery);
    var _ := OnMuseumDonation(quest, QuestDataFor(questData, quest.id), None, tagQuery, false, check);
    return false;
  }

  /**
   * `addQuest_Postfix` over the farmer's quest log, for the quest just added:
   * nothing happens without quest data; every quest of the log whose id is the
   * data's Id is caught up in turn, until one of them stops the scan. Quests with
   * other ids, and every quest after the one that stops the scan, are left as
   * they were.
   */
  method AddQuest(log: seq<Quest>, questId: string, questData: map<string, QuestData>, museums: map<string, Inventory>,
                  tagQuery: TagQuery, check: Option<string> -> bool)
    modifies set q | q in log
    ensures questId !in questData ==> forall q :: q in log ==> unchanged(q)
    ensures questId in questData ==> forall q :: q in log && old(q.id) != questData[questId].id ==> unchanged(q)
    ensures questId in questData && Distinct(log) ==> forall i ::
      (0 <= i < |log| && old(log[i].id) == questData[questId].id
       && forall j :: 0 <= j < i && old(log[j].id) == questData[questId].id ==>
            !PostfixEffect(questData[questId], questData, old(log[j].id), old(log[j].modData), museums, tagQuery).stop) ==>
      var e := PostfixEffect(questData[questId], questData, old(log[i].id), old(log[i].modData), museums, tagQuery);
      log[i].modData == e.modData && CompletedIf(log[i], QuestDataFor(questData, old(log[i].id)), check, e.completes)
    ensures questId in questData && Distinct(log) ==> forall i, j ::
      (0 <= j < i < |log| && old(log[j].id) == questData[questId].id
       && PostfixEffect(questData[questId], questData, old(log[j].id), old(log[j].modData), museums, tagQuery).stop) ==>
      unchanged(log[i])
    ensures forall q :: q in log ==> q.id == old(q.id)
  {
    if questId !in questData {
      return;
    }
    var data := questData[questId];
    var i := 0;
    while i < |log|
      invariant 0 <= i <= |log|
      invariant forall q :: q in log ==> q.id == old(q.id)
      invariant forall q :: q in log && old(q.id) != data.id ==> unchanged(q)
      invariant Distinct(log) ==> forall k :: 0 <= k < i && old(log[k].id) == data.id ==>
        var e := PostfixEffect(data, questData, old(log[k].id), old(log[k].modData), museums, tagQuery);
        !e.stop && log[k].modData == e.modData && CompletedIf(log[k], QuestDataFor(questData, old(log[k].id)), check, e.completes)
      invariant Distinct(log) ==> forall k :: i <= k < |log| ==> unchanged(log[k])
    {
      if log[i].id == data.id {
        var stop := AddQuestPostfix(log[i], data, questData, museums, tagQuery, check);
        if stop {
          return;
        }
      }
      i := i + 1;
    }
  }

  // ---------------------------------------------------------------------------
  // questComplete
  // ---------------------------------------------------------------------------

  /** `NextQuests.Find(x => x.Id.Equals(q))`: the first next-quest entry with the Id. */
  function FindNextQuest(next: seq<NextQuest>, id: string): (r: Option<NextQuest>)
    ensures r.Some? ==> r.value in next && r.value.id == id
    ensures r.None? <==> forall i :: 0 <= i < |next| ==> next[i].id != id
  {
    if |next| == 0 then None
    else if next[0].id == id then Some(next[0])
    else FindNextQuest(next[1..], id)
  }

  /** A next quest stays unless its data entry exists and its condition fails; `check` is `GameStateQuery.CheckConditions`. */
  predicate KeepsNextQuest(data: QuestData, check: Option<string> -> bool, q: string) {
    var entry := FindNextQuest(data.nextQuests.GetOr([]), q);
    !(entry.Some? && !check(entry.value.condition))
  }

  /** The quest's next quests after `questComplete_Prefix`: a filter, in order. */
  function FilterNextQuests(qs: seq<string>, data: QuestData, check: Option<string> -> bool): (r: seq<string>)
    ensures forall x :: x in r <==> x in qs && KeepsNextQuest(data, check, x)
    ensures |r| <= |qs|
    decreases |qs|
  {
    if |qs| == 0 then []
    else
      var rest := FilterNextQuests(qs[..|qs| - 1], data, check);
      assert forall x :: x in qs <==> x in qs[..|qs| - 1] || x == qs[|qs| - 1];
      if KeepsNextQuest(data, check, qs[|qs| - 1]) then rest + [qs[|qs| - 1]] else rest
  }

  /** Next quests without a data entry are always kept. */
  lemma UnlistedNextQuestKept(qs: seq<string>, data: QuestData, check: Option<string> -> bool, q: string)
    requires q in qs
    requires forall i :: 0 <= i < |data.nextQuests.GetOr([])| ==> data.nextQuests.GetOr([])[i].id != q
    ensures q in FilterNextQuests(qs, data, check)
  {
  }

  /**
   * `questComplete_Prefix`: unknown quests are left alone. Otherwise the actions to
   * run are `ActionOnCompletion` then `ActionsOnCompletion`, and the next quests
   * are filtered.
   */
  method QuestCompletePrefix(quest: Quest, data: Option<QuestData>, check: Option<string> -> bool)
    returns (actions: seq<string>)
    modifies quest
    ensures data.None? ==> actions == [] && quest.nextQuests == old(quest.nextQuests)
    ensures data.Some? ==>
      actions == CompletionActions(data.value)
      && quest.nextQuests == FilterNextQuests(old(quest.nextQuests), data.value, check)
    ensures quest.modData == old(quest.modData) && quest.completions == old(quest.completions)
    ensures quest.completionActions == old(quest.completionActions) && quest.id == old(quest.id)
  {
    if data.None? {
      return [];
    }
    var d := data.value;
    actions := [];
    if d.actionOnCompletion.Some? {
      actions := actions + [d.actionOnCompletion.value];
    }
    if d.actionsOnCompletion.Some? && |d.actionsOnCompletion.value| > 0 {
      actions := actions + d.actionsOnCompletion.value;
    }
    if |quest.nextQuests| == 0 {
      return;
    }
    quest.nextQuests := FilterNextQuests(quest.nextQuests, d, check);
  }
}
