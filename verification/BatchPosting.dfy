/** The post-all action of gl-service: every draft is submitted for review and approved, one after the
    other, while another approver (the review-timeout job, say) may approve a submitted entry first. */
module BatchPosting {
  import opened Sums

  datatype Status = Draft | Pending | PendingReview | Posted | Held | Reversed | Voided

  /** The states an entry has gone through, the current one last. */
  type Trail = t: seq<Status> | t != [] witness [Draft]

  /** The journal, by position; ids are positions. */
  type Journal = seq<Trail>

  function Current(t: Trail): Status { t[|t| - 1] }

  /** What happens to one entry: whether its submission commits, whether another approver takes it before the
      action does, and whether its approval would commit. */
  datatype Fate = Fate(submits: bool, taken: bool, approves: bool)

  type World = nat -> Fate

  datatype Report = Report(id: nat, posted: bool)

  /** postJournalEntry: only a draft can be submitted. */
  function Submit(j: Journal, id: nat, fate: Fate): Option<Journal>
    requires id < |j|
  {
    if Current(j[id]) != Draft || !fate.submits then None else Some(j[id := j[id] + [PendingReview]])
  }

  /** Another approver, between the two calls. */
  function Meanwhile(j: Journal, id: nat, fate: Fate): Journal
    requires id < |j|
  {
    if fate.taken && Current(j[id]) == PendingReview then j[id := j[id] + [Posted]] else j
  }

  /** approveJournalEntry: only a submitted entry can be approved. */
  function Approve(j: Journal, id: nat, fate: Fate): Option<Journal>
    requires id < |j|
  {
    if Current(j[id]) != PendingReview || !fate.approves then None else Some(j[id := j[id] + [Posted]])
  }

  function PostOne(j: Journal, id: nat, fate: Fate): (Journal, bool)
    requires id < |j|
  {
    match Submit(j, id, fate)
    case None => (j, false)
    case Some(submitted) =>
      var meanwhile := Meanwhile(submitted, id, fate);
      match Approve(meanwhile, id, fate)
      case None => (meanwhile, false)
      case Some(approved) => (approved, true)
  }

  /** The drafts from position i on. */
  function Drafts(j: Journal, i: nat): seq<nat>
    requires i <= |j|
    decreases |j| - i
  {
    if i == |j| then [] else (if Current(j[i]) == Draft then [i] else []) + Drafts(j, i + 1)
  }

  predicate Ids(j: Journal, ids: seq<nat>) {
    forall k | 0 <= k < |ids| :: ids[k] < |j|
  }

  lemma {:induction false} DraftsAscend(j: Journal, i: nat)
    requires i <= |j|
    ensures forall k | 0 <= k < |Drafts(j, i)| :: i <= Drafts(j, i)[k] < |j| && Current(j[Drafts(j, i)[k]]) == Draft
    ensures forall a, b | 0 <= a < b < |Drafts(j, i)| :: Drafts(j, i)[a] < Drafts(j, i)[b]
    decreases |j| - i
  {
    if i < |j| { DraftsAscend(j, i + 1); }
  }

  lemma {:induction false} EveryDraftIsListed(j: Journal, i: nat, id: nat)
    requires i <= id < |j| && Current(j[id]) == Draft
    ensures id in Drafts(j, i)
    decreases |j| - i
  {
    if i < id { EveryDraftIsListed(j, i + 1, id); }
  }

  lemma {:induction false} DraftsAreTheDrafts(j: Journal, i: nat)
    requires i <= |j|
    ensures Ids(j, Drafts(j, i)) && forall id :: id in Drafts(j, i) <==> i <= id < |j| && Current(j[id]) == Draft
    ensures forall a, b | 0 <= a < b < |Drafts(j, i)| :: Drafts(j, i)[a] < Drafts(j, i)[b]
  {
    DraftsAscend(j, i);
    forall id | i <= id < |j| && Current(j[id]) == Draft ensures id in Drafts(j, i) { EveryDraftIsListed(j, i, id); }
  }

  function PostEach(j: Journal, ids: seq<nat>, world: World): (Journal, seq<Report>)
    requires Ids(j, ids)
    decreases |ids|
  {
    if ids == [] then (j, []) else
      var (next, posted) := PostOne(j, ids[0], world(ids[0]));
      var (final, reports) := PostEach(next, ids[1..], world);
      (final, [Report(ids[0], posted)] + reports)
  }

  function PostAll(j: Journal, world: World): (Journal, seq<Report>) {
    DraftsAreTheDrafts(j, 0);
    PostEach(j, Drafts(j, 0), world)
  }

  function Prepend(before: seq<Report>, run: (Journal, seq<Report>)): (Journal, seq<Report>) {
    (run.0, before + run.1)
  }

  lemma {:induction false} PostStep(j: Journal, drafts: seq<nat>, k: nat, world: World, results: seq<Report>)
    requires k < |drafts| && Ids(j, drafts[k..])
    ensures var (next, ok) := PostOne(j, drafts[k], world(drafts[k]));
            && |next| == |j| && Ids(next, drafts[k + 1..])
            && Prepend(results, PostEach(j, drafts[k..], world))
                 == Prepend(results + [Report(drafts[k], ok)], PostEach(next, drafts[k + 1..], world))
  {
    assert drafts[k..][0] == drafts[k] && drafts[k..][1..] == drafts[k + 1..];
    var (next, ok) := PostOne(j, drafts[k], world(drafts[k]));
    var rest := PostEach(next, drafts[k + 1..], world).1;
    assert results + ([Report(drafts[k], ok)] + rest) == results + [Report(drafts[k], ok)] + rest;
  }

  class JournalService {
    var journal: Journal

    constructor (journal: Journal)
      ensures this.journal == journal
    {
      this.journal := journal;
    }

    /** The loop over the fetched drafts. */
    method PostFetched(drafts: seq<nat>, world: World) returns (results: seq<Report>)
      requires Ids(journal, drafts)
      modifies this
      ensures (journal, results) == PostEach(old(journal), drafts, world)
    {
      results := [];
      ghost var all := PostEach(journal, drafts, world);
      assert drafts[0..] == drafts && [] + all.1 == all.1;
      for k := 0 to |drafts|
        invariant Ids(journal, drafts[k..]) && Prepend(results, PostEach(journal, drafts[k..], world)) == all
      {
        PostStep(journal, drafts, k, world, results);
        var (next, ok) := PostOne(journal, drafts[k], world(drafts[k]));
        journal := next;
        results := results + [Report(drafts[k], ok)];
      }
      assert drafts[|drafts|..] == [] && results + [] == results;
    }

    method PostDrafts(world: World) returns (results: seq<Report>, posted: nat, failed: nat)
      modifies this
      ensures (journal, results) == PostAll(old(journal), world)
      ensures posted + failed == |results| == |Drafts(old(journal), 0)|
      ensures posted == |Reported(results, true)| && failed == |Reported(results, false)|
    {
      DraftsAreTheDrafts(journal, 0);
      EveryDraftMeetsItsOwnFate(journal, world);
      results := PostFetched(Drafts(journal, 0), world);
      TalliesAddUp(results);
      TallyCounts(results, true);
      TallyCounts(results, false);
      posted, failed := Tally(results, true), Tally(results, false);
    }
  }

  function Tally(reports: seq<Report>, posted: bool): nat {
    if reports == [] then 0 else (if reports[0].posted == posted then 1 else 0) + Tally(reports[1..], posted)
  }

  /** The positions of the reports that say posted, or that say failed. */
  function Reported(reports: seq<Report>, posted: bool): set<nat> {
    set k | 0 <= k < |reports| && reports[k].posted == posted
  }

  lemma {:induction false} TallyCounts(reports: seq<Report>, posted: bool)
    ensures Tally(reports, posted) == |Reported(reports, posted)|
  {
    if reports != [] {
      var init, last := reports[..|reports| - 1], reports[|reports| - 1];
      TallyCounts(init, posted);
      TallySnoc(init, last, posted);
      assert init + [last] == reports;
      assert Reported(reports, posted) == Reported(init, posted) + if last.posted == posted then {|init|} else {};
    }
  }

  lemma {:induction false} TallySnoc(reports: seq<Report>, last: Report, posted: bool)
    ensures Tally(reports + [last], posted) == Tally(reports, posted) + if last.posted == posted then 1 else 0
  {
    if reports == [] {
      assert [last][1..] == [] && [] + [last] == [last];
    } else {
      assert (reports + [last])[1..] == reports[1..] + [last];
      TallySnoc(reports[1..], last, posted);
    }
  }

  lemma {:induction false} TalliesAddUp(reports: seq<Report>)
    ensures Tally(reports, true) + Tally(reports, false) == |reports|
  {
    if reports != [] { TalliesAddUp(reports[1..]); }
  }

  // ----- what happens to every entry -----

  /** The trail and the report that an entry's fate gives a draft. */
  function Ending(t: Trail, fate: Fate): (Trail, bool) {
    if !fate.submits then (t, false)
    else if fate.taken then (t + [PendingReview, Posted], false)
    else if fate.approves then (t + [PendingReview, Posted], true)
    else (t + [PendingReview], false)
  }

  lemma OneEnding(j: Journal, id: nat, fate: Fate)
    requires id < |j| && Current(j[id]) == Draft
    ensures PostOne(j, id, fate) == (j[id := Ending(j[id], fate).0], Ending(j[id], fate).1)
  {
    var t := j[id];
    assert t + [PendingReview] + [Posted] == t + [PendingReview, Posted];
    assert j[id := t + [PendingReview]][id := t + [PendingReview, Posted]] == j[id := t + [PendingReview, Posted]];
    assert j[id := t] == j;
  }

  lemma {:induction false} EachEnding(j: Journal, ids: seq<nat>, world: World)
    requires Ids(j, ids) && (forall k | 0 <= k < |ids| :: Current(j[ids[k]]) == Draft)
    requires forall a, b | 0 <= a < b < |ids| :: ids[a] < ids[b]
    ensures var (final, reports) := PostEach(j, ids, world);
            && |final| == |j| && |reports| == |ids|
            && (forall k | 0 <= k < |ids| :: reports[k] == Report(ids[k], Ending(j[ids[k]], world(ids[k])).1))
            && (forall id | 0 <= id < |j| :: final[id] == if id in ids then Ending(j[id], world(id)).0 else j[id])
    decreases |ids|
  {
    if ids != [] {
      OneEnding(j, ids[0], world(ids[0]));
      var next := PostOne(j, ids[0], world(ids[0])).0;
      EachEnding(next, ids[1..], world);
      assert ids == [ids[0]] + ids[1..];
    }
  }

  /** Batch posting: one failure never stops the rest. Every draft is reported once and ends as its own fate has it,
      whatever happens to the others; nothing else is touched. */
  lemma {:induction false} EveryDraftMeetsItsOwnFate(j: Journal, world: World)
    ensures var (final, reports) := PostAll(j, world);
            var drafts := Drafts(j, 0);
            && |final| == |j| && |reports| == |drafts|
            && (forall k | 0 <= k < |drafts| ::
                  drafts[k] < |j| && reports[k] == Report(drafts[k], Ending(j[drafts[k]], world(drafts[k])).1))
            && (forall id | 0 <= id < |j| ::
                  final[id] == if Current(j[id]) == Draft then Ending(j[id], world(id)).0 else j[id])
  {
    DraftsAreTheDrafts(j, 0);
    forall k | 0 <= k < |Drafts(j, 0)| ensures Current(j[Drafts(j, 0)[k]]) == Draft {
      assert Drafts(j, 0)[k] in Drafts(j, 0);
    }
    EachEnding(j, Drafts(j, 0), world);
  }

  /** An entry reported posted went through review to posted. An entry reported failed is posted nonetheless exactly
      when another approver came first, and a second run will try it again exactly when its submission failed. */
  lemma WhatAReportMeans(j: Journal, world: World, k: nat)
    requires k < |PostAll(j, world).1|
    ensures var (final, reports) := PostAll(j, world);
            var id := reports[k].id;
            && id < |j| && |final| == |j| && Current(j[id]) == Draft
            && (reports[k].posted ==> final[id] == j[id] + [PendingReview, Posted])
            && (!reports[k].posted ==>
                 && (Current(final[id]) == Posted <==> world(id).submits && world(id).taken)
                 && (id in Drafts(final, 0) <==> !world(id).submits))
  {
    EveryDraftMeetsItsOwnFate(j, world);
    DraftsAreTheDrafts(j, 0);
    var id := PostAll(j, world).1[k].id;
    assert Drafts(j, 0)[k] in Drafts(j, 0);
    DraftsAreTheDrafts(PostAll(j, world).0, 0);
  }

  // ----- the auto-post job on its own -----

  /** The job approves the drafts it finds, without submitting them. */
  function AutoPostJob(j: Journal, ids: seq<nat>, world: World): (Journal, seq<Report>)
    requires Ids(j, ids)
    decreases |ids|
  {
    if ids == [] then (j, []) else
      var approved := Approve(j, ids[0], world(ids[0]));
      var (final, reports) := AutoPostJob(match approved case None => j case Some(next) => next, ids[1..], world);
      (final, [Report(ids[0], approved.Some?)] + reports)
  }

  /** Run on its own the job posts nothing, ever: each draft is refused because it was never submitted. */
  lemma {:induction false} AutoPostJobPostsNothing(j: Journal, ids: seq<nat>, world: World)
    requires Ids(j, ids) && forall k | 0 <= k < |ids| :: Current(j[ids[k]]) == Draft
    ensures var (final, reports) := AutoPostJob(j, ids, world);
            final == j && |reports| == |ids| && forall k | 0 <= k < |ids| :: reports[k] == Report(ids[k], false)
    decreases |ids|
  {
    if ids != [] {
      AutoPostJobPostsNothing(j, ids[1..], world);
      assert ids == [ids[0]] + ids[1..];
    }
  }
}
