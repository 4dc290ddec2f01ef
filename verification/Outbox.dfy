/** The transactional outbox of schedule-service, drained by OutboxProcessor. */
module Outbox {
  import opened Sums

  const BATCH: nat := 50
  const MAX_RETRIES: nat := 10

  /** A stored event. The table is kept in creation order, so an event's id is its position;
      deliveries counts how often the bus accepted it. */
  datatype Record = Record(published: bool, retries: nat, deliveries: nat)

  /** What happens to one record: accepted and marked; refused by the bus; accepted but not marked.
      In the last two the retry count is incremented, unless that write fails too. */
  datatype Result = Published | PublishFailed | MarkFailed | RetryFailed(accepted: bool)

  predicate Live(r: Record) {
    !r.published && r.retries < MAX_RETRIES
  }

  function Attempt(r: Record, result: Result): Record {
    match result
    case Published => r.(published := true, deliveries := r.deliveries + 1)
    case PublishFailed => r.(retries := r.retries + 1)
    case MarkFailed => r.(retries := r.retries + 1, deliveries := r.deliveries + 1)
    case RetryFailed(accepted) => if accepted then r.(deliveries := r.deliveries + 1) else r
  }

  /** The oldest live records from position i on, at most take of them. */
  function Find(rows: seq<Record>, i: nat, take: nat): seq<nat>
    requires i <= |rows|
    decreases |rows| - i
  {
    if i == |rows| || take == 0 then []
    else if Live(rows[i]) then [i] + Find(rows, i + 1, take - 1)
    else Find(rows, i + 1, take)
  }

  function Fetch(rows: seq<Record>): seq<nat> {
    Find(rows, 0, BATCH)
  }

  type World = nat -> Result

  /** The rest of a batch; a failed retry write ends it. */
  function Handle(rows: seq<Record>, ids: seq<nat>, world: World): seq<Record>
    requires forall k | 0 <= k < |ids| :: ids[k] < |rows|
    decreases |ids|
  {
    if ids == [] then rows else
      var next := rows[ids[0] := Attempt(rows[ids[0]], world(ids[0]))];
      if world(ids[0]).RetryFailed? then next else Handle(next, ids[1..], world)
  }

  function Poll(rows: seq<Record>, world: World): seq<Record> {
    FetchedAreLive(rows, 0, BATCH);
    Handle(rows, Fetch(rows), world)
  }

  /** What is fetched: live, ascending, and every older live record of a fetched one or, in a
      batch that is not full, every live record. */
  lemma {:induction false} FetchedAreLive(rows: seq<Record>, i: nat, take: nat)
    requires i <= |rows|
    ensures var ids := Find(rows, i, take);
            && |ids| <= take
            && (forall k | 0 <= k < |ids| :: i <= ids[k] < |rows| && Live(rows[ids[k]]))
            && (forall j, k | 0 <= j < k < |ids| :: ids[j] < ids[k])
    ensures forall j | i <= j < |rows| && Live(rows[j]) && j !in Find(rows, i, take) ::
              |Find(rows, i, take)| == take && forall k | 0 <= k < take :: Find(rows, i, take)[k] < j
    decreases |rows| - i
  {
    if i < |rows| && take > 0 {
      FetchedAreLive(rows, i + 1, if Live(rows[i]) then take - 1 else take);
    }
  }

  class OutboxProcessor {
    var rows: seq<Record>

    /** One poll: fetch, then attempt each fetched record once. */
    method ProcessNextBatch(world: World) returns (published: nat)
      modifies this
      ensures rows == Poll(old(rows), world)
      ensures published == PublishedCount(rows) - PublishedCount(old(rows))
      ensures published == Marked(Fetch(old(rows)), world)
    {
      var records := Fetch(rows);
      FetchedAreLive(rows, 0, BATCH);
      published := 0;
      for k := 0 to |records|
        invariant |rows| == |old(rows)|
        invariant Poll(old(rows), world) == Handle(rows, records[k..], world)
        invariant published == PublishedCount(rows) - PublishedCount(old(rows))
        invariant Marked(Fetch(old(rows)), world) == published + Marked(records[k..], world)
        invariant forall j | k <= j < |records| :: rows[records[j]] == old(rows)[records[j]]
      {
        var id := records[k];
        assert records[k..][1..] == records[k + 1..];
        CountAfterAttempt(rows, id, Attempt(rows[id], world(id)));
        rows := rows[id := Attempt(rows[id], world(id))];
        if world(id).Published? { published := published + 1; }
        if world(id).RetryFailed? { return; }
      }
    }
  }

  /** How many of a batch are accepted and marked; a failed retry write ends it. */
  function Marked(ids: seq<nat>, world: World): nat {
    if ids == [] then 0
    else (if world(ids[0]).Published? then 1 else 0) + if world(ids[0]).RetryFailed? then 0 else Marked(ids[1..], world)
  }

  function PublishedCount(rows: seq<Record>): nat {
    if rows == [] then 0 else (if rows[0].published then 1 else 0) + PublishedCount(rows[1..])
  }

  lemma {:induction false} CountAfterAttempt(rows: seq<Record>, id: nat, r: Record)
    requires id < |rows|
    ensures PublishedCount(rows[id := r])
      == PublishedCount(rows) - (if rows[id].published then 1 else 0) + if r.published then 1 else 0
  {
    if id > 0 {
      assert rows[id := r][1..] == rows[1..][id - 1 := r];
      CountAfterAttempt(rows[1..], id - 1, r);
    } else {
      assert rows[id := r][1..] == rows[1..];
    }
  }

  // ----- what a poll does to each record -----

  /** A poll attempts exactly the fetched records up to and including the first failed retry write. */
  predicate Handled(ids: seq<nat>, world: World, id: nat) {
    exists k | 0 <= k < |ids| :: ids[k] == id && forall j | 0 <= j < k :: !world(ids[j]).RetryFailed?
  }

  lemma {:induction false} HandleByRecord(rows: seq<Record>, ids: seq<nat>, world: World)
    requires forall k | 0 <= k < |ids| :: ids[k] < |rows|
    requires forall j, k | 0 <= j < k < |ids| :: ids[j] < ids[k]
    ensures |Handle(rows, ids, world)| == |rows|
    ensures forall i | 0 <= i < |rows| ::
              Handle(rows, ids, world)[i] == if Handled(ids, world, i) then Attempt(rows[i], world(i)) else rows[i]
    decreases |ids|
  {
    if ids != [] {
      var next := rows[ids[0] := Attempt(rows[ids[0]], world(ids[0]))];
      HandleByRecord(next, ids[1..], world);
      forall i | 0 <= i < |rows|
        ensures Handled(ids, world, i) <==> i == ids[0] || (!world(ids[0]).RetryFailed? && Handled(ids[1..], world, i))
      {
        HandledStep(ids, world, i);
      }
    }
  }

  lemma HandledStep(ids: seq<nat>, world: World, i: nat)
    requires ids != [] && forall j, k | 0 <= j < k < |ids| :: ids[j] < ids[k]
    ensures Handled(ids, world, i) <==> i == ids[0] || (!world(ids[0]).RetryFailed? && Handled(ids[1..], world, i))
  {
    if Handled(ids, world, i) && i != ids[0] {
      var k :| 0 <= k < |ids| && ids[k] == i && forall j | 0 <= j < k :: !world(ids[j]).RetryFailed?;
      assert ids[1..][k - 1] == i;
      assert forall j | 0 <= j < k - 1 :: ids[1..][j] == ids[j + 1];
    }
    if !world(ids[0]).RetryFailed? && Handled(ids[1..], world, i) {
      var k :| 0 <= k < |ids[1..]| && ids[1..][k] == i && forall j | 0 <= j < k :: !world(ids[1..][j]).RetryFailed?;
      assert ids[k + 1] == i;
      assert forall j | 1 <= j < k + 1 :: ids[j] == ids[1..][j - 1];
    }
  }

  /** One poll, record by record: what was accepted and marked is published and keeps its retries; what was refused, or
      accepted and not marked, is not and has one retry more; a record whose retry write failed, or which was not
      handled, keeps both. */
  lemma WhatAPollDoes(rows: seq<Record>, world: World, i: nat)
    requires i < |rows|
    ensures |Poll(rows, world)| == |rows|
    ensures var before, after, handled := rows[i], Poll(rows, world)[i], Handled(Fetch(rows), world, i);
            && (handled ==> !before.published && before.retries < 10)
            && (after.published <==> before.published || (handled && world(i) == Published))
            && after.retries == before.retries + (if handled && world(i) in {PublishFailed, MarkFailed} then 1 else 0)
            && after.deliveries == before.deliveries
                 + (if handled && world(i) in {Published, MarkFailed, RetryFailed(true)} then 1 else 0)
  {
    FetchedAreLive(rows, 0, BATCH);
    HandleByRecord(rows, Fetch(rows), world);
  }

  /** A published or exhausted record is never fetched, and no poll changes it; the retry count of
      every other record grows by at most one and never past ten. */
  lemma PollKeepsFinishedRecords(rows: seq<Record>, world: World, i: nat)
    requires i < |rows|
    ensures |Poll(rows, world)| == |rows|
    ensures !Live(rows[i]) ==> i !in Fetch(rows) && Poll(rows, world)[i] == rows[i]
    ensures rows[i].retries <= MAX_RETRIES ==> Poll(rows, world)[i].retries <= MAX_RETRIES
    ensures rows[i].retries <= Poll(rows, world)[i].retries <= rows[i].retries + 1
  {
    FetchedAreLive(rows, 0, BATCH);
    HandleByRecord(rows, Fetch(rows), world);
  }

  // ----- progress -----

  /** The attempts a record can still cost. */
  function Budget(r: Record): nat {
    if r.published then 0 else Max(0, MAX_RETRIES - r.retries)
  }

  function Work(rows: seq<Record>): nat {
    if rows == [] then 0 else Budget(rows[0]) + Work(rows[1..])
  }

  lemma {:induction false} WorkIsMonotone(xs: seq<Record>, ys: seq<Record>)
    requires |xs| == |ys| && forall i | 0 <= i < |xs| :: Budget(ys[i]) <= Budget(xs[i])
    ensures Work(ys) <= Work(xs)
    ensures Work(ys) == Work(xs) <==> forall i | 0 <= i < |xs| :: Budget(ys[i]) == Budget(xs[i])
  {
    if xs != [] {
      WorkIsMonotone(xs[1..], ys[1..]);
      if forall i | 0 <= i < |xs[1..]| :: Budget(ys[1..][i]) == Budget(xs[1..][i]) {
        assert forall i | 1 <= i < |xs| :: xs[i] == xs[1..][i - 1] && ys[i] == ys[1..][i - 1];
      }
    }
  }

  /** Every poll that fetches something makes progress, exactly unless the retry write of the first
      fetched record fails. */
  lemma {:induction false} PollMakesProgressExactly(rows: seq<Record>, world: World)
    ensures Work(Poll(rows, world)) < Work(rows) <==> Fetch(rows) != [] && !world(Fetch(rows)[0]).RetryFailed?
  {
    var ids := Fetch(rows);
    var after := Poll(rows, world);
    FetchedAreLive(rows, 0, BATCH);
    HandleByRecord(rows, ids, world);
    forall i | 0 <= i < |rows| ensures Budget(after[i]) <= Budget(rows[i]) {}
    WorkIsMonotone(rows, after);
    if ids != [] {
      assert Handled(ids, world, ids[0]);
      if world(ids[0]).RetryFailed? {
        forall i | 0 <= i < |rows| ensures Budget(after[i]) == Budget(rows[i]) {
          HandledStep(ids, world, i);
        }
      } else {
        assert Budget(after[ids[0]]) < Budget(rows[ids[0]]);
      }
    }
  }

  // ----- fairness and settling -----

  /** One polling interval: what the bus does, and the events stored meanwhile. */
  datatype Turn = Turn(world: World, arrivals: seq<Record>)

  ghost predicate StoreIsUp(turns: seq<Turn>) {
    forall k, id | 0 <= k < |turns| :: !turns[k].world(id).RetryFailed?
  }

  function Next(rows: seq<Record>, turn: Turn): seq<Record> {
    Poll(rows, turn.world) + turn.arrivals
  }

  predicate AttemptedWithin(rows: seq<Record>, turns: seq<Turn>, id: nat)
    decreases |turns|
  {
    turns != [] && (id in Fetch(rows) || AttemptedWithin(Next(rows, turns[0]), turns[1..], id))
  }

  lemma {:induction false} WorkFallsPerAttempt(xs: seq<Record>, ys: seq<Record>, base: nat, ids: seq<nat>)
    requires |xs| == |ys| && forall i | 0 <= i < |xs| :: Budget(ys[i]) <= Budget(xs[i])
    requires forall j, k | 0 <= j < k < |ids| :: ids[j] < ids[k]
    requires forall k | 0 <= k < |ids| ::
      base <= ids[k] < base + |xs| && Budget(ys[ids[k] - base]) < Budget(xs[ids[k] - base])
    ensures Work(ys) + |ids| <= Work(xs)
    decreases |xs|
  {
    if xs != [] {
      WorkFallsPerAttempt(xs[1..], ys[1..], base + 1, if ids != [] && ids[0] == base then ids[1..] else ids);
    }
  }

  /** While the store is up, a poll attempts exactly what it fetched. */
  lemma PollAttemptsWhatItFetched(rows: seq<Record>, world: World)
    requires forall id :: !world(id).RetryFailed?
    ensures |Poll(rows, world)| == |rows|
    ensures forall i | 0 <= i < |rows| ::
              Poll(rows, world)[i] == if i in Fetch(rows) then Attempt(rows[i], world(i)) else rows[i]
  {
    var ids := Fetch(rows);
    FetchedAreLive(rows, 0, BATCH);
    HandleByRecord(rows, ids, world);
    forall i | i in ids ensures Handled(ids, world, i) {
      var k :| 0 <= k < |ids| && ids[k] == i;
      assert forall j | 0 <= j < k :: !world(ids[j]).RetryFailed?;
    }
  }

  /** A poll that passes over a live record spends a whole batch on older ones. */
  lemma PassedOverCostsABatch(rows: seq<Record>, world: World, i: nat)
    requires i < |rows| && Live(rows[i]) && i !in Fetch(rows)
    requires forall id :: !world(id).RetryFailed?
    ensures |Poll(rows, world)| == |rows| && Poll(rows, world)[i] == rows[i]
    ensures Work(Poll(rows, world)[..i]) + BATCH <= Work(rows[..i])
  {
    var ids := Fetch(rows);
    FetchedAreLive(rows, 0, BATCH);
    PollAttemptsWhatItFetched(rows, world);
    BatchFalls(rows[..i], Poll(rows, world)[..i], ids, world);
  }

  lemma {:induction false} BatchFalls(xs: seq<Record>, ys: seq<Record>, ids: seq<nat>, world: World)
    requires |xs| == |ys| && forall id :: !world(id).RetryFailed?
    requires forall i | 0 <= i < |xs| :: ys[i] == if i in ids then Attempt(xs[i], world(i)) else xs[i]
    requires forall k | 0 <= k < |ids| :: ids[k] < |xs| && Live(xs[ids[k]])
    requires forall j, k | 0 <= j < k < |ids| :: ids[j] < ids[k]
    ensures Work(ys) + |ids| <= Work(xs)
  {
    forall i | 0 <= i < |xs| ensures Budget(ys[i]) <= Budget(xs[i]) {}
    forall k | 0 <= k < |ids| ensures Budget(ys[ids[k] - 0]) < Budget(xs[ids[k] - 0]) {
      assert ids[k] in ids;
    }
    WorkFallsPerAttempt(xs, ys, 0, ids);
  }

  /** Fairness: while the store is up, a live record is attempted as soon as fifty times the number of
      polls exceeds what the older records can still cost. */
  lemma {:induction false} AttemptedOnceOlderWorkIsCovered(rows: seq<Record>, turns: seq<Turn>, i: nat)
    requires i < |rows| && Live(rows[i]) && StoreIsUp(turns)
    requires BATCH * |turns| > Work(rows[..i])
    ensures AttemptedWithin(rows, turns, i)
    decreases |turns|
  {
    if i !in Fetch(rows) {
      var next := Next(rows, turns[0]);
      PassedOverCostsABatch(rows, turns[0].world, i);
      assert next[..i] == Poll(rows, turns[0].world)[..i];
      AttemptedOnceOlderWorkIsCovered(next, turns[1..], i);
    }
  }

  function LiveCount(rows: seq<Record>): nat {
    if rows == [] then 0 else (if Live(rows[0]) then 1 else 0) + LiveCount(rows[1..])
  }

  lemma {:induction false} WorkIsAtMostTenPerLive(rows: seq<Record>)
    ensures Work(rows) <= MAX_RETRIES * LiveCount(rows)
  {
    if rows != [] {
      WorkIsAtMostTenPerLive(rows[1..]);
    }
  }

  /** With k older live records, floor(10k / 50) + 1 polls are enough. */
  lemma {:induction false} AttemptedWithinTheBound(rows: seq<Record>, turns: seq<Turn>, i: nat)
    requires i < |rows| && Live(rows[i]) && StoreIsUp(turns)
    requires |turns| == MAX_RETRIES * LiveCount(rows[..i]) / BATCH + 1
    ensures AttemptedWithin(rows, turns, i)
  {
    WorkIsAtMostTenPerLive(rows[..i]);
    AttemptedOnceOlderWorkIsCovered(rows, turns, i);
  }

  function After(rows: seq<Record>, turns: seq<Turn>): seq<Record>
    decreases |turns|
  {
    if turns == [] then rows else After(Next(rows, turns[0]), turns[1..])
  }

  /** Nothing is lost: while the store is up and nothing arrives, after as many polls as there is work every
      record is published or out of retries. */
  lemma {:induction false} EverythingSettles(rows: seq<Record>, turns: seq<Turn>)
    requires StoreIsUp(turns) && (forall k | 0 <= k < |turns| :: turns[k].arrivals == [])
    requires |turns| >= Work(rows)
    ensures forall i | 0 <= i < |After(rows, turns)| :: !Live(After(rows, turns)[i])
    decreases |turns|
  {
    FetchedAreLive(rows, 0, BATCH);
    if turns == [] {
      NoWorkNoLive(rows);
    } else {
      PollMakesProgressExactly(rows, turns[0].world);
      assert Next(rows, turns[0]) == Poll(rows, turns[0].world);
      if Fetch(rows) == [] {
        forall i | 0 <= i < |rows| ensures !Live(rows[i]) {
          assert i !in Fetch(rows);
        }
        NoLiveNoWork(rows);
        assert Poll(rows, turns[0].world) == rows;
      }
      EverythingSettles(Next(rows, turns[0]), turns[1..]);
    }
  }

  lemma {:induction false} NoWorkNoLive(rows: seq<Record>)
    requires Work(rows) == 0
    ensures forall i | 0 <= i < |rows| :: !Live(rows[i])
  {
    if rows != [] {
      NoWorkNoLive(rows[1..]);
      assert forall i | 1 <= i < |rows| :: rows[i] == rows[1..][i - 1];
    }
  }

  lemma {:induction false} NoLiveNoWork(rows: seq<Record>)
    requires forall i | 0 <= i < |rows| :: !Live(rows[i])
    ensures Work(rows) == 0
  {
    if rows != [] {
      NoLiveNoWork(rows[1..]);
    }
  }

  // ----- deliveries -----

  /** Every delivery but the one that published was paid for with a retry. */
  predicate Accounted(r: Record) {
    r.deliveries <= r.retries + (if r.published then 1 else 0) && r.retries <= MAX_RETRIES
      && (r.published ==> r.retries < MAX_RETRIES)
  }

  /** So a record is delivered at most ten times; the account fails exactly when a delivery is neither
      marked nor counted. */
  lemma DeliveriesAreAccountedExactly(r: Record, result: Result)
    requires Live(r) && Accounted(r)
    ensures r.deliveries <= MAX_RETRIES
    ensures Accounted(Attempt(r, result)) <==> !(result == RetryFailed(true) && r.deliveries == r.retries)
    ensures Accounted(Attempt(r, result)) ==> Attempt(r, result).deliveries <= MAX_RETRIES
  {
  }

  // ----- overlapping polls: the timer does not wait for the previous batch -----

  /** The table and, for each poller, the ids of its batch that it has not attempted yet. */
  datatype System = System(rows: seq<Record>, batches: seq<seq<nat>>)

  datatype Action = Start(poller: nat) | AttemptNext(poller: nat, result: Result)

  function Act(s: System, a: Action): System {
    match a
    case Start(p) =>
      if p < |s.batches| && s.batches[p] == [] then s.(batches := s.batches[p := Fetch(s.rows)]) else s
    case AttemptNext(p, result) =>
      if p < |s.batches| && s.batches[p] != [] && s.batches[p][0] < |s.rows| then
        var id := s.batches[p][0];
        System(s.rows[id := Attempt(s.rows[id], result)],
               s.batches[p := if result.RetryFailed? then [] else s.batches[p][1..]])
      else s
  }

  function Acts(s: System, actions: seq<Action>): System
    decreases |actions|
  {
    if actions == [] then s else Acts(Act(s, actions[0]), actions[1..])
  }

  /** A poller goes through the rest of its batch while the others wait. */
  function WorkOff(s: System, p: nat, world: World): System
    requires p < |s.batches| && forall k | 0 <= k < |s.batches[p]| :: s.batches[p][k] < |s.rows|
    decreases |s.batches[p]|
  {
    if s.batches[p] == [] then s else WorkOff(Act(s, AttemptNext(p, world(s.batches[p][0]))), p, world)
  }

  lemma {:induction false} WorkingOffIsHandling(s: System, p: nat, world: World)
    requires p < |s.batches| && forall k | 0 <= k < |s.batches[p]| :: s.batches[p][k] < |s.rows|
    ensures WorkOff(s, p, world) == System(Handle(s.rows, s.batches[p], world), s.batches[p := []])
    decreases |s.batches[p]|
  {
    if s.batches[p] == [] {
      assert s.batches[p := []] == s.batches;
    } else {
      var next := Act(s, AttemptNext(p, world(s.batches[p][0])));
      WorkingOffIsHandling(next, p, world);
      assert next.batches[p := []] == s.batches[p := []];
      if world(s.batches[p][0]).RetryFailed? {
        assert next.batches[p] == [];
      }
    }
  }

  /** A batch that no other one interrupts is a poll, whatever batches the others hold. */
  lemma {:induction false} UninterruptedBatchIsAPoll(s: System, p: nat, world: World)
    requires p < |s.batches| && s.batches[p] == []
    ensures var started := Act(s, Start(p));
            && (forall k | 0 <= k < |started.batches[p]| :: started.batches[p][k] < |s.rows|)
            && WorkOff(started, p, world) == System(Poll(s.rows, world), s.batches)
  {
    FetchedAreLive(s.rows, 0, BATCH);
    var started := Act(s, Start(p));
    assert started.batches[p] == Fetch(s.rows);
    WorkingOffIsHandling(started, p, world);
    assert s.batches[p := Fetch(s.rows)][p := []] == s.batches;
  }

  /** How many pollers still hold a record. */
  function Holders(batches: seq<seq<nat>>, id: nat): nat {
    if batches == [] then 0 else (if id in batches[0] then 1 else 0) + Holders(batches[1..], id)
  }

  lemma {:induction false} HoldersAfterUpdate(batches: seq<seq<nat>>, p: nat, batch: seq<nat>, id: nat)
    requires p < |batches|
    ensures Holders(batches[p := batch], id)
         == Holders(batches, id) - (if id in batches[p] then 1 else 0) + if id in batch then 1 else 0
    ensures id !in batches[p] ==> Holders(batches, id) < |batches|
    ensures Holders(batches, id) <= |batches|
  {
    if p > 0 {
      assert batches[p := batch][1..] == batches[1..][p - 1 := batch];
      HoldersAfterUpdate(batches[1..], p - 1, batch, id);
    } else {
      assert batches[p := batch][1..] == batches[1..];
      if |batches| > 1 {
        HoldersAfterUpdate(batches[1..], 0, batches[1], id);
      }
    }
  }

  /** Batches are ascending, and retries made plus retries still possible stay below the bound. */
  ghost predicate Bounded(s: System) {
    && (forall p | 0 <= p < |s.batches| :: forall j, k | 0 <= j < k < |s.batches[p]| ::
      s.batches[p][j] < s.batches[p][k])
    && (forall i | 0 <= i < |s.rows| :: s.rows[i].retries + Holders(s.batches, i) < MAX_RETRIES + |s.batches|)
  }

  lemma StartKeepsBound(s: System, p: nat)
    requires Bounded(s)
    ensures Bounded(Act(s, Start(p)))
  {
    if p < |s.batches| && s.batches[p] == [] {
      FetchedAreLive(s.rows, 0, BATCH);
      forall i | 0 <= i < |s.rows|
        ensures s.rows[i].retries + Holders(Act(s, Start(p)).batches, i) < MAX_RETRIES + |s.batches| {
        HoldersAfterUpdate(s.batches, p, Fetch(s.rows), i);
      }
    }
  }

  lemma AttemptKeepsBound(s: System, p: nat, result: Result)
    requires Bounded(s)
    ensures Bounded(Act(s, AttemptNext(p, result)))
  {
    if p < |s.batches| && s.batches[p] != [] && s.batches[p][0] < |s.rows| {
      var after := Act(s, AttemptNext(p, result));
      var left := after.batches[p];
      forall i | 0 <= i < |s.rows|
        ensures after.rows[i].retries + Holders(after.batches, i) < MAX_RETRIES + |s.batches| {
        HoldersAfterUpdate(s.batches, p, left, i);
        assert i in left ==> i in s.batches[p] && i != s.batches[p][0];
      }
    }
  }

  /** With P batches in flight at a time no record is retried more than 9 + P times: ten with one poller. */
  lemma {:induction false} RetriesWithOverlappingPolls(s: System, actions: seq<Action>)
    requires Bounded(s)
    ensures Bounded(Acts(s, actions)) && |Acts(s, actions).batches| == |s.batches|
    ensures forall i | 0 <= i < |Acts(s, actions).rows| ::
      Acts(s, actions).rows[i].retries <= MAX_RETRIES - 1 + |s.batches|
    decreases |actions|
  {
    if actions != [] {
      match actions[0] {
        case Start(p) => StartKeepsBound(s, p);
        case AttemptNext(p, result) => AttemptKeepsBound(s, p, result);
      }
      RetriesWithOverlappingPolls(Act(s, actions[0]), actions[1..]);
    }
  }

  /** One record with nine retries that k pollers hold, p to p + k - 1. */
  function Held(total: nat, p: nat, k: nat, retries: nat): System
    requires p + k <= total
  {
    System([Record(false, retries, 0)], seq(total, i requires 0 <= i < total => if p <= i < p + k then [0] else []))
  }

  function Starts(p: nat, k: nat): seq<Action>
    decreases k
  {
    if k == 0 then [] else [Start(p)] + Starts(p + 1, k - 1)
  }

  function Failures(p: nat, k: nat): seq<Action>
    decreases k
  {
    if k == 0 then [] else [AttemptNext(p, PublishFailed)] + Failures(p + 1, k - 1)
  }

  lemma {:induction false} AllStart(total: nat, p: nat, k: nat)
    requires p + k == total
    ensures Acts(Held(total, 0, p, 9), Starts(p, k)) == Held(total, 0, total, 9)
    decreases k
  {
    if k > 0 {
      var s := Held(total, 0, p, 9);
      assert Fetch(s.rows) == [0] by {
        assert Find(s.rows, 1, BATCH - 1) == [];
      }
      assert Act(s, Start(p)) == Held(total, 0, p + 1, 9);
      AllStart(total, p + 1, k - 1);
      assert Starts(p, k)[1..] == Starts(p + 1, k - 1);
    }
  }

  lemma {:induction false} AllFail(total: nat, p: nat, k: nat)
    requires p + k == total
    ensures var rows := Acts(Held(total, p, k, 9 + p), Failures(p, k)).rows; |rows| == 1 && rows[0].retries == 9 + total
    decreases k
  {
    if k > 0 {
      var s := Held(total, p, k, 9 + p);
      assert s.batches[p][1..] == [];
      assert Act(s, AttemptNext(p, PublishFailed)) == Held(total, p + 1, k - 1, 10 + p);
      AllFail(total, p + 1, k - 1);
      assert Failures(p, k)[1..] == Failures(p + 1, k - 1);
    }
  }

  lemma {:induction false} ActsAppend(s: System, xs: seq<Action>, ys: seq<Action>)
    ensures Acts(s, xs + ys) == Acts(Acts(s, xs), ys)
    decreases |xs|
  {
    if xs == [] {
      assert xs + ys == ys;
    } else {
      assert (xs + ys)[1..] == xs[1..] + ys;
      ActsAppend(Act(s, xs[0]), xs[1..], ys);
    }
  }

  /** The bound is reached: P pollers that all fetch before any of them fails take a record from nine
      retries to 9 + P, past the limit of ten as soon as two overlap. */
  lemma {:induction false} OverlapReachesTheBound(pollers: nat)
    ensures var rows := Acts(Held(pollers, 0, 0, 9), Starts(0, pollers) + Failures(0, pollers)).rows;
            |rows| == 1 && rows[0].retries == MAX_RETRIES - 1 + pollers
  {
    ActsAppend(Held(pollers, 0, 0, 9), Starts(0, pollers), Failures(0, pollers));
    AllStart(pollers, 0, pollers);
    AllFail(pollers, 0, pollers);
  }
}
