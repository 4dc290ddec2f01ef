/** Event submission as a protocol: concurrent submitters and replays of one event, the execution row that
    claims it, and the journals that gl-service keeps by idempotency key. */
module SubmitProtocol {
  import opened Sums

  datatype Status = InProgress | ReplayInProgress | Posted | Rejected | NoRuleMatch

  /** The row that is unique by event id, with the hash of the content that claimed it. */
  datatype Execution = Execution(hash: nat, status: Status)

  /** The idempotency key of the first submission, or of a replay under a rule-pack version. */
  datatype Key = Original | Replayed(version: nat)

  datatype Result = Answer(status: Status, idempotent: bool) | IdentityConflict

  /** Where a caller is: nothing yet, past the duplicate check, about to call gl-service, back from it, or done. */
  datatype Place =
    | Idle
    | Evaluating(hash: nat)
    | Sending(key: Key, hash: nat)
    | Finishing(key: Key, hash: nat, ok: bool)
    | Done(result: Result)

  /** journals holds the content posted under each key; sends counts the calls to gl-service under the original key. */
  datatype System = System(execution: Option<Execution>, journals: map<Key, nat>, callers: seq<Place>, sends: nat)

  /** reaches says whether gl-service handles the call, answered whether its success comes back. */
  datatype Action =
    | Arrive(caller: nat, hash: nat)
    | Settle(caller: nat, status: Status)
    | Claim(caller: nat)
    | Send(caller: nat, reaches: bool, answered: bool)
    | Finish(caller: nat)
    | Crash(caller: nat)
    | Replay(caller: nat, version: nat)

  function At(s: System, c: nat, p: Place): System
    requires c < |s.callers|
  {
    s.(callers := s.callers[c := p])
  }

  function Act(s: System, a: Action): System {
    if a.caller >= |s.callers| then s else
      var c := a.caller;
      match (a, s.callers[c])
      case (Arrive(_, hash), Idle) =>
        if s.execution.None? then At(s, c, Evaluating(hash))
        else if s.execution.value.hash == hash then At(s, c, Done(Answer(s.execution.value.status, true)))
        else At(s, c, Done(IdentityConflict))
      case (Settle(_, status), Evaluating(hash)) =>
        if status != Rejected && status != NoRuleMatch then s
        else if s.execution.None?
          then At(s.(execution := Some(Execution(hash, status))), c, Done(Answer(status, false)))
        else At(s, c, Done(Answer(s.execution.value.status, false)))
      case (Claim(_), Evaluating(hash)) =>
        if s.execution.None? then At(s.(execution := Some(Execution(hash, InProgress))), c, Sending(Original, hash))
        else At(s, c, Done(Answer(s.execution.value.status, true)))
      case (Send(_, reaches, answered), Sending(key, hash)) =>
        At(s.(journals := if reaches && key !in s.journals then s.journals[key := hash] else s.journals,
              sends := if key.Original? then s.sends + 1 else s.sends), c, Finishing(key, hash, reaches && answered))
      case (Finish(_), Finishing(key, hash, ok)) =>
        var status := if ok then Posted else Rejected;
        if s.execution.None? then s
        else At(s.(execution := Some(s.execution.value.(status := status))), c, Done(Answer(status, false)))
      case (Crash(_), _) => At(s, c, Idle)
      case (Replay(_, version), Idle) =>
        if s.execution.None? || s.execution.value.status == Posted then s
        else At(s.(execution := Some(s.execution.value.(status := ReplayInProgress))), c,
          Sending(Replayed(version), s.execution.value.hash))
      case _ => s
  }

  function Acts(s: System, actions: seq<Action>): System
    decreases |actions|
  {
    if actions == [] then s else Acts(Act(s, actions[0]), actions[1..])
  }

  /** Nothing received yet. */
  predicate Fresh(s: System) {
    s.execution.None? && s.journals == map[] && s.sends == 0 && forall c | 0 <= c < |s.callers| :: s.callers[c] == Idle
  }

  // ----- what every interleaving keeps -----

  predicate InBridge(p: Place) { p.Sending? || p.Finishing? }

  predicate SendsOriginal(p: Place) { p.Sending? && p.key == Original }

  ghost predicate Sound(s: System) {
    // every journal, and every caller on the way to one, carries the content that claimed the event
    && (forall k | k in s.journals :: s.execution.Some? && s.journals[k] == s.execution.value.hash)
    && (forall c | 0 <= c < |s.callers| && InBridge(s.callers[c]) ::
      s.execution.Some? && s.callers[c].hash == s.execution.value.hash)
    // a success that came back, and a posted event, have a journal
    && (forall c | 0 <= c < |s.callers| && s.callers[c].Finishing? && s.callers[c].ok :: s.callers[c].key in s.journals)
    && (s.execution.Some? && s.execution.value.status == Posted ==> s.journals != map[])
    // gl-service is called under the original key at most once
    && (s.execution.None? ==> s.sends == 0)
    && (forall c, d | 0 <= c < d < |s.callers| :: !(SendsOriginal(s.callers[c]) && SendsOriginal(s.callers[d])))
    && (forall c | 0 <= c < |s.callers| && SendsOriginal(s.callers[c]) :: s.sends == 0)
    && s.sends <= 1
    && (Original in s.journals ==> s.sends == 1)
  }

  lemma ArriveStaysSound(s: System, c: nat, hash: nat)
    requires Sound(s)
    ensures Sound(Act(s, Arrive(c, hash)))
  {
  }

  lemma SettleStaysSound(s: System, c: nat, status: Status)
    requires Sound(s)
    ensures Sound(Act(s, Settle(c, status)))
  {
  }

  lemma ClaimStaysSound(s: System, c: nat)
    requires Sound(s)
    ensures Sound(Act(s, Claim(c)))
  {
  }

  lemma SendStaysSound(s: System, c: nat, reaches: bool, answered: bool)
    requires Sound(s)
    ensures Sound(Act(s, Send(c, reaches, answered)))
  {
  }

  lemma FinishStaysSound(s: System, c: nat)
    requires Sound(s)
    ensures Sound(Act(s, Finish(c)))
  {
    if c < |s.callers| && s.callers[c].Finishing? && s.callers[c].ok {
      assert s.callers[c].key in s.journals;
    }
  }

  lemma OthersStaySound(s: System, a: Action)
    requires Sound(s) && (a.Crash? || a.Replay?)
    ensures Sound(Act(s, a))
  {
  }

  lemma EveryActionStaysSound(s: System, a: Action)
    requires Sound(s)
    ensures Sound(Act(s, a))
  {
    match a
    case Arrive(c, hash) => ArriveStaysSound(s, c, hash);
    case Settle(c, status) => SettleStaysSound(s, c, status);
    case Claim(c) => ClaimStaysSound(s, c);
    case Send(c, reaches, answered) => SendStaysSound(s, c, reaches, answered);
    case Finish(c) => FinishStaysSound(s, c);
    case _ => OthersStaySound(s, a);
  }

  lemma {:induction false} RunsStaySound(s: System, actions: seq<Action>)
    requires Sound(s)
    ensures Sound(Acts(s, actions))
    decreases |actions|
  {
    if actions != [] {
      EveryActionStaysSound(s, actions[0]);
      RunsStaySound(Act(s, actions[0]), actions[1..]);
    }
  }

  lemma FreshIsSound(s: System)
    requires Fresh(s)
    ensures Sound(s) && AtMostOne(s)
  {
  }

  /** In every interleaving of any number of callers, with crashes, lost answers and replays: the original key is used
      at most once, every journal carries the content that claimed the event, and POSTED means that there is one. */
  lemma {:induction false} EveryRunIsSound(s: System, actions: seq<Action>)
    requires Fresh(s)
    ensures Sound(Acts(s, actions))
  {
    FreshIsSound(s);
    RunsStaySound(s, actions);
  }

  // ----- one journal per event -----

  /** No journal yet, and nobody on the way to one. */
  predicate Quiet(s: System) {
    s.journals == map[] && forall c | 0 <= c < |s.callers| :: !s.callers[c].Sending?
  }

  /** Replays start only when it is certain that no journal exists. */
  predicate CarefulReplays(s: System, actions: seq<Action>)
    decreases |actions|
  {
    actions != [] ==> (actions[0].Replay? ==> Quiet(s)) && CarefulReplays(Act(s, actions[0]), actions[1..])
  }

  ghost predicate AtMostOne(s: System) {
    && (forall k, l | k in s.journals && l in s.journals :: k == l)
    && (forall c, d | 0 <= c < d < |s.callers| :: !(s.callers[c].Sending? && s.callers[d].Sending?))
    && (forall c | 0 <= c < |s.callers| && s.callers[c].Sending? :: s.journals == map[])
  }

  lemma CarefulStep(s: System, a: Action)
    requires Sound(s) && AtMostOne(s) && (a.Replay? ==> Quiet(s))
    ensures AtMostOne(Act(s, a))
  {
  }

  lemma {:induction false} CarefulActions(s: System, actions: seq<Action>)
    requires Sound(s) && AtMostOne(s) && CarefulReplays(s, actions)
    ensures AtMostOne(Acts(s, actions))
    decreases |actions|
  {
    if actions != [] {
      CarefulStep(s, actions[0]);
      EveryActionStaysSound(s, actions[0]);
      CarefulActions(Act(s, actions[0]), actions[1..]);
    }
  }

  lemma AtMostOneJournal(s: System)
    requires AtMostOne(s)
    ensures |s.journals| <= 1
  {
    if k :| k in s.journals {
      assert s.journals.Keys == {k};
      assert |s.journals| == |s.journals.Keys|;
    } else {
      assert s.journals == map[];
    }
  }

  /** Exactly one ledger effect: as long as replays are careful, in particular without replays, no interleaving posts
      an event twice. */
  lemma {:induction false} CarefulRunsPostAtMostOnce(s: System, actions: seq<Action>)
    requires Fresh(s) && CarefulReplays(s, actions)
    ensures |Acts(s, actions).journals| <= 1
  {
    FreshIsSound(s);
    CarefulActions(s, actions);
    AtMostOneJournal(Acts(s, actions));
  }

  predicate NoReplays(actions: seq<Action>) {
    forall i | 0 <= i < |actions| :: !actions[i].Replay?
  }

  lemma {:induction false} NoReplaysAreCareful(s: System, actions: seq<Action>)
    requires NoReplays(actions)
    ensures CarefulReplays(s, actions)
    decreases |actions|
  {
    if actions != [] {
      assert !actions[0].Replay? && forall i | 0 <= i < |actions[1..]| :: actions[1..][i] == actions[i + 1];
      NoReplaysAreCareful(Act(s, actions[0]), actions[1..]);
    }
  }

  /** No journal has the replay's key, and no caller is about to send under it. */
  predicate NewVersion(s: System, version: nat) {
    && Replayed(version) !in s.journals
    && forall c | 0 <= c < |s.callers| && s.callers[c].Sending? :: s.callers[c].key != Replayed(version)
  }

  /** After the replay starts, whatever its caller and the others do, short of another replay, the event has at most
      one journal. */
  ghost predicate NeverPostsTwice(s: System) {
    forall actions | NoReplays(actions) :: |Acts(s, actions).journals| <= 1
  }

  lemma TwoJournals(s: System, k: Key, l: Key)
    requires k in s.journals && l in s.journals && k != l
    ensures |s.journals| >= 2
  {
    assert {k, l} <= s.journals.Keys && |s.journals| == |s.journals.Keys|;
    SubsetSize({k, l}, s.journals.Keys);
  }

  lemma SubsetSize(a: set<Key>, b: set<Key>)
    requires a <= b
    ensures |a| <= |b|
  {
    assert b == a + (b - a);
  }

  /** With a journal there already, the replay's own call adds one. */
  lemma ReplayAddsToAJournal(s: System, c: nat, version: nat, k: Key)
    requires c < |s.callers| && s.callers[c] == Idle && s.execution.Some? && s.execution.value.status != Posted
    requires NewVersion(s, version) && k in s.journals
    ensures !NeverPostsTwice(Act(s, Replay(c, version)))
  {
    var started := Act(s, Replay(c, version));
    var actions := [Send(c, true, true)];
    assert actions[1..] == [] && Acts(started, actions) == Act(started, actions[0]);
    assert k != Replayed(version);
    TwoJournals(Acts(started, actions), k, Replayed(version));
    assert NoReplays(actions);
  }

  /** With a caller on its way, both calls can reach gl-service. */
  lemma ReplayAddsToACaller(s: System, c: nat, version: nat, d: nat)
    requires c < |s.callers| && s.callers[c] == Idle && s.execution.Some? && s.execution.value.status != Posted
    requires NewVersion(s, version) && d < |s.callers| && s.callers[d].Sending?
    ensures !NeverPostsTwice(Act(s, Replay(c, version)))
  {
    var started := Act(s, Replay(c, version));
    var actions := [Send(d, true, true), Send(c, true, true)];
    assert actions[1..] == [Send(c, true, true)];
    var first := Act(started, Send(d, true, true));
    assert first.callers[c] == started.callers[c] && s.callers[d].key in first.journals;
    var second := [Send(c, true, true)];
    assert second[1..] == [] && Acts(first, second) == Act(first, second[0]);
    assert Acts(started, actions) == Acts(first, second);
    TwoJournals(Acts(started, actions), s.callers[d].key, Replayed(version));
    assert NoReplays(actions);
  }

  /** When a replay is safe: exactly when no journal exists and nobody is on the way to one. In particular it is not
      while a submitter has claimed the event and not yet called gl-service, although the replay is admitted then. */
  lemma ReplayIsSafeExactlyWhenQuiet(s: System, c: nat, version: nat)
    requires Sound(s) && AtMostOne(s) && c < |s.callers| && s.callers[c] == Idle
    requires s.execution.Some? && s.execution.value.status != Posted && NewVersion(s, version)
    ensures Quiet(s) <==> NeverPostsTwice(Act(s, Replay(c, version)))
  {
    var a := Replay(c, version);
    if Quiet(s) {
      CarefulStep(s, a);
      EveryActionStaysSound(s, a);
      forall actions | NoReplays(actions) ensures |Acts(Act(s, a), actions).journals| <= 1 {
        NoReplaysAreCareful(Act(s, a), actions);
        CarefulActions(Act(s, a), actions);
        AtMostOneJournal(Acts(Act(s, a), actions));
      }
    } else if k :| k in s.journals {
      ReplayAddsToAJournal(s, c, version, k);
    } else {
      assert s.journals == map[];
      var d :| 0 <= d < |s.callers| && s.callers[d].Sending?;
      ReplayAddsToACaller(s, c, version, d);
    }
  }

  /** The same for every replay that a careful run comes to. */
  lemma {:induction false} NextReplayIsSafeExactlyWhenQuiet(start: System, actions: seq<Action>, c: nat, version: nat)
    requires Fresh(start) && CarefulReplays(start, actions)
    requires var s := Acts(start, actions);
             && c < |s.callers| && s.callers[c] == Idle
             && s.execution.Some? && s.execution.value.status != Posted && NewVersion(s, version)
    ensures var s := Acts(start, actions); Quiet(s) <==> NeverPostsTwice(Act(s, Replay(c, version)))
  {
    FreshIsSound(start);
    RunsStaySound(start, actions);
    CarefulActions(start, actions);
    ReplayIsSafeExactlyWhenQuiet(Acts(start, actions), c, version);
  }

  /** A replay that is not careful can post a second time: from any sound state that has a journal and is not POSTED,
      replaying under a version not used yet adds another journal, since its key is a new one. */
  lemma CarelessReplayPostsAgain(s: System, c: nat, version: nat)
    requires Sound(s) && c < |s.callers| && s.callers[c] == Idle
    requires s.journals != map[] && s.execution.value.status != Posted && Replayed(version) !in s.journals
    ensures var after := Act(Act(Act(s, Replay(c, version)), Send(c, true, true)), Finish(c));
            |after.journals| == |s.journals| + 1 && after.execution.value.status == Posted
  {
    var sent := Act(Act(s, Replay(c, version)), Send(c, true, true));
    assert sent.journals == s.journals[Replayed(version) := s.execution.value.hash];
    assert sent.journals.Keys == s.journals.Keys + {Replayed(version)};
    assert |sent.journals| == |sent.journals.Keys| && |s.journals| == |s.journals.Keys|;
  }

  /** Such a state is reached by a lost answer: the journal is there, the execution says REJECTED. */
  lemma LostAnswerLeavesAJournalBehind(s: System, c: nat, hash: nat)
    requires Fresh(s) && c < |s.callers|
    ensures var after := Act(Act(Act(Act(s, Arrive(c, hash)), Claim(c)), Send(c, true, false)), Finish(c));
            after.execution == Some(Execution(hash, Rejected)) && after.journals == map[Original := hash]
  {
    var s2 := Act(Act(s, Arrive(c, hash)), Claim(c));
    assert s2.callers[c] == Sending(Original, hash);
    var s3 := Act(s2, Send(c, true, false));
    assert s3.callers[c] == Finishing(Original, hash, false);
  }

  // ----- a posted event -----

  /** The event is POSTED, and nobody is on the way to gl-service or back from it. */
  predicate Settled(s: System) {
    && s.execution.Some? && s.execution.value.status == Posted
    && forall c | 0 <= c < |s.callers| :: !InBridge(s.callers[c])
  }

  lemma SettledStep(s: System, a: Action)
    requires Settled(s)
    ensures Settled(Act(s, a)) && Act(s, a).journals == s.journals && Act(s, a).execution == s.execution
  {
  }

  lemma {:induction false} SettledRuns(s: System, actions: seq<Action>)
    requires Settled(s)
    ensures Settled(Acts(s, actions)) && Acts(s, actions).journals == s.journals
    ensures Acts(s, actions).execution == s.execution
    decreases |actions|
  {
    if actions != [] {
      SettledStep(s, actions[0]);
      SettledRuns(Act(s, actions[0]), actions[1..]);
    }
  }

  /** POSTED is final: whatever run has led there, once nobody is in the bridge no action of anybody, resubmission and
      replay included, adds a journal or takes the status back; and there is a journal. */
  lemma {:induction false} PostedIsFinal(start: System, before: seq<Action>, after: seq<Action>)
    requires Fresh(start) && Settled(Acts(start, before))
    ensures var s, later := Acts(start, before), Acts(Acts(start, before), after);
            later.journals == s.journals != map[] && later.execution == s.execution && Settled(later)
  {
    EveryRunIsSound(start, before);
    SettledRuns(Acts(start, before), after);
  }

  // ----- who is told that the event is new -----

  predicate ToldNew(p: Place) { p.Done? && p.result.Answer? && !p.result.idempotent }

  /** On the way to gl-service, back from it, or answered as the first. */
  predicate First(p: Place) { InBridge(p) || ToldNew(p) }

  /** Nobody is first while the row is not there; then one caller is, in the bridge as long as the row says so, and
      after that answered with what the row says. */
  ghost predicate OneIsFirst(s: System) {
    && (forall c | 0 <= c < |s.callers| && First(s.callers[c]) ::
          s.execution.Some?
          && (InBridge(s.callers[c]) <==> s.execution.value.status == InProgress)
          && (ToldNew(s.callers[c]) ==> s.callers[c].result.status == s.execution.value.status))
    && (s.execution.Some? ==> exists c | 0 <= c < |s.callers| :: First(s.callers[c]))
    && (forall c, d | 0 <= c < d < |s.callers| :: !(First(s.callers[c]) && First(s.callers[d])))
  }

  /** No replay, no crash of the first caller, and nobody gives the event up when another one already has the row. */
  predicate Undisturbed(s: System, actions: seq<Action>)
    decreases |actions|
  {
    actions != [] ==>
      && !actions[0].Replay?
      && (actions[0].Settle? ==> s.execution.None?)
      && (actions[0].Crash? && actions[0].caller < |s.callers| ==> !First(s.callers[actions[0].caller]))
      && Undisturbed(Act(s, actions[0]), actions[1..])
  }

  /** An action of one caller that is first neither before nor after it. */
  lemma OthersAct(s: System, c: nat, p: Place)
    requires OneIsFirst(s) && c < |s.callers| && !First(s.callers[c]) && !First(p)
    ensures OneIsFirst(At(s, c, p))
  {
    if s.execution.Some? {
      var d :| 0 <= d < |s.callers| && First(s.callers[d]);
      assert At(s, c, p).callers[d] == s.callers[d];
    }
  }

  /** The first caller gets on. */
  lemma FirstActs(s: System, after: System, c: nat)
    requires OneIsFirst(s) && c < |s.callers| && (First(s.callers[c]) || s.execution.None?)
    requires after.execution.Some? && |after.callers| == |s.callers|
    requires after.callers == s.callers[c := after.callers[c]] && First(after.callers[c])
    requires InBridge(after.callers[c]) <==> after.execution.value.status == InProgress
    requires ToldNew(after.callers[c]) ==> after.callers[c].result.status == after.execution.value.status
    ensures OneIsFirst(after)
  {
    forall d | 0 <= d < |after.callers| && d != c ensures !First(after.callers[d]) {
      assert after.callers[d] == s.callers[d];
    }
  }

  lemma {:induction false} OneIsFirstStep(s: System, a: Action)
    requires OneIsFirst(s) && Undisturbed(s, [a])
    ensures OneIsFirst(Act(s, a))
  {
    var after, c := Act(s, a), a.caller;
    if c < |s.callers| && after != s {
      if First(after.callers[c]) {
        FirstActs(s, after, c);
      } else {
        OthersAct(s, c, after.callers[c]);
      }
    }
  }

  lemma {:induction false} OneIsFirstThroughout(s: System, actions: seq<Action>)
    requires OneIsFirst(s) && Undisturbed(s, actions)
    ensures OneIsFirst(Acts(s, actions))
    decreases |actions|
  {
    if actions != [] {
      assert [actions[0]][1..] == [];
      OneIsFirstStep(s, actions[0]);
      OneIsFirstThroughout(Act(s, actions[0]), actions[1..]);
    }
  }

  /** Of all the submitters of an event exactly one is told that it is new, with the status that the row has; every
      other answer says duplicate, and so does the answer to whoever submits the same content from then on. */
  lemma {:induction false} ExactlyOneIsToldItIsNew(start: System, actions: seq<Action>)
    requires Fresh(start) && Undisturbed(start, actions)
    requires var s := Acts(start, actions); s.execution.Some? && s.execution.value.status != InProgress
    ensures var s := Acts(start, actions);
            && (exists c | 0 <= c < |s.callers| ::
                  s.callers[c] == Done(Answer(s.execution.value.status, false))
                  && forall d | 0 <= d < |s.callers| && d != c :: !InBridge(s.callers[d]) && !ToldNew(s.callers[d]))
            && (forall d | 0 <= d < |s.callers| && s.callers[d] == Idle ::
                  Act(s, Arrive(d, s.execution.value.hash))
                    == s.(callers := s.callers[d := Done(Answer(s.execution.value.status, true))]))
  {
    OneIsFirstThroughout(start, actions);
    var s := Acts(start, actions);
    var c :| 0 <= c < |s.callers| && First(s.callers[c]);
    assert s.callers[c] == Done(Answer(s.execution.value.status, false));
    assert forall d | 0 <= d < |s.callers| && d != c :: !First(s.callers[d]);
  }

  /** But a caller that gives the event up after another one did is told so too: it is answered with the other's
      status as if it were its own. */
  lemma LateSettlerIsToldItIsNew(s: System, c: nat, d: nat, hash: nat)
    requires Fresh(s) && c < |s.callers| && d < |s.callers| && c != d
    ensures var both := Act(Act(s, Arrive(c, hash)), Arrive(d, hash));
            var after := Act(Act(both, Settle(c, Rejected)), Settle(d, NoRuleMatch));
            after.callers[c] == after.callers[d] == Done(Answer(Rejected, false))
  {
    var both := Act(Act(s, Arrive(c, hash)), Arrive(d, hash));
    assert both.callers[c] == Evaluating(hash) && both.callers[d] == Evaluating(hash);
    var settled := Act(both, Settle(c, Rejected));
    assert settled.callers[d] == Evaluating(hash) && settled.callers[c] == Done(Answer(Rejected, false));
    assert settled.execution == Some(Execution(hash, Rejected));
  }

  // ----- different content under the same event id -----

  /** The content that claimed the event stays, and a row once there is not lost. */
  predicate KeepsTheClaim(s: System, after: System) {
    s.execution.Some? ==> after.execution.Some? && after.execution.value.hash == s.execution.value.hash
  }

  lemma {:induction false} ClaimsStay(s: System, actions: seq<Action>)
    ensures KeepsTheClaim(s, Acts(s, actions)) && |Acts(s, actions).callers| == |s.callers|
    decreases |actions|
  {
    if actions != [] { ClaimsStay(Act(s, actions[0]), actions[1..]); }
  }

  /** Whoever arrived before the claim and has not claimed is never told of a conflict: it is evaluating, answered as a
      duplicate, or has crashed away. */
  predicate Unaware(s: System, c: nat, hash: nat)
    requires c < |s.callers|
  {
    || s.callers[c] == Evaluating(hash)
    || (s.callers[c].Done? && s.callers[c].result.Answer?)
    || (s.execution.Some? && s.execution.value.hash == hash)
  }

  predicate NoCrash(actions: seq<Action>, c: nat) {
    forall i | 0 <= i < |actions| :: actions[i] != Crash(c)
  }

  lemma UnawareStep(s: System, c: nat, hash: nat, a: Action)
    requires c < |s.callers| && Unaware(s, c, hash) && a != Crash(c)
    ensures c < |Act(s, a).callers| && Unaware(Act(s, a), c, hash)
  {
  }

  lemma {:induction false} UnawareStays(s: System, c: nat, hash: nat, actions: seq<Action>)
    requires c < |s.callers| && Unaware(s, c, hash) && NoCrash(actions, c)
    ensures c < |Acts(s, actions).callers| && Unaware(Acts(s, actions), c, hash)
    decreases |actions|
  {
    if actions != [] {
      UnawareStep(s, c, hash, actions[0]);
      assert forall i | 0 <= i < |actions[1..]| :: actions[1..][i] == actions[i + 1];
      UnawareStays(Act(s, actions[0]), c, hash, actions[1..]);
    }
  }

  lemma {:induction false} DoneStays(s: System, c: nat, actions: seq<Action>)
    requires c < |s.callers| && s.callers[c].Done? && NoCrash(actions, c)
    ensures c < |Acts(s, actions).callers| && Acts(s, actions).callers[c] == s.callers[c]
    decreases |actions|
  {
    if actions != [] {
      assert forall i | 0 <= i < |actions[1..]| :: actions[1..][i] == actions[i + 1];
      DoneStays(Act(s, actions[0]), c, actions[1..]);
    }
  }

  /** In every run in which other content claims the event, and whenever the caller arrives, its content never reaches
      the ledger; but it is told of the conflict exactly when the event had been claimed before it arrived. One that
      passed the duplicate check earlier is, if anything, answered as a duplicate. */
  lemma {:induction false} ConflictIsToldExactlyToLateArrivals(
      start: System, before: seq<Action>, c: nat, hash: nat, actions: seq<Action>)
    requires Fresh(start) && c < |start.callers| && NoCrash(actions, c)
    requires var s := Acts(start, before); c < |s.callers| && s.callers[c] == Idle
    requires var after := Acts(Act(Acts(start, before), Arrive(c, hash)), actions);
             after.execution.Some? && after.execution.value.hash != hash
    ensures var s := Acts(start, before);
            var after := Acts(Act(s, Arrive(c, hash)), actions);
            && c < |after.callers|
            && (forall k | k in after.journals :: after.journals[k] != hash)
            && (after.callers[c] == Done(IdentityConflict) <==> s.execution.Some?)
            && (s.execution.None? && after.callers[c].Done? ==> after.callers[c].result.Answer?)
  {
    var s := Acts(start, before);
    var arrived := Act(s, Arrive(c, hash));
    FreshIsSound(start);
    RunsStaySound(start, before);
    EveryActionStaysSound(s, Arrive(c, hash));
    RunsStaySound(arrived, actions);
    ClaimsStay(arrived, actions);
    if s.execution.Some? {
      DoneStays(arrived, c, actions);
    } else {
      UnawareStays(arrived, c, hash, actions);
    }
  }

  /** Content that differs from the claimed one never reaches the ledger, but it is refused as a conflict only if it
      arrives after the claim: if both pass the duplicate check first, the loser is told that it is a duplicate. */
  lemma LateConflictIsReportedAsDuplicate(s: System, c: nat, d: nat, first: nat, second: nat)
    requires Fresh(s) && c < |s.callers| && d < |s.callers| && c != d && first != second
    ensures var raced := Act(Act(Act(Act(s, Arrive(c, first)), Arrive(d, second)), Claim(c)), Claim(d));
            raced.callers[d] == Done(Answer(InProgress, true)) && raced.execution.value.hash == first
    ensures var serial := Act(Act(Act(s, Arrive(c, first)), Claim(c)), Arrive(d, second));
            serial.callers[d] == Done(IdentityConflict) && serial.execution.value.hash == first
  {
    var both := Act(Act(s, Arrive(c, first)), Arrive(d, second));
    assert both.callers[c] == Evaluating(first) && both.callers[d] == Evaluating(second);
    var claimed := Act(both, Claim(c));
    assert claimed.callers[d] == Evaluating(second) && claimed.execution == Some(Execution(first, InProgress));
    var alone := Act(Act(s, Arrive(c, first)), Claim(c));
    assert alone.callers[d] == Idle && alone.execution == Some(Execution(first, InProgress));
  }
}
