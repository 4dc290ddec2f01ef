/** The chargeback reserve of one control number: accruals, draws split between the reserve and expense,
    and the executor that posts the legs before it records the draw. */
module Chargeback {
  import opened Sums
  import PostingDsl
  import RulePacks
  import Ledger
  import FixturePacks
  import LedgerRuns

  // ----- the split -----

  datatype Split = Split(draw: nat, excess: nat)

  /** computeChargebackDraw: none for an amount that is not positive or a balance that is negative. */
  function Compute(amount: int, balance: int): Option<Split> {
    if amount <= 0 || balance < 0 then None else Some(Split(Min(amount, balance), amount - Min(amount, balance)))
  }

  /** The draw is the most that amount and balance allow, and nothing is lost. */
  lemma SplitIsTheLargestDraw(amount: int, balance: int, other: Split)
    requires Compute(amount, balance).Some?
    requires other.draw + other.excess == amount && other.draw <= balance
    ensures var s := Compute(amount, balance).value;
            s.draw + s.excess == amount && s.draw <= balance && other.draw <= s.draw
  {
  }

  // ----- executions, cut off anywhere and overlapping -----

  type Key = nat

  /** A stored draw. */
  datatype Draw = Draw(key: Key, split: Split)

  /** An execution in progress: its key, the balance it read and the split it computed from it, and what the posting
      engine accepted of its draw leg. */
  datatype Execution = Execution(key: Key, seen: int, split: Split, posted: nat)

  /** accrued and draws are the service's own records; glAccrued and glDrawn are the reserve's totals in the general
      ledger. */
  datatype Reserve = Reserve(
    accrued: nat, draws: seq<Draw>, running: map<nat, Execution>, glAccrued: nat, glDrawn: nat)

  /** An accrual leg may be refused and is recorded nonetheless, or be accepted and never recorded. */
  datatype Action =
    | Accrue(income: nat, posted: bool, recorded: bool)
    | Begin(worker: nat, key: Key, amount: int)
    | PostDraw(worker: nat, accepted: bool)
    | Record(worker: nat)
    | Crash(worker: nat)

  function Drawn(draws: seq<Draw>): nat {
    if draws == [] then 0 else draws[0].split.draw + Drawn(draws[1..])
  }

  predicate HasKey(draws: seq<Draw>, key: Key) {
    exists i | 0 <= i < |draws| :: draws[i].key == key
  }

  /** The balance from the service's own records. */
  function Balance(r: Reserve): int {
    r.accrued - Drawn(r.draws)
  }

  /** The reserve liability of the general ledger. */
  function LedgerBalance(r: Reserve): int {
    r.glAccrued - r.glDrawn
  }

  /** A recorded key is answered from the record; otherwise the balance is read and the split computed. */
  predicate Starts(r: Reserve, worker: nat, key: Key, amount: int) {
    worker !in r.running && !HasKey(r.draws, key) && Compute(amount, Balance(r)).Some?
  }

  function Start(r: Reserve, worker: nat, key: Key, amount: int): Reserve {
    if !Starts(r, worker, key, amount) then r
    else r.(running := r.running[worker := Execution(key, Balance(r), Compute(amount, Balance(r)).value, 0)])
  }

  /** Only a positive draw leg is submitted. */
  predicate Submits(r: Reserve, worker: nat) {
    worker in r.running && r.running[worker].split.draw > 0 && r.running[worker].posted == 0
  }

  function PostLeg(r: Reserve, worker: nat, accepted: bool): Reserve {
    if !Submits(r, worker) || !accepted then r
    else
      var e := r.running[worker];
      r.(running := r.running[worker := e.(posted := e.split.draw)], glDrawn := r.glDrawn + e.split.draw)
  }

  /** The row is unique by key; whoever comes second records nothing. */
  predicate Stores(r: Reserve, worker: nat) {
    worker in r.running && !HasKey(r.draws, r.running[worker].key)
  }

  function Finish(r: Reserve, worker: nat): Reserve {
    if worker !in r.running then r else
      var e := r.running[worker];
      var rest := r.(running := r.running - {worker});
      if Stores(r, worker) then rest.(draws := r.draws + [Draw(e.key, e.split)]) else rest
  }

  function Stop(r: Reserve, worker: nat): Reserve {
    if worker !in r.running then r else r.(running := r.running - {worker})
  }

  function Act(r: Reserve, a: Action): Reserve {
    match a
    case Accrue(income, posted, recorded) =>
      r.(accrued := r.accrued + if recorded then income else 0, glAccrued := r.glAccrued + if posted then income else 0)
    case Begin(w, key, amount) => Start(r, w, key, amount)
    case PostDraw(w, accepted) => PostLeg(r, w, accepted)
    case Record(w) => Finish(r, w)
    case Crash(w) => Stop(r, w)
  }

  function Acts(r: Reserve, actions: seq<Action>): Reserve
    decreases |actions|
  {
    if actions == [] then r else Acts(Act(r, actions[0]), actions[1..])
  }

  /** Accruals only, all in the ledger: nothing drawn, nothing in progress. */
  predicate Undrawn(r: Reserve) {
    r.draws == [] && r.running == map[] && r.glDrawn == 0 && r.glAccrued == r.accrued
  }

  lemma {:induction false} ThreeActs(r: Reserve, a: Action, b: Action, c: Action, rest: seq<Action>)
    ensures Acts(r, [a, b, c] + rest) == Acts(Act(Act(Act(r, a), b), c), rest)
  {
    var s0, s1, s2 := [a, b, c] + rest, [b, c] + rest, [c] + rest;
    assert s0[1..] == s1 && s1[1..] == s2 && s2[1..] == rest;
    assert Acts(Act(Act(r, a), b), s2) == Acts(Act(Act(Act(r, a), b), c), rest);
    assert Acts(Act(r, a), s1) == Acts(Act(Act(r, a), b), s2);
  }

  lemma {:induction false} SixActs(r: Reserve, a: Action, b: Action, c: Action, d: Action, e: Action, f: Action)
    ensures Acts(r, [a, b, c, d, e, f]) == Act(Act(Act(Act(Act(Act(r, a), b), c), d), e), f)
  {
    assert [a, b, c, d, e, f] == [a, b, c] + [d, e, f] && [d, e, f] == [d, e, f] + [];
    ThreeActs(r, a, b, c, [d, e, f]);
    ThreeActs(Act(Act(Act(r, a), b), c), d, e, f, []);
  }

  // ----- the general ledger against the records -----

  ghost function Pick(ws: set<nat>): nat
    requires ws != {}
    ensures Pick(ws) in ws
  {
    var w :| w in ws; w
  }

  /** What the executions in progress have posted. */
  ghost function InFlight(running: map<nat, Execution>, ws: set<nat>): nat
    requires ws <= running.Keys
  {
    if ws == {} then 0 else running[Pick(ws)].posted + InFlight(running, ws - {Pick(ws)})
  }

  lemma {:induction false} InFlightWithout(running: map<nat, Execution>, ws: set<nat>, w: nat)
    requires ws <= running.Keys && w in ws
    ensures InFlight(running, ws) == running[w].posted + InFlight(running, ws - {w})
    decreases |ws|
  {
    var p := Pick(ws);
    if p != w {
      InFlightWithout(running, ws - {p}, w);
      assert ws - {p} - {w} == ws - {w} - {p};
      InFlightWithout(running, ws - {w}, p);
    }
  }

  lemma {:induction false} InFlightAgrees(a: map<nat, Execution>, b: map<nat, Execution>, ws: set<nat>)
    requires ws <= a.Keys && ws <= b.Keys && forall w | w in ws :: a[w].posted == b[w].posted
    ensures InFlight(a, ws) == InFlight(b, ws)
  {
    if ws != {} { InFlightAgrees(a, b, ws - {Pick(ws)}); }
  }

  /** What the ledger's reserve exceeds the recorded one by, once the draws in progress are recorded. */
  ghost function Gap(r: Reserve): int {
    LedgerBalance(r) - Balance(r) + InFlight(r.running, r.running.Keys)
  }

  function PostedBy(r: Reserve, worker: nat): int {
    if worker in r.running then r.running[worker].posted else 0
  }

  /** What an action adds to that gap: a crash, or a record refused for its key, loses what the execution has posted; a
      record of more than was accepted counts the rest; an accrual counts if only one of posting and record is made. */
  function Slip(r: Reserve, a: Action): int {
    match a
    case Accrue(income, posted, recorded) => (if posted then income else 0) - if recorded then income else 0
    case Crash(w) => 0 - PostedBy(r, w)
    case Record(w) => (if Stores(r, w) then r.running[w].split.draw else 0) - PostedBy(r, w)
    case _ => 0
  }

  function Slips(r: Reserve, actions: seq<Action>): int
    decreases |actions|
  {
    if actions == [] then 0 else Slip(r, actions[0]) + Slips(Act(r, actions[0]), actions[1..])
  }

  lemma {:induction false} DrawnSnoc(draws: seq<Draw>, d: Draw)
    ensures Drawn(draws + [d]) == Drawn(draws) + d.split.draw
  {
    if draws == [] {
      assert [d][1..] == [] && draws + [d] == [d];
    } else {
      assert (draws + [d])[1..] == draws[1..] + [d];
      DrawnSnoc(draws[1..], d);
    }
  }

  lemma SetOne(running: map<nat, Execution>, w: nat, e: Execution)
    ensures InFlight(running[w := e], running[w := e].Keys)
         == InFlight(running, running.Keys) + e.posted - if w in running then running[w].posted else 0
  {
    var after := running[w := e];
    InFlightWithout(after, after.Keys, w);
    assert after.Keys - {w} == running.Keys - {w};
    InFlightAgrees(running, after, running.Keys - {w});
    if w in running { InFlightWithout(running, running.Keys, w); } else { assert running.Keys - {w} == running.Keys; }
  }

  lemma {:induction false} DropOne(running: map<nat, Execution>, w: nat)
    requires w in running
    ensures InFlight(running - {w}, (running - {w}).Keys) == InFlight(running, running.Keys) - running[w].posted
  {
    InFlightWithout(running, running.Keys, w);
    assert (running - {w}).Keys == running.Keys - {w};
    InFlightAgrees(running, running - {w}, running.Keys - {w});
  }

  lemma EveryActionSlips(r: Reserve, a: Action)
    ensures Gap(Act(r, a)) == Gap(r) + Slip(r, a)
  {
    match a
    case Accrue(_, _, _) =>
    case Begin(w, key, amount) =>
      if Start(r, w, key, amount) != r {
        SetOne(r.running, w, Execution(key, Balance(r), Compute(amount, Balance(r)).value, 0));
      }
    case PostDraw(w, accepted) =>
      if PostLeg(r, w, accepted) != r { SetOne(r.running, w, r.running[w].(posted := r.running[w].split.draw)); }
    case Record(w) =>
      if w in r.running {
        DropOne(r.running, w);
        DrawnSnoc(r.draws, Draw(r.running[w].key, r.running[w].split));
      }
    case Crash(w) =>
      if w in r.running { DropOne(r.running, w); }
  }

  /** In every interleaving, with crashes and refusals, the ledger and the records differ by exactly what the actions
      slipped, cent by cent. */
  lemma {:induction false} RunsAreAccounted(r: Reserve, actions: seq<Action>)
    ensures Gap(Acts(r, actions)) == Gap(r) + Slips(r, actions)
    decreases |actions|
  {
    if actions != [] {
      EveryActionSlips(r, actions[0]);
      RunsAreAccounted(Act(r, actions[0]), actions[1..]);
    }
  }

  /** A crash after an accepted leg, or a record refused for its key after one. */
  predicate LosesLeg(r: Reserve, a: Action) {
    || (a.Crash? && a.worker in r.running && r.running[a.worker].posted > 0)
    || (a.Record? && a.worker in r.running && !Stores(r, a.worker) && r.running[a.worker].posted > 0)
  }

  /** A record of a positive draw whose leg was not accepted. */
  predicate RecordsRefusedLeg(r: Reserve, a: Action) {
    a.Record? && Stores(r, a.worker) && r.running[a.worker].posted != r.running[a.worker].split.draw
  }

  /** An accrual in one of the two books only. */
  predicate SplitsAccrual(a: Action) {
    a.Accrue? && a.income > 0 && a.posted != a.recorded
  }

  predicate Slipless(r: Reserve, actions: seq<Action>)
    decreases |actions|
  {
    actions == []
    || (!LosesLeg(r, actions[0]) && !RecordsRefusedLeg(r, actions[0]) && !SplitsAccrual(actions[0])
        && Slipless(Act(r, actions[0]), actions[1..]))
  }

  /** The ledger and the records agree at every point, up to the draws in progress. */
  ghost predicate TiesThroughout(r: Reserve, actions: seq<Action>)
    decreases |actions|
  {
    Gap(r) == 0 && (actions == [] || TiesThroughout(Act(r, actions[0]), actions[1..]))
  }

  lemma SlipsExactly(r: Reserve, a: Action)
    ensures Slip(r, a) != 0 <==> LosesLeg(r, a) || RecordsRefusedLeg(r, a) || SplitsAccrual(a)
  {
  }

  /** The reserve liability of the ledger ties out with the records throughout a run exactly when no action of it is a
      crash or a duplicate after an accepted leg, a record of a refused leg, or an accrual in one book only. */
  lemma {:induction false} LiabilityTiesOutThroughoutExactly(r: Reserve, actions: seq<Action>)
    requires Gap(r) == 0
    ensures TiesThroughout(r, actions) <==> Slipless(r, actions)
    decreases |actions|
  {
    if actions != [] {
      EveryActionSlips(r, actions[0]);
      SlipsExactly(r, actions[0]);
      if Slip(r, actions[0]) == 0 {
        LiabilityTiesOutThroughoutExactly(Act(r, actions[0]), actions[1..]);
      }
    }
  }

  /** No refused leg is recorded and no accrual is split: the only slips are lost legs. */
  predicate OnlyLegsAreLost(r: Reserve, actions: seq<Action>)
    decreases |actions|
  {
    actions == []
    || (!RecordsRefusedLeg(r, actions[0]) && !SplitsAccrual(actions[0])
      && OnlyLegsAreLost(Act(r, actions[0]), actions[1..]))
  }

  lemma {:induction false} LostLegsOnlyLower(r: Reserve, actions: seq<Action>)
    requires OnlyLegsAreLost(r, actions)
    ensures Slips(r, actions) <= 0
    ensures Slips(r, actions) == 0 <==> Slipless(r, actions)
    decreases |actions|
  {
    if actions != [] {
      SlipsExactly(r, actions[0]);
      LostLegsOnlyLower(Act(r, actions[0]), actions[1..]);
    }
  }

  /** Where every leg that is recorded was accepted, the ledger falls below the records by every lost leg, so that with
      nothing in progress they tie out at the end exactly when no leg was ever lost. */
  lemma {:induction false} LiabilityTiesOutExactly(start: Reserve, actions: seq<Action>)
    requires Undrawn(start) && OnlyLegsAreLost(start, actions) && Acts(start, actions).running == map[]
    ensures var r := Acts(start, actions); LedgerBalance(r) == Balance(r) <==> Slipless(start, actions)
  {
    assert InFlight(map[], {}) == 0;
    RunsAreAccounted(start, actions);
    LostLegsOnlyLower(start, actions);
  }

  // ----- positions in a run -----

  /** The reserve after the first i actions. */
  function StateAt(r: Reserve, actions: seq<Action>, i: nat): Reserve
    requires i <= |actions|
  {
    Acts(r, actions[..i])
  }

  lemma {:induction false} ActsAppend(r: Reserve, xs: seq<Action>, ys: seq<Action>)
    ensures Acts(r, xs + ys) == Acts(Acts(r, xs), ys)
    decreases |xs|
  {
    if xs == [] {
      assert xs + ys == ys;
    } else {
      assert (xs + ys)[1..] == xs[1..] + ys;
      ActsAppend(Act(r, xs[0]), xs[1..], ys);
    }
  }

  lemma StateAfter(r: Reserve, actions: seq<Action>, i: nat)
    requires i < |actions|
    ensures StateAt(r, actions, i + 1) == Act(StateAt(r, actions, i), actions[i])
  {
    assert actions[..i + 1] == actions[..i] + [actions[i]] && [actions[i]][1..] == [];
    ActsAppend(r, actions[..i], [actions[i]]);
    assert Acts(Act(StateAt(r, actions, i), actions[i]), []) == Act(StateAt(r, actions, i), actions[i]);
  }

  lemma StateAcross(r: Reserve, actions: seq<Action>, i: nat, j: nat)
    requires i <= j <= |actions|
    ensures StateAt(r, actions, j) == Acts(StateAt(r, actions, i), actions[i..j])
  {
    assert actions[..j] == actions[..i] + actions[i..j];
    ActsAppend(r, actions[..i], actions[i..j]);
  }

  predicate Ends(a: Action, worker: nat) {
    (a.Record? || a.Crash?) && a.worker == worker
  }

  /** The action at i begins an execution that neither recorded nor crashed before position j. */
  predicate InProgress(r: Reserve, actions: seq<Action>, i: nat, j: nat) {
    && i < j <= |actions| && actions[i].Begin?
    && Starts(StateAt(r, actions, i), actions[i].worker, actions[i].key, actions[i].amount)
    && forall k | i < k < j :: !Ends(actions[k], actions[i].worker)
  }

  /** What an execution reads and computes when it begins. */
  function Begun(r: Reserve, a: Action): Execution
    requires a.Begin? && Starts(r, a.worker, a.key, a.amount)
  {
    Execution(a.key, Balance(r), Compute(a.amount, Balance(r)).value, 0)
  }

  lemma {:induction false} StillInProgress(r: Reserve, actions: seq<Action>, i: nat, j: nat)
    requires InProgress(r, actions, i, j)
    ensures var w, e := actions[i].worker, Begun(StateAt(r, actions, i), actions[i]);
            var running := StateAt(r, actions, j).running;
            w in running && running[w] == e.(posted := running[w].posted)
    decreases j
  {
    StateAfter(r, actions, j - 1);
    if i < j - 1 {
      StillInProgress(r, actions, i, j - 1);
    }
  }

  /** Whoever is in progress has begun. */
  lemma {:induction false} Beginning(r: Reserve, actions: seq<Action>, j: nat, w: nat) returns (i: nat)
    requires j <= |actions| && r.running == map[] && w in StateAt(r, actions, j).running
    ensures InProgress(r, actions, i, j) && actions[i].worker == w
    decreases j
  {
    assert j > 0;
    StateAfter(r, actions, j - 1);
    if w in StateAt(r, actions, j - 1).running {
      i := Beginning(r, actions, j - 1, w);
    } else {
      i := j - 1;
    }
  }

  // ----- when the records go below zero -----

  /** What an action takes from the recorded reserve: the draw it stores, or, negated, the income it records. */
  function Takes(r: Reserve, a: Action): int {
    match a
    case Accrue(income, _, recorded) => if recorded then 0 - income else 0
    case Record(w) => if Stores(r, w) then r.running[w].split.draw else 0
    case _ => 0
  }

  /** Draws stored less accruals recorded. */
  function Taken(r: Reserve, actions: seq<Action>): int
    decreases |actions|
  {
    if actions == [] then 0 else Takes(r, actions[0]) + Taken(Act(r, actions[0]), actions[1..])
  }

  /** A draw under this key is stored. */
  predicate StoresKey(r: Reserve, actions: seq<Action>, key: Key)
    decreases |actions|
  {
    actions != [] &&
      ((actions[0].Record? && Stores(r, actions[0].worker) && r.running[actions[0].worker].key == key)
       || StoresKey(Act(r, actions[0]), actions[1..], key))
  }

  lemma ActTakes(r: Reserve, a: Action)
    ensures Balance(Act(r, a)) == Balance(r) - Takes(r, a)
  {
    if a.Record? && a.worker in r.running {
      DrawnSnoc(r.draws, Draw(r.running[a.worker].key, r.running[a.worker].split));
    }
  }

  lemma {:induction false} ActsTake(r: Reserve, actions: seq<Action>)
    ensures Balance(Acts(r, actions)) == Balance(r) - Taken(r, actions)
    decreases |actions|
  {
    if actions != [] {
      ActTakes(r, actions[0]);
      ActsTake(Act(r, actions[0]), actions[1..]);
    }
  }

  lemma {:induction false} KeysAreStored(r: Reserve, actions: seq<Action>, key: Key)
    ensures HasKey(Acts(r, actions).draws, key) <==> HasKey(r.draws, key) || StoresKey(r, actions, key)
    decreases |actions|
  {
    if actions != [] {
      KeysAreStored(Act(r, actions[0]), actions[1..], key);
      OneKeyIsStored(r, actions[0], key);
    }
  }

  lemma OneKeyIsStored(r: Reserve, a: Action, key: Key)
    ensures HasKey(Act(r, a).draws, key)
       <==> HasKey(r.draws, key) || (a.Record? && Stores(r, a.worker) && r.running[a.worker].key == key)
  {
    if a.Record? && Stores(r, a.worker) {
      var ds, d := r.draws, Draw(r.running[a.worker].key, r.running[a.worker].split);
      assert (ds + [d])[|ds|] == d;
      forall i | 0 <= i < |ds| ensures (ds + [d])[i] == ds[i] {}
    }
  }

  /** An execution begun at i records at j, its key not stored in between, and what was stored in between, less what
      was accrued, is more than its chargeback leaves of the balance it read. */
  predicate RecordsTooLate(r: Reserve, actions: seq<Action>, i: nat, j: nat) {
    && j < |actions| && InProgress(r, actions, i, j) && actions[j] == Record(actions[i].worker)
    && var begun := StateAt(r, actions, i + 1);
       && !StoresKey(begun, actions[i + 1..j], actions[i].key)
       && Taken(begun, actions[i + 1..j]) > Max(0, Balance(StateAt(r, actions, i)) - actions[i].amount)
  }

  /** The balance that one execution leaves when it records. */
  lemma BalanceLeft(r: Reserve, actions: seq<Action>, i: nat, j: nat)
    requires j < |actions| && InProgress(r, actions, i, j) && actions[j] == Record(actions[i].worker)
    ensures var begun, between := StateAt(r, actions, i + 1), actions[i + 1..j];
            var stores := !StoresKey(begun, between, actions[i].key);
            && (Stores(StateAt(r, actions, j), actions[i].worker) <==> stores)
            && Balance(StateAt(r, actions, j)) == Balance(StateAt(r, actions, i)) - Taken(begun, between)
            && (stores ==> Balance(StateAt(r, actions, j + 1))
                           == Max(0, Balance(StateAt(r, actions, i)) - actions[i].amount) - Taken(begun, between))
  {
    StateAfter(r, actions, i);
    StateAfter(r, actions, j);
    StateAcross(r, actions, i + 1, j);
    StillInProgress(r, actions, i, j);
    var begun, between := StateAt(r, actions, i + 1), actions[i + 1..j];
    ActsTake(begun, between);
    KeysAreStored(begun, between, actions[i].key);
    ActTakes(StateAt(r, actions, i), actions[i]);
    ActTakes(StateAt(r, actions, j), actions[j]);
  }

  predicate RecordsStayAboveZero(r: Reserve, actions: seq<Action>)
    decreases |actions|
  {
    Balance(r) >= 0 && (actions == [] || RecordsStayAboveZero(Act(r, actions[0]), actions[1..]))
  }

  lemma {:induction false} RecordsAtEveryPosition(r: Reserve, actions: seq<Action>)
    ensures RecordsStayAboveZero(r, actions)
       <==> forall i | 0 <= i <= |actions| :: Balance(StateAt(r, actions, i)) >= 0
    decreases |actions|
  {
    assert StateAt(r, actions, 0) == r;
    if actions != [] {
      var next, rest := Act(r, actions[0]), actions[1..];
      RecordsAtEveryPosition(next, rest);
      forall i | 0 <= i <= |rest| ensures StateAt(r, actions, i + 1) == StateAt(next, rest, i) {
        assert actions[..i + 1][1..] == rest[..i];
      }
      assert forall i | 1 <= i <= |actions| :: StateAt(r, actions, i) == StateAt(next, rest, i - 1);
    }
  }

  /** The first position at which the records are below zero comes right after a record that is too late. */
  lemma {:induction false} FirstBelowZero(r: Reserve, actions: seq<Action>, n: nat) returns (i: nat, j: nat)
    requires r.running == map[] && Balance(r) >= 0 && n <= |actions| && Balance(StateAt(r, actions, n)) < 0
    ensures RecordsTooLate(r, actions, i, j)
    decreases n
  {
    assert StateAt(r, actions, 0) == r && n > 0;
    j := n - 1;
    var before := StateAt(r, actions, j);
    if Balance(before) < 0 {
      i, j := FirstBelowZero(r, actions, j);
    } else {
      StateAfter(r, actions, j);
      ActTakes(before, actions[j]);
      i := Beginning(r, actions, j, actions[j].worker);
      BalanceLeft(r, actions, i, j);
    }
  }

  /** In every run, however interleaved, the recorded reserve goes below zero exactly when some execution records too
      late: between its reading and its recording others have stored, beyond what was accrued, more than its chargeback
      leaves of the balance it read. */
  lemma {:induction false} RecordsStayAboveZeroExactly(r: Reserve, actions: seq<Action>)
    requires r.running == map[] && Balance(r) >= 0
    ensures RecordsStayAboveZero(r, actions) <==> forall i: nat, j: nat :: !RecordsTooLate(r, actions, i, j)
  {
    RecordsAtEveryPosition(r, actions);
    if n :| 0 <= n <= |actions| && Balance(StateAt(r, actions, n)) < 0 {
      var i, j := FirstBelowZero(r, actions, n);
    }
    if i: nat, j: nat :| RecordsTooLate(r, actions, i, j) {
      BalanceLeft(r, actions, i, j);
      assert Balance(StateAt(r, actions, j + 1)) < 0;
    }
  }

  // ----- when the ledger goes below zero -----

  /** What an action posts against the ledger's reserve: an accepted draw leg, or, negated, the income it posts. */
  function Posts(r: Reserve, a: Action): int {
    match a
    case Accrue(income, posted, _) => if posted then 0 - income else 0
    case PostDraw(w, accepted) => if accepted && Submits(r, w) then r.running[w].split.draw else 0
    case _ => 0
  }

  /** Draw legs accepted less accruals posted. */
  function PostedOver(r: Reserve, actions: seq<Action>): int
    decreases |actions|
  {
    if actions == [] then 0 else Posts(r, actions[0]) + PostedOver(Act(r, actions[0]), actions[1..])
  }

  lemma {:induction false} ActsPost(r: Reserve, actions: seq<Action>)
    ensures LedgerBalance(Acts(r, actions)) == LedgerBalance(r) - PostedOver(r, actions)
    decreases |actions|
  {
    if actions != [] {
      assert LedgerBalance(Act(r, actions[0])) == LedgerBalance(r) - Posts(r, actions[0]);
      ActsPost(Act(r, actions[0]), actions[1..]);
    }
  }

  /** An execution begun at i has not had its leg accepted before position j. */
  predicate Unposted(r: Reserve, actions: seq<Action>, i: nat, j: nat) {
    && InProgress(r, actions, i, j)
    && forall k | i < k < j :: actions[k] != PostDraw(actions[i].worker, true)
  }

  lemma {:induction false} UnpostedExactly(r: Reserve, actions: seq<Action>, i: nat, j: nat)
    requires InProgress(r, actions, i, j) && Begun(StateAt(r, actions, i), actions[i]).split.draw > 0
    ensures actions[i].worker in StateAt(r, actions, j).running
    ensures StateAt(r, actions, j).running[actions[i].worker].posted == 0 <==> Unposted(r, actions, i, j)
    decreases j
  {
    StillInProgress(r, actions, i, j);
    StateAfter(r, actions, j - 1);
    if i < j - 1 {
      StillInProgress(r, actions, i, j - 1);
      UnpostedExactly(r, actions, i, j - 1);
    }
  }

  /** What the executions that had begun before position i and the slips up to there make the ledger fall short of the
      records at i: legs posted and not yet recorded, less what the ledger is ahead by. */
  ghost function Behind(r: Reserve, actions: seq<Action>, i: nat): int
    requires i <= |actions|
  {
    var read := StateAt(r, actions, i);
    InFlight(read.running, read.running.Keys) - Gap(r) - Slips(r, actions[..i])
  }

  /** The leg of an execution begun at i is accepted at j, and the legs accepted in between, less the accruals posted,
      with what the ledger was behind the records when the execution read them, are more than its chargeback leaves of
      the balance it read. */
  ghost predicate PostsTooMuch(r: Reserve, actions: seq<Action>, i: nat, j: nat) {
    && j < |actions| && Unposted(r, actions, i, j) && actions[j] == PostDraw(actions[i].worker, true)
    && Balance(StateAt(r, actions, i)) > 0
    && PostedOver(StateAt(r, actions, i + 1), actions[i + 1..j]) + Behind(r, actions, i)
         > Max(0, Balance(StateAt(r, actions, i)) - actions[i].amount)
  }

  /** The balance that one accepted leg leaves in the ledger. */
  lemma LedgerLeft(r: Reserve, actions: seq<Action>, i: nat, j: nat)
    requires j < |actions| && Unposted(r, actions, i, j) && actions[j] == PostDraw(actions[i].worker, true)
    requires Balance(StateAt(r, actions, i)) > 0
    ensures LedgerBalance(StateAt(r, actions, j + 1))
         == Max(0, Balance(StateAt(r, actions, i)) - actions[i].amount)
            - PostedOver(StateAt(r, actions, i + 1), actions[i + 1..j]) - Behind(r, actions, i)
  {
    StateAfter(r, actions, i);
    StateAfter(r, actions, j);
    StateAcross(r, actions, i + 1, j);
    StillInProgress(r, actions, i, j);
    UnpostedExactly(r, actions, i, j);
    ActsPost(StateAt(r, actions, i + 1), actions[i + 1..j]);
    RunsAreAccounted(r, actions[..i]);
  }

  predicate LedgerStaysAboveZero(r: Reserve, actions: seq<Action>)
    decreases |actions|
  {
    LedgerBalance(r) >= 0 && (actions == [] || LedgerStaysAboveZero(Act(r, actions[0]), actions[1..]))
  }

  lemma {:induction false} LedgerAtEveryPosition(r: Reserve, actions: seq<Action>)
    ensures LedgerStaysAboveZero(r, actions)
       <==> forall i | 0 <= i <= |actions| :: LedgerBalance(StateAt(r, actions, i)) >= 0
    decreases |actions|
  {
    assert StateAt(r, actions, 0) == r;
    if actions != [] {
      var next, rest := Act(r, actions[0]), actions[1..];
      LedgerAtEveryPosition(next, rest);
      forall i | 0 <= i <= |rest| ensures StateAt(r, actions, i + 1) == StateAt(next, rest, i) {
        assert actions[..i + 1][1..] == rest[..i];
      }
      assert forall i | 1 <= i <= |actions| :: StateAt(r, actions, i) == StateAt(next, rest, i - 1);
    }
  }

  lemma {:induction false} FirstLedgerBelowZero(r: Reserve, actions: seq<Action>, n: nat) returns (i: nat, j: nat)
    requires r.running == map[] && LedgerBalance(r) >= 0 && n <= |actions| && LedgerBalance(StateAt(r, actions, n)) < 0
    ensures PostsTooMuch(r, actions, i, j)
    decreases n
  {
    assert StateAt(r, actions, 0) == r && n > 0;
    j := n - 1;
    var before := StateAt(r, actions, j);
    if LedgerBalance(before) < 0 {
      i, j := FirstLedgerBelowZero(r, actions, j);
    } else {
      StateAfter(r, actions, j);
      i := Beginning(r, actions, j, actions[j].worker);
      StillInProgress(r, actions, i, j);
      UnpostedExactly(r, actions, i, j);
      LedgerLeft(r, actions, i, j);
    }
  }

  /** In every run the ledger's reserve goes below zero exactly when some execution posts too much: the legs accepted
      since it read the records, less accruals posted, with what the ledger was already behind the records, are more
      than its chargeback leaves of the balance it read. */
  lemma {:induction false} LedgerStaysAboveZeroExactly(r: Reserve, actions: seq<Action>)
    requires r.running == map[] && LedgerBalance(r) >= 0
    ensures LedgerStaysAboveZero(r, actions) <==> forall i: nat, j: nat :: !PostsTooMuch(r, actions, i, j)
  {
    LedgerAtEveryPosition(r, actions);
    if n :| 0 <= n <= |actions| && LedgerBalance(StateAt(r, actions, n)) < 0 {
      var i, j := FirstLedgerBelowZero(r, actions, n);
    }
    if i: nat, j: nat :| PostsTooMuch(r, actions, i, j) {
      LedgerLeft(r, actions, i, j);
      assert LedgerBalance(StateAt(r, actions, j + 1)) < 0;
    }
  }

  // ----- one execution at a time -----

  /** No execution begins while another is in progress. */
  predicate Serial(r: Reserve, actions: seq<Action>)
    decreases |actions|
  {
    actions != [] ==>
      && (actions[0].Begin? ==> r.running == map[])
      && Serial(Act(r, actions[0]), actions[1..])
  }

  predicate NeverBelowZero(r: Reserve) {
    && Balance(r) >= 0 && |r.running| <= 1
    && forall w | w in r.running :: r.running[w].split.draw <= Balance(r)
  }

  lemma SerialStep(r: Reserve, a: Action)
    requires NeverBelowZero(r) && (a.Begin? ==> r.running == map[])
    ensures NeverBelowZero(Act(r, a))
  {
    match a
    case Record(w) =>
      if w in r.running {
        DrawnSnoc(r.draws, Draw(r.running[w].key, r.running[w].split));
        OnlyOne(r.running, w);
      }
    case Crash(w) => if w in r.running { OnlyOne(r.running, w); }
    case PostDraw(w, accepted) =>
      if PostLeg(r, w, accepted) != r {
        assert r.running[w := r.running[w].(posted := r.running[w].split.draw)].Keys == r.running.Keys;
      }
    case _ =>
  }

  lemma OnlyOne(running: map<nat, Execution>, w: nat)
    requires |running| <= 1 && w in running
    ensures running - {w} == map[]
  {
    assert |running.Keys - {w}| == |running.Keys| - 1 == 0;
    assert (running - {w}).Keys == running.Keys - {w} == {};
  }

  /** One at a time, crashes and refusals included, the recorded reserve never goes below zero. */
  lemma {:induction false} SerialRunsNeverOverdraw(r: Reserve, actions: seq<Action>)
    requires NeverBelowZero(r) && Serial(r, actions)
    ensures NeverBelowZero(Acts(r, actions)) && RecordsStayAboveZero(r, actions)
    decreases |actions|
  {
    if actions != [] {
      SerialStep(r, actions[0]);
      SerialRunsNeverOverdraw(Act(r, actions[0]), actions[1..]);
    }
  }

  lemma {:induction false} InFlightOfOne(running: map<nat, Execution>)
    requires |running| <= 1
    ensures InFlight(running, running.Keys) == 0 || exists w | w in running ::
      InFlight(running, running.Keys) == running[w].posted
  {
    if running.Keys != {} {
      var w := Pick(running.Keys);
      OnlyOne(running, w);
      assert running.Keys - {w} == (running - {w}).Keys == {};
    }
  }

  /** What is in progress has posted no more than its draw. */
  predicate PostsItsDraw(r: Reserve) {
    forall w | w in r.running :: r.running[w].posted <= r.running[w].split.draw
  }

  /** One at a time, the ledger's reserve is never below what the slips of the run allow: it stays above zero as long as
      lost legs do not outweigh refused ones, and in particular on every run without slips. */
  lemma {:induction false} SerialRunsKeepTheLedgerAboveZero(r: Reserve, actions: seq<Action>)
    requires NeverBelowZero(r) && PostsItsDraw(r) && Serial(r, actions) && Gap(r) == 0
    ensures LedgerBalance(Acts(r, actions)) >= Slips(r, actions)
    ensures Slipless(r, actions) ==> LedgerStaysAboveZero(r, actions)
    decreases |actions|
  {
    SerialRunsNeverOverdraw(r, actions);
    RunsAreAccounted(r, actions);
    DrawsStayPosted(r, actions);
    InFlightOfOne(Acts(r, actions).running);
    InFlightOfOne(r.running);
    if actions != [] && Slipless(r, actions) {
      SlipsExactly(r, actions[0]);
      EveryActionSlips(r, actions[0]);
      SerialStep(r, actions[0]);
      SerialRunsKeepTheLedgerAboveZero(Act(r, actions[0]), actions[1..]);
    }
  }

  lemma {:induction false} DrawsStayPosted(r: Reserve, actions: seq<Action>)
    requires PostsItsDraw(r)
    ensures PostsItsDraw(Acts(r, actions))
    decreases |actions|
  {
    if actions != [] { DrawsStayPosted(Act(r, actions[0]), actions[1..]); }
  }

  /** Two executions that both read the balance before either records. */
  function Overlapping(a: int, b: int): seq<Action> {
    [Begin(0, 0, a), Begin(1, 1, b), PostDraw(0, true), PostDraw(1, true), Record(0), Record(1)]
  }

  function DrawOf(r: Reserve, key: Key, amount: int): Draw
    requires amount > 0
  {
    Draw(key, Split(Min(amount, r.accrued), amount - Min(amount, r.accrued)))
  }

  /** Both have read the same balance, and posted. */
  lemma OverlapPosts(r: Reserve, a: int, b: int)
    requires Undrawn(r) && a > 0 && b > 0
    ensures var r4 := Act(Act(Act(Act(r, Begin(0, 0, a)), Begin(1, 1, b)), PostDraw(0, true)), PostDraw(1, true));
            && r4.draws == [] && r4.accrued == r.accrued && 0 in r4.running && 1 in r4.running
            && r4.running[0].key == 0 && r4.running[0].split == DrawOf(r, 0, a).split
            && r4.running[1].key == 1 && r4.running[1].split == DrawOf(r, 1, b).split
  {
    var r1 := Act(r, Begin(0, 0, a));
    assert r1.running == map[0 := Execution(0, r.accrued, DrawOf(r, 0, a).split, 0)] && r1.accrued == r.accrued
      && r1.draws == [];
    var r2 := Act(r1, Begin(1, 1, b));
    assert r2.running == r1.running[1 := Execution(1, r.accrued, DrawOf(r, 1, b).split, 0)] && r2.draws == [];
  }

  lemma OverlapRecords(s: Reserve, d0: Draw, d1: Draw)
    requires s.draws == [] && 0 in s.running && 1 in s.running
    requires s.running[0].key == d0.key == 0 && s.running[0].split == d0.split
    requires s.running[1].key == d1.key == 1 && s.running[1].split == d1.split
    ensures Balance(Act(Act(s, Record(0)), Record(1))) == s.accrued - d0.split.draw - d1.split.draw
  {
    var s1 := Act(s, Record(0));
    assert s1.draws == [d0] && 1 in s1.running && s1.running[1] == s.running[1] && !HasKey(s1.draws, 1);
    var s2 := Act(s1, Record(1));
    assert s2.draws == [d0] + [d1] && [] + [d0] == [d0];
    DrawnSnoc([d0], d1);
    DrawnSnoc([], d0);
  }

  lemma {:induction false} OverlapDraws(r: Reserve, a: int, b: int)
    requires Undrawn(r) && a > 0 && b > 0
    ensures Balance(Acts(r, Overlapping(a, b))) == r.accrued - Min(a, r.accrued) - Min(b, r.accrued)
  {
    SixActs(r, Begin(0, 0, a), Begin(1, 1, b), PostDraw(0, true), PostDraw(1, true), Record(0), Record(1));
    OverlapPosts(r, a, b);
    var r4 := Act(Act(Act(Act(r, Begin(0, 0, a)), Begin(1, 1, b)), PostDraw(0, true)), PostDraw(1, true));
    OverlapRecords(r4, DrawOf(r, 0, a), DrawOf(r, 1, b));
  }

  /** Overlapping executions overdraw the reserve exactly when the two chargebacks exceed it together. */
  lemma {:induction false} OverlapOverdrawsExactlyWhenTogetherTooMuch(r: Reserve, a: int, b: int)
    requires Undrawn(r) && r.accrued > 0 && a > 0 && b > 0
    ensures Balance(Acts(r, Overlapping(a, b))) < 0 <==> a + b > r.accrued
  {
    OverlapDraws(r, a, b);
  }

  /** The key answers for recorded draws only: a crash between posting and recording makes the retry post the draw
      again. */
  lemma {:induction false} RetryAfterCrashPostsTwice(r: Reserve, amount: int)
    requires Undrawn(r) && amount > 0 && r.accrued > 0
    ensures var after :=
      Acts(r, [Begin(0, 0, amount), PostDraw(0, true), Crash(0), Begin(0, 0, amount), PostDraw(0, true), Record(0)]);
            && after.glDrawn == 2 * Min(amount, r.accrued) && Balance(after) == r.accrued - Min(amount, r.accrued)
            && (LedgerBalance(after) < 0 <==> 2 * amount > r.accrued)
  {
    SixActs(r, Begin(0, 0, amount), PostDraw(0, true), Crash(0), Begin(0, 0, amount), PostDraw(0, true), Record(0));
    var r3 := Act(Act(Act(r, Begin(0, 0, amount)), PostDraw(0, true)), Crash(0));
    var d := Draw(0, Split(Min(amount, r.accrued), amount - Min(amount, r.accrued)));
    assert r3.draws == [] && 0 !in r3.running && r3.glDrawn == d.split.draw;
    var r5 := Act(Act(r3, Begin(0, 0, amount)), PostDraw(0, true));
    assert r5.running[0] == Execution(0, r.accrued, d.split, d.split.draw) && r5.glDrawn == 2 * d.split.draw;
    assert Act(r5, Record(0)).draws == [d] && [d][1..] == [];
  }

  // ----- the legs against the rule packs -----

  /** The event of a draw leg, with the amount the executor computed. */
  function DrawLeg(cents: int, text: string, header: PostingDsl.Envelope): Ledger.Event {
    var payload := header[PostingDsl.DrawFromReserveAmount := PostingDsl.Money(cents, text)];
    Ledger.Event(RulePacks.ChargebackDrawFromReserve, payload)
  }

  function ExcessLeg(cents: int, text: string, header: PostingDsl.Envelope): Ledger.Event {
    var payload := header[PostingDsl.ExcessToExpenseAmount := PostingDsl.Money(cents, text)];
    Ledger.Event(RulePacks.ChargebackExcessExpense, payload)
  }

  predicate LegPosts(leg: Ledger.Event) {
    Ledger.Submit(RulePacks.FixtureRules(leg.kind), FixturePacks.FIXTURE_CHART, leg.payload).Posted?
  }

  /** The fields that do not vary with the amount are there, and fit gl-service's texts. */
  predicate GoodHeader(header: PostingDsl.Envelope) {
    && Ledger.WellFormed(header) && Ledger.HeaderFits(header)
    && |PostingDsl.TextAt(PostingDsl.DealNumber, header)| <= Ledger.TEXT_WIDTH
  }

  lemma DrawLegIsPostedExactlyWhenPositive(cents: int, text: string, header: PostingDsl.Envelope)
    requires GoodHeader(header)
    ensures LegPosts(DrawLeg(cents, text, header)) <==> cents > 0
  {
    var draw := DrawLeg(cents, text, header);
    SameTexts(header, PostingDsl.DrawFromReserveAmount, PostingDsl.Money(cents, text));
    LedgerRuns.EventOutcome(draw.kind, draw.payload);
    var row := FixturePacks.FniRow(draw.kind);
    assert FixturePacks.RequestedRows(draw.kind, draw.payload) == [row] && row.base == PostingDsl.DrawFromReserveAmount;
    assert FixturePacks.RequestedRows(draw.kind, draw.payload)[0] == row;
  }

  lemma ExcessLegIsPostedExactlyWhenPositive(cents: int, text: string, header: PostingDsl.Envelope)
    requires GoodHeader(header)
    ensures LegPosts(ExcessLeg(cents, text, header)) <==> cents > 0
  {
    var excess := ExcessLeg(cents, text, header);
    SameTexts(header, PostingDsl.ExcessToExpenseAmount, PostingDsl.Money(cents, text));
    LedgerRuns.EventOutcome(excess.kind, excess.payload);
    var row := FixturePacks.FniRow(excess.kind);
    var rows := FixturePacks.RequestedRows(excess.kind, excess.payload);
    assert rows == [row] && row.base == PostingDsl.ExcessToExpenseAmount;
    assert rows[0] == row;
  }

  lemma SameTexts(header: PostingDsl.Envelope, path: PostingDsl.Field, value: PostingDsl.Value)
    requires GoodHeader(header)
    requires path == PostingDsl.DrawFromReserveAmount || path == PostingDsl.ExcessToExpenseAmount
    ensures GoodHeader(header[path := value])
  {
  }

  /** Under the fixture packs a leg is accepted exactly when its amount is positive, so submitting only positive legs
      means that none is refused for its amount. */
  lemma LegIsPostedExactlyWhenPositive(cents: int, text: string, header: PostingDsl.Envelope)
    requires GoodHeader(header)
    ensures LegPosts(DrawLeg(cents, text, header)) <==> cents > 0
    ensures LegPosts(ExcessLeg(cents, text, header)) <==> cents > 0
  {
    DrawLegIsPostedExactlyWhenPositive(cents, text, header);
    ExcessLegIsPostedExactlyWhenPositive(cents, text, header);
  }
}
