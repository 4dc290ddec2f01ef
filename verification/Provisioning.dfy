/** The provisioning steps that surround the seeding of the packs: accounts, schedules and the links
    between them, and the fiscal period, in scripts that can be cut off anywhere and run again. */
module Provisioning {
  import opened Sums
  import F = FiscalCalendar

  /** One ensure step. A link sets the schedule code of an account. */
  datatype Step =
    | Account(number: nat)
    | Schedule(number: nat)
    | Link(account: nat, schedule: nat)
    | JournalSource
    | FiscalStep(step: F.Step)

  /** accounts maps each account to its schedule code; writes counts the changes made. */
  datatype Store = Store(
    accounts: map<nat, Option<nat>>, schedules: set<nat>, fiscal: F.Fiscal, systemSource: bool, writes: nat)

  /** A conflict on creation and a code that is already right are passed over; an unknown account or a
      missing SYSTEM source stops the script. */
  function Ensure(st: Store, step: Step): Option<Store> {
    match step
    case Account(n) =>
      Some(if n in st.accounts then st else st.(accounts := st.accounts[n := None], writes := st.writes + 1))
    case Schedule(n) =>
      Some(if n in st.schedules then st else st.(schedules := st.schedules + {n}, writes := st.writes + 1))
    case Link(a, s) =>
      if a !in st.accounts then None
      else if st.accounts[a] == Some(s) then Some(st)
      else Some(st.(accounts := st.accounts[a := Some(s)], writes := st.writes + 1))
    case JournalSource => if st.systemSource then Some(st) else None
    case FiscalStep(s) =>
      match F.Ensure(st.fiscal, s)
      case None => None
      case Some(after) => Some(if after == st.fiscal then st else st.(fiscal := after, writes := st.writes + 1))
  }

  /** Each step that changes the store writes once, and no other step does. */
  lemma WritesOncePerChange(st: Store, step: Step)
    ensures match Ensure(st, step)
            case None => true
            case Some(next) =>
              if next.accounts == st.accounts && next.schedules == st.schedules && next.fiscal == st.fiscal
              then next == st else next.writes == st.writes + 1
  {
  }

  datatype Run = Run(store: Store, completed: bool)

  /** The script from the start, cut off after so many steps. */
  function Provision(st: Store, steps: seq<Step>, cut: nat): Run
    decreases |steps|
  {
    if steps == [] then Run(st, true)
    else if cut == 0 then Run(st, false)
    else match Ensure(st, steps[0])
      case None => Run(st, false)
      case Some(next) => Provision(next, steps[1..], cut - 1)
  }

  /** The scripts' own form: one step after another until a step fails or the run is cut off. */
  method RunSteps(st: Store, steps: seq<Step>, cut: nat) returns (run: Run)
    ensures run == Provision(st, steps, cut)
  {
    var store := st;
    for i := 0 to |steps|
      invariant i <= cut || i == 0
      invariant Provision(st, steps, cut) == Provision(store, steps[i..], cut - i)
    {
      assert steps[i..][0] == steps[i] && steps[i..][1..] == steps[i + 1..];
      if i == cut { return Run(store, false); }
      match Ensure(store, steps[i]) {
        case None => return Run(store, false);
        case Some(next) => store := next;
      }
    }
    return Run(store, true);
  }

  // ----- what the steps ask for -----

  function Created(steps: seq<Step>): set<nat> {
    set i | 0 <= i < |steps| && steps[i].Account? :: steps[i].number
  }

  function Scheduled(steps: seq<Step>): set<nat> {
    set i | 0 <= i < |steps| && steps[i].Schedule? :: steps[i].number
  }

  /** The fiscal steps among the steps. */
  function FiscalSteps(steps: seq<Step>): seq<F.Step> {
    if steps == [] then []
    else if steps[0].FiscalStep? then [steps[0].step] + FiscalSteps(steps[1..])
    else FiscalSteps(steps[1..])
  }

  /** The last code that the steps give an account. */
  function LastCode(steps: seq<Step>, a: nat): Option<nat> {
    if steps == [] then None
    else if LastCode(steps[1..], a).Some? then LastCode(steps[1..], a)
    else if steps[0].Link? && steps[0].account == a then Some(steps[0].schedule)
    else None
  }

  function CodeAfter(before: Option<nat>, steps: seq<Step>, a: nat): Option<nat> {
    if LastCode(steps, a).Some? then LastCode(steps, a) else before
  }

  function With(known: set<nat>, step: Step): set<nat> {
    if step.Account? then known + {step.number} else known
  }

  /** Apart from the fiscal calendar the steps can be carried out: the source is there, and every linked account exists
      or is created first. */
  predicate Feasible(known: set<nat>, systemSource: bool, steps: seq<Step>)
    decreases |steps|
  {
    steps != [] ==>
      && (steps[0].JournalSource? ==> systemSource)
      && (steps[0].Link? ==> steps[0].account in known)
      && Feasible(With(known, steps[0]), systemSource, steps[1..])
  }

  /** What a complete run leaves. */
  ghost predicate Reached(from: Store, steps: seq<Step>, to: Store) {
    && to.accounts.Keys == from.accounts.Keys + Created(steps)
    && to.schedules == from.schedules + Scheduled(steps)
    && to.systemSource == from.systemSource
    && F.EnsureAll(from.fiscal, FiscalSteps(steps)) == Some(to.fiscal)
    && forall a | a in to.accounts :: to.accounts[a] == CodeAfter(CodeIn(from, a), steps, a)
  }

  function CodeIn(st: Store, a: nat): Option<nat> {
    if a in st.accounts then st.accounts[a] else None
  }

  lemma StepParts(steps: seq<Step>)
    requires steps != []
    ensures Created(steps) == Created(steps[1..]) + if steps[0].Account? then {steps[0].number} else {}
    ensures Scheduled(steps) == Scheduled(steps[1..]) + if steps[0].Schedule? then {steps[0].number} else {}
  {
    var rest := steps[1..];
    forall n | n in Created(steps) ensures n in Created(rest) + if steps[0].Account? then {steps[0].number} else {} {
      var i :| 0 <= i < |steps| && steps[i].Account? && steps[i].number == n;
      assert i > 0 ==> rest[i - 1] == steps[i];
    }
    forall n | n in Scheduled(steps)
      ensures n in Scheduled(rest) + if steps[0].Schedule? then {steps[0].number} else {} {
      var i :| 0 <= i < |steps| && steps[i].Schedule? && steps[i].number == n;
      assert i > 0 ==> rest[i - 1] == steps[i];
    }
    assert forall i | 0 <= i < |rest| :: rest[i] == steps[i + 1];
  }

  predicate FiscalFeasible(fiscal: F.Fiscal, steps: seq<Step>) {
    F.EnsureAll(fiscal, FiscalSteps(steps)).Some?
  }

  predicate StoreIsReady(st: Store, steps: seq<Step>) {
    Feasible(st.accounts.Keys, st.systemSource, steps) && FiscalFeasible(st.fiscal, steps)
  }

  lemma {:induction false} FiscalTurn(fiscal: F.Fiscal, steps: seq<Step>)
    requires steps != [] && steps[0].FiscalStep?
    ensures F.EnsureAll(fiscal, FiscalSteps(steps))
         == match F.Ensure(fiscal, steps[0].step)
            case None => None
            case Some(next) => F.EnsureAll(next, FiscalSteps(steps[1..]))
  {
    assert FiscalSteps(steps)[1..] == FiscalSteps(steps[1..]);
  }

  lemma ReadyForTheFirst(st: Store, steps: seq<Step>)
    requires steps != []
    ensures StoreIsReady(st, steps)
       <==> Ensure(st, steps[0]).Some? && StoreIsReady(Ensure(st, steps[0]).value, steps[1..])
  {
    if steps[0].FiscalStep? {
      FiscalTurn(st.fiscal, steps);
    } else if Ensure(st, steps[0]).Some? {
      assert Ensure(st, steps[0]).value.accounts.Keys == With(st.accounts.Keys, steps[0]);
    }
  }

  lemma ReachedAfterFiscalStep(st: Store, next: Store, steps: seq<Step>, to: Store)
    requires steps != [] && steps[0].FiscalStep? && F.Ensure(st.fiscal, steps[0].step) == Some(next.fiscal)
    requires next.accounts == st.accounts && next.schedules == st.schedules && next.systemSource == st.systemSource
    requires Reached(next, steps[1..], to)
    ensures Reached(st, steps, to)
  {
    StepParts(steps);
    assert FiscalSteps(steps)[1..] == FiscalSteps(steps[1..]);
  }

  lemma CodeAfterFirst(st: Store, next: Store, steps: seq<Step>, a: nat)
    requires steps != [] && Ensure(st, steps[0]) == Some(next)
    ensures CodeAfter(CodeIn(next, a), steps[1..], a) == CodeAfter(CodeIn(st, a), steps, a)
  {
  }

  lemma ReachedAfterOtherStep(st: Store, next: Store, steps: seq<Step>, to: Store)
    requires steps != [] && !steps[0].FiscalStep? && Ensure(st, steps[0]) == Some(next)
    requires Reached(next, steps[1..], to)
    ensures Reached(st, steps, to)
  {
    StepParts(steps);
    assert FiscalSteps(steps) == FiscalSteps(steps[1..]) && next.fiscal == st.fiscal;
    assert to.accounts.Keys == st.accounts.Keys + Created(steps);
    assert to.schedules == st.schedules + Scheduled(steps);
    forall a | a in to.accounts ensures to.accounts[a] == CodeAfter(CodeIn(st, a), steps, a) {
      CodeAfterFirst(st, next, steps, a);
    }
  }

  /** A run with no cut completes exactly when its steps are feasible, and then reaches what they ask for. */
  lemma {:induction false} CompletesExactlyWhenFeasible(st: Store, steps: seq<Step>, cut: nat)
    requires cut >= |steps|
    ensures var run := Provision(st, steps, cut);
            && (run.completed <==> StoreIsReady(st, steps))
            && (run.completed ==> Reached(st, steps, run.store))
    decreases |steps|
  {
    if steps != [] {
      ReadyForTheFirst(st, steps);
      var first := Ensure(st, steps[0]);
      if first.Some? {
        CompletesExactlyWhenFeasible(first.value, steps[1..], cut - 1);
        var run := Provision(first.value, steps[1..], cut - 1);
        if run.completed {
          if steps[0].FiscalStep? {
            ReachedAfterFiscalStep(st, first.value, steps, run.store);
          } else {
            ReachedAfterOtherStep(st, first.value, steps, run.store);
          }
        }
      }
    }
  }

  // ----- interrupted runs -----

  /** Between the start and the end of the steps: nothing foreign, nothing lost, and accounts without a link
      untouched. */
  ghost predicate Between(from: Store, steps: seq<Step>, st: Store) {
    && from.accounts.Keys <= st.accounts.Keys <= from.accounts.Keys + Created(steps)
    && from.schedules <= st.schedules <= from.schedules + Scheduled(steps)
    && st.systemSource == from.systemSource
    && F.CarriedOut(from.fiscal, FiscalSteps(steps), 0, st.fiscal)
    && forall a | a in st.accounts && LastCode(steps, a).None? ::
         st.accounts[a] == if a in from.accounts then from.accounts[a] else None
  }

  lemma {:induction false} LinkedAccountsHaveACode(steps: seq<Step>, i: nat)
    requires i < |steps| && steps[i].Link?
    ensures LastCode(steps, steps[i].account).Some?
  {
    if i > 0 { LinkedAccountsHaveACode(steps[1..], i - 1); }
  }

  /** How many fiscal steps come before position i. */
  function FiscalBefore(steps: seq<Step>, i: nat): nat
    requires i <= |steps|
  {
    if i == 0 then 0 else FiscalBefore(steps, i - 1) + if steps[i - 1].FiscalStep? then 1 else 0
  }

  lemma {:induction false} FiscalPosition(steps: seq<Step>, i: nat)
    requires i <= |steps|
    ensures FiscalBefore(steps, i) <= |FiscalSteps(steps)|
    ensures i < |steps| && steps[i].FiscalStep? ==>
              FiscalBefore(steps, i) < |FiscalSteps(steps)|
                && FiscalSteps(steps)[FiscalBefore(steps, i)] == steps[i].step
  {
    if i > 0 {
      FiscalPosition(steps[1..], i - 1);
      FiscalShift(steps, i);
    }
  }

  lemma {:induction false} FiscalShift(steps: seq<Step>, i: nat)
    requires 0 < i <= |steps|
    ensures FiscalBefore(steps, i) == FiscalBefore(steps[1..], i - 1) + if steps[0].FiscalStep? then 1 else 0
  {
    if i > 1 { FiscalShift(steps, i - 1); }
  }

  /** At position i of a run, every fiscal step before it has been carried out. */
  ghost predicate BetweenAt(from: Store, steps: seq<Step>, st: Store, i: nat)
    requires i <= |steps|
  {
    Between(from, steps, st) && F.CarriedOut(from.fiscal, FiscalSteps(steps), FiscalBefore(steps, i), st.fiscal)
  }

  lemma StepStaysBetween(from: Store, steps: seq<Step>, st: Store, i: nat)
    requires i < |steps| && BetweenAt(from, steps, st, i) && Ensure(st, steps[i]).Some?
    ensures BetweenAt(from, steps, Ensure(st, steps[i]).value, i + 1)
  {
    if steps[i].Link? { LinkedAccountsHaveACode(steps, i); }
    if steps[i].FiscalStep? {
      FiscalPosition(steps, i);
      F.NextStepIsCarriedOut(from.fiscal, FiscalSteps(steps), FiscalBefore(steps, i), st.fiscal);
    }
  }

  lemma {:induction false} CutRunStaysBetween(from: Store, steps: seq<Step>, st: Store, i: nat, cut: nat)
    requires i <= |steps| && BetweenAt(from, steps, st, i)
    ensures Between(from, steps, Provision(st, steps[i..], cut).store)
    decreases |steps| - i
  {
    if i < |steps| && cut > 0 && Ensure(st, steps[i]).Some? {
      assert steps[i..][0] == steps[i] && steps[i..][1..] == steps[i + 1..];
      StepStaysBetween(from, steps, st, i);
      CutRunStaysBetween(from, steps, Ensure(st, steps[i]).value, i + 1, cut - 1);
    }
  }

  function Runs(st: Store, steps: seq<Step>, cuts: seq<nat>): Store
    decreases |cuts|
  {
    if cuts == [] then st else Runs(Provision(st, steps, cuts[0]).store, steps, cuts[1..])
  }

  lemma {:induction false} CutRunsStayBetween(from: Store, steps: seq<Step>, st: Store, cuts: seq<nat>)
    requires Between(from, steps, st)
    ensures Between(from, steps, Runs(st, steps, cuts))
    decreases |cuts|
  {
    if cuts != [] {
      assert steps[0..] == steps;
      CutRunStaysBetween(from, steps, st, 0, cuts[0]);
      CutRunsStayBetween(from, steps, Provision(st, steps, cuts[0]).store, cuts[1..]);
    }
  }

  lemma {:induction false} FeasibleIsMonotone(known: set<nat>, more: set<nat>, source: bool, steps: seq<Step>)
    requires known <= more && Feasible(known, source, steps)
    ensures Feasible(more, source, steps)
    decreases |steps|
  {
    if steps != [] {
      FeasibleIsMonotone(With(known, steps[0]), With(more, steps[0]), source, steps[1..]);
    }
  }

  /** The content of a store, without the count of writes. */
  function Content(st: Store): Store { st.(writes := 0) }

  /** Interrupted provisioning converges: after any cut runs, one complete run reaches exactly what a single
      complete run from the start reaches. */
  lemma {:induction false} ProvisioningConverges(st: Store, steps: seq<Step>, cuts: seq<nat>)
    requires StoreIsReady(st, steps)
    ensures var run, once := Provision(Runs(st, steps, cuts), steps, |steps|), Provision(st, steps, |steps|);
            && run.completed && once.completed
            && Content(run.store) == Content(once.store) && Reached(st, steps, run.store)
  {
    assert FiscalSteps(steps)[..0] == [];
    CutRunsStayBetween(st, steps, st, cuts);
    var left := Runs(st, steps, cuts);
    F.StartingOverEndsTheSame(st.fiscal, FiscalSteps(steps), left.fiscal);
    FeasibleIsMonotone(st.accounts.Keys, left.accounts.Keys, left.systemSource, steps);
    CompletesExactlyWhenFeasible(left, steps, |steps|);
    CompletesExactlyWhenFeasible(st, steps, |steps|);
    var run, once := Provision(left, steps, |steps|).store, Provision(st, steps, |steps|).store;
    assert run.accounts.Keys == once.accounts.Keys;
    assert run.accounts == once.accounts by {
      forall a | a in run.accounts ensures run.accounts[a] == once.accounts[a] {}
    }
  }

  // ----- writes on a further run -----

  /** No account is given two different codes. */
  predicate Consistent(steps: seq<Step>) {
    forall i, j | 0 <= i < j < |steps| && steps[i].Link? && steps[j].Link? && steps[i].account == steps[j].account ::
      steps[i].schedule == steps[j].schedule
  }

  /** The step finds what it asks for. */
  predicate Satisfied(st: Store, step: Step) {
    match step
    case Account(n) => n in st.accounts
    case Schedule(n) => n in st.schedules
    case Link(a, s) => a in st.accounts && st.accounts[a] == Some(s)
    case JournalSource => st.systemSource
    case FiscalStep(s) => F.Satisfied(st.fiscal, s)
  }

  lemma {:induction false} WritesOnlyGrow(st: Store, steps: seq<Step>, cut: nat)
    ensures Provision(st, steps, cut).store.writes >= st.writes
    decreases |steps|
  {
    if steps != [] && cut > 0 && Ensure(st, steps[0]).Some? {
      WritesOnlyGrow(Ensure(st, steps[0]).value, steps[1..], cut - 1);
    }
  }

  lemma {:induction false} NoWritesExactlyWhenSatisfied(st: Store, steps: seq<Step>)
    requires Provision(st, steps, |steps|).completed
    ensures Provision(st, steps, |steps|).store.writes == st.writes
      <==> forall i | 0 <= i < |steps| :: Satisfied(st, steps[i])
    ensures Provision(st, steps, |steps|).store.writes == st.writes ==> Provision(st, steps, |steps|).store == st
    decreases |steps|
  {
    if steps != [] {
      var next := Ensure(st, steps[0]).value;
      WritesOnlyGrow(next, steps[1..], |steps| - 1);
      NoWritesExactlyWhenSatisfied(next, steps[1..]);
      if Satisfied(st, steps[0]) {
        assert next == st;
        assert forall i | 1 <= i < |steps| :: steps[i] == steps[1..][i - 1];
      }
    }
  }

  lemma {:induction false} LastCodeIsALink(steps: seq<Step>, a: nat) returns (i: nat)
    requires LastCode(steps, a).Some?
    ensures i < |steps| && steps[i] == Link(a, LastCode(steps, a).value)
  {
    if LastCode(steps[1..], a).Some? {
      i := LastCodeIsALink(steps[1..], a);
      i := i + 1;
    } else {
      i := 0;
    }
  }

  lemma {:induction false} FeasibleAt(known: set<nat>, source: bool, steps: seq<Step>, i: nat)
    requires Feasible(known, source, steps) && i < |steps|
    ensures steps[i].JournalSource? ==> source
    ensures steps[i].Link? ==> steps[i].account in known + Created(steps)
    decreases |steps|
  {
    StepParts(steps);
    if i > 0 {
      FeasibleAt(With(known, steps[0]), source, steps[1..], i - 1);
    }
  }

  /** After a complete run a further complete run writes nothing, exactly when no account is linked to two schedules. */
  lemma {:induction false} FurtherRunIsSilentExactlyWhenConsistent(st: Store, steps: seq<Step>)
    requires StoreIsReady(st, steps)
    ensures var done := Provision(st, steps, |steps|).store;
            Provision(done, steps, |steps|).store == done <==> Consistent(steps)
  {
    CompletesExactlyWhenFeasible(st, steps, |steps|);
    var done := Provision(st, steps, |steps|).store;
    FeasibleIsMonotone(st.accounts.Keys, done.accounts.Keys, st.systemSource, steps);
    F.AllCarriedOut(st.fiscal, FiscalSteps(steps), done.fiscal);
    F.StartingOverEndsTheSame(st.fiscal, FiscalSteps(steps), done.fiscal);
    CompletesExactlyWhenFeasible(done, steps, |steps|);
    NoWritesExactlyWhenSatisfied(done, steps);
    if Consistent(steps) {
      forall i | 0 <= i < |steps| ensures Satisfied(done, steps[i]) {
        FeasibleAt(st.accounts.Keys, st.systemSource, steps, i);
        if steps[i].FiscalStep? {
          FiscalPosition(steps, i);
          F.AllSatisfiedAfter(st.fiscal, FiscalSteps(steps), FiscalBefore(steps, i));
        }
        if steps[i].Link? {
          LinkedAccountsHaveACode(steps, i);
          var j := LastCodeIsALink(steps, steps[i].account);
          assert i < j || j < i || i == j;
        }
      }
    } else {
      var i, j :| 0 <= i < j < |steps| && steps[i].Link? && steps[j].Link? && steps[i].account == steps[j].account
                  && steps[i].schedule != steps[j].schedule;
      assert !(Satisfied(done, steps[i]) && Satisfied(done, steps[j]));
    }
  }
}
