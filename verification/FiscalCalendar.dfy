/** The fiscal calendar of coa-service as the floorplan script drives it: define the calendar, generate the year, open
    the period the postings fall in. */
module FiscalCalendar {
  import opened Sums

  datatype Structure = Twelve | TwelvePlus13th

  datatype Calendar = Calendar(startMonth: nat, structure: Structure)

  datatype Status = Future | Open | SoftClosed | HardClosed | Locked

  /** Year and month; month 13 is the adjustment period. */
  datatype Code = Code(year: int, month: int)

  datatype Period = Period(fiscalYear: int, status: Status)

  /** One entity. The code of a period is unique over all its fiscal years; posted says whether there are postings. */
  datatype Fiscal = Fiscal(calendar: Option<Calendar>, periods: map<Code, Period>, posted: bool, maxOpen: nat)

  datatype Step = DefineCalendar | GenerateYear | OpenPeriod

  const TARGET := Calendar(1, Twelve)
  const YEAR := 2026
  const CODE := Code(2026, 8)

  function Month(year: int, start: nat, k: nat): Code {
    Code(year + (start - 1 + k) / 12, (start - 1 + k) % 12 + 1)
  }

  function Codes(year: int, calendar: Calendar): set<Code> {
    (set k: nat | k < 12 :: Month(year, calendar.startMonth, k))
    + if calendar.structure == TwelvePlus13th then {Code(year, 13)} else {}
  }

  method GeneratePeriods(year: int, calendar: Calendar) returns (codes: seq<Code>)
    requires 1 <= calendar.startMonth <= 12
    ensures (set c | c in codes) == Codes(year, calendar)
    ensures |codes| == if calendar.structure == Twelve then 12 else 13
    // from the first month of the fiscal year each month follows the one before, December by January
    ensures codes[0] == Code(year, calendar.startMonth)
    ensures forall i | 0 < i < 12 ::
              codes[i] == if codes[i - 1].month == 12 then Code(codes[i - 1].year + 1, 1)
                          else Code(codes[i - 1].year, codes[i - 1].month + 1)
    ensures calendar.structure == TwelvePlus13th ==> codes[12] == Code(year, 13)
  {
    codes := [];
    for k := 0 to 12
      invariant |codes| == k && forall i | 0 <= i < k :: codes[i] == Month(year, calendar.startMonth, i)
      invariant k > 0 ==> codes[0] == Code(year, calendar.startMonth)
      invariant forall i | 0 < i < k ::
                  codes[i] == if codes[i - 1].month == 12 then Code(codes[i - 1].year + 1, 1)
                              else Code(codes[i - 1].year, codes[i - 1].month + 1)
    {
      codes := codes + [Month(year, calendar.startMonth, k)];
    }
    assert (set c | c in codes) == set k: nat | k < 12 :: Month(year, calendar.startMonth, k) by {
      forall k: nat | k < 12 ensures Month(year, calendar.startMonth, k) in codes {
        assert codes[k] == Month(year, calendar.startMonth, k);
      }
    }
    if calendar.structure == TwelvePlus13th {
      codes := codes + [Code(year, 13)];
    }
  }

  predicate Generated(f: Fiscal) {
    exists c | c in f.periods :: f.periods[c].fiscalYear == YEAR
  }

  function OpenOnes(f: Fiscal): set<Code> {
    set c | c in f.periods && f.periods[c].status == Open
  }

  /** A calendar that would change is refused once there are postings; a year that is there is passed over, but a new
      one must not repeat the code of a period; a locked period, or one too many, cannot be opened. */
  function Ensure(f: Fiscal, step: Step): Option<Fiscal> {
    match step
    case DefineCalendar =>
      if f.calendar == Some(TARGET) then Some(f)
      else if f.calendar.Some? && f.posted then None
      else Some(f.(calendar := Some(TARGET)))
    case GenerateYear =>
      if Generated(f) then Some(f)
      else if f.calendar.None? || Codes(YEAR, f.calendar.value) * f.periods.Keys != {} then None
      else
        var added := map c | c in Codes(YEAR, f.calendar.value) :: Period(YEAR, Future);
        Some(f.(periods := f.periods + added))
    case OpenPeriod =>
      if CODE !in f.periods || f.periods[CODE].fiscalYear != YEAR then None
      else if f.periods[CODE].status == Open then Some(f)
      else if f.periods[CODE].status == Locked || |OpenOnes(f)| >= f.maxOpen then None
      else Some(f.(periods := f.periods[CODE := Period(YEAR, Open)]))
  }

  function EnsureAll(f: Fiscal, steps: seq<Step>): Option<Fiscal>
    decreases |steps|
  {
    if steps == [] then Some(f)
    else match Ensure(f, steps[0])
      case None => None
      case Some(next) => EnsureAll(next, steps[1..])
  }

  predicate Satisfied(f: Fiscal, step: Step) {
    Ensure(f, step) == Some(f)
  }

  /** A step that was carried out finds what it asks for from then on, whatever steps follow. */
  lemma StepsStaySatisfied(f: Fiscal, step: Step, other: Step)
    requires Ensure(f, step).Some?
    ensures Satisfied(Ensure(f, step).value, step)
    ensures Ensure(f, other).Some? && Satisfied(f, step) ==> Satisfied(Ensure(f, other).value, step)
  {
    if step == GenerateYear {
      GeneratedHas(f);
    }
    if Ensure(f, other).Some? && step == GenerateYear && Generated(f) {
      var next := Ensure(f, other).value;
      var c :| c in f.periods && f.periods[c].fiscalYear == YEAR;
      assert c in next.periods && next.periods[c].fiscalYear == YEAR;
    }
  }

  lemma GeneratedHas(f: Fiscal)
    requires Ensure(f, GenerateYear).Some?
    ensures Generated(Ensure(f, GenerateYear).value)
  {
    if !Generated(f) {
      var next := Ensure(f, GenerateYear).value;
      var first := Month(YEAR, f.calendar.value.startMonth, 0);
      assert first in next.periods && next.periods[first].fiscalYear == YEAR;
    }
  }

  lemma {:induction false} StaysSatisfied(f: Fiscal, step: Step, steps: seq<Step>)
    requires Satisfied(f, step) && EnsureAll(f, steps).Some?
    ensures Satisfied(EnsureAll(f, steps).value, step)
    decreases |steps|
  {
    if steps != [] {
      StepsStaySatisfied(f, step, steps[0]);
      StaysSatisfied(Ensure(f, steps[0]).value, step, steps[1..]);
    }
  }

  lemma {:induction false} AllSatisfiedAfter(f: Fiscal, steps: seq<Step>, i: nat)
    requires i < |steps| && EnsureAll(f, steps).Some?
    ensures Satisfied(EnsureAll(f, steps).value, steps[i])
    decreases |steps|
  {
    var next := Ensure(f, steps[0]).value;
    StepsStaySatisfied(f, steps[0], steps[0]);
    if i == 0 {
      StaysSatisfied(next, steps[0], steps[1..]);
    } else {
      AllSatisfiedAfter(next, steps[1..], i - 1);
    }
  }

  lemma {:induction false} EnsureAllAppend(f: Fiscal, first: seq<Step>, second: seq<Step>)
    ensures EnsureAll(f, first + second)
         == match EnsureAll(f, first) case None => None case Some(next) => EnsureAll(next, second)
    decreases |first|
  {
    if first == [] {
      assert first + second == second;
    } else {
      assert (first + second)[1..] == first[1..] + second;
      match Ensure(f, first[0])
      case None =>
      case Some(next) => EnsureAllAppend(next, first[1..], second);
    }
  }

  lemma {:induction false} OneStep(f: Fiscal, a: Step)
    ensures EnsureAll(f, [a]) == Ensure(f, a)
  {
    assert [a][1..] == [];
    if Ensure(f, a).Some? {
      assert EnsureAll(Ensure(f, a).value, []) == Ensure(f, a);
    }
  }

  lemma {:induction false} SatisfiedStepsChangeNothing(f: Fiscal, steps: seq<Step>)
    requires forall i | 0 <= i < |steps| :: Satisfied(f, steps[i])
    ensures EnsureAll(f, steps) == Some(f)
    decreases |steps|
  {
    if steps != [] {
      assert forall i | 0 <= i < |steps[1..]| :: steps[1..][i] == steps[i + 1];
      SatisfiedStepsChangeNothing(f, steps[1..]);
    }
  }

  /** The first steps were carried out, and possibly some of those behind them. */
  ghost predicate CarriedOut(from: Fiscal, steps: seq<Step>, least: nat, f: Fiscal) {
    exists j | least <= j <= |steps| :: EnsureAll(from, steps[..j]) == Some(f)
  }

  lemma NextStepIsCarriedOut(from: Fiscal, steps: seq<Step>, i: nat, f: Fiscal)
    requires i < |steps| && CarriedOut(from, steps, i, f) && Ensure(f, steps[i]).Some?
    ensures CarriedOut(from, steps, i + 1, Ensure(f, steps[i]).value)
  {
    var j :| i <= j <= |steps| && EnsureAll(from, steps[..j]) == Some(f);
    if i < j {
      AllSatisfiedAfter(from, steps[..j], i);
    } else {
      assert steps[..i + 1] == steps[..i] + [steps[i]];
      EnsureAllAppend(from, steps[..i], [steps[i]]);
      OneStep(f, steps[i]);
      assert EnsureAll(from, steps[..i + 1]) == Ensure(f, steps[i]);
    }
  }

  lemma {:induction false} AllCarriedOut(from: Fiscal, steps: seq<Step>, f: Fiscal)
    requires EnsureAll(from, steps) == Some(f)
    ensures CarriedOut(from, steps, 0, f)
  {
    assert steps[..|steps|] == steps;
  }

  /** From wherever the steps were cut off, all of them again end where they would have ended. */
  lemma {:induction false} StartingOverEndsTheSame(from: Fiscal, steps: seq<Step>, f: Fiscal)
    requires CarriedOut(from, steps, 0, f)
    ensures EnsureAll(f, steps) == EnsureAll(from, steps)
  {
    var j :| 0 <= j <= |steps| && EnsureAll(from, steps[..j]) == Some(f);
    var first, second := steps[..j], steps[j..];
    assert steps == first + second;
    EnsureAllAppend(from, first, second);
    EnsureAllAppend(f, first, second);
    forall i | 0 <= i < |first| ensures Satisfied(f, first[i]) {
      AllSatisfiedAfter(from, first, i);
    }
    SatisfiedStepsChangeNothing(f, first);
  }

  const SCRIPT := [DefineCalendar, GenerateYear, OpenPeriod]

  /** What the fiscal part of the script needs: a calendar that may be changed if it is another one; the year free of
      clashes, or there with the period in it; and the period open, or not locked and room for one more. */
  predicate Ready(f: Fiscal) {
    && (f.calendar == None || f.calendar == Some(TARGET) || !f.posted)
    && (if Generated(f) then CODE in f.periods && f.periods[CODE].fiscalYear == YEAR
        else forall c | c in f.periods :: !(c.year == YEAR && 1 <= c.month <= 12))
    && ((Generated(f) && f.periods[CODE].status == Open)
        || (|OpenOnes(f)| < f.maxOpen && (Generated(f) ==> f.periods[CODE].status != Locked)))
  }

  lemma TargetCodes()
    ensures forall c :: c in Codes(YEAR, TARGET) <==> c.year == YEAR && 1 <= c.month <= 12
  {
    forall c: Code | c.year == YEAR && 1 <= c.month <= 12 ensures c in Codes(YEAR, TARGET) {
      assert c == Month(YEAR, 1, c.month - 1);
    }
  }

  lemma NewYearOpensNothing(f: Fiscal)
    requires !Generated(f) && Ensure(f, GenerateYear).Some?
    ensures OpenOnes(Ensure(f, GenerateYear).value) == OpenOnes(f)
  {
  }

  /** The year and the period are there, and nothing else has changed but for new periods that are not open. */
  ghost predicate Opened(f: Fiscal, g: Fiscal) {
    && CODE in g.periods && g.periods[CODE] == Period(YEAR, Open)
    && OpenOnes(g) == OpenOnes(f) + {CODE}
    && f.periods.Keys <= g.periods.Keys
    && forall c | c in f.periods && c != CODE :: g.periods[c] == f.periods[c]
  }

  lemma PeriodStep(f: Fiscal)
    requires CODE in f.periods && f.periods[CODE].fiscalYear == YEAR
    ensures Ensure(f, OpenPeriod).Some?
       <==> f.periods[CODE].status == Open || (|OpenOnes(f)| < f.maxOpen && f.periods[CODE].status != Locked)
    ensures Ensure(f, OpenPeriod).Some? ==> Opened(f, Ensure(f, OpenPeriod).value)
  {
  }

  lemma NewYearStep(f: Fiscal)
    requires f.calendar == Some(TARGET) && !Generated(f)
    ensures Ensure(f, GenerateYear).Some? <==> forall c | c in f.periods :: !(c.year == YEAR && 1 <= c.month <= 12)
    ensures Ensure(f, GenerateYear).Some? ==>
              var next := Ensure(f, GenerateYear).value;
              && CODE in next.periods && next.periods[CODE] == Period(YEAR, Future)
              && f.periods.Keys <= next.periods.Keys
              && forall c | c in f.periods :: c != CODE && next.periods[c] == f.periods[c]
  {
    TargetCodes();
    assert CODE in Codes(YEAR, TARGET);
    if Codes(YEAR, TARGET) * f.periods.Keys != {} {
      var c :| c in Codes(YEAR, TARGET) * f.periods.Keys;
    }
  }

  lemma {:induction false} TwoSteps(f: Fiscal, a: Step, b: Step)
    ensures EnsureAll(f, [a, b]) == match Ensure(f, a) case None => None case Some(next) => Ensure(next, b)
  {
    assert [a, b] == [a] + [b];
    EnsureAllAppend(f, [a], [b]);
    OneStep(f, a);
    if Ensure(f, a).Some? {
      OneStep(Ensure(f, a).value, b);
    }
  }

  /** Once the calendar is the script's own. */
  lemma {:induction false} YearAndPeriod(f: Fiscal)
    requires f.calendar == Some(TARGET)
    ensures EnsureAll(f, [GenerateYear, OpenPeriod]).Some? <==> Ready(f)
    ensures EnsureAll(f, [GenerateYear, OpenPeriod]).Some? ==>
              Opened(f, EnsureAll(f, [GenerateYear, OpenPeriod]).value)
  {
    TwoSteps(f, GenerateYear, OpenPeriod);
    if Generated(f) {
      if CODE in f.periods && f.periods[CODE].fiscalYear == YEAR {
        PeriodStep(f);
      }
    } else {
      NewYearStep(f);
      if Ensure(f, GenerateYear).Some? {
        NewYearOpensNothing(f);
        PeriodStep(Ensure(f, GenerateYear).value);
      }
    }
  }

  lemma DefineStep(f: Fiscal)
    ensures match Ensure(f, DefineCalendar)
            case None => !Ready(f)
            case Some(next) =>
              && next.calendar == Some(TARGET) && next.periods == f.periods && OpenOnes(next) == OpenOnes(f)
              && (Ready(next) <==> Ready(f))
  {
    if Ensure(f, DefineCalendar).Some? {
      var next := Ensure(f, DefineCalendar).value;
      assert Generated(next) == Generated(f) && OpenOnes(next) == OpenOnes(f);
    }
  }

  /** The fiscal steps succeed exactly when the entity is ready for them, and then leave the period open, with every
      other period as it was or new and not open. */
  lemma {:induction false} FiscalStepsSucceedExactlyWhenReady(f: Fiscal)
    ensures EnsureAll(f, SCRIPT).Some? <==> Ready(f)
    ensures EnsureAll(f, SCRIPT).Some? ==> Opened(f, EnsureAll(f, SCRIPT).value)
  {
    assert SCRIPT == [DefineCalendar] + [GenerateYear, OpenPeriod];
    EnsureAllAppend(f, [DefineCalendar], [GenerateYear, OpenPeriod]);
    OneStep(f, DefineCalendar);
    DefineStep(f);
    if Ensure(f, DefineCalendar).Some? {
      YearAndPeriod(Ensure(f, DefineCalendar).value);
    }
  }
}
