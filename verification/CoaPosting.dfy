/** coa-service's own posting service, the door of manual journals and drafts (rule-engine postings go to gl-service):
    its rules, running balances, and its bridge to schedule-service. */
module CoaPosting {
  import opened Sums
  import opened PostingDsl
  import opened Ledger
  import OpenItems

  // ----- the journal rules -----

  /** What the evaluator objects to: the journal as a whole, or one of its lines. */
  datatype Violation =
    | NoLine
    | NegativeAmount(line: nat)
    | BothSides(line: nat)
    | NoSide(line: nat)
    | NoAccount(line: nat)
    | NoDepartment(line: nat)
    | NoStore(line: nat)
    | Unbalanced

  predicate Blank(s: string) { OpenItems.Trim(s) == "" }

  predicate InChart(l: Line, chart: Chart) { l.account.Gl? && l.account.number in chart }

  /** A profit-and-loss line needs a department. */
  predicate LacksDepartment(l: Line, chart: Chart) {
    && InChart(l, chart) && chart[l.account.number].kind in {Revenue, Expense}
    && (l.dept.None? || Blank(l.dept.value))
  }

  function PositiveDr(ls: seq<Line>): int {
    if ls == [] then 0 else Max(0, ls[0].dr) + PositiveDr(ls[1..])
  }

  function PositiveCr(ls: seq<Line>): int {
    if ls == [] then 0 else Max(0, ls[0].cr) + PositiveCr(ls[1..])
  }

  predicate LineBreaks(v: Violation, l: Line, chart: Chart) {
    match v
    case NegativeAmount(_) => l.dr < 0 || l.cr < 0
    case BothSides(_) => l.dr > 0 && l.cr > 0
    case NoSide(_) => l.dr <= 0 && l.cr <= 0
    case NoAccount(_) => !InChart(l, chart)
    case NoDepartment(_) => LacksDepartment(l, chart)
    case NoStore(_) => Blank(l.storeId)
    case _ => false
  }

  predicate Breaks(v: Violation, ls: seq<Line>, chart: Chart) {
    if v.NoLine? then ls == []
    else if v.Unbalanced? then PositiveDr(ls) != PositiveCr(ls)
    else v.line < |ls| && LineBreaks(v, ls[v.line], chart)
  }

  /** What a journal must be to be posted. */
  predicate Postable(ls: seq<Line>, chart: Chart) {
    && ls != [] && TotalDr(ls) == TotalCr(ls)
    && forall l | l in ls ::
         && ((l.dr > 0 && l.cr == 0) || (l.dr == 0 && l.cr > 0))
         && l.account.Gl? && l.account.number in chart && !Blank(l.storeId)
         && (chart[l.account.number].kind in {Revenue, Expense} ==> l.dept.Some? && !Blank(l.dept.value))
  }

  /** The checks on one line. */
  method EvaluateLine(l: Line, i: nat, chart: Chart) returns (violations: seq<Violation>)
    ensures forall v :: v in violations
              <==> !v.NoLine? && !v.Unbalanced? && v.line == i && LineBreaks(v, l, chart)
  {
    violations := [];
    if l.dr < 0 || l.cr < 0 { violations := violations + [NegativeAmount(i)]; }
    if l.dr > 0 && l.cr > 0 {
      violations := violations + [BothSides(i)];
    } else if l.dr <= 0 && l.cr <= 0 {
      violations := violations + [NoSide(i)];
    }
    if !l.account.Gl? || l.account.number !in chart {
      violations := violations + [NoAccount(i)];
    } else if chart[l.account.number].kind in {Revenue, Expense} {
      if l.dept.None? || OpenItems.Trim(l.dept.value) == "" { violations := violations + [NoDepartment(i)]; }
    }
    if OpenItems.Trim(l.storeId) == "" { violations := violations + [NoStore(i)]; }
  }

  lemma {:induction false} PositiveTotalsSnoc(ls: seq<Line>, l: Line)
    ensures PositiveDr(ls + [l]) == PositiveDr(ls) + Max(0, l.dr)
    ensures PositiveCr(ls + [l]) == PositiveCr(ls) + Max(0, l.cr)
  {
    if ls == [] {
      assert ls + [l] == [l] && [l][1..] == [];
    } else {
      assert (ls + [l])[1..] == ls[1..] + [l];
      PositiveTotalsSnoc(ls[1..], l);
    }
  }

  /** The evaluator: it reports every violation of the journal and no other, and none exactly of a postable one. */
  method Evaluate(ls: seq<Line>, chart: Chart) returns (violations: seq<Violation>, totalDr: int, totalCr: int)
    ensures forall v :: v in violations <==> Breaks(v, ls, chart)
    ensures violations == [] <==> Postable(ls, chart)
    ensures violations == [] ==> totalDr == TotalDr(ls) && totalCr == TotalCr(ls)
  {
    violations, totalDr, totalCr := if ls == [] then [NoLine] else [], 0, 0;
    for i := 0 to |ls|
      invariant totalDr == PositiveDr(ls[..i]) && totalCr == PositiveCr(ls[..i])
      invariant forall v :: v in violations
                  <==> if v.NoLine? then ls == []
                       else !v.Unbalanced? && v.line < i && LineBreaks(v, ls[v.line], chart)
    {
      var more := EvaluateLine(ls[i], i, chart);
      violations := violations + more;
      assert ls[..i + 1] == ls[..i] + [ls[i]];
      PositiveTotalsSnoc(ls[..i], ls[i]);
      totalDr := totalDr + Max(0, ls[i].dr);
      totalCr := totalCr + Max(0, ls[i].cr);
    }
    assert ls[..|ls|] == ls;
    if totalDr != totalCr { violations := violations + [Unbalanced]; }
    assert forall v :: v in violations <==> Breaks(v, ls, chart);
    NothingBreaksAPostable(ls, chart, violations);
  }

  lemma {:induction false} PositiveTotalsAreTotals(ls: seq<Line>)
    requires forall l | l in ls :: l.dr >= 0 && l.cr >= 0
    ensures PositiveDr(ls) == TotalDr(ls) && PositiveCr(ls) == TotalCr(ls)
  {
    if ls != [] { PositiveTotalsAreTotals(ls[1..]); }
  }

  lemma {:induction false} NothingBreaksAPostable(ls: seq<Line>, chart: Chart, violations: seq<Violation>)
    requires forall v :: v in violations <==> Breaks(v, ls, chart)
    ensures violations == [] <==> Postable(ls, chart)
    ensures violations == [] ==> PositiveDr(ls) == TotalDr(ls) && PositiveCr(ls) == TotalCr(ls)
  {
    if violations == [] {
      forall l | l in ls
        ensures ((l.dr > 0 && l.cr == 0) || (l.dr == 0 && l.cr > 0)) && InChart(l, chart)
        ensures !LacksDepartment(l, chart) && !Blank(l.storeId)
      {
        var i :| 0 <= i < |ls| && ls[i] == l;
        assert !Breaks(NegativeAmount(i), ls, chart) && !Breaks(BothSides(i), ls, chart);
        assert !Breaks(NoSide(i), ls, chart) && !Breaks(NoAccount(i), ls, chart);
        assert !Breaks(NoDepartment(i), ls, chart) && !Breaks(NoStore(i), ls, chart);
      }
      assert !Breaks(NoLine, ls, chart) && !Breaks(Unbalanced, ls, chart);
      PositiveTotalsAreTotals(ls);
    } else {
      assert violations[0] in violations;
      WhatBreaksIsNotPostable(violations[0], ls, chart);
    }
  }

  lemma WhatBreaksIsNotPostable(v: Violation, ls: seq<Line>, chart: Chart)
    requires Breaks(v, ls, chart)
    ensures !Postable(ls, chart)
  {
    if forall l | l in ls :: l.dr >= 0 && l.cr >= 0 { PositiveTotalsAreTotals(ls); }
  }

  // ----- the schedule bridge -----

  const CONTROL_WIDTH: nat := 10
  const APPLY_WIDTH: nat := 12

  /** What schedule-service receives for a line; the control number is also the reference number. */
  datatype Detail = Detail(account: nat, schedule: nat, control: string, amount: int, apply: Option<string>)

  predicate Keyed(l: Line) {
    l.control.Some? && l.control.value != ""
  }

  predicate Bridged(l: Line, chart: Chart) {
    l.account.Gl? && l.account.number in chart && chart[l.account.number].schedule.Some? && Keyed(l)
  }

  function BridgeDetail(l: Line, chart: Chart): Detail
    requires Bridged(l, chart)
  {
    Detail(l.account.number, chart[l.account.number].schedule.value, Truncate(l.control.value, CONTROL_WIDTH),
      Signed(l),
           if l.apply.Some? && l.apply.value != "" then Some(Truncate(l.apply.value, APPLY_WIDTH)) else None)
  }

  function Details(ls: seq<Line>, chart: Chart): seq<Detail> {
    if ls == [] then []
    else (if Bridged(ls[0], chart) then [BridgeDetail(ls[0], chart)] else []) + Details(ls[1..], chart)
  }

  function DetailSum(ds: seq<Detail>, a: nat): int {
    if ds == [] then 0 else (if ds[0].account == a then ds[0].amount else 0) + DetailSum(ds[1..], a)
  }

  /** The effect on an account of the lines that carry no control number. */
  function Unkeyed(ls: seq<Line>, a: nat): int {
    if ls == [] then 0
    else (if ls[0].account == Gl(a) && !Keyed(ls[0]) then Signed(ls[0]) else 0) + Unkeyed(ls[1..], a)
  }

  lemma {:induction false} DetailsAppend(xs: seq<Line>, ys: seq<Line>, chart: Chart)
    ensures Details(xs + ys, chart) == Details(xs, chart) + Details(ys, chart)
  {
    if xs == [] {
      assert xs + ys == ys;
    } else {
      assert (xs + ys)[1..] == xs[1..] + ys;
      DetailsAppend(xs[1..], ys, chart);
    }
  }

  lemma {:induction false} UnkeyedAppend(xs: seq<Line>, ys: seq<Line>, a: nat)
    ensures Unkeyed(xs + ys, a) == Unkeyed(xs, a) + Unkeyed(ys, a)
  {
    if xs == [] {
      assert xs + ys == ys;
    } else {
      assert (xs + ys)[1..] == xs[1..] + ys;
      UnkeyedAppend(xs[1..], ys, a);
    }
  }

  /** The sub-ledger of a scheduled account misses exactly the lines without a control number. */
  lemma {:induction false} SubLedgerMissesExactlyUnkeyedLines(ls: seq<Line>, chart: Chart, a: nat)
    requires a in chart && chart[a].schedule.Some?
    ensures Net(ls, a) - DetailSum(Details(ls, chart), a) == Unkeyed(ls, a)
  {
    if ls != [] {
      SubLedgerMissesExactlyUnkeyedLines(ls[1..], chart, a);
      var rest := Details(ls[1..], chart);
      if Bridged(ls[0], chart) {
        assert Details(ls, chart)[1..] == rest;
      } else {
        assert Details(ls, chart) == rest;
      }
    }
  }

  // ----- the posting service -----

  predicate CreditNormal(k: AccountType) {
    k.Liability? || k.Equity? || k.Revenue?
  }

  /** The stored balance grows with the account's normal side. */
  function NormalSide(k: AccountType, net: int): int {
    if CreditNormal(k) then -net else net
  }

  /** The account totals of one entry, in first-seen order. */
  datatype Totals = Totals(dr: int, cr: int)

  /** The totals of an entry: every touched account once, with its debits and credits. */
  ghost predicate Aggregates(perAccount: map<nat, Totals>, order: seq<nat>, ls: seq<Line>, chart: Chart) {
    && perAccount.Keys == (set a | a in order)
    && (forall j, k | 0 <= j < k < |order| :: order[j] != order[k])
    && perAccount.Keys <= chart.Keys
    && (forall a: nat :: Net(ls, a) == if a in perAccount then perAccount[a].dr - perAccount[a].cr else 0)
  }

  lemma AggregateOne(perAccount: map<nat, Totals>, order: seq<nat>, ls: seq<Line>, line: Line, chart: Chart)
    requires Aggregates(perAccount, order, ls, chart)
    requires line.account.Gl? && line.account.number in chart
    ensures var a := line.account.number;
            var agg := if a in perAccount then perAccount[a] else Totals(0, 0);
            Aggregates(perAccount[a := Totals(agg.dr + line.dr, agg.cr + line.cr)],
                       if a in perAccount then order else order + [a], ls + [line], chart)
  {
    var a := line.account.number;
    forall b: nat ensures Net(ls + [line], b) == Net(ls, b) + if b == a then Signed(line) else 0 {
      NetAppend(ls, [line], b);
      assert Net([line], b) == if b == a then Signed(line) else 0;
    }
  }

  class PostingService {
    const chart: Chart
    var journal: seq<Line>
    var balances: map<nat, int>
    var details: seq<Detail>

    ghost predicate Valid()
      reads this
    {
      && Known(journal, chart)
      && balances.Keys == chart.Keys
      && (forall a | a in chart :: balances[a] == NormalSide(chart[a].kind, Net(journal, a)))
      && details == Details(journal, chart)
      && TotalDr(journal) == TotalCr(journal)
    }

    constructor (chart: Chart)
      ensures Valid() && this.chart == chart && journal == []
    {
      this.chart := chart;
      journal, details := [], [];
      balances := map a | a in chart :: 0;
    }

    /** The line loop: bridge details are written, and amounts are collected per account. */
    method WriteLines(lines: seq<Line>) returns (perAccount: map<nat, Totals>, order: seq<nat>)
      requires Known(lines, chart)
      modifies this`details
      ensures details == old(details) + Details(lines, chart)
      ensures Aggregates(perAccount, order, lines, chart)
    {
      perAccount, order := map[], [];
      for i := 0 to |lines|
        invariant details == old(details) + Details(lines[..i], chart)
        invariant Aggregates(perAccount, order, lines[..i], chart)
      {
        var line := lines[i];
        assert line in lines;
        var a := line.account.number;
        assert lines[..i + 1] == lines[..i] + [line];
        DetailsAppend(lines[..i], [line], chart);
        AggregateOne(perAccount, order, lines[..i], line, chart);
        if Bridged(line, chart) {
          details := details + [BridgeDetail(line, chart)];
        }
        if a !in perAccount {
          order := order + [a];
        }
        var agg := if a in perAccount then perAccount[a] else Totals(0, 0);
        perAccount := perAccount[a := Totals(agg.dr + line.dr, agg.cr + line.cr)];
      }
      assert lines[..|lines|] == lines;
    }

    /** The balance loop: each touched account is incremented once, on its normal side. */
    method UpdateBalances(perAccount: map<nat, Totals>, order: seq<nat>, ghost lines: seq<Line>)
      requires Aggregates(perAccount, order, lines, chart) && balances.Keys == chart.Keys
      modifies this`balances
      ensures balances.Keys == chart.Keys
      ensures forall a | a in chart :: balances[a] == old(balances)[a] + NormalSide(chart[a].kind, Net(lines, a))
      ensures forall a | a in chart && chart[a].kind in {Asset, Expense} ::
                balances[a] == old(balances)[a] + Net(lines, a)
      ensures forall a | a in chart && chart[a].kind in {Liability, Equity, Revenue} ::
                balances[a] == old(balances)[a] - Net(lines, a)
    {
      for k := 0 to |order|
        invariant balances.Keys == chart.Keys
        invariant forall a | a in chart :: balances[a] == old(balances)[a] + if a in order[..k]
          then NormalSide(chart[a].kind, Net(lines, a)) else 0
      {
        var a := order[k];
        assert a in perAccount && a !in order[..k];
        assert order[..k + 1] == order[..k] + [a];
        balances := balances[a := balances[a] + NormalSide(chart[a].kind, perAccount[a].dr - perAccount[a].cr)];
      }
      assert order[..|order|] == order;
    }

    /** A journal that breaks a rule is refused as a whole; any other is written with its balances and details. */
    method Post(lines: seq<Line>) returns (accepted: bool)
      requires Valid()
      modifies this
      ensures Valid()
      ensures accepted == Postable(lines, chart)
      ensures journal == if accepted then old(journal) + lines else old(journal)
      ensures accepted ==> forall a | a in chart && chart[a].kind in {Asset, Expense} ::
                balances[a] == old(balances)[a] + Net(lines, a)
      ensures accepted ==> forall a | a in chart && chart[a].kind in {Liability, Equity, Revenue} ::
                balances[a] == old(balances)[a] - Net(lines, a)
      ensures !accepted ==> unchanged(this)
    {
      var violations, _, _ := Evaluate(lines, chart);
      if violations != [] {
        return false;
      }
      var perAccount, order := WriteLines(lines);
      UpdateBalances(perAccount, order, lines);
      forall a: nat ensures Net(journal + lines, a) == Net(journal, a) + Net(lines, a) {
        NetAppend(journal, lines, a);
      }
      DetailsAppend(journal, lines, chart);
      TotalsAppend(journal, lines);
      journal := journal + lines;
      return true;
    }
  }

  /** The stored balances of the accounts of one kind. */
  ghost function KindTotal(balances: map<nat, int>, chart: Chart, accounts: set<nat>, kind: AccountType): int
    requires accounts <= balances.Keys && accounts <= chart.Keys
  {
    if accounts == {} then 0 else
      var a := Pick(accounts);
      (if chart[a].kind == kind then balances[a] else 0) + KindTotal(balances, chart, accounts - {a}, kind)
  }

  lemma {:induction false} KindsAreTheNet(balances: map<nat, int>, chart: Chart, ls: seq<Line>, accounts: set<nat>)
    requires accounts <= balances.Keys && accounts <= chart.Keys
    requires forall a | a in accounts :: balances[a] == NormalSide(chart[a].kind, Net(ls, a))
    ensures KindTotal(balances, chart, accounts, Asset) + KindTotal(balances, chart, accounts, Expense)
              - KindTotal(balances, chart, accounts, Liability) - KindTotal(balances, chart, accounts, Equity)
              - KindTotal(balances, chart, accounts, Revenue)
         == NetOver(ls, accounts)
  {
    if accounts != {} {
      KindsAreTheNet(balances, chart, ls, accounts - {Pick(accounts)});
    }
  }

  /** The trial balance of every valid ledger: the stored balances of assets and expenses add up to those of
      liabilities, equity and revenue. */
  lemma TrialBalanceIsZero(ledger: PostingService)
    requires ledger.Valid()
    ensures var b, chart := ledger.balances, ledger.chart;
            KindTotal(b, chart, chart.Keys, Asset) + KindTotal(b, chart, chart.Keys, Expense)
              == KindTotal(b, chart, chart.Keys, Liability) + KindTotal(b, chart, chart.Keys, Equity)
                 + KindTotal(b, chart, chart.Keys, Revenue)
  {
    KindsAreTheNet(ledger.balances, ledger.chart, ledger.journal, ledger.chart.Keys);
    BalancesAddUpToDebitsMinusCredits(ledger.journal, ledger.chart);
  }

  // ----- one key, two widths -----

  /** A detail as schedule-service receives it; its description is cut to fit. */
  function PostingOf(d: Detail, entry: string, date: int, correlation: nat): OpenItems.Posting {
    OpenItems.Posting(Some(d.schedule), d.account, d.control, d.control, entry, d.amount, date,
      match d.apply case None => OpenItems.Opening case Some(number) => OpenItems.ToItem(number), correlation, 0)
  }

  /** Two bridged lines of one account under one key, the second applying to that key: it names the item that the first
      opens exactly when the key has at most ten characters and no white space around it. */
  lemma OpeningAndReliefMeet(key: string, opening: Line, relief: Line, chart: Chart, entry: string, date: int,
    correlation: nat)
    requires Bridged(opening, chart) && Bridged(relief, chart) && opening.account == relief.account
    requires opening.control == relief.control == relief.apply == Some(key) && opening.apply.None?
    requires |entry| > APPLY_WIDTH
    ensures var first := PostingOf(BridgeDetail(opening, chart), entry, date, correlation);
            var second := PostingOf(BridgeDetail(relief, chart), entry, date, correlation);
            && first.mark.Opening? && second.mark.ToItem? && first.schedule == second.schedule
              && first.control == second.control
            && (second.mark.number == OpenItems.ItemNumber(first)
              <==> |key| <= CONTROL_WIDTH && OpenItems.Trim(key) == key)
  {
    OpenItems.TrimShortens(Truncate(key, CONTROL_WIDTH));
  }
}
