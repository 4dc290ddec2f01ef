/** The ledger aggregation of gl-service: balances by type, aging buckets, day windows and batch posting. */
module GlReports {
  import opened Sums

  // ----- balances by type -----

  datatype Kind = Asset | Liability | Equity | Revenue | Expense | CostOfSales

  /** A journal line in cents, naming its account by position in the chart. */
  datatype Line = Line(account: nat, debit: int, credit: int)

  /** An account as the query returns it: its type, opening balance and lines. */
  datatype Account = Account(kind: Kind, opening: int, lines: seq<Line>)

  function Net(lines: seq<Line>): int {
    if lines == [] then 0 else lines[0].debit - lines[0].credit + Net(lines[1..])
  }

  lemma {:induction false} NetAppend(xs: seq<Line>, ys: seq<Line>)
    ensures Net(xs + ys) == Net(xs) + Net(ys)
  {
    if xs == [] {
      assert xs + ys == ys;
    } else {
      assert (xs + ys)[1..] == xs[1..] + ys;
      NetAppend(xs[1..], ys);
    }
  }

  predicate OnBalanceSheet(k: Kind) {
    k.Asset? || k.Liability? || k.Equity?
  }

  /** Opening balances count on balance-sheet accounts only. */
  function Opening(a: Account): int {
    if OnBalanceSheet(a.kind) then a.opening else 0
  }

  function Balance(a: Account): int {
    Opening(a) + Net(a.lines)
  }

  function KindTotal(accounts: seq<Account>, k: Kind): int {
    if accounts == [] then 0
    else (if accounts[0].kind == k then Balance(accounts[0]) else 0) + KindTotal(accounts[1..], k)
  }

  function Lookup(m: map<Kind, int>, k: Kind): int {
    if k in m then m[k] else 0
  }

  lemma {:induction false} KindTotalSnoc(accounts: seq<Account>, a: Account, k: Kind)
    ensures KindTotal(accounts + [a], k) == KindTotal(accounts, k) + if a.kind == k then Balance(a) else 0
  {
    if accounts == [] {
      assert [a][1..] == [] && accounts + [a] == [a];
      assert KindTotal([], k) == 0;
    } else {
      assert (accounts + [a])[1..] == accounts[1..] + [a];
      KindTotalSnoc(accounts[1..], a, k);
    }
  }

  /** The opening balances of the accounts of a type, as stored. */
  function Openings(accounts: seq<Account>, k: Kind): int {
    if accounts == [] then 0
    else (if accounts[0].kind == k then accounts[0].opening else 0) + Openings(accounts[1..], k)
  }

  /** Debits less credits on the accounts of a type. */
  function Movements(accounts: seq<Account>, k: Kind): int {
    if accounts == [] then 0
    else (if accounts[0].kind == k then Net(accounts[0].lines) else 0) + Movements(accounts[1..], k)
  }

  lemma {:induction false} TotalsByKind(accounts: seq<Account>)
    ensures KindTotal(accounts, Asset) == Openings(accounts, Asset) + Movements(accounts, Asset)
    ensures KindTotal(accounts, Liability) == Openings(accounts, Liability) + Movements(accounts, Liability)
    ensures KindTotal(accounts, Equity) == Openings(accounts, Equity) + Movements(accounts, Equity)
    ensures KindTotal(accounts, Revenue) == Movements(accounts, Revenue)
    ensures KindTotal(accounts, Expense) == Movements(accounts, Expense)
    ensures KindTotal(accounts, CostOfSales) == Movements(accounts, CostOfSales)
  {
    if accounts != [] { TotalsByKind(accounts[1..]); }
  }

  method BalanceByType(accounts: seq<Account>) returns (m: map<Kind, int>)
    ensures forall k :: Lookup(m, k) == KindTotal(accounts, k)
    ensures forall k | k in {Asset, Liability, Equity} :: Lookup(m, k) == Openings(accounts, k) + Movements(accounts, k)
    ensures forall k | k in {Revenue, Expense, CostOfSales} :: Lookup(m, k) == Movements(accounts, k)
  {
    TotalsByKind(accounts);
    m := map[];
    for i := 0 to |accounts|
      invariant forall k :: Lookup(m, k) == KindTotal(accounts[..i], k)
    {
      var a := accounts[i];
      var periodBal := 0;
      for j := 0 to |a.lines|
        invariant periodBal == Net(a.lines[..j])
      {
        NetAppend(a.lines[..j], [a.lines[j]]);
        assert a.lines[..j + 1] == a.lines[..j] + [a.lines[j]];
        assert Net([a.lines[j]]) == a.lines[j].debit - a.lines[j].credit + Net([a.lines[j]][1..]);
        periodBal := periodBal + (a.lines[j].debit - a.lines[j].credit);
      }
      assert a.lines[..|a.lines|] == a.lines;
      assert accounts[..i + 1] == accounts[..i] + [a];
      forall k ensures KindTotal(accounts[..i + 1], k) == KindTotal(accounts[..i], k) + if a.kind == k then Balance(a)
        else 0 {
        KindTotalSnoc(accounts[..i], a, k);
      }
      ghost var before := m;
      m := m[a.kind := Lookup(m, a.kind) + (Opening(a) + periodBal)];
      forall k ensures Lookup(m, k) == KindTotal(accounts[..i + 1], k) {
        assert Lookup(before, k) == KindTotal(accounts[..i], k);
      }
    }
    assert accounts[..|accounts|] == accounts;
  }

  // ----- double counting: by account and by entry -----

  type Entry = seq<Line>

  function AllLines(entries: seq<Entry>): seq<Line> {
    if entries == [] then [] else entries[0] + AllLines(entries[1..])
  }

  function LinesOf(lines: seq<Line>, account: nat): seq<Line> {
    if lines == [] then [] else (if lines[0].account == account then [lines[0]] else []) + LinesOf(lines[1..], account)
  }

  /** The accounts carry exactly the lines of the journal, each on its own account. */
  ghost predicate Posted(accounts: seq<Account>, entries: seq<Entry>) {
    && (forall a | 0 <= a < |accounts| :: accounts[a].lines == LinesOf(AllLines(entries), a))
    && (forall l | l in AllLines(entries) :: l.account < |accounts|)
  }

  function OpeningTotal(accounts: seq<Account>): int {
    if accounts == [] then 0 else Opening(accounts[0]) + OpeningTotal(accounts[1..])
  }

  lemma {:induction false} OpeningsOfThreeKinds(accounts: seq<Account>)
    ensures OpeningTotal(accounts)
         == Openings(accounts, Asset) + Openings(accounts, Liability) + Openings(accounts, Equity)
  {
    if accounts != [] { OpeningsOfThreeKinds(accounts[1..]); }
  }

  /** Net of the lines on the accounts from position a to the end of the chart. */
  function NetOnAccounts(lines: seq<Line>, a: nat, count: nat): int
    requires a <= count
    decreases count - a
  {
    if a == count then 0 else Net(LinesOf(lines, a)) + NetOnAccounts(lines, a + 1, count)
  }

  lemma {:induction false} OneLine(l: Line, lines: seq<Line>, a: nat, count: nat)
    requires a <= count
    ensures NetOnAccounts([l] + lines, a, count)
         == NetOnAccounts(lines, a, count) + if a <= l.account < count then l.debit - l.credit else 0
    decreases count - a
  {
    if a < count {
      OneLine(l, lines, a + 1, count);
      assert ([l] + lines)[1..] == lines;
      NetAppend(if l.account == a then [l] else [], LinesOf(lines, a));
      assert l.account == a ==> Net([l]) == l.debit - l.credit + Net([l][1..]);
    }
  }

  lemma {:induction false} EveryLineIsOnOneAccount(lines: seq<Line>, count: nat)
    requires forall l | l in lines :: l.account < count
    ensures NetOnAccounts(lines, 0, count) == Net(lines)
  {
    if lines == [] {
      NoLines(0, count);
    } else {
      EveryLineIsOnOneAccount(lines[1..], count);
      assert lines == [lines[0]] + lines[1..];
      OneLine(lines[0], lines[1..], 0, count);
    }
  }

  lemma {:induction false} NoLines(a: nat, count: nat)
    requires a <= count
    ensures NetOnAccounts([], a, count) == 0
    decreases count - a
  {
    if a < count { NoLines(a + 1, count); }
  }

  function KindSum(accounts: seq<Account>): int {
    KindTotal(accounts, Asset) + KindTotal(accounts, Liability) + KindTotal(accounts, Equity)
      + KindTotal(accounts, Revenue) + KindTotal(accounts, Expense) + KindTotal(accounts, CostOfSales)
  }

  lemma {:induction false} KindsPartitionAccounts(accounts: seq<Account>, lines: seq<Line>, a: nat, count: nat)
    requires a + |accounts| == count
    requires forall i | 0 <= i < |accounts| :: accounts[i].lines == LinesOf(lines, a + i)
    ensures KindSum(accounts) == OpeningTotal(accounts) + NetOnAccounts(lines, a, count)
  {
    if accounts != [] {
      assert accounts[0].lines == LinesOf(lines, a + 0);
      KindsPartitionAccounts(accounts[1..], lines, a + 1, count);
    }
  }

  predicate Balanced(e: Entry) { Net(e) == 0 }

  lemma {:induction false} BalancedEntriesNetToZero(entries: seq<Entry>)
    requires forall i | 0 <= i < |entries| :: Balanced(entries[i])
    ensures Net(AllLines(entries)) == 0
  {
    if entries != [] {
      assert Balanced(entries[0]);
      BalancedEntriesNetToZero(entries[1..]);
      NetAppend(entries[0], AllLines(entries[1..]));
    }
  }

  /** By account or by entry: the balances of all types add up to the opening balances of assets, liabilities and equity
      plus what the entries are out by. */
  lemma {:induction false} TypesAddUpToOpeningsPlusEntries(accounts: seq<Account>, entries: seq<Entry>)
    requires Posted(accounts, entries)
    ensures KindSum(accounts)
         == Openings(accounts, Asset) + Openings(accounts, Liability) + Openings(accounts, Equity)
            + Net(AllLines(entries))
  {
    OpeningsOfThreeKinds(accounts);
    KindsPartitionAccounts(accounts, AllLines(entries), 0, |accounts|);
    EveryLineIsOnOneAccount(AllLines(entries), |accounts|);
  }

  /** What the dashboard reports from the type balances. */
  datatype Summary = Summary(assets: int, liabilities: int, equity: int, netIncome: int)

  function Summarize(accounts: seq<Account>): Summary {
    Summary(KindTotal(accounts, Asset), Abs(KindTotal(accounts, Liability)), Abs(KindTotal(accounts, Equity)),
      Abs(KindTotal(accounts, Revenue)) - (Abs(KindTotal(accounts, Expense)) + Abs(KindTotal(accounts, CostOfSales))))
  }

  /** The balance of a type that lies on the side it should not be on. */
  function WrongSide(accounts: seq<Account>, k: Kind): nat {
    var total := KindTotal(accounts, k);
    if k.Expense? || k.CostOfSales? then Max(0, -total) else Max(0, total)
  }

  /** The accounting equation of the dashboard, for balanced books: it holds exactly when what liabilities, equity and
      revenue have on the debit side equals what expenses and cost of sales have on the credit side. In particular
      it holds when every type is on its normal side. */
  lemma {:induction false} EquationHoldsExactlyWhenWrongSidesCancel(accounts: seq<Account>, entries: seq<Entry>)
    requires Posted(accounts, entries)
    requires Openings(accounts, Asset) + Openings(accounts, Liability) + Openings(accounts, Equity) == 0
    requires forall i | 0 <= i < |entries| :: Balanced(entries[i])
    ensures var s := Summarize(accounts);
            s.assets == s.liabilities + s.equity + s.netIncome
            <==> WrongSide(accounts, Liability) + WrongSide(accounts, Equity) + WrongSide(accounts, Revenue)
                 == WrongSide(accounts, Expense) + WrongSide(accounts, CostOfSales)
  {
    TypesAddUpToOpeningsPlusEntries(accounts, entries);
    BalancedEntriesNetToZero(entries);
    assert KindSum(accounts) == 0;
    SidesOfKinds(accounts);
  }

  /** The summary's absolute values against the signed totals. */
  lemma SidesOfKinds(accounts: seq<Account>)
    ensures forall k: Kind | k.Liability? || k.Equity? || k.Revenue? ::
              Abs(KindTotal(accounts, k)) == 2 * WrongSide(accounts, k) - KindTotal(accounts, k)
    ensures forall k: Kind | k.Expense? || k.CostOfSales? ::
              Abs(KindTotal(accounts, k)) == 2 * WrongSide(accounts, k) + KindTotal(accounts, k)
  {
  }

  // ----- the GL variance -----

  function PeriodTotal(accounts: seq<Account>): int {
    if accounts == [] then 0 else Net(accounts[0].lines) + PeriodTotal(accounts[1..])
  }

  method GlVariance(accounts: seq<Account>) returns (variance: int)
    ensures variance == PeriodTotal(accounts)
  {
    var totalDebits, totalCredits := 0, 0;
    for i := 0 to |accounts|
      invariant totalDebits - totalCredits + PeriodTotal(accounts[i..]) == PeriodTotal(accounts)
    {
      var lines := accounts[i].lines;
      ghost var before := totalDebits - totalCredits;
      assert accounts[i..][0] == accounts[i] && accounts[i..][1..] == accounts[i + 1..];
      for j := 0 to |lines|
        invariant totalDebits - totalCredits + Net(lines[j..]) == before + Net(lines)
      {
        assert lines[j..][0] == lines[j] && lines[j..][1..] == lines[j + 1..];
        totalDebits := totalDebits + lines[j].debit;
        totalCredits := totalCredits + lines[j].credit;
      }
    }
    variance := totalDebits - totalCredits;
  }

  /** The variance is what the entries are out by; balanced entries show green. */
  lemma {:induction false} VarianceIsWhatEntriesAreOutBy(accounts: seq<Account>, entries: seq<Entry>)
    requires Posted(accounts, entries)
    ensures PeriodTotal(accounts) == Net(AllLines(entries))
    ensures (forall i | 0 <= i < |entries| :: Balanced(entries[i])) ==> PeriodTotal(accounts) == 0
  {
    PeriodsPartition(accounts, AllLines(entries), 0, |accounts|);
    EveryLineIsOnOneAccount(AllLines(entries), |accounts|);
    if forall i | 0 <= i < |entries| :: Balanced(entries[i]) { BalancedEntriesNetToZero(entries); }
  }

  lemma {:induction false} PeriodsPartition(accounts: seq<Account>, lines: seq<Line>, a: nat, count: nat)
    requires a + |accounts| == count
    requires forall i | 0 <= i < |accounts| :: accounts[i].lines == LinesOf(lines, a + i)
    ensures PeriodTotal(accounts) == NetOnAccounts(lines, a, count)
  {
    if accounts != [] {
      assert accounts[0].lines == LinesOf(lines, a + 0);
      PeriodsPartition(accounts[1..], lines, a + 1, count);
    }
  }

  // ----- aging -----

  /** An open item: its amount and how many days it is past due. */
  datatype Row = Row(amount: int, days: int)

  datatype Aging = Aging(total: int, current: int, days30: int, days60: int, days90: int, over90: int)

  /** The amounts of the rows more than low and at most high days past due; a missing bound is open. */
  function Within(rows: seq<Row>, low: Option<int>, high: Option<int>): int {
    if rows == [] then 0 else Part(rows[0], low, high) + Within(rows[1..], low, high)
  }

  function Part(row: Row, low: Option<int>, high: Option<int>): int {
    if (low.Some? ==> low.value < row.days) && (high.Some? ==> row.days <= high.value) then row.amount else 0
  }

  function Aged(rows: seq<Row>): Aging {
    Aging(Within(rows, None, None), Within(rows, None, Some(0)), Within(rows, Some(0), Some(30)),
      Within(rows, Some(30), Some(60)), Within(rows, Some(60), Some(90)), Within(rows, Some(90), None))
  }

  function PlusRow(b: Aging, row: Row): Aging {
    var t := b.(total := b.total + row.amount);
    if row.days <= 0 then t.(current := b.current + row.amount)
    else if row.days <= 30 then t.(days30 := b.days30 + row.amount)
    else if row.days <= 60 then t.(days60 := b.days60 + row.amount)
    else if row.days <= 90 then t.(days90 := b.days90 + row.amount)
    else t.(over90 := b.over90 + row.amount)
  }

  lemma {:induction false} WithinAppend(xs: seq<Row>, ys: seq<Row>, low: Option<int>, high: Option<int>)
    ensures Within(xs + ys, low, high) == Within(xs, low, high) + Within(ys, low, high)
  {
    if xs == [] {
      assert xs + ys == ys;
    } else {
      assert (xs + ys)[1..] == xs[1..] + ys;
      WithinAppend(xs[1..], ys, low, high);
    }
  }

  lemma AgedSnoc(rows: seq<Row>, row: Row)
    ensures Aged(rows + [row]) == PlusRow(Aged(rows), row)
  {
    forall low, high ensures Within(rows + [row], low, high) == Within(rows, low, high) + Part(row, low, high) {
      WithinAppend(rows, [row], low, high);
      assert Within([row], low, high) == Part(row, low, high) + Within([row][1..], low, high);
    }
  }

  method ComputeAging(rows: seq<Row>) returns (bucket: Aging)
    ensures bucket == Aged(rows)
  {
    bucket := Aging(0, 0, 0, 0, 0, 0);
    for i := 0 to |rows|
      invariant bucket == Aged(rows[..i])
    {
      assert rows[..i + 1] == rows[..i] + [rows[i]];
      AgedSnoc(rows[..i], rows[i]);
      bucket := PlusRow(bucket, rows[i]);
    }
    assert rows[..|rows|] == rows;
  }

  /** The five buckets partition the total. */
  lemma {:induction false} BucketsAddUp(rows: seq<Row>)
    ensures var b := Aged(rows); b.current + b.days30 + b.days60 + b.days90 + b.over90 == b.total
  {
    if rows != [] { BucketsAddUp(rows[1..]); }
  }

  lemma {:induction false} WithoutOne(rows: seq<Row>, i: nat, low: Option<int>, high: Option<int>)
    requires i < |rows|
    ensures multiset(rows[..i] + rows[i + 1..]) == multiset(rows) - multiset{rows[i]}
    ensures Within(rows, low, high) == Part(rows[i], low, high) + Within(rows[..i] + rows[i + 1..], low, high)
  {
    var tail := [rows[i]] + rows[i + 1..];
    assert rows == rows[..i] + tail && tail[1..] == rows[i + 1..];
    WithinAppend(rows[..i], tail, low, high);
    WithinAppend(rows[..i], rows[i + 1..], low, high);
  }

  lemma PositionOf(row: Row, xs: seq<Row>, ys: seq<Row>) returns (i: nat)
    requires multiset(xs) == multiset(ys) && row in xs
    ensures i < |ys| && ys[i] == row
  {
    assert row in multiset(ys);
    i :| 0 <= i < |ys| && ys[i] == row;
  }

  lemma WithoutBoth(xs: seq<Row>, ys: seq<Row>, i: nat, low: Option<int>, high: Option<int>) returns (rest: seq<Row>)
    requires xs != [] && i < |ys| && ys[i] == xs[0] && multiset(xs) == multiset(ys)
    ensures multiset(rest) == multiset(xs[1..])
    ensures Within(ys, low, high) == Part(xs[0], low, high) + Within(rest, low, high)
  {
    rest := ys[..i] + ys[i + 1..];
    WithoutOne(ys, i, low, high);
    assert xs == [xs[0]] + xs[1..];
  }

  lemma {:induction false} WithinIgnoresOrder(xs: seq<Row>, ys: seq<Row>, low: Option<int>, high: Option<int>)
    requires multiset(xs) == multiset(ys)
    ensures Within(xs, low, high) == Within(ys, low, high)
  {
    if xs == [] {
      assert |multiset(ys)| == |ys|;
    } else {
      var i := PositionOf(xs[0], xs, ys);
      var rest := WithoutBoth(xs, ys, i, low, high);
      WithinIgnoresOrder(xs[1..], rest, low, high);
    }
  }

  /** The query has no order, and the aging does not need one. */
  lemma AgingIgnoresRowOrder(xs: seq<Row>, ys: seq<Row>)
    requires multiset(xs) == multiset(ys)
    ensures Aged(xs) == Aged(ys)
  {
    forall low, high ensures Within(xs, low, high) == Within(ys, low, high) { WithinIgnoresOrder(xs, ys, low, high); }
  }

  // ----- day windows -----

  const DAY := 86_400_000

  /** One line, dated in milliseconds. */
  datatype Dated = Dated(at: int, debit: int, credit: int)

  datatype Window = Window(entries: nat, debits: int, credits: int)

  predicate InWindow(at: int, start: int) {
    start <= at < start + DAY
  }

  function Count(lines: seq<Dated>, start: int): Window {
    if lines == [] then Window(0, 0, 0) else
      var w := Count(lines[1..], start);
      if InWindow(lines[0].at, start)
      then Window(w.entries + 1, w.debits + lines[0].debit, w.credits + lines[0].credit)
      else w
  }

  /** Cents to whole dollars; half a dollar goes up, also below zero. */
  function Dollars(cents: int): (r: int)
    ensures 100 * r - 50 <= cents < 100 * r + 50
  {
    (cents + 50) / 100
  }

  /** The windows begin at local midnights, each DAY milliseconds long; what is reported is in whole dollars. */
  method DayHistory(lines: seq<Dated>, midnights: seq<int>) returns (history: seq<Window>)
    ensures |history| == |midnights| && forall i | 0 <= i < |midnights| ::
              var w := Count(lines, midnights[i]);
              history[i] == Window(w.entries, Dollars(w.debits), Dollars(w.credits))
  {
    history := [];
    for i := 0 to |midnights|
      invariant |history| == i && forall k | 0 <= k < i ::
                  var w := Count(lines, midnights[k]);
                  history[k] == Window(w.entries, Dollars(w.debits), Dollars(w.credits))
    {
      var entries, debits, credits := 0, 0, 0;
      for j := 0 to |lines|
        invariant entries >= 0
        invariant var rest, all := Count(lines[j..], midnights[i]), Count(lines, midnights[i]);
                  entries + rest.entries == all.entries && debits + rest.debits == all.debits
                    && credits + rest.credits == all.credits
      {
        assert lines[j..][0] == lines[j] && lines[j..][1..] == lines[j + 1..];
        if lines[j].at >= midnights[i] && lines[j].at < midnights[i] + DAY {
          entries, debits, credits := entries + 1, debits + lines[j].debit, credits + lines[j].credit;
        }
      }
      history := history + [Window(entries, Dollars(debits), Dollars(credits))];
    }
  }

  function DebitsIn(lines: seq<Dated>, midnights: seq<int>): int {
    if midnights == [] then 0 else Count(lines, midnights[0]).debits + DebitsIn(lines, midnights[1..])
  }

  /** The debits of the windows as they are reported, in dollars. */
  function ReportedDebits(lines: seq<Dated>, midnights: seq<int>): int {
    if midnights == [] then 0 else Dollars(Count(lines, midnights[0]).debits) + ReportedDebits(lines, midnights[1..])
  }

  /** By how many cents the reported total is above the true one. */
  function RoundedUp(lines: seq<Dated>, midnights: seq<int>): int {
    100 * ReportedDebits(lines, midnights) - DebitsIn(lines, midnights)
  }

  /** Rounding each window by itself puts the reported total out by at most half a dollar a window, upwards by the whole
      of that exactly when every window ends on fifty cents. */
  lemma {:induction false} RoundingEachDayAddsUp(lines: seq<Dated>, midnights: seq<int>)
    ensures -49 * |midnights| <= RoundedUp(lines, midnights) <= 50 * |midnights|
    ensures RoundedUp(lines, midnights) == 50 * |midnights|
       <==> forall i | 0 <= i < |midnights| :: Count(lines, midnights[i]).debits % 100 == 50
  {
    if midnights != [] {
      var rest := midnights[1..];
      RoundingEachDayAddsUp(lines, rest);
      var cents := Count(lines, midnights[0]).debits;
      var up := 100 * Dollars(cents) - cents;
      assert RoundedUp(lines, midnights) == up + RoundedUp(lines, rest);
      assert -49 <= up <= 50 && (up == 50 <==> cents % 100 == 50);
      assert forall i | 1 <= i < |midnights| :: midnights[i] == rest[i - 1];
    }
  }

  /** How many windows count an instant. */
  function Counted(midnights: seq<int>, at: int): nat {
    if midnights == [] then 0 else (if InWindow(at, midnights[0]) then 1 else 0) + Counted(midnights[1..], at)
  }

  ghost predicate Ascending(midnights: seq<int>) {
    forall i, j | 0 <= i < j < |midnights| :: midnights[i] < midnights[j]
  }

  predicate TwentyFourHours(midnights: seq<int>) {
    forall i | 0 <= i < |midnights| - 1 :: midnights[i + 1] - midnights[i] == DAY
  }

  lemma {:induction false} NotBeforeTheFirst(midnights: seq<int>, at: int)
    requires forall i | 0 <= i < |midnights| :: at < midnights[i]
    ensures Counted(midnights, at) == 0
  {
    if midnights != [] { NotBeforeTheFirst(midnights[1..], at); }
  }

  lemma {:induction false} RegularDaysCountOnce(midnights: seq<int>, at: int)
    requires midnights != [] && TwentyFourHours(midnights) && Ascending(midnights)
    requires midnights[0] <= at < midnights[|midnights| - 1] + DAY
    ensures Counted(midnights, at) == 1
  {
    var rest := midnights[1..];
    if rest == [] {
      assert Counted(rest, at) == 0;
    } else {
      assert rest[0] == midnights[0] + DAY;
      assert forall i | 0 <= i < |rest| :: rest[i] == midnights[i + 1];
      if at < rest[0] {
        NotBeforeTheFirst(rest, at);
      } else {
        RegularDaysCountOnce(rest, at);
      }
    }
  }

  /** Where two midnights are not 24 hours apart some instant is missed or counted twice. */
  lemma {:induction false} IrregularDayMiscounts(midnights: seq<int>, i: nat) returns (at: int)
    requires Ascending(midnights) && i + 1 < |midnights| && midnights[i + 1] - midnights[i] != DAY
    requires forall k | 0 <= k < i :: midnights[k + 1] - midnights[k] == DAY
    ensures midnights[0] <= at < midnights[|midnights| - 1] + DAY && Counted(midnights, at) != 1
  {
    var rest := midnights[1..];
    if i > 0 {
      assert forall k | 0 <= k < |rest| :: rest[k] == midnights[k + 1];
      at := IrregularDayMiscounts(rest, i - 1);
      assert midnights[1] - midnights[0] == DAY;
    } else if midnights[1] - midnights[0] > DAY {
      at := midnights[0] + DAY;
      NotBeforeTheFirst(rest, at);
    } else {
      at := midnights[1];
      assert rest[0] == at;
    }
  }

  ghost predicate EveryInstantOnce(midnights: seq<int>) {
    midnights != [] ==> forall at | midnights[0] <= at < midnights[|midnights| - 1] + DAY :: Counted(midnights, at) == 1
  }

  /** Each instant from the first midnight to the end of the last window is counted once, exactly when all days have
      24 hours: a day of 25 hours leaves a gap, a day of 23 hours an overlap. */
  lemma DaysCountOnceExactlyWhenRegular(midnights: seq<int>)
    requires Ascending(midnights)
    ensures EveryInstantOnce(midnights) <==> TwentyFourHours(midnights)
  {
    if TwentyFourHours(midnights) {
      if midnights != [] {
        forall at | midnights[0] <= at < midnights[|midnights| - 1] + DAY ensures Counted(midnights, at) == 1 {
          RegularDaysCountOnce(midnights, at);
        }
      }
    } else {
      var i := FirstIrregular(midnights, 0);
      var at := IrregularDayMiscounts(midnights, i);
    }
  }

  lemma FirstIrregular(midnights: seq<int>, from: nat) returns (i: nat)
    requires !TwentyFourHours(midnights) && from < |midnights|
    requires forall k | 0 <= k < from :: midnights[k + 1] - midnights[k] == DAY
    ensures i + 1 < |midnights| && midnights[i + 1] - midnights[i] != DAY
    ensures forall k | 0 <= k < i :: midnights[k + 1] - midnights[k] == DAY
    decreases |midnights| - from
  {
    if from + 1 < |midnights| && midnights[from + 1] - midnights[from] == DAY {
      i := FirstIrregular(midnights, from + 1);
    } else {
      i := from;
    }
  }
}
