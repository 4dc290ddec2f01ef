/** What the fixture packs post: every pack can be posted, and a posting table of all of them
    (accounts, control fields, amounts) that the evaluator is proved to produce. */
module FixturePacks {
  import opened Sums
  import opened PostingDsl
  import opened RulePacks
  import opened Ledger

  // ----- the fixture chart -----

  function FixtureKind(n: nat): AccountType {
    if n == 19104 || n == 19105 || n == 19207 || 19220 <= n <= 19221 || 19223 <= n <= 19224 || n == 19302 || n == 19304
      then Expense
    else if n == 19201 || n == 19209 || 19214 <= n <= 19215 || n == 19218 then Revenue
    else if n == 19102 || n == 19106 || n == 19208 || n == 19211 || n == 19216 || n == 19219 || n == 19226
         || n == 19301 || n == 19303 || 19305 <= n <= 19308 then Liability
    else Asset
  }

  function FixtureSchedule(n: nat): Option<nat> {
    if n == 19102 then Some(85) else if n == 19212 then Some(87) else if n == 19211 then Some(88)
    else if n == 19202 then Some(89) else if n == 19200 then Some(90) else if n == 19226 then Some(91)
    else if n == 19217 then Some(92) else if n == 19213 then Some(93) else if n == 19219 then Some(94)
    else if n == 19301 then Some(95) else if n == 19308 then Some(96) else None
  }

  predicate IsFixtureNumber(n: nat) {
    19101 <= n <= 19107 || 19200 <= n <= 19226 || 19300 <= n <= 19309
  }

  const FIXTURE_CHART: Chart :=
    map n: nat | 19101 <= n <= 19309 && IsFixtureNumber(n) :: AccountInfo(FixtureKind(n), FixtureSchedule(n), false)

  // ----- packs whose every side is one allocation -----

  /** One debit and one credit, both on chart accounts, with store and, for profit and loss, department. */
  predicate ReadyAllocation(a: Allocation) {
    && a.account.Gl? && IsFixtureNumber(a.account.number) && a.storeId != ""
    && (FixtureKind(a.account.number).Expense? || FixtureKind(a.account.number).Revenue?
      ==> a.dept.Some? && a.dept.value != "")
  }

  predicate ReadyGroup(g: Group) {
    |g.debits| == 1 && |g.credits| == 1 && ReadyAllocation(g.debits[0]) && ReadyAllocation(g.credits[0])
  }

  predicate ReadyGroups(groups: seq<Group>) {
    forall i | 0 <= i < |groups| :: ReadyGroup(groups[i])
  }

  predicate ReadyRules(rules: seq<Rule>) {
    forall i | 0 <= i < |rules| :: rules[i].groups != [] && ReadyGroups(rules[i].groups)
  }

  function Cents(path: Field, env: Envelope): nat {
    match BaseCents(path, env) case None => 0 case Some(c) => c
  }

  predicate AllPositive(groups: seq<Group>, env: Envelope) {
    forall i | 0 <= i < |groups| :: BaseCents(groups[i].base, env).Some?
  }

  /** The amount if it lands on the account. */
  function OnAccount(alloc: Allocation, cents: int, a: nat): int {
    if alloc.account == Gl(a) then cents else 0
  }

  /** Debits on the account minus credits on it, group by group. */
  function GroupsNet(groups: seq<Group>, env: Envelope, a: nat): int
    requires ReadyGroups(groups)
  {
    if groups == [] then 0 else
      var cents := Cents(groups[0].base, env);
      OnAccount(groups[0].debits[0], cents, a) - OnAccount(groups[0].credits[0], cents, a)
        + GroupsNet(groups[1..], env, a)
  }

  /** The two lines of each group. */
  function ReadyLines(groups: seq<Group>, env: Envelope): seq<Line>
    requires ReadyGroups(groups)
  {
    if groups == [] then [] else
      var cents := Cents(groups[0].base, env);
      [SideLine(groups[0].debits[0], cents, true, env), SideLine(groups[0].credits[0], cents, false, env)]
        + ReadyLines(groups[1..], env)
  }

  lemma {:induction false} ReadySide(alloc: Allocation, cents: int, debit: bool, env: Envelope)
    ensures SideLines([alloc], SharesFor(cents, [alloc]), debit, env) == [SideLine(alloc, cents, debit, env)]
  {
    assert Bps([alloc]) == [alloc.bp];
    var shares := SharesFor(cents, [alloc]);
    assert shares == [cents] && shares[1..] == [];
    assert [alloc][1..] == [];
    assert SideLines([], [], debit, env) == [];
  }

  lemma OneGroupGenerates(g: Group, env: Envelope)
    requires ReadyGroup(g)
    ensures var cents := Cents(g.base, env);
            GroupLines(g, cents, env)
              == [SideLine(g.debits[0], cents, true, env), SideLine(g.credits[0], cents, false, env)]
  {
    var cents := Cents(g.base, env);
    assert g.debits == [g.debits[0]] && g.credits == [g.credits[0]];
    ReadySide(g.debits[0], cents, true, env);
    ReadySide(g.credits[0], cents, false, env);
  }

  lemma {:induction false} ReadyGroupsGenerate(groups: seq<Group>, env: Envelope)
    requires ReadyGroups(groups)
    ensures Generate(groups, env).Lines? <==> AllPositive(groups, env)
    ensures Generate(groups, env).Lines? ==> Generate(groups, env).lines == ReadyLines(groups, env)
  {
    if groups != [] {
      assert ReadyGroup(groups[0]);
      ReadyGroupsGenerate(groups[1..], env);
      assert forall i | 1 <= i < |groups| :: groups[i] == groups[1..][i - 1];
      OneGroupGenerates(groups[0], env);
    }
  }

  /** The net effect of the lines on an account. */
  lemma {:induction false} ReadyLinesNet(groups: seq<Group>, env: Envelope, a: nat)
    requires ReadyGroups(groups)
    ensures Net(ReadyLines(groups, env), a) == GroupsNet(groups, env, a)
  {
    if groups != [] {
      ReadyLinesNet(groups[1..], env, a);
      var ls, rest := ReadyLines(groups, env), ReadyLines(groups[1..], env);
      assert ls == [ls[0], ls[1]] + rest;
      NetAppend([ls[0], ls[1]], rest, a);
      assert [ls[0], ls[1]][1..] == [ls[1]] && [ls[1]][1..] == [];
      assert Net([ls[1]], a) == if ls[1].account == Gl(a) then Signed(ls[1]) else 0;
    }
  }

  /** The text of an optional path. */
  function PathText(path: Option<Field>, env: Envelope): string {
    match path case None => "" case Some(p) => TextAt(p, env)
  }

  predicate Fits(path: Option<Field>, env: Envelope) {
    |PathText(path, env)| <= TEXT_WIDTH
  }

  /** No apply-to number is too long for gl-service. */
  predicate GroupsFit(groups: seq<Group>, env: Envelope)
    requires ReadyGroups(groups)
  {
    forall i | 0 <= i < |groups| :: Fits(groups[i].debits[0].apply, env) && Fits(groups[i].credits[0].apply, env)
  }

  lemma {:induction false} ReadyLinesAccepted(groups: seq<Group>, env: Envelope)
    requires ReadyGroups(groups) && AllPositive(groups, env)
    ensures var ls := ReadyLines(groups, env);
            && |ls| == 2 * |groups|
            && (forall i | 0 <= i < |ls| :: LineAccepted(ls[i]) && !Negative(ls[i]))
            && (groups != [] ==> ls[0].dr > 0 && ls[1].cr > 0)
            && TotalDr(ls) == TotalCr(ls)
            && Known(ls, FIXTURE_CHART)
  {
    if groups != [] {
      ReadyLinesAccepted(groups[1..], env);
      var ls, rest := ReadyLines(groups, env), ReadyLines(groups[1..], env);
      TotalsAppend([ls[0], ls[1]], rest);
      assert TotalDr([ls[0], ls[1]]) == TotalCr([ls[0], ls[1]]);
      assert AllPositive([groups[0]], env);
    }
  }

  predicate ApplyTextsFit(ls: seq<Line>) {
    forall l | l in ls :: |ApplyText(l)| <= TEXT_WIDTH
  }

  lemma FirstTextsFit(ls: seq<Line>)
    requires |ls| >= 2
    ensures ApplyTextsFit(ls)
       <==> |ApplyText(ls[0])| <= TEXT_WIDTH && |ApplyText(ls[1])| <= TEXT_WIDTH && ApplyTextsFit(ls[2..])
  {
    assert ls == [ls[0], ls[1]] + ls[2..];
  }

  lemma FirstGroupFits(groups: seq<Group>, env: Envelope)
    requires groups != [] && ReadyGroups(groups)
    ensures GroupsFit(groups, env)
       <==> Fits(groups[0].debits[0].apply, env) && Fits(groups[0].credits[0].apply, env) && GroupsFit(groups[1..], env)
  {
    var rest := groups[1..];
    assert forall i | 1 <= i < |groups| :: groups[i] == rest[i - 1];
    assert forall i | 0 <= i < |rest| :: rest[i] == groups[i + 1];
  }

  lemma {:induction false} ReadyTextsFit(groups: seq<Group>, env: Envelope)
    requires ReadyGroups(groups)
    ensures ApplyTextsFit(ReadyLines(groups, env)) <==> GroupsFit(groups, env)
  {
    if groups != [] {
      ReadyTextsFit(groups[1..], env);
      var ls := ReadyLines(groups, env);
      assert ls[2..] == ReadyLines(groups[1..], env);
      FirstTextsFit(ls);
      FirstGroupFits(groups, env);
    }
  }

  /** The groups that post for an event. */
  function PostedGroups(rules: seq<Rule>, env: Envelope): seq<Group>
    requires ReadyRules(rules)
  {
    match SelectRule(rules, env)
    case None => []
    case Some(r) =>
      SelectedRuleIsLeast(rules, env);
      if WellFormed(env) && AllPositive(r.groups, env) && HeaderFits(env) && ReadyGroups(r.groups)
        && GroupsFit(r.groups, env)
      then r.groups else []
  }

  lemma {:induction false} ReadyRuleOutcome(r: Rule, env: Envelope)
    requires WellFormed(env) && r.groups != [] && ReadyGroups(r.groups)
    ensures AllPositive(r.groups, env) ==>
              var ls := ReadyLines(r.groups, env);
              && Generate(r.groups, env) == Lines(ls) && Accepted(ls) && Known(ls, FIXTURE_CHART)
              && (LedgerAccepts(ls, FIXTURE_CHART, env) <==> HeaderFits(env) && GroupsFit(r.groups, env))
    ensures !AllPositive(r.groups, env) ==> Generate(r.groups, env).Failed?
  {
    ReadyGroupsGenerate(r.groups, env);
    if AllPositive(r.groups, env) {
      ReadyLinesAccepted(r.groups, env);
      ReadyTextsFit(r.groups, env);
      var ls := ReadyLines(r.groups, env);
      forall l | l in ls ensures !Negative(l) { var k :| 0 <= k < |ls| && ls[k] == l; }
    }
  }

  /** A ready pack posts exactly when a rule applies, all its base amounts are positive and no text is too long. */
  lemma {:induction false} ReadyOutcome(rules: seq<Rule>, env: Envelope)
    requires ReadyRules(rules) && WellFormed(env)
    ensures match SelectRule(rules, env)
            case None => Submit(rules, FIXTURE_CHART, env) == NoRuleMatch
            case Some(r) =>
              && r in rules && Applies(r, env) && r.groups != [] && ReadyGroups(r.groups)
              && var outcome := Submit(rules, FIXTURE_CHART, env);
                 if !AllPositive(r.groups, env) then outcome.Rejected? && outcome.why.Unresolved?
                 else if !HeaderFits(env) || !GroupsFit(r.groups, env) then outcome == Rejected(RefusedByLedger)
                 else outcome == Posted(EntryOf(r, ReadyLines(r.groups, env), env))
  {
    SelectedRuleIsLeast(rules, env);
    if SelectRule(rules, env).Some? {
      var r := SelectRule(rules, env).value;
      var i :| 0 <= i < |rules| && rules[i] == r;
      ReadyRuleOutcome(r, env);
    }
  }

  // ----- the effect of one event -----

  /** What posts is the two lines of every group, and its effects are sums over groups. */
  lemma {:induction false} PostedLinesOfReadyPack(rules: seq<Rule>, env: Envelope)
    requires ReadyRules(rules)
    ensures ReadyGroups(PostedGroups(rules, env))
    ensures PostedLines(Submit(rules, FIXTURE_CHART, env)) == ReadyLines(PostedGroups(rules, env), env)
    ensures forall a ::
              Net(PostedLines(Submit(rules, FIXTURE_CHART, env)), a) == GroupsNet(PostedGroups(rules, env), env, a)
  {
    if WellFormed(env) {
      ReadyOutcome(rules, env);
    }
    forall a ensures Net(ReadyLines(PostedGroups(rules, env), env), a) == GroupsNet(PostedGroups(rules, env), env, a) {
      ReadyLinesNet(PostedGroups(rules, env), env, a);
    }
  }

  // ----- the posting table -----

  /** One side of a row: the account and the fields its control and apply-to numbers come from. */
  datatype Leg = Leg(account: nat, control: Option<Field>, apply: Option<Field>)

  function On(account: nat): Leg { Leg(account, None, None) }

  /** A leg that opens an item under a key. */
  function Opens(account: nat, key: Field): Leg { Leg(account, Some(key), None) }

  /** A leg that applies to the item opened under the same key. */
  function Relieves(account: nat, key: Field): Leg { Leg(account, Some(key), Some(key)) }

  /** A leg with an apply-to number but no control number. */
  function AppliesOnly(account: nat, key: Field): Leg { Leg(account, None, Some(key)) }

  /** One row: the debited and the credited leg, and the amount field. */
  datatype Row = Row(debit: Leg, credit: Leg, base: Field)

  /** Deal packs with one unconditional row. */
  function DealRow(t: EventType): Row
    requires IsDeal(t) && HasOneRow(t)
  {
    match t
    case TradeAllowance => Row(On(19208), On(19209), TradeAllowanceAmount)
    case TradeAcv => Row(Opens(19210, TradeVin), On(19208), TradeAcvAmount)
    case TradePayoff => Row(On(19208), Opens(19211, DealNumber), TradePayoffAmount)
    case CitReceivable => Row(Opens(19212, DealNumber), On(19200), FinancedAmount)
    case ReserveReceivable => Row(Opens(19213, DealNumber), On(19214), ReserveIncomeAmount)
    case DealFees => Row(On(19200), On(19215), FeesAmount)
    case DealTax => Row(On(19200), On(19216), TaxAmount)
    case RebateReceivable => Row(Opens(19217, DealNumber), On(19200), RebateReceivableAmount)
    case DueBill => Row(On(19200), Opens(19226, DealNumber), Amount)
    case CitShortFundFee => Row(On(19221), AppliesOnly(19212, DealNumber), FeeAmount)
    case PayoffIssuance => Row(AppliesOnly(19211, DealNumber), On(19200), PayoffAmount)
    case ArbitrationConditionCost => Row(On(19224), On(19222), ConditionCostAmount)
  }

  /** Reserve packs. */
  function FniRow(t: EventType): Row
    requires IsFni(t)
  {
    match t
    case RemittanceRelief => Row(On(19300), Relieves(19213, DealNumber), ReliefAmount)
    case ChargebackAccrual => Row(On(19214), Opens(19301, DealNumber), AccrualAmount)
    case ShortpayWriteoff => Row(On(19302), Relieves(19213, DealNumber), ShortPayAmount)
    case ChargebackDrawFromReserve => Row(Relieves(19301, DealNumber), On(19303), DrawFromReserveAmount)
    case ChargebackExcessExpense => Row(On(19304), On(19303), ExcessToExpenseAmount)
    case ProductRemitRelief => Row(Relieves(19219, ApplyControlNumber), On(19305), Amount)
    case CancellationIncomeReversal => Row(On(19218), On(19306), IncomeReversalAmount)
    case CancellationRemitAdjustment => Row(Relieves(19219, ApplyControlNumber), On(19306), RemitAdjustmentAmount)
    case CancellationRefundPayable => Row(On(19306), Opens(19307, ControlNumber), RefundPayableAmount)
    case DeferralOrigination => Row(On(19309), Opens(19308, ScheduleControlNumber), OriginalAmount)
    case DeferralRecognition => Row(Relieves(19308, ScheduleControlNumber), On(19218), EarnedAmount)
  }

  /** Floorplan packs. */
  function FloorplanRow(t: EventType): Row
    requires IsFloorplan(t)
  {
    match t
    case FloorplanAdvance => Row(On(19101), Opens(19102, StockNumber), Amount)
    case FloorplanPayoff => Row(Relieves(19102, StockNumber), On(19103), Amount)
    case FloorplanWriteoff => Row(On(19104), Relieves(19102, StockNumber), Amount)
    case FloorplanInterest => Row(On(19105), On(19106), InterestTotalAmount)
    case FloorplanCurtailment => Row(Relieves(19102, StockNumber), On(19107), Amount)
  }

  function TableRow(t: EventType): Row
    requires HasOneRow(t)
  {
    if IsFni(t) then FniRow(t) else if IsFloorplan(t) then FloorplanRow(t) else DealRow(t)
  }

  const COST_ROW := Row(On(19207), AppliesOnly(19206, StockNumber), UnitCostAmount)

  predicate Is(env: Envelope, path: Field, text: string) {
    path in env && env[path] == Text(text)
  }

  predicate IsDelta(env: Envelope, direction: string) {
    Role in env && env[Role].Text? && env[Role].text in DELTA_ROLES && Is(env, DeltaDirection, direction)
  }

  /** The rows an event asks for; which ones may depend on the payload. */
  function RequestedRows(t: EventType, env: Envelope): seq<Row> {
    if HasOneRow(t) then [TableRow(t)] else
    match t
    case DealFinalized =>
      if Is(env, DealType, "RETAIL") then [Row(Opens(19200, DealNumber), On(19201), SaleAmount), COST_ROW]
      else if Is(env, DealType, "DEALER_TRADE") then [Row(Opens(19200, DealNumber), On(19203), SaleAmount), COST_ROW]
      else if Is(env, DealType, "WHOLESALE") then [Row(On(19202), On(19201), WholesaleAmount), COST_ROW]
      else if Is(env, DealType, "LEASE") then
        [Row(On(19204), On(19201), LeaseCapitalizedCostAmount), Row(On(19205), On(19204), LeaseResidualAmount),
          COST_ROW]
      else []
    case ProductLine =>
      [Row(On(19200), On(19218), CustomerPriceAmount),
        Row(On(19220), Leg(19219, Some(ProductControlRef), Some(DealNumber)), ProviderCostAmount)]
    case RecontractDelta =>
      if IsDelta(env, "INCREASE") then [Row(On(19225), On(19200), DeltaAmount)]
      else if IsDelta(env, "DECREASE") then [Row(On(19200), On(19225), DeltaAmount)]
      else if Is(env, Role, "__NEVER__") then [Row(On(19225), On(19225), DeltaAmount)]
      else []
    case PayoffVariance =>
      if Is(env, Disposition, "ADDITIONAL_PAYMENT") then [Row(On(19200), On(19211), VarianceAmount)]
      else if Is(env, Disposition, "REFUND_RECEIVABLE") then [Row(On(19211), On(19200), VarianceAmount)]
      else []
    case WholesaleDisposition =>
      [Row(Opens(19202, UnitRef), On(19222), WholesaleAmount), Row(On(19222), Opens(19206, UnitRef), UnitReliefAmount),
       Row(On(19223), On(19222), AuctionFeesAmount)]
    case ArbitrationPrice =>
      if Is(env, AdjustmentDirection, "INCREASE") then [Row(Opens(19202, UnitRef), On(19222), AdjustmentAmount)]
      else if Is(env, AdjustmentDirection, "DECREASE") then [Row(On(19222), Opens(19202, UnitRef), AdjustmentAmount)]
      else []
  }

  function RowMemo(t: EventType): Memo
    requires HasOneRow(t)
  {
    if IsFni(t) then FniMemo(t) else if IsFloorplan(t) then FloorplanMemo(t) else DealMemoOf(t)
  }

  /** The memo of an event's lines; which one may depend on the payload. */
  function MemoOf(t: EventType, env: Envelope): Memo {
    if HasOneRow(t) then RowMemo(t) else
    match t
    case DealFinalized =>
      if Is(env, DealType, "RETAIL") then DealMemo(19)
      else if Is(env, DealType, "DEALER_TRADE") then DealMemo(20)
      else if Is(env, DealType, "WHOLESALE") then DealMemo(17)
      else DealMemo(13)
    case ProductLine => Memo(16, [DealNumber, ProductCode])
    case RecontractDelta =>
      if IsDelta(env, "INCREASE") || IsDelta(env, "DECREASE") then Memo(25, [DealNumber, Role]) else NoMemo(24)
    case PayoffVariance => NoMemo(23)
    case WholesaleDisposition => Memo(10, [UnitRef])
    case ArbitrationPrice => NoMemo(36)
  }

  predicate RowFits(row: Row, env: Envelope) {
    Fits(row.debit.apply, env) && Fits(row.credit.apply, env)
  }

  /** All rows post or none: one amount that is not positive, or one text that is too long, rejects the event. */
  predicate Postable(rows: seq<Row>, env: Envelope) {
    && WellFormed(env) && HeaderFits(env)
    && forall i | 0 <= i < |rows| :: Cents(rows[i].base, env) > 0 && RowFits(rows[i], env)
  }

  function PostedRows(t: EventType, env: Envelope): seq<Row> {
    if Postable(RequestedRows(t, env), env) then RequestedRows(t, env) else []
  }

  // ----- the evaluator produces the table -----

  function LegOf(a: Allocation): Leg
    requires ReadyAllocation(a)
  {
    Leg(a.account.number, a.control, a.apply)
  }

  function RowOf(g: Group): Row
    requires ReadyGroup(g)
  {
    Row(LegOf(g.debits[0]), LegOf(g.credits[0]), g.base)
  }

  function RowsOf(groups: seq<Group>): seq<Row>
    requires ReadyGroups(groups)
  {
    seq(|groups|, i requires 0 <= i < |groups| => RowOf(groups[i]))
  }

  /** The pack is one unconditional rule with this memo and these rows. */
  predicate HasRows(rules: seq<Rule>, memo: Memo, rows: seq<Row>) {
    && |rules| == 1 && rules[0].condition == None && rules[0].memo == memo
    && rules[0].groups != [] && ReadyGroups(rules[0].groups) && RowsOf(rules[0].groups) == rows
  }

  predicate HasRow(rules: seq<Rule>, memo: Memo, row: Row) {
    && |rules| == 1 && rules[0].condition == None && rules[0].memo == memo
    && |rules[0].groups| == 1 && ReadyGroup(rules[0].groups[0]) && RowOf(rules[0].groups[0]) == row
  }

  /** The pack posts rows: it is ready, no rule matches exactly when there are no rows, and
      the selected rule has these rows and this memo. */
  ghost predicate Posts(rules: seq<Rule>, env: Envelope, memo: Memo, rows: seq<Row>) {
    && ReadyRules(rules)
    && match SelectRule(rules, env)
       case None => rows == []
       case Some(r) => r.groups != [] && ReadyGroups(r.groups) && RowsOf(r.groups) == rows && r.memo == memo
  }

  lemma RowsDecidePosting(rules: seq<Rule>, env: Envelope, memo: Memo, rows: seq<Row>)
    requires Posts(rules, env, memo, rows)
    ensures RowsOf(PostedGroups(rules, env)) == if Postable(rows, env) then rows else []
  {
    assert RowsOf([]) == [];
    if SelectRule(rules, env).Some? {
      var groups := SelectRule(rules, env).value.groups;
      assert |rows| == |groups|;
      forall i | 0 <= i < |groups|
        ensures Cents(rows[i].base, env) > 0 <==> BaseCents(groups[i].base, env).Some?
        ensures RowFits(rows[i], env) <==> Fits(groups[i].debits[0].apply, env) && Fits(groups[i].credits[0].apply, env)
      {
        assert rows[i] == RowOf(groups[i]);
      }
    }
  }

  lemma UnconditionalPackPosts(rules: seq<Rule>, memo: Memo, rows: seq<Row>, env: Envelope)
    requires HasRows(rules, memo, rows)
    ensures Posts(rules, env, memo, rows)
  {
    SelectedRuleIsLeast(rules, env);
    assert rules[0] in rules && Applies(rules[0], env);
  }

  lemma OneRowPackPosts(rules: seq<Rule>, memo: Memo, row: Row, env: Envelope)
    requires HasRow(rules, memo, row)
    ensures Posts(rules, env, memo, [row])
  {
    assert RowsOf(rules[0].groups) == [row];
    UnconditionalPackPosts(rules, memo, [row], env);
  }

  lemma TradeRows(t: EventType)
    requires t.TradeAllowance? || t.TradeAcv? || t.TradePayoff?
    ensures ReadyGroup(DealGroup(t, FixtureAccount, DEAL_STORE))
      && RowOf(DealGroup(t, FixtureAccount, DEAL_STORE)) == DealRow(t)
  {
  }

  lemma ReceivableRows(t: EventType)
    requires t.CitReceivable? || t.ReserveReceivable? || t.RebateReceivable?
    ensures ReadyGroup(DealGroup(t, FixtureAccount, DEAL_STORE))
      && RowOf(DealGroup(t, FixtureAccount, DEAL_STORE)) == DealRow(t)
  {
  }

  lemma ChargeRows(t: EventType)
    requires t.DealFees? || t.DealTax? || t.DueBill?
    ensures ReadyGroup(DealGroup(t, FixtureAccount, DEAL_STORE))
      && RowOf(DealGroup(t, FixtureAccount, DEAL_STORE)) == DealRow(t)
  {
  }

  lemma FeeAndPayoffRows(t: EventType)
    requires t.CitShortFundFee? || t.PayoffIssuance?
    ensures ReadyGroup(DealGroup(t, FixtureAccount, DEAL_STORE))
      && RowOf(DealGroup(t, FixtureAccount, DEAL_STORE)) == DealRow(t)
  {
  }

  lemma ConditionCostRow()
    ensures var g := DealGroup(ArbitrationConditionCost, FixtureAccount, DEAL_STORE);
            ReadyGroup(g) && RowOf(g) == DealRow(ArbitrationConditionCost)
  {
  }

  lemma FloorplanRows(t: EventType, store: string)
    requires IsFloorplan(t) && store != ""
    ensures var g := FloorplanGroup(t, FIXTURE_ROLES, store, Some("FLRPLN"));
            ReadyGroup(g) && RowOf(g) == FloorplanRow(t)
  {
  }

  function FniFixtureGroup(t: EventType): Group
    requires IsFni(t)
  {
    FixGroup(FniGroup(t), FniFixtureAccounts(t).0, FniFixtureAccounts(t).1)
  }

  predicate IsReserveOrChargeback(t: EventType) {
    t.RemittanceRelief? || t.ChargebackAccrual? || t.ShortpayWriteoff? || t.ChargebackDrawFromReserve?
      || t.ChargebackExcessExpense?
  }

  lemma ReserveRows(t: EventType)
    requires IsReserveOrChargeback(t)
    ensures |FniGroup(t).debits| == |FniGroup(t).credits| == 1
    ensures ReadyGroup(FniFixtureGroup(t)) && RowOf(FniFixtureGroup(t)) == FniRow(t)
  {
  }

  lemma ProductRows(t: EventType)
    requires IsFni(t) && !IsReserveOrChargeback(t)
    ensures |FniGroup(t).debits| == |FniGroup(t).credits| == 1
    ensures ReadyGroup(FniFixtureGroup(t)) && RowOf(FniFixtureGroup(t)) == FniRow(t)
  {
  }

  lemma {:induction false} SingleWithFixtures(memo: Memo, g: Group, d: nat, c: nat)
    ensures ApplyFixtures(Single(memo, g), d, c) == Single(memo, FixGroup(g, d, c))
  {
    assert [g][1..] == [] && FixGroups([], d, c) == [];
    assert FixGroups([g], d, c) == [FixGroup(g, d, c)];
    assert Single(memo, g)[1..] == [] && ApplyFixtures([], d, c) == [];
  }

  /** Every pack with one row has exactly the row of the table. */
  lemma OneRowPacks(t: EventType)
    requires HasOneRow(t)
    ensures HasRow(FixtureRules(t), RowMemo(t), TableRow(t))
  {
    if IsFni(t) {
      SingleWithFixtures(FniMemo(t), FniGroup(t), FniFixtureAccounts(t).0, FniFixtureAccounts(t).1);
      if IsReserveOrChargeback(t) { ReserveRows(t); } else { ProductRows(t); }
    } else if IsFloorplan(t) {
      FloorplanRows(t, "CE12-TEST-STORE");
    } else if t.TradeAllowance? || t.TradeAcv? || t.TradePayoff? {
      TradeRows(t);
    } else if t.CitReceivable? || t.ReserveReceivable? || t.RebateReceivable? {
      ReceivableRows(t);
    } else if t.DealFees? || t.DealTax? || t.DueBill? {
      ChargeRows(t);
    } else if t.ArbitrationConditionCost? {
      ConditionCostRow();
    } else {
      FeeAndPayoffRows(t);
    }
  }

  lemma ProductLineRows()
    ensures ReadyGroups(ProductLineGroups(FixtureAccount, DEAL_STORE))
    ensures RowsOf(ProductLineGroups(FixtureAccount, DEAL_STORE)) == RequestedRows(ProductLine, map[])
  {
  }

  lemma WholesaleRows()
    ensures ReadyGroups(WholesaleGroups(FixtureAccount, DEAL_STORE))
    ensures RowsOf(WholesaleGroups(FixtureAccount, DEAL_STORE)) == RequestedRows(WholesaleDisposition, map[])
  {
  }

  /** When one rule of a pack applies and excludes the others, its rows are the ones posted. */
  lemma ApplicableRulePosts(rules: seq<Rule>, r: Rule, env: Envelope)
    requires ReadyRules(rules) && r in rules && Applies(r, env)
    requires forall s | s in rules && Applies(s, env) :: s == r
    ensures ReadyGroups(r.groups) && Posts(rules, env, r.memo, RowsOf(r.groups))
  {
    SelectedRuleIsLeast(rules, env);
    var i :| 0 <= i < |rules| && rules[i] == r;
  }

  lemma NoApplicableRulePostsNothing(rules: seq<Rule>, memo: Memo, env: Envelope)
    requires ReadyRules(rules) && forall s | s in rules :: !Applies(s, env)
    ensures Posts(rules, env, memo, [])
  {
    SelectedRuleIsLeast(rules, env);
  }

  lemma RetailAndTradeRows()
    ensures var rules := FinalizedRules(FixtureAccount, DEAL_STORE);
            && |rules| == 4 && ReadyGroups(rules[0].groups) && ReadyGroups(rules[1].groups)
            && rules[0].memo == DealMemo(19) && rules[1].memo == DealMemo(20)
            && RowsOf(rules[0].groups) == [Row(Opens(19200, DealNumber), On(19201), SaleAmount), COST_ROW]
            && RowsOf(rules[1].groups) == [Row(Opens(19200, DealNumber), On(19203), SaleAmount), COST_ROW]
  {
  }

  lemma WholesaleAndLeaseRows()
    ensures var rules := FinalizedRules(FixtureAccount, DEAL_STORE);
            && |rules| == 4 && ReadyGroups(rules[2].groups) && ReadyGroups(rules[3].groups)
            && rules[2].memo == DealMemo(17) && rules[3].memo == DealMemo(13)
            && RowsOf(rules[2].groups) == [Row(On(19202), On(19201), WholesaleAmount), COST_ROW]
            && RowsOf(rules[3].groups)
              == [Row(On(19204), On(19201), LeaseCapitalizedCostAmount), Row(On(19205), On(19204), LeaseResidualAmount),
                  COST_ROW]
  {
  }

  predicate RuleNeeds(r: Rule, path: Field, text: string) {
    r.condition == When(path, text)
  }

  lemma NeedsMeansIs(r: Rule, path: Field, text: string, env: Envelope)
    requires RuleNeeds(r, path, text)
    ensures Applies(r, env) <==> Is(env, path, text)
  {
  }

  lemma FinalizedPackPosts(env: Envelope)
    ensures Posts(FinalizedRules(FixtureAccount, DEAL_STORE), env, MemoOf(DealFinalized, env),
      RequestedRows(DealFinalized, env))
  {
    var rules := FinalizedRules(FixtureAccount, DEAL_STORE);
    RetailAndTradeRows();
    WholesaleAndLeaseRows();
    assert |rules| == 4 && forall i | 0 <= i < 4 :: rules[i].groups != [];
    NeedsMeansIs(rules[0], DealType, "RETAIL", env);
    NeedsMeansIs(rules[1], DealType, "DEALER_TRADE", env);
    NeedsMeansIs(rules[2], DealType, "WHOLESALE", env);
    NeedsMeansIs(rules[3], DealType, "LEASE", env);
    assert |"RETAIL"| == 6 && |"DEALER_TRADE"| == 12 && |"WHOLESALE"| == 9 && |"LEASE"| == 5;
    if i: nat :| i < 4 && Applies(rules[i], env) {
      ApplicableRulePosts(rules, rules[i], env);
    } else {
      NoApplicableRulePostsNothing(rules, MemoOf(DealFinalized, env), env);
    }
  }

  lemma PayoffVariancePackPosts(env: Envelope)
    ensures Posts(PayoffVarianceRules(FixtureAccount, DEAL_STORE), env, MemoOf(PayoffVariance, env),
      RequestedRows(PayoffVariance, env))
  {
    var rules := PayoffVarianceRules(FixtureAccount, DEAL_STORE);
    assert |rules| == 2;
    assert ReadyGroup(rules[0].groups[0]) && RowsOf(rules[0].groups) == [Row(On(19200), On(19211), VarianceAmount)];
    assert ReadyGroup(rules[1].groups[0]) && RowsOf(rules[1].groups) == [Row(On(19211), On(19200), VarianceAmount)];
    NeedsMeansIs(rules[0], Disposition, "ADDITIONAL_PAYMENT", env);
    NeedsMeansIs(rules[1], Disposition, "REFUND_RECEIVABLE", env);
    assert |"ADDITIONAL_PAYMENT"| == 18 && |"REFUND_RECEIVABLE"| == 17;
    if i: nat :| i < 2 && Applies(rules[i], env) {
      ApplicableRulePosts(rules, rules[i], env);
    } else {
      NoApplicableRulePostsNothing(rules, MemoOf(PayoffVariance, env), env);
    }
  }

  lemma ArbitrationPricePackPosts(env: Envelope)
    ensures Posts(ArbitrationPriceRules(FixtureAccount, DEAL_STORE), env, MemoOf(ArbitrationPrice, env),
      RequestedRows(ArbitrationPrice, env))
  {
    var rules := ArbitrationPriceRules(FixtureAccount, DEAL_STORE);
    assert |rules| == 2;
    assert ReadyGroup(rules[0].groups[0])
      && RowsOf(rules[0].groups) == [Row(Opens(19202, UnitRef), On(19222), AdjustmentAmount)];
    assert ReadyGroup(rules[1].groups[0])
      && RowsOf(rules[1].groups) == [Row(On(19222), Opens(19202, UnitRef), AdjustmentAmount)];
    NeedsMeansIs(rules[0], AdjustmentDirection, "INCREASE", env);
    NeedsMeansIs(rules[1], AdjustmentDirection, "DECREASE", env);
    assert "INCREASE"[0] == 'I' && "DECREASE"[0] == 'D';
    if i: nat :| i < 2 && Applies(rules[i], env) {
      ApplicableRulePosts(rules, rules[i], env);
    } else {
      NoApplicableRulePostsNothing(rules, MemoOf(ArbitrationPrice, env), env);
    }
  }

  /** The row of the delta rule for a direction. */
  function DeltaRow(direction: string): Row {
    if direction == "INCREASE" then Row(On(19225), On(19200), DeltaAmount) else Row(On(19200), On(19225), DeltaAmount)
  }

  lemma DeltaRuleRow(role: string, direction: string, priority: int)
    ensures var r := DeltaRule(FixtureAccount, DEAL_STORE, role, direction, priority);
            && r.groups != [] && ReadyGroups(r.groups) && RowsOf(r.groups) == [DeltaRow(direction)]
            && r.memo == Memo(25, [DealNumber, Role])
  {
  }

  lemma DeltaPackIsReady()
    ensures ReadyRules(DeltaRules(FixtureAccount, DEAL_STORE))
    ensures ReadyGroups(DeltaFallback(FixtureAccount, DEAL_STORE).groups)
    ensures RowsOf(DeltaFallback(FixtureAccount, DEAL_STORE).groups) == [Row(On(19225), On(19225), DeltaAmount)]
  {
    var rules := DeltaRules(FixtureAccount, DEAL_STORE);
    forall i | 0 <= i < |rules| ensures rules[i].groups != [] && ReadyGroups(rules[i].groups) {
      if i < 14 {
        DeltaRuleRow(DELTA_ROLES[i / 2], DIRECTIONS[i % 2], 10 + i);
        assert rules[i] == DeltaRuleAt(FixtureAccount, DEAL_STORE, i);
      } else {
        assert rules[i] == DeltaFallback(FixtureAccount, DEAL_STORE);
      }
    }
  }

  lemma DeltaRuleApplies(i: nat, env: Envelope)
    requires i < 14
    ensures Applies(DeltaRuleAt(FixtureAccount, DEAL_STORE, i), env)
       <==> Is(env, Role, DELTA_ROLES[i / 2]) && Is(env, DeltaDirection, DIRECTIONS[i % 2])
  {
    var clauses := [Equals(Role, Text(DELTA_ROLES[i / 2])), Equals(DeltaDirection, Text(DIRECTIONS[i % 2]))];
    assert DeltaRuleAt(FixtureAccount, DEAL_STORE, i).condition == Some(And(clauses));
    assert Holds(clauses[0], env) <==> Is(env, Role, DELTA_ROLES[i / 2]);
    assert Holds(clauses[1], env) <==> Is(env, DeltaDirection, DIRECTIONS[i % 2]);
  }

  /** Which of the fifteen rules applies decides the row. */
  lemma DeltaRowRequested(i: nat, env: Envelope)
    requires i < 14 && Is(env, Role, DELTA_ROLES[i / 2]) && Is(env, DeltaDirection, DIRECTIONS[i % 2])
    ensures RequestedRows(RecontractDelta, env) == [DeltaRow(DIRECTIONS[i % 2])]
  {
    assert DELTA_ROLES[i / 2] in DELTA_ROLES && IsDelta(env, DIRECTIONS[i % 2]);
    assert "INCREASE"[0] == 'I' && "DECREASE"[0] == 'D';
  }

  lemma DeltaHasRule(env: Envelope, direction: string, d: nat)
    requires IsDelta(env, direction) && d < 2 && DIRECTIONS[d] == direction
    ensures exists i: nat | i < 14 :: Is(env, Role, DELTA_ROLES[i / 2]) && Is(env, DeltaDirection, DIRECTIONS[i % 2])
  {
    var j :| 0 <= j < 7 && DELTA_ROLES[j] == env[Role].text;
    assert (2 * j + d) / 2 == j && (2 * j + d) % 2 == d;
    assert Is(env, Role, DELTA_ROLES[(2 * j + d) / 2]);
  }

  lemma NothingRequested(env: Envelope)
    requires forall i: nat | i < 14 ::
      !(Is(env, Role, DELTA_ROLES[i / 2]) && Is(env, DeltaDirection, DIRECTIONS[i % 2]))
    requires !Is(env, Role, "__NEVER__")
    ensures RequestedRows(RecontractDelta, env) == []
  {
    if IsDelta(env, "INCREASE") {
      DeltaHasRule(env, "INCREASE", 0);
    } else if IsDelta(env, "DECREASE") {
      DeltaHasRule(env, "DECREASE", 1);
    }
  }

  lemma DeltaPackPosts(env: Envelope)
    ensures Posts(DeltaRules(FixtureAccount, DEAL_STORE), env, MemoOf(RecontractDelta, env),
      RequestedRows(RecontractDelta, env))
  {
    var rules := DeltaRules(FixtureAccount, DEAL_STORE);
    DeltaPackIsReady();
    DeltaRulesAreExclusive(FixtureAccount, DEAL_STORE);
    forall i: nat | i < 14
      ensures rules[i] == DeltaRuleAt(FixtureAccount, DEAL_STORE, i)
      ensures Applies(rules[i], env)
        <==> Is(env, Role, DELTA_ROLES[i / 2]) && Is(env, DeltaDirection, DIRECTIONS[i % 2])
    {
      DeltaRuleApplies(i, env);
    }
    assert rules[14] == DeltaFallback(FixtureAccount, DEAL_STORE);
    NeedsMeansIs(rules[14], Role, "__NEVER__", env);
    if i: nat :| i < 14 && Applies(rules[i], env) {
      ApplicableRulePosts(rules, rules[i], env);
      DeltaRuleRow(DELTA_ROLES[i / 2], DIRECTIONS[i % 2], 10 + i);
      DeltaRowRequested(i, env);
    } else if Applies(rules[14], env) {
      ApplicableRulePosts(rules, rules[14], env);
      assert "__NEVER__"[0] == '_' && forall j | 0 <= j < 7 :: DELTA_ROLES[j][0] != '_';
    } else {
      NoApplicableRulePostsNothing(rules, MemoOf(RecontractDelta, env), env);
      NothingRequested(env);
    }
  }

  lemma SeveralRowPackPosts(t: EventType, env: Envelope)
    requires !HasOneRow(t)
    ensures Posts(FixtureRules(t), env, MemoOf(t, env), RequestedRows(t, env))
  {
    assert FixtureRules(t) == DealRules(t, FixtureAccount, DEAL_STORE);
    match t
    case DealFinalized => FinalizedPackPosts(env);
    case ProductLine =>
      ProductLineRows();
      UnconditionalPackPosts(DealRules(t, FixtureAccount, DEAL_STORE), MemoOf(t, env), RequestedRows(t, env), env);
    case RecontractDelta => DeltaPackPosts(env);
    case PayoffVariance => PayoffVariancePackPosts(env);
    case WholesaleDisposition =>
      WholesaleRows();
      UnconditionalPackPosts(DealRules(t, FixtureAccount, DEAL_STORE), MemoOf(t, env), RequestedRows(t, env), env);
    case ArbitrationPrice => ArbitrationPricePackPosts(env);
  }

  lemma OneRowPosts(t: EventType, env: Envelope)
    requires HasOneRow(t)
    ensures Posts(FixtureRules(t), env, MemoOf(t, env), RequestedRows(t, env))
  {
    OneRowPacks(t);
    var rules, row := FixtureRules(t), TableRow(t);
    OneRowPackPosts(rules, RowMemo(t), row, env);
    assert RequestedRows(t, env) == [row];
  }

  /** For every event type and payload, the evaluator posts exactly the rows of the table. */
  lemma PackPosts(t: EventType, env: Envelope)
    ensures Posts(FixtureRules(t), env, MemoOf(t, env), RequestedRows(t, env))
  {
    if HasOneRow(t) {
      OneRowPosts(t, env);
    } else {
      SeveralRowPackPosts(t, env);
    }
  }
}
