/** The CE-12 rule packs: deal accounting, F&I reserve and floorplan, in the blank form
    (every account pending) and in the fixture form (real account numbers). */
module RulePacks {
  import opened Sums
  import opened PostingDsl

  /** One event type per pack, in the order the seed scripts author them. */
  datatype EventType =
    // deal-accounting-service
    | DealFinalized | TradeAllowance | TradeAcv | TradePayoff | CitReceivable | ReserveReceivable
    | DealFees | DealTax | RebateReceivable | ProductLine | DueBill | RecontractDelta
    | CitShortFundFee | PayoffIssuance | PayoffVariance | WholesaleDisposition
    | ArbitrationPrice | ArbitrationConditionCost
    // fni-reserve-service
    | RemittanceRelief | ChargebackAccrual | ShortpayWriteoff | ChargebackDrawFromReserve
    | ChargebackExcessExpense | ProductRemitRelief | CancellationIncomeReversal
    | CancellationRemitAdjustment | CancellationRefundPayable | DeferralOrigination | DeferralRecognition
    // floorplan-service
    | FloorplanAdvance | FloorplanPayoff | FloorplanWriteoff | FloorplanInterest | FloorplanCurtailment

  predicate IsDeal(t: EventType) {
    !IsFni(t) && !IsFloorplan(t)
  }

  predicate IsFni(t: EventType) {
    t.RemittanceRelief? || t.ChargebackAccrual? || t.ShortpayWriteoff? || t.ChargebackDrawFromReserve?
    || t.ChargebackExcessExpense? || t.ProductRemitRelief? || t.CancellationIncomeReversal?
    || t.CancellationRemitAdjustment? || t.CancellationRefundPayable? || t.DeferralOrigination?
    || t.DeferralRecognition?
  }

  predicate IsFloorplan(t: EventType) {
    t.FloorplanAdvance? || t.FloorplanPayoff? || t.FloorplanWriteoff? || t.FloorplanInterest? || t.FloorplanCurtailment?
  }

  datatype GlRole =
    | DealReceivableClearing | VehicleSalesRevenue | WholesaleAr | DealerTradeReceivable | LeaseCapClearing
    | LeaseResidualReceivable | VehicleInventory | CostOfVehicleSold | TradeInClearing | TradeAllowanceContra
    | TradeInInventory | TradePayoffLiability | CitReceivableRole | ReserveReceivableRole | FinanceReserveIncome
    | FeeIncome | SalesTaxPayable | RebateReceivableRole | ProductIncome | ProductRemitLiability
    | ProductCostExpense | CitShortFundFeeExpense | WholesaleDispositionClearing | AuctionFeeExpense
    | ArbitrationConditionCostExpense | RecontractDeltaSuspense | DueBillPayable

  type AccountFn = GlRole -> Account

  // ----- builders -----

  function Alloc(A: AccountFn, role: GlRole, store: string): Allocation {
    Allocation(A(role), store, None, BP_TOTAL, None, None)
  }

  function AllocDept(A: AccountFn, role: GlRole, store: string, dept: string): Allocation {
    Allocation(A(role), store, Some(dept), BP_TOTAL, None, None)
  }

  function AllocControl(A: AccountFn, role: GlRole, store: string, control: Field): Allocation {
    Allocation(A(role), store, None, BP_TOTAL, Some(control), None)
  }

  function AllocApply(A: AccountFn, role: GlRole, store: string, apply: Field): Allocation {
    Allocation(A(role), store, None, BP_TOTAL, None, Some(apply))
  }

  function PostingGroup(base: Field, debit: Allocation, credit: Allocation): Group {
    Group(base, [debit], [credit])
  }

  /** A memo that names the deal, and what the text around it takes. */
  function DealMemo(own: nat): Memo {
    Memo(own, [DealNumber])
  }

  /** A rule without a memo template: its lines are described by the entry's own description, which is 20
      characters around the event type and the source entity. */
  function NoMemo(eventTypeLength: nat): Memo {
    Memo(20 + eventTypeLength, [SourceEntityId])
  }

  function Default(memo: Memo, groups: seq<Group>): seq<Rule> {
    [Rule("default", 10, None, memo, groups)]
  }

  function When(path: Field, value: string): Option<Condition> {
    Some(Equals(path, Text(value)))
  }

  // ----- deal-accounting-service -----

  function UnitCostRelief(A: AccountFn, store: string, dept: string): Group {
    PostingGroup(UnitCostAmount, AllocDept(A, CostOfVehicleSold, store, dept),
      AllocApply(A, VehicleInventory, store, StockNumber))
  }

  function FinalizedRules(A: AccountFn, store: string): seq<Rule> {
    [ Rule("retail", 10, When(DealType, "RETAIL"), DealMemo(19),
        [ PostingGroup(SaleAmount, AllocControl(A, DealReceivableClearing, store, DealNumber),
          AllocDept(A, VehicleSalesRevenue, store, "NEW")),
          UnitCostRelief(A, store, "NEW") ]),
      Rule("dealer-trade", 20, When(DealType, "DEALER_TRADE"), DealMemo(20),
        [ PostingGroup(SaleAmount, AllocControl(A, DealReceivableClearing, store, DealNumber),
          AllocDept(A, DealerTradeReceivable, store, "NEW")),
          UnitCostRelief(A, store, "NEW") ]),
      Rule("wholesale", 30, When(DealType, "WHOLESALE"), DealMemo(17),
        [ PostingGroup(WholesaleAmount, Alloc(A, WholesaleAr, store), AllocDept(A, VehicleSalesRevenue, store, "USED")),
          UnitCostRelief(A, store, "USED") ]),
      Rule("lease", 40, When(DealType, "LEASE"), DealMemo(13),
        [ PostingGroup(LeaseCapitalizedCostAmount, Alloc(A, LeaseCapClearing, store),
          AllocDept(A, VehicleSalesRevenue, store, "LEASE")),
          PostingGroup(LeaseResidualAmount, Alloc(A, LeaseResidualReceivable, store),
            Alloc(A, LeaseCapClearing, store)),
          UnitCostRelief(A, store, "LEASE") ]) ]
  }

  const DELTA_ROLES: seq<string> := ["GROSS", "LEASE_RESIDUAL", "UNIT_COST", "CIT", "RESERVE_INCOME", "FEES", "TAX"]
  const DIRECTIONS: seq<string> := ["INCREASE", "DECREASE"]

  function Lower(s: string): string {
    seq(|s|, i requires 0 <= i < |s| => if 'A' <= s[i] <= 'Z' then (s[i] as int + 32) as char else s[i])
  }

  /** The rule for one role and direction: an increase debits the suspense account and
      credits deal-receivable clearing, a decrease does the opposite. */
  function DeltaRule(A: AccountFn, store: string, role: string, direction: string, priority: int): Rule {
    var suspense, clearing := Alloc(A, RecontractDeltaSuspense, store), Alloc(A, DealReceivableClearing, store);
    Rule(Lower(role) + "-" + Lower(direction), priority,
         Some(And([Equals(Role, Text(role)), Equals(DeltaDirection, Text(direction))])), Memo(25, [DealNumber, Role]),
         [ if direction == "INCREASE" then PostingGroup(DeltaAmount, suspense, clearing)
           else PostingGroup(DeltaAmount, clearing, suspense) ])
  }

  function DeltaFallback(A: AccountFn, store: string): Rule {
    Rule("no-match-fallback", 9999, When(Role, "__NEVER__"), NoMemo(24),
         [PostingGroup(DeltaAmount, Alloc(A, RecontractDeltaSuspense, store),
           Alloc(A, RecontractDeltaSuspense, store))])
  }

  /** Rule number i of the family is for role i / 2 and direction i % 2, with priority 10 + i. */
  function DeltaRuleAt(A: AccountFn, store: string, i: nat): Rule
    requires i < 2 * |DELTA_ROLES|
  {
    DeltaRule(A, store, DELTA_ROLES[i / 2], DIRECTIONS[i % 2], 10 + i)
  }

  function DeltaRules(A: AccountFn, store: string): seq<Rule> {
    seq(2 * |DELTA_ROLES|, i requires 0 <= i < 2 * |DELTA_ROLES| => DeltaRuleAt(A, store, i))
      + [DeltaFallback(A, store)]
  }

  /** The nested loops of the seed script, counting the priority up from 10. */
  method BuildDeltaRules(A: AccountFn, store: string) returns (deltaRules: seq<Rule>)
    ensures deltaRules == DeltaRules(A, store)
  {
    deltaRules := [];
    var priority := 10;
    for r := 0 to |DELTA_ROLES|
      invariant priority == 10 + 2 * r
      invariant |deltaRules| == 2 * r
      invariant forall i | 0 <= i < 2 * r :: deltaRules[i] == DeltaRuleAt(A, store, i)
    {
      for d := 0 to |DIRECTIONS|
        invariant priority == 10 + 2 * r + d
        invariant |deltaRules| == 2 * r + d
        invariant forall i | 0 <= i < 2 * r + d :: deltaRules[i] == DeltaRuleAt(A, store, i)
      {
        assert (2 * r + d) / 2 == r && (2 * r + d) % 2 == d;
        deltaRules := deltaRules + [DeltaRule(A, store, DELTA_ROLES[r], DIRECTIONS[d], priority)];
        priority := priority + 1;
      }
    }
    deltaRules := deltaRules + [DeltaFallback(A, store)];
  }

  /** The packs whose only rule is unconditional and has a single posting group. */
  predicate HasOneRow(t: EventType) {
    !t.DealFinalized? && !t.ProductLine? && !t.RecontractDelta? && !t.PayoffVariance? && !t.WholesaleDisposition?
      && !t.ArbitrationPrice?
  }

  function DealGroup(t: EventType, A: AccountFn, store: string): Group
    requires IsDeal(t) && HasOneRow(t)
  {
    match t
    case TradeAllowance =>
      PostingGroup(TradeAllowanceAmount, Alloc(A, TradeInClearing, store),
        AllocDept(A, TradeAllowanceContra, store, "NEW"))
    case TradeAcv =>
      PostingGroup(TradeAcvAmount, AllocControl(A, TradeInInventory, store, TradeVin), Alloc(A, TradeInClearing, store))
    case TradePayoff =>
      PostingGroup(TradePayoffAmount, Alloc(A, TradeInClearing, store),
        AllocControl(A, TradePayoffLiability, store, DealNumber))
    case CitReceivable =>
      PostingGroup(FinancedAmount, AllocControl(A, CitReceivableRole, store, DealNumber),
        Alloc(A, DealReceivableClearing, store))
    case ReserveReceivable =>
      PostingGroup(ReserveIncomeAmount, AllocControl(A, ReserveReceivableRole, store, DealNumber),
        AllocDept(A, FinanceReserveIncome, store, "FI"))
    case DealFees =>
      PostingGroup(FeesAmount, Alloc(A, DealReceivableClearing, store), AllocDept(A, FeeIncome, store, "ADMIN"))
    case DealTax => PostingGroup(TaxAmount, Alloc(A, DealReceivableClearing, store), Alloc(A, SalesTaxPayable, store))
    case RebateReceivable =>
      PostingGroup(RebateReceivableAmount, AllocControl(A, RebateReceivableRole, store, DealNumber),
        Alloc(A, DealReceivableClearing, store))
    case DueBill =>
      PostingGroup(Amount, Alloc(A, DealReceivableClearing, store), AllocControl(A, DueBillPayable, store, DealNumber))
    case CitShortFundFee =>
      PostingGroup(FeeAmount, AllocDept(A, CitShortFundFeeExpense, store, "ADMIN"),
        AllocApply(A, CitReceivableRole, store, DealNumber))
    case PayoffIssuance =>
      PostingGroup(PayoffAmount, AllocApply(A, TradePayoffLiability, store, DealNumber),
        Alloc(A, DealReceivableClearing, store))
    case ArbitrationConditionCost =>
      PostingGroup(ConditionCostAmount, AllocDept(A, ArbitrationConditionCostExpense, store, "USED"),
        Alloc(A, WholesaleDispositionClearing, store))
  }

  function DealMemoOf(t: EventType): Memo
    requires IsDeal(t) && HasOneRow(t)
  {
    match t
    case TradeAllowance => DealMemo(23)
    case TradeAcv => DealMemo(17)
    case TradePayoff => DealMemo(20)
    case CitReceivable => DealMemo(22)
    case ReserveReceivable => DealMemo(26)
    case DealFees => DealMemo(12)
    case DealTax => Memo(14, [DealNumber, TaxResultId])
    case RebateReceivable => DealMemo(25)
    case DueBill => Memo(18, [DealNumber, ItemDescription])
    case CitShortFundFee => DealMemo(26)
    case PayoffIssuance => DealMemo(21)
    case ArbitrationConditionCost => NoMemo(46)
  }

  function ProductLineGroups(A: AccountFn, store: string): seq<Group> {
    [ PostingGroup(CustomerPriceAmount, Alloc(A, DealReceivableClearing, store),
      AllocDept(A, ProductIncome, store, "FI")),
      PostingGroup(ProviderCostAmount, AllocDept(A, ProductCostExpense, store, "FI"),
        Allocation(A(ProductRemitLiability), store, None, BP_TOTAL, Some(ProductControlRef), Some(DealNumber))) ]
  }

  function WholesaleGroups(A: AccountFn, store: string): seq<Group> {
    [ PostingGroup(WholesaleAmount, AllocControl(A, WholesaleAr, store, UnitRef),
      Alloc(A, WholesaleDispositionClearing, store)),
      PostingGroup(UnitReliefAmount, Alloc(A, WholesaleDispositionClearing, store),
        AllocControl(A, VehicleInventory, store, UnitRef)),
      PostingGroup(AuctionFeesAmount, AllocDept(A, AuctionFeeExpense, store, "USED"),
        Alloc(A, WholesaleDispositionClearing, store)) ]
  }

  function PayoffVarianceRules(A: AccountFn, store: string): seq<Rule> {
    [ Rule("additional-payment", 10, When(Disposition, "ADDITIONAL_PAYMENT"), NoMemo(23),
        [PostingGroup(VarianceAmount, Alloc(A, DealReceivableClearing, store), Alloc(A, TradePayoffLiability, store))]),
      Rule("refund-receivable", 20, When(Disposition, "REFUND_RECEIVABLE"), NoMemo(23),
        [PostingGroup(VarianceAmount, Alloc(A, TradePayoffLiability, store),
          Alloc(A, DealReceivableClearing, store))]) ]
  }

  function ArbitrationPriceRules(A: AccountFn, store: string): seq<Rule> {
    [ Rule("increase", 10, When(AdjustmentDirection, "INCREASE"), NoMemo(36),
        [PostingGroup(AdjustmentAmount, AllocControl(A, WholesaleAr, store, UnitRef),
          Alloc(A, WholesaleDispositionClearing, store))]),
      Rule("decrease", 20, When(AdjustmentDirection, "DECREASE"), NoMemo(36),
        [PostingGroup(AdjustmentAmount, Alloc(A, WholesaleDispositionClearing, store),
          AllocControl(A, WholesaleAr, store, UnitRef))]) ]
  }

  function DealRules(t: EventType, A: AccountFn, store: string): seq<Rule>
    requires IsDeal(t)
  {
    if HasOneRow(t) then Default(DealMemoOf(t), [DealGroup(t, A, store)]) else
    match t
    case DealFinalized => FinalizedRules(A, store)
    case ProductLine => Default(Memo(16, [DealNumber, ProductCode]), ProductLineGroups(A, store))
    case RecontractDelta => DeltaRules(A, store)
    case PayoffVariance => PayoffVarianceRules(A, store)
    case WholesaleDisposition => Default(Memo(10, [UnitRef]), WholesaleGroups(A, store))
    case ArbitrationPrice => ArbitrationPriceRules(A, store)
  }

  // ----- fni-reserve-service -----

  const STORE_PENDING := "STORE_MAPPING_PENDING"
  const DEPT_PENDING := "DEPT_MAPPING_PENDING"

  function PendingAllocation(dept: Option<string>, control: Option<Field>, apply: Option<Field>): Allocation {
    Allocation(Pending, STORE_PENDING, dept, BP_TOTAL, control, apply)
  }

  const PLAIN := PendingAllocation(None, None, None)
  const BY_DEPARTMENT := PendingAllocation(Some(DEPT_PENDING), None, None)

  function Opening(key: Field): Allocation {
    PendingAllocation(None, Some(key), None)
  }

  function Relieving(key: Field): Allocation {
    PendingAllocation(None, Some(key), Some(key))
  }

  function FniGroup(t: EventType): Group
    requires IsFni(t)
  {
    match t
    case RemittanceRelief => PostingGroup(ReliefAmount, PLAIN, Relieving(DealNumber))
    case ChargebackAccrual => PostingGroup(AccrualAmount, BY_DEPARTMENT, Opening(DealNumber))
    case ShortpayWriteoff => PostingGroup(ShortPayAmount, BY_DEPARTMENT, Relieving(DealNumber))
    case ChargebackDrawFromReserve => PostingGroup(DrawFromReserveAmount, Relieving(DealNumber), PLAIN)
    case ChargebackExcessExpense => PostingGroup(ExcessToExpenseAmount, BY_DEPARTMENT, PLAIN)
    case ProductRemitRelief => PostingGroup(Amount, Relieving(ApplyControlNumber), PLAIN)
    case CancellationIncomeReversal => PostingGroup(IncomeReversalAmount, BY_DEPARTMENT, PLAIN)
    case CancellationRemitAdjustment => PostingGroup(RemitAdjustmentAmount, Relieving(ApplyControlNumber), PLAIN)
    case CancellationRefundPayable => PostingGroup(RefundPayableAmount, PLAIN, Opening(ControlNumber))
    case DeferralOrigination => PostingGroup(OriginalAmount, PLAIN, Opening(ScheduleControlNumber))
    case DeferralRecognition => PostingGroup(EarnedAmount, Relieving(ScheduleControlNumber), BY_DEPARTMENT)
  }

  function FniMemo(t: EventType): Memo
    requires IsFni(t)
  {
    match t
    case RemittanceRelief => Memo(29, [DealNumber, LenderProgramCode])
    case ChargebackAccrual => Memo(37, [DealNumber, LenderProgramCode])
    case ShortpayWriteoff => Memo(38, [DealNumber, LenderProgramCode])
    case ChargebackDrawFromReserve => Memo(39, [DealNumber, LenderProgramCode])
    case ChargebackExcessExpense => Memo(39, [DealNumber, LenderProgramCode])
    case ProductRemitRelief => Memo(37, [DealNumber, ProductCode, ProviderCode])
    case CancellationIncomeReversal => Memo(45, [DealNumber, ProductCode])
    case CancellationRemitAdjustment => Memo(46, [DealNumber, ProductCode])
    case CancellationRefundPayable => Memo(44, [DealNumber, ProductCode])
    case DeferralOrigination => Memo(45, [DealNumber, ProductCode])
    case DeferralRecognition => Memo(37, [DealNumber, ProductCode])
  }

  /** Every reserve and floorplan pack is one unconditional rule with one group. */
  function Single(memo: Memo, g: Group): seq<Rule> {
    [Rule("rule-1", 1, None, memo, [g])]
  }

  /** The debit and the credit fixture account of a pack. */
  function FniFixtureAccounts(t: EventType): (nat, nat)
    requires IsFni(t)
  {
    match t
    case RemittanceRelief => (19300, 19213)
    case ChargebackAccrual => (19214, 19301)
    case ShortpayWriteoff => (19302, 19213)
    case ChargebackDrawFromReserve => (19301, 19303)
    case ChargebackExcessExpense => (19304, 19303)
    case ProductRemitRelief => (19219, 19305)
    case CancellationIncomeReversal => (19218, 19306)
    case CancellationRemitAdjustment => (19219, 19306)
    case CancellationRefundPayable => (19306, 19307)
    case DeferralOrigination => (19309, 19308)
    case DeferralRecognition => (19308, 19218)
  }

  const FIXTURE_STORE := "FNI-TEST-STORE-001"
  const FIXTURE_DEPT := "FNI-TEST-DEPT-FI"

  function FixAllocation(a: Allocation, account: nat): Allocation {
    a.(account := Gl(account), storeId := FIXTURE_STORE,
       dept := if a.dept.Some? && a.dept.value != "" then Some(FIXTURE_DEPT) else a.dept)
  }

  function FixAllocations(allocs: seq<Allocation>, account: nat): seq<Allocation> {
    seq(|allocs|, i requires 0 <= i < |allocs| => FixAllocation(allocs[i], account))
  }

  function FixGroup(g: Group, debit: nat, credit: nat): Group {
    g.(debits := FixAllocations(g.debits, debit), credits := FixAllocations(g.credits, credit))
  }

  function FixGroups(groups: seq<Group>, debit: nat, credit: nat): seq<Group> {
    if groups == [] then [] else [FixGroup(groups[0], debit, credit)] + FixGroups(groups[1..], debit, credit)
  }

  /** applyFixtures: the same rules with accounts, store and department replaced. */
  function ApplyFixtures(rules: seq<Rule>, debit: nat, credit: nat): seq<Rule> {
    if rules == [] then []
    else [rules[0].(groups := FixGroups(rules[0].groups, debit, credit))] + ApplyFixtures(rules[1..], debit, credit)
  }

  // ----- floorplan-service -----

  datatype FloorplanRoles = FloorplanRoles(
    advanceClearing: Account, notesPayable: Account, payoffClearing: Account, writeoffExpense: Account,
    interestExpense: Account, interestAccruedPayable: Account, curtailmentClearing: Account)

  function DeptFor(account: Account, dept: Option<string>): Option<string> {
    if account.Pending? then None else dept
  }

  function FloorplanGroup(t: EventType, roles: FloorplanRoles, store: string, dept: Option<string>): Group
    requires IsFloorplan(t)
  {
    var plain := (a: Account) => Allocation(a, store, None, BP_TOTAL, None, None);
    var departmental := (a: Account) => Allocation(a, store, DeptFor(a, dept), BP_TOTAL, None, None);
    var opening := Allocation(roles.notesPayable, store, None, BP_TOTAL, Some(StockNumber), None);
    var relieving := Allocation(roles.notesPayable, store, None, BP_TOTAL, Some(StockNumber), Some(StockNumber));
    match t
    case FloorplanAdvance => PostingGroup(Amount, plain(roles.advanceClearing), opening)
    case FloorplanPayoff => PostingGroup(Amount, relieving, plain(roles.payoffClearing))
    case FloorplanWriteoff => PostingGroup(Amount, departmental(roles.writeoffExpense), relieving)
    case FloorplanInterest =>
      PostingGroup(InterestTotalAmount, departmental(roles.interestExpense), plain(roles.interestAccruedPayable))
    case FloorplanCurtailment => PostingGroup(Amount, relieving, plain(roles.curtailmentClearing))
  }

  function FloorplanMemo(t: EventType): Memo
    requires IsFloorplan(t)
  {
    match t
    case FloorplanAdvance => Memo(23, [LenderCode, ApplyNumber])
    case FloorplanPayoff => Memo(22, [LenderCode, ApplyNumber])
    case FloorplanWriteoff => Memo(31, [LenderCode, ApplyNumber])
    case FloorplanInterest => Memo(40, [LenderCode, StatementId])
    case FloorplanCurtailment => Memo(27, [LenderCode, ApplyNumber])
  }

  // ----- blank and fixture packs -----

  const PENDING_ROLES := FloorplanRoles(Pending, Pending, Pending, Pending, Pending, Pending, Pending)
  const FIXTURE_ROLES := FloorplanRoles(Gl(19101), Gl(19102), Gl(19103), Gl(19104), Gl(19105), Gl(19106), Gl(19107))

  function FixtureAccount(role: GlRole): Account {
    match role
    case DealReceivableClearing => Gl(19200)
    case VehicleSalesRevenue => Gl(19201)
    case WholesaleAr => Gl(19202)
    case DealerTradeReceivable => Gl(19203)
    case LeaseCapClearing => Gl(19204)
    case LeaseResidualReceivable => Gl(19205)
    case VehicleInventory => Gl(19206)
    case CostOfVehicleSold => Gl(19207)
    case TradeInClearing => Gl(19208)
    case TradeAllowanceContra => Gl(19209)
    case TradeInInventory => Gl(19210)
    case TradePayoffLiability => Gl(19211)
    case CitReceivableRole => Gl(19212)
    case ReserveReceivableRole => Gl(19213)
    case FinanceReserveIncome => Gl(19214)
    case FeeIncome => Gl(19215)
    case SalesTaxPayable => Gl(19216)
    case RebateReceivableRole => Gl(19217)
    case ProductIncome => Gl(19218)
    case ProductRemitLiability => Gl(19219)
    case ProductCostExpense => Gl(19220)
    case CitShortFundFeeExpense => Gl(19221)
    case WholesaleDispositionClearing => Gl(19222)
    case AuctionFeeExpense => Gl(19223)
    case ArbitrationConditionCostExpense => Gl(19224)
    case RecontractDeltaSuspense => Gl(19225)
    case DueBillPayable => Gl(19226)
  }

  const DEAL_STORE := "STORE-1"

  function BlankRules(t: EventType): seq<Rule> {
    if IsFni(t) then Single(FniMemo(t), FniGroup(t))
    else if IsFloorplan(t) then Single(FloorplanMemo(t), FloorplanGroup(t, PENDING_ROLES, "CE12-STORE-PENDING", None))
    else DealRules(t, role => Pending, DEAL_STORE)
  }

  function FixtureRules(t: EventType): seq<Rule> {
    if IsFni(t) then ApplyFixtures(Single(FniMemo(t), FniGroup(t)), FniFixtureAccounts(t).0, FniFixtureAccounts(t).1)
    else if IsFloorplan(t)
      then Single(FloorplanMemo(t), FloorplanGroup(t, FIXTURE_ROLES, "CE12-TEST-STORE", Some("FLRPLN")))
    else DealRules(t, FixtureAccount, DEAL_STORE)
  }

  // ----- the conditions of one pack exclude each other -----

  /** No envelope satisfies two different rules of the pack. */
  ghost predicate PairwiseExclusive(rules: seq<Rule>) {
    forall r, s, env: Envelope | r in rules && s in rules && Applies(r, env) && Applies(s, env) :: r == s
  }

  lemma DeltaRulesAreExclusive(A: AccountFn, store: string)
    ensures PairwiseExclusive(DeltaRules(A, store))
  {
    var rules := DeltaRules(A, store);
    forall r, s, env: Envelope | r in rules && s in rules && Applies(r, env) && Applies(s, env) ensures r == s {
      var i :| 0 <= i < |rules| && rules[i] == r;
      var j :| 0 <= j < |rules| && rules[j] == s;
      DeltaRuleNamesItsRole(A, store, i, env);
      DeltaRuleNamesItsRole(A, store, j, env);
      if i < 14 && j < 14 {
        DeltaRolesDiffer(i / 2, j / 2);
        assert i == 2 * (i / 2) + i % 2 && j == 2 * (j / 2) + j % 2;
      }
    }
  }

  lemma DeltaRolesDiffer(k: nat, l: nat)
    requires k < 7 && l < 7
    ensures DELTA_ROLES[k] == DELTA_ROLES[l] <==> k == l
  {
    assert DELTA_ROLES[0][0] == 'G' && DELTA_ROLES[1][0] == 'L' && DELTA_ROLES[2][0] == 'U' && DELTA_ROLES[3][0] == 'C';
    assert DELTA_ROLES[4][0] == 'R' && DELTA_ROLES[5][0] == 'F' && DELTA_ROLES[6][0] == 'T';
  }

  lemma DeltaRuleNamesItsRole(A: AccountFn, store: string, i: nat, env: Envelope)
    requires i < 15 && Applies(DeltaRules(A, store)[i], env)
    ensures i == 14 ==> Role in env && env[Role] == Text("__NEVER__")
    ensures i < 14 ==> Role in env && env[Role] == Text(DELTA_ROLES[i / 2]) && DELTA_ROLES[i / 2] != "__NEVER__"
                       && DeltaDirection in env && env[DeltaDirection] == Text(DIRECTIONS[i % 2])
  {
    if i < 14 {
      var clauses := [Equals(Role, Text(DELTA_ROLES[i / 2])), Equals(DeltaDirection, Text(DIRECTIONS[i % 2]))];
      assert Holds(And(clauses), env);
      assert Holds(clauses[0], env) && Holds(clauses[1], env);
      assert DELTA_ROLES[i / 2][0] != '_';
    }
  }
}
