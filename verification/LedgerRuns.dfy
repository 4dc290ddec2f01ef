/** Whole runs over the fixture packs: closed forms of the clearing accounts and of the
    scheduled accounts. */
module LedgerRuns {
  import opened Sums
  import opened PostingDsl
  import opened RulePacks
  import opened Ledger
  import opened FixturePacks

  // ----- the effect of one event -----

  /** Debit-positive effect of a row on an account. */
  function RowEffect(row: Row, env: Envelope, a: nat): int {
    var cents := Cents(row.base, env);
    (if row.debit.account == a then cents else 0) - (if row.credit.account == a then cents else 0)
  }

  function RowsEffect(rows: seq<Row>, env: Envelope, a: nat): int {
    if rows == [] then 0 else RowEffect(rows[0], env, a) + RowsEffect(rows[1..], env, a)
  }

  function Effect(e: Event, a: nat): int {
    RowsEffect(PostedRows(e.kind, e.payload), e.payload, a)
  }

  lemma {:induction false} GroupsToRows(groups: seq<Group>, env: Envelope, a: nat)
    requires ReadyGroups(groups)
    ensures GroupsNet(groups, env, a) == RowsEffect(RowsOf(groups), env, a)
  {
    if groups != [] {
      GroupsToRows(groups[1..], env, a);
      assert RowsOf(groups)[1..] == RowsOf(groups[1..]);
      assert ReadyGroup(groups[0]) && RowsOf(groups)[0] == RowOf(groups[0]);
    }
  }

  /** The table gives the effect of every event on every account. */
  lemma {:induction false} EventEffect(e: Event, a: nat)
    ensures Net(EventLines(FixtureRules, FIXTURE_CHART, e), a) == Effect(e, a)
  {
    var rules := FixtureRules(e.kind);
    PackPosts(e.kind, e.payload);
    RowsDecidePosting(rules, e.payload, MemoOf(e.kind, e.payload), RequestedRows(e.kind, e.payload));
    PostedLinesOfReadyPack(rules, e.payload);
    GroupsToRows(PostedGroups(rules, e.payload), e.payload, a);
  }

  /** No text of the event is too long for gl-service. */
  predicate TextsFit(env: Envelope, rows: seq<Row>) {
    HeaderFits(env) && forall i | 0 <= i < |rows| :: RowFits(rows[i], env)
  }

  predicate AmountsPositive(env: Envelope, rows: seq<Row>) {
    forall i | 0 <= i < |rows| :: Cents(rows[i].base, env) > 0
  }

  lemma RowsTellGroups(groups: seq<Group>, env: Envelope, rows: seq<Row>)
    requires ReadyGroups(groups) && RowsOf(groups) == rows
    ensures AllPositive(groups, env) <==> AmountsPositive(env, rows)
    ensures GroupsFit(groups, env) <==> forall i | 0 <= i < |rows| :: RowFits(rows[i], env)
  {
    forall i | 0 <= i < |groups|
      ensures Cents(rows[i].base, env) > 0 <==> BaseCents(groups[i].base, env).Some?
      ensures RowFits(rows[i], env) <==> Fits(groups[i].debits[0].apply, env) && Fits(groups[i].credits[0].apply, env)
    {
      assert rows[i] == RowOf(groups[i]);
    }
  }

  lemma OutcomeFromRows(rules: seq<Rule>, env: Envelope, memo: Memo, rows: seq<Row>)
    requires Posts(rules, env, memo, rows) && WellFormed(env)
    ensures var outcome := Submit(rules, FIXTURE_CHART, env);
            if rows == [] then outcome == NoRuleMatch
            else if !AmountsPositive(env, rows) then outcome.Rejected? && outcome.why.Unresolved?
            else if !TextsFit(env, rows) then outcome == Rejected(RefusedByLedger)
            else
              && outcome.Posted? && outcome.entry.control == ControlText(env)
              && outcome.entry.description == MemoLength(memo, env)
  {
    ReadyOutcome(rules, env);
    if SelectRule(rules, env).Some? {
      RowsTellGroups(SelectRule(rules, env).value.groups, env, rows);
    }
  }

  /** What happens to a well-formed event: no match exactly when nothing is requested, else rejected for an amount,
      else refused for a text, else posted with its memo and the envelope's control number. */
  lemma EventOutcome(t: EventType, env: Envelope)
    requires WellFormed(env)
    ensures var outcome, rows := Submit(FixtureRules(t), FIXTURE_CHART, env), RequestedRows(t, env);
            if rows == [] then outcome == NoRuleMatch
            else if !AmountsPositive(env, rows) then outcome.Rejected? && outcome.why.Unresolved?
            else if !TextsFit(env, rows) then outcome == Rejected(RefusedByLedger)
            else
              && outcome.Posted? && IsDocumentOf(outcome.entry.control, env)
              && IsReferenceOf(outcome.entry.reference, env)
              && outcome.entry.description == MemoLength(MemoOf(t, env), env)
  {
    PackPosts(t, env);
    OutcomeFromRows(FixtureRules(t), env, MemoOf(t, env), RequestedRows(t, env));
    if Submit(FixtureRules(t), FIXTURE_CHART, env).Posted? {
      EntriesCarryTheirDocument(FixtureRules(t), FIXTURE_CHART, env);
    }
  }

  // ----- runs -----

  function RunNet(es: seq<Event>, a: nat): int {
    Net(Journal(FixtureRules, FIXTURE_CHART, es), a)
  }

  lemma RunNetStep(es: seq<Event>, a: nat)
    requires es != []
    ensures RunNet(es, a) == Effect(es[0], a) + RunNet(es[1..], a)
  {
    NetAppend(EventLines(FixtureRules, FIXTURE_CHART, es[0]), Journal(FixtureRules, FIXTURE_CHART, es[1..]), a);
    EventEffect(es[0], a);
  }

  // ----- packs with one row -----

  /** Well-formed, and no text too long: only the amounts can still keep the event from posting. */
  predicate Sendable(e: Event) {
    WellFormed(e.payload) && TextsFit(e.payload, RequestedRows(e.kind, e.payload))
  }

  lemma OneRowEffect(e: Event, a: nat)
    requires HasOneRow(e.kind)
    ensures Effect(e, a) == if Sendable(e) then RowEffect(TableRow(e.kind), e.payload, a) else 0
  {
    var row := TableRow(e.kind);
    assert RequestedRows(e.kind, e.payload) == [row];
    assert [row][1..] == [] && RowsEffect([], e.payload, a) == 0;
    assert RequestedRows(e.kind, e.payload)[0] == row;
    assert PostedRows(e.kind, e.payload) == if Cents(row.base, e.payload) > 0 && Sendable(e) then [row] else [];
  }

  predicate TouchedBySeveralRowPacks(a: nat) {
    19200 <= a <= 19207 || a == 19211 || 19218 <= a <= 19220 || 19222 <= a <= 19223 || a == 19225
  }

  /** The packs with several rows or rules leave every other account alone. */
  lemma SeveralRowsTouch(t: EventType, env: Envelope)
    requires !HasOneRow(t)
    ensures forall i | 0 <= i < |RequestedRows(t, env)| ::
              TouchedBySeveralRowPacks(RequestedRows(t, env)[i].debit.account)
                && TouchedBySeveralRowPacks(RequestedRows(t, env)[i].credit.account)
  {
  }

  lemma {:induction false} UntouchedHasNoEffect(rows: seq<Row>, env: Envelope, a: nat)
    requires forall i | 0 <= i < |rows| :: rows[i].debit.account != a && rows[i].credit.account != a
    ensures RowsEffect(rows, env, a) == 0
  {
    if rows != [] {
      UntouchedHasNoEffect(rows[1..], env, a);
    }
  }

  lemma EffectOfOneRowAccount(e: Event, a: nat)
    requires !TouchedBySeveralRowPacks(a)
    ensures Effect(e, a) == if HasOneRow(e.kind) && Sendable(e) then RowEffect(TableRow(e.kind), e.payload, a) else 0
  {
    if HasOneRow(e.kind) {
      OneRowEffect(e, a);
    } else {
      SeveralRowsTouch(e.kind, e.payload);
      UntouchedHasNoEffect(PostedRows(e.kind, e.payload), e.payload, a);
    }
  }

  // ----- packs with several rows -----

  lemma {:induction false} FewRows(rows: seq<Row>, env: Envelope, a: nat)
    requires |rows| <= 3
    ensures RowsEffect(rows, env, a) == (if |rows| > 0 then RowEffect(rows[0], env, a) else 0)
              + (if |rows| > 1 then RowEffect(rows[1], env, a) else 0)
                + (if |rows| > 2 then RowEffect(rows[2], env, a) else 0)
  {
    if |rows| > 0 {
      FewRows(rows[1..], env, a);
    }
  }

  // ----- flows: what an event contributes to a closed form -----

  type Flow = Event -> int

  /** The amount of a sendable event of the given type. */
  function Of(t: EventType, path: Field): Flow {
    (e: Event) => if e.kind == t && Sendable(e) then Cents(path, e.payload) else 0
  }

  /** The amount of an event of the given type whose selector has the given value. */
  function OfWhen(t: EventType, path: Field, selector: Field, value: string): Flow {
    (e: Event) => if e.kind == t && Is(e.payload, selector, value) && Sendable(e) then Cents(path, e.payload) else 0
  }

  const ADDITIONAL_PAYMENTS := OfWhen(PayoffVariance, VarianceAmount, Disposition, "ADDITIONAL_PAYMENT")
  const REFUNDS_RECEIVABLE := OfWhen(PayoffVariance, VarianceAmount, Disposition, "REFUND_RECEIVABLE")
  const PRICE_INCREASES := OfWhen(ArbitrationPrice, AdjustmentAmount, AdjustmentDirection, "INCREASE")
  const PRICE_DECREASES := OfWhen(ArbitrationPrice, AdjustmentAmount, AdjustmentDirection, "DECREASE")

  function DeltaOf(direction: string): Flow {
    (e: Event) => if e.kind.RecontractDelta? && IsDelta(e.payload, direction) && Sendable(e)
      then Cents(DeltaAmount, e.payload) else 0
  }

  predicate Positive(e: Event, path: Field) {
    Cents(path, e.payload) > 0
  }

  /** A retail or dealer-trade sale, posted only together with its cost. */
  function CreditSale(e: Event): int {
    if e.kind.DealFinalized? && (Is(e.payload, DealType, "RETAIL") || Is(e.payload, DealType, "DEALER_TRADE"))
       && Positive(e, SaleAmount) && Positive(e, UnitCostAmount) && Sendable(e) then Cents(SaleAmount, e.payload) else 0
  }

  predicate ProductPosts(e: Event) {
    e.kind.ProductLine? && Positive(e, CustomerPriceAmount) && Positive(e, ProviderCostAmount) && Sendable(e)
  }

  function ProductPrice(e: Event): int {
    if ProductPosts(e) then Cents(CustomerPriceAmount, e.payload) else 0
  }

  function ProductCost(e: Event): int {
    if ProductPosts(e) then Cents(ProviderCostAmount, e.payload) else 0
  }

  /** Unit relief minus proceeds minus auction fees, of a disposition with all three positive. */
  function DispositionMargin(e: Event): int {
    if e.kind.WholesaleDisposition? && Positive(e, UnitReliefAmount) && Positive(e, WholesaleAmount)
      && Positive(e, AuctionFeesAmount)
       && Sendable(e)
    then Cents(UnitReliefAmount, e.payload) - Cents(WholesaleAmount, e.payload) - Cents(AuctionFeesAmount, e.payload)
    else 0
  }

  // ----- the effect of the packs with several rows or rules -----

  lemma FinalizedFlow(e: Event)
    requires e.kind.DealFinalized?
    ensures Effect(e, 19200) == CreditSale(e)
    ensures Effect(e, 19211) == Effect(e, 19219) == Effect(e, 19222) == Effect(e, 19225) == 0
  {
    var rows := PostedRows(e.kind, e.payload);
    forall a { FewRows(rows, e.payload, a); }
  }

  lemma ProductLineFlow(e: Event)
    requires e.kind.ProductLine?
    ensures Effect(e, 19200) == ProductPrice(e) && Effect(e, 19219) == -ProductCost(e)
    ensures Effect(e, 19211) == Effect(e, 19222) == Effect(e, 19225) == 0
  {
    var rows := PostedRows(e.kind, e.payload);
    forall a { FewRows(rows, e.payload, a); }
  }

  lemma DeltaFlow(e: Event)
    requires e.kind.RecontractDelta?
    ensures Effect(e, 19225) == DeltaOf("INCREASE")(e) - DeltaOf("DECREASE")(e)
    ensures Effect(e, 19200) == -Effect(e, 19225)
    ensures forall a | a != 19200 && a != 19225 :: Effect(e, a) == 0
  {
    var rows := PostedRows(e.kind, e.payload);
    assert "INCREASE"[0] == 'I' && "DECREASE"[0] == 'D';
    forall a { FewRows(rows, e.payload, a); }
  }

  lemma VarianceFlow(e: Event)
    requires e.kind.PayoffVariance?
    ensures Effect(e, 19200) == ADDITIONAL_PAYMENTS(e)
                              - REFUNDS_RECEIVABLE(e)
    ensures Effect(e, 19211) == -Effect(e, 19200)
    ensures Effect(e, 19219) == Effect(e, 19222) == Effect(e, 19225) == 0
  {
    var rows := PostedRows(e.kind, e.payload);
    assert |"ADDITIONAL_PAYMENT"| == 18 && |"REFUND_RECEIVABLE"| == 17;
    forall a { FewRows(rows, e.payload, a); }
  }

  lemma DispositionFlow(e: Event)
    requires e.kind.WholesaleDisposition?
    ensures Effect(e, 19222) == DispositionMargin(e)
    ensures Effect(e, 19200) == Effect(e, 19211) == Effect(e, 19219) == Effect(e, 19225) == 0
  {
    var rows := PostedRows(e.kind, e.payload);
    forall a { FewRows(rows, e.payload, a); }
  }

  lemma PriceFlow(e: Event)
    requires e.kind.ArbitrationPrice?
    ensures Effect(e, 19222) == PRICE_DECREASES(e)
                              - PRICE_INCREASES(e)
    ensures Effect(e, 19200) == Effect(e, 19211) == Effect(e, 19219) == Effect(e, 19225) == 0
  {
    var rows := PostedRows(e.kind, e.payload);
    assert "INCREASE"[0] == 'I' && "DECREASE"[0] == 'D';
    forall a { FewRows(rows, e.payload, a); }
  }

  // ----- closed forms over whole runs -----

  function Total(flow: Flow, es: seq<Event>): int {
    if es == [] then 0 else flow(es[0]) + Total(flow, es[1..])
  }

  /** What the packs with several rows or rules do to the accounts they share with others. */
  lemma SeveralRowFlow(e: Event)
    requires !HasOneRow(e.kind)
    ensures Effect(e, 19200) == CreditSale(e) + ProductPrice(e) + DeltaOf("DECREASE")(e) - DeltaOf("INCREASE")(e)
          + ADDITIONAL_PAYMENTS(e) - REFUNDS_RECEIVABLE(e)
    ensures Effect(e, 19211) == REFUNDS_RECEIVABLE(e) - ADDITIONAL_PAYMENTS(e)
    ensures Effect(e, 19219) == -ProductCost(e)
    ensures Effect(e, 19222) == DispositionMargin(e) + PRICE_DECREASES(e) - PRICE_INCREASES(e)
    ensures Effect(e, 19225) == DeltaOf("INCREASE")(e) - DeltaOf("DECREASE")(e)
  {
    match e.kind
    case DealFinalized => FinalizedFlow(e);
    case ProductLine => ProductLineFlow(e);
    case RecontractDelta => DeltaFlow(e);
    case PayoffVariance => VarianceFlow(e);
    case WholesaleDisposition => DispositionFlow(e);
    case ArbitrationPrice => PriceFlow(e);
  }

  lemma RowOnTradeIn(t: EventType, env: Envelope)
    requires HasOneRow(t)
    ensures RowEffect(TableRow(t), env, 19208) ==
          match t
          case TradeAllowance => Cents(TradeAllowanceAmount, env)
          case TradeAcv => 0 - Cents(TradeAcvAmount, env)
          case TradePayoff => Cents(TradePayoffAmount, env)
          case _ => 0
  {
  }

  lemma TradeInClearingFlow(e: Event)
    ensures Effect(e, 19208) ==
          Of(TradeAllowance, TradeAllowanceAmount)(e) - Of(TradeAcv, TradeAcvAmount)(e)
          + Of(TradePayoff, TradePayoffAmount)(e)
  {
    EffectOfOneRowAccount(e, 19208);
    if HasOneRow(e.kind) { RowOnTradeIn(e.kind, e.payload); }
  }

  /** Trade-in clearing: allowances minus ACVs plus payoffs. */
  lemma {:induction false} TradeInClearing(es: seq<Event>)
    ensures RunNet(es, 19208) ==
          Total(Of(TradeAllowance, TradeAllowanceAmount), es) - Total(Of(TradeAcv, TradeAcvAmount), es)
          + Total(Of(TradePayoff, TradePayoffAmount), es)
  {
    if es != [] {
      TradeInClearing(es[1..]);
      RunNetStep(es, 19208);
      TradeInClearingFlow(es[0]);
    }
  }

  lemma WholesaleClearingFlow(e: Event)
    ensures Effect(e, 19222) ==
          DispositionMargin(e) - PRICE_INCREASES(e)
          + PRICE_DECREASES(e) - Of(ArbitrationConditionCost, ConditionCostAmount)(e)
  {
    if HasOneRow(e.kind) {
      OneRowEffect(e, 19222);
    } else {
      SeveralRowFlow(e);
    }
  }

  /** Wholesale clearing: disposition margins, minus price increases, plus decreases, minus condition costs. */
  lemma {:induction false} WholesaleClearing(es: seq<Event>)
    ensures RunNet(es, 19222) ==
          Total(DispositionMargin, es) - Total(PRICE_INCREASES, es)
          + Total(PRICE_DECREASES, es) - Total(Of(ArbitrationConditionCost, ConditionCostAmount), es)
  {
    if es != [] {
      WholesaleClearing(es[1..]);
      RunNetStep(es, 19222);
      WholesaleClearingFlow(es[0]);
    }
  }

  lemma AccountRanges(t: EventType)
    requires HasOneRow(t)
    ensures var row := TableRow(t);
            && (IsFloorplan(t) <==> row.debit.account < 19200) && (IsFloorplan(t) <==> row.credit.account < 19200)
            && (IsFni(t) ==> row.debit.account != 19200 && row.credit.account != 19200)
  {
  }

  lemma OneRowClearing(e: Event)
    requires HasOneRow(e.kind)
    ensures Effect(e, 19200) ==
          Of(DealFees, FeesAmount)(e) + Of(DealTax, TaxAmount)(e) + Of(DueBill, Amount)(e)
          - Of(CitReceivable, FinancedAmount)(e) - Of(RebateReceivable, RebateReceivableAmount)(e)
          - Of(PayoffIssuance, PayoffAmount)(e)
  {
    if IsDeal(e.kind) {
      DealRowClearing(e);
    } else {
      OneRowEffect(e, 19200);
      AccountRanges(e.kind);
    }
  }

  lemma DealRowOnClearing(t: EventType, env: Envelope)
    requires HasOneRow(t) && IsDeal(t)
    ensures RowEffect(DealRow(t), env, 19200) ==
          match t
          case DealFees => Cents(FeesAmount, env)
          case DealTax => Cents(TaxAmount, env)
          case DueBill => Cents(Amount, env)
          case CitReceivable => 0 - Cents(FinancedAmount, env)
          case RebateReceivable => 0 - Cents(RebateReceivableAmount, env)
          case PayoffIssuance => 0 - Cents(PayoffAmount, env)
          case _ => 0
  {
  }

  lemma DealRowClearing(e: Event)
    requires HasOneRow(e.kind) && IsDeal(e.kind)
    ensures Effect(e, 19200) ==
          Of(DealFees, FeesAmount)(e) + Of(DealTax, TaxAmount)(e) + Of(DueBill, Amount)(e)
          - Of(CitReceivable, FinancedAmount)(e) - Of(RebateReceivable, RebateReceivableAmount)(e)
          - Of(PayoffIssuance, PayoffAmount)(e)
  {
    OneRowEffect(e, 19200);
    DealRowOnClearing(e.kind, e.payload);
    assert RowEffect(TableRow(e.kind), e.payload, 19200) == RowEffect(DealRow(e.kind), e.payload, 19200);
  }

  lemma DealReceivableClearingAccountFlow(e: Event)
    ensures Effect(e, 19200) ==
          CreditSale(e) + ProductPrice(e)
          + Of(DealFees, FeesAmount)(e) + Of(DealTax, TaxAmount)(e)
          + Of(DueBill, Amount)(e) - Of(CitReceivable, FinancedAmount)(e)
          - Of(RebateReceivable, RebateReceivableAmount)(e) - Of(PayoffIssuance, PayoffAmount)(e)
          + DeltaOf("DECREASE")(e) - DeltaOf("INCREASE")(e)
          + ADDITIONAL_PAYMENTS(e) - REFUNDS_RECEIVABLE(e)
  {
    if HasOneRow(e.kind) {
      OneRowClearing(e);
    } else {
      SeveralRowFlow(e);
    }
  }

  /** Deal-receivable clearing: what the buyer owes, less what others will pay for the buyer. */
  lemma {:induction false} DealReceivableClearingAccount(es: seq<Event>)
    ensures RunNet(es, 19200) ==
          Total(CreditSale, es) + Total(ProductPrice, es)
          + Total(Of(DealFees, FeesAmount), es) + Total(Of(DealTax, TaxAmount), es)
          + Total(Of(DueBill, Amount), es) - Total(Of(CitReceivable, FinancedAmount), es)
          - Total(Of(RebateReceivable, RebateReceivableAmount), es) - Total(Of(PayoffIssuance, PayoffAmount), es)
          + Total(DeltaOf("DECREASE"), es) - Total(DeltaOf("INCREASE"), es)
          + Total(ADDITIONAL_PAYMENTS, es) - Total(REFUNDS_RECEIVABLE, es)
  {
    if es != [] {
      DealReceivableClearingAccount(es[1..]);
      RunNetStep(es, 19200);
      DealReceivableClearingAccountFlow(es[0]);
    }
  }

  lemma RecontractSuspenseFlow(e: Event)
    ensures Effect(e, 19225) ==
          DeltaOf("INCREASE")(e) - DeltaOf("DECREASE")(e)
  {
    if HasOneRow(e.kind) {
      OneRowEffect(e, 19225);
    } else {
      SeveralRowFlow(e);
    }
  }

  /** Recontract suspense: increases minus decreases; the fallback rule contributes nothing. */
  lemma {:induction false} RecontractSuspense(es: seq<Event>)
    ensures RunNet(es, 19225) ==
          Total(DeltaOf("INCREASE"), es) - Total(DeltaOf("DECREASE"), es)
  {
    if es != [] {
      RecontractSuspense(es[1..]);
      RunNetStep(es, 19225);
      RecontractSuspenseFlow(es[0]);
    }
  }

  lemma RowOnReserveReceivable(t: EventType, env: Envelope)
    requires HasOneRow(t)
    ensures RowEffect(TableRow(t), env, 19213) ==
          match t
          case ReserveReceivable => Cents(ReserveIncomeAmount, env)
          case RemittanceRelief => 0 - Cents(ReliefAmount, env)
          case ShortpayWriteoff => 0 - Cents(ShortPayAmount, env)
          case _ => 0
  {
  }

  lemma ReserveReceivableAccountFlow(e: Event)
    ensures Effect(e, 19213) ==
          Of(ReserveReceivable, ReserveIncomeAmount)(e) - Of(RemittanceRelief, ReliefAmount)(e)
          - Of(ShortpayWriteoff, ShortPayAmount)(e)
  {
    EffectOfOneRowAccount(e, 19213);
    if HasOneRow(e.kind) { RowOnReserveReceivable(e.kind, e.payload); }
  }

  /** Reserve receivable: reserve income of the deals minus remittances and short-pay write-offs. */
  lemma {:induction false} ReserveReceivableAccount(es: seq<Event>)
    ensures RunNet(es, 19213) ==
          Total(Of(ReserveReceivable, ReserveIncomeAmount), es) - Total(Of(RemittanceRelief, ReliefAmount), es)
          - Total(Of(ShortpayWriteoff, ShortPayAmount), es)
  {
    if es != [] {
      ReserveReceivableAccount(es[1..]);
      RunNetStep(es, 19213);
      ReserveReceivableAccountFlow(es[0]);
    }
  }

  lemma RowOnRemit(t: EventType, env: Envelope)
    requires HasOneRow(t)
    ensures RowEffect(TableRow(t), env, 19219) ==
          match t
          case ProductRemitRelief => Cents(Amount, env)
          case CancellationRemitAdjustment => Cents(RemitAdjustmentAmount, env)
          case _ => 0
  {
  }

  lemma ProductRemitAccountFlow(e: Event)
    ensures Effect(e, 19219) ==
          Of(ProductRemitRelief, Amount)(e) + Of(CancellationRemitAdjustment, RemitAdjustmentAmount)(e)
          - ProductCost(e)
  {
    if HasOneRow(e.kind) {
      OneRowEffect(e, 19219);
      RowOnRemit(e.kind, e.payload);
    } else {
      SeveralRowFlow(e);
    }
  }

  /** Product remit liability: remittances and cancellation adjustments minus provider costs. */
  lemma {:induction false} ProductRemitAccount(es: seq<Event>)
    ensures RunNet(es, 19219) ==
          Total(Of(ProductRemitRelief, Amount), es) + Total(Of(CancellationRemitAdjustment, RemitAdjustmentAmount), es)
          - Total(ProductCost, es)
  {
    if es != [] {
      ProductRemitAccount(es[1..]);
      RunNetStep(es, 19219);
      ProductRemitAccountFlow(es[0]);
    }
  }

  lemma RowOnChargebackReserve(t: EventType, env: Envelope)
    requires HasOneRow(t)
    ensures RowEffect(TableRow(t), env, 19301) ==
          match t
          case ChargebackDrawFromReserve => Cents(DrawFromReserveAmount, env)
          case ChargebackAccrual => 0 - Cents(AccrualAmount, env)
          case _ => 0
  {
  }

  lemma ChargebackReserveAccountFlow(e: Event)
    ensures Effect(e, 19301) ==
          Of(ChargebackDrawFromReserve, DrawFromReserveAmount)(e) - Of(ChargebackAccrual, AccrualAmount)(e)
  {
    EffectOfOneRowAccount(e, 19301);
    if HasOneRow(e.kind) { RowOnChargebackReserve(e.kind, e.payload); }
  }

  /** Chargeback reserve: a credit balance of accruals minus draws. */
  lemma {:induction false} ChargebackReserveAccount(es: seq<Event>)
    ensures RunNet(es, 19301) ==
          Total(Of(ChargebackDrawFromReserve, DrawFromReserveAmount), es)
            - Total(Of(ChargebackAccrual, AccrualAmount), es)
  {
    if es != [] {
      ChargebackReserveAccount(es[1..]);
      RunNetStep(es, 19301);
      ChargebackReserveAccountFlow(es[0]);
    }
  }

  lemma RowOnDeferredIncome(t: EventType, env: Envelope)
    requires HasOneRow(t)
    ensures RowEffect(TableRow(t), env, 19308) ==
          match t
          case DeferralRecognition => Cents(EarnedAmount, env)
          case DeferralOrigination => 0 - Cents(OriginalAmount, env)
          case _ => 0
  {
  }

  lemma DeferredIncomeAccountFlow(e: Event)
    ensures Effect(e, 19308) ==
          Of(DeferralRecognition, EarnedAmount)(e) - Of(DeferralOrigination, OriginalAmount)(e)
  {
    EffectOfOneRowAccount(e, 19308);
    if HasOneRow(e.kind) { RowOnDeferredIncome(e.kind, e.payload); }
  }

  /** Deferred income: recognised minus originated amounts. */
  lemma {:induction false} DeferredIncomeAccount(es: seq<Event>)
    ensures RunNet(es, 19308) ==
          Total(Of(DeferralRecognition, EarnedAmount), es) - Total(Of(DeferralOrigination, OriginalAmount), es)
  {
    if es != [] {
      DeferredIncomeAccount(es[1..]);
      RunNetStep(es, 19308);
      DeferredIncomeAccountFlow(es[0]);
    }
  }

  lemma RowOnNotes(t: EventType, env: Envelope)
    requires HasOneRow(t)
    ensures RowEffect(TableRow(t), env, 19102) ==
          match t
          case FloorplanPayoff => Cents(Amount, env)
          case FloorplanCurtailment => Cents(Amount, env)
          case FloorplanAdvance => 0 - Cents(Amount, env)
          case FloorplanWriteoff => 0 - Cents(Amount, env)
          case _ => 0
  {
    AccountRanges(t);
  }

  lemma NotesFlow(e: Event, effect: int)
    requires effect == if HasOneRow(e.kind) && Sendable(e) then RowEffect(TableRow(e.kind), e.payload, 19102) else 0
    ensures effect ==
          Of(FloorplanPayoff, Amount)(e) + Of(FloorplanCurtailment, Amount)(e)
          - Of(FloorplanAdvance, Amount)(e) - Of(FloorplanWriteoff, Amount)(e)
  {
    if HasOneRow(e.kind) {
      RowOnNotes(e.kind, e.payload);
    }
  }

  lemma FloorplanNotesAccountFlow(e: Event)
    ensures Effect(e, 19102) ==
          Of(FloorplanPayoff, Amount)(e) + Of(FloorplanCurtailment, Amount)(e)
          - Of(FloorplanAdvance, Amount)(e) - Of(FloorplanWriteoff, Amount)(e)
  {
    EffectOfOneRowAccount(e, 19102);
    NotesFlow(e, Effect(e, 19102));
  }

  /** Floorplan notes payable: payoffs and curtailments minus advances and write-offs. */
  lemma {:induction false} FloorplanNotesAccount(es: seq<Event>)
    ensures RunNet(es, 19102) ==
          Total(Of(FloorplanPayoff, Amount), es) + Total(Of(FloorplanCurtailment, Amount), es)
          - Total(Of(FloorplanAdvance, Amount), es) - Total(Of(FloorplanWriteoff, Amount), es)
  {
    if es != [] {
      FloorplanNotesAccount(es[1..]);
      RunNetStep(es, 19102);
      FloorplanNotesAccountFlow(es[0]);
    }
  }

  /** The recontract deltas of a run. */
  function Deltas(es: seq<Event>): seq<Event> {
    if es == [] then [] else (if es[0].kind.RecontractDelta? then [es[0]] else []) + Deltas(es[1..])
  }

  lemma {:induction false} DeltaStep(es: seq<Event>)
    requires es != []
    ensures es[0].kind.RecontractDelta? ==> Deltas(es) == [es[0]] + Deltas(es[1..])
    ensures es[0].kind.RecontractDelta?
      ==> RunNet(Deltas(es), 19200) == RunNet(Deltas(es[1..]), 19200) - Effect(es[0], 19225)
    ensures !es[0].kind.RecontractDelta? ==> Deltas(es) == Deltas(es[1..]) && Effect(es[0], 19225) == 0
  {
    if es[0].kind.RecontractDelta? {
      assert Deltas(es)[1..] == Deltas(es[1..]);
      RunNetStep(Deltas(es), 19200);
      DeltaFlow(es[0]);
    } else {
      RecontractSuspenseFlow(es[0]);
    }
  }

  /** The deltas move deal-receivable clearing by exactly the opposite of the suspense balance. */
  lemma {:induction false} RecontractIsOppositeOnClearing(es: seq<Event>)
    ensures RunNet(Deltas(es), 19200) == -RunNet(es, 19225)
  {
    if es != [] {
      RecontractIsOppositeOnClearing(es[1..]);
      RunNetStep(es, 19225);
      DeltaStep(es);
    }
  }
}
