/** The Posting DSL evaluator of coa-service: condition evaluation, FIRST_MATCH
    rule selection, basis-point allocation and blueprint generation. */
module PostingDsl {
  import opened Sums

  /** The envelope paths that the CE-12 rule packs and the engine read: all "payload.<field>" but EventId and
      SourceEntityId, which are envelope fields of their own. */
  datatype Field =
    | DealType | DealNumber | SaleAmount | WholesaleAmount | UnitCostAmount | StockNumber
    | LeaseCapitalizedCostAmount | LeaseResidualAmount | TradeAllowanceAmount | TradeAcvAmount | TradeVin
    | TradePayoffAmount | FinancedAmount | ReserveIncomeAmount | FeesAmount | TaxAmount
    | RebateReceivableAmount | CustomerPriceAmount | ProviderCostAmount | ProductControlRef
    | Amount | Role | DeltaDirection | DeltaAmount | FeeAmount | PayoffAmount
    | Disposition | VarianceAmount | UnitReliefAmount | AuctionFeesAmount | UnitRef
    | AdjustmentDirection | AdjustmentAmount | ConditionCostAmount
    | ReliefAmount | AccrualAmount | ShortPayAmount | DrawFromReserveAmount | ExcessToExpenseAmount
    | ApplyControlNumber | IncomeReversalAmount | RemitAdjustmentAmount | RefundPayableAmount
    | ControlNumber | OriginalAmount | EarnedAmount | ScheduleControlNumber
    | InterestTotalAmount
    // read by memo templates
    | LenderProgramCode | ProductCode | ProviderCode | TaxResultId | ItemDescription
    | LenderCode | ApplyNumber | StatementId
    // read by the engine itself
    | SourceDocId | InvoiceNumber | EventId | SourceEntityId

  /** A payload value. Money stands for a JSON number or a decimal string: the
      cents that rounding it to the cent gives, and its text when used as a key.
      Text is a string that is not a number. */
  datatype Value = Null | Text(text: string) | Money(cents: int, text: string)

  /** An absent key is JavaScript's undefined. */
  type Envelope = map<Field, Value>

  datatype Condition =
    | And(clauses: seq<Condition>)
    | Or(clauses: seq<Condition>)
    | Not(clause: Condition)
    | Equals(path: Field, value: Value)
    | NotEquals(path: Field, value: Value)
    | In(path: Field, values: seq<Value>)
    | NotIn(path: Field, values: seq<Value>)
    | Exists(path: Field)
    | IsNull(path: Field)
    | IsNotNull(path: Field)

  /** Pending is the literal ACCOUNT_MAPPING_VALUES_PENDING. */
  datatype Account = Pending | Gl(number: nat)

  datatype Allocation = Allocation(
    account: Account, storeId: string, dept: Option<string>, bp: int,
    control: Option<Field>, apply: Option<Field>)

  datatype Group = Group(base: Field, debits: seq<Allocation>, credits: seq<Allocation>)

  /** The text that describes a rule's lines. Only its length matters: the number of its own characters, and the
      fields whose values are put into it. */
  datatype Memo = Memo(own: nat, holes: seq<Field>)

  datatype Rule = Rule(ruleId: string, priority: int, condition: Option<Condition>, memo: Memo, groups: seq<Group>)

  /** One blueprint line, in cents. */
  datatype Line = Line(
    account: Account, storeId: string, dept: Option<string>, dr: int, cr: int,
    control: Option<string>, apply: Option<string>)

  datatype ResolutionError = RequiredValueMissing | InvalidAmount | NonPositiveAmount

  datatype Blueprint = Lines(lines: seq<Line>) | Failed(error: ResolutionError)

  // ----- conditions and FIRST_MATCH -----

  predicate Holds(c: Condition, env: Envelope) {
    match c
    case And(cs) => forall i | 0 <= i < |cs| :: Holds(cs[i], env)
    case Or(cs) => exists i | 0 <= i < |cs| :: Holds(cs[i], env)
    case Not(d) => !Holds(d, env)
    case Equals(p, v) => p in env && env[p] == v
    case NotEquals(p, v) => !(p in env && env[p] == v)
    case In(p, vs) => p in env && env[p] in vs
    case NotIn(p, vs) => !(p in env && env[p] in vs)
    case Exists(p) => p in env
    case IsNull(p) => p in env && env[p] == Null
    case IsNotNull(p) => p in env && env[p] != Null
  }

  predicate Applies(r: Rule, env: Envelope) {
    r.condition.Some? ==> Holds(r.condition.value, env)
  }

  /** A stable ascending sort on priority puts r before the first rule that is not smaller. */
  function InsertByPriority(r: Rule, rs: seq<Rule>): seq<Rule> {
    if rs == [] || rs[0].priority >= r.priority then [r] + rs
    else [rs[0]] + InsertByPriority(r, rs[1..])
  }

  function SortByPriority(rs: seq<Rule>): seq<Rule> {
    if rs == [] then [] else InsertByPriority(rs[0], SortByPriority(rs[1..]))
  }

  function FirstApplicable(rs: seq<Rule>, env: Envelope): Option<Rule> {
    if rs == [] then None
    else if Applies(rs[0], env) then Some(rs[0])
    else FirstApplicable(rs[1..], env)
  }

  function SelectRule(rs: seq<Rule>, env: Envelope): Option<Rule> {
    FirstApplicable(SortByPriority(rs), env)
  }

  ghost predicate Ascending(rs: seq<Rule>) {
    forall i, j | 0 <= i < j < |rs| :: rs[i].priority <= rs[j].priority
  }

  /** r applies and no applicable rule of rs has a smaller priority. */
  ghost predicate Least(r: Rule, rs: seq<Rule>, env: Envelope) {
    Applies(r, env) && forall s | s in rs && Applies(s, env) :: r.priority <= s.priority
  }

  lemma {:induction false} InsertPermutes(r: Rule, rs: seq<Rule>)
    ensures multiset(InsertByPriority(r, rs)) == multiset{r} + multiset(rs)
  {
    if rs != [] && rs[0].priority < r.priority {
      InsertPermutes(r, rs[1..]);
      assert rs == [rs[0]] + rs[1..];
    }
  }

  lemma {:induction false} InsertKeepsOrder(r: Rule, rs: seq<Rule>)
    requires Ascending(rs)
    ensures Ascending(InsertByPriority(r, rs))
  {
    if rs != [] && rs[0].priority < r.priority {
      InsertKeepsOrder(r, rs[1..]);
      InsertPermutes(r, rs[1..]);
      var tail := InsertByPriority(r, rs[1..]);
      forall i | 0 <= i < |tail| ensures rs[0].priority <= tail[i].priority {
        assert tail[i] in multiset{r} + multiset(rs[1..]);
        assert tail[i] == r || tail[i] in rs[1..];
      }
    }
  }

  lemma {:induction false} SortIsOrderedPermutation(rs: seq<Rule>)
    ensures Ascending(SortByPriority(rs))
    ensures multiset(SortByPriority(rs)) == multiset(rs)
  {
    if rs != [] {
      SortIsOrderedPermutation(rs[1..]);
      InsertKeepsOrder(rs[0], SortByPriority(rs[1..]));
      InsertPermutes(rs[0], SortByPriority(rs[1..]));
      assert rs == [rs[0]] + rs[1..];
    }
  }

  lemma {:induction false} FirstApplicableInOrder(rs: seq<Rule>, env: Envelope)
    requires Ascending(rs)
    ensures match FirstApplicable(rs, env)
            case None => forall s | s in rs :: !Applies(s, env)
            case Some(r) => r in rs && Least(r, rs, env)
  {
    if rs != [] && !Applies(rs[0], env) {
      FirstApplicableInOrder(rs[1..], env);
      assert rs == [rs[0]] + rs[1..];
    }
  }

  /** FIRST_MATCH: no rule is selected exactly when none applies, and the selected
      one is an applicable rule of least priority. */
  lemma SelectedRuleIsLeast(rs: seq<Rule>, env: Envelope)
    ensures match SelectRule(rs, env)
            case None => forall s | s in rs :: !Applies(s, env)
            case Some(r) => r in rs && Least(r, rs, env)
  {
    SortIsOrderedPermutation(rs);
    var sorted := SortByPriority(rs);
    FirstApplicableInOrder(sorted, env);
    forall s | s in rs ensures s in sorted { assert s in multiset(rs); }
    forall s | s in sorted ensures s in rs { assert s in multiset(sorted); }
  }

  /** Ties aside, a rule listed first wins: the sort is stable. */
  lemma {:induction false} LeastInFrontIsSelected(r: Rule, rs: seq<Rule>, env: Envelope)
    requires Least(r, rs, env)
    ensures SelectRule([r] + rs, env) == Some(r)
  {
    SortIsOrderedPermutation(rs);
    var sorted := SortByPriority(rs);
    forall s | s in sorted && Applies(s, env) ensures r.priority <= s.priority {
      assert s in multiset(sorted);
    }
    assert ([r] + rs)[1..] == rs;
    InsertedLeastIsFirst(r, sorted, env);
  }

  lemma {:induction false} InsertedLeastIsFirst(r: Rule, rs: seq<Rule>, env: Envelope)
    requires Least(r, rs, env)
    ensures FirstApplicable(InsertByPriority(r, rs), env) == Some(r)
  {
    if rs != [] && rs[0].priority < r.priority {
      InsertedLeastIsFirst(r, rs[1..], env);
    }
  }

  /** At most one distinct rule is applicable with the least priority. */
  ghost predicate UniqueLeast(rs: seq<Rule>, env: Envelope) {
    forall r, s | r in rs && s in rs && Least(r, rs, env) && Least(s, rs, env) :: r == s
  }

  ghost predicate IsPermutation(rs: seq<Rule>, ss: seq<Rule>) {
    multiset(rs) == multiset(ss)
  }

  /** Selection does not depend on the order in which the rules are listed exactly
      when no two different applicable rules share the least priority. */
  lemma SelectionIgnoresOrderExactlyWhenLeastIsUnique(rs: seq<Rule>, env: Envelope)
    ensures (forall ss | IsPermutation(rs, ss) :: SelectRule(ss, env) == SelectRule(rs, env))
        <==> UniqueLeast(rs, env)
  {
    if UniqueLeast(rs, env) {
      forall ss | IsPermutation(rs, ss) ensures SelectRule(ss, env) == SelectRule(rs, env) {
        SelectedRuleIsLeast(rs, env);
        SelectedRuleIsLeast(ss, env);
        forall s | s in rs ensures s in ss { assert s in multiset(rs); }
        forall s | s in ss ensures s in rs { assert s in multiset(ss); }
      }
    } else {
      var r, s :| r in rs && s in rs && Least(r, rs, env) && Least(s, rs, env) && r != s;
      var withR, withS := MoveToFront(r, rs), MoveToFront(s, rs);
      MovedToFrontIsSelected(r, rs, env);
      MovedToFrontIsSelected(s, rs, env);
      assert SelectRule(withR, env) != SelectRule(withS, env);
    }
  }

  function MoveToFront(r: Rule, rs: seq<Rule>): seq<Rule> {
    if rs == [] then [] else if rs[0] == r then rs
    else var rest := MoveToFront(r, rs[1..]);
      if rest == [] then rs else [rest[0], rs[0]] + rest[1..]
  }

  lemma {:induction false} MoveToFrontPermutes(r: Rule, rs: seq<Rule>)
    ensures multiset(MoveToFront(r, rs)) == multiset(rs)
    ensures r in rs ==> MoveToFront(r, rs) != [] && MoveToFront(r, rs)[0] == r
  {
    if rs != [] && rs[0] != r {
      MoveToFrontPermutes(r, rs[1..]);
      var rest := MoveToFront(r, rs[1..]);
      assert rs == [rs[0]] + rs[1..];
      if rest != [] {
        assert rest == [rest[0]] + rest[1..];
        assert multiset(MoveToFront(r, rs)) == multiset{rest[0], rs[0]} + multiset(rest[1..]);
      }
    }
  }

  lemma {:induction false} MovedToFrontIsSelected(r: Rule, rs: seq<Rule>, env: Envelope)
    requires r in rs && Least(r, rs, env)
    ensures IsPermutation(rs, MoveToFront(r, rs))
    ensures SelectRule(MoveToFront(r, rs), env) == Some(r)
  {
    MoveToFrontPermutes(r, rs);
    var moved := MoveToFront(r, rs);
    assert moved == [r] + moved[1..];
    forall s | s in moved[1..] ensures s in rs { assert s in moved; assert s in multiset(moved); }
    LeastInFrontIsSelected(r, moved[1..], env);
  }

  // ----- allocation by basis points -----

  const BP_TOTAL := 10_000

  /** Math.round(num / den): halves go up. */
  function RoundedQuotient(num: int, den: int): int
    requires den > 0
  {
    (2 * num + den) / (2 * den)
  }

  function Scaled(total: int, bp: int): int {
    RoundedQuotient(total * bp, BP_TOTAL)
  }

  /** Every share but the last is rounded on its own; the last one is what is left. */
  function SharesOf(total: int, left: int, bps: seq<int>): seq<int>
    decreases |bps|
  {
    if |bps| <= 1 then [left]
    else [Scaled(total, bps[0])] + SharesOf(total, left - Scaled(total, bps[0]), bps[1..])
  }

  function Shares(total: int, bps: seq<int>): seq<int> {
    SharesOf(total, total, bps)
  }

  /** Conservation: the shares add up to the total, whatever the basis points are. */
  lemma {:induction false} SharesSumToTotal(total: int, left: int, bps: seq<int>)
    ensures Sum(SharesOf(total, left, bps)) == left
    ensures |SharesOf(total, left, bps)| == Max(1, |bps|)
    ensures forall i | 0 <= i < |bps| - 1 :: SharesOf(total, left, bps)[i] == Scaled(total, bps[i])
    decreases |bps|
  {
    if |bps| > 1 {
      SharesSumToTotal(total, left - Scaled(total, bps[0]), bps[1..]);
    }
  }

  method AllocateCents(total: int, bps: seq<int>) returns (out: seq<int>)
    ensures out == Shares(total, bps)
    ensures Sum(out) == total
  {
    out := [];
    var running := 0;
    var i := 0;
    while i < |bps| - 1
      invariant 0 <= i <= Max(0, |bps| - 1)
      invariant running == Sum(out)
      invariant out + SharesOf(total, total - running, bps[i..]) == Shares(total, bps)
    {
      var c := Scaled(total, bps[i]);
      SumSnoc(out, c);
      assert out + SharesOf(total, total - running, bps[i..])
          == (out + [c]) + SharesOf(total, total - running - c, bps[i + 1..]);
      out := out + [c];
      running := running + c;
      i := i + 1;
    }
    SumSnoc(out, total - running);
    out := out + [total - running];
  }

  /** A rounded share is within half a cent of its exact value. */
  lemma ScaledIsNearest(total: int, bp: int)
    ensures -BP_TOTAL < 2 * (BP_TOTAL * Scaled(total, bp) - total * bp) <= BP_TOTAL
  {
    var num := total * bp;
    assert Scaled(total, bp) == (2 * num + BP_TOTAL) / (2 * BP_TOTAL);
  }

  /** Fairness: with n shares, each rounded share is within half a cent of exact and
      the last within (n-1) half cents of what exact division of the rest would leave. */
  lemma {:induction false} LastShareIsNearExact(total: int, left: int, bps: seq<int>)
    requires |bps| > 0
    ensures |SharesOf(total, left, bps)| == |bps|
    ensures var s := SharesOf(total, left, bps);
            2 * Abs(BP_TOTAL * s[|bps| - 1] - (BP_TOTAL * left - total * Sum(bps[..|bps| - 1])))
              <= BP_TOTAL * (|bps| - 1)
    decreases |bps|
  {
    if |bps| > 1 {
      var c := Scaled(total, bps[0]);
      ScaledIsNearest(total, bps[0]);
      LastShareIsNearExact(total, left - c, bps[1..]);
      assert bps[..|bps| - 1][1..] == bps[1..][..|bps| - 2];
      assert total * (bps[0] + Sum(bps[1..][..|bps| - 2])) == total * bps[0] + total * Sum(bps[1..][..|bps| - 2]);
    }
  }

  // ----- blueprint generation -----

  function BaseCents(path: Field, env: Envelope): (r: Option<int>) {
    if path in env && env[path].Money? && env[path].cents > 0 then Some(env[path].cents) else None
  }

  function BaseError(path: Field, env: Envelope): ResolutionError {
    if path !in env || env[path].Null? || env[path] == Text("") then RequiredValueMissing
    else if env[path].Text? then InvalidAmount
    else NonPositiveAmount
  }

  function Key(path: Option<Field>, env: Envelope): Option<string> {
    if path.None? || path.value !in env then None
    else match env[path.value]
      case Null => None
      case Text(t) => Some(t)
      case Money(_, t) => Some(t)
  }

  /** The text of a path; nothing for a missing value. */
  function TextAt(path: Field, env: Envelope): string {
    match Key(Some(path), env) case None => "" case Some(text) => text
  }

  function HolesLength(holes: seq<Field>, env: Envelope): nat {
    if holes == [] then 0 else |TextAt(holes[0], env)| + HolesLength(holes[1..], env)
  }

  function MemoLength(m: Memo, env: Envelope): nat {
    m.own + HolesLength(m.holes, env)
  }

  function Bps(allocs: seq<Allocation>): seq<int> {
    seq(|allocs|, i requires 0 <= i < |allocs| => allocs[i].bp)
  }

  function SideLine(a: Allocation, cents: int, debit: bool, env: Envelope): Line {
    Line(a.account, a.storeId, a.dept, if debit then cents else 0, if debit then 0 else cents,
         Key(a.control, env), Key(a.apply, env))
  }

  /** One line per allocation, in definition order, carrying its share. */
  function SideLines(allocs: seq<Allocation>, shares: seq<int>, debit: bool, env: Envelope): seq<Line>
    requires |allocs| <= |shares|
  {
    if allocs == [] then []
    else [SideLine(allocs[0], shares[0], debit, env)] + SideLines(allocs[1..], shares[1..], debit, env)
  }

  function SharesFor(total: int, allocs: seq<Allocation>): (s: seq<int>)
    ensures |allocs| <= |s|
  {
    SharesSumToTotal(total, total, Bps(allocs));
    Shares(total, Bps(allocs))
  }

  function GroupLines(g: Group, cents: int, env: Envelope): seq<Line> {
    SideLines(g.debits, SharesFor(cents, g.debits), true, env)
      + SideLines(g.credits, SharesFor(cents, g.credits), false, env)
  }

  /** The lines of a matched rule; the first group whose base amount does not resolve
      to a positive amount fails the whole blueprint. */
  function Generate(groups: seq<Group>, env: Envelope): Blueprint {
    if groups == [] then Lines([])
    else if BaseCents(groups[0].base, env).None? then Failed(BaseError(groups[0].base, env))
    else match Generate(groups[1..], env)
      case Failed(e) => Failed(e)
      case Lines(ls) => Lines(GroupLines(groups[0], BaseCents(groups[0].base, env).value, env) + ls)
  }

  function TotalDr(ls: seq<Line>): int {
    if ls == [] then 0 else ls[0].dr + TotalDr(ls[1..])
  }

  function TotalCr(ls: seq<Line>): int {
    if ls == [] then 0 else ls[0].cr + TotalCr(ls[1..])
  }

  lemma {:induction false} TotalsAppend(xs: seq<Line>, ys: seq<Line>)
    ensures TotalDr(xs + ys) == TotalDr(xs) + TotalDr(ys)
    ensures TotalCr(xs + ys) == TotalCr(xs) + TotalCr(ys)
  {
    if xs == [] {
      assert xs + ys == ys;
    } else {
      assert (xs + ys)[1..] == xs[1..] + ys;
      TotalsAppend(xs[1..], ys);
    }
  }

  lemma {:induction false} SideTotals(allocs: seq<Allocation>, shares: seq<int>, debit: bool, env: Envelope)
    requires |allocs| == |shares|
    ensures TotalDr(SideLines(allocs, shares, debit, env)) == if debit then Sum(shares) else 0
    ensures TotalCr(SideLines(allocs, shares, debit, env)) == if debit then 0 else Sum(shares)
  {
    if allocs != [] {
      SideTotals(allocs[1..], shares[1..], debit, env);
    }
  }

  /** What the validator asks of every group: both sides have an allocation. */
  predicate TwoSided(g: Group) {
    g.debits != [] && g.credits != []
  }

  function BaseTotal(groups: seq<Group>, env: Envelope): int {
    if groups == [] then 0
    else
      (if groups[0].base in env && env[groups[0].base].Money? then env[groups[0].base].cents else 0)
        + BaseTotal(groups[1..], env)
  }

  lemma GroupIsBalanced(g: Group, cents: int, env: Envelope)
    requires TwoSided(g)
    ensures TotalDr(GroupLines(g, cents, env)) == TotalCr(GroupLines(g, cents, env)) == cents
  {
    SharesSumToTotal(cents, cents, Bps(g.debits));
    SharesSumToTotal(cents, cents, Bps(g.credits));
    SideTotals(g.debits, SharesFor(cents, g.debits), true, env);
    SideTotals(g.credits, SharesFor(cents, g.credits), false, env);
    TotalsAppend(SideLines(g.debits, SharesFor(cents, g.debits), true, env),
                 SideLines(g.credits, SharesFor(cents, g.credits), false, env));
  }

  /** Every generated blueprint balances, and each side totals the base amounts. */
  lemma {:induction false} GeneratedBlueprintBalances(groups: seq<Group>, env: Envelope)
    requires forall g | g in groups :: TwoSided(g)
    requires Generate(groups, env).Lines?
    ensures var ls := Generate(groups, env).lines;
            TotalDr(ls) == TotalCr(ls) == BaseTotal(groups, env)
  {
    if groups != [] {
      var cents := BaseCents(groups[0].base, env).value;
      GeneratedBlueprintBalances(groups[1..], env);
      GroupIsBalanced(groups[0], cents, env);
      TotalsAppend(GroupLines(groups[0], cents, env), Generate(groups[1..], env).lines);
    }
  }

  /** A blueprint is generated exactly when every group has a positive base amount. */
  lemma {:induction false} GeneratedExactlyWhenAllBasesArePositive(groups: seq<Group>, env: Envelope)
    ensures Generate(groups, env).Lines?
       <==> forall g | g in groups :: g.base in env && env[g.base].Money? && env[g.base].cents > 0
  {
    if groups != [] {
      GeneratedExactlyWhenAllBasesArePositive(groups[1..], env);
      assert groups == [groups[0]] + groups[1..];
    }
  }

  /** Why a base amount is refused: there is none, or its text is no number, or it is not positive. */
  predicate IsTheBaseError(e: ResolutionError, base: Field, env: Envelope) {
    match e
    case RequiredValueMissing => base !in env || env[base] == Null || (env[base].Text? && env[base].text == "")
    case InvalidAmount => base in env && env[base].Text? && env[base].text != ""
    case NonPositiveAmount => base in env && env[base].Money? && env[base].cents <= 0
  }

  /** The first group with a bad base amount decides how a blueprint fails. */
  lemma {:induction false} FirstBadBaseDecides(groups: seq<Group>, env: Envelope) returns (i: nat)
    requires Generate(groups, env).Failed?
    ensures i < |groups| && IsTheBaseError(Generate(groups, env).error, groups[i].base, env)
    ensures forall j | 0 <= j < i ::
              groups[j].base in env && env[groups[j].base].Money? && env[groups[j].base].cents > 0
  {
    i := 0;
    if BaseCents(groups[0].base, env).Some? {
      i := FirstBadBaseDecides(groups[1..], env);
      i := i + 1;
    }
  }

  // ----- what the lines say -----

  /** The text is there exactly when the path leads to an entry that is not null, and is that entry's text. */
  predicate IsTextOf(text: Option<string>, path: Option<Field>, env: Envelope) {
    if path.Some? && path.value in env && env[path.value] != Null then text == Some(env[path.value].text)
    else text.None?
  }

  predicate IsLineOf(l: Line, a: Allocation, env: Envelope) {
    && l.account == a.account && l.storeId == a.storeId && l.dept == a.dept
    && IsTextOf(l.control, a.control, env) && IsTextOf(l.apply, a.apply, env)
  }

  /** One line per allocation, debits first, each with its allocation's account, store, department and texts and with an
      amount on its own side only. */
  lemma LinesFollowTheAllocations(g: Group, cents: int, env: Envelope)
    ensures var ls := GroupLines(g, cents, env);
            && |ls| == |g.debits| + |g.credits|
            && (forall k | 0 <= k < |g.debits| :: IsLineOf(ls[k], g.debits[k], env) && ls[k].cr == 0)
            && (forall k | 0 <= k < |g.credits| ::
                  IsLineOf(ls[|g.debits| + k], g.credits[k], env) && ls[|g.debits| + k].dr == 0)
  {
    SidesOfLines(g.debits, SharesFor(cents, g.debits), true, env);
    SidesOfLines(g.credits, SharesFor(cents, g.credits), false, env);
  }

  /** A memo is as long as its own text and the texts of its holes together; a hole without a value adds nothing. */
  lemma {:induction false} MemoIsItsParts(own: nat, holes: seq<Field>, f: Field, env: Envelope)
    ensures MemoLength(Memo(own, []), env) == own
    ensures MemoLength(Memo(own, holes + [f]), env)
         == MemoLength(Memo(own, holes), env) + if f in env && env[f] != Null then |env[f].text| else 0
  {
    if holes == [] {
      assert holes + [f] == [f] && [f][1..] == [];
    } else {
      assert (holes + [f])[1..] == holes[1..] + [f];
      MemoIsItsParts(own, holes[1..], f, env);
    }
  }

  // ----- the defensive check before posting -----

  datatype Violation = EmptyBlueprint | LineBothSides | ZeroValueLine | MissingStoreId
                     | NoDebitLine | NoCreditLine | UnbalancedBlueprint

  /** What the check looks at, line by line. */
  predicate LineAccepted(l: Line) {
    !(l.dr > 0 && l.cr > 0) && !(l.dr == 0 && l.cr == 0) && l.storeId != ""
  }

  predicate Accepted(ls: seq<Line>) {
    && ls != []
    && (forall i | 0 <= i < |ls| :: LineAccepted(ls[i]))
    && (exists i | 0 <= i < |ls| :: ls[i].dr > 0)
    && (exists i | 0 <= i < |ls| :: ls[i].cr > 0)
    && TotalDr(ls) == TotalCr(ls)
  }

  predicate LineHas(v: Violation, l: Line) {
    match v
    case LineBothSides => l.dr > 0 && l.cr > 0
    case ZeroValueLine => l.dr == 0 && l.cr == 0
    case MissingStoreId => l.storeId == ""
    case _ => false
  }

  method VerifyLine(l: Line) returns (violations: seq<Violation>)
    ensures forall v :: v in violations <==> LineHas(v, l)
    ensures violations == [] <==> LineAccepted(l)
  {
    violations := [];
    if l.dr > 0 && l.cr > 0 { violations := violations + [LineBothSides]; }
    if l.dr == 0 && l.cr == 0 { violations := violations + [ZeroValueLine]; }
    if l.storeId == "" { violations := violations + [MissingStoreId]; }
    assert !LineAccepted(l) ==> LineHas(LineBothSides, l) || LineHas(ZeroValueLine, l) || LineHas(MissingStoreId, l);
  }

  ghost predicate SomeLineHas(v: Violation, ls: seq<Line>) {
    exists k | 0 <= k < |ls| :: LineHas(v, ls[k])
  }

  lemma SomeLineSnoc(v: Violation, ls: seq<Line>, l: Line)
    ensures SomeLineHas(v, ls + [l]) <==> SomeLineHas(v, ls) || LineHas(v, l)
  {
    if LineHas(v, l) { assert (ls + [l])[|ls|] == l; }
    if SomeLineHas(v, ls) {
      var k :| 0 <= k < |ls| && LineHas(v, ls[k]);
      assert (ls + [l])[k] == ls[k];
    }
  }

  /** The loop over the lines. */
  method VerifyLines(ls: seq<Line>)
    returns (violations: seq<Violation>, totalDr: int, totalCr: int, debit: bool, credit: bool)
    ensures forall v :: v in violations <==> SomeLineHas(v, ls)
    ensures violations == [] <==> forall k | 0 <= k < |ls| :: LineAccepted(ls[k])
    ensures totalDr == TotalDr(ls) && totalCr == TotalCr(ls)
    ensures debit <==> exists k | 0 <= k < |ls| :: ls[k].dr > 0
    ensures credit <==> exists k | 0 <= k < |ls| :: ls[k].cr > 0
  {
    violations, totalDr, totalCr, debit, credit := [], 0, 0, false, false;
    for i := 0 to |ls|
      invariant totalDr == TotalDr(ls[..i]) && totalCr == TotalCr(ls[..i])
      invariant debit <==> exists k | 0 <= k < i :: ls[k].dr > 0
      invariant credit <==> exists k | 0 <= k < i :: ls[k].cr > 0
      invariant violations == [] <==> forall k | 0 <= k < i :: LineAccepted(ls[k])
      invariant forall v :: v in violations <==> SomeLineHas(v, ls[..i])
    {
      var line := ls[i];
      var more := VerifyLine(line);
      forall v ensures v in violations + more <==> SomeLineHas(v, ls[..i] + [line]) { SomeLineSnoc(v, ls[..i], line); }
      violations := violations + more;
      if line.dr > 0 { debit := true; }
      if line.cr > 0 { credit := true; }
      assert ls[..i + 1] == ls[..i] + [line];
      TotalsAppend(ls[..i], [line]);
      totalDr := totalDr + line.dr;
      totalCr := totalCr + line.cr;
    }
    assert ls[..|ls|] == ls;
  }

  /** The check as a whole: each violation exactly when it is there, and none exactly on an accepted blueprint. */
  method VerifyBlueprint(ls: seq<Line>) returns (violations: seq<Violation>)
    ensures violations == [] <==> Accepted(ls)
    ensures EmptyBlueprint in violations <==> ls == []
    ensures forall v | v in {LineBothSides, ZeroValueLine, MissingStoreId} :: v in violations <==> SomeLineHas(v, ls)
    ensures NoDebitLine in violations <==> ls != [] && forall k | 0 <= k < |ls| :: ls[k].dr <= 0
    ensures NoCreditLine in violations <==> ls != [] && forall k | 0 <= k < |ls| :: ls[k].cr <= 0
    ensures UnbalancedBlueprint in violations <==> ls != [] && TotalDr(ls) != TotalCr(ls)
  {
    violations := [];
    if ls == [] {
      return [EmptyBlueprint];
    }
    var totalDr, totalCr, hasDebit, hasCredit;
    violations, totalDr, totalCr, hasDebit, hasCredit := VerifyLines(ls);
    if !hasDebit { violations := violations + [NoDebitLine]; }
    if !hasCredit { violations := violations + [NoCreditLine]; }
    if totalDr != totalCr { violations := violations + [UnbalancedBlueprint]; }
  }

  lemma {:induction false} SidesOfLines(allocs: seq<Allocation>, shares: seq<int>, debit: bool, env: Envelope)
    requires |allocs| <= |shares|
    ensures |SideLines(allocs, shares, debit, env)| == |allocs|
    ensures forall i | 0 <= i < |allocs| ::
              SideLines(allocs, shares, debit, env)[i] == SideLine(allocs[i], shares[i], debit, env)
  {
    if allocs != [] { SidesOfLines(allocs[1..], shares[1..], debit, env); }
  }

  lemma {:induction false} GeneratedLinesAreOneSided(groups: seq<Group>, env: Envelope)
    requires Generate(groups, env).Lines?
    ensures forall l | l in Generate(groups, env).lines :: l.dr == 0 || l.cr == 0
  {
    if groups != [] {
      GeneratedLinesAreOneSided(groups[1..], env);
      var g, cents := groups[0], BaseCents(groups[0].base, env).value;
      SidesOfLines(g.debits, SharesFor(cents, g.debits), true, env);
      SidesOfLines(g.credits, SharesFor(cents, g.credits), false, env);
      forall l | l in Generate(groups, env).lines ensures l.dr == 0 || l.cr == 0 {
        assert l in GroupLines(g, cents, env) || l in Generate(groups[1..], env).lines;
      }
    }
  }

  /** A total above zero needs a line above zero. */
  lemma {:induction false} PositiveTotalHasPositiveLine(ls: seq<Line>)
    ensures TotalDr(ls) > 0 ==> exists i | 0 <= i < |ls| :: ls[i].dr > 0
    ensures TotalCr(ls) > 0 ==> exists i | 0 <= i < |ls| :: ls[i].cr > 0
  {
    if ls != [] {
      PositiveTotalHasPositiveLine(ls[1..]);
      if TotalDr(ls) > 0 && ls[0].dr <= 0 {
        var j :| 0 <= j < |ls[1..]| && ls[1..][j].dr > 0;
        assert ls[j + 1].dr > 0;
      }
      if TotalCr(ls) > 0 && ls[0].cr <= 0 {
        var j :| 0 <= j < |ls[1..]| && ls[1..][j].cr > 0;
        assert ls[j + 1].cr > 0;
      }
    }
  }

  lemma {:induction false} BaseTotalIsPositive(groups: seq<Group>, env: Envelope)
    requires groups != [] && Generate(groups, env).Lines?
    ensures BaseTotal(groups, env) > 0
  {
    if |groups| > 1 {
      BaseTotalIsPositive(groups[1..], env);
    }
  }

  /** For a validated rule the defensive check fails only on a line of zero cents: it never
      reports an unbalanced blueprint. */
  lemma {:induction false} DefensiveCheckFailsExactlyOnZeroLines(groups: seq<Group>, env: Envelope)
    requires groups != [] && forall g | g in groups :: TwoSided(g)
    requires Generate(groups, env).Lines?
    requires forall l | l in Generate(groups, env).lines :: l.storeId != ""
    ensures Accepted(Generate(groups, env).lines)
        <==> forall l | l in Generate(groups, env).lines :: l.dr != 0 || l.cr != 0
  {
    var ls := Generate(groups, env).lines;
    GeneratedBlueprintBalances(groups, env);
    GeneratedLinesAreOneSided(groups, env);
    BaseTotalIsPositive(groups, env);
    PositiveTotalHasPositiveLine(ls);
    if forall l | l in ls :: l.dr != 0 || l.cr != 0 {
      forall i | 0 <= i < |ls| ensures LineAccepted(ls[i]) {
        assert ls[i] in ls;
      }
    }
    if Accepted(ls) {
      forall l | l in ls ensures l.dr != 0 || l.cr != 0 {
        var i :| 0 <= i < |ls| && ls[i] == l;
        assert LineAccepted(ls[i]);
      }
    }
  }

  // ----- which totals and weights make a share negative -----

  /** What rounding adds to a share, in ten-thousandths of a cent. */
  function RoundingGain(total: int, bp: int): int {
    var rest := total * bp % BP_TOTAL;
    if 2 * rest >= BP_TOTAL then BP_TOTAL - rest else -rest
  }

  function RoundingGains(total: int, bps: seq<int>): int {
    if bps == [] then 0 else RoundingGain(total, bps[0]) + RoundingGains(total, bps[1..])
  }

  lemma GainIsWhatRoundingAdds(total: int, bp: int)
    ensures BP_TOTAL * Scaled(total, bp) == total * bp + RoundingGain(total, bp)
    ensures 2 * RoundingGain(total, bp) <= BP_TOTAL
  {
    var num := total * bp;
    assert num == BP_TOTAL * (num / BP_TOTAL) + num % BP_TOTAL;
    assert Scaled(total, bp) == (2 * num + BP_TOTAL) / (2 * BP_TOTAL);
  }

  /** The last share is its exact value less what rounding added to the others. */
  lemma {:induction false} LastShareExactly(total: int, left: int, bps: seq<int>)
    requires bps != []
    ensures |SharesOf(total, left, bps)| == |bps|
    ensures BP_TOTAL * SharesOf(total, left, bps)[|bps| - 1]
         == BP_TOTAL * left - total * Sum(bps[..|bps| - 1]) - RoundingGains(total, bps[..|bps| - 1])
    decreases |bps|
  {
    if |bps| > 1 {
      var others, rest := bps[..|bps| - 1], bps[1..];
      var scaled := Scaled(total, bps[0]);
      GainIsWhatRoundingAdds(total, bps[0]);
      LastShareExactly(total, left - scaled, rest);
      var last := SharesOf(total, left - scaled, rest)[|rest| - 1];
      assert others[1..] == rest[..|rest| - 1];
      assert SharesOf(total, left, bps)[|bps| - 1] == last;
      TimesSum(total, others);
      TimesDifference(left, scaled);
    }
  }

  lemma {:induction false} TimesSum(total: int, bps: seq<int>)
    requires bps != []
    ensures total * Sum(bps) == total * bps[0] + total * Sum(bps[1..])
  {
  }

  lemma TimesDifference(left: int, scaled: int)
    ensures BP_TOTAL * (left - scaled) == BP_TOTAL * left - BP_TOTAL * scaled
  {
  }

  /** The rounding of the other shares takes more than the last one has. */
  predicate Overshoots(total: int, bps: seq<int>)
    requires bps != []
  {
    RoundingGains(total, bps[..|bps| - 1]) > total * bps[|bps| - 1]
  }

  /** What the validator asks of one side: positive weights that add up to the whole. */
  predicate ValidWeights(bps: seq<int>) {
    bps != [] && (forall i | 0 <= i < |bps| :: bps[i] > 0) && Sum(bps) == BP_TOTAL
  }

  lemma {:induction false} LastShareOfValidWeights(total: int, bps: seq<int>)
    requires ValidWeights(bps)
    ensures |Shares(total, bps)| == |bps|
    ensures BP_TOTAL * Shares(total, bps)[|bps| - 1]
         == total * bps[|bps| - 1] - RoundingGains(total, bps[..|bps| - 1])
  {
    var others, last := bps[..|bps| - 1], bps[|bps| - 1];
    LastShareExactly(total, total, bps);
    SumSnoc(others, last);
    assert others + [last] == bps;
    assert total * (Sum(others) + last) == total * Sum(others) + total * last;
  }

  /** For validated weights and a positive total, only the last share can be negative, and it is exactly
      when the other shares overshoot. */
  lemma ShareIsNegativeExactlyWhenTheOthersOvershoot(total: int, bps: seq<int>)
    requires ValidWeights(bps) && total > 0
    ensures (exists i | 0 <= i < |Shares(total, bps)| :: Shares(total, bps)[i] < 0) <==> Overshoots(total, bps)
  {
    var shares := Shares(total, bps);
    SharesSumToTotal(total, total, bps);
    LastShareOfValidWeights(total, bps);
    forall i | 0 <= i < |bps| - 1 ensures shares[i] >= 0 {
      assert total * bps[i] >= 0;
    }
    if Overshoots(total, bps) {
      assert shares[|bps| - 1] < 0;
    }
  }

  lemma {:induction false} GainsAreBounded(total: int, bps: seq<int>)
    ensures 2 * RoundingGains(total, bps) <= BP_TOTAL * |bps|
  {
    if bps != [] {
      GainIsWhatRoundingAdds(total, bps[0]);
      GainsAreBounded(total, bps[1..]);
    }
  }

  /** With n allocations they overshoot only if the last one is worth at most n-3 half cents: never with three
      allocations or fewer, and never from a total that makes the last allocation large enough. */
  lemma OvershootNeedsManyAllocationsAndASmallOne(total: int, bps: seq<int>)
    requires ValidWeights(bps) && total > 0 && Overshoots(total, bps)
    ensures 2 * total * bps[|bps| - 1] <= BP_TOTAL * (|bps| - 3)
    ensures |bps| > 3
  {
    LastShareOfValidWeights(total, bps);
    GainsAreBounded(total, bps[..|bps| - 1]);
    assert total * bps[|bps| - 1] > 0;
  }

  predicate ValidGroup(g: Group) {
    ValidWeights(Bps(g.debits)) && ValidWeights(Bps(g.credits))
  }

  /** On one side of a group the shares of the base amount overshoot. */
  predicate GroupOvershoots(g: Group, env: Envelope)
    requires ValidGroup(g)
  {
    BaseCents(g.base, env).Some?
    && (Overshoots(BaseCents(g.base, env).value, Bps(g.debits))
      || Overshoots(BaseCents(g.base, env).value, Bps(g.credits)))
  }

  predicate Negative(l: Line) {
    l.dr < 0 || l.cr < 0
  }

  lemma {:induction false} SideHasNegativeLineExactly(allocs: seq<Allocation>, cents: int, debit: bool, env: Envelope)
    requires ValidWeights(Bps(allocs)) && cents > 0
    ensures (exists l | l in SideLines(allocs, SharesFor(cents, allocs), debit, env) :: Negative(l))
       <==> Overshoots(cents, Bps(allocs))
  {
    var shares, lines := SharesFor(cents, allocs), SideLines(allocs, SharesFor(cents, allocs), debit, env);
    SharesSumToTotal(cents, cents, Bps(allocs));
    SidesOfLines(allocs, shares, debit, env);
    ShareIsNegativeExactlyWhenTheOthersOvershoot(cents, Bps(allocs));
    forall i | 0 <= i < |allocs| ensures Negative(lines[i]) <==> shares[i] < 0 {
      assert lines[i] == SideLine(allocs[i], shares[i], debit, env);
    }
    if i :| 0 <= i < |shares| && shares[i] < 0 {
      assert lines[i] in lines;
    }
  }

  /** The exact condition on a validated rule and an event under which a blueprint has a negative line, which the
      defensive check lets through: in some group the shares of one side overshoot. */
  lemma {:induction false} NegativeLineExactlyWhenAGroupOvershoots(groups: seq<Group>, env: Envelope)
    requires forall g | g in groups :: ValidGroup(g)
    requires Generate(groups, env).Lines?
    ensures (exists l | l in Generate(groups, env).lines :: Negative(l))
       <==> (exists g | g in groups :: GroupOvershoots(g, env))
  {
    if groups != [] {
      var g, rest := groups[0], groups[1..];
      var cents := BaseCents(g.base, env).value;
      assert groups == [g] + rest && g in groups;
      NegativeLineExactlyWhenAGroupOvershoots(rest, env);
      SideHasNegativeLineExactly(g.debits, cents, true, env);
      SideHasNegativeLineExactly(g.credits, cents, false, env);
      var debits := SideLines(g.debits, SharesFor(cents, g.debits), true, env);
      var credits := SideLines(g.credits, SharesFor(cents, g.credits), false, env);
      assert Generate(groups, env).lines == debits + credits + Generate(rest, env).lines;
    }
  }

  /** A validated group that splits its debit into quarters. */
  const QUARTERS :=
    Group(Amount, [QUARTER, QUARTER, QUARTER, QUARTER], [Allocation(Gl(2), "S", None, BP_TOTAL, None, None)])

  const QUARTER := Allocation(Gl(1), "S", None, 2500, None, None)

  const TWO_CENTS: Envelope := map[Amount := Money(2, "0.02")]

  /** Two cents over four quarters round to 1, 1, 1 and -1. */
  lemma QuartersOfTwoCents()
    ensures Shares(2, [2500, 2500, 2500, 2500]) == [1, 1, 1, -1]
  {
    assert Scaled(2, 2500) == 1;
    assert SharesOf(2, -1, [2500]) == [-1];
    assert SharesOf(2, 0, [2500, 2500]) == [1] + SharesOf(2, -1, [2500]);
    assert SharesOf(2, 1, [2500, 2500, 2500]) == [1] + SharesOf(2, 0, [2500, 2500]);
    assert SharesOf(2, 2, [2500, 2500, 2500, 2500]) == [1] + SharesOf(2, 1, [2500, 2500, 2500]);
  }

  lemma QuartersAreValidAndOvershoot()
    ensures ValidGroup(QUARTERS) && GroupOvershoots(QUARTERS, TWO_CENTS)
  {
    var weights, whole := [2500, 2500, 2500, 2500], [BP_TOTAL];
    assert Bps(QUARTERS.debits) == weights && Bps(QUARTERS.credits) == whole;
    assert Sum(weights) == 2500 + Sum([2500, 2500, 2500]) && Sum([2500, 2500, 2500]) == 2500 + Sum([2500, 2500]);
    QuartersOfTwoCents();
    ShareIsNegativeExactlyWhenTheOthersOvershoot(2, weights);
    assert Shares(2, weights)[3] < 0 && BaseCents(QUARTERS.base, TWO_CENTS) == Some(2);
  }

  /** So an event of two cents under such a rule yields a blueprint that balances, passes the defensive check,
      and has a negative line. */
  lemma QuartersOfTwoCentsAreAccepted()
    ensures ValidGroup(QUARTERS) && GroupOvershoots(QUARTERS, TWO_CENTS)
    ensures match Generate([QUARTERS], TWO_CENTS)
            case Lines(ls) => Accepted(ls) && exists l | l in ls :: Negative(l)
            case Failed(_) => false
  {
    QuartersAreValidAndOvershoot();
    QuartersOfTwoCentsGenerate();
    QuartersOfTwoCentsLines();
    DefensiveCheckFailsExactlyOnZeroLines([QUARTERS], TWO_CENTS);
  }

  lemma QuartersOfTwoCentsGenerate()
    ensures Generate([QUARTERS], TWO_CENTS) == Lines(GroupLines(QUARTERS, 2, TWO_CENTS))
  {
    assert [QUARTERS][1..] == [] && Generate([], TWO_CENTS) == Lines([]);
    assert BaseCents(QUARTERS.base, TWO_CENTS) == Some(2);
    assert Generate([QUARTERS], TWO_CENTS) == Lines(GroupLines(QUARTERS, 2, TWO_CENTS) + []);
  }

  lemma QuartersOfTwoCentsLines()
    ensures var ls := GroupLines(QUARTERS, 2, TWO_CENTS);
            && (exists l | l in ls :: Negative(l))
            && forall l | l in ls :: l.storeId != "" && (l.dr != 0 || l.cr != 0)
  {
    QuartersOfTwoCents();
    var shares := SharesFor(2, QUARTERS.debits);
    assert Bps(QUARTERS.debits) == [2500, 2500, 2500, 2500] && shares == [1, 1, 1, -1];
    assert SharesFor(2, QUARTERS.credits) == [2];
    SidesOfLines(QUARTERS.debits, shares, true, TWO_CENTS);
    SidesOfLines(QUARTERS.credits, [2], false, TWO_CENTS);
    var debits := SideLines(QUARTERS.debits, shares, true, TWO_CENTS);
    var credits := SideLines(QUARTERS.credits, [2], false, TWO_CENTS);
    assert shares[3] < 0 && debits[3] in debits + credits && Negative(debits[3]);
    forall l | l in debits + credits ensures l.storeId != "" && (l.dr != 0 || l.cr != 0) {
      assert l in debits || l in credits;
    }
  }
}
