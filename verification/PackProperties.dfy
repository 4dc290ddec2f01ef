/** Properties of the packs as transformations and as rule sets: fixture mapping preserves
    meaning, blank packs never post, and rule order does not matter. */
module PackProperties {
  import opened Sums
  import opened PostingDsl
  import opened RulePacks
  import opened Ledger

  // ----- rule order -----

  /** Rules that each compare the same field with a different text exclude each other. */
  ghost predicate Selects(rules: seq<Rule>, path: Field, texts: seq<string>) {
    && |rules| == |texts|
    && (forall i | 0 <= i < |rules| :: rules[i].condition == When(path, texts[i]))
    && (forall i, j | 0 <= i < j < |texts| :: texts[i] != texts[j])
  }

  lemma SelectorsAreExclusive(rules: seq<Rule>, path: Field, texts: seq<string>)
    requires Selects(rules, path, texts)
    ensures PairwiseExclusive(rules)
  {
    forall r, s, env: Envelope | r in rules && s in rules && Applies(r, env) && Applies(s, env) ensures r == s {
      var i :| 0 <= i < |rules| && rules[i] == r;
      var j :| 0 <= j < |rules| && rules[j] == s;
      assert env[path] == Text(texts[i]) == Text(texts[j]);
    }
  }

  lemma DealPackIsExclusive(t: EventType, A: AccountFn, store: string)
    requires IsDeal(t)
    ensures PairwiseExclusive(DealRules(t, A, store))
  {
    if t.DealFinalized? {
      assert |"RETAIL"| == 6 && |"DEALER_TRADE"| == 12 && |"WHOLESALE"| == 9 && |"LEASE"| == 5;
      SelectorsAreExclusive(FinalizedRules(A, store), DealType, ["RETAIL", "DEALER_TRADE", "WHOLESALE", "LEASE"]);
    } else if t.PayoffVariance? {
      assert |"ADDITIONAL_PAYMENT"| == 18 && |"REFUND_RECEIVABLE"| == 17;
      SelectorsAreExclusive(PayoffVarianceRules(A, store), Disposition, ["ADDITIONAL_PAYMENT", "REFUND_RECEIVABLE"]);
    } else if t.ArbitrationPrice? {
      assert "INCREASE"[0] == 'I' && "DECREASE"[0] == 'D';
      SelectorsAreExclusive(ArbitrationPriceRules(A, store), AdjustmentDirection, ["INCREASE", "DECREASE"]);
    } else if t.RecontractDelta? {
      DeltaRulesAreExclusive(A, store);
    }
  }

  lemma FixturePackIsExclusive(t: EventType)
    ensures PairwiseExclusive(FixtureRules(t))
  {
    if IsDeal(t) {
      DealPackIsExclusive(t, FixtureAccount, DEAL_STORE);
    }
  }

  lemma BlankPackIsExclusive(t: EventType)
    ensures PairwiseExclusive(BlankRules(t))
  {
    if IsDeal(t) {
      DealPackIsExclusive(t, role => Pending, DEAL_STORE);
    }
  }

  /** In every pack, fixture or blank, no payload satisfies two rules. */
  lemma PacksAreExclusive(t: EventType)
    ensures PairwiseExclusive(FixtureRules(t)) && PairwiseExclusive(BlankRules(t))
  {
    FixturePackIsExclusive(t);
    BlankPackIsExclusive(t);
  }

  lemma ExclusiveRulesIgnoreOrder(rules: seq<Rule>, ss: seq<Rule>, env: Envelope)
    requires PairwiseExclusive(rules) && IsPermutation(rules, ss)
    ensures SelectRule(ss, env) == SelectRule(rules, env)
  {
    assert UniqueLeast(rules, env);
    SelectionIgnoresOrderExactlyWhenLeastIsUnique(rules, env);
  }

  /** FIRST_MATCH selects the same rule under any listing order of any pack. */
  lemma RuleOrderDoesNotMatter(t: EventType, ss: seq<Rule>, env: Envelope)
    requires IsPermutation(FixtureRules(t), ss) || IsPermutation(BlankRules(t), ss)
    ensures IsPermutation(FixtureRules(t), ss) ==> SelectRule(ss, env) == SelectRule(FixtureRules(t), env)
    ensures IsPermutation(BlankRules(t), ss) ==> SelectRule(ss, env) == SelectRule(BlankRules(t), env)
  {
    PacksAreExclusive(t);
    if IsPermutation(FixtureRules(t), ss) { ExclusiveRulesIgnoreOrder(FixtureRules(t), ss, env); }
    if IsPermutation(BlankRules(t), ss) { ExclusiveRulesIgnoreOrder(BlankRules(t), ss, env); }
  }

  // ----- applyFixtures -----

  /** A fixture replaces the account by side, the store, and a named department. */
  function Renamed(l: Line, account: nat): Line {
    l.(account := Gl(account), storeId := FIXTURE_STORE,
       dept := if l.dept.Some? && l.dept.value != "" then Some(FIXTURE_DEPT) else l.dept)
  }

  function RenamedLines(ls: seq<Line>, account: nat): seq<Line> {
    seq(|ls|, i requires 0 <= i < |ls| => Renamed(ls[i], account))
  }

  /** The lines of a rule with debit lines moved to one account and credit lines to the other. */
  function RenamedGroupLines(groups: seq<Group>, env: Envelope, debit: nat, credit: nat): seq<Line> {
    if groups == [] then [] else
      var g, cents := groups[0], match BaseCents(groups[0].base, env) case None => 0 case Some(c) => c;
      RenamedLines(SideLines(g.debits, SharesFor(cents, g.debits), true, env), debit)
        + RenamedLines(SideLines(g.credits, SharesFor(cents, g.credits), false, env), credit)
        + RenamedGroupLines(groups[1..], env, debit, credit)
  }

  lemma {:induction false} FixedSide(allocs: seq<Allocation>, shares: seq<int>, debit: bool, env: Envelope,
    account: nat)
    requires |allocs| <= |shares|
    ensures Bps(FixAllocations(allocs, account)) == Bps(allocs)
    ensures SideLines(FixAllocations(allocs, account), shares, debit, env)
         == RenamedLines(SideLines(allocs, shares, debit, env), account)
  {
    if allocs != [] {
      FixedSide(allocs[1..], shares[1..], debit, env, account);
      assert FixAllocations(allocs, account)[1..] == FixAllocations(allocs[1..], account);
      var line := SideLine(allocs[0], shares[0], debit, env);
      var rest := SideLines(allocs[1..], shares[1..], debit, env);
      assert RenamedLines([line] + rest, account) == [Renamed(line, account)] + RenamedLines(rest, account);
    }
  }

  /** Generation commutes with the fixture: same error, or the same lines renamed side by side. */
  lemma {:induction false} FixturesPreserveGeneration(groups: seq<Group>, env: Envelope, debit: nat, credit: nat)
    ensures match Generate(groups, env)
            case Failed(e) => Generate(FixGroups(groups, debit, credit), env) == Failed(e)
            case Lines(_) =>
              Generate(FixGroups(groups, debit, credit), env) == Lines(RenamedGroupLines(groups, env, debit, credit))
  {
    if groups != [] {
      FixturesPreserveGeneration(groups[1..], env, debit, credit);
      var g := groups[0];
      assert FixGroups(groups, debit, credit)[1..] == FixGroups(groups[1..], debit, credit);
      if BaseCents(g.base, env).Some? {
        var cents := BaseCents(g.base, env).value;
        FixedSide(g.debits, SharesFor(cents, g.debits), true, env, debit);
        FixedSide(g.credits, SharesFor(cents, g.credits), false, env, credit);
      }
    }
  }

  function FixRule(r: Rule, debit: nat, credit: nat): Rule {
    r.(groups := FixGroups(r.groups, debit, credit))
  }

  lemma {:induction false} InsertCommutes(r: Rule, rs: seq<Rule>, d: nat, c: nat)
    ensures InsertByPriority(FixRule(r, d, c), ApplyFixtures(rs, d, c)) == ApplyFixtures(InsertByPriority(r, rs), d, c)
  {
    if rs != [] && rs[0].priority < r.priority {
      InsertCommutes(r, rs[1..], d, c);
      assert ApplyFixtures(rs, d, c)[1..] == ApplyFixtures(rs[1..], d, c);
    } else {
      assert ([r] + rs)[1..] == rs;
    }
  }

  lemma {:induction false} SortCommutes(rs: seq<Rule>, d: nat, c: nat)
    ensures SortByPriority(ApplyFixtures(rs, d, c)) == ApplyFixtures(SortByPriority(rs), d, c)
  {
    if rs != [] {
      SortCommutes(rs[1..], d, c);
      assert ApplyFixtures(rs, d, c)[1..] == ApplyFixtures(rs[1..], d, c);
      InsertCommutes(rs[0], SortByPriority(rs[1..]), d, c);
    }
  }

  lemma {:induction false} FirstApplicableCommutes(rs: seq<Rule>, env: Envelope, d: nat, c: nat)
    ensures FirstApplicable(ApplyFixtures(rs, d, c), env)
         == match FirstApplicable(rs, env) case None => None case Some(r) => Some(FixRule(r, d, c))
  {
    if rs != [] {
      FirstApplicableCommutes(rs[1..], env, d, c);
      assert ApplyFixtures(rs, d, c)[1..] == ApplyFixtures(rs[1..], d, c);
    }
  }

  /** Evaluation without accounts: selection, then generation. */
  function Evaluate(rules: seq<Rule>, env: Envelope): Option<Blueprint> {
    match SelectRule(rules, env) case None => None case Some(r) => Some(Generate(r.groups, env))
  }

  /** For any pack and any event, applyFixtures changes nothing but account, store and department:
      the same rule is selected, the same error is raised, the same lines come out renamed by side. */
  lemma {:induction false} FixturesPreserveMeaning(rules: seq<Rule>, env: Envelope, debit: nat, credit: nat)
    ensures match SelectRule(rules, env)
            case None => Evaluate(ApplyFixtures(rules, debit, credit), env) == None
            case Some(r) =>
              Evaluate(ApplyFixtures(rules, debit, credit), env)
                == Some(match Generate(r.groups, env)
                        case Failed(e) => Failed(e)
                        case Lines(_) => Lines(RenamedGroupLines(r.groups, env, debit, credit)))
  {
    SortCommutes(rules, debit, credit);
    FirstApplicableCommutes(SortByPriority(rules), env, debit, credit);
    if SelectRule(rules, env).Some? {
      FixturesPreserveGeneration(SelectRule(rules, env).value.groups, env, debit, credit);
    }
  }

  // ----- blank packs -----

  /** The first line of every rule goes to the pending account. */
  predicate PendingFirst(r: Rule) {
    r.groups != [] && r.groups[0].debits != [] && r.groups[0].debits[0].account == Pending
  }

  lemma PendingRulesNeverPost(rules: seq<Rule>, chart: Chart, env: Envelope)
    requires forall r | r in rules :: PendingFirst(r)
    ensures PostedLines(Submit(rules, chart, env)) == []
  {
    SelectedRuleIsLeast(rules, env);
    if SelectRule(rules, env).Some? {
      var groups := SelectRule(rules, env).value.groups;
      if Generate(groups, env).Lines? {
        var line := Generate(groups, env).lines[0];
        assert line in Generate(groups, env).lines && line.account == Pending;
      }
    }
  }

  lemma BlankDealRules(t: EventType, A: AccountFn, store: string)
    requires IsDeal(t) && forall role :: A(role) == Pending
    ensures forall r | r in DealRules(t, A, store) :: PendingFirst(r)
  {
    if t.RecontractDelta? {
      var rules := DeltaRules(A, store);
      forall i | 0 <= i < 14 ensures PendingFirst(rules[i]) { assert rules[i] == DeltaRuleAt(A, store, i); }
      assert rules[14] == DeltaFallback(A, store);
    }
  }

  lemma BlankRulesArePending(t: EventType)
    ensures forall r | r in BlankRules(t) :: PendingFirst(r)
  {
    if IsDeal(t) {
      var blank := role => Pending;
      assert BlankRules(t) == DealRules(t, blank, DEAL_STORE);
      BlankDealRules(t, blank, DEAL_STORE);
    }
  }

  /** As authored, with accounts pending, the packs post nothing: on every run, over any chart,
      the journal stays empty. */
  lemma {:induction false} BlankPacksNeverPost(chart: Chart, es: seq<Event>)
    ensures Journal(BlankRules, chart, es) == []
  {
    if es != [] {
      BlankPacksNeverPost(chart, es[1..]);
      BlankRulesArePending(es[0].kind);
      PendingRulesNeverPost(BlankRules(es[0].kind), chart, es[0].payload);
    }
  }
}
