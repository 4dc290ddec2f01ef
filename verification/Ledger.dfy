/** Event submission and the ledger it drives: the engine pipeline of coa-service, and gl-service, which keeps the
    journal and tells schedule-service of every posted line of a scheduled account. */
module Ledger {
  import opened Sums
  import opened PostingDsl
  import opened RulePacks

  datatype AccountType = Asset | Liability | Equity | Revenue | Expense

  /** An account of the chart: its scheduleCode, and whether its lines must carry a control number. */
  datatype AccountInfo = AccountInfo(kind: AccountType, schedule: Option<nat>, needsControl: bool)

  type Chart = map<nat, AccountInfo>

  datatype Rejection = Unresolved(error: ResolutionError) | FailedCheck | UnknownAccount | RefusedByLedger

  /** A journal entry as gl-service stores it. The engine gives all lines the same control number, taken from the
      envelope; reference is the entry's sourceRef, and description the length of what describes its lines. */
  datatype Entry = Entry(lines: seq<Line>, control: string, reference: string, description: nat)

  datatype Outcome = Malformed | Posted(entry: Entry) | NoRuleMatch | Rejected(why: Rejection)

  predicate Known(ls: seq<Line>, chart: Chart) {
    forall l | l in ls :: l.account.Gl? && l.account.number in chart
  }

  // ----- the envelope's part -----

  const EVENT_ID_WIDTH: nat := 36
  const TEXT_WIDTH: nat := 20
  const REFERENCE_WIDTH: nat := 8

  function Truncate(s: string, width: nat): string {
    if |s| <= width then s else s[..width]
  }

  /** Without an event id or a source entity the envelope is refused. */
  predicate WellFormed(env: Envelope) {
    TextAt(EventId, env) != "" && TextAt(SourceEntityId, env) != ""
  }

  /** The control number of every line: the source document, else the invoice number, else nothing. */
  function ControlText(env: Envelope): string {
    if Key(Some(SourceDocId), env).Some? then TextAt(SourceDocId, env) else TextAt(InvoiceNumber, env)
  }

  /** By the payload's own entries: the source document if there is one, whatever else is there; else the invoice
      number; else nothing. Null counts as absent. */
  predicate IsDocumentOf(control: string, env: Envelope) {
    if SourceDocId in env && env[SourceDocId] != Null then control == env[SourceDocId].text
    else if InvoiceNumber in env && env[InvoiceNumber] != Null then control == env[InvoiceNumber].text
    else control == ""
  }

  /** The text of the source entity, cut to eight characters. */
  predicate IsReferenceOf(reference: string, env: Envelope) {
    && SourceEntityId in env && env[SourceEntityId] != Null
    && reference == env[SourceEntityId].text[..Min(8, |env[SourceEntityId].text|)]
  }

  /** What every posted entry carries: the document of its event, and its source entity cut to eight characters. */
  lemma EntriesCarryTheirDocument(rules: seq<Rule>, chart: Chart, env: Envelope)
    requires Submit(rules, chart, env).Posted?
    ensures var entry := Submit(rules, chart, env).entry;
            IsDocumentOf(entry.control, env) && IsReferenceOf(entry.reference, env)
  {
  }

  /** And so does every line that schedule-service is told of. */
  lemma {:induction false} LinesCarryTheHeader(ls: seq<Line>, entry: Entry, chart: Chart)
    ensures forall ev | ev in LineEvents(ls, entry, chart) ::
              && ev.control == entry.control && ev.description == entry.description
              && (|entry.reference| <= 12 ==> ev.reference == entry.reference)
  {
    if ls != [] { LinesCarryTheHeader(ls[1..], entry, chart); }
  }

  function ApplyText(l: Line): string {
    match l.apply case None => "" case Some(text) => text
  }

  /** The fields of the envelope itself fit gl-service's request schema. */
  predicate HeaderFits(env: Envelope) {
    |TextAt(EventId, env)| <= EVENT_ID_WIDTH && |ControlText(env)| <= TEXT_WIDTH
  }

  /** What gl-service checks of a request: no negative amount, no text too long, and control numbers where
      an account demands them. */
  predicate LedgerAccepts(ls: seq<Line>, chart: Chart, env: Envelope)
    requires Known(ls, chart)
  {
    && HeaderFits(env)
    && (forall l | l in ls :: !Negative(l) && |ApplyText(l)| <= TEXT_WIDTH)
    && (forall l | l in ls && chart[l.account.number].needsControl :: ControlText(env) != "")
  }

  function EntryOf(rule: Rule, ls: seq<Line>, env: Envelope): Entry {
    Entry(ls, ControlText(env), Truncate(TextAt(SourceEntityId, env), REFERENCE_WIDTH), MemoLength(rule.memo, env))
  }

  /** One event through the engine: select, generate, check, resolve accounts, hand over to gl-service. */
  function Submit(rules: seq<Rule>, chart: Chart, env: Envelope): Outcome {
    if !WellFormed(env) then Malformed else
    match SelectRule(rules, env)
    case None => NoRuleMatch
    case Some(rule) =>
      match Generate(rule.groups, env)
      case Failed(e) => Rejected(Unresolved(e))
      case Lines(ls) =>
        if !Accepted(ls) then Rejected(FailedCheck)
        else if !Known(ls, chart) then Rejected(UnknownAccount)
        else if !LedgerAccepts(ls, chart, env) then Rejected(RefusedByLedger)
        else Posted(EntryOf(rule, ls, env))
  }

  /** The entry is there, and its text is not empty. */
  predicate HasText(f: Field, env: Envelope) {
    f in env && env[f] != Null && env[f].text != ""
  }

  /** Two-sided, balanced, one side and a store on every line. */
  predicate GoodBlueprint(ls: seq<Line>) {
    && TotalDr(ls) == TotalCr(ls) && (exists l :: l in ls && l.dr > 0) && (exists l :: l in ls && l.cr > 0)
    && forall l | l in ls :: (l.dr <= 0 || l.cr <= 0) && (l.dr != 0 || l.cr != 0) && l.storeId != ""
  }

  /** gl-service's request schema, and its accounts' demand for a control number. */
  ghost predicate GoodRequest(ls: seq<Line>, chart: Chart, env: Envelope)
    requires Known(ls, chart)
  {
    && (EventId in env && env[EventId] != Null ==> |env[EventId].text| <= 36)
    && (forall l | l in ls :: l.dr >= 0 && l.cr >= 0 && (l.apply.Some? ==> |l.apply.value| <= 20))
    && forall control | IsDocumentOf(control, env) ::
         |control| <= 20 && forall l | l in ls && chart[l.account.number].needsControl :: control != ""
  }

  lemma AcceptedIsGood(ls: seq<Line>)
    ensures Accepted(ls) <==> GoodBlueprint(ls)
  {
    if GoodBlueprint(ls) {
      var l, m :| l in ls && l.dr > 0 && m in ls && m.cr > 0;
    }
  }

  lemma DocumentOf(env: Envelope)
    ensures IsDocumentOf(ControlText(env), env) && forall c | IsDocumentOf(c, env) :: c == ControlText(env)
  {
  }

  lemma IdsAreTexts(env: Envelope)
    ensures WellFormed(env) <==> HasText(EventId, env) && HasText(SourceEntityId, env)
  {
  }

  lemma RequestIsGood(ls: seq<Line>, chart: Chart, env: Envelope)
    requires Known(ls, chart)
    ensures LedgerAccepts(ls, chart, env) <==> GoodRequest(ls, chart, env)
  {
    DocumentOf(env);
    var control := ControlText(env);
    assert IsDocumentOf(control, env);
  }

  /** What happens to an event whose rule gives a blueprint: the checks in order, each in terms of the event and the
      lines alone. */
  lemma {:induction false} ChecksInOrder(rules: seq<Rule>, chart: Chart, env: Envelope)
    requires SelectRule(rules, env).Some? && Generate(SelectRule(rules, env).value.groups, env).Lines?
    ensures var ls := Generate(SelectRule(rules, env).value.groups, env).lines;
            var outcome := Submit(rules, chart, env);
            if !HasText(EventId, env) || !HasText(SourceEntityId, env) then outcome == Malformed
            else if !GoodBlueprint(ls) then outcome == Rejected(FailedCheck)
            else if exists l :: l in ls && (l.account.Pending? || l.account.number !in chart)
              then outcome == Rejected(UnknownAccount)
            else
              && Known(ls, chart)
              && (if GoodRequest(ls, chart, env) then outcome.Posted? && outcome.entry.lines == ls
                  else outcome == Rejected(RefusedByLedger))
  {
    var ls := Generate(SelectRule(rules, env).value.groups, env).lines;
    AcceptedIsGood(ls);
    IdsAreTexts(env);
    if Known(ls, chart) { RequestIsGood(ls, chart, env); }
  }

  function PostedLines(o: Outcome): seq<Line> {
    match o
    case Posted(entry) => entry.lines
    case _ => []
  }

  /** An accepted blueprint with a negative line never reaches the journal: gl-service refuses it. */
  lemma {:induction false} NegativeBlueprintsAreRefused(rule: Rule, chart: Chart, env: Envelope)
    requires WellFormed(env) && forall g | g in rule.groups :: ValidGroup(g)
    requires Applies(rule, env) && Generate(rule.groups, env).Lines?
    requires Accepted(Generate(rule.groups, env).lines) && Known(Generate(rule.groups, env).lines, chart)
    requires exists g | g in rule.groups :: GroupOvershoots(g, env)
    ensures Submit([rule], chart, env) == Rejected(RefusedByLedger)
  {
    NegativeLineExactlyWhenAGroupOvershoots(rule.groups, env);
    SelectedRuleIsLeast([rule], env);
    assert rule in [rule];
  }

  // ----- what a sequence of lines does to an account -----

  lemma Regroup<T>(a: seq<T>, b: seq<T>, c: seq<T>)
    ensures a + (b + c) == a + b + c
  {
  }

  function Signed(l: Line): int { l.dr - l.cr }

  /** Debit-positive effect of the lines on one account. */
  function Net(ls: seq<Line>, a: nat): int {
    if ls == [] then 0 else (if ls[0].account == Gl(a) then Signed(ls[0]) else 0) + Net(ls[1..], a)
  }

  lemma {:induction false} NetAppend(xs: seq<Line>, ys: seq<Line>, a: nat)
    ensures Net(xs + ys, a) == Net(xs, a) + Net(ys, a)
  {
    if xs == [] {
      assert xs + ys == ys;
    } else {
      assert (xs + ys)[1..] == xs[1..] + ys;
      NetAppend(xs[1..], ys, a);
    }
  }

  ghost function Pick(accounts: set<nat>): nat
    requires accounts != {}
    ensures Pick(accounts) in accounts
  {
    var a :| a in accounts; a
  }

  /** The sum of the account balances over a set of accounts. */
  ghost function NetOver(ls: seq<Line>, accounts: set<nat>): int {
    if accounts == {} then 0
    else Net(ls, Pick(accounts)) + NetOver(ls, accounts - {Pick(accounts)})
  }

  lemma {:induction false} NetOverCons(l: Line, ls: seq<Line>, accounts: set<nat>)
    ensures NetOver([l] + ls, accounts)
         == NetOver(ls, accounts) + if l.account.Gl? && l.account.number in accounts then Signed(l) else 0
  {
    if accounts != {} {
      assert ([l] + ls)[1..] == ls;
      NetOverCons(l, ls, accounts - {Pick(accounts)});
    }
  }

  /** Double entry over the chart: the balances of all accounts add up to debits minus credits. */
  lemma {:induction false} BalancesAddUpToDebitsMinusCredits(ls: seq<Line>, chart: Chart)
    requires Known(ls, chart)
    ensures NetOver(ls, chart.Keys) == TotalDr(ls) - TotalCr(ls)
  {
    if ls == [] {
      NetOverNothing(chart.Keys);
    } else {
      assert ls == [ls[0]] + ls[1..];
      BalancesAddUpToDebitsMinusCredits(ls[1..], chart);
      NetOverCons(ls[0], ls[1..], chart.Keys);
    }
  }

  lemma {:induction false} NetOverNothing(accounts: set<nat>)
    ensures NetOver([], accounts) == 0
  {
    if accounts != {} { NetOverNothing(accounts - {Pick(accounts)}); }
  }

  // ----- what gl-service tells schedule-service -----

  const SENT_REFERENCE_WIDTH: nat := 12

  /** The event of one posted line; apply is given for an application line. */
  datatype ScheduleEvent = ScheduleEvent(
    account: nat, schedule: nat, control: string, amount: int, reference: string, apply: Option<string>,
      description: nat)

  /** Every line of an account with a scheduleCode is told, whatever its control number. */
  predicate Scheduled(l: Line, chart: Chart) {
    l.account.Gl? && l.account.number in chart && chart[l.account.number].schedule.Some?
  }

  function LineEvent(l: Line, entry: Entry, chart: Chart): ScheduleEvent
    requires Scheduled(l, chart)
  {
    ScheduleEvent(l.account.number, chart[l.account.number].schedule.value, entry.control, Signed(l),
                  Truncate(entry.reference, SENT_REFERENCE_WIDTH),
                  if ApplyText(l) == "" then None else l.apply, entry.description)
  }

  function LineEvents(ls: seq<Line>, entry: Entry, chart: Chart): seq<ScheduleEvent> {
    if ls == [] then []
    else (if Scheduled(ls[0], chart) then [LineEvent(ls[0], entry, chart)] else []) + LineEvents(ls[1..], entry, chart)
  }

  function EntryEvents(entry: Entry, chart: Chart): seq<ScheduleEvent> {
    LineEvents(entry.lines, entry, chart)
  }

  function OutcomeEvents(o: Outcome, chart: Chart): seq<ScheduleEvent> {
    match o
    case Posted(entry) => EntryEvents(entry, chart)
    case _ => []
  }

  function EventSum(evs: seq<ScheduleEvent>, a: nat): int {
    if evs == [] then 0 else (if evs[0].account == a then evs[0].amount else 0) + EventSum(evs[1..], a)
  }

  lemma {:induction false} EventSumAppend(xs: seq<ScheduleEvent>, ys: seq<ScheduleEvent>, a: nat)
    ensures EventSum(xs + ys, a) == EventSum(xs, a) + EventSum(ys, a)
  {
    if xs == [] {
      assert xs + ys == ys;
    } else {
      assert (xs + ys)[1..] == xs[1..] + ys;
      EventSumAppend(xs[1..], ys, a);
    }
  }

  lemma {:induction false} LineEventsAppend(xs: seq<Line>, ys: seq<Line>, entry: Entry, chart: Chart)
    ensures LineEvents(xs + ys, entry, chart) == LineEvents(xs, entry, chart) + LineEvents(ys, entry, chart)
  {
    if xs == [] {
      assert xs + ys == ys;
    } else {
      assert (xs + ys)[1..] == xs[1..] + ys;
      LineEventsAppend(xs[1..], ys, entry, chart);
    }
  }

  /** For a scheduled account the events of an entry carry all of its net effect, keyed or not. */
  lemma {:induction false} EventsCarryTheNet(ls: seq<Line>, entry: Entry, chart: Chart, a: nat)
    requires a in chart && chart[a].schedule.Some?
    ensures EventSum(LineEvents(ls, entry, chart), a) == Net(ls, a)
  {
    if ls != [] {
      EventsCarryTheNet(ls[1..], entry, chart, a);
      if Scheduled(ls[0], chart) {
        assert LineEvents(ls, entry, chart)[1..] == LineEvents(ls[1..], entry, chart);
      } else {
        assert LineEvents(ls, entry, chart) == LineEvents(ls[1..], entry, chart);
      }
    }
  }

  // ----- gl-service -----

  /** A submitted entry has lines of the chart and balances. */
  predicate Sound(entry: Entry, chart: Chart) {
    Known(entry.lines, chart) && TotalDr(entry.lines) == TotalCr(entry.lines)
  }

  lemma PostedEntriesAreSound(rules: seq<Rule>, chart: Chart, env: Envelope)
    ensures Submit(rules, chart, env).Posted? ==> Sound(Submit(rules, chart, env).entry, chart)
  {
  }

  class GlService {
    const chart: Chart
    var pending: seq<Entry>
    var journal: seq<Line>
    var balances: map<nat, int>
    var outbox: seq<ScheduleEvent>

    /** Balances are the journal's, the books balance, and every scheduled account ties out with its events. */
    ghost predicate Valid()
      reads this
    {
      && (forall i | 0 <= i < |pending| :: Sound(pending[i], chart))
      && Known(journal, chart) && TotalDr(journal) == TotalCr(journal)
      && balances.Keys == chart.Keys
      && (forall a | a in chart :: balances[a] == Net(journal, a))
      && (forall a | a in chart && chart[a].schedule.Some? :: EventSum(outbox, a) == Net(journal, a))
    }

    constructor (chart: Chart)
      ensures Valid() && this.chart == chart && pending == [] && journal == [] && outbox == []
    {
      this.chart := chart;
      pending, journal, outbox := [], [], [];
      balances := map a | a in chart :: 0;
    }

    /** A posted event leaves an entry awaiting review; any other changes nothing. */
    method SubmitEvent(rules: seq<Rule>, env: Envelope) returns (outcome: Outcome)
      requires Valid()
      modifies this`pending
      ensures Valid()
      ensures outcome == Submit(rules, chart, env)
      ensures pending == if outcome.Posted? then old(pending) + [outcome.entry] else old(pending)
    {
      PostedEntriesAreSound(rules, chart, env);
      outcome := Submit(rules, chart, env);
      if outcome.Posted? {
        pending := pending + [outcome.entry];
      }
    }

    /** The line loop: each line moves its account's running balance, and is told if the account is scheduled. */
    method PostLines(entry: Entry)
      requires Known(entry.lines, chart) && balances.Keys == chart.Keys
      modifies this`balances, this`outbox
      ensures balances.Keys == chart.Keys
      ensures forall a | a in chart :: balances[a] == old(balances)[a] + Net(entry.lines, a)
      ensures outbox == old(outbox) + EntryEvents(entry, chart)
    {
      var ls := entry.lines;
      for i := 0 to |ls|
        invariant balances.Keys == chart.Keys
        invariant forall a | a in chart :: balances[a] == old(balances)[a] + Net(ls[..i], a)
        invariant outbox == old(outbox) + LineEvents(ls[..i], entry, chart)
      {
        var line := ls[i];
        assert line in ls && ls[..i + 1] == ls[..i] + [line];
        var a := line.account.number;
        forall b: nat ensures Net(ls[..i + 1], b) == Net(ls[..i], b) + if b == a then Signed(line) else 0 {
          NetAppend(ls[..i], [line], b);
          assert Net([line], b) == if b == a then Signed(line) else 0;
        }
        LineEventsAppend(ls[..i], [line], entry, chart);
        balances := balances[a := balances[a] + Signed(line)];
        if Scheduled(line, chart) {
          outbox := outbox + [LineEvent(line, entry, chart)];
        }
      }
      assert ls[..|ls|] == ls;
    }

    /** Approval posts one entry, in whatever order entries are approved. */
    method Approve(i: nat)
      requires Valid() && i < |pending|
      modifies this
      ensures Valid()
      ensures pending == old(pending)[..i] + old(pending)[i + 1..]
      ensures journal == old(journal) + old(pending)[i].lines
      ensures outbox == old(outbox) + EntryEvents(old(pending)[i], chart)
    {
      var entry := pending[i];
      PostLines(entry);
      TotalsAppend(journal, entry.lines);
      forall a: nat ensures Net(journal + entry.lines, a) == Net(journal, a) + Net(entry.lines, a) {
        NetAppend(journal, entry.lines, a);
      }
      forall a | a in chart && chart[a].schedule.Some?
        ensures EventSum(outbox, a) == EventSum(old(outbox), a) + Net(entry.lines, a) {
        EventSumAppend(old(outbox), EntryEvents(entry, chart), a);
        EventsCarryTheNet(entry.lines, entry, chart, a);
      }
      journal := journal + entry.lines;
      pending := pending[..i] + pending[i + 1..];
    }

    method SubmitAndApprove(rules: seq<Rule>, env: Envelope)
      requires Valid() && pending == []
      modifies this
      ensures Valid() && pending == []
      ensures journal == old(journal) + PostedLines(Submit(rules, chart, env))
      ensures outbox == old(outbox) + OutcomeEvents(Submit(rules, chart, env), chart)
    {
      var outcome := SubmitEvent(rules, env);
      if outcome.Posted? {
        Approve(0);
      }
    }
  }

  // ----- runs of events, over any packs and any chart -----

  datatype Event = Event(kind: EventType, payload: Envelope)

  type Packs = EventType -> seq<Rule>

  function EventLines(packs: Packs, chart: Chart, e: Event): seq<Line> {
    PostedLines(Submit(packs(e.kind), chart, e.payload))
  }

  /** The journal after a run. A run lists the events in the order in which their entries are approved; events of
      different services interleave freely. */
  function Journal(packs: Packs, chart: Chart, es: seq<Event>): seq<Line> {
    if es == [] then [] else EventLines(packs, chart, es[0]) + Journal(packs, chart, es[1..])
  }

  /** Double entry: after every run over every pack, debits equal credits and the
      balances of the chart add up to zero. */
  lemma {:induction false} RunBalances(packs: Packs, chart: Chart, es: seq<Event>)
    ensures var journal := Journal(packs, chart, es);
            Known(journal, chart) && TotalDr(journal) == TotalCr(journal) && NetOver(journal, chart.Keys) == 0
  {
    if es != [] {
      RunBalances(packs, chart, es[1..]);
      TotalsAppend(EventLines(packs, chart, es[0]), Journal(packs, chart, es[1..]));
    }
    BalancesAddUpToDebitsMinusCredits(Journal(packs, chart, es), chart);
  }

  /** What schedule-service is told on a run. */
  function Told(packs: Packs, chart: Chart, es: seq<Event>): seq<ScheduleEvent> {
    if es == [] then [] else EventsOf(packs, chart, es[0]) + Told(packs, chart, es[1..])
  }

  function EventsOf(packs: Packs, chart: Chart, e: Event): seq<ScheduleEvent> {
    OutcomeEvents(Submit(packs(e.kind), chart, e.payload), chart)
  }

  /** Tie-out of what is told: on every run over every pack and chart, the events of every scheduled account add up
      to its balance in the general ledger. */
  lemma {:induction false} ToldTiesOutWithTheLedger(packs: Packs, chart: Chart, es: seq<Event>, a: nat)
    requires a in chart && chart[a].schedule.Some?
    ensures EventSum(Told(packs, chart, es), a) == Net(Journal(packs, chart, es), a)
  {
    if es != [] {
      ToldTiesOutWithTheLedger(packs, chart, es[1..], a);
      NetAppend(EventLines(packs, chart, es[0]), Journal(packs, chart, es[1..]), a);
      EventSumAppend(EventsOf(packs, chart, es[0]), Told(packs, chart, es[1..]), a);
      var outcome := Submit(packs(es[0].kind), chart, es[0].payload);
      if outcome.Posted? { EventsCarryTheNet(outcome.entry.lines, outcome.entry, chart, a); }
    }
  }

  /** Submitting the events and approving each entry produces exactly that journal and those events. */
  method RunEvents(packs: Packs, gl: GlService, es: seq<Event>)
    requires gl.Valid() && gl.pending == [] && gl.journal == [] && gl.outbox == []
    modifies gl
    ensures gl.Valid() && gl.pending == []
    ensures gl.journal == Journal(packs, gl.chart, es)
    ensures gl.outbox == Told(packs, gl.chart, es)
  {
    var done := 0;
    while done < |es|
      invariant 0 <= done <= |es|
      invariant gl.Valid() && gl.pending == []
      invariant gl.journal == Journal(packs, gl.chart, es[..done])
      invariant gl.outbox == Told(packs, gl.chart, es[..done])
    {
      JournalSnoc(packs, gl.chart, es[..done], es[done]);
      ToldSnoc(packs, gl.chart, es[..done], es[done]);
      assert es[..done + 1] == es[..done] + [es[done]];
      gl.SubmitAndApprove(packs(es[done].kind), es[done].payload);
      done := done + 1;
    }
    assert es[..done] == es;
  }

  lemma {:induction false} ToldSnoc(packs: Packs, chart: Chart, es: seq<Event>, e: Event)
    ensures Told(packs, chart, es + [e]) == Told(packs, chart, es) + EventsOf(packs, chart, e)
  {
    ToldAppend(packs, chart, es, [e]);
    assert [e][1..] == [];
    assert Told(packs, chart, [e]) == EventsOf(packs, chart, e) + [];
  }

  lemma {:induction false} ToldAppend(packs: Packs, chart: Chart, es: seq<Event>, fs: seq<Event>)
    ensures Told(packs, chart, es + fs) == Told(packs, chart, es) + Told(packs, chart, fs)
  {
    if es == [] {
      assert es + fs == fs;
    } else {
      assert (es + fs)[1..] == es[1..] + fs;
      ToldAppend(packs, chart, es[1..], fs);
      Regroup(EventsOf(packs, chart, es[0]), Told(packs, chart, es[1..]), Told(packs, chart, fs));
    }
  }

  lemma {:induction false} JournalSnoc(packs: Packs, chart: Chart, es: seq<Event>, e: Event)
    ensures Journal(packs, chart, es + [e]) == Journal(packs, chart, es) + EventLines(packs, chart, e)
  {
    JournalAppend(packs, chart, es, [e]);
    assert [e][1..] == [];
    assert Journal(packs, chart, [e]) == EventLines(packs, chart, e) + [];
  }

  lemma {:induction false} JournalAppend(packs: Packs, chart: Chart, es: seq<Event>, fs: seq<Event>)
    ensures Journal(packs, chart, es + fs) == Journal(packs, chart, es) + Journal(packs, chart, fs)
  {
    if es == [] {
      assert es + fs == fs;
    } else {
      assert (es + fs)[1..] == es[1..] + fs;
      JournalAppend(packs, chart, es[1..], fs);
      Regroup(EventLines(packs, chart, es[0]), Journal(packs, chart, es[1..]), Journal(packs, chart, fs));
    }
  }

  // ----- control paths have no effect -----

  function WithoutControl(a: Allocation): Allocation { a.(control := None) }

  function WithoutControls(allocs: seq<Allocation>): seq<Allocation> {
    if allocs == [] then [] else [WithoutControl(allocs[0])] + WithoutControls(allocs[1..])
  }

  function WithoutControlPaths(groups: seq<Group>): seq<Group> {
    if groups == [] then []
    else [groups[0].(debits := WithoutControls(groups[0].debits), credits := WithoutControls(groups[0].credits))]
         + WithoutControlPaths(groups[1..])
  }

  lemma {:induction false} WithoutControlsKeepsBps(allocs: seq<Allocation>)
    ensures |WithoutControls(allocs)| == |allocs| && Bps(WithoutControls(allocs)) == Bps(allocs)
  {
    if allocs != [] {
      WithoutControlsKeepsBps(allocs[1..]);
      assert Bps(allocs) == [allocs[0].bp] + Bps(allocs[1..]);
      assert Bps(WithoutControls(allocs)) == [allocs[0].bp] + Bps(WithoutControls(allocs)[1..]);
    }
  }

  /** The line with the control number that gl-service never sees taken off. */
  function Stripped(l: Line): Line { l.(control := None) }

  function AllStripped(ls: seq<Line>): seq<Line> {
    if ls == [] then [] else [Stripped(ls[0])] + AllStripped(ls[1..])
  }

  lemma {:induction false} StrippedLinesTellTheSame(ls: seq<Line>, entry: Entry, chart: Chart)
    ensures LineEvents(AllStripped(ls), entry, chart) == LineEvents(ls, entry, chart)
  {
    if ls != [] { StrippedLinesTellTheSame(ls[1..], entry, chart); }
  }

  lemma {:induction false} StrippedAppend(xs: seq<Line>, ys: seq<Line>)
    ensures AllStripped(xs + ys) == AllStripped(xs) + AllStripped(ys)
  {
    if xs == [] {
      assert xs + ys == ys;
    } else {
      assert (xs + ys)[1..] == xs[1..] + ys;
      StrippedAppend(xs[1..], ys);
    }
  }

  lemma {:induction false} SideWithoutControls(allocs: seq<Allocation>, shares: seq<int>, debit: bool, env: Envelope)
    requires |allocs| <= |shares|
    requires |WithoutControls(allocs)| == |allocs|
    ensures SideLines(WithoutControls(allocs), shares, debit, env) == AllStripped(SideLines(allocs, shares, debit, env))
  {
    if allocs != [] {
      WithoutControlsKeepsBps(allocs[1..]);
      SideWithoutControls(allocs[1..], shares[1..], debit, env);
    }
  }

  lemma {:induction false} GeneratedWithoutControls(groups: seq<Group>, env: Envelope)
    ensures match Generate(groups, env)
            case Lines(ls) => Generate(WithoutControlPaths(groups), env) == Lines(AllStripped(ls))
            case Failed(e) => Generate(WithoutControlPaths(groups), env) == Failed(e)
  {
    if groups != [] {
      GeneratedWithoutControls(groups[1..], env);
      var g := groups[0];
      if BaseCents(g.base, env).Some? && Generate(groups[1..], env).Lines? {
        var cents := BaseCents(g.base, env).value;
        WithoutControlsKeepsBps(g.debits);
        WithoutControlsKeepsBps(g.credits);
        SideWithoutControls(g.debits, SharesFor(cents, g.debits), true, env);
        SideWithoutControls(g.credits, SharesFor(cents, g.credits), false, env);
        StrippedAppend(SideLines(g.debits, SharesFor(cents, g.debits), true, env),
                       SideLines(g.credits, SharesFor(cents, g.credits), false, env));
        StrippedAppend(GroupLines(g, cents, env), Generate(groups[1..], env).lines);
      }
    }
  }

  /** On the engine's route the control paths of a pack have no effect at all: without them schedule-service is told
      exactly the same, entry by entry. */
  lemma {:induction false} ControlPathsAreUnusedOnTheEngineRoute(groups: seq<Group>, env: Envelope, header: Entry,
    chart: Chart)
    ensures var with, without := Generate(groups, env), Generate(WithoutControlPaths(groups), env);
            if with.Failed? then without == with
            else without.Lines? && LineEvents(without.lines, header, chart) == LineEvents(with.lines, header, chart)
  {
    GeneratedWithoutControls(groups, env);
    if Generate(groups, env).Lines? {
      StrippedLinesTellTheSame(Generate(groups, env).lines, header, chart);
    }
  }
}
