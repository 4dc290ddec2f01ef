/** The fixture packs through gl-service into the open-item ledger of schedule-service, on whole runs. */
module ScheduleRuns {
  import opened Sums
  import opened PostingDsl
  import opened RulePacks
  import opened Ledger
  import opened FixturePacks
  import opened LedgerRuns
  import OpenItems
  import OrderlyRelief
  import UntouchedItems

  // ----- what schedule-service is told of one event -----

  /** The event of one leg; a debit counts positive. */
  function LegEvent(leg: Leg, amount: int, t: EventType, env: Envelope): ScheduleEvent
    requires FixtureSchedule(leg.account).Some?
  {
    ScheduleEvent(leg.account, FixtureSchedule(leg.account).value, ControlText(env), amount,
                  Truncate(TextAt(SourceEntityId, env), REFERENCE_WIDTH),
                  if PathText(leg.apply, env) == "" then None else Some(PathText(leg.apply, env)),
                  MemoLength(MemoOf(t, env), env))
  }

  function LegEvents(leg: Leg, amount: int, t: EventType, env: Envelope): seq<ScheduleEvent> {
    if FixtureSchedule(leg.account).Some? then [LegEvent(leg, amount, t, env)] else []
  }

  function RowsEvents(rows: seq<Row>, t: EventType, env: Envelope): seq<ScheduleEvent> {
    if rows == [] then [] else
      RowEvents(rows[0], Cents(rows[0].base, env), t, env) + RowsEvents(rows[1..], t, env)
  }

  function RowEvents(row: Row, cents: int, t: EventType, env: Envelope): seq<ScheduleEvent> {
    LegEvents(row.debit, cents, t, env) + LegEvents(row.credit, -cents, t, env)
  }

  /** The entry carries the envelope's texts and the event's memo. */
  predicate HeadedBy(entry: Entry, t: EventType, env: Envelope) {
    && entry.control == ControlText(env) && entry.description == MemoLength(MemoOf(t, env), env)
    && entry.reference == Truncate(TextAt(SourceEntityId, env), REFERENCE_WIDTH)
  }

  lemma {:induction false} SideEvent(alloc: Allocation, cents: int, debit: bool, entry: Entry, t: EventType,
    env: Envelope)
    requires ReadyAllocation(alloc) && HeadedBy(entry, t, env)
    ensures LineEvents([SideLine(alloc, cents, debit, env)], entry, FIXTURE_CHART)
         == LegEvents(LegOf(alloc), if debit then cents else -cents, t, env)
  {
    var l := SideLine(alloc, cents, debit, env);
    assert [l][1..] == [] && LineEvents([], entry, FIXTURE_CHART) == [];
    assert ApplyText(l) == PathText(alloc.apply, env);
    assert FIXTURE_CHART[l.account.number].schedule == FixtureSchedule(l.account.number);
  }

  lemma {:induction false} GroupTells(g: Group, cents: int, entry: Entry, t: EventType, env: Envelope)
    requires ReadyGroup(g) && HeadedBy(entry, t, env)
    ensures LineEvents([SideLine(g.debits[0], cents, true, env), SideLine(g.credits[0], cents, false, env)], entry,
      FIXTURE_CHART)
         == RowEvents(RowOf(g), cents, t, env)
  {
    var d, c := SideLine(g.debits[0], cents, true, env), SideLine(g.credits[0], cents, false, env);
    assert [d, c] == [d] + [c];
    LineEventsAppend([d], [c], entry, FIXTURE_CHART);
    SideEvent(g.debits[0], cents, true, entry, t, env);
    SideEvent(g.credits[0], cents, false, entry, t, env);
  }

  lemma {:induction false} GroupsTell(groups: seq<Group>, entry: Entry, t: EventType, env: Envelope)
    requires ReadyGroups(groups) && HeadedBy(entry, t, env)
    ensures LineEvents(ReadyLines(groups, env), entry, FIXTURE_CHART) == RowsEvents(RowsOf(groups), t, env)
  {
    if groups != [] {
      GroupsTell(groups[1..], entry, t, env);
      var g, cents := groups[0], Cents(groups[0].base, env);
      var pair := [SideLine(g.debits[0], cents, true, env), SideLine(g.credits[0], cents, false, env)];
      LineEventsAppend(pair, ReadyLines(groups[1..], env), entry, FIXTURE_CHART);
      GroupTells(g, cents, entry, t, env);
      RowsOfTail(groups);
    }
  }

  lemma RowsOfTail(groups: seq<Group>)
    requires groups != [] && ReadyGroups(groups)
    ensures RowsOf(groups) == [RowOf(groups[0])] + RowsOf(groups[1..])
  {
  }

  /** For every event schedule-service is told exactly the scheduled legs of its posted rows. */
  lemma EventTells(e: Event)
    ensures EventsOf(FixtureRules, FIXTURE_CHART, e) == RowsEvents(PostedRows(e.kind, e.payload), e.kind, e.payload)
    ensures forall ev | ev in EventsOf(FixtureRules, FIXTURE_CHART, e) ::
              IsDocumentOf(ev.control, e.payload) && IsReferenceOf(ev.reference, e.payload)
  {
    var rules, env := FixtureRules(e.kind), e.payload;
    PackPosts(e.kind, env);
    RowsDecidePosting(rules, env, MemoOf(e.kind, env), RequestedRows(e.kind, env));
    if WellFormed(env) {
      ReadyOutcome(rules, env);
      var outcome := Submit(rules, FIXTURE_CHART, env);
      if outcome.Posted? {
        GroupsTell(PostedGroups(rules, env), outcome.entry, e.kind, env);
        EntriesCarryTheirDocument(rules, FIXTURE_CHART, env);
        LinesCarryTheHeader(outcome.entry.lines, outcome.entry, FIXTURE_CHART);
      }
    }
  }

  // ----- what the table says of every scheduled leg -----

  predicate IsAsset(a: nat) {
    a == 19200 || a == 19202 || a == 19212 || a == 19213 || a == 19217
  }

  predicate IsLiability(a: nat) {
    a == 19102 || a == 19211 || a == 19219 || a == 19226 || a == 19301 || a == 19308
  }

  /** These are all the scheduled accounts of the chart, by kind. */
  lemma ScheduledAccountsByKind(a: nat)
    ensures a in FIXTURE_CHART && FIXTURE_CHART[a].schedule.Some? <==> IsAsset(a) || IsLiability(a)
    ensures IsAsset(a) ==> FIXTURE_CHART[a].kind == Asset
    ensures IsLiability(a) ==> FIXTURE_CHART[a].kind == Liability
  {
  }

  const CHARGEBACK_RESERVE: nat := 19301
  const DEFERRED_INCOME: nat := 19308
  const PRODUCT_REMIT: nat := 19219
  const FLOORPLAN_NOTES: nat := 19102

  /** Reliefs of asset accounts are credits; whatever touches the chargeback reserve or deferred income has a memo too
      long for schedule-service, and so has whatever touches product remit but the product line itself. */
  predicate LegTraced(leg: Leg, debit: bool, t: EventType, memo: Memo) {
    && (IsAsset(leg.account) && leg.apply.Some? ==> !debit)
    && (leg.account == CHARGEBACK_RESERVE || leg.account == DEFERRED_INCOME ==> memo.own > OpenItems.DESCRIPTION_WIDTH)
    && (leg.account == PRODUCT_REMIT ==>
          memo.own > OpenItems.DESCRIPTION_WIDTH || (t.ProductLine? && !debit && leg.apply == Some(DealNumber)))
    && (leg.account == FLOORPLAN_NOTES ==>
          if debit then (t.FloorplanPayoff? || t.FloorplanCurtailment?) && leg.apply == Some(StockNumber)
          else (t.FloorplanAdvance? && leg.apply.None?) || (t.FloorplanWriteoff? && leg.apply == Some(StockNumber)))
  }

  predicate RowTraced(row: Row, t: EventType, memo: Memo) {
    LegTraced(row.debit, true, t, memo) && LegTraced(row.credit, false, t, memo)
  }

  lemma DealRowTraced(t: EventType)
    requires IsDeal(t) && HasOneRow(t)
    ensures RowTraced(DealRow(t), t, RowMemo(t))
  {
  }

  lemma FniRowTraced(t: EventType)
    requires IsFni(t)
    ensures RowTraced(FniRow(t), t, RowMemo(t))
  {
  }

  lemma RowsTraced(t: EventType, env: Envelope)
    ensures forall i | 0 <= i < |RequestedRows(t, env)| :: RowTraced(RequestedRows(t, env)[i], t, MemoOf(t, env))
  {
    if HasOneRow(t) {
      if IsFni(t) { FniRowTraced(t); } else if !IsFloorplan(t) { DealRowTraced(t); }
    }
  }

  /** What is known of an event that schedule-service is told of. */
  predicate Traced(ev: ScheduleEvent, t: EventType, env: Envelope) {
    && FixtureSchedule(ev.account) == Some(ev.schedule) && ev.amount != 0
    && ev.control == ControlText(env) && |ev.reference| <= REFERENCE_WIDTH
    && ev.description == MemoLength(MemoOf(t, env), env)
    && (IsAsset(ev.account) && ev.apply.Some? ==> ev.amount < 0)
    && (ev.account == CHARGEBACK_RESERVE || ev.account == DEFERRED_INCOME
      ==> ev.description > OpenItems.DESCRIPTION_WIDTH)
    && (ev.account == PRODUCT_REMIT ==>
          ev.description > OpenItems.DESCRIPTION_WIDTH || (t.ProductLine? && ev.apply == Marked(DealNumber, env)))
    && (ev.account == FLOORPLAN_NOTES ==>
          if ev.amount > 0 then (t.FloorplanPayoff? || t.FloorplanCurtailment?) && ev.apply == Marked(StockNumber, env)
          else ((t.FloorplanAdvance? && ev.apply.None?)
                || (t.FloorplanWriteoff? && ev.apply == Marked(StockNumber, env))))
  }

  /** The apply-to number that a field gives; an empty one is none. */
  function Marked(path: Field, env: Envelope): Option<string> {
    if TextAt(path, env) == "" then None else Some(TextAt(path, env))
  }

  lemma LegEventTraced(leg: Leg, cents: int, debit: bool, t: EventType, env: Envelope)
    requires cents > 0 && LegTraced(leg, debit, t, MemoOf(t, env))
    ensures forall ev | ev in LegEvents(leg, if debit then cents else -cents, t, env) :: Traced(ev, t, env)
  {
  }

  lemma {:induction false} RowsEventsTraced(rows: seq<Row>, t: EventType, env: Envelope)
    requires forall i | 0 <= i < |rows| :: Cents(rows[i].base, env) > 0 && RowTraced(rows[i], t, MemoOf(t, env))
    ensures forall ev | ev in RowsEvents(rows, t, env) :: Traced(ev, t, env)
  {
    if rows != [] {
      RowsEventsTraced(rows[1..], t, env);
      LegEventTraced(rows[0].debit, Cents(rows[0].base, env), true, t, env);
      LegEventTraced(rows[0].credit, Cents(rows[0].base, env), false, t, env);
    }
  }

  lemma EventIsTraced(e: Event)
    ensures forall ev | ev in EventsOf(FixtureRules, FIXTURE_CHART, e) :: Traced(ev, e.kind, e.payload)
  {
    EventTells(e);
    RowsTraced(e.kind, e.payload);
    RowsEventsTraced(PostedRows(e.kind, e.payload), e.kind, e.payload);
  }

  // ----- a run, delivered into an empty book -----

  function RunTells(es: seq<Event>): seq<ScheduleEvent> {
    Told(FixtureRules, FIXTURE_CHART, es)
  }

  lemma {:induction false} RunIsTraced(es: seq<Event>)
    ensures forall ev | ev in RunTells(es) :: exists k | 0 <= k < |es| :: Traced(ev, es[k].kind, es[k].payload)
  {
    if es != [] {
      RunIsTraced(es[1..]);
      EventIsTraced(es[0]);
      forall ev | ev in RunTells(es) ensures exists k | 0 <= k < |es| :: Traced(ev, es[k].kind, es[k].payload) {
        if ev in EventsOf(FixtureRules, FIXTURE_CHART, es[0]) {
          assert Traced(ev, es[0].kind, es[0].payload);
        } else {
          assert ev in RunTells(es[1..]);
          var k :| 0 <= k < |es[1..]| && Traced(ev, es[1..][k].kind, es[1..][k].payload);
          assert es[k + 1] == es[1..][k];
        }
      }
    }
  }

  /** The line as schedule-service receives it, in a journal entry of the given id and date. */
  function PostingOf(ev: ScheduleEvent, entry: string, date: int, correlation: nat): OpenItems.Posting {
    var mark := match ev.apply case None => OpenItems.Opening case Some(number) => OpenItems.ToItem(number);
    OpenItems.Posting(Some(ev.schedule), ev.account, ev.control, ev.reference, entry, ev.amount, date,
                      mark, correlation, ev.description)
  }

  /** Events in posting order, each with its own correlation id. */
  function Postings(evs: seq<ScheduleEvent>, entry: nat -> string, date: nat -> int,
    from: nat): seq<OpenItems.Posting> {
    if evs == [] then []
    else [PostingOf(evs[0], entry(from), date(from), from)] + Postings(evs[1..], entry, date, from + 1)
  }

  function RunPostings(es: seq<Event>, entry: nat -> string, date: nat -> int): seq<OpenItems.Posting> {
    Postings(RunTells(es), entry, date, 0)
  }

  const ALL_SCHEDULES: set<nat> := {85, 87, 88, 89, 90, 91, 92, 93, 94, 95, 96}

  const EMPTY := OpenItems.Book(ALL_SCHEDULES, [], [], [])

  function Deliver(es: seq<Event>, entry: nat -> string, date: nat -> int): OpenItems.Book {
    OpenItems.Run(EMPTY, RunPostings(es, entry, date))
  }

  lemma {:induction false} PostingsMatch(evs: seq<ScheduleEvent>, entry: nat -> string, date: nat -> int, from: nat)
    ensures var ps := Postings(evs, entry, date, from);
            |ps| == |evs| && forall i | 0 <= i < |ps| ::
              ps[i] == PostingOf(evs[i], entry(from + i), date(from + i), from + i)
    decreases |evs|
  {
    if evs != [] {
      var ps, rest := Postings(evs, entry, date, from), Postings(evs[1..], entry, date, from + 1);
      PostingsMatch(evs[1..], entry, date, from + 1);
      forall i | 0 < i < |evs| ensures ps[i] == PostingOf(evs[i], entry(from + i), date(from + i), from + i) {
        assert ps[i] == rest[i - 1] && evs[i] == evs[1..][i - 1] && from + 1 + (i - 1) == from + i;
      }
    }
  }

  lemma ScheduleIsKnown(a: nat)
    ensures FixtureSchedule(a).Some? ==> FixtureSchedule(a).value in ALL_SCHEDULES
  {
  }

  /** All lines of a run are new to an empty book, on known schedules, and none is a sweep. */
  lemma RunLinesAreFresh(es: seq<Event>, entry: nat -> string, date: nat -> int)
    ensures var ps := RunPostings(es, entry, date);
            OpenItems.FreshLines(EMPTY, ps) && forall p | p in ps :: !p.mark.OnAccount?
  {
    var ps := RunPostings(es, entry, date);
    PostingsMatch(RunTells(es), entry, date, 0);
    RunIsTraced(es);
    forall i | 0 <= i < |ps|
      ensures ps[i].schedule.Some? && ps[i].schedule.value in ALL_SCHEDULES && !ps[i].mark.OnAccount? {
      assert RunTells(es)[i] in RunTells(es);
      ScheduleIsKnown(RunTells(es)[i].account);
    }
    forall p | p in ps ensures !p.mark.OnAccount? { var i :| 0 <= i < |ps| && ps[i] == p; }
  }

  /** The texts of the event fit schedule-service's columns. */
  predicate Delivered(ev: ScheduleEvent) {
    OpenItems.FitsColumns(PostingOf(ev, "", 0, 0))
  }

  /** What went to the dead-letter exchange, on one account. */
  function Lost(evs: seq<ScheduleEvent>, a: nat): int {
    if evs == [] then 0
    else (if evs[0].account == a && !Delivered(evs[0]) then evs[0].amount else 0) + Lost(evs[1..], a)
  }

  lemma {:induction false} RecordedTotal(evs: seq<ScheduleEvent>, entry: nat -> string, date: nat -> int, from: nat,
    a: nat, s: nat)
    requires FixtureSchedule(a) == Some(s)
    requires forall ev | ev in evs :: FixtureSchedule(ev.account) == Some(ev.schedule)
    ensures OpenItems.DetailTotal(OpenItems.Fitting(Postings(evs, entry, date, from)), s)
      == EventSum(evs, a) - Lost(evs, a)
  {
    if evs != [] {
      RecordedTotal(evs[1..], entry, date, from + 1, a, s);
      var ps := Postings(evs, entry, date, from);
      assert evs[0] in evs && ps[1..] == Postings(evs[1..], entry, date, from + 1);
      assert OpenItems.FitsColumns(ps[0]) <==> Delivered(evs[0]);
      if Delivered(evs[0]) {
        assert OpenItems.Fitting(ps)[1..] == OpenItems.Fitting(ps[1..]);
      } else {
        assert OpenItems.Fitting(ps) == OpenItems.Fitting(ps[1..]);
      }
    }
  }

  /** On every run the recorded details of every scheduled account fall short of its balance in the general ledger by
      exactly what was dead-lettered, and by nothing else. */
  lemma {:induction false} DetailsMissExactlyWhatIsDeadLettered(es: seq<Event>, entry: nat -> string,
    date: nat -> int, a: nat, s: nat)
    requires FixtureSchedule(a) == Some(s) && IsFixtureNumber(a)
    ensures OpenItems.DetailTotal(Deliver(es, entry, date).details, s) == RunNet(es, a) - Lost(RunTells(es), a)
  {
    var ps := RunPostings(es, entry, date);
    RunLinesAreFresh(es, entry, date);
    OpenItems.FreshLinesAreRecorded(EMPTY, ps);
    assert [] + OpenItems.Fitting(ps) == OpenItems.Fitting(ps);
    RunIsTraced(es);
    RecordedTotal(RunTells(es), entry, date, 0, a, s);
    ToldTiesOutWithTheLedger(FixtureRules, FIXTURE_CHART, es, a);
  }

  // ----- schedules of asset accounts -----

  lemma SchedulesAreNotShared(a: nat, b: nat)
    requires FixtureSchedule(a).Some? && FixtureSchedule(a) == FixtureSchedule(b)
    ensures a == b
  {
  }

  lemma LineOnSchedule(ev: ScheduleEvent, p: OpenItems.Posting, t: EventType, env: Envelope, a: nat, s: nat)
    requires FixtureSchedule(a) == Some(s) && Traced(ev, t, env)
    requires p == PostingOf(ev, p.entry, p.date, p.correlation)
    ensures (p.schedule == Some(s) <==> ev.account == a) && (OpenItems.FitsColumns(p) <==> Delivered(ev))
      && p.amount != 0
    ensures IsAsset(a) && p.schedule == Some(s) ==> OpenItems.AssetLine(p)
  {
    if ev.schedule == s { SchedulesAreNotShared(a, ev.account); }
  }

  lemma LinesOnSchedule(es: seq<Event>, entry: nat -> string, date: nat -> int, a: nat, s: nat)
    requires FixtureSchedule(a) == Some(s)
    ensures var ps, evs := RunPostings(es, entry, date), RunTells(es);
            |ps| == |evs| && forall i | 0 <= i < |ps| ::
              && (ps[i].schedule == Some(s) <==> evs[i].account == a)
              && (OpenItems.FitsColumns(ps[i]) <==> Delivered(evs[i])) && ps[i].amount != 0
              && ps[i].amount == evs[i].amount && (ps[i].mark.Opening? <==> evs[i].apply.None?)
              && (IsAsset(a) && ps[i].schedule == Some(s) ==> OpenItems.AssetLine(ps[i]))
  {
    var ps, evs := RunPostings(es, entry, date), RunTells(es);
    PostingsMatch(evs, entry, date, 0);
    RunIsTraced(es);
    forall i | 0 <= i < |evs|
      ensures (ps[i].schedule == Some(s) <==> evs[i].account == a)
        && (OpenItems.FitsColumns(ps[i]) <==> Delivered(evs[i]))
      ensures ps[i].amount != 0 && (IsAsset(a) && ps[i].schedule == Some(s) ==> OpenItems.AssetLine(ps[i]))
    {
      assert evs[i] in evs;
      var k :| 0 <= k < |es| && Traced(evs[i], es[k].kind, es[k].payload);
      LineOnSchedule(evs[i], ps[i], es[k].kind, es[k].payload, a, s);
    }
  }

  /** Asset schedules, on every run: the open items never fall below what was delivered of the general ledger balance,
      and tie out with it exactly when no credit opened an item and every relief found its item with enough balance. */
  lemma {:induction false} AssetSchedulesTieOutExactlyWhenRelieved(es: seq<Event>, entry: nat -> string,
    date: nat -> int, a: nat, s: nat)
    requires IsAsset(a) && FixtureSchedule(a) == Some(s)
    ensures var items, delivered := Deliver(es, entry, date).items, RunNet(es, a) - Lost(RunTells(es), a);
            && OpenItems.Remaining(items, s) >= delivered
            && (OpenItems.Remaining(items, s) == delivered
              <==> OpenItems.AllRelieved(EMPTY, RunPostings(es, entry, date), s))
  {
    var ps := RunPostings(es, entry, date);
    DetailsMissExactlyWhatIsDeadLettered(es, entry, date, a, s);
    LinesOnSchedule(es, entry, date, a, s);
    forall p | p in ps && p.schedule == Some(s) ensures OpenItems.AssetLine(p) {
      var i :| 0 <= i < |ps| && ps[i] == p;
    }
    OpenItems.VarianceIsAccumulatedDrift(EMPTY, ps, s);
    OpenItems.AssetItemsTieOutExactlyWhenRelieved(EMPTY, ps, s);
  }

  lemma {:induction false} OrderlyLinesFit(before: seq<OpenItems.Posting>, ps: seq<OpenItems.Posting>, s: nat)
    requires OrderlyRelief.Orderly(before, ps, s)
    ensures forall i | 0 <= i < |ps| && ps[i].schedule == Some(s) :: OpenItems.FitsColumns(ps[i])
    decreases |ps|
  {
    if ps != [] { OrderlyLinesFit(before + [ps[0]], ps[1..], s); }
  }

  lemma {:induction false} NothingLost(evs: seq<ScheduleEvent>, a: nat)
    requires forall i | 0 <= i < |evs| && evs[i].account == a :: Delivered(evs[i])
    ensures Lost(evs, a) == 0
  {
    if evs != [] { NothingLost(evs[1..], a); }
  }

  /** If the lines of an asset account come in order (each number opened once, with a debit, every relief within what
      is left of it, all texts fitting), its open items equal its general ledger balance. */
  lemma {:induction false} OrderlyRunsTieOut(es: seq<Event>, entry: nat -> string, date: nat -> int, a: nat, s: nat)
    requires IsAsset(a) && FixtureSchedule(a) == Some(s)
    requires OrderlyRelief.Orderly([], RunPostings(es, entry, date), s)
    ensures OpenItems.Remaining(Deliver(es, entry, date).items, s) == RunNet(es, a)
  {
    var ps := RunPostings(es, entry, date);
    RunLinesAreFresh(es, entry, date);
    OrderlyRelief.OrderlyLinesAreAllRelieved(EMPTY, ps, s);
    AssetSchedulesTieOutExactlyWhenRelieved(es, entry, date, a, s);
    LinesOnSchedule(es, entry, date, a, s);
    OrderlyLinesFit([], ps, s);
    NothingLost(RunTells(es), a);
  }

  // ----- when a relief names the item that an opening opened -----

  /** At most eight characters and no white space around them. */
  predicate IsShortKey(key: string) {
    |key| <= REFERENCE_WIDTH && OpenItems.Trim(key) == key
  }

  /** Two lines of one account: the first opens an item for an event whose source entity is the key, the second applies
      to that key. The relief is about that very item exactly when both events carry the same document and the key is
      short. */
  lemma OpeningAndReliefMeet(key: string, opener: Event, opening: ScheduleEvent, reliever: Event, relief: ScheduleEvent,
                             entry: string, date: int, correlation: nat)
    requires opening in EventsOf(FixtureRules, FIXTURE_CHART, opener) && opening.apply.None?
    requires relief in EventsOf(FixtureRules, FIXTURE_CHART, reliever) && relief.apply == Some(key)
    requires opening.account == relief.account && TextAt(SourceEntityId, opener.payload) == key
    requires |entry| > TEXT_WIDTH && |key| <= TEXT_WIDTH && key != ""
    ensures var first, p := PostingOf(opening, entry, date, correlation), PostingOf(relief, entry, date, correlation);
            (OrderlyRelief.About(p, opening.schedule, first.control, OpenItems.ItemNumber(first))
             <==> ControlText(opener.payload) == ControlText(reliever.payload) && IsShortKey(key))
  {
    EventIsTraced(opener);
    EventIsTraced(reliever);
    EventTells(opener);
    ReferencesOf(PostedRows(opener.kind, opener.payload), opener.kind, opener.payload);
    OpenItems.TrimShortens(Truncate(key, REFERENCE_WIDTH));
  }

  lemma {:induction false} ReferencesOf(rows: seq<Row>, t: EventType, env: Envelope)
    ensures forall ev | ev in RowsEvents(rows, t, env) ::
      ev.reference == Truncate(TextAt(SourceEntityId, env), REFERENCE_WIDTH)
  {
    if rows != [] { ReferencesOf(rows[1..], t, env); }
  }

  // ----- schedules of liability accounts -----

  lemma {:induction false} FreshOpenings(b: OpenItems.Book, ps: seq<OpenItems.Posting>, s: nat)
    requires OpenItems.FreshLines(b, ps)
    ensures OpenItems.OnlyOpenings(b, ps, s)
       <==> forall i | 0 <= i < |ps| && ps[i].schedule == Some(s) && OpenItems.FitsColumns(ps[i]) ::
         OpenItems.OpensLiability(ps[i])
    decreases |ps|
  {
    if ps != [] {
      OpenItems.FreshStep(b, ps);
      FreshOpenings(OpenItems.Step(b, ps[0]), ps[1..], s);
      var rest := ps[1..];
      assert forall i | 1 <= i < |ps| :: ps[i] == rest[i - 1];
    }
  }

  /** A delivered line of the account that does anything but open a liability. */
  predicate Disturbs(ev: ScheduleEvent, a: nat) {
    ev.account == a && Delivered(ev) && (ev.apply.Some? || ev.amount > 0)
  }

  /** Liability schedules, on every run: the open items exceed the credit balance delivered by the accumulated excess;
      they tie out at every point exactly when no delivered line of the account is a relief, a write-off or any
      other debit. */
  lemma {:induction false} LiabilitySchedulesTieOutThroughoutExactlyWithOnlyOpenings(
      es: seq<Event>, entry: nat -> string, date: nat -> int, a: nat, s: nat)
    requires IsLiability(a) && FixtureSchedule(a) == Some(s)
    ensures var items, ps := Deliver(es, entry, date).items, RunPostings(es, entry, date);
            && OpenItems.Remaining(items, s)
              == -(RunNet(es, a) - Lost(RunTells(es), a)) + OpenItems.RunExcess(EMPTY, ps, s)
            && (OpenItems.TiesThroughout(EMPTY, ps, s) <==> forall ev | ev in RunTells(es) :: !Disturbs(ev, a))
  {
    var ps, evs := RunPostings(es, entry, date), RunTells(es);
    DetailsMissExactlyWhatIsDeadLettered(es, entry, date, a, s);
    OpenItems.ExcessIsAccumulated(EMPTY, ps, s);
    OpenItems.TiesThroughoutExactlyWithOnlyOpenings(EMPTY, ps, s);
    RunLinesAreFresh(es, entry, date);
    FreshOpenings(EMPTY, ps, s);
    LinesOnSchedule(es, entry, date, a, s);
    forall i | 0 <= i < |ps|
      ensures (ps[i].schedule == Some(s) && OpenItems.FitsColumns(ps[i]) ==> OpenItems.OpensLiability(ps[i]))
        <==> !Disturbs(evs[i], a)
    {
    }
    forall i | 0 <= i < |evs| ensures evs[i] in evs {}
  }

  lemma LinesAreNotZero(es: seq<Event>, entry: nat -> string, date: nat -> int)
    ensures forall p | p in RunPostings(es, entry, date) :: p.amount != 0
  {
    PostingsMatch(RunTells(es), entry, date, 0);
    RunIsTraced(es);
    var ps, evs := RunPostings(es, entry, date), RunTells(es);
    forall p | p in ps ensures p.amount != 0 {
      var i :| 0 <= i < |ps| && ps[i] == p;
      assert evs[i] in evs;
    }
  }

  /** On any schedule the items keep their original amounts throughout a run exactly when no credit application, such as
      a write-off, ever reaches one, and by the lines themselves exactly when no credit is applied to a number that
      exactly one line before it opened, within that line's amount. Reliefs on their own never lower an item. */
  lemma {:induction false} LiabilityItemsAreUntouchedExactlyWhenNoneLowers(es: seq<Event>, entry: nat -> string,
    date: nat -> int, s: nat)
    ensures var ps := RunPostings(es, entry, date);
            && (OpenItems.UntouchedThroughout(EMPTY, ps, s) <==> OpenItems.NoneLowers(EMPTY, ps, s))
            && (OpenItems.UntouchedThroughout(EMPTY, ps, s) <==> UntouchedItems.NoneWritesDown([], ps, s))
  {
    RunLinesAreFresh(es, entry, date);
    LinesAreNotZero(es, entry, date);
    OpenItems.UntouchedExactlyWhenNoneLowers(EMPTY, RunPostings(es, entry, date), s);
    UntouchedItems.UntouchedExactlyWhenNoneWritesDown(EMPTY, RunPostings(es, entry, date), s);
  }

  // ----- schedules that stay empty -----

  lemma {:induction false} AllLost(evs: seq<ScheduleEvent>, a: nat)
    requires forall i | 0 <= i < |evs| && evs[i].account == a :: !Delivered(evs[i])
    ensures Lost(evs, a) == EventSum(evs, a)
  {
    if evs != [] { AllLost(evs[1..], a); }
  }

  lemma {:induction false} FreshNoneOpens(b: OpenItems.Book, ps: seq<OpenItems.Posting>, s: nat)
    requires OpenItems.FreshLines(b, ps)
    ensures OpenItems.NoneOpens(b, ps, s)
       <==> forall i | 0 <= i < |ps| && ps[i].schedule == Some(s) && OpenItems.FitsColumns(ps[i]) ::
         !ps[i].mark.Opening?
    decreases |ps|
  {
    if ps != [] {
      OpenItems.FreshStep(b, ps);
      FreshNoneOpens(OpenItems.Step(b, ps[0]), ps[1..], s);
      var rest := ps[1..];
      assert forall i | 1 <= i < |ps| :: ps[i] == rest[i - 1];
    }
  }

  /** A schedule gets an item exactly when a delivered line of its account opens one. */
  lemma {:induction false} ScheduleStaysEmptyExactly(es: seq<Event>, entry: nat -> string, date: nat -> int, a: nat,
    s: nat)
    requires FixtureSchedule(a) == Some(s)
    ensures OpenItems.NoItems(Deliver(es, entry, date).items, s)
       <==> forall ev | ev in RunTells(es) && ev.account == a && Delivered(ev) :: ev.apply.Some?
    ensures OpenItems.NoItems(Deliver(es, entry, date).items, s)
      ==> OpenItems.Remaining(Deliver(es, entry, date).items, s) == 0
  {
    var ps, evs := RunPostings(es, entry, date), RunTells(es);
    RunLinesAreFresh(es, entry, date);
    FreshNoneOpens(EMPTY, ps, s);
    OpenItems.NoItemsExactlyWhenNoneOpens(EMPTY, ps, s);
    LinesOnSchedule(es, entry, date, a, s);
    forall i | 0 <= i < |evs| ensures evs[i] in evs {}
  }

  /** The chargeback reserve and deferred income are never told to schedule-service by the packs: their memos are too
      long for it. On every run schedules 95 and 96 have no item and no detail, whatever the general ledger says. */
  lemma {:induction false} ChargebackAndDeferralSchedulesStayEmpty(es: seq<Event>, entry: nat -> string,
    date: nat -> int, a: nat, s: nat)
    requires (a == CHARGEBACK_RESERVE && s == 95) || (a == DEFERRED_INCOME && s == 96)
    ensures var book := Deliver(es, entry, date);
            && OpenItems.NoItems(book.items, s) && OpenItems.Remaining(book.items, s) == 0
            && OpenItems.DetailTotal(book.details, s) == 0
            && Lost(RunTells(es), a) == RunNet(es, a)
  {
    var evs := RunTells(es);
    RunIsTraced(es);
    forall i | 0 <= i < |evs| && evs[i].account == a ensures !Delivered(evs[i]) { assert evs[i] in evs; }
    AllLost(evs, a);
    ScheduleStaysEmptyExactly(es, entry, date, a, s);
    ToldTiesOutWithTheLedger(FixtureRules, FIXTURE_CHART, es, a);
    DetailsMissExactlyWhatIsDeadLettered(es, entry, date, a, s);
  }

  // ----- product remit and floorplan notes, by the events themselves -----

  /** The texts of an event's line fit schedule-service's columns, given its apply-to number. */
  predicate TextsDelivered(e: Event, apply: string) {
    && |ControlText(e.payload)| <= OpenItems.CONTROL_WIDTH && |apply| <= OpenItems.APPLY_WIDTH
    && MemoLength(MemoOf(e.kind, e.payload), e.payload) <= OpenItems.DESCRIPTION_WIDTH
  }

  /** A posted and delivered product line that names no deal. */
  predicate OpensProductRemit(e: Event) {
    e.kind.ProductLine? && PostedRows(e.kind, e.payload) != [] && TextAt(DealNumber, e.payload) == ""
      && TextsDelivered(e, "")
  }

  lemma {:induction false} OneRowTells(row: Row, t: EventType, env: Envelope)
    ensures RowsEvents([row], t, env) == RowEvents(row, Cents(row.base, env), t, env)
  {
    assert [row][1..] == [] && RowsEvents([], t, env) == [];
  }

  lemma {:induction false} TwoRowsTell(first: Row, second: Row, t: EventType, env: Envelope)
    ensures RowsEvents([first, second], t, env)
         == RowEvents(first, Cents(first.base, env), t, env) + RowEvents(second, Cents(second.base, env), t, env)
  {
    assert [first, second][1..] == [second];
    OneRowTells(second, t, env);
  }

  const INCOME_ROW := Row(On(19200), On(19218), CustomerPriceAmount)
  const REMIT_ROW := Row(On(19220), Leg(PRODUCT_REMIT, Some(ProductControlRef), Some(DealNumber)), ProviderCostAmount)

  lemma ProductLineRowsOf(e: Event)
    requires e.kind.ProductLine? && PostedRows(e.kind, e.payload) != []
    ensures PostedRows(e.kind, e.payload) == [INCOME_ROW, REMIT_ROW]
  {
  }

  lemma ProductLegsTell(e: Event, price: int, cost: int)
    requires e.kind.ProductLine?
    ensures RowEvents(INCOME_ROW, price, e.kind, e.payload) == [LegEvent(INCOME_ROW.debit, price, e.kind, e.payload)]
    ensures RowEvents(REMIT_ROW, cost, e.kind, e.payload) == [LegEvent(REMIT_ROW.credit, -cost, e.kind, e.payload)]
    ensures var remit := LegEvent(REMIT_ROW.credit, -cost, e.kind, e.payload);
            && remit.apply == Marked(DealNumber, e.payload)
            && (Delivered(remit) <==> TextsDelivered(e, TextAt(DealNumber, e.payload)))
  {
  }

  lemma ProductLineTells(e: Event)
    requires e.kind.ProductLine? && PostedRows(e.kind, e.payload) != []
    ensures var evs := EventsOf(FixtureRules, FIXTURE_CHART, e);
            |evs| == 2 && evs[0].account == 19200 && evs[1].account == PRODUCT_REMIT
              && evs[1].apply == Marked(DealNumber, e.payload)
            && (Delivered(evs[1]) <==> TextsDelivered(e, TextAt(DealNumber, e.payload)))
  {
    var t, env := e.kind, e.payload;
    EventTells(e);
    ProductLineRowsOf(e);
    TwoRowsTell(INCOME_ROW, REMIT_ROW, t, env);
    ProductLegsTell(e, Cents(INCOME_ROW.base, env), Cents(REMIT_ROW.base, env));
  }

  lemma OpensRemitExactly(e: Event)
    ensures (exists ev | ev in EventsOf(FixtureRules, FIXTURE_CHART, e) ::
      ev.account == PRODUCT_REMIT && Delivered(ev) && ev.apply.None?)
       <==> OpensProductRemit(e)
  {
    EventIsTraced(e);
    if e.kind.ProductLine? && PostedRows(e.kind, e.payload) != [] {
      ProductLineTells(e);
      var evs := EventsOf(FixtureRules, FIXTURE_CHART, e);
      assert evs[1] in evs;
    } else {
      EventTells(e);
    }
  }

  /** A line of a run is a line of one of its events. */
  lemma {:induction false} RunTellsEach(es: seq<Event>, ev: ScheduleEvent)
    ensures ev in RunTells(es) <==> exists k | 0 <= k < |es| :: ev in EventsOf(FixtureRules, FIXTURE_CHART, es[k])
  {
    if es != [] {
      RunTellsEach(es[1..], ev);
      if ev in RunTells(es[1..]) {
        var k :| 0 <= k < |es[1..]| && ev in EventsOf(FixtureRules, FIXTURE_CHART, es[1..][k]);
        assert es[k + 1] == es[1..][k];
      }
      if k :| 0 <= k < |es| && ev in EventsOf(FixtureRules, FIXTURE_CHART, es[k]) {
        assert k > 0 ==> es[1..][k - 1] == es[k];
      }
    }
  }

  /** The product-remit schedule stays empty exactly when no product line without a deal number is posted and delivered:
      even the line that books the provider cost is marked as an application to the deal. */
  lemma ProductRemitScheduleStaysEmptyExactly(es: seq<Event>, entry: nat -> string, date: nat -> int)
    ensures OpenItems.NoItems(Deliver(es, entry, date).items, 94)
      <==> forall k | 0 <= k < |es| :: !OpensProductRemit(es[k])
  {
    ScheduleStaysEmptyExactly(es, entry, date, PRODUCT_REMIT, 94);
    if ev :| ev in RunTells(es) && ev.account == PRODUCT_REMIT && Delivered(ev) && ev.apply.None? {
      RunTellsEach(es, ev);
      var k :| 0 <= k < |es| && ev in EventsOf(FixtureRules, FIXTURE_CHART, es[k]);
      OpensRemitExactly(es[k]);
    }
    if k :| 0 <= k < |es| && OpensProductRemit(es[k]) {
      OpensRemitExactly(es[k]);
      var ev :| ev in EventsOf(FixtureRules, FIXTURE_CHART, es[k]) && ev.account == PRODUCT_REMIT && Delivered(ev)
        && ev.apply.None?;
      RunTellsEach(es, ev);
    }
  }

  /** The event relieves the notes, or writes off against a unit, in texts that are delivered. */
  predicate AppliesToNotes(e: Event) {
    && TextsDelivered(e, TextAt(StockNumber, e.payload))
    && (e.kind.FloorplanPayoff? || e.kind.FloorplanCurtailment?
      || (e.kind.FloorplanWriteoff? && TextAt(StockNumber, e.payload) != ""))
  }

  predicate DisturbsNotes(e: Event) {
    PostedRows(e.kind, e.payload) != [] && AppliesToNotes(e)
  }

  predicate TouchesNotes(t: EventType) {
    t.FloorplanAdvance? || t.FloorplanPayoff? || t.FloorplanWriteoff? || t.FloorplanCurtailment?
  }

  function NotesLeg(t: EventType): Leg
    requires TouchesNotes(t)
  {
    if t.FloorplanAdvance? || t.FloorplanWriteoff? then FloorplanRow(t).credit else FloorplanRow(t).debit
  }

  lemma NotesRowTells(t: EventType, cents: int, env: Envelope)
    requires TouchesNotes(t)
    ensures RowEvents(FloorplanRow(t), cents, t, env)
         == [LegEvent(NotesLeg(t), if t.FloorplanAdvance? || t.FloorplanWriteoff? then -cents else cents, t, env)]
    ensures NotesLeg(t).account == FLOORPLAN_NOTES
    ensures NotesLeg(t).apply == if t.FloorplanAdvance? then None else Some(StockNumber)
  {
  }

  lemma FloorplanTells(e: Event)
    requires TouchesNotes(e.kind) && PostedRows(e.kind, e.payload) != []
    ensures var evs := EventsOf(FixtureRules, FIXTURE_CHART, e);
            |evs| == 1 && evs[0].account == FLOORPLAN_NOTES
            && (e.kind.FloorplanAdvance? || (Delivered(evs[0]) <==> TextsDelivered(e, TextAt(StockNumber, e.payload))))
  {
    var t, env := e.kind, e.payload;
    EventTells(e);
    assert PostedRows(t, env) == [FloorplanRow(t)];
    OneRowTells(FloorplanRow(t), t, env);
    NotesRowTells(t, Cents(FloorplanRow(t).base, env), env);
  }

  lemma NotesLineDisturbsExactly(e: Event, ev: ScheduleEvent)
    requires TouchesNotes(e.kind) && Traced(ev, e.kind, e.payload) && ev.account == FLOORPLAN_NOTES
    requires e.kind.FloorplanAdvance? || (Delivered(ev) <==> TextsDelivered(e, TextAt(StockNumber, e.payload)))
    ensures Disturbs(ev, FLOORPLAN_NOTES) <==> AppliesToNotes(e)
  {
  }

  lemma DisturbsNotesExactly(e: Event)
    ensures (exists ev | ev in EventsOf(FixtureRules, FIXTURE_CHART, e) :: Disturbs(ev, FLOORPLAN_NOTES))
      <==> DisturbsNotes(e)
  {
    EventIsTraced(e);
    var evs := EventsOf(FixtureRules, FIXTURE_CHART, e);
    if PostedRows(e.kind, e.payload) == [] {
      EventTells(e);
      assert evs == [];
    } else if TouchesNotes(e.kind) {
      FloorplanTells(e);
      assert evs[0] in evs && evs == [evs[0]];
      NotesLineDisturbsExactly(e, evs[0]);
    } else {
      assert forall ev | ev in evs :: ev.account != FLOORPLAN_NOTES;
    }
  }

  /** Floorplan notes, write-offs included: the open items tie out with the notes delivered at every point of a run
      exactly when no payoff, no curtailment and no write-off of a named unit is posted and delivered. */
  lemma FloorplanNotesTieOutThroughoutExactly(es: seq<Event>, entry: nat -> string, date: nat -> int)
    ensures OpenItems.TiesThroughout(EMPTY, RunPostings(es, entry, date), 85)
      <==> forall k | 0 <= k < |es| :: !DisturbsNotes(es[k])
  {
    LiabilitySchedulesTieOutThroughoutExactlyWithOnlyOpenings(es, entry, date, FLOORPLAN_NOTES, 85);
    if ev :| ev in RunTells(es) && Disturbs(ev, FLOORPLAN_NOTES) {
      RunTellsEach(es, ev);
      var k :| 0 <= k < |es| && ev in EventsOf(FixtureRules, FIXTURE_CHART, es[k]);
      DisturbsNotesExactly(es[k]);
    }
    if k :| 0 <= k < |es| && DisturbsNotes(es[k]) {
      DisturbsNotesExactly(es[k]);
      var ev :| ev in EventsOf(FixtureRules, FIXTURE_CHART, es[k]) && Disturbs(ev, FLOORPLAN_NOTES);
      RunTellsEach(es, ev);
    }
  }
}
