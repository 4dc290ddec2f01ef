/** Floorplan notes by unit: which events of a run lower an open item. */
module FloorplanUnits {
  import opened Sums
  import opened PostingDsl
  import opened RulePacks
  import opened Ledger
  import opened FixturePacks
  import opened LedgerRuns
  import opened ScheduleRuns
  import OpenItems
  import opened UntouchedItems

  const NOTES_SCHEDULE: nat := 85

  /** The event posts a line of the notes account. */
  predicate PostsNotes(e: Event) {
    TouchesNotes(e.kind) && PostedRows(e.kind, e.payload) != []
  }

  /** The stock number the line applies to; an advance applies to none. */
  function StockOf(e: Event): string {
    if e.kind.FloorplanAdvance? then "" else TextAt(StockNumber, e.payload)
  }

  function UnitCents(e: Event): int {
    Cents(Amount, e.payload)
  }

  /** The line the event tells schedule-service of. */
  function NotesEvent(e: Event): ScheduleEvent
    requires TouchesNotes(e.kind)
  {
    var credit := e.kind.FloorplanAdvance? || e.kind.FloorplanWriteoff?;
    LegEvent(NotesLeg(e.kind), if credit then -UnitCents(e) else UnitCents(e), e.kind, e.payload)
  }

  /** The event opens an item under the control number and stock number: its line is delivered, names no unit to apply
      to, and its source entity, cut to eight characters and trimmed, is that number. */
  predicate OpensUnit(e: Event, control: string, stock: string) {
    && PostsNotes(e) && StockOf(e) == "" && TextsDelivered(e, "") && ControlText(e.payload) == control
    && OpenItems.Trim(Truncate(TextAt(SourceEntityId, e.payload), REFERENCE_WIDTH)) == stock
  }

  function OpenerOf(e: Event, control: string, stock: string): seq<Event> {
    if OpensUnit(e, control, stock) then [e] else []
  }

  function Openers(es: seq<Event>, control: string, stock: string): seq<Event> {
    if es == [] then [] else OpenerOf(es[0], control, stock) + Openers(es[1..], control, stock)
  }

  /** A posted and delivered write-off of a unit that exactly one event before it opened under the same document, for no
      more than that event's amount. */
  predicate WritesDownUnit(before: seq<Event>, e: Event) {
    && PostsNotes(e) && e.kind.FloorplanWriteoff? && StockOf(e) != "" && TextsDelivered(e, StockOf(e))
    && var openers := Openers(before, ControlText(e.payload), StockOf(e));
       |openers| == 1 && UnitCents(e) <= UnitCents(openers[0])
  }

  /** gl-service's entry ids are longer than any apply-to number that is delivered. */
  ghost predicate LongEntryIds(entry: nat -> string) {
    forall i :: |entry(i)| > OpenItems.APPLY_WIDTH
  }

  // ----- one event -----

  lemma NotesRow(e: Event)
    requires PostsNotes(e)
    ensures PostedRows(e.kind, e.payload) == [FloorplanRow(e.kind)]
    ensures FloorplanRow(e.kind).base == Amount && UnitCents(e) > 0
  {
    assert RequestedRows(e.kind, e.payload) == [FloorplanRow(e.kind)];
    assert RequestedRows(e.kind, e.payload)[0] == FloorplanRow(e.kind);
  }

  lemma NotesTexts(e: Event)
    requires TouchesNotes(e.kind)
    ensures var ev := NotesEvent(e);
            && ev.account == FLOORPLAN_NOTES && ev.schedule == NOTES_SCHEDULE && ev.control == ControlText(e.payload)
            && ev.reference == Truncate(TextAt(SourceEntityId, e.payload), REFERENCE_WIDTH)
            && ev.apply == (if StockOf(e) == "" then None else Some(StockOf(e)))
            && (Delivered(ev) <==> TextsDelivered(e, StockOf(e)))
  {
    NotesRowTells(e.kind, UnitCents(e), e.payload);
  }

  lemma NotesEventTold(e: Event)
    requires PostsNotes(e)
    ensures EventsOf(FixtureRules, FIXTURE_CHART, e) == [NotesEvent(e)]
  {
    EventTells(e);
    NotesRow(e);
    NotesRowIsTold(e);
  }

  lemma NotesRowIsTold(e: Event)
    requires TouchesNotes(e.kind) && FloorplanRow(e.kind).base == Amount
    ensures RowsEvents([FloorplanRow(e.kind)], e.kind, e.payload) == [NotesEvent(e)]
  {
    OneRowTells(FloorplanRow(e.kind), e.kind, e.payload);
    NotesRowTells(e.kind, UnitCents(e), e.payload);
  }

  lemma OtherEventsTellNothing(e: Event)
    requires !PostsNotes(e)
    ensures forall ev | ev in EventsOf(FixtureRules, FIXTURE_CHART, e) :: ev.schedule != NOTES_SCHEDULE
  {
    EventTells(e);
    EventIsTraced(e);
    forall ev | ev in EventsOf(FixtureRules, FIXTURE_CHART, e) ensures ev.schedule != NOTES_SCHEDULE {
      if ev.schedule == NOTES_SCHEDULE { SchedulesAreNotShared(ev.account, FLOORPLAN_NOTES); }
    }
  }

  lemma {:induction false} OtherLinesDoNothing(
      evs: seq<ScheduleEvent>, before: seq<OpenItems.Posting>, entry: nat -> string, date: nat -> int, from: nat)
    requires forall ev | ev in evs :: ev.schedule != NOTES_SCHEDULE
    ensures var ps := Postings(evs, entry, date, from);
            && NoneWritesDown(before, ps, NOTES_SCHEDULE)
            && forall c, n :: OpeningsOf(ps, NOTES_SCHEDULE, c, n) == []
    decreases |evs|
  {
    if evs != [] {
      var ps := Postings(evs, entry, date, from);
      assert evs[0] in evs && ps[1..] == Postings(evs[1..], entry, date, from + 1);
      OtherLinesDoNothing(evs[1..], before + [ps[0]], entry, date, from + 1);
    }
  }

  /** The openings of the notes schedule among the lines are those of the events, with their amounts. */
  predicate SameOpenings(openings: seq<OpenItems.Posting>, openers: seq<Event>) {
    |openings| == |openers| && forall i | 0 <= i < |openings| :: Abs(openings[i].amount) == UnitCents(openers[i])
  }

  ghost predicate Follows(lines: seq<OpenItems.Posting>, es: seq<Event>) {
    forall c, n | 0 < |n| <= OpenItems.APPLY_WIDTH ::
      SameOpenings(OpeningsOf(lines, NOTES_SCHEDULE, c, n), Openers(es, c, n))
  }

  lemma {:induction false} OpenersAppend(xs: seq<Event>, ys: seq<Event>, control: string, stock: string)
    ensures Openers(xs + ys, control, stock) == Openers(xs, control, stock) + Openers(ys, control, stock)
  {
    if xs == [] {
      assert xs + ys == ys;
    } else {
      assert (xs + ys)[1..] == xs[1..] + ys && (xs + ys)[0] == xs[0];
      OpenersAppend(xs[1..], ys, control, stock);
      var first, rest, more := OpenerOf(xs[0], control, stock), Openers(xs[1..], control, stock),
                               Openers(ys, control, stock);
      assert first + (rest + more) == first + rest + more;
    }
  }

  lemma {:induction false} OpenersSnoc(es: seq<Event>, e: Event, control: string, stock: string)
    ensures Openers(es + [e], control, stock)
         == Openers(es, control, stock) + if OpensUnit(e, control, stock) then [e] else []
  {
    OpenersAppend(es, [e], control, stock);
    assert [e][1..] == [];
  }

  function EventPostings(e: Event, entry: nat -> string, date: nat -> int, from: nat): seq<OpenItems.Posting> {
    Postings(EventsOf(FixtureRules, FIXTURE_CHART, e), entry, date, from)
  }

  lemma NotesLine(e: Event, entry: nat -> string, date: nat -> int, from: nat)
    requires PostsNotes(e) && LongEntryIds(entry)
    ensures EventPostings(e, entry, date, from) == [PostingOf(NotesEvent(e), entry(from), date(from), from)]
    ensures var p := PostingOf(NotesEvent(e), entry(from), date(from), from);
            && p.schedule == Some(NOTES_SCHEDULE) && p.control == ControlText(e.payload)
            && (OpenItems.FitsColumns(p) <==> TextsDelivered(e, StockOf(e)))
            && p.mark == (if StockOf(e) == "" then OpenItems.Opening else OpenItems.ToItem(StockOf(e)))
            && Abs(p.amount) == UnitCents(e) > 0
            && (p.amount < 0 <==> e.kind.FloorplanAdvance? || e.kind.FloorplanWriteoff?)
            && forall c, n | 0 < |n| <= OpenItems.APPLY_WIDTH ::
                 OpensNumber(p, NOTES_SCHEDULE, c, n) <==> OpensUnit(e, c, n)
  {
    NotesEventTold(e);
    NotesRow(e);
    NotesTexts(e);
    var ev := NotesEvent(e);
    assert [ev][1..] == [] && Postings([], entry, date, from + 1) == [];
    var p := PostingOf(ev, entry(from), date(from), from);
    assert OpenItems.FitsColumns(p) <==> Delivered(ev);
  }

  lemma {:induction false} EventWritesDownExactly(
      lines: seq<OpenItems.Posting>, done: seq<Event>, e: Event, entry: nat -> string, date: nat -> int, from: nat)
    requires Follows(lines, done) && LongEntryIds(entry)
    ensures NoneWritesDown(lines, EventPostings(e, entry, date, from), NOTES_SCHEDULE) <==> !WritesDownUnit(done, e)
    ensures Follows(lines + EventPostings(e, entry, date, from), done + [e])
  {
    var ps := EventPostings(e, entry, date, from);
    if PostsNotes(e) {
      NotesLine(e, entry, date, from);
      OneLineWritesDown(lines, done, e, ps[0]);
      forall c, n | 0 < |n| <= OpenItems.APPLY_WIDTH
        ensures SameOpenings(OpeningsOf(lines + ps, NOTES_SCHEDULE, c, n), Openers(done + [e], c, n))
      {
        OpeningsSnoc(lines, ps[0], NOTES_SCHEDULE, c, n);
        OpenersSnoc(done, e, c, n);
        assert SameOpenings(OpeningsOf(lines, NOTES_SCHEDULE, c, n), Openers(done, c, n));
      }
    } else {
      OtherEventsTellNothing(e);
      OtherLinesDoNothing(EventsOf(FixtureRules, FIXTURE_CHART, e), lines, entry, date, from);
      forall c, n | 0 < |n| <= OpenItems.APPLY_WIDTH
        ensures SameOpenings(OpeningsOf(lines + ps, NOTES_SCHEDULE, c, n), Openers(done + [e], c, n))
      {
        OpeningsAppend(lines, ps, NOTES_SCHEDULE, c, n);
        OpenersSnoc(done, e, c, n);
      }
    }
  }

  lemma {:induction false} OneLineWritesDown(lines: seq<OpenItems.Posting>, done: seq<Event>, e: Event,
    p: OpenItems.Posting)
    requires Follows(lines, done) && PostsNotes(e)
    requires p.schedule == Some(NOTES_SCHEDULE) && p.control == ControlText(e.payload)
    requires OpenItems.FitsColumns(p) <==> TextsDelivered(e, StockOf(e))
    requires p.mark == if StockOf(e) == "" then OpenItems.Opening else OpenItems.ToItem(StockOf(e))
    requires Abs(p.amount) == UnitCents(e) > 0
    requires p.amount < 0 <==> e.kind.FloorplanAdvance? || e.kind.FloorplanWriteoff?
    ensures NoneWritesDown(lines, [p], NOTES_SCHEDULE) <==> !WritesDownUnit(done, e)
  {
    assert [p][1..] == [] && NoneWritesDown(lines + [p], [], NOTES_SCHEDULE);
    if StockOf(e) != "" && TextsDelivered(e, StockOf(e)) {
      assert SameOpenings(OpeningsOf(lines, NOTES_SCHEDULE, p.control, StockOf(e)),
                          Openers(done, p.control, StockOf(e)));
    }
  }

  // ----- whole runs -----

  predicate NoneWritesDownUnit(done: seq<Event>, es: seq<Event>)
    decreases |es|
  {
    es == [] || (!WritesDownUnit(done, es[0]) && NoneWritesDownUnit(done + [es[0]], es[1..]))
  }

  lemma {:induction false} PostingsAppend(
      xs: seq<ScheduleEvent>, ys: seq<ScheduleEvent>, entry: nat -> string, date: nat -> int, from: nat)
    ensures Postings(xs + ys, entry, date, from)
         == Postings(xs, entry, date, from) + Postings(ys, entry, date, from + |xs|)
    decreases |xs|
  {
    if xs == [] {
      assert xs + ys == ys;
    } else {
      assert (xs + ys)[1..] == xs[1..] + ys;
      PostingsAppend(xs[1..], ys, entry, date, from + 1);
    }
  }

  lemma {:induction false} RunWritesDownExactly(lines: seq<OpenItems.Posting>, done: seq<Event>, es: seq<Event>,
                                                entry: nat -> string, date: nat -> int, from: nat)
    requires Follows(lines, done) && LongEntryIds(entry)
    ensures NoneWritesDown(lines, Postings(RunTells(es), entry, date, from), NOTES_SCHEDULE)
       <==> NoneWritesDownUnit(done, es)
    decreases |es|
  {
    if es != [] {
      var evs := EventsOf(FixtureRules, FIXTURE_CHART, es[0]);
      var ps, rest := Postings(evs, entry, date, from), Postings(RunTells(es[1..]), entry, date, from + |evs|);
      EventWritesDownExactly(lines, done, es[0], entry, date, from);
      PostingsAppend(evs, RunTells(es[1..]), entry, date, from);
      NoneWritesDownAppend(lines, ps, rest, NOTES_SCHEDULE);
      RunWritesDownExactly(lines + ps, done + [es[0]], es[1..], entry, date, from + |evs|);
    }
  }

  lemma {:induction false} NoneWritesDownAtAll(done: seq<Event>, es: seq<Event>)
    ensures NoneWritesDownUnit(done, es) <==> forall k | 0 <= k < |es| :: !WritesDownUnit(done + es[..k], es[k])
    decreases |es|
  {
    if es != [] {
      var rest := es[1..];
      NoneWritesDownAtAll(done + [es[0]], rest);
      assert done + es[..0] == done;
      forall k | 0 <= k < |rest| ensures done + [es[0]] + rest[..k] == done + es[..k + 1] && rest[k] == es[k + 1] {
        assert es[..k + 1] == [es[0]] + rest[..k];
      }
      assert forall k | 1 <= k < |es| :: done + es[..k] == done + [es[0]] + rest[..k - 1] && es[k] == rest[k - 1];
    }
  }

  /** The items of floorplan notes keep their original amounts throughout a run exactly when no write-off is posted and
      delivered for a unit that exactly one event before it opened under the same document, within that amount. */
  lemma NotesAreUntouchedExactlyWhenNoUnitIsWrittenDown(es: seq<Event>, entry: nat -> string, date: nat -> int)
    requires LongEntryIds(entry)
    ensures OpenItems.UntouchedThroughout(EMPTY, RunPostings(es, entry, date), NOTES_SCHEDULE)
       <==> forall k | 0 <= k < |es| :: !WritesDownUnit(es[..k], es[k])
  {
    LiabilityItemsAreUntouchedExactlyWhenNoneLowers(es, entry, date, NOTES_SCHEDULE);
    RunWritesDownExactly([], [], es, entry, date, 0);
    NoneWritesDownAtAll([], es);
    assert forall k | 0 <= k < |es| :: [] + es[..k] == es[..k];
  }
}
