/** When the items of a liability schedule keep their original amounts: a condition on the posted lines alone. */
module UntouchedItems {
  import opened Sums
  import opened OpenItems

  /** The line opens an item of this control and item number. */
  predicate OpensNumber(p: Posting, schedule: nat, control: string, number: string) {
    p.schedule == Some(schedule) && p.mark.Opening? && FitsColumns(p) && p.control == control && ItemNumber(p) == number
  }

  /** The lines that opened an item of this number, in order. */
  function OpeningsOf(ps: seq<Posting>, schedule: nat, control: string, number: string): seq<Posting> {
    if ps == [] then [] else
      (if OpensNumber(ps[0], schedule, control, number) then [ps[0]] else [])
        + OpeningsOf(ps[1..], schedule, control, number)
  }

  /** After the lines before it, the line is a credit applied to a number that exactly one line has opened, for no more
      than that line's amount. */
  predicate WritesDown(before: seq<Posting>, p: Posting, schedule: nat) {
    && p.schedule == Some(schedule) && FitsColumns(p) && p.mark.ToItem? && p.amount < 0
    && var openings := OpeningsOf(before, schedule, p.control, p.mark.number);
       |openings| == 1 && -p.amount <= Abs(openings[0].amount)
  }

  predicate NoneWritesDown(before: seq<Posting>, ps: seq<Posting>, schedule: nat)
    decreases |ps|
  {
    ps == [] || (!WritesDown(before, ps[0], schedule) && NoneWritesDown(before + [ps[0]], ps[1..], schedule))
  }

  lemma {:induction false} OpeningsAppend(
      xs: seq<Posting>, ys: seq<Posting>, schedule: nat, control: string, number: string)
    ensures OpeningsOf(xs + ys, schedule, control, number)
         == OpeningsOf(xs, schedule, control, number) + OpeningsOf(ys, schedule, control, number)
  {
    if xs == [] {
      assert xs + ys == ys;
    } else {
      assert (xs + ys)[1..] == xs[1..] + ys;
      OpeningsAppend(xs[1..], ys, schedule, control, number);
    }
  }

  lemma {:induction false} OpeningsSnoc(ps: seq<Posting>, p: Posting, schedule: nat, control: string, number: string)
    ensures OpeningsOf(ps + [p], schedule, control, number)
         == OpeningsOf(ps, schedule, control, number) + if OpensNumber(p, schedule, control, number) then [p] else []
  {
    OpeningsAppend(ps, [p], schedule, control, number);
    assert [p][1..] == [];
  }

  lemma {:induction false} NoneWritesDownAppend(
      before: seq<Posting>, xs: seq<Posting>, ys: seq<Posting>, schedule: nat)
    ensures NoneWritesDown(before, xs + ys, schedule)
       <==> NoneWritesDown(before, xs, schedule) && NoneWritesDown(before + xs, ys, schedule)
    decreases |xs|
  {
    if xs == [] {
      assert xs + ys == ys && before + xs == before;
    } else {
      assert (xs + ys)[1..] == xs[1..] + ys && before + [xs[0]] + xs[1..] == before + xs;
      NoneWritesDownAppend(before + [xs[0]], xs[1..], ys, schedule);
    }
  }

  // ----- the items against the lines that opened them -----

  /** Items that are still as the lines opened them. */
  predicate AsOpened(items: seq<Item>, openings: seq<Posting>) {
    && |items| == |openings|
    && forall i | 0 <= i < |items| :: items[i].remaining == items[i].original == Abs(openings[i].amount)
  }

  /** For every number, the open items are those the lines opened, as they opened them. */
  ghost predicate Matches(items: seq<Item>, before: seq<Posting>, schedule: nat) {
    forall c, n :: AsOpened(Targets(items, schedule, c, n), OpeningsOf(before, schedule, c, n))
  }

  lemma {:induction false} TargetsAppend(xs: seq<Item>, ys: seq<Item>, schedule: nat, control: string, number: string)
    ensures Targets(xs + ys, schedule, control, number)
         == Targets(xs, schedule, control, number) + Targets(ys, schedule, control, number)
  {
    if xs == [] {
      assert xs + ys == ys;
    } else {
      assert (xs + ys)[1..] == xs[1..] + ys;
      TargetsAppend(xs[1..], ys, schedule, control, number);
    }
  }

  lemma {:induction false} TargetsOfOthers(
      items: seq<Item>, k: nat, item: Item, schedule: nat, control: string, number: string)
    requires k < |items| && items[k].schedule != schedule && item.schedule != schedule
    ensures Targets(items[k := item], schedule, control, number) == Targets(items, schedule, control, number)
  {
    if k > 0 {
      assert items[k := item][1..] == items[1..][k - 1 := item];
      TargetsOfOthers(items[1..], k - 1, item, schedule, control, number);
    } else {
      assert items[k := item][1..] == items[1..];
    }
  }

  lemma OpeningMatches(b: Book, before: seq<Posting>, p: Posting, schedule: nat)
    requires Matches(b.items, before, schedule) && Recorded(b, p) && p.mark.Opening? && p.amount != 0
    ensures Matches(Step(b, p).items, before + [p], schedule)
  {
    var item := Opened(p, |b.items|);
    forall c, n
      ensures AsOpened(Targets(Step(b, p).items, schedule, c, n), OpeningsOf(before + [p], schedule, c, n))
    {
      TargetsAppend(b.items, [item], schedule, c, n);
      OpeningsSnoc(before, p, schedule, c, n);
      assert [item][1..] == [] && AsOpened(Targets(b.items, schedule, c, n), OpeningsOf(before, schedule, c, n));
    }
  }

  /** A line that opens nothing on the schedule adds no opening. */
  lemma NoOpeningMatches(items: seq<Item>, before: seq<Posting>, p: Posting, schedule: nat)
    requires Matches(items, before, schedule) && (p.schedule != Some(schedule) || !p.mark.Opening? || !FitsColumns(p))
    ensures Matches(items, before + [p], schedule)
  {
    forall c, n ensures AsOpened(Targets(items, schedule, c, n), OpeningsOf(before + [p], schedule, c, n)) {
      OpeningsSnoc(before, p, schedule, c, n);
    }
  }

  lemma OtherScheduleMatches(b: Book, before: seq<Posting>, p: Posting, schedule: nat)
    requires ItemsOk(b.items) && Matches(b.items, before, schedule) && p.mark.ToItem? && p.schedule != Some(schedule)
    ensures Matches(Step(b, p).items, before + [p], schedule)
  {
    if Recorded(b, p) {
      TargetsAreItems(b.items, p.schedule.value, p.control, p.mark.number);
      var target := Target(b.items, p.schedule.value, p.control, p.mark.number, -p.amount);
      if target.Some? {
        var t := target.value;
        assert t in b.items && b.items[t.id] == t;
        var item := t.(remaining := t.remaining + p.amount, status := DeriveStatus(t.original, t.remaining + p.amount));
        forall c, n ensures AsOpened(Targets(Step(b, p).items, schedule, c, n), OpeningsOf(before, schedule, c, n)) {
          TargetsOfOthers(b.items, t.id, item, schedule, c, n);
        }
      }
    }
    NoOpeningMatches(Step(b, p).items, before, p, schedule);
  }

  /** On items as opened, a credit application reaches one exactly when it writes down what one line opened. */
  lemma LowersExactly(b: Book, before: seq<Posting>, p: Posting, schedule: nat)
    requires Matches(b.items, before, schedule) && (FitsColumns(p) && p.schedule == Some(schedule) ==> Recorded(b, p))
    ensures Lowers(b, p, schedule) <==> WritesDown(before, p, schedule)
  {
    if p.mark.ToItem? {
      assert AsOpened(Targets(b.items, schedule, p.control, p.mark.number),
                      OpeningsOf(before, schedule, p.control, p.mark.number));
    }
  }

  lemma StepMatches(b: Book, before: seq<Posting>, p: Posting, schedule: nat)
    requires ItemsOk(b.items) && Matches(b.items, before, schedule) && Untouched(b.items, schedule)
    requires !p.mark.OnAccount? && p.amount != 0 && !Lowers(b, p, schedule)
    requires FitsColumns(p) && p.schedule.Some? ==> Recorded(b, p)
    ensures Matches(Step(b, p).items, before + [p], schedule)
  {
    if p.mark.Opening? && Recorded(b, p) {
      OpeningMatches(b, before, p, schedule);
    } else if p.mark.ToItem? && p.schedule != Some(schedule) {
      OtherScheduleMatches(b, before, p, schedule);
    } else {
      if Recorded(b, p) && p.amount > 0 {
        DebitReachesNoItem(b, p);
      }
      assert Step(b, p).items == b.items;
      NoOpeningMatches(b.items, before, p, schedule);
    }
  }

  lemma {:induction false} NoTargets(items: seq<Item>, schedule: nat, control: string, number: string)
    requires NoItems(items, schedule)
    ensures Targets(items, schedule, control, number) == []
  {
    if items != [] { NoTargets(items[1..], schedule, control, number); }
  }

  lemma {:induction false} UntouchedFrom(b: Book, before: seq<Posting>, ps: seq<Posting>, schedule: nat)
    requires ItemsOk(b.items) && Matches(b.items, before, schedule) && Untouched(b.items, schedule)
    requires FreshLines(b, ps) && forall p | p in ps :: !p.mark.OnAccount? && p.amount != 0
    ensures UntouchedThroughout(b, ps, schedule) <==> NoneWritesDown(before, ps, schedule)
    decreases |ps|
  {
    if ps != [] {
      var p := ps[0];
      assert p in ps;
      StepKeepsItems(b, p);
      UntouchedStepExactly(b, p, schedule);
      LowersExactly(b, before, p, schedule);
      if !Lowers(b, p, schedule) {
        StepMatches(b, before, p, schedule);
        FreshStep(b, ps);
        UntouchedFrom(Step(b, p), before + [p], ps[1..], schedule);
      }
    }
  }

  /** Without sweeps, the items of a schedule keep their original amounts throughout a run exactly when no credit is
      applied to a number that exactly one line before it opened, within that line's amount. Debits never matter. */
  lemma {:induction false} UntouchedExactlyWhenNoneWritesDown(b: Book, ps: seq<Posting>, schedule: nat)
    requires ItemsOk(b.items) && NoItems(b.items, schedule)
    requires FreshLines(b, ps) && forall p | p in ps :: !p.mark.OnAccount? && p.amount != 0
    ensures UntouchedThroughout(b, ps, schedule) <==> NoneWritesDown([], ps, schedule)
  {
    forall c, n ensures AsOpened(Targets(b.items, schedule, c, n), OpeningsOf([], schedule, c, n)) {
      NoTargets(b.items, schedule, c, n);
    }
    UntouchedFrom(b, [], ps, schedule);
  }
}
