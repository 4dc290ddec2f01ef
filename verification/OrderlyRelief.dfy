/** When the reliefs of an asset schedule are all taken: a condition on the posted lines alone. */
module OrderlyRelief {
  import opened Sums
  import opened OpenItems

  /** The number a line opens or applies to. */
  function NumberOf(p: Posting): string {
    match p.mark
    case Opening => ItemNumber(p)
    case ToItem(number) => number
    case OnAccount => ""
  }

  /** The line is about one item of the schedule. */
  predicate About(p: Posting, schedule: nat, control: string, number: string) {
    p.schedule == Some(schedule) && p.control == control && NumberOf(p) == number
  }

  /** The balance of one item by the posted lines. */
  function BalanceBy(ps: seq<Posting>, schedule: nat, control: string, number: string): int {
    if ps == [] then 0
    else
      var rest := BalanceBy(ps[1..], schedule, control, number);
      if About(ps[0], schedule, control, number) then ps[0].amount + rest else rest
  }

  predicate OpenedBy(ps: seq<Posting>, schedule: nat, control: string, number: string) {
    exists i | 0 <= i < |ps| :: ps[i].mark.Opening? && About(ps[i], schedule, control, number)
  }

  /** After the lines before it, a line of the schedule fits its columns and either opens a number that is new with a
      debit, or relieves, by a credit, no more than the lines before it have left of a number they opened. */
  predicate InOrder(before: seq<Posting>, p: Posting, schedule: nat) {
    p.schedule == Some(schedule) ==>
      && FitsColumns(p)
      && match p.mark
         case Opening => p.amount > 0 && !OpenedBy(before, schedule, p.control, ItemNumber(p))
         case ToItem(number) =>
           p.amount < 0 && OpenedBy(before, schedule, p.control, number)
             && BalanceBy(before, schedule, p.control, number) + p.amount >= 0
         case OnAccount => false
  }

  predicate Orderly(before: seq<Posting>, ps: seq<Posting>, schedule: nat)
    decreases |ps|
  {
    ps == [] || (InOrder(before, ps[0], schedule) && Orderly(before + [ps[0]], ps[1..], schedule))
  }

  predicate IsItem(item: Item, schedule: nat, control: string, number: string) {
    item.schedule == schedule && item.control == control && item.number == number
  }

  /** The items of the schedule mirror the lines: one for every number opened, with the balance by the lines. */
  ghost predicate Mirrors(items: seq<Item>, before: seq<Posting>, schedule: nat) {
    && (forall i | 0 <= i < |items| && items[i].schedule == schedule ::
          && OpenedBy(before, schedule, items[i].control, items[i].number)
          && items[i].remaining == BalanceBy(before, schedule, items[i].control, items[i].number))
    && (forall i, j | 0 <= i < j < |items| && items[i].schedule == schedule ::
          !IsItem(items[j], schedule, items[i].control, items[i].number))
    && (forall c, n | OpenedBy(before, schedule, c, n) :: exists i | 0 <= i < |items| ::
      IsItem(items[i], schedule, c, n))
  }

  lemma {:induction false} BalanceSnoc(ps: seq<Posting>, p: Posting, schedule: nat, control: string, number: string)
    ensures BalanceBy(ps + [p], schedule, control, number)
         == BalanceBy(ps, schedule, control, number) + if About(p, schedule, control, number) then p.amount else 0
  {
    if ps == [] {
      assert ps + [p] == [p] && [p][1..] == [];
    } else {
      assert (ps + [p])[1..] == ps[1..] + [p];
      BalanceSnoc(ps[1..], p, schedule, control, number);
    }
  }

  lemma OpenedSnoc(ps: seq<Posting>, p: Posting, schedule: nat, control: string, number: string)
    ensures OpenedBy(ps + [p], schedule, control, number)
       <==> OpenedBy(ps, schedule, control, number) || (p.mark.Opening? && About(p, schedule, control, number))
  {
    var all := ps + [p];
    assert all[|ps|] == p && forall i | 0 <= i < |ps| :: all[i] == ps[i];
  }

  lemma {:induction false} NoTarget(items: seq<Item>, schedule: nat, control: string, number: string)
    requires forall i | 0 <= i < |items| :: !IsItem(items[i], schedule, control, number)
    ensures Targets(items, schedule, control, number) == []
  {
    if items != [] { NoTarget(items[1..], schedule, control, number); }
  }

  /** One item of that number, and open: it is the only target. */
  lemma {:induction false} OnlyTarget(items: seq<Item>, k: nat, schedule: nat, control: string, number: string)
    requires k < |items| && IsItem(items[k], schedule, control, number) && items[k].status != Closed
    requires forall i | 0 <= i < |items| && i != k :: !IsItem(items[i], schedule, control, number)
    ensures Targets(items, schedule, control, number) == [items[k]]
  {
    if k == 0 {
      NoTarget(items[1..], schedule, control, number);
    } else {
      OnlyTarget(items[1..], k - 1, schedule, control, number);
    }
  }

  /** A relief in order finds its item, with enough balance. */
  lemma ReliefIsTaken(b: Book, before: seq<Posting>, p: Posting, schedule: nat) returns (k: nat)
    requires ItemsOk(b.items) && Mirrors(b.items, before, schedule)
    requires Recorded(b, p) && p.schedule == Some(schedule) && p.mark.ToItem? && InOrder(before, p, schedule)
    ensures k < |b.items| && IsItem(b.items[k], schedule, p.control, p.mark.number)
    ensures Target(b.items, schedule, p.control, p.mark.number, -p.amount) == Some(b.items[k])
  {
    k :| 0 <= k < |b.items| && IsItem(b.items[k], schedule, p.control, p.mark.number);
    forall i | 0 <= i < |b.items| && i != k ensures !IsItem(b.items[i], schedule, p.control, p.mark.number) {
      if i < k {
        assert !IsItem(b.items[k], schedule, b.items[i].control, b.items[i].number) || b.items[i].schedule != schedule;
      }
    }
    OnlyTarget(b.items, k, schedule, p.control, p.mark.number);
  }

  lemma {:induction false} MirrorsAfterOpening(b: Book, before: seq<Posting>, p: Posting, schedule: nat)
    requires ItemsOk(b.items) && Mirrors(b.items, before, schedule)
    requires Recorded(b, p) && p.schedule == Some(schedule) && p.mark.Opening? && InOrder(before, p, schedule)
    requires BalanceBy(before, schedule, p.control, ItemNumber(p)) == 0
    ensures Mirrors(Step(b, p).items, before + [p], schedule)
  {
    var items, all := Step(b, p).items, before + [p];
    forall c, n
      ensures OpenedBy(all, schedule, c, n)
      <==> OpenedBy(before, schedule, c, n) || (c == p.control && n == ItemNumber(p)) {
      OpenedSnoc(before, p, schedule, c, n);
    }
    forall c, n
      ensures BalanceBy(all, schedule, c, n)
        == BalanceBy(before, schedule, c, n) + if c == p.control && n == ItemNumber(p) then p.amount else 0 {
      BalanceSnoc(before, p, schedule, c, n);
    }
    assert items[|b.items|] == Opened(p, |b.items|);
    forall c, n | OpenedBy(all, schedule, c, n)
      ensures exists i | 0 <= i < |items| :: IsItem(items[i], schedule, c, n) {
      if OpenedBy(before, schedule, c, n) {
        var i :| 0 <= i < |b.items| && IsItem(b.items[i], schedule, c, n);
        assert IsItem(items[i], schedule, c, n);
      } else {
        assert IsItem(items[|b.items|], schedule, c, n);
      }
    }
  }

  lemma MirrorsAfterRelief(b: Book, before: seq<Posting>, p: Posting, schedule: nat)
    requires ItemsOk(b.items) && Mirrors(b.items, before, schedule)
    requires Recorded(b, p) && p.schedule == Some(schedule) && p.mark.ToItem? && InOrder(before, p, schedule)
    ensures Mirrors(Step(b, p).items, before + [p], schedule)
  {
    var k := ReliefIsTaken(b, before, p, schedule);
    var items, all := Step(b, p).items, before + [p];
    forall c, n ensures OpenedBy(all, schedule, c, n) <==> OpenedBy(before, schedule, c, n)
    {
      OpenedSnoc(before, p, schedule, c, n);
    }
    forall c, n
      ensures BalanceBy(all, schedule, c, n)
        == BalanceBy(before, schedule, c, n) + if c == p.control && n == p.mark.number then p.amount else 0 {
      BalanceSnoc(before, p, schedule, c, n);
    }
    assert |items| == |b.items| && items[k].remaining == b.items[k].remaining + p.amount;
    assert forall i | 0 <= i < |items| && i != k :: items[i] == b.items[i];
    forall c, n | OpenedBy(all, schedule, c, n)
      ensures exists i | 0 <= i < |items| :: IsItem(items[i], schedule, c, n) {
      var i :| 0 <= i < |b.items| && IsItem(b.items[i], schedule, c, n);
      assert IsItem(items[i], schedule, c, n);
    }
  }

  /** Numbers that were never opened have no balance. */
  ghost predicate Unopened(before: seq<Posting>, schedule: nat) {
    forall c, n | !OpenedBy(before, schedule, c, n) :: BalanceBy(before, schedule, c, n) == 0
  }

  lemma UnopenedStep(before: seq<Posting>, p: Posting, schedule: nat)
    requires Unopened(before, schedule) && InOrder(before, p, schedule)
    ensures Unopened(before + [p], schedule)
  {
    forall c, n | !OpenedBy(before + [p], schedule, c, n) ensures BalanceBy(before + [p], schedule, c, n) == 0 {
      OpenedSnoc(before, p, schedule, c, n);
      BalanceSnoc(before, p, schedule, c, n);
    }
  }

  /** Both hold the same items of the schedule, at the same places. */
  predicate Agree(xs: seq<Item>, ys: seq<Item>, schedule: nat) {
    && (forall i | 0 <= i < |xs| && xs[i].schedule == schedule :: i < |ys| && ys[i] == xs[i])
    && (forall i | 0 <= i < |ys| && ys[i].schedule == schedule :: i < |xs| && ys[i] == xs[i])
  }

  lemma OtherLineLeavesItems(b: Book, p: Posting, schedule: nat)
    requires ItemsOk(b.items) && p.schedule != Some(schedule) && !p.mark.OnAccount?
    ensures Agree(b.items, Step(b, p).items, schedule)
  {
    if Recorded(b, p) && p.mark.ToItem? {
      TargetsAreItems(b.items, p.schedule.value, p.control, p.mark.number);
    }
  }

  lemma MirrorsCarryOver(xs: seq<Item>, ys: seq<Item>, before: seq<Posting>, p: Posting, schedule: nat)
    requires Mirrors(xs, before, schedule) && Agree(xs, ys, schedule) && p.schedule != Some(schedule)
    ensures Mirrors(ys, before + [p], schedule)
  {
    var all := before + [p];
    forall c, n ensures OpenedBy(all, schedule, c, n) <==> OpenedBy(before, schedule, c, n)
    {
      OpenedSnoc(before, p, schedule, c, n);
    }
    forall c, n ensures BalanceBy(all, schedule, c, n) == BalanceBy(before, schedule, c, n)
    {
      BalanceSnoc(before, p, schedule, c, n);
    }
    forall c, n | OpenedBy(all, schedule, c, n) ensures exists i | 0 <= i < |ys| :: IsItem(ys[i], schedule, c, n) {
      var i :| 0 <= i < |xs| && IsItem(xs[i], schedule, c, n);
      assert IsItem(ys[i], schedule, c, n);
    }
  }

  lemma StepMirrors(b: Book, before: seq<Posting>, p: Posting, schedule: nat)
    requires ItemsOk(b.items) && Mirrors(b.items, before, schedule) && Unopened(before, schedule)
    requires InOrder(before, p, schedule) && !p.mark.OnAccount?
    requires p.schedule == Some(schedule) ==> Recorded(b, p)
    ensures p.schedule == Some(schedule) ==> FullyRelieved(b, p)
    ensures Mirrors(Step(b, p).items, before + [p], schedule)
  {
    if p.schedule != Some(schedule) {
      OtherLineLeavesItems(b, p, schedule);
      MirrorsCarryOver(b.items, Step(b, p).items, before, p, schedule);
    } else if p.mark.Opening? {
      MirrorsAfterOpening(b, before, p, schedule);
    } else {
      MirrorsAfterRelief(b, before, p, schedule);
      var k := ReliefIsTaken(b, before, p, schedule);
    }
  }

  lemma {:induction false} OrderlyFrom(b: Book, before: seq<Posting>, ps: seq<Posting>, schedule: nat)
    requires ItemsOk(b.items) && Mirrors(b.items, before, schedule) && Unopened(before, schedule)
    requires FreshLines(b, ps) && Orderly(before, ps, schedule)
    requires forall p | p in ps :: !p.mark.OnAccount?
    ensures AllRelieved(b, ps, schedule)
    decreases |ps|
  {
    if ps != [] {
      var p := ps[0];
      assert p in ps;
      StepMirrors(b, before, p, schedule);
      UnopenedStep(before, p, schedule);
      StepKeepsItems(b, p);
      FreshStep(b, ps);
      OrderlyFrom(Step(b, p), before + [p], ps[1..], schedule);
    }
  }

  /** If the lines of a schedule come in order, all their texts fit, and no number is opened twice or relieved beyond
      what it was opened with, then every relief is taken in full when it comes. */
  lemma {:induction false} OrderlyLinesAreAllRelieved(b: Book, ps: seq<Posting>, schedule: nat)
    requires ItemsOk(b.items) && NoItems(b.items, schedule)
    requires FreshLines(b, ps) && Orderly([], ps, schedule)
    requires forall p | p in ps :: !p.mark.OnAccount?
    ensures AllRelieved(b, ps, schedule)
  {
    OrderlyFrom(b, [], ps, schedule);
  }
}
