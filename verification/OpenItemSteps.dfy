/** What one posted line does to the open items, item by item and in terms of their fields. */
module OpenItemSteps {
  import opened Sums
  import opened OpenItems

  /** The line is for a known schedule, was not recorded before, and fits the columns. */
  predicate Recordable(b: Book, p: Posting) {
    && p.schedule.Some? && p.schedule.value in b.schedules
    && (forall i | 0 <= i < |b.details| :: b.details[i].correlation != p.correlation)
    && |p.control| <= 10 && |p.reference| <= 12 && p.description <= 35
    && (p.mark.ToItem? ==> |p.mark.number| <= 12)
  }

  /** A line is recorded exactly when it is recordable; otherwise it changes nothing at all. */
  lemma LinesAreRecordedOnce(b: Book, p: Posting)
    ensures Recorded(b, p) <==> Recordable(b, p)
    ensures Step(b, p).details == if Recordable(b, p) then b.details + [p] else b.details
    ensures !Recordable(b, p) ==> Step(b, p) == b
  {
  }

  /** Closed at zero, open at the original amount, partially applied between. */
  predicate StatusTells(item: Item) {
    && (item.status == Closed <==> item.remaining == 0)
    && (item.status == Open <==> item.remaining == item.original != 0)
  }

  predicate IsOpenUnder(item: Item, p: Posting) {
    p.schedule == Some(item.schedule) && item.control == p.control && item.status != Closed
  }

  // ----- opening -----

  predicate AllSpace(s: string) {
    forall i | 0 <= i < |s| :: IsSpace(s[i])
  }

  lemma {:induction false} StartIsCut(s: string) returns (i: nat)
    ensures i <= |s| && TrimStart(s) == s[i..] && AllSpace(s[..i]) && (i < |s| ==> !IsSpace(s[i]))
  {
    if s != "" && IsSpace(s[0]) {
      i := StartIsCut(s[1..]);
      assert s[1..][i..] == s[i + 1..] && s[..i + 1] == [s[0]] + s[1..][..i];
      i := i + 1;
    } else {
      i := 0;
    }
  }

  lemma {:induction false} EndIsCut(s: string) returns (j: nat)
    ensures j <= |s| && TrimEnd(s) == s[..j] && AllSpace(s[j..]) && (j > 0 ==> !IsSpace(s[j - 1]))
  {
    j := |s|;
    if s != "" && IsSpace(s[|s| - 1]) {
      var init := s[..|s| - 1];
      j := EndIsCut(init);
      assert init[..j] == s[..j] && s[j..] == init[j..] + [s[|s| - 1]];
    }
  }

  /** Trimming cuts white space from both ends, all of it and nothing else. */
  lemma TrimCutsTheSpaces(s: string) returns (i: nat, j: nat)
    ensures i <= j <= |s| && Trim(s) == s[i..j] && AllSpace(s[..i]) && AllSpace(s[j..])
    ensures i < j ==> !IsSpace(s[i]) && !IsSpace(s[j - 1])
  {
    i := StartIsCut(s);
    var k := EndIsCut(s[i..]);
    j := i + k;
    assert s[i..][..k] == s[i..j] && s[i..][k..] == s[j..];
  }

  /** White space and line terminators of ECMAScript (sections 12.2 and 12.3), by code unit. */
  const SPACES: set<int> := {
    0x0009, 0x000A, 0x000B, 0x000C, 0x000D, 0x0020, 0x00A0, 0x1680, 0x2000, 0x2001, 0x2002, 0x2003, 0x2004, 0x2005,
    0x2006, 0x2007, 0x2008, 0x2009, 0x200A, 0x2028, 0x2029, 0x202F, 0x205F, 0x3000, 0xFEFF}

  lemma SpacesAreThoseOfTheLanguage(c: char)
    ensures IsSpace(c) <==> c as int in SPACES
  {
  }

  /** An opening line adds one item, open with the whole amount as a magnitude, under the reference or, if that is
      blank, under the entry's own id. */
  lemma OpeningAddsAnItem(b: Book, p: Posting)
    requires Recordable(b, p) && p.mark.Opening?
    ensures var after := Step(b, p);
            && after.receipts == b.receipts && |after.items| == |b.items| + 1 && after.items[..|b.items|] == b.items
            && var item := after.items[|b.items|];
               && item.id == item.created == |b.items| && Some(item.schedule) == p.schedule
               && item.control == p.control && item.account == p.account && item.date == p.date
               && item.original == item.remaining == (if p.amount < 0 then -p.amount else p.amount)
               && item.status == Open
               && item.number == if AllSpace(p.reference) then p.entry else Trim(p.reference)
  {
    var i, j := TrimCutsTheSpaces(p.reference);
    assert AllSpace(p.reference) ==> i == j;
    if i == j { assert p.reference == p.reference[..i] + p.reference[i..]; }
  }

  // ----- application to one item -----

  predicate IsTheTarget(b: Book, p: Posting, number: string, i: nat) {
    && i < |b.items| && IsOpenUnder(b.items[i], p) && b.items[i].number == number
    && forall j | 0 <= j < |b.items| && IsOpenUnder(b.items[j], p) && b.items[j].number == number :: j == i
  }

  /** The application leaves the balance between zero and the original amount. */
  predicate Applies(item: Item, amount: int) {
    0 <= item.remaining + amount <= item.original
  }

  predicate IsTarget(item: Item, schedule: nat, control: string, number: string) {
    item.schedule == schedule && item.control == control && item.number == number && item.status != Closed
  }

  /** Position i holds the item, and from the given position on no other one is a target like it. */
  predicate OnlyTarget(items: seq<Item>, from: nat, item: Item, i: nat) {
    && from <= i < |items| && items[i] == item
    && forall j | from <= j < |items| && j != i :: !IsTarget(items[j], item.schedule, item.control, item.number)
  }

  predicate TwoTargets(items: seq<Item>, schedule: nat, control: string, number: string, i: nat, j: nat) {
    && i < j < |items| && IsTarget(items[i], schedule, control, number)
    && IsTarget(items[j], schedule, control, number)
  }

  /** No target, one, or more, by position. */
  lemma {:induction false} TargetsFrom(items: seq<Item>, schedule: nat, control: string, number: string, from: nat)
    requires from <= |items|
    ensures var found := Targets(items[from..], schedule, control, number);
            && (found == [] ==> forall j | from <= j < |items| :: !IsTarget(items[j], schedule, control, number))
            && (|found| == 1 ==> IsTarget(found[0], schedule, control, number)
                                 && exists i :: OnlyTarget(items, from, found[0], i))
            && (found != [] ==> exists i | from <= i < |items| :: IsTarget(items[i], schedule, control, number))
            && (|found| > 1 ==> exists i, j | from <= i :: TwoTargets(items, schedule, control, number, i, j))
    decreases |items| - from
  {
    if from < |items| {
      var later := Targets(items[from + 1..], schedule, control, number);
      TargetsFrom(items, schedule, control, number, from + 1);
      assert items[from..][0] == items[from] && items[from..][1..] == items[from + 1..];
      if IsTarget(items[from], schedule, control, number) {
        if later == [] {
          assert OnlyTarget(items, from, items[from], from);
        } else {
          var j :| from + 1 <= j < |items| && IsTarget(items[j], schedule, control, number);
          assert TwoTargets(items, schedule, control, number, from, j);
        }
      } else if |later| == 1 {
        var i :| OnlyTarget(items, from + 1, later[0], i);
        assert OnlyTarget(items, from, later[0], i);
      } else if |later| > 1 {
        var i, j :| from + 1 <= i && TwoTargets(items, schedule, control, number, i, j);
        assert TwoTargets(items, schedule, control, number, i, j);
      }
    }
  }

  /** A line applied to an item number changes one item at most: the only open one of that number under the schedule and
      control number, if the amount keeps it between zero and its original amount. */
  lemma ApplicationChangesTheTarget(b: Book, p: Posting, i: nat)
    requires ItemsOk(b.items) && Recordable(b, p) && p.mark.ToItem? && IsTheTarget(b, p, p.mark.number, i)
    ensures var after, item := Step(b, p), b.items[i];
            && after.receipts == b.receipts
            && (!Applies(item, p.amount) ==> after.items == b.items)
            && (Applies(item, p.amount) ==>
                 && |after.items| == |b.items| && after.items[i].remaining == item.remaining + p.amount
                 && after.items == b.items[i := item.(remaining := after.items[i].remaining,
                                                      status := after.items[i].status)]
                 && StatusTells(after.items[i]))
  {
    var number := p.mark.number;
    var found := Targets(b.items, p.schedule.value, p.control, number);
    TargetsFrom(b.items, p.schedule.value, p.control, number, 0);
    assert b.items[0..] == b.items;
    assert IsTarget(b.items[i], p.schedule.value, p.control, number);
    assert forall j, k :: !TwoTargets(b.items, p.schedule.value, p.control, number, j, k);
    var j :| OnlyTarget(b.items, 0, found[0], j);
    assert j == i && found[0].id == i;
  }

  lemma ApplicationWithoutTargetChangesNothing(b: Book, p: Posting)
    requires Recordable(b, p) && p.mark.ToItem? && forall i :: !IsTheTarget(b, p, p.mark.number, i)
    ensures Step(b, p).items == b.items && Step(b, p).receipts == b.receipts
  {
    var found := Targets(b.items, p.schedule.value, p.control, p.mark.number);
    TargetsFrom(b.items, p.schedule.value, p.control, p.mark.number, 0);
    assert b.items[0..] == b.items;
    if |found| == 1 {
      var i :| OnlyTarget(b.items, 0, found[0], i);
      assert IsTheTarget(b, p, p.mark.number, i);
    }
  }

  // ----- the sweep -----

  lemma {:induction false} OpenItemsAreCandidates(items: seq<Item>, schedule: nat, control: string)
    ensures forall item :: item in Candidates(items, schedule, control)
              <==> item in items && item.schedule == schedule && item.control == control && item.status != Closed
  {
    if items != [] {
      OpenItemsAreCandidates(items[1..], schedule, control);
      assert items == [items[0]] + items[1..];
    }
  }

  /** What the item at a position of the queue is given. */
  function Share(ordered: seq<Item>, k: nat, incoming: int, ahead: nat): nat
    requires k < |ordered|
  {
    Portion(incoming, ahead + Capacities(ordered[..k]), ordered[k])
  }

  /** The rows after the sweep: each item of the queue with its share taken, every other one as it was. */
  ghost predicate Swept(ordered: seq<Item>, items: seq<Item>, after: seq<Item>, incoming: int, ahead: nat) {
    && |after| == |items|
    && (forall id | 0 <= id < |items| && (forall k | 0 <= k < |ordered| :: ordered[k].id != id) ::
          after[id] == items[id])
    && (forall k | 0 <= k < |ordered| :: ordered[k].id < |items| && items[ordered[k].id] == ordered[k]
          && var share := Share(ordered, k, incoming, ahead);
             after[ordered[k].id] == if share == 0 then ordered[k]
               else ordered[k].(remaining := ordered[k].remaining - share,
                                status := DeriveStatus(ordered[k].original, ordered[k].remaining - share)))
  }

  lemma ShareOfTheRest(ordered: seq<Item>, k: nat, incoming: int, ahead: nat)
    requires 0 < k < |ordered|
    ensures Share(ordered[1..], k - 1, incoming, ahead + Capacity(ordered[0])) == Share(ordered, k, incoming, ahead)
  {
    assert ordered[..k][1..] == ordered[1..][..k - 1] && ordered[..k][0] == ordered[0];
  }

  lemma SweptFromFirst(ordered: seq<Item>, items: seq<Item>, next: seq<Item>, after: seq<Item>, schedule: nat,
    incoming: int, ahead: nat)
    requires ordered != [] && Drawn(ordered, items, schedule)
    requires var portion := Portion(incoming, ahead, ordered[0]);
             next == if portion == 0 then items else Taken(items, ordered[0], portion)
    requires Swept(ordered[1..], next, after, incoming, ahead + Capacity(ordered[0]))
    ensures Swept(ordered, items, after, incoming, ahead)
  {
    var rest := ordered[1..];
    assert Share(ordered, 0, incoming, ahead) == Portion(incoming, ahead, ordered[0]);
    assert forall k | 0 <= k < |rest| :: rest[k] == ordered[k + 1];
    assert after[ordered[0].id] == next[ordered[0].id];
    forall k | 0 < k < |ordered| ensures items[ordered[k].id] == ordered[k] == next[ordered[k].id]
      ensures Share(rest, k - 1, incoming, ahead + Capacity(ordered[0])) == Share(ordered, k, incoming, ahead) {
      ShareOfTheRest(ordered, k, incoming, ahead);
      assert ordered[k].id != ordered[0].id;
    }
    forall k | 0 < k < |ordered|
      ensures var share := Share(ordered, k, incoming, ahead);
             after[ordered[k].id] == if share == 0 then ordered[k]
               else ordered[k].(remaining := ordered[k].remaining - share,
                                status := DeriveStatus(ordered[k].original, ordered[k].remaining - share)) {
      assert rest[k - 1] == ordered[k];
    }
    forall id | 0 <= id < |items| && (forall k | 0 <= k < |ordered| :: ordered[k].id != id)
      ensures after[id] == items[id] {
      assert ordered[0].id != id && next[id] == items[id];
      assert forall k | 0 <= k < |rest| :: rest[k].id != id;
    }
  }

  lemma NothingToSweep(items: seq<Item>, incoming: int, ahead: nat)
    ensures Swept([], items, items, incoming, ahead)
  {
  }

  lemma {:induction false} SweepByItem(ordered: seq<Item>, items: seq<Item>, after: seq<Item>, schedule: nat,
    incoming: int, ahead: nat)
    requires ItemsOk(items) && Drawn(ordered, items, schedule)
    requires after == ApplyAll(items, Allocations(ordered, incoming, ahead))
    ensures Swept(ordered, items, after, incoming, ahead)
    decreases |ordered|
  {
    if ordered == [] {
      NothingToSweep(items, incoming, ahead);
    } else {
      var next, portion := SweepFirst(ordered, items, schedule, incoming, ahead, 0);
      SweepByItem(ordered[1..], next, after, schedule, incoming, ahead + Capacity(ordered[0]));
      SweptFromFirst(ordered, items, next, after, schedule, incoming, ahead);
    }
  }

  /** Where an open item stands in the queue. */
  lemma PositionInQueue(b: Book, p: Posting, i: nat) returns (k: nat)
    requires ItemsOk(b.items) && Recorded(b, p) && p.mark.OnAccount?
    requires i < |b.items| && IsOpenUnder(b.items[i], p)
    ensures k < |Queue(b, p)| && Queue(b, p)[k] == b.items[i]
  {
    var candidates := Candidates(b.items, p.schedule.value, p.control);
    OpenItemsAreCandidates(b.items, p.schedule.value, p.control);
    SweepOrderIsByAge(candidates);
    assert b.items[i] in candidates && b.items[i] in multiset(SortByAge(candidates));
    k :| 0 <= k < |Queue(b, p)| && Queue(b, p)[k] == b.items[i];
  }

  lemma QueueHoldsOpenItems(b: Book, p: Posting)
    requires ItemsOk(b.items) && Recorded(b, p) && p.mark.OnAccount?
    ensures forall k | 0 <= k < |Queue(b, p)| :: IsOpenUnder(Queue(b, p)[k], p)
  {
    var candidates := Candidates(b.items, p.schedule.value, p.control);
    OpenItemsAreCandidates(b.items, p.schedule.value, p.control);
    SweepOrderIsByAge(candidates);
    forall k | 0 <= k < |Queue(b, p)| ensures IsOpenUnder(Queue(b, p)[k], p) {
      assert Queue(b, p)[k] in multiset(candidates);
    }
  }

  lemma {:induction false} CapacitiesUpTo(ordered: seq<Item>, m: nat, k: nat)
    requires m < k <= |ordered|
    ensures Capacities(ordered[..m]) + Capacity(ordered[m]) <= Capacities(ordered[..k]) <= Capacities(ordered)
    decreases m, |ordered|
  {
    var rest := ordered[1..];
    assert ordered[..k][1..] == rest[..k - 1] && ordered[..k][0] == ordered[0];
    if m > 0 {
      assert ordered[..m][1..] == rest[..m - 1] && ordered[..m][0] == ordered[0];
      CapacitiesUpTo(rest, m - 1, k - 1);
    } else {
      PrefixCapacity(rest, k - 1);
    }
  }

  lemma {:induction false} PrefixCapacity(ordered: seq<Item>, k: nat)
    requires k <= |ordered|
    ensures Capacities(ordered[..k]) <= Capacities(ordered)
  {
    if k > 0 {
      assert ordered[..k][1..] == ordered[1..][..k - 1];
      PrefixCapacity(ordered[1..], k - 1);
    }
  }

  /** What a sweep can do to an item: lower its balance, with the status to match, or leave it alone. */
  predicate Lowered(before: Item, after: Item) {
    && after == before.(remaining := after.remaining, status := after.status)
    && 0 <= after.remaining <= before.remaining
    && (if after.remaining == before.remaining then after == before else StatusTells(after))
  }

  lemma SweptRows(b: Book, p: Posting)
    requires ItemsOk(b.items) && Recordable(b, p) && p.mark.OnAccount?
    ensures Recorded(b, p) && Swept(Queue(b, p), b.items, Step(b, p).items, -p.amount, 0)
  {
    LinesAreRecordedOnce(b, p);
    QueueIsDrawn(b, p);
    var after := ApplyAll(b.items, Allocations(Queue(b, p), -p.amount, 0));
    assert Step(b, p).items == after;
    SweepByItem(Queue(b, p), b.items, after, p.schedule.value, -p.amount, 0);
  }

  lemma SweptItem(b: Book, p: Posting, i: nat)
    requires ItemsOk(b.items) && Recordable(b, p) && p.mark.OnAccount? && i < |b.items|
    ensures |Step(b, p).items| == |b.items|
    ensures if IsOpenUnder(b.items[i], p) then Lowered(b.items[i], Step(b, p).items[i])
            else Step(b, p).items[i] == b.items[i]
  {
    SweptRows(b, p);
    if IsOpenUnder(b.items[i], p) {
      var k := PositionInQueue(b, p, i);
    } else {
      QueueHoldsOpenItems(b, p);
    }
  }

  lemma OlderFirst(b: Book, p: Posting, i: nat, j: nat)
    requires ItemsOk(b.items) && Recordable(b, p) && p.mark.OnAccount? && i < |b.items| && j < |b.items|
    requires IsOpenUnder(b.items[i], p) && IsOpenUnder(b.items[j], p) && Before(b.items[j], b.items[i])
    ensures |Step(b, p).items| == |b.items|
    ensures Step(b, p).items[i].remaining < b.items[i].remaining ==> Step(b, p).items[j].remaining == 0
  {
    SweptRows(b, p);
    var k := PositionInQueue(b, p, i);
    var m := PositionInQueue(b, p, j);
    SweepOrderIsByAge(Candidates(b.items, p.schedule.value, p.control));
    assert m < k;
    CapacitiesUpTo(Queue(b, p), m, k);
  }

  /** An on-account line lowers open items of its schedule and control number only, an item only if every older one, by
      date and then by creation, is brought to zero; everything else about the items stays. */
  lemma SweepLowersOldestFirst(b: Book, p: Posting)
    requires ItemsOk(b.items) && Recordable(b, p) && p.mark.OnAccount?
    ensures var items, after := b.items, Step(b, p).items;
            && |after| == |items|
            && (forall i | 0 <= i < |items| ::
                  if IsOpenUnder(items[i], p) then Lowered(items[i], after[i]) else after[i] == items[i])
            && (forall i, j | 0 <= i < |items| && 0 <= j < |items| && IsOpenUnder(items[i], p)
                  && IsOpenUnder(items[j], p) && Before(items[j], items[i]) ::
                  after[i].remaining < items[i].remaining ==> after[j].remaining == 0)
  {
    var items, after := b.items, Step(b, p).items;
    SweptRows(b, p);
    forall i | 0 <= i < |items|
      ensures if IsOpenUnder(items[i], p) then Lowered(items[i], after[i]) else after[i] == items[i] {
      SweptItem(b, p, i);
    }
    forall i, j | 0 <= i < |items| && 0 <= j < |items| && IsOpenUnder(items[i], p)
                  && IsOpenUnder(items[j], p) && Before(items[j], items[i])
      ensures after[i].remaining < items[i].remaining ==> after[j].remaining == 0 {
      OlderFirst(b, p, i, j);
    }
  }

  lemma EverythingIsTaken(b: Book, p: Posting)
    requires ItemsOk(b.items) && Recordable(b, p) && Recorded(b, p) && p.mark.OnAccount?
    requires -p.amount > Capacities(Queue(b, p))
    ensures |Step(b, p).items| == |b.items|
    ensures forall i | 0 <= i < |b.items| && IsOpenUnder(b.items[i], p) :: Step(b, p).items[i].remaining == 0
  {
    SweptRows(b, p);
    forall i | 0 <= i < |b.items| && IsOpenUnder(b.items[i], p) ensures Step(b, p).items[i].remaining == 0 {
      var k := PositionInQueue(b, p, i);
      CapacitiesUpTo(Queue(b, p), k, |Queue(b, p)|);
    }
  }

  lemma ReceiptForTheRest(b: Book, p: Posting)
    requires Recorded(b, p) && p.mark.OnAccount?
    ensures var left := -p.amount - Min(Max(0, -p.amount), Capacities(Queue(b, p)));
            Step(b, p).receipts
              == if left > 0 then b.receipts + [Receipt(p.schedule.value, p.control, left)] else b.receipts
  {
  }

  /** What it takes from the schedule is the whole credit, or all that is open, with a receipt for the rest. A debit on
      account takes nothing. */
  lemma SweepTakesTheCredit(b: Book, p: Posting)
    requires ItemsOk(b.items) && Recordable(b, p) && p.mark.OnAccount?
    ensures var items, after, schedule := b.items, Step(b, p).items, p.schedule.value;
            var taken := Remaining(items, schedule) - Remaining(after, schedule);
            var left := -p.amount - taken;
            && |after| == |items|
            && (p.amount >= 0 ==> taken == 0 && Step(b, p).receipts == b.receipts)
            && (p.amount < 0 ==> 0 <= taken && 0 <= left)
            && (p.amount < 0 && left > 0 ==>
                  && Step(b, p).receipts == b.receipts + [Receipt(schedule, p.control, left)]
                  && forall i | 0 <= i < |items| && IsOpenUnder(items[i], p) :: after[i].remaining == 0)
            && (p.amount < 0 && left == 0 ==> Step(b, p).receipts == b.receipts)
  {
    LinesAreRecordedOnce(b, p);
    SweepLowersItems(b, p, p.schedule.value);
    SweepLowersOldestFirst(b, p);
    ReceiptForTheRest(b, p);
    if -p.amount > Capacities(Queue(b, p)) { EverythingIsTaken(b, p); }
  }

  // ----- what the caller is told -----

  lemma {:induction false} PortionsArePositive(ordered: seq<Item>, incoming: int, ahead: nat)
    ensures PortionSum(Allocations(ordered, incoming, ahead)) >= |Allocations(ordered, incoming, ahead)|
  {
    if ordered != [] {
      var rest := Allocations(ordered[1..], incoming, ahead + Capacity(ordered[0]));
      PortionsArePositive(ordered[1..], incoming, ahead + Capacity(ordered[0]));
      if Portion(incoming, ahead, ordered[0]) == 0 {
        assert Allocations(ordered, incoming, ahead) == rest;
      } else {
        assert Allocations(ordered, incoming, ahead)[1..] == rest;
      }
    }
  }

  /** A line that is not recorded is told why, the first reason first. */
  lemma RefusalsAreTold(b: Book, p: Posting)
    ensures var outcome, seen := OutcomeOf(b, p), exists i | 0 <= i < |b.details| ::
              b.details[i].correlation == p.correlation;
            && (outcome == SkippedNotScheduled <==> p.schedule.None?)
            && (outcome == AlreadyProcessed <==> p.schedule.Some? && seen)
            && (outcome == SkippedScheduleNotFound <==>
                  p.schedule.Some? && !seen && p.schedule.value !in b.schedules)
            && (outcome in {NewItem, Application, UnresolvedApplication, AutoApplied, RoutedToUnappliedCredit} <==>
                  Recordable(b, p))
  {
    LinesAreRecordedOnce(b, p);
  }

  lemma ApplicationIsTold(b: Book, p: Posting)
    requires ItemsOk(b.items) && Recordable(b, p) && p.mark.ToItem?
    ensures OutcomeOf(b, p)
         == if exists i: nat :: IsTheTarget(b, p, p.mark.number, i) && Applies(b.items[i], p.amount) then Application
            else UnresolvedApplication
  {
    LinesAreRecordedOnce(b, p);
    var number := p.mark.number;
    var found := Targets(b.items, p.schedule.value, p.control, number);
    TargetsFrom(b.items, p.schedule.value, p.control, number, 0);
    assert b.items[0..] == b.items;
    if |found| == 1 {
      var i :| OnlyTarget(b.items, 0, found[0], i);
      assert IsTheTarget(b, p, number, i);
    }
    forall i: nat, j, k | IsTheTarget(b, p, number, i)
      ensures !TwoTargets(b.items, p.schedule.value, p.control, number, j, k) {}
    forall i: nat | IsTheTarget(b, p, number, i) ensures found != [] {
      assert IsTarget(b.items[i], p.schedule.value, p.control, number);
    }
  }

  /** A sweep is told as routed to unapplied credit exactly when it leaves a receipt and takes nothing. */
  lemma SweepIsTold(b: Book, p: Posting)
    requires ItemsOk(b.items) && Recordable(b, p) && p.mark.OnAccount?
    ensures OutcomeOf(b, p)
         == if Step(b, p).receipts != b.receipts && Step(b, p).items == b.items then RoutedToUnappliedCredit
            else AutoApplied
  {
    LinesAreRecordedOnce(b, p);
    ReceiptForTheRest(b, p);
    SweepLowersItems(b, p, p.schedule.value);
    PortionsConserve(Queue(b, p), -p.amount, 0);
    PortionsArePositive(Queue(b, p), -p.amount, 0);
  }
}
