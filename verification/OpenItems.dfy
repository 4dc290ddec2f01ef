/** The open-item ledger of schedule-service: items opened by posted lines, relieved by
    application lines, and swept oldest first by on-account lines. Amounts are cents. */
module OpenItems {
  import opened Sums

  datatype Status = Open | PartiallyApplied | Closed

  datatype Item = Item(
    id: nat, schedule: nat, control: string, number: string, account: nat,
    original: int, remaining: int, status: Status, date: int, created: int)

  function DeriveStatus(original: int, remaining: int): Status {
    if remaining == 0 then Closed else if remaining == original then Open else PartiallyApplied
  }

  /** The new remaining balance, or none for an over-application. */
  function ApplyAmount(original: int, remaining: int, amount: int): Option<int> {
    var next := remaining - amount;
    var overApplied := if original >= 0 then next < 0 || next > original else next > 0 || next < original;
    if overApplied then None else Some(next)
  }

  /** The balance has not changed sign and has not outgrown the original amount. */
  predicate WithinBounds(item: Item) {
    if item.original >= 0 then 0 <= item.remaining <= item.original else item.original <= item.remaining <= 0
  }

  /** An application is taken exactly when it leaves the balance between zero and the original amount, whatever sign
      that has; what is left then is the difference. */
  lemma AppliedExactlyWithinBounds(item: Item, amount: int)
    ensures match ApplyAmount(item.original, item.remaining, amount)
            case Some(next) => next == item.remaining - amount && WithinBounds(item.(remaining := next))
            case None => !WithinBounds(item.(remaining := item.remaining - amount))
  {
  }

  // ----- the FIFO sweep -----

  predicate Older(a: Item, b: Item) {
    if a.date != b.date then a.date < b.date else a.created < b.created
  }

  function InsertByAge(item: Item, items: seq<Item>): seq<Item> {
    if items == [] || !Older(items[0], item) then [item] + items
    else [items[0]] + InsertByAge(item, items[1..])
  }

  /** Stable, oldest first. */
  function SortByAge(items: seq<Item>): seq<Item> {
    if items == [] then [] else InsertByAge(items[0], SortByAge(items[1..]))
  }

  ghost predicate AscendingAge(items: seq<Item>) {
    forall i, j | 0 <= i < j < |items| :: !Older(items[j], items[i])
  }

  lemma {:induction false} InsertByAgePermutes(item: Item, items: seq<Item>)
    ensures multiset(InsertByAge(item, items)) == multiset{item} + multiset(items)
  {
    if items != [] && Older(items[0], item) {
      InsertByAgePermutes(item, items[1..]);
      assert items == [items[0]] + items[1..];
    }
  }

  lemma {:induction false} InsertKeepsAge(item: Item, items: seq<Item>)
    requires AscendingAge(items)
    ensures AscendingAge(InsertByAge(item, items))
  {
    if items != [] && Older(items[0], item) {
      InsertKeepsAge(item, items[1..]);
      InsertByAgePermutes(item, items[1..]);
      var tail := InsertByAge(item, items[1..]);
      forall j | 0 <= j < |tail| ensures !Older(tail[j], items[0]) {
        assert tail[j] in multiset(tail);
        assert tail[j] == item || tail[j] in items[1..];
      }
    }
  }

  ghost predicate InFieldOrder(ordered: seq<Item>) {
    forall i, j | 0 <= i < j < |ordered| ::
      ordered[i].date < ordered[j].date
      || (ordered[i].date == ordered[j].date && ordered[i].created <= ordered[j].created)
  }

  /** The sweep visits all candidates, oldest first: by date, and on one date by creation. */
  lemma {:induction false} SweepOrderIsByAge(items: seq<Item>)
    ensures AscendingAge(SortByAge(items)) && multiset(SortByAge(items)) == multiset(items)
    ensures InFieldOrder(SortByAge(items))
  {
    if items != [] {
      SweepOrderIsByAge(items[1..]);
      InsertKeepsAge(items[0], SortByAge(items[1..]));
      InsertByAgePermutes(items[0], SortByAge(items[1..]));
      assert items == [items[0]] + items[1..];
    }
  }

  /** What an item can absorb. */
  function Capacity(item: Item): nat {
    Max(0, item.remaining)
  }

  function Capacities(items: seq<Item>): nat {
    if items == [] then 0 else Capacity(items[0]) + Capacities(items[1..])
  }

  /** The part of an amount that falls on an item behind others of the given total capacity. */
  function Portion(incoming: int, ahead: nat, item: Item): nat {
    Max(0, Min(incoming - ahead, Capacity(item)))
  }

  datatype Allocation = Allocation(id: nat, portion: int, newRemaining: int, newStatus: Status)

  function AllocationTo(item: Item, portion: int): Allocation {
    Allocation(item.id, portion, item.remaining - portion, DeriveStatus(item.original, item.remaining - portion))
  }

  /** The allocations by position in line: every item gets its portion; empty portions are left out. */
  function Allocations(ordered: seq<Item>, incoming: int, ahead: nat): seq<Allocation> {
    if ordered == [] then [] else
      var portion := Portion(incoming, ahead, ordered[0]);
      (if portion == 0 then [] else [AllocationTo(ordered[0], portion)])
        + Allocations(ordered[1..], incoming, ahead + Capacity(ordered[0]))
  }

  function PortionSum(allocations: seq<Allocation>): int {
    if allocations == [] then 0 else allocations[0].portion + PortionSum(allocations[1..])
  }

  lemma {:induction false} NothingLeftNothingAllocated(ordered: seq<Item>, incoming: int, ahead: nat)
    requires incoming <= ahead
    ensures Allocations(ordered, incoming, ahead) == []
  {
    if ordered != [] {
      NothingLeftNothingAllocated(ordered[1..], incoming, ahead + Capacity(ordered[0]));
    }
  }

  /** Conservation: the portions take the whole amount or the whole capacity, whichever is smaller. */
  lemma {:induction false} PortionsConserve(ordered: seq<Item>, incoming: int, ahead: nat)
    ensures PortionSum(Allocations(ordered, incoming, ahead)) == Max(0, Min(incoming - ahead, Capacities(ordered)))
  {
    if ordered != [] {
      var rest := Allocations(ordered[1..], incoming, ahead + Capacity(ordered[0]));
      PortionsConserve(ordered[1..], incoming, ahead + Capacity(ordered[0]));
      if Portion(incoming, ahead, ordered[0]) == 0 {
        assert Allocations(ordered, incoming, ahead) == rest;
      } else {
        assert Allocations(ordered, incoming, ahead)[1..] == rest;
      }
    }
  }

  /** What a sweep leaves of an amount; an amount that is not positive is left as it is. */
  function Unapplied(incoming: int, capacity: nat): int {
    if incoming <= 0 then incoming else Max(0, incoming - capacity)
  }

  lemma SweepEnds(ordered: seq<Item>, i: nat, incoming: int, ahead: nat)
    requires i <= |ordered| && (i == |ordered| || incoming <= ahead)
    ensures Allocations(ordered[i..], incoming, ahead) == []
    ensures Unapplied(incoming, ahead) == Unapplied(incoming, ahead + Capacities(ordered[i..]))
  {
    if incoming <= ahead {
      NothingLeftNothingAllocated(ordered[i..], incoming, ahead);
    }
  }

  lemma PortionIsWithinBalance(item: Item, portion: int)
    requires WithinBounds(item) && 0 < portion <= item.remaining
    ensures ApplyAmount(item.original, item.remaining, portion) == Some(item.remaining - portion)
  {
  }

  lemma {:induction false} CandidatesStayWithinBounds(candidates: seq<Item>)
    requires forall i | 0 <= i < |candidates| :: WithinBounds(candidates[i])
    ensures forall i | 0 <= i < |SortByAge(candidates)| :: WithinBounds(SortByAge(candidates)[i])
  {
    SweepOrderIsByAge(candidates);
    forall i | 0 <= i < |SortByAge(candidates)| ensures WithinBounds(SortByAge(candidates)[i]) {
      assert SortByAge(candidates)[i] in multiset(candidates);
    }
  }

  /** After i items in line: what was allocated, what is left to apply, and the capacity passed. */
  ghost predicate SweepState(ordered: seq<Item>, i: nat, incoming: int, ahead: nat, allocations: seq<Allocation>,
    left: int) {
    && i <= |ordered|
    && left == Unapplied(incoming, ahead)
    && Allocations(ordered, incoming, 0) == allocations + Allocations(ordered[i..], incoming, ahead)
    && Capacities(ordered) == ahead + Capacities(ordered[i..])
  }

  lemma SweepTurn(ordered: seq<Item>, i: nat, incoming: int, ahead: nat, allocations: seq<Allocation>, left: int)
    requires SweepState(ordered, i, incoming, ahead, allocations, left)
    requires i < |ordered| && left > 0 && ordered[i].remaining > 0
    ensures var item := ordered[i];
            var portion := Min(left, item.remaining);
            SweepState(ordered, i + 1, incoming, ahead + Capacity(item), allocations + [AllocationTo(item, portion)],
              left - portion)
  {
  }

  lemma SweepSkip(ordered: seq<Item>, i: nat, incoming: int, ahead: nat, allocations: seq<Allocation>, left: int)
    requires SweepState(ordered, i, incoming, ahead, allocations, left)
    requires i < |ordered| && left > 0 && ordered[i].remaining <= 0
    ensures SweepState(ordered, i + 1, incoming, ahead, allocations, left)
  {
  }

  lemma {:induction false} SweepDone(ordered: seq<Item>, i: nat, incoming: int, ahead: nat,
    allocations: seq<Allocation>, left: int)
    requires SweepState(ordered, i, incoming, ahead, allocations, left)
    requires i == |ordered| || left <= 0
    ensures allocations == Allocations(ordered, incoming, 0)
    ensures left == Unapplied(incoming, Capacities(ordered))
    ensures incoming == PortionSum(allocations) + left
  {
    SweepEnds(ordered, i, incoming, ahead);
    PortionsConserve(ordered, incoming, 0);
  }

  /** The item came earlier: an earlier date, or the same date and an earlier creation. */
  predicate Before(a: Item, b: Item) {
    a.date < b.date || (a.date == b.date && a.created < b.created)
  }

  /** The item is given this portion of its balance. */
  predicate Gives(a: Allocation, item: Item, portion: int) {
    && a.id == item.id && a.portion == portion && a.newRemaining == item.remaining - portion
    && (a.newStatus == Closed <==> item.remaining == portion)
  }

  ghost predicate GivenAll(item: Item, allocations: seq<Allocation>) {
    exists b | b in allocations :: Gives(b, item, item.remaining)
  }

  /** The item can take the allocation, and all candidates that came earlier and had a balance are given all of it. */
  ghost predicate InTurn(item: Item, a: Allocation, candidates: seq<Item>, allocations: seq<Allocation>) {
    && item in candidates && 0 < a.portion <= item.remaining && Gives(a, item, a.portion)
    && forall other | other in candidates && Before(other, item) && other.remaining > 0 :: GivenAll(other, allocations)
  }

  /** First in, first out. */
  ghost predicate OldestFirst(candidates: seq<Item>, allocations: seq<Allocation>) {
    forall a | a in allocations :: exists item :: InTurn(item, a, candidates, allocations)
  }

  /** In line, an allocation belongs to a position, and every position before it with a balance has been given all. */
  lemma {:induction false} AllocatedInTurn(ordered: seq<Item>, incoming: int, ahead: nat, a: Allocation)
    returns (i: nat)
    requires a in Allocations(ordered, incoming, ahead)
    ensures i < |ordered| && 0 < a.portion <= ordered[i].remaining && a == AllocationTo(ordered[i], a.portion)
    ensures forall j | 0 <= j < i && ordered[j].remaining > 0 ::
              AllocationTo(ordered[j], ordered[j].remaining) in Allocations(ordered, incoming, ahead)
    decreases |ordered|
  {
    var first := Portion(incoming, ahead, ordered[0]);
    if first != 0 && a == AllocationTo(ordered[0], first) {
      i := 0;
    } else {
      var behind := ahead + Capacity(ordered[0]);
      var k := AllocatedInTurn(ordered[1..], incoming, behind, a);
      i := k + 1;
      if incoming <= behind { NothingLeftNothingAllocated(ordered[1..], incoming, behind); }
      forall j | 0 <= j < i && ordered[j].remaining > 0
        ensures AllocationTo(ordered[j], ordered[j].remaining) in Allocations(ordered, incoming, ahead)
      {
        if j > 0 { assert ordered[j] == ordered[1..][j - 1]; }
      }
    }
  }

  lemma SameItems(xs: seq<Item>, ys: seq<Item>)
    requires multiset(xs) == multiset(ys)
    ensures forall item :: item in xs <==> item in ys
  {
    forall item ensures item in xs <==> item in ys {
      assert item in xs <==> item in multiset(xs);
      assert item in ys <==> item in multiset(ys);
    }
  }

  lemma PositionIsInTurn(candidates: seq<Item>, ordered: seq<Item>, allocations: seq<Allocation>, i: nat, a: Allocation)
    requires i < |ordered| && 0 < a.portion <= ordered[i].remaining && a == AllocationTo(ordered[i], a.portion)
    requires forall j | 0 <= j < i && ordered[j].remaining > 0 ::
               AllocationTo(ordered[j], ordered[j].remaining) in allocations
    requires InFieldOrder(ordered) && forall item :: item in candidates <==> item in ordered
    ensures InTurn(ordered[i], a, candidates, allocations)
  {
    forall other | other in candidates && Before(other, ordered[i]) && other.remaining > 0
      ensures GivenAll(other, allocations)
    {
      var j :| 0 <= j < |ordered| && ordered[j] == other;
      assert j < i && Gives(AllocationTo(other, other.remaining), other, other.remaining);
    }
  }

  lemma {:induction false} AllocationIsInTurn(candidates: seq<Item>, incoming: int, a: Allocation)
    requires a in Allocations(SortByAge(candidates), incoming, 0)
    ensures exists item :: InTurn(item, a, candidates, Allocations(SortByAge(candidates), incoming, 0))
  {
    var ordered := SortByAge(candidates);
    SweepOrderIsByAge(candidates);
    SameItems(candidates, ordered);
    var i := AllocatedInTurn(ordered, incoming, 0, a);
    PositionIsInTurn(candidates, ordered, Allocations(ordered, incoming, 0), i, a);
  }

  lemma {:induction false} SweepIsOldestFirst(candidates: seq<Item>, incoming: int)
    ensures OldestFirst(candidates, Allocations(SortByAge(candidates), incoming, 0))
  {
    var allocations := Allocations(SortByAge(candidates), incoming, 0);
    forall a | a in allocations ensures exists item :: InTurn(item, a, candidates, allocations) {
      AllocationIsInTurn(candidates, incoming, a);
    }
  }

  /** The loop with its early exit computes the allocations by position, applies no item beyond its
      balance, and loses no cent. */
  method SweepFifo(candidates: seq<Item>, incoming: int) returns (allocations: seq<Allocation>, unapplied: int)
    requires forall i | 0 <= i < |candidates| :: WithinBounds(candidates[i])
    ensures allocations == Allocations(SortByAge(candidates), incoming, 0)
    ensures unapplied == Unapplied(incoming, Capacities(SortByAge(candidates)))
    ensures incoming == PortionSum(allocations) + unapplied
    ensures OldestFirst(candidates, allocations)
  {
    var ordered := SortByAge(candidates);
    CandidatesStayWithinBounds(candidates);
    var remainingToApply := incoming;
    allocations := [];
    ghost var ahead: nat := 0;
    var i := 0;
    assert ordered[0..] == ordered;
    while i < |ordered|
      invariant 0 <= i <= |ordered|
      invariant SweepState(ordered, i, incoming, ahead, allocations, remainingToApply)
    {
      if remainingToApply <= 0 {
        break;
      }
      var item := ordered[i];
      if item.remaining > 0 {
        var portion := Min(remainingToApply, item.remaining);
        PortionIsWithinBalance(item, portion);
        var newRemaining := ApplyAmount(item.original, item.remaining, portion).value;
        SweepTurn(ordered, i, incoming, ahead, allocations, remainingToApply);
        allocations := allocations
          + [Allocation(item.id, portion, newRemaining, DeriveStatus(item.original, newRemaining))];
        remainingToApply := remainingToApply - portion;
        ahead := ahead + Capacity(item);
      } else {
        SweepSkip(ordered, i, incoming, ahead, allocations, remainingToApply);
      }
      i := i + 1;
    }
    unapplied := remainingToApply;
    SweepDone(ordered, i, incoming, ahead, allocations, unapplied);
    SweepIsOldestFirst(candidates, incoming);
  }

  // ----- the book of one tenant -----

  /** How a posted line is marked: not at all, applied to one item number, or on account. */
  datatype Mark = Opening | ToItem(number: string) | OnAccount

  /** A posted line as it reaches schedule-service; amounts are debit-positive, and of the description only the
      length matters. */
  datatype Posting = Posting(
    schedule: Option<nat>, account: nat, control: string, reference: string, entry: string,
    amount: int, date: int, mark: Mark, correlation: nat, description: nat)

  const CONTROL_WIDTH: nat := 10
  const REFERENCE_WIDTH: nat := 12
  const APPLY_WIDTH: nat := 12
  const DESCRIPTION_WIDTH: nat := 35

  /** The texts fit their columns; otherwise the transaction fails and the line goes to the dead-letter exchange. */
  predicate FitsColumns(p: Posting) {
    && |p.control| <= CONTROL_WIDTH && |p.reference| <= REFERENCE_WIDTH && p.description <= DESCRIPTION_WIDTH
    && (p.mark.ToItem? ==> |p.mark.number| <= APPLY_WIDTH)
  }

  datatype Receipt = Receipt(schedule: nat, control: string, amount: int)

  datatype Book = Book(schedules: set<nat>, items: seq<Item>, details: seq<Posting>, receipts: seq<Receipt>)

  datatype Outcome = SkippedNotScheduled | AlreadyProcessed | SkippedScheduleNotFound
                   | Failed | NewItem | Application | AutoApplied | RoutedToUnappliedCredit | UnresolvedApplication

  /** JavaScript's white space and line terminators. */
  predicate IsSpace(c: char) {
    var n := c as int;
    n == 0x20 || 9 <= n <= 13 || n == 0xA0 || n == 0x1680 || 0x2000 <= n <= 0x200A
    || n == 0x2028 || n == 0x2029 || n == 0x202F || n == 0x205F || n == 0x3000 || n == 0xFEFF
  }

  function TrimStart(s: string): string {
    if s != "" && IsSpace(s[0]) then TrimStart(s[1..]) else s
  }

  function TrimEnd(s: string): string {
    if s != "" && IsSpace(s[|s| - 1]) then TrimEnd(s[..|s| - 1]) else s
  }

  function Trim(s: string): string {
    TrimEnd(TrimStart(s))
  }

  lemma TrimShortens(s: string)
    ensures |Trim(s)| <= |s|
  {
    TrimStartShortens(s);
    TrimEndShortens(TrimStart(s));
  }

  lemma {:induction false} TrimStartShortens(s: string)
    ensures |TrimStart(s)| <= |s|
  {
    if s != "" && IsSpace(s[0]) { TrimStartShortens(s[1..]); }
  }

  lemma {:induction false} TrimEndShortens(s: string)
    ensures |TrimEnd(s)| <= |s|
  {
    if s != "" && IsSpace(s[|s| - 1]) { TrimEndShortens(s[..|s| - 1]); }
  }

  function ItemNumber(p: Posting): string {
    if Trim(p.reference) == "" then p.entry else Trim(p.reference)
  }

  function Candidates(items: seq<Item>, schedule: nat, control: string): seq<Item> {
    if items == [] then [] else
      (if items[0].schedule == schedule && items[0].control == control && items[0].status != Closed then [items[0]]
        else [])
        + Candidates(items[1..], schedule, control)
  }

  function Targets(items: seq<Item>, schedule: nat, control: string, number: string): seq<Item> {
    if items == [] then [] else
      (if items[0].schedule == schedule && items[0].control == control && items[0].number == number
        && items[0].status != Closed
       then [items[0]] else [])
        + Targets(items[1..], schedule, control, number)
  }

  predicate Seen(details: seq<Posting>, correlation: nat) {
    exists i | 0 <= i < |details| :: details[i].correlation == correlation
  }

  predicate Recorded(b: Book, p: Posting) {
    p.schedule.Some? && !Seen(b.details, p.correlation) && p.schedule.value in b.schedules && FitsColumns(p)
  }

  function Opened(p: Posting, id: nat): Item
    requires p.schedule.Some?
  {
    Item(id, p.schedule.value, p.control, ItemNumber(p), p.account, Abs(p.amount), Abs(p.amount), Open, p.date, id)
  }

  /** The one item an application line reaches, if it can take the amount. */
  function Target(items: seq<Item>, schedule: nat, control: string, number: string, relieving: int): Option<Item> {
    var targets := Targets(items, schedule, control, number);
    if |targets| == 1 && ApplyAmount(targets[0].original, targets[0].remaining, relieving).Some? then Some(targets[0])
    else None
  }

  function SetBalance(items: seq<Item>, id: nat, remaining: int, status: Status): seq<Item> {
    if id < |items| then items[id := items[id].(remaining := remaining, status := status)] else items
  }

  function ApplyAll(items: seq<Item>, allocations: seq<Allocation>): seq<Item>
    decreases |allocations|
  {
    if allocations == [] then items
    else ApplyAll(SetBalance(items, allocations[0].id, allocations[0].newRemaining, allocations[0].newStatus),
      allocations[1..])
  }

  function Queue(b: Book, p: Posting): seq<Item>
    requires Recorded(b, p) && p.mark.OnAccount?
  {
    SortByAge(Candidates(b.items, p.schedule.value, p.control))
  }

  /** One posted line, in one transaction. */
  function Step(b: Book, p: Posting): Book {
    if !Recorded(b, p) then b else
      var recorded := b.(details := b.details + [p]);
      match p.mark
      case Opening => recorded.(items := b.items + [Opened(p, |b.items|)])
      case ToItem(number) =>
        (match Target(b.items, p.schedule.value, p.control, number, -p.amount)
         case None => recorded
         case Some(t) =>
           recorded.(items :=
             SetBalance(b.items, t.id, t.remaining + p.amount, DeriveStatus(t.original, t.remaining + p.amount))))
      case OnAccount =>
        var left := Unapplied(-p.amount, Capacities(Queue(b, p)));
        recorded.(items := ApplyAll(b.items, Allocations(Queue(b, p), -p.amount, 0)),
                  receipts := if left > 0 then b.receipts + [Receipt(p.schedule.value, p.control, left)]
                    else b.receipts)
  }

  function Run(b: Book, ps: seq<Posting>): Book
    decreases |ps|
  {
    if ps == [] then b else Run(Step(b, ps[0]), ps[1..])
  }

  // ----- what every step keeps -----

  /** Amounts are magnitudes, balances stay between zero and the original, and a closed item is
      one that applications have brought to zero. */
  predicate ItemOk(item: Item) {
    && 0 <= item.remaining <= item.original
    && (item.status == Closed ==> item.remaining == 0)
    && (item.remaining == 0 && item.original > 0 ==> item.status == Closed)
  }

  predicate ItemsOk(items: seq<Item>) {
    forall i | 0 <= i < |items| :: items[i].id == i && ItemOk(items[i])
  }

  function Remaining(items: seq<Item>, schedule: nat): int {
    if items == [] then 0
    else (if items[0].schedule == schedule then items[0].remaining else 0) + Remaining(items[1..], schedule)
  }

  function DetailTotal(details: seq<Posting>, schedule: nat): int {
    if details == [] then 0
    else (if details[0].schedule == Some(schedule) then details[0].amount else 0) + DetailTotal(details[1..], schedule)
  }

  lemma {:induction false} RemainingAppend(xs: seq<Item>, ys: seq<Item>, schedule: nat)
    ensures Remaining(xs + ys, schedule) == Remaining(xs, schedule) + Remaining(ys, schedule)
  {
    if xs == [] {
      assert xs + ys == ys;
    } else {
      assert (xs + ys)[1..] == xs[1..] + ys;
      RemainingAppend(xs[1..], ys, schedule);
    }
  }

  lemma {:induction false} DetailTotalAppend(xs: seq<Posting>, ys: seq<Posting>, schedule: nat)
    ensures DetailTotal(xs + ys, schedule) == DetailTotal(xs, schedule) + DetailTotal(ys, schedule)
  {
    if xs == [] {
      assert xs + ys == ys;
    } else {
      assert (xs + ys)[1..] == xs[1..] + ys;
      DetailTotalAppend(xs[1..], ys, schedule);
    }
  }

  /** Changing one balance changes the total of its schedule by the same amount. */
  lemma {:induction false} SetBalanceMovesTotal(items: seq<Item>, id: nat, remaining: int, status: Status,
    schedule: nat)
    requires id < |items|
    ensures Remaining(SetBalance(items, id, remaining, status), schedule)
         == Remaining(items, schedule) + if items[id].schedule == schedule then remaining - items[id].remaining else 0
  {
    var changed := SetBalance(items, id, remaining, status);
    assert items == items[..id] + ([items[id]] + items[id + 1..]);
    assert changed == items[..id] + ([changed[id]] + items[id + 1..]);
    RemainingAppend(items[..id], [items[id]] + items[id + 1..], schedule);
    RemainingAppend(items[..id], [changed[id]] + items[id + 1..], schedule);
  }

  lemma {:induction false} TargetsAreItems(items: seq<Item>, schedule: nat, control: string, number: string)
    ensures forall t | t in Targets(items, schedule, control, number) ::
              t in items && t.schedule == schedule && t.control == control && t.number == number && t.status != Closed
  {
    if items != [] {
      TargetsAreItems(items[1..], schedule, control, number);
    }
  }

  ghost predicate DistinctIds(items: seq<Item>) {
    forall i, j | 0 <= i < j < |items| :: items[i].id != items[j].id
  }

  /** The items are the stored rows, each once, of one schedule. */
  ghost predicate Drawn(ordered: seq<Item>, items: seq<Item>, schedule: nat) {
    && DistinctIds(ordered)
    && forall i | 0 <= i < |ordered| ::
      ordered[i].id < |items| && items[ordered[i].id] == ordered[i] && ordered[i].schedule == schedule
  }

  lemma {:induction false} CandidatesAreDrawn(items: seq<Item>, from: nat, schedule: nat, control: string)
    requires from <= |items| && ItemsOk(items)
    ensures Drawn(Candidates(items[from..], schedule, control), items, schedule)
    ensures forall c | c in Candidates(items[from..], schedule, control) ::
      c.id >= from && c.control == control && c.status != Closed
    decreases |items| - from
  {
    if from < |items| {
      assert items[from..][1..] == items[from + 1..];
      CandidatesAreDrawn(items, from + 1, schedule, control);
    }
  }

  lemma {:induction false} InsertStaysDrawn(item: Item, ordered: seq<Item>, items: seq<Item>, schedule: nat)
    requires Drawn(ordered, items, schedule) && Drawn([item], items, schedule)
    requires forall i | 0 <= i < |ordered| :: ordered[i].id != item.id
    ensures Drawn(InsertByAge(item, ordered), items, schedule)
  {
    assert [item][0] == item;
    if ordered != [] && Older(ordered[0], item) {
      InsertStaysDrawn(item, ordered[1..], items, schedule);
      InsertByAgePermutes(item, ordered[1..]);
      var tail := InsertByAge(item, ordered[1..]);
      forall j | 0 <= j < |tail| ensures tail[j].id != ordered[0].id {
        assert tail[j] in multiset(tail);
        assert tail[j] == item || tail[j] in ordered[1..];
      }
    }
  }

  lemma {:induction false} SortStaysDrawn(candidates: seq<Item>, items: seq<Item>, schedule: nat)
    requires Drawn(candidates, items, schedule)
    ensures Drawn(SortByAge(candidates), items, schedule)
  {
    if candidates != [] {
      SortStaysDrawn(candidates[1..], items, schedule);
      var rest := SortByAge(candidates[1..]);
      SweepOrderIsByAge(candidates[1..]);
      assert Drawn([candidates[0]], items, schedule);
      forall i | 0 <= i < |rest| ensures rest[i].id != candidates[0].id {
        assert rest[i] in multiset(rest);
        assert rest[i] in candidates[1..];
      }
      InsertStaysDrawn(candidates[0], rest, items, schedule);
    }
  }

  function Taken(items: seq<Item>, item: Item, portion: int): seq<Item> {
    SetBalance(items, item.id, item.remaining - portion, DeriveStatus(item.original, item.remaining - portion))
  }

  lemma {:induction false} OnePortion(ordered: seq<Item>, items: seq<Item>, schedule: nat, portion: int, other: nat)
    requires ItemsOk(items) && Drawn(ordered, items, schedule)
    requires ordered != [] && 0 < portion <= ordered[0].remaining
    ensures var changed := Taken(items, ordered[0], portion);
            && ItemsOk(changed) && Drawn(ordered[1..], changed, schedule)
            && Remaining(changed, other) == Remaining(items, other) - if other == schedule then portion else 0
  {
    var item := ordered[0];
    SetBalanceMovesTotal(items, item.id, item.remaining - portion,
      DeriveStatus(item.original, item.remaining - portion), other);
  }

  lemma AllocationsStep(ordered: seq<Item>, items: seq<Item>, incoming: int, ahead: nat)
    requires ordered != []
    ensures var portion := Portion(incoming, ahead, ordered[0]);
            var all, rest := Allocations(ordered, incoming, ahead),
              Allocations(ordered[1..], incoming, ahead + Capacity(ordered[0]));
            && PortionSum(all) == portion + PortionSum(rest)
            && ApplyAll(items, all) == ApplyAll(if portion == 0 then items else Taken(items, ordered[0], portion), rest)
  {
    var portion := Portion(incoming, ahead, ordered[0]);
    var all, rest := Allocations(ordered, incoming, ahead),
      Allocations(ordered[1..], incoming, ahead + Capacity(ordered[0]));
    if portion == 0 {
      assert all == rest;
    } else {
      assert all[1..] == rest;
    }
  }

  /** The first item of a sweep is done, and the rest goes on from there. */
  lemma SweepFirst(ordered: seq<Item>, items: seq<Item>, schedule: nat, incoming: int, ahead: nat, other: nat)
      returns (next: seq<Item>, portion: int)
    requires ItemsOk(items) && Drawn(ordered, items, schedule) && ordered != []
    ensures portion == Portion(incoming, ahead, ordered[0])
    ensures next == if portion == 0 then items else Taken(items, ordered[0], portion)
    ensures ItemsOk(next) && Drawn(ordered[1..], next, schedule)
    ensures Remaining(next, other) == Remaining(items, other) - if other == schedule then portion else 0
    ensures var all, rest := Allocations(ordered, incoming, ahead),
                             Allocations(ordered[1..], incoming, ahead + Capacity(ordered[0]));
            PortionSum(all) == portion + PortionSum(rest) && ApplyAll(items, all) == ApplyAll(next, rest)
  {
    portion := Portion(incoming, ahead, ordered[0]);
    next := if portion == 0 then items else Taken(items, ordered[0], portion);
    AllocationsStep(ordered, items, incoming, ahead);
    if portion != 0 {
      OnePortion(ordered, items, schedule, portion, other);
    }
  }

  /** A sweep keeps the rows sound and lowers the schedule's total by exactly the portions. */
  lemma {:induction false} SweepMovesTotal(
      ordered: seq<Item>, items: seq<Item>, schedule: nat, incoming: int, ahead: nat, other: nat)
    requires ItemsOk(items) && Drawn(ordered, items, schedule)
    ensures var allocations := Allocations(ordered, incoming, ahead);
            && ItemsOk(ApplyAll(items, allocations))
            && Remaining(ApplyAll(items, allocations), other)
                 == Remaining(items, other) - if other == schedule then PortionSum(allocations) else 0
    decreases |ordered|
  {
    if ordered != [] {
      var next, portion := SweepFirst(ordered, items, schedule, incoming, ahead, other);
      SweepMovesTotal(ordered[1..], next, schedule, incoming, ahead + Capacity(ordered[0]), other);
    }
  }

  // ----- the variance of a schedule -----

  /** What the open items of a schedule exceed its posted details by. */
  function Variance(b: Book, schedule: nat): int {
    Remaining(b.items, schedule) - DetailTotal(b.details, schedule)
  }

  /** What one line adds to that variance: twice an opening credit, an application that reaches
      no item, and what a sweep leaves over. */
  function Drift(b: Book, p: Posting, schedule: nat): int {
    if !Recorded(b, p) || p.schedule != Some(schedule) then 0 else
      match p.mark
      case Opening => if p.amount < 0 then -2 * p.amount else 0
      case ToItem(number) => if Target(b.items, schedule, p.control, number, -p.amount).Some? then 0 else -p.amount
      case OnAccount => Unapplied(-p.amount, Capacities(Queue(b, p)))
  }

  lemma OpeningDrift(b: Book, p: Posting, schedule: nat)
    requires ItemsOk(b.items) && Recorded(b, p) && p.mark.Opening?
    ensures ItemsOk(Step(b, p).items)
    ensures Variance(Step(b, p), schedule) == Variance(b, schedule) + Drift(b, p, schedule)
  {
    RemainingAppend(b.items, [Opened(p, |b.items|)], schedule);
    DetailTotalAppend(b.details, [p], schedule);
    assert [p][1..] == [] && [Opened(p, |b.items|)][1..] == [];
  }

  lemma ApplicationDrift(b: Book, p: Posting, schedule: nat)
    requires ItemsOk(b.items) && Recorded(b, p) && p.mark.ToItem?
    ensures ItemsOk(Step(b, p).items)
    ensures Variance(Step(b, p), schedule) == Variance(b, schedule) + Drift(b, p, schedule)
  {
    DetailTotalAppend(b.details, [p], schedule);
    assert [p][1..] == [];
    var target := Target(b.items, p.schedule.value, p.control, p.mark.number, -p.amount);
    if target.Some? {
      var t := target.value;
      TargetsAreItems(b.items, p.schedule.value, p.control, p.mark.number);
      assert t in b.items && b.items[t.id] == t;
      SetBalanceMovesTotal(b.items, t.id, t.remaining + p.amount, DeriveStatus(t.original, t.remaining + p.amount),
        schedule);
    }
  }

  lemma QueueIsDrawn(b: Book, p: Posting)
    requires ItemsOk(b.items) && Recorded(b, p) && p.mark.OnAccount?
    ensures Drawn(Queue(b, p), b.items, p.schedule.value)
  {
    assert b.items[0..] == b.items;
    CandidatesAreDrawn(b.items, 0, p.schedule.value, p.control);
    SortStaysDrawn(Candidates(b.items, p.schedule.value, p.control), b.items, p.schedule.value);
  }

  lemma {:induction false} SweepLowersItems(b: Book, p: Posting, schedule: nat)
    requires ItemsOk(b.items) && Recorded(b, p) && p.mark.OnAccount?
    ensures ItemsOk(Step(b, p).items)
    ensures Remaining(Step(b, p).items, schedule)
         == Remaining(b.items, schedule)
            - if p.schedule == Some(schedule) then Min(Max(0, -p.amount), Capacities(Queue(b, p))) else 0
  {
    QueueIsDrawn(b, p);
    SweepMovesTotal(Queue(b, p), b.items, p.schedule.value, -p.amount, 0, schedule);
    PortionsConserve(Queue(b, p), -p.amount, 0);
  }

  lemma SweepDrift(b: Book, p: Posting, schedule: nat)
    requires ItemsOk(b.items) && Recorded(b, p) && p.mark.OnAccount?
    ensures ItemsOk(Step(b, p).items)
    ensures Variance(Step(b, p), schedule) == Variance(b, schedule) + Drift(b, p, schedule)
  {
    SweepLowersItems(b, p, schedule);
    DetailTotalAppend(b.details, [p], schedule);
    assert [p][1..] == [] && Step(b, p).details == b.details + [p];
  }

  /** Every step keeps the rows sound, and the variance grows by exactly the drift. */
  lemma StepDrift(b: Book, p: Posting, schedule: nat)
    requires ItemsOk(b.items)
    ensures ItemsOk(Step(b, p).items)
    ensures Variance(Step(b, p), schedule) == Variance(b, schedule) + Drift(b, p, schedule)
  {
    if Recorded(b, p) {
      match p.mark
      case Opening => OpeningDrift(b, p, schedule);
      case ToItem(_) => ApplicationDrift(b, p, schedule);
      case OnAccount => SweepDrift(b, p, schedule);
    }
  }

  lemma StepKeepsItems(b: Book, p: Posting)
    requires ItemsOk(b.items)
    ensures ItemsOk(Step(b, p).items)
  {
    StepDrift(b, p, 0);
  }

  function RunDrift(b: Book, ps: seq<Posting>, schedule: nat): int
    decreases |ps|
  {
    if ps == [] then 0 else Drift(b, ps[0], schedule) + RunDrift(Step(b, ps[0]), ps[1..], schedule)
  }

  /** On every run, items minus details is exactly the accumulated drift. */
  lemma {:induction false} VarianceIsAccumulatedDrift(b: Book, ps: seq<Posting>, schedule: nat)
    requires ItemsOk(b.items)
    ensures ItemsOk(Run(b, ps).items)
    ensures Variance(Run(b, ps), schedule) == Variance(b, schedule) + RunDrift(b, ps, schedule)
    decreases |ps|
  {
    if ps != [] {
      StepDrift(b, ps[0], schedule);
      VarianceIsAccumulatedDrift(Step(b, ps[0]), ps[1..], schedule);
    }
  }

  // ----- the service -----

  function OutcomeOf(b: Book, p: Posting): Outcome {
    if p.schedule.None? then SkippedNotScheduled
    else if Seen(b.details, p.correlation) then AlreadyProcessed
    else if p.schedule.value !in b.schedules then SkippedScheduleNotFound
    else if !FitsColumns(p) then Failed
    else match p.mark
      case Opening => NewItem
      case ToItem(number) =>
        if Target(b.items, p.schedule.value, p.control, number, -p.amount).Some? then Application
        else UnresolvedApplication
      case OnAccount =>
        if Unapplied(-p.amount, Capacities(Queue(b, p))) > 0 && Allocations(Queue(b, p), -p.amount, 0) == []
          then RoutedToUnappliedCredit
        else AutoApplied
  }

  class OpenItemService {
    const schedules: set<nat>
    var items: seq<Item>
    var details: seq<Posting>
    var receipts: seq<Receipt>

    ghost predicate Valid()
      reads this
    {
      ItemsOk(items)
    }

    ghost function Contents(): Book
      reads this
    {
      Book(schedules, items, details, receipts)
    }

    constructor (schedules: set<nat>)
      ensures Valid() && Contents() == Book(schedules, [], [], [])
    {
      this.schedules := schedules;
      items, details, receipts := [], [], [];
    }

    /** One posted line: recorded once, and opened, applied or swept. */
    method ProcessPostingEvent(p: Posting) returns (outcome: Outcome)
      requires Valid()
      modifies this
      ensures Valid()
      ensures Contents() == Step(old(Contents()), p)
      ensures outcome == OutcomeOf(old(Contents()), p)
    {
      ghost var before := Contents();
      StepKeepsItems(before, p);
      if p.schedule.None? { return SkippedNotScheduled; }
      if Seen(details, p.correlation) { return AlreadyProcessed; }
      if p.schedule.value !in schedules { return SkippedScheduleNotFound; }
      if !FitsColumns(p) { return Failed; }
      details := details + [p];
      outcome := ApplyMark(p, before);
    }

    method ApplyMark(p: Posting, ghost before: Book) returns (outcome: Outcome)
      requires Valid() && Recorded(before, p)
      requires schedules == before.schedules && items == before.items && receipts == before.receipts
      modifies this`items, this`receipts
      ensures items == Step(before, p).items && receipts == Step(before, p).receipts
      ensures outcome == OutcomeOf(before, p)
    {
      match p.mark {
        case Opening =>
          items := items + [Opened(p, |items|)];
          outcome := NewItem;
        case ToItem(number) =>
          outcome := ApplyToItem(p, number);
        case OnAccount =>
          outcome := SweepOnAccount(p, before);
      }
    }

    method ApplyToItem(p: Posting, number: string) returns (outcome: Outcome)
      requires Valid() && p.schedule.Some?
      modifies this`items
      ensures match Target(old(items), p.schedule.value, p.control, number, -p.amount)
              case None => items == old(items) && outcome == UnresolvedApplication
              case Some(t) =>
                && items == SetBalance(old(items), t.id, t.remaining + p.amount,
                  DeriveStatus(t.original, t.remaining + p.amount))
                && outcome == Application
    {
      var targets := Targets(items, p.schedule.value, p.control, number);
      if |targets| != 1 { return UnresolvedApplication; }
      var target := targets[0];
      var next := ApplyAmount(target.original, target.remaining, -p.amount);
      if next.None? { return UnresolvedApplication; }
      items := SetBalance(items, target.id, next.value, DeriveStatus(target.original, next.value));
      return Application;
    }

    method WriteAllocations(allocations: seq<Allocation>)
      modifies this`items
      ensures items == ApplyAll(old(items), allocations)
    {
      for i := 0 to |allocations|
        invariant ApplyAll(old(items), allocations) == ApplyAll(items, allocations[i..])
      {
        assert allocations[i..][0] == allocations[i] && allocations[i..][1..] == allocations[i + 1..];
        items := SetBalance(items, allocations[i].id, allocations[i].newRemaining, allocations[i].newStatus);
      }
    }

    method SweepOnAccount(p: Posting, ghost before: Book) returns (outcome: Outcome)
      requires Valid() && Recorded(before, p) && p.mark.OnAccount?
      requires items == before.items && receipts == before.receipts
      modifies this`items, this`receipts
      ensures items == ApplyAll(before.items, Allocations(Queue(before, p), -p.amount, 0))
      ensures var left := Unapplied(-p.amount, Capacities(Queue(before, p)));
              receipts == if left > 0 then before.receipts + [Receipt(p.schedule.value, p.control, left)]
                else before.receipts
      ensures outcome == OutcomeOf(before, p)
    {
      var candidates := Candidates(items, p.schedule.value, p.control);
      CandidatesAreSound(items, p.schedule.value, p.control);
      var allocations, unapplied := SweepFifo(candidates, -p.amount);
      WriteAllocations(allocations);
      if unapplied > 0 {
        receipts := receipts + [Receipt(p.schedule.value, p.control, unapplied)];
        return if allocations == [] then RoutedToUnappliedCredit else AutoApplied;
      }
      return AutoApplied;
    }
  }

  lemma {:induction false} CandidatesAreSound(items: seq<Item>, schedule: nat, control: string)
    requires ItemsOk(items)
    ensures forall i | 0 <= i < |Candidates(items, schedule, control)| ::
      WithinBounds(Candidates(items, schedule, control)[i])
  {
    assert items[0..] == items;
    CandidatesAreDrawn(items, 0, schedule, control);
  }

  // ----- redelivery -----

  lemma {:induction false} DetailsOnlyGrow(b: Book, ps: seq<Posting>, correlation: nat)
    requires Seen(b.details, correlation)
    ensures Seen(Run(b, ps).details, correlation) && Run(b, ps).schedules == b.schedules
    decreases |ps|
  {
    if ps != [] {
      var i :| 0 <= i < |b.details| && b.details[i].correlation == correlation;
      assert Step(b, ps[0]).details[i] == b.details[i];
      DetailsOnlyGrow(Step(b, ps[0]), ps[1..], correlation);
    }
  }

  /** At-least-once delivery is safe: a recorded line delivered again, at any later time, changes nothing. */
  lemma {:induction false} RedeliveryIsAbsorbed(b: Book, p: Posting, ps: seq<Posting>)
    requires p.schedule.Some? && p.schedule.value in b.schedules
    ensures var later := Run(Step(b, p), ps);
            && Step(later, p) == later && OutcomeOf(later, p) in {AlreadyProcessed, Failed}
            && (FitsColumns(p) ==> OutcomeOf(later, p) == AlreadyProcessed)
  {
    if FitsColumns(p) {
      if Recorded(b, p) {
        assert Step(b, p).details[|b.details|] == p;
      }
      assert Seen(Step(b, p).details, p.correlation);
      DetailsOnlyGrow(Step(b, p), ps, p.correlation);
    } else {
      SchedulesStay(Step(b, p), ps);
    }
  }

  lemma {:induction false} SchedulesStay(b: Book, ps: seq<Posting>)
    ensures Run(b, ps).schedules == b.schedules
    decreases |ps|
  {
    if ps != [] { SchedulesStay(Step(b, ps[0]), ps[1..]); }
  }

  // ----- schedules of asset accounts -----

  /** Applications are credits. */
  predicate AssetLine(p: Posting) {
    p.mark.Opening? || p.amount <= 0
  }

  /** The line did what its side is for: a debit opened an item, or a relief was taken in full when it came. */
  predicate FullyRelieved(b: Book, p: Posting) {
    Recorded(b, p) ==>
      match p.mark
      case Opening => p.amount >= 0
      case ToItem(number) => p.amount == 0 || Target(b.items, p.schedule.value, p.control, number, -p.amount).Some?
      case OnAccount => -p.amount <= Capacities(Queue(b, p))
  }

  predicate AllRelieved(b: Book, ps: seq<Posting>, schedule: nat)
    decreases |ps|
  {
    ps == [] || ((ps[0].schedule == Some(schedule) ==> FullyRelieved(b, ps[0]))
      && AllRelieved(Step(b, ps[0]), ps[1..], schedule))
  }

  /** On an asset schedule the items never fall below the details, and they tie out exactly when no credit opened
      an item and every relief found its item and enough balance. */
  lemma {:induction false} AssetItemsTieOutExactlyWhenRelieved(b: Book, ps: seq<Posting>, schedule: nat)
    requires forall p | p in ps && p.schedule == Some(schedule) :: AssetLine(p)
    ensures RunDrift(b, ps, schedule) >= 0
    ensures RunDrift(b, ps, schedule) == 0 <==> AllRelieved(b, ps, schedule)
    decreases |ps|
  {
    if ps != [] {
      assert ps[0] in ps;
      AssetItemsTieOutExactlyWhenRelieved(Step(b, ps[0]), ps[1..], schedule);
    }
  }

  // ----- schedules of liability accounts -----

  /** Applications are debits. */
  predicate LiabilityLine(p: Posting) {
    p.mark.Opening? || p.amount > 0
  }

  /** No application has reached an item of the schedule. */
  predicate Untouched(items: seq<Item>, schedule: nat) {
    forall i | 0 <= i < |items| && items[i].schedule == schedule :: items[i].remaining == items[i].original
  }

  /** What the debits recorded against a schedule leave unexplained: an application never relieves, and a debit
      that opens an item counts twice. */
  function Debits(b: Book, ps: seq<Posting>, schedule: nat): int
    decreases |ps|
  {
    if ps == [] then 0 else DebitOf(b, ps[0], schedule) + Debits(Step(b, ps[0]), ps[1..], schedule)
  }

  function DebitOf(b: Book, p: Posting, schedule: nat): int {
    if !Recorded(b, p) || p.schedule != Some(schedule) then 0
    else if p.mark.Opening? then Max(0, 2 * p.amount) else p.amount
  }

  lemma DebitReachesNoItem(b: Book, p: Posting)
    requires ItemsOk(b.items) && Recorded(b, p) && LiabilityLine(p) && !p.mark.Opening?
    requires Untouched(b.items, p.schedule.value)
    ensures Step(b, p).items == b.items && OutcomeOf(b, p) in {UnresolvedApplication, AutoApplied}
  {
    match p.mark
    case ToItem(number) =>
      TargetsAreItems(b.items, p.schedule.value, p.control, number);
      var targets := Targets(b.items, p.schedule.value, p.control, number);
      if |targets| == 1 {
        assert targets[0] in b.items && targets[0].remaining == targets[0].original;
      }
    case OnAccount =>
      NothingLeftNothingAllocated(Queue(b, p), -p.amount, 0);
  }

  lemma OtherSchedulesStayUntouched(b: Book, p: Posting, schedule: nat)
    requires ItemsOk(b.items) && Untouched(b.items, schedule) && Recorded(b, p)
    requires p.schedule.value != schedule && p.mark.OnAccount?
    ensures Untouched(Step(b, p).items, schedule)
  {
    QueueIsDrawn(b, p);
    SweepStaysOnSchedule(Queue(b, p), b.items, p.schedule.value, -p.amount, 0, schedule);
  }

  lemma {:induction false} SweepStaysOnSchedule(ordered: seq<Item>, items: seq<Item>, schedule: nat, incoming: int,
    ahead: nat, other: nat)
    requires ItemsOk(items) && Drawn(ordered, items, schedule) && other != schedule && Untouched(items, other)
    ensures Untouched(ApplyAll(items, Allocations(ordered, incoming, ahead)), other)
    decreases |ordered|
  {
    if ordered != [] {
      var next, portion := SweepFirst(ordered, items, schedule, incoming, ahead, other);
      assert Untouched(next, other);
      SweepStaysOnSchedule(ordered[1..], next, schedule, incoming, ahead + Capacity(ordered[0]), other);
    }
  }

  lemma LiabilityStep(b: Book, p: Posting, schedule: nat)
    requires ItemsOk(b.items) && Untouched(b.items, schedule)
    requires p.schedule == Some(schedule) ==> LiabilityLine(p)
    ensures Untouched(Step(b, p).items, schedule)
  {
    if Recorded(b, p) {
      if p.schedule == Some(schedule) && !p.mark.Opening? {
        DebitReachesNoItem(b, p);
      } else if p.mark.OnAccount? {
        OtherSchedulesStayUntouched(b, p, schedule);
      } else if p.mark.ToItem? {
        TargetsAreItems(b.items, p.schedule.value, p.control, p.mark.number);
      }
    }
  }

  /** On a liability schedule no debit ever relieves an item: the items stay at their original amounts and
      exceed the credit balance of the details by all the debits recorded. */
  lemma {:induction false} LiabilityItemsAreNeverRelieved(b: Book, ps: seq<Posting>, schedule: nat)
    requires ItemsOk(b.items) && Untouched(b.items, schedule)
    requires forall p | p in ps && p.schedule == Some(schedule) :: LiabilityLine(p)
    ensures Untouched(Run(b, ps).items, schedule)
    ensures Remaining(Run(b, ps).items, schedule) + DetailTotal(Run(b, ps).details, schedule)
         == Remaining(b.items, schedule) + DetailTotal(b.details, schedule) + Debits(b, ps, schedule)
    decreases |ps|
  {
    if ps != [] {
      var p := ps[0];
      assert p in ps;
      LiabilityStep(b, p, schedule);
      StepDrift(b, p, schedule);
      LiabilityStepTotal(b, p, schedule);
      LiabilityItemsAreNeverRelieved(Step(b, p), ps[1..], schedule);
    }
  }

  lemma {:induction false} LiabilityStepTotal(b: Book, p: Posting, schedule: nat)
    requires ItemsOk(b.items) && Untouched(b.items, schedule)
    requires p.schedule == Some(schedule) ==> LiabilityLine(p)
    ensures Remaining(Step(b, p).items, schedule) + DetailTotal(Step(b, p).details, schedule)
         == Remaining(b.items, schedule) + DetailTotal(b.details, schedule)
            + DebitOf(b, p, schedule)
  {
    StepDrift(b, p, schedule);
    if Recorded(b, p) {
      DetailTotalAppend(b.details, [p], schedule);
      assert [p][1..] == [];
      if p.schedule == Some(schedule) && !p.mark.Opening? {
        DebitReachesNoItem(b, p);
      }
    }
  }

  /** A credit applied to an item of a liability schedule, as a write-off posts it, lowers the item
      while the liability grows. */
  lemma CreditApplicationGoesTheOtherWay(b: Book, p: Posting)
    requires ItemsOk(b.items) && p.mark.ToItem? && p.amount < 0 && OutcomeOf(b, p) == Application
    ensures var s := p.schedule.value;
            && Remaining(Step(b, p).items, s) == Remaining(b.items, s) - Abs(p.amount)
            && -DetailTotal(Step(b, p).details, s) == -DetailTotal(b.details, s) + Abs(p.amount)
  {
    StepDrift(b, p, p.schedule.value);
    DetailTotalAppend(b.details, [p], p.schedule.value);
    assert [p][1..] == [];
  }

  // ----- lines that lower and raise the items of a liability -----

  /** What the items of a liability schedule exceed its credit balance by. */
  function Excess(b: Book, schedule: nat): int {
    Remaining(b.items, schedule) + DetailTotal(b.details, schedule)
  }

  /** What one line adds to that excess, debit or credit: nothing for an opening credit, twice its amount for an opening
      debit or for an application that reaches its item, its amount for one that does not. */
  function ExcessOf(b: Book, p: Posting, schedule: nat): int {
    if !Recorded(b, p) || p.schedule != Some(schedule) then 0 else
      match p.mark
      case Opening => Max(0, 2 * p.amount)
      case ToItem(number) => if Target(b.items, schedule, p.control, number, -p.amount).Some? then 2 * p.amount
        else p.amount
      case OnAccount => 2 * p.amount + Unapplied(-p.amount, Capacities(Queue(b, p)))
  }

  function RunExcess(b: Book, ps: seq<Posting>, schedule: nat): int
    decreases |ps|
  {
    if ps == [] then 0 else ExcessOf(b, ps[0], schedule) + RunExcess(Step(b, ps[0]), ps[1..], schedule)
  }

  lemma StepExcess(b: Book, p: Posting, schedule: nat)
    requires ItemsOk(b.items)
    ensures ItemsOk(Step(b, p).items)
    ensures Excess(Step(b, p), schedule) == Excess(b, schedule) + ExcessOf(b, p, schedule)
  {
    StepDrift(b, p, schedule);
    if Recorded(b, p) {
      DetailTotalAppend(b.details, [p], schedule);
      assert [p][1..] == [];
    }
  }

  /** On every run, with whatever lines, the excess is the sum of what the lines add. */
  lemma {:induction false} ExcessIsAccumulated(b: Book, ps: seq<Posting>, schedule: nat)
    requires ItemsOk(b.items)
    ensures ItemsOk(Run(b, ps).items)
    ensures Excess(Run(b, ps), schedule) == Excess(b, schedule) + RunExcess(b, ps, schedule)
    decreases |ps|
  {
    if ps != [] {
      StepExcess(b, ps[0], schedule);
      ExcessIsAccumulated(Step(b, ps[0]), ps[1..], schedule);
    }
  }

  /** An application debit is taken exactly when it is for one open item and within what earlier credit applications,
      less earlier debits, have lowered that item by. */
  lemma DebitIsTakenExactlyWithinEarlierCredits(b: Book, p: Posting)
    requires ItemsOk(b.items) && Recorded(b, p) && p.mark.ToItem? && p.amount > 0
    ensures var targets := Targets(b.items, p.schedule.value, p.control, p.mark.number);
            OutcomeOf(b, p) == Application <==> |targets| == 1 && p.amount <= targets[0].original - targets[0].remaining
  {
    var targets := Targets(b.items, p.schedule.value, p.control, p.mark.number);
    TargetsAreItems(b.items, p.schedule.value, p.control, p.mark.number);
    if |targets| == 1 {
      assert targets[0] in targets && targets[0] in b.items;
    }
  }

  predicate TiesThroughout(b: Book, ps: seq<Posting>, schedule: nat)
    decreases |ps|
  {
    Excess(b, schedule) == 0 && (ps == [] || TiesThroughout(Step(b, ps[0]), ps[1..], schedule))
  }

  /** The line opens a liability, or moves nothing. */
  predicate OpensLiability(p: Posting) {
    p.amount == 0 || (p.mark.Opening? && p.amount < 0)
  }

  predicate OnlyOpenings(b: Book, ps: seq<Posting>, schedule: nat)
    decreases |ps|
  {
    ps == []
    || ((Recorded(b, ps[0]) && ps[0].schedule == Some(schedule) ==> OpensLiability(ps[0]))
        && OnlyOpenings(Step(b, ps[0]), ps[1..], schedule))
  }

  /** A liability schedule ties out at every point of a run exactly when the run records nothing on it but opening
      credits: any relief and any write-off breaks the tie. */
  lemma {:induction false} TiesThroughoutExactlyWithOnlyOpenings(b: Book, ps: seq<Posting>, schedule: nat)
    requires ItemsOk(b.items) && Excess(b, schedule) == 0
    ensures TiesThroughout(b, ps, schedule) <==> OnlyOpenings(b, ps, schedule)
    decreases |ps|
  {
    if ps != [] {
      var p, next := ps[0], Step(b, ps[0]);
      StepExcess(b, p, schedule);
      if Excess(next, schedule) == 0 {
        TiesThroughoutExactlyWithOnlyOpenings(next, ps[1..], schedule);
      }
      assert Recorded(b, p) && p.schedule == Some(schedule) ==> (ExcessOf(b, p, schedule) == 0 <==> OpensLiability(p));
    }
  }

  /** A credit application that reaches an item lowers it. */
  predicate Lowers(b: Book, p: Posting, schedule: nat) {
    Recorded(b, p) && p.schedule == Some(schedule) && p.mark.ToItem? && p.amount < 0
    && Target(b.items, schedule, p.control, p.mark.number, -p.amount).Some?
  }

  predicate NoneLowers(b: Book, ps: seq<Posting>, schedule: nat)
    decreases |ps|
  {
    ps == [] || (!Lowers(b, ps[0], schedule) && NoneLowers(Step(b, ps[0]), ps[1..], schedule))
  }

  predicate UntouchedThroughout(b: Book, ps: seq<Posting>, schedule: nat)
    decreases |ps|
  {
    Untouched(b.items, schedule) && (ps == [] || UntouchedThroughout(Step(b, ps[0]), ps[1..], schedule))
  }

  lemma UntouchedStepExactly(b: Book, p: Posting, schedule: nat)
    requires ItemsOk(b.items) && Untouched(b.items, schedule) && !p.mark.OnAccount?
    ensures Untouched(Step(b, p).items, schedule) <==> !Lowers(b, p, schedule)
  {
    if Recorded(b, p) && p.mark.ToItem? {
      TargetsAreItems(b.items, p.schedule.value, p.control, p.mark.number);
      var target := Target(b.items, p.schedule.value, p.control, p.mark.number, -p.amount);
      if target.Some? {
        var t := target.value;
        assert t in b.items && b.items[t.id] == t;
        assert Step(b, p).items[t.id].remaining == t.remaining + p.amount;
      }
    }
  }

  /** Without sweeps, the items of a schedule keep their original amounts throughout a run exactly when no credit
      application ever reaches one: debits on their own never do. */
  lemma {:induction false} UntouchedExactlyWhenNoneLowers(b: Book, ps: seq<Posting>, schedule: nat)
    requires ItemsOk(b.items) && Untouched(b.items, schedule)
    requires forall p | p in ps :: !p.mark.OnAccount?
    ensures UntouchedThroughout(b, ps, schedule) <==> NoneLowers(b, ps, schedule)
    decreases |ps|
  {
    if ps != [] {
      assert ps[0] in ps;
      StepKeepsItems(b, ps[0]);
      UntouchedStepExactly(b, ps[0], schedule);
      if Untouched(Step(b, ps[0]).items, schedule) {
        UntouchedExactlyWhenNoneLowers(Step(b, ps[0]), ps[1..], schedule);
      }
    }
  }

  // ----- lines that are all recorded -----

  predicate FreshLines(b: Book, ps: seq<Posting>) {
    && (forall i | 0 <= i < |ps| ::
      ps[i].schedule.Some? && ps[i].schedule.value in b.schedules && !Seen(b.details, ps[i].correlation))
    && (forall i, j | 0 <= i < j < |ps| :: ps[i].correlation != ps[j].correlation)
  }

  /** The lines whose texts fit. */
  function Fitting(ps: seq<Posting>): seq<Posting> {
    if ps == [] then [] else (if FitsColumns(ps[0]) then [ps[0]] else []) + Fitting(ps[1..])
  }

  lemma FreshStep(b: Book, ps: seq<Posting>)
    requires FreshLines(b, ps) && ps != []
    ensures FreshLines(Step(b, ps[0]), ps[1..])
    ensures Step(b, ps[0]).details == b.details + if FitsColumns(ps[0]) then [ps[0]] else []
  {
  }

  /** Lines with fresh, different correlation ids on known schedules are recorded, in order, exactly if their texts
      fit. */
  lemma {:induction false} FreshLinesAreRecorded(b: Book, ps: seq<Posting>)
    requires FreshLines(b, ps)
    ensures Run(b, ps).details == b.details + Fitting(ps)
    decreases |ps|
  {
    if ps != [] {
      FreshStep(b, ps);
      FreshLinesAreRecorded(Step(b, ps[0]), ps[1..]);
      var head := if FitsColumns(ps[0]) then [ps[0]] else [];
      assert b.details + head + Fitting(ps[1..]) == b.details + (head + Fitting(ps[1..]));
    }
  }

  predicate NoItems(items: seq<Item>, schedule: nat) {
    forall i | 0 <= i < |items| :: items[i].schedule != schedule
  }

  lemma {:induction false} NoItemsNoBalance(items: seq<Item>, schedule: nat)
    requires NoItems(items, schedule)
    ensures Remaining(items, schedule) == 0
  {
    if items != [] {
      NoItemsNoBalance(items[1..], schedule);
    }
  }

  lemma {:induction false} BalancesKeepSchedules(items: seq<Item>, allocations: seq<Allocation>, schedule: nat)
    requires NoItems(items, schedule)
    ensures NoItems(ApplyAll(items, allocations), schedule)
    decreases |allocations|
  {
    if allocations != [] {
      BalancesKeepSchedules(SetBalance(items, allocations[0].id, allocations[0].newRemaining, allocations[0].newStatus),
        allocations[1..], schedule);
    }
  }

  /** A recorded line of the schedule that opens an item. */
  predicate OpensItem(b: Book, p: Posting, schedule: nat) {
    Recorded(b, p) && p.schedule == Some(schedule) && p.mark.Opening?
  }

  predicate NoneOpens(b: Book, ps: seq<Posting>, schedule: nat)
    decreases |ps|
  {
    ps == [] || (!OpensItem(b, ps[0], schedule) && NoneOpens(Step(b, ps[0]), ps[1..], schedule))
  }

  lemma {:induction false} ItemsNeverGo(b: Book, ps: seq<Posting>, schedule: nat, k: nat)
    requires ItemsOk(b.items) && k < |b.items| && b.items[k].schedule == schedule
    ensures k < |Run(b, ps).items| && Run(b, ps).items[k].schedule == schedule
    decreases |ps|
  {
    if ps != [] {
      var p := ps[0];
      StepKeepsItems(b, p);
      if Recorded(b, p) && p.mark.OnAccount? {
        BalancesKeepIdentity(b.items, Allocations(Queue(b, p), -p.amount, 0), k);
      }
      ItemsNeverGo(Step(b, p), ps[1..], schedule, k);
    }
  }

  lemma {:induction false} BalancesKeepIdentity(items: seq<Item>, allocations: seq<Allocation>, k: nat)
    requires k < |items|
    ensures k < |ApplyAll(items, allocations)| && ApplyAll(items, allocations)[k].schedule == items[k].schedule
    decreases |allocations|
  {
    if allocations != [] {
      BalancesKeepIdentity(SetBalance(items, allocations[0].id, allocations[0].newRemaining, allocations[0].newStatus),
        allocations[1..], k);
    }
  }

  /** A schedule gets no item exactly when no recorded line of it opens one. */
  lemma {:induction false} NoItemsExactlyWhenNoneOpens(b: Book, ps: seq<Posting>, schedule: nat)
    requires ItemsOk(b.items) && NoItems(b.items, schedule)
    ensures NoItems(Run(b, ps).items, schedule) <==> NoneOpens(b, ps, schedule)
    ensures NoneOpens(b, ps, schedule) ==> Remaining(Run(b, ps).items, schedule) == 0
    decreases |ps|
  {
    if ps == [] {
      NoItemsNoBalance(b.items, schedule);
    } else {
      var p := ps[0];
      StepKeepsItems(b, p);
      if Recorded(b, p) && p.mark.OnAccount? {
        BalancesKeepSchedules(b.items, Allocations(Queue(b, p), -p.amount, 0), schedule);
      }
      if OpensItem(b, p, schedule) {
        ItemsNeverGo(Step(b, p), ps[1..], schedule, |b.items|);
      } else {
        NoItemsExactlyWhenNoneOpens(Step(b, p), ps[1..], schedule);
      }
    }
  }
}
