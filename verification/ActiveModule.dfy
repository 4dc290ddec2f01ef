/** Which navigation module a path belongs to: modules sorted by their longest prefix, first match wins. */
module ActiveModule {
  import opened Sums

  datatype Module = Module(key: string, prefixes: seq<string>)

  /** The prefix covers the path itself and, except for the root, everything below it. */
  predicate Covers(prefix: string, path: string) {
    path == prefix || (prefix != "/" && |path| > |prefix| && path[..|prefix|] == prefix && path[|prefix|] == '/')
  }

  predicate Matches(m: Module, path: string) {
    exists i | 0 <= i < |m.prefixes| :: Covers(m.prefixes[i], path)
  }

  function LongestPrefix(prefixes: seq<string>): int {
    if prefixes == [] then -1 else Max(|prefixes[0]|, LongestPrefix(prefixes[1..]))
  }

  function Longest(m: Module): int { LongestPrefix(m.prefixes) }

  // ----- the code: a stable sort, longest first, and the first match -----

  function InsertByLength(m: Module, ms: seq<Module>): seq<Module> {
    if ms == [] || Longest(ms[0]) <= Longest(m) then [m] + ms else [ms[0]] + InsertByLength(m, ms[1..])
  }

  function SortByLength(ms: seq<Module>): seq<Module> {
    if ms == [] then [] else InsertByLength(ms[0], SortByLength(ms[1..]))
  }

  function FirstMatch(ms: seq<Module>, path: string): Option<Module> {
    if ms == [] then None else if Matches(ms[0], path) then Some(ms[0]) else FirstMatch(ms[1..], path)
  }

  function ActiveModuleFor(ms: seq<Module>, path: string): Option<Module> {
    FirstMatch(SortByLength(ms), path)
  }

  ghost predicate Descending(ms: seq<Module>) {
    forall i, j | 0 <= i < j < |ms| :: Longest(ms[i]) >= Longest(ms[j])
  }

  /** The first match, found without sorting. */
  function Best(ms: seq<Module>, path: string): Option<Module> {
    if ms == [] then None else
      var rest := Best(ms[1..], path);
      if Matches(ms[0], path) && (rest.None? || Longest(ms[0]) >= Longest(rest.value)) then Some(ms[0]) else rest
  }

  lemma {:induction false} FirstMatchIsIn(ms: seq<Module>, path: string)
    ensures FirstMatch(ms, path).Some? ==> FirstMatch(ms, path).value in ms
  {
    if ms != [] { FirstMatchIsIn(ms[1..], path); }
  }

  lemma {:induction false} InsertedModule(m: Module, ms: seq<Module>, path: string)
    requires Descending(ms)
    ensures var rest := FirstMatch(ms, path);
            FirstMatch(InsertByLength(m, ms), path)
              == if Matches(m, path) && (rest.None? || Longest(m) >= Longest(rest.value)) then Some(m) else rest
    ensures Descending(InsertByLength(m, ms))
    ensures forall n | n in InsertByLength(m, ms) :: n == m || n in ms
  {
    FirstMatchIsIn(ms, path);
    if ms != [] && Longest(ms[0]) > Longest(m) {
      InsertedModule(m, ms[1..], path);
      var tail := InsertByLength(m, ms[1..]);
      forall j | 0 <= j < |tail| ensures Longest(ms[0]) >= Longest(tail[j]) {
        assert tail[j] in tail;
      }
    }
  }

  lemma {:induction false} SortedFirstMatchIsBest(ms: seq<Module>, path: string)
    ensures Descending(SortByLength(ms)) && ActiveModuleFor(ms, path) == Best(ms, path)
  {
    if ms != [] {
      SortedFirstMatchIsBest(ms[1..], path);
      InsertedModule(ms[0], SortByLength(ms[1..]), path);
    }
  }

  /** Position i comes before position j in the sorted list. */
  predicate Precedes(ms: seq<Module>, i: nat, j: nat)
    requires i < |ms| && j < |ms|
  {
    Longest(ms[i]) > Longest(ms[j]) || (Longest(ms[i]) == Longest(ms[j]) && i < j)
  }

  /** The best match is at a position that precedes every other matching one. */
  lemma {:induction false} BestPrecedes(ms: seq<Module>, path: string) returns (k: nat)
    requires exists i | 0 <= i < |ms| :: Matches(ms[i], path)
    ensures k < |ms| && Best(ms, path) == Some(ms[k]) && Matches(ms[k], path)
    ensures forall j | 0 <= j < |ms| && j != k && Matches(ms[j], path) :: Precedes(ms, k, j)
  {
    var rest := ms[1..];
    if i :| 0 <= i < |rest| && Matches(rest[i], path) {
      k := BestPrecedes(rest, path);
      k := if Matches(ms[0], path) && Longest(ms[0]) >= Longest(rest[k]) then 0 else k + 1;
      forall j | 0 <= j < |ms| && j != k && Matches(ms[j], path) ensures Precedes(ms, k, j) {
        assert j > 0 ==> ms[j] == rest[j - 1];
      }
    } else {
      NoMatchNoBest(rest, path);
      k := 0;
      forall j | 0 < j < |ms| ensures !Matches(ms[j], path) { assert ms[j] == rest[j - 1]; }
    }
  }

  lemma {:induction false} NoMatchNoBest(ms: seq<Module>, path: string)
    requires forall i | 0 <= i < |ms| :: !Matches(ms[i], path)
    ensures Best(ms, path) == None
  {
    if ms != [] { NoMatchNoBest(ms[1..], path); }
  }

  // ----- the intention: the longest matching prefix decides -----

  /** Prefix q of module i covers the path and no prefix of any module that covers it is longer. */
  ghost predicate OwnsLongestMatch(ms: seq<Module>, path: string, i: nat, q: nat) {
    && i < |ms| && q < |ms[i].prefixes| && Covers(ms[i].prefixes[q], path)
    && forall j, r | 0 <= j < |ms| && 0 <= r < |ms[j].prefixes| && Covers(ms[j].prefixes[r], path) ::
         |ms[j].prefixes[r]| <= |ms[i].prefixes[q]|
  }

  ghost predicate LongestMatchWins(ms: seq<Module>) {
    forall path, i: nat, q: nat | OwnsLongestMatch(ms, path, i, q) :: ActiveModuleFor(ms, path) == Some(ms[i])
  }

  /** Where a prefix of one module lies below a prefix of another, the module with the deeper one is sorted first. */
  ghost predicate DeeperSortsFirst(ms: seq<Module>) {
    forall i: nat, j: nat, q: nat, r: nat
      | i < |ms| && j < |ms| && i != j && q < |ms[i].prefixes| && r < |ms[j].prefixes|
        && Covers(ms[i].prefixes[q], ms[j].prefixes[r])
      :: Precedes(ms, j, i)
  }

  predicate DistinctKeys(ms: seq<Module>) {
    forall i, j | 0 <= i < j < |ms| :: ms[i].key != ms[j].key
  }

  /** Two prefixes that cover the same path are nested. */
  lemma CoversNest(short: string, long: string, path: string)
    requires Covers(short, path) && Covers(long, path) && |short| <= |long|
    ensures Covers(short, long)
  {
    assert long == path[..|long|] && short == path[..|short|];
    if |short| < |long| {
      assert long[..|short|] == short && long[|short|] == path[|short|];
    }
  }

  lemma LongestWinsIfDeeperSortsFirst(ms: seq<Module>, path: string, i: nat, q: nat)
    requires DeeperSortsFirst(ms) && OwnsLongestMatch(ms, path, i, q)
    ensures ActiveModuleFor(ms, path) == Some(ms[i])
  {
    SortedFirstMatchIsBest(ms, path);
    assert Matches(ms[i], path);
    var k := BestPrecedes(ms, path);
    if k != i {
      var r :| 0 <= r < |ms[k].prefixes| && Covers(ms[k].prefixes[r], path);
      CoversNest(ms[k].prefixes[r], ms[i].prefixes[q], path);
    }
  }

  lemma LongestWins(ms: seq<Module>)
    requires DeeperSortsFirst(ms)
    ensures LongestMatchWins(ms)
  {
    forall path, i: nat, q: nat | OwnsLongestMatch(ms, path, i, q) ensures ActiveModuleFor(ms, path) == Some(ms[i]) {
      LongestWinsIfDeeperSortsFirst(ms, path, i, q);
    }
  }

  /** The prefix r itself, as a path, has r as its longest match. */
  lemma DeeperMustSortFirst(ms: seq<Module>, i: nat, j: nat, q: nat, r: nat)
    requires DistinctKeys(ms) && LongestMatchWins(ms)
    requires i < |ms| && j < |ms| && i != j && q < |ms[i].prefixes| && r < |ms[j].prefixes|
      && Covers(ms[i].prefixes[q], ms[j].prefixes[r])
    ensures Precedes(ms, j, i)
  {
    var path := ms[j].prefixes[r];
    assert OwnsLongestMatch(ms, path, j, r);
    SortedFirstMatchIsBest(ms, path);
    assert Matches(ms[j], path) && Matches(ms[i], path);
    var k := BestPrecedes(ms, path);
    assert ms[k] == ms[j];
    assert k == j;
  }

  /** First match refines longest match, for every path, exactly when no module whose prefix lies below another
      module's prefix is sorted after it. */
  lemma FirstMatchIsLongestMatchExactly(ms: seq<Module>)
    requires DistinctKeys(ms)
    ensures LongestMatchWins(ms) <==> DeeperSortsFirst(ms)
  {
    if DeeperSortsFirst(ms) {
      LongestWins(ms);
    }
    if LongestMatchWins(ms) {
      forall i: nat, j: nat, q: nat, r: nat
        | i < |ms| && j < |ms| && i != j && q < |ms[i].prefixes| && r < |ms[j].prefixes|
          && Covers(ms[i].prefixes[q], ms[j].prefixes[r])
        ensures Precedes(ms, j, i)
      {
        DeeperMustSortFirst(ms, i, j, q, r);
      }
    }
  }

  // ----- the application's own table -----

  const DASHBOARD := Module("dashboard", [
    "/accounting/dashboard", "/command-center", "/group-dashboard", "/"])
  const GL := Module("gl", [
    "/accounting/gl", "/accounting/inquiry", "/accounting/reports", "/gl", "/trial-balance", "/manual-entry",
    "/coa", "/standard-journal-entries", "/accounting/journals", "/accounting/schedules"])
  const APAR := Module("apar", [
    "/accounting/ap", "/accounting/ar", "/accounting/bank-recon", "/accounting/purchase-orders", "/ap",
    "/cash-receipts", "/bank-deposits", "/vendors", "/po", "/accounting/cash", "/accounting/cash-position"])
  const PAYROLL := Module("payroll", ["/accounting/payroll", "/payroll"])
  const EOM := Module("eom", [
    "/accounting/eom", "/accounting/financial-statements", "/accounting/recurring", "/accounting/admin/periods",
    "/eom", "/financial-statements", "/fs", "/year-end"])
  const SERVICE := Module("service", ["/service", "/accounting/vehicle-transfers"])
  const TAX := Module("tax", ["/accounting/tax"])
  const FIXEDOPS := Module("fixedops", ["/accounting/fixedops"])
  const PARTS_ACCOUNTING := Module("parts-accounting", ["/accounting/parts"])
  const VEHICLES_DEALS := Module("vehicles-deals", ["/accounting/vehicles", "/accounting/deals"])
  const OEM := Module("oem", ["/accounting/oem"])
  const ADMIN := Module("admin", [
    "/setup", "/accounting/admin", "/tenants", "/system-settings", "/journal-sources", "/onboarding",
    "/settings", "/approvals"])
  const AUTOMATION := Module("automation", ["/accounting/automation"])
  const TOOLS := Module("tools", [
    "/reporting", "/query", "/agents", "/analytics", "/ml", "/amacc-sync", "/mobile-approvals", "/utilities"])

  const MODULES := [
    DASHBOARD, GL, APAR, PAYROLL, EOM, SERVICE, TAX,
    FIXEDOPS, PARTS_ACCOUNTING, VEHICLES_DEALS, OEM, ADMIN, AUTOMATION, TOOLS]

  /** Where in the table a listed prefix stands: its length and a letter or two tell. */
  function OwnerOf(p: string): int {
    match |p|
    case 1 => 0
    case 3 => if p[1] == 'g' then 1 else if p[1] == 'f' then 4 else if p[1] == 'm' then 13 else 2
    case 4 => if p[1] == 'c' then 1 else 4
    case 6 => if p[1] == 's' then 11 else 13
    case 7 => 13
    case 8 => if p[1] == 'v' then 2 else if p[1] == 'p' then 3 else if p[1] == 's' then 5 else 11
    case 9 => if p[1] == 'y' then 4 else 11
    case 10 => if p[2] == 'p' then 11 else 13
    case 11 => if p[1] == 'o' then 11 else 13
    case 13 => 1
    case 14 => if p[13] == 'l' || p[13] == 'e' then 1 else 2
    case 15 => if p[1] == 'c' then 0 else if p[12] == 'e' then 4 else if p[12] == 't' then 6 else 10
    case 16 => if p[1] == 'g' then 0 else if p[1] == 'a' then 2 else 11
    case 17 => if p[1] == 'm' then 13 else if p[12] == 'p' then 8 else if p[12] == 'd' then 9 else 11
    case 19 => if p[12] == 'p' then 3 else 1
    case 20 => if p[12] == 'j' then 1 else if p[12] == 'f' then 7 else 9
    case 21 => if p[1] == 'f' || p[12] == 'r' then 4 else if p[12] == 'd' then 0 else 1
    case 22 => if p[12] == 'b' then 2 else 12
    case 25 => if p[1] == 's' then 1 else if p[12] == 'c' then 2 else 4
    case 27 => 2
    case 29 => 5
    case 32 => 4
    case _ => -1
  }

  const PERIODS := "/accounting/admin/periods"

  /** The prefix tells its module, and apart from the periods page it has no slash inside except the one that ends
      "/accounting", which itself is no prefix. */
  ghost predicate Telling(p: string, i: int) {
    && p != "" && OwnerOf(p) == i
    && (|p| == 11 ==> p[2] != 'c')
    && (forall k | 0 < k < |p| && p[k] == '/' :: (k == 11 && p[2] == 'c') || (k == 17 && p == PERIODS))
  }

  ghost predicate AllTelling(m: Module, i: int) {
    forall q | 0 <= q < |m.prefixes| :: Telling(m.prefixes[q], i)
  }

  lemma DashboardTells()
    ensures AllTelling(DASHBOARD, 0)
  {
    assert Telling("/accounting/dashboard", 0) && Telling("/command-center", 0) && Telling("/group-dashboard", 0);
    assert Telling("/", 0);
  }

  lemma GlPagesTell()
    ensures Telling("/accounting/gl", 1) && Telling("/accounting/inquiry", 1) && Telling("/accounting/reports", 1)
    ensures Telling("/accounting/journals", 1) && Telling("/accounting/schedules", 1)
  {
  }

  lemma GlTells()
    ensures AllTelling(GL, 1)
  {
    GlPagesTell();
    assert Telling("/gl", 1) && Telling("/trial-balance", 1) && Telling("/manual-entry", 1) && Telling("/coa", 1);
    assert Telling("/standard-journal-entries", 1);
  }

  lemma AparPagesTell()
    ensures Telling("/accounting/ap", 2) && Telling("/accounting/ar", 2) && Telling("/accounting/bank-recon", 2)
    ensures Telling("/accounting/purchase-orders", 2) && Telling("/accounting/cash", 2)
    ensures Telling("/accounting/cash-position", 2)
  {
  }

  lemma AparTells()
    ensures AllTelling(APAR, 2)
  {
    AparPagesTell();
    assert Telling("/ap", 2) && Telling("/cash-receipts", 2) && Telling("/bank-deposits", 2);
    assert Telling("/vendors", 2) && Telling("/po", 2);
  }

  lemma EomPagesTell()
    ensures Telling("/accounting/eom", 4) && Telling("/accounting/financial-statements", 4)
    ensures Telling("/accounting/recurring", 4) && Telling("/accounting/admin/periods", 4)
  {
  }

  lemma EomTells()
    ensures AllTelling(EOM, 4)
  {
    EomPagesTell();
    assert Telling("/eom", 4) && Telling("/financial-statements", 4) && Telling("/fs", 4) && Telling("/year-end", 4);
  }

  lemma AdminTells()
    ensures AllTelling(ADMIN, 11)
  {
    assert Telling("/setup", 11) && Telling("/accounting/admin", 11) && Telling("/tenants", 11);
    assert Telling("/system-settings", 11) && Telling("/journal-sources", 11) && Telling("/onboarding", 11);
    assert Telling("/settings", 11) && Telling("/approvals", 11);
  }

  lemma ToolsTells()
    ensures AllTelling(TOOLS, 13)
  {
    assert Telling("/reporting", 13) && Telling("/query", 13) && Telling("/agents", 13) && Telling("/analytics", 13);
    assert Telling("/ml", 13) && Telling("/amacc-sync", 13) && Telling("/mobile-approvals", 13);
    assert Telling("/utilities", 13);
  }

  lemma OfficeModulesTell()
    ensures AllTelling(PAYROLL, 3)
    ensures AllTelling(SERVICE, 5)
    ensures AllTelling(TAX, 6)
  {
    assert Telling("/accounting/payroll", 3) && Telling("/payroll", 3);
    assert Telling("/service", 5) && Telling("/accounting/vehicle-transfers", 5);
    assert Telling("/accounting/tax", 6);
  }

  lemma FloorModulesTell()
    ensures AllTelling(FIXEDOPS, 7)
    ensures AllTelling(PARTS_ACCOUNTING, 8)
    ensures AllTelling(VEHICLES_DEALS, 9)
    ensures AllTelling(OEM, 10)
    ensures AllTelling(AUTOMATION, 12)
  {
    assert Telling("/accounting/fixedops", 7);
    assert Telling("/accounting/parts", 8);
    assert Telling("/accounting/vehicles", 9) && Telling("/accounting/deals", 9);
    assert Telling("/accounting/oem", 10);
    assert Telling("/accounting/automation", 12);
  }

  /** Every listed prefix tells where it stands. */
  lemma TableTells()
    ensures forall i | 0 <= i < |MODULES| :: AllTelling(MODULES[i], i)
  {
    DashboardTells();
    GlTells();
    AparTells();
    EomTells();
    AdminTells();
    ToolsTells();
    OfficeModulesTell();
    FloorModulesTell();
  }

  const ADMINISTRATION := "/accounting/admin"

  /** Only the periods page lies below another prefix of the table, and no prefix is listed by two modules. */
  lemma NestedInTable(i: nat, j: nat, q: nat, r: nat)
    requires i < |MODULES| && j < |MODULES| && q < |MODULES[i].prefixes| && r < |MODULES[j].prefixes|
    requires Covers(MODULES[i].prefixes[q], MODULES[j].prefixes[r])
    ensures i == j
      || (i == 11 && j == 4 && MODULES[i].prefixes[q] == ADMINISTRATION && MODULES[j].prefixes[r] == PERIODS)
    ensures MODULES[i].prefixes[q] == MODULES[j].prefixes[r] || MODULES[j].prefixes[r] == PERIODS
  {
    TableTells();
    var short, long := MODULES[i].prefixes[q], MODULES[j].prefixes[r];
    assert Telling(short, i) && Telling(long, j);
    if short != long {
      NestedStrictly(short, long, i, j);
    }
  }

  lemma NestedStrictly(short: string, long: string, i: int, j: int)
    requires Telling(short, i) && Telling(long, j) && short != long && Covers(short, long)
    ensures short == ADMINISTRATION && long == PERIODS && i == 11 && j == 4
  {
    assert long[|short|] == '/' && short == long[..|short|];
    assert |short| > 2 ==> short[2] == long[2];
    assert |short| == 17 && long == PERIODS;
    assert PERIODS[..17] == ADMINISTRATION;
    PeriodsTell();
  }

  lemma PeriodsTell()
    ensures OwnerOf(ADMINISTRATION) == 11 && OwnerOf(PERIODS) == 4
  {
  }

  lemma {:induction false} LongestIsBelow(prefixes: seq<string>, n: nat)
    requires forall q | 0 <= q < |prefixes| :: |prefixes[q]| <= n
    ensures LongestPrefix(prefixes) <= n
  {
    if prefixes != [] { LongestIsBelow(prefixes[1..], n); }
  }

  lemma {:induction false} LongestIsAbove(prefixes: seq<string>, q: nat)
    requires q < |prefixes|
    ensures LongestPrefix(prefixes) >= |prefixes[q]|
  {
    if q > 0 { LongestIsAbove(prefixes[1..], q - 1); }
  }

  lemma MonthEndSortsBeforeAdministration()
    ensures Longest(EOM) > Longest(ADMIN)
  {
    LongestIsAbove(EOM.prefixes, 1);
    LongestIsBelow(ADMIN.prefixes, 17);
  }

  lemma DeeperInTable(i: nat, j: nat, q: nat, r: nat)
    requires i < |MODULES| && j < |MODULES| && q < |MODULES[i].prefixes| && r < |MODULES[j].prefixes|
    requires i != j && Covers(MODULES[i].prefixes[q], MODULES[j].prefixes[r])
    ensures Precedes(MODULES, j, i)
  {
    NestedInTable(i, j, q, r);
    MonthEndSortsBeforeAdministration();
    assert MODULES[4] == EOM && MODULES[11] == ADMIN;
  }

  lemma DeeperSortsFirstInTable()
    ensures DeeperSortsFirst(MODULES)
  {
    var ms := MODULES;
    forall i: nat, j: nat, q: nat, r: nat
      | i < |ms| && j < |ms| && i != j && q < |ms[i].prefixes| && r < |ms[j].prefixes|
        && Covers(ms[i].prefixes[q], ms[j].prefixes[r])
      ensures Precedes(ms, j, i)
    {
      DeeperInTable(i, j, q, r);
    }
  }

  /** For every path, the application's table selects the module with the longest matching prefix. */
  lemma TheTableFindsTheLongestMatch()
    ensures LongestMatchWins(MODULES)
  {
    DeeperSortsFirstInTable();
    LongestWins(MODULES);
  }

  /** The periods page and all below it belong to month-end, everything else under administration to administration. */
  lemma PeriodsBelongToMonthEnd(path: string)
    requires Covers(ADMINISTRATION, path)
    ensures ActiveModuleFor(MODULES, path) == Some(if Covers(PERIODS, path) then EOM else ADMIN)
  {
    TheTableFindsTheLongestMatch();
    assert MODULES[4].prefixes[3] == PERIODS && MODULES[11].prefixes[1] == ADMINISTRATION;
    var i, q := if Covers(PERIODS, path) then 4 else 11, if Covers(PERIODS, path) then 3 else 1;
    forall j, r | 0 <= j < |MODULES| && 0 <= r < |MODULES[j].prefixes| && Covers(MODULES[j].prefixes[r], path)
      ensures |MODULES[j].prefixes[r]| <= |MODULES[i].prefixes[q]|
    {
      var own, other := MODULES[i].prefixes[q], MODULES[j].prefixes[r];
      if |own| < |other| {
        CoversNest(own, other, path);
        NestedInTable(i, j, q, r);
      }
    }
    assert OwnsLongestMatch(MODULES, path, i, q);
  }
}
