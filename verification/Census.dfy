/** The brace-counting method extractor of the write-path census, and the census over its methods. */
module Census {
  import opened Sums

  const OPEN := '{'
  const CLOSE := '}'

  // ----- the scan -----

  function Weight(c: char): int {
    if c == OPEN then 1 else if c == CLOSE then -1 else 0
  }

  /** The nesting depth at position end, counted from position from. */
  function Depth(s: string, from: nat, end: nat): int
    requires from <= end <= |s|
    decreases end
  {
    if from == end then 0 else Depth(s, from, end - 1) + Weight(s[end - 1])
  }

  /** Position close holds the brace that closes what was opened just before start. */
  predicate Matches(s: string, start: nat, close: nat) {
    && start <= close < |s| && s[close] == CLOSE
    && Depth(s, start, close) == 0
    && forall k | start <= k <= close :: Depth(s, start, k) >= 0
  }

  ghost predicate Closes(s: string, start: nat) {
    exists close: nat :: Matches(s, start, close)
  }

  /** Where the scan from start leaves its index: just past the matching brace, or at the end of the text. */
  predicate ScanEnd(s: string, start: nat, i: nat) {
    || (i > start && Matches(s, start, i - 1))
    || (i == |s| && start <= |s| && forall k | start <= k <= |s| :: Depth(s, start, k) >= 0)
  }

  /** The body that the extractor cuts out: it always drops the last character it has scanned. */
  function Body(s: string, start: nat, i: nat): string
    requires start <= i <= |s|
  {
    if i == start then "" else s[start..i - 1]
  }

  method ScanBody(s: string, start: nat) returns (i: nat)
    requires start <= |s|
    ensures start <= i <= |s| && ScanEnd(s, start, i)
  {
    var depth := 1;
    i := start;
    while depth > 0 && i < |s|
      invariant start <= i <= |s|
      invariant depth == 1 + Depth(s, start, i)
      invariant forall k | start <= k < i :: Depth(s, start, k) >= 0
      invariant depth >= 0
      invariant depth == 0 ==> i > start && Matches(s, start, i - 1)
      decreases |s| - i
    {
      if s[i] == OPEN { depth := depth + 1; } else if s[i] == CLOSE { depth := depth - 1; }
      i := i + 1;
    }
  }

  lemma {:induction false} DepthSplits(s: string, a: nat, b: nat, c: nat)
    requires a <= b <= c <= |s|
    ensures Depth(s, a, c) == Depth(s, a, b) + Depth(s, b, c)
    decreases c
  {
    if b < c { DepthSplits(s, a, b, c - 1); }
  }

  /** The matching brace is the first place where the depth falls below zero: no shorter text is balanced off. */
  lemma MatchIsFirst(s: string, start: nat, close: nat, other: nat)
    requires Matches(s, start, close) && Matches(s, start, other)
    ensures close == other
  {
    assert Depth(s, start, close + 1) == Depth(s, start, other + 1) == -1;
  }

  /** An open scan meets no closing brace of its own. */
  lemma {:induction false} OpenScanDoesNotClose(s: string, start: nat)
    requires start <= |s| && forall k | start <= k <= |s| :: Depth(s, start, k) >= 0
    ensures !Closes(s, start)
  {
    forall close: nat ensures !Matches(s, start, close) {
      assert start <= close < |s| ==> Depth(s, start, close + 1) >= 0;
    }
  }

  /** The scan result is unique, so the extractor is a function of the text. */
  lemma ScanEndIsUnique(s: string, start: nat, i: nat, j: nat)
    requires ScanEnd(s, start, i) && ScanEnd(s, start, j)
    ensures i == j
  {
    if i > start && Matches(s, start, i - 1) {
      if j > start && Matches(s, start, j - 1) {
        MatchIsFirst(s, start, i - 1, j - 1);
      } else {
        OpenScanDoesNotClose(s, start);
      }
    } else if j > start && Matches(s, start, j - 1) {
      OpenScanDoesNotClose(s, start);
    }
  }

  /** The body is the whole text between the braces exactly when the scan closed; otherwise it misses the last
      character. */
  lemma BodyIsCompleteExactlyWhenClosed(s: string, start: nat, i: nat)
    requires start <= i <= |s| && ScanEnd(s, start, i) && start < |s|
    ensures Closes(s, start) ==> Matches(s, start, i - 1) && Body(s, start, i) == s[start..i - 1]
    ensures !Closes(s, start) ==> i == |s| && Body(s, start, i) + [s[|s| - 1]] == s[start..]
  {
    if !(i > start && Matches(s, start, i - 1)) {
      OpenScanDoesNotClose(s, start);
    }
  }

  // ----- the extracted bodies form a laminar family -----

  lemma NestedOrDisjoint(s: string, a: nat, i: nat, b: nat, j: nat)
    requires a < b <= |s| && s[b - 1] == OPEN
    requires a <= i <= |s| && b <= j <= |s| && ScanEnd(s, a, i) && ScanEnd(s, b, j)
    ensures i < b || j <= i
    ensures i >= b && i > a && Matches(s, a, i - 1) ==> j < i
  {
    if i >= b && j >= i && i > a && Matches(s, a, i - 1) {
      var close := i - 1;
      DepthSplits(s, a, b, close);
      DepthSplits(s, a, b - 1, b);
      assert Depth(s, a, b) == Depth(s, a, b - 1) + 1;
      assert Depth(s, a, b - 1) >= 0;
      assert Depth(s, b, close) <= -1;
    }
  }

  /** Two method bodies, each opened by a brace just before it, are disjoint or one lies inside the other. */
  lemma BodiesAreLaminar(s: string, a: nat, i: nat, b: nat, j: nat)
    requires a < b <= |s| && s[b - 1] == OPEN
    requires a <= i <= |s| && b <= j <= |s| && ScanEnd(s, a, i) && ScanEnd(s, b, j)
    ensures a + |Body(s, a, i)| < b || (a <= b && b + |Body(s, b, j)| <= a + |Body(s, a, i)|)
  {
    NestedOrDisjoint(s, a, i, b, j);
  }

  // ----- which texts close every scan -----

  /** The braces still open at the end of the text, closing braces without a partner ignored. */
  function OpenAtEnd(s: string): nat {
    if s == "" then 0 else
      var before := OpenAtEnd(s[..|s| - 1]);
      var c := s[|s| - 1];
      if c == OPEN then before + 1 else if c == CLOSE && before > 0 then before - 1 else before
  }

  ghost predicate EveryBraceCloses(s: string) {
    forall start | 0 < start <= |s| && s[start - 1] == OPEN :: Closes(s, start)
  }

  lemma {:induction false} DepthOfPrefix(s: string, t: string, from: nat, end: nat)
    requires from <= end <= |t| <= |s| && t == s[..|t|]
    ensures Depth(t, from, end) == Depth(s, from, end)
    decreases end
  {
    if from != end {
      DepthOfPrefix(s, t, from, end - 1);
    }
  }

  /** An opening brace with nothing but balanced text after it. */
  ghost predicate OpensLast(s: string, start: nat, inner: nat) {
    && 0 < start <= |s| && s[start - 1] == OPEN
    && Depth(s, start, |s|) == inner
    && forall k | start <= k <= |s| :: Depth(s, start, k) >= 0
  }

  /** The k-th open brace from the end has k - 1 more opened after it. */
  lemma {:induction false} OpenBracesAreFound(s: string, k: nat) returns (start: nat)
    requires 0 < k <= OpenAtEnd(s)
    ensures OpensLast(s, start, k - 1)
    decreases |s|
  {
    var t, c := s[..|s| - 1], s[|s| - 1];
    if c == OPEN && k == 1 {
      start := |s|;
    } else {
      var inner := if c == OPEN then k - 1 else if c == CLOSE then k + 1 else k;
      start := OpenBracesAreFound(t, inner);
      DepthOfPrefix(s, t, start, |t|);
      forall j | start <= j <= |t| ensures Depth(s, start, j) >= 0 { DepthOfPrefix(s, t, start, j); }
    }
  }

  /** An unclosed scan is counted among the braces open at the end. */
  lemma {:induction false} UnclosedIsOpenAtEnd(s: string, start: nat)
    requires 0 < start <= |s| && s[start - 1] == OPEN
    requires forall k | start <= k <= |s| :: Depth(s, start, k) >= 0
    ensures OpenAtEnd(s) > Depth(s, start, |s|)
    decreases |s|
  {
    var t := s[..|s| - 1];
    if start < |s| {
      forall k | start <= k <= |t| ensures Depth(t, start, k) == Depth(s, start, k) { DepthOfPrefix(s, t, start, k); }
      UnclosedIsOpenAtEnd(t, start);
    }
  }

  /** A scan that never goes below its start or that closes: there is no third way. */
  lemma {:induction false} ClosesOrStaysOpen(s: string, start: nat, end: nat)
    requires start <= end <= |s|
    ensures (forall k | start <= k <= end :: Depth(s, start, k) >= 0) || Closes(s, start)
    decreases end - start
  {
    if start < end {
      ClosesOrStaysOpen(s, start, end - 1);
      var close := end - 1;
      if !Closes(s, start) {
        assert forall k | start <= k <= close :: Depth(s, start, k) >= 0;
        assert !Matches(s, start, close) && Depth(s, start, end) == Depth(s, start, close) + Weight(s[close]);
        assert Depth(s, start, end) >= 0;
      }
    }
  }

  /** Every opening brace of the text closes exactly when none is open at its end. */
  lemma {:induction false} EveryBraceClosesExactlyWhenNoneIsOpen(s: string)
    ensures EveryBraceCloses(s) <==> OpenAtEnd(s) == 0
  {
    if OpenAtEnd(s) > 0 {
      var start := OpenBracesAreFound(s, 1);
      OpenScanDoesNotClose(s, start);
    } else {
      forall start | 0 < start <= |s| && s[start - 1] == OPEN ensures Closes(s, start) {
        ClosesOrStaysOpen(s, start, |s|);
        if !Closes(s, start) { UnclosedIsOpenAtEnd(s, start); }
      }
    }
  }

  // ----- extraction -----

  /** A match of the header pattern: the method's name and the position just after its opening brace. */
  datatype Header = Header(name: string, start: nat)

  datatype Method = Method(name: string, body: string)

  const KEYWORDS: set<string> := {"constructor", "if", "for", "while", "switch", "catch"}

  /** The headers the pattern finds, left to right. */
  ghost predicate FoundIn(headers: seq<Header>, s: string) {
    forall i | 0 <= i < |headers| :: 0 < headers[i].start <= |s| && s[headers[i].start - 1] == OPEN
  }

  function Wanted(headers: seq<Header>): seq<Header> {
    if headers == [] then [] else (if headers[0].name in KEYWORDS then [] else [headers[0]]) + Wanted(headers[1..])
  }

  lemma {:induction false} WantedAppend(xs: seq<Header>, ys: seq<Header>)
    ensures Wanted(xs + ys) == Wanted(xs) + Wanted(ys)
  {
    if xs == [] {
      assert xs + ys == ys;
    } else {
      assert (xs + ys)[1..] == xs[1..] + ys;
      WantedAppend(xs[1..], ys);
    }
  }

  lemma WantedAlone(h: Header)
    ensures Wanted([h])
         == if h.name in ["constructor", "if", "for", "while", "switch", "catch"] then [] else [h]
  {
    assert [h][1..] == [];
  }

  /** The method is what the scan from the header cuts out. */
  ghost predicate CutFrom(m: Method, h: Header, s: string) {
    m.name == h.name && exists i :: h.start <= i <= |s| && ScanEnd(s, h.start, i) && m.body == Body(s, h.start, i)
  }

  method ExtractMethods(s: string, headers: seq<Header>) returns (methods: seq<Method>)
    requires FoundIn(headers, s)
    ensures |methods| == |Wanted(headers)|
    ensures forall k | 0 <= k < |methods| :: CutFrom(methods[k], Wanted(headers)[k], s)
  {
    methods := [];
    for n := 0 to |headers|
      invariant |methods| == |Wanted(headers[..n])|
      invariant forall k | 0 <= k < |methods| :: CutFrom(methods[k], Wanted(headers[..n])[k], s)
    {
      var h := headers[n];
      assert headers[..n + 1] == headers[..n] + [h];
      WantedAppend(headers[..n], [h]);
      WantedAlone(h);
      if h.name !in KEYWORDS {
        var i := ScanBody(s, h.start);
        methods := methods + [Method(h.name, Body(s, h.start, i))];
      }
    }
    assert headers[..|headers|] == headers;
  }

  // ----- the census -----

  /** What the patterns of the census find in a method body. */
  datatype Scanner = Scanner(writes: string -> seq<string>, audited: string -> bool, exempt: set<string>)

  function NotExempt(models: seq<string>, exempt: set<string>): seq<string> {
    if models == [] then [] else (if models[0] in exempt then [] else [models[0]]) + NotExempt(models[1..], exempt)
  }

  datatype Source = Source(service: string, file: string, methods: seq<Method>)

  datatype Finding = Finding(service: string, file: string, name: string, models: seq<string>)

  predicate Writing(m: Method, scan: Scanner) {
    NotExempt(scan.writes(m.body), scan.exempt) != []
  }

  predicate Uncovered(src: Source, m: Method, scan: Scanner, allowed: set<(string, string, string)>) {
    Writing(m, scan) && !scan.audited(m.body) && (src.service, src.file, m.name) !in allowed
  }

  function MethodFindings(src: Source, ms: seq<Method>, scan: Scanner,
    allowed: set<(string, string, string)>): seq<Finding> {
    if ms == [] then [] else
      (if Uncovered(src, ms[0], scan, allowed)
       then [Finding(src.service, src.file, ms[0].name, NotExempt(scan.writes(ms[0].body), scan.exempt))] else [])
        + MethodFindings(src, ms[1..], scan, allowed)
  }

  function Sites(ms: seq<Method>, scan: Scanner): nat {
    if ms == [] then 0 else (if Writing(ms[0], scan) then 1 else 0) + Sites(ms[1..], scan)
  }

  function Findings(srcs: seq<Source>, scan: Scanner, allowed: set<(string, string, string)>): seq<Finding> {
    if srcs == [] then []
    else MethodFindings(srcs[0], srcs[0].methods, scan, allowed) + Findings(srcs[1..], scan, allowed)
  }

  function AllSites(srcs: seq<Source>, scan: Scanner): nat {
    if srcs == [] then 0 else Sites(srcs[0].methods, scan) + AllSites(srcs[1..], scan)
  }

  /** The position of a method: its file and its place in it. */
  type Place = (nat, nat)

  predicate Exists(srcs: seq<Source>, p: Place) {
    p.0 < |srcs| && p.1 < |srcs[p.0].methods|
  }

  function At(srcs: seq<Source>, p: Place): Method
    requires Exists(srcs, p)
  {
    srcs[p.0].methods[p.1]
  }

  /** The method writes a model that is not exempt. */
  predicate Writes(m: Method, scan: Scanner) {
    exists i | 0 <= i < |scan.writes(m.body)| :: scan.writes(m.body)[i] !in scan.exempt
  }

  /** The method needs no finding: it writes nothing but exempt models, or audits, or is on the list. */
  predicate Covered(src: Source, m: Method, scan: Scanner, allowed: set<(string, string, string)>) {
    !Writes(m, scan) || scan.audited(m.body) || (src.service, src.file, m.name) in allowed
  }

  lemma {:induction false} NotExemptAreTheOthers(models: seq<string>, exempt: set<string>)
    ensures forall x :: x in NotExempt(models, exempt) <==> x in models && x !in exempt
  {
    if models != [] {
      NotExemptAreTheOthers(models[1..], exempt);
      assert models == [models[0]] + models[1..];
    }
  }

  lemma WritingIsWrites(m: Method, scan: Scanner)
    ensures Writing(m, scan) <==> Writes(m, scan)
  {
    var models := scan.writes(m.body);
    NotExemptAreTheOthers(models, scan.exempt);
    if Writing(m, scan) {
      assert NotExempt(models, scan.exempt)[0] in models;
    }
    if Writes(m, scan) {
      var i :| 0 <= i < |models| && models[i] !in scan.exempt;
      assert models[i] in NotExempt(models, scan.exempt);
    }
  }

  /** The finding names the method and the models it writes that are not exempt. */
  ghost predicate Names(x: Finding, src: Source, m: Method, scan: Scanner) {
    && x.service == src.service && x.file == src.file && x.name == m.name
    && (forall model :: model in x.models <==> model in scan.writes(m.body) && model !in scan.exempt)
  }

  predicate Before(p: Place, q: Place) {
    p.0 < q.0 || (p.0 == q.0 && p.1 < q.1)
  }

  /** What one more method adds to the findings so far. */
  lemma {:induction false} MethodStep(src: Source, ms: seq<Method>, k: nat, scan: Scanner,
    allowed: set<(string, string, string)>, found: seq<Finding>)
    requires k < |ms|
    ensures var models := NotExempt(scan.writes(ms[k].body), scan.exempt);
            var more := if Uncovered(src, ms[k], scan, allowed)
                        then found + [Finding(src.service, src.file, ms[k].name, models)] else found;
            found + MethodFindings(src, ms[k..], scan, allowed)
              == more + MethodFindings(src, ms[k + 1..], scan, allowed)
    ensures Sites(ms[k..], scan) == (if Writing(ms[k], scan) then 1 else 0) + Sites(ms[k + 1..], scan)
  {
    assert ms[k..][0] == ms[k] && ms[k..][1..] == ms[k + 1..];
  }

  method RunCensus(srcs: seq<Source>, scan: Scanner,
    allowed: set<(string, string, string)>) returns (findings: seq<Finding>, sitesChecked: nat)
    ensures findings == Findings(srcs, scan, allowed) && sitesChecked == AllSites(srcs, scan)
  {
    findings, sitesChecked := [], 0;
    for f := 0 to |srcs|
      invariant findings + Findings(srcs[f..], scan, allowed) == Findings(srcs, scan, allowed)
      invariant sitesChecked + AllSites(srcs[f..], scan) == AllSites(srcs, scan)
    {
      var src := srcs[f];
      ghost var before, checked := findings, sitesChecked;
      assert srcs[f..][0] == src && srcs[f..][1..] == srcs[f + 1..];
      for k := 0 to |src.methods|
        invariant findings + MethodFindings(src, src.methods[k..], scan, allowed)
          == before + MethodFindings(src, src.methods, scan, allowed)
        invariant sitesChecked + Sites(src.methods[k..], scan) == checked + Sites(src.methods, scan)
      {
        var m := src.methods[k];
        MethodStep(src, src.methods, k, scan, allowed, findings);
        var models := NotExempt(scan.writes(m.body), scan.exempt);
        if models == [] { continue; }
        sitesChecked := sitesChecked + 1;
        if scan.audited(m.body) { continue; }
        if (src.service, src.file, m.name) in allowed { continue; }
        findings := findings + [Finding(src.service, src.file, m.name, models)];
      }
      assert findings == before + MethodFindings(src, src.methods, scan, allowed);
    }
  }

  // ----- what the findings and the count are -----

  /** The positions of the wanted methods, each once and in order. */
  ghost predicate Lists(places: seq<Place>, srcs: seq<Source>, wanted: (Source, Method) -> bool) {
    && (forall i, j | 0 <= i < j < |places| :: Before(places[i], places[j]))
    && (forall i | 0 <= i < |places| :: Exists(srcs, places[i]) && wanted(srcs[places[i].0], At(srcs, places[i])))
    && (forall f: nat, k: nat | Exists(srcs, (f, k)) && wanted(srcs[f], srcs[f].methods[k]) :: (f, k) in places)
  }

  /** The same in one file. */
  ghost predicate ListsIn(ks: seq<nat>, src: Source, ms: seq<Method>, wanted: (Source, Method) -> bool) {
    && (forall i, j | 0 <= i < j < |ks| :: ks[i] < ks[j])
    && (forall i | 0 <= i < |ks| :: ks[i] < |ms| && wanted(src, ms[ks[i]]))
    && (forall k | 0 <= k < |ms| && wanted(src, ms[k]) :: k in ks)
  }

  function Later(ks: seq<nat>): seq<nat> {
    seq(|ks|, i requires 0 <= i < |ks| => ks[i] + 1)
  }

  /** The positions one further on, after the first one if it is wanted. */
  function WithFirst(first: bool, ks: seq<nat>): seq<nat> {
    if first then [0] + Later(ks) else Later(ks)
  }

  lemma LaterLists(ks: seq<nat>, src: Source, ms: seq<Method>, wanted: (Source, Method) -> bool)
    requires ms != [] && ListsIn(ks, src, ms[1..], wanted)
    ensures forall i | 0 <= i < |ks| :: 0 < Later(ks)[i] < |ms| && wanted(src, ms[Later(ks)[i]])
    ensures forall k | 0 < k < |ms| && wanted(src, ms[k]) :: k in Later(ks)
  {
    forall i | 0 <= i < |ks| ensures 0 < Later(ks)[i] < |ms| && wanted(src, ms[Later(ks)[i]]) {
      assert ms[ks[i] + 1] == ms[1..][ks[i]];
    }
    forall k | 0 < k < |ms| && wanted(src, ms[k]) ensures k in Later(ks) {
      assert wanted(src, ms[1..][k - 1]);
      var i :| 0 <= i < |ks| && ks[i] == k - 1;
      assert Later(ks)[i] == k;
    }
  }

  lemma FirstAndLater(ks: seq<nat>, src: Source, ms: seq<Method>, wanted: (Source, Method) -> bool)
    requires ms != [] && wanted(src, ms[0]) && forall i, j | 0 <= i < j < |ks| :: ks[i] < ks[j]
    requires forall i | 0 <= i < |ks| :: 0 < Later(ks)[i] < |ms| && wanted(src, ms[Later(ks)[i]])
    requires forall k | 0 < k < |ms| && wanted(src, ms[k]) :: k in Later(ks)
    ensures ListsIn([0] + Later(ks), src, ms, wanted)
  {
    var all := [0] + Later(ks);
    forall i | 0 <= i < |all| ensures all[i] < |ms| && wanted(src, ms[all[i]]) {
      if i > 0 { assert all[i] == Later(ks)[i - 1]; }
    }
    forall i, j | 0 <= i < j < |all| ensures all[i] < all[j] {
      if i > 0 { assert all[i] == ks[i - 1] + 1 && all[j] == ks[j - 1] + 1; }
    }
  }

  lemma ListsOneMore(ks: seq<nat>, src: Source, ms: seq<Method>, wanted: (Source, Method) -> bool)
    requires ms != [] && ListsIn(ks, src, ms[1..], wanted)
    ensures ListsIn(WithFirst(wanted(src, ms[0]), ks), src, ms, wanted)
  {
    LaterLists(ks, src, ms, wanted);
    if wanted(src, ms[0]) {
      FirstAndLater(ks, src, ms, wanted);
    } else {
      assert forall i, j | 0 <= i < j < |ks| :: Later(ks)[i] < Later(ks)[j];
    }
  }

  function InFirst(ks: seq<nat>): seq<Place> {
    seq(|ks|, i requires 0 <= i < |ks| => (0, ks[i]))
  }

  function InLater(places: seq<Place>): seq<Place> {
    seq(|places|, i requires 0 <= i < |places| => (places[i].0 + 1, places[i].1))
  }

  lemma ListsOneMoreFile(ks: seq<nat>, places: seq<Place>, srcs: seq<Source>, wanted: (Source, Method) -> bool)
    requires srcs != [] && ListsIn(ks, srcs[0], srcs[0].methods, wanted) && Lists(places, srcs[1..], wanted)
    ensures Lists(InFirst(ks) + InLater(places), srcs, wanted)
  {
    var all := InFirst(ks) + InLater(places);
    forall f: nat, k: nat | Exists(srcs, (f, k)) && wanted(srcs[f], srcs[f].methods[k]) ensures (f, k) in all {
      if f == 0 {
        var i :| 0 <= i < |ks| && ks[i] == k;
        assert all[i] == (f, k);
      } else {
        assert Exists(srcs[1..], (f - 1, k)) && srcs[1..][f - 1] == srcs[f];
        var i :| 0 <= i < |places| && places[i] == (f - 1, k);
        assert all[|ks| + i] == (f, k);
      }
    }
  }

  lemma {:induction false} SitesInFile(src: Source, ms: seq<Method>, scan: Scanner) returns (ks: seq<nat>)
    ensures ListsIn(ks, src, ms, (_, m) => Writes(m, scan)) && |ks| == Sites(ms, scan)
  {
    ks := [];
    if ms != [] {
      ks := SitesInFile(src, ms[1..], scan);
      ListsOneMore(ks, src, ms, (_, m) => Writes(m, scan));
      WritingIsWrites(ms[0], scan);
      ks := WithFirst(Writes(ms[0], scan), ks);
    }
  }

  /** sitesChecked counts the methods that write a model that is not exempt, each once. */
  lemma {:induction false} SitesAreTheWritingMethods(srcs: seq<Source>, scan: Scanner) returns (places: seq<Place>)
    ensures Lists(places, srcs, (_, m) => Writes(m, scan)) && |places| == AllSites(srcs, scan)
  {
    places := [];
    if srcs != [] {
      var ks := SitesInFile(srcs[0], srcs[0].methods, scan);
      places := SitesAreTheWritingMethods(srcs[1..], scan);
      ListsOneMoreFile(ks, places, srcs, (_, m) => Writes(m, scan));
      places := InFirst(ks) + InLater(places);
    }
  }

  /** Findings beside the positions of the methods they are about. */
  ghost predicate AllNamed(found: seq<Finding>, src: Source, ms: seq<Method>, ks: seq<nat>, scan: Scanner) {
    |found| == |ks| && forall i | 0 <= i < |ks| :: ks[i] < |ms| && Names(found[i], src, ms[ks[i]], scan)
  }

  lemma NamedOneMore(found: seq<Finding>, src: Source, ms: seq<Method>, ks: seq<nat>, scan: Scanner, x: Finding)
    requires ms != [] && AllNamed(found, src, ms[1..], ks, scan)
    ensures AllNamed(found, src, ms, Later(ks), scan)
    ensures Names(x, src, ms[0], scan) ==> AllNamed([x] + found, src, ms, [0] + Later(ks), scan)
  {
  }

  /** The finding of an uncovered method names it and the models that it writes. */
  lemma FindingNames(src: Source, m: Method, scan: Scanner)
    ensures Names(Finding(src.service, src.file, m.name, NotExempt(scan.writes(m.body), scan.exempt)), src, m, scan)
  {
    NotExemptAreTheOthers(scan.writes(m.body), scan.exempt);
  }

  lemma {:induction false} FindingsInFile(src: Source, ms: seq<Method>, scan: Scanner,
    allowed: set<(string, string, string)>) returns (ks: seq<nat>)
    ensures ListsIn(ks, src, ms, (s, m) => !Covered(s, m, scan, allowed))
    ensures AllNamed(MethodFindings(src, ms, scan, allowed), src, ms, ks, scan)
  {
    ks := [];
    if ms != [] {
      ks := FindingsInFile(src, ms[1..], scan, allowed);
      var found := MethodFindings(src, ms[1..], scan, allowed);
      var x := Finding(src.service, src.file, ms[0].name, NotExempt(scan.writes(ms[0].body), scan.exempt));
      ListsOneMore(ks, src, ms, (s, m) => !Covered(s, m, scan, allowed));
      WritingIsWrites(ms[0], scan);
      FindingNames(src, ms[0], scan);
      NamedOneMore(found, src, ms, ks, scan, x);
      if Covered(src, ms[0], scan, allowed) {
        assert MethodFindings(src, ms, scan, allowed) == [] + found == found;
        ks := WithFirst(false, ks);
      } else {
        assert MethodFindings(src, ms, scan, allowed) == [x] + found;
        ks := WithFirst(true, ks);
      }
    }
  }

  /** There is one finding for each method that is not covered, in order, and it names the method and exactly the
      models it writes that are not exempt. */
  lemma {:induction false} FindingsAreTheUncoveredMethods(srcs: seq<Source>, scan: Scanner,
    allowed: set<(string, string, string)>) returns (places: seq<Place>)
    ensures Lists(places, srcs, (s, m) => !Covered(s, m, scan, allowed))
    ensures var found := Findings(srcs, scan, allowed);
            |found| == |places|
            && forall i | 0 <= i < |places| :: Names(found[i], srcs[places[i].0], At(srcs, places[i]), scan)
  {
    places := [];
    if srcs != [] {
      var ks := FindingsInFile(srcs[0], srcs[0].methods, scan, allowed);
      places := FindingsAreTheUncoveredMethods(srcs[1..], scan, allowed);
      ListsOneMoreFile(ks, places, srcs, (s, m) => !Covered(s, m, scan, allowed));
      places := InFirst(ks) + InLater(places);
    }
  }

  lemma {:induction false} NoMethodFindings(src: Source, ms: seq<Method>, scan: Scanner,
    allowed: set<(string, string, string)>)
    ensures MethodFindings(src, ms, scan, allowed) == []
      <==> forall k | 0 <= k < |ms| :: Covered(src, ms[k], scan, allowed)
  {
    if ms != [] {
      WritingIsWrites(ms[0], scan);
      NoMethodFindings(src, ms[1..], scan, allowed);
      assert forall k | 1 <= k < |ms| :: ms[k] == ms[1..][k - 1];
    }
  }

  predicate AllCovered(srcs: seq<Source>, scan: Scanner, allowed: set<(string, string, string)>) {
    forall f, k | 0 <= f < |srcs| && 0 <= k < |srcs[f].methods| ::
      Covered(srcs[f], srcs[f].methods[k], scan, allowed)
  }

  /** The census passes exactly when every method of every file is covered. */
  lemma {:induction false} PassesExactlyWhenCovered(srcs: seq<Source>, scan: Scanner,
    allowed: set<(string, string, string)>)
    ensures Findings(srcs, scan, allowed) == [] <==> AllCovered(srcs, scan, allowed)
  {
    if srcs != [] {
      PassesExactlyWhenCovered(srcs[1..], scan, allowed);
      NoMethodFindings(srcs[0], srcs[0].methods, scan, allowed);
      assert forall f | 1 <= f < |srcs| :: srcs[f] == srcs[1..][f - 1];
    }
  }
}
