/** The grammar of JSON text (RFC 8259, sections 2 to 7) as syntax trees, and the strict parser against it: it accepts
    exactly the derivable texts whose objects have no key twice, with the value the tree means. */
module JsonGrammar {
  import opened Sums
  import opened Json
  import opened JsonText

  // ----- white space (section 2) -----

  const WHITE_SPACE: Text := [0x20, 0x09, 0x0A, 0x0D]

  predicate Blanks(t: Text) {
    forall i | 0 <= i < |t| :: t[i] in WHITE_SPACE
  }

  // ----- strings (section 7) -----

  /** A character by itself, a two-character escape, or four hexadecimal digits, each in either case. */
  datatype Piece = Plain(c: Unit) | Short(letter: Unit) | Hex(digits: seq<nat>, upper: seq<bool>)

  const ESCAPES: map<Unit, Unit> := map[
    0x22 := 0x22, 0x5C := 0x5C, 0x2F := 0x2F, 0x62 := 0x08, 0x66 := 0x0C, 0x6E := 0x0A, 0x72 := 0x0D, 0x74 := 0x09]

  const LOWER_HEX: Text := [
    0x30, 0x31, 0x32, 0x33, 0x34, 0x35, 0x36, 0x37, 0x38, 0x39, 0x61, 0x62, 0x63, 0x64, 0x65, 0x66]
  const UPPER_HEX: Text := [
    0x30, 0x31, 0x32, 0x33, 0x34, 0x35, 0x36, 0x37, 0x38, 0x39, 0x41, 0x42, 0x43, 0x44, 0x45, 0x46]

  predicate GoodPiece(p: Piece) {
    match p
    case Plain(c) => c >= 0x20 && c != 0x22 && c != 0x5C
    case Short(letter) => letter in ESCAPES
    case Hex(digits, upper) => |digits| == |upper| == 4 && forall i | 0 <= i < 4 :: digits[i] < 16
  }

  predicate GoodPieces(ps: seq<Piece>) {
    forall i | 0 <= i < |ps| :: GoodPiece(ps[i])
  }

  function ShowDigit(d: nat, upper: bool): Unit
    requires d < 16
  {
    if upper then UPPER_HEX[d] else LOWER_HEX[d]
  }

  function ShowPiece(p: Piece): Text
    requires GoodPiece(p)
  {
    match p
    case Plain(c) => [c]
    case Short(letter) => [0x5C, letter]
    case Hex(d, up) =>
      [0x5C, 0x75, ShowDigit(d[0], up[0]), ShowDigit(d[1], up[1]), ShowDigit(d[2], up[2]), ShowDigit(d[3], up[3])]
  }

  function MeanPiece(p: Piece): Unit
    requires GoodPiece(p)
  {
    match p
    case Plain(c) => c
    case Short(letter) => ESCAPES[letter]
    case Hex(d, _) => 4096 * d[0] + 256 * d[1] + 16 * d[2] + d[3]
  }

  function ShowPieces(ps: seq<Piece>): Text
    requires GoodPieces(ps)
  {
    if ps == [] then [] else ShowPiece(ps[0]) + ShowPieces(ps[1..])
  }

  function MeanPieces(ps: seq<Piece>): (t: Text)
    requires GoodPieces(ps)
    ensures |t| == |ps|
  {
    if ps == [] then [] else [MeanPiece(ps[0])] + MeanPieces(ps[1..])
  }

  function ShowString(ps: seq<Piece>): Text
    requires GoodPieces(ps)
  {
    [0x22] + ShowPieces(ps) + [0x22]
  }

  // ----- numbers (section 6) -----

  datatype Numeral = Numeral(minus: bool, whole: Text, fraction: Text, mark: Text, power: Text)

  predicate Digital(t: Text) {
    forall i | 0 <= i < |t| :: 0x30 <= t[i] <= 0x39
  }

  /** No leading zero, digits after a point, and digits after e or E with at most one sign. */
  predicate GoodNumeral(n: Numeral) {
    && n.whole != [] && Digital(n.whole) && (n.whole[0] == 0x30 ==> |n.whole| == 1)
    && Digital(n.fraction) && Digital(n.power)
    && (n.power == [] ==> n.mark == [])
    && (n.power != [] ==> GoodMark(n.mark))
  }

  /** e or E, and possibly a sign. */
  predicate GoodMark(mark: Text) {
    && 1 <= |mark| <= 2 && (mark[0] == 0x65 || mark[0] == 0x45)
    && (|mark| == 2 ==> mark[1] == 0x2B || mark[1] == 0x2D)
  }

  function ShowFraction(n: Numeral): Text {
    if n.fraction == [] then [] else [0x2E] + n.fraction
  }

  function ShowUnsigned(n: Numeral): Text {
    n.whole + (ShowFraction(n) + (n.mark + n.power))
  }

  function ShowNumeral(n: Numeral): Text {
    if n.minus then [0x2D] + ShowUnsigned(n) else ShowUnsigned(n)
  }

  // ----- values, arrays and objects (sections 3 to 5) -----

  datatype Tree =
    | NullTree
    | BoolTree(b: bool)
    | NumberTree(numeral: Numeral)
    | StringTree(pieces: seq<Piece>)
    | ArrayTree(inside: Text, items: seq<ItemTree>)
    | ObjectTree(inside: Text, members: seq<MemberTree>)

  /** An element of an array with the blanks around it. */
  datatype ItemTree = ItemTree(before: Text, tree: Tree, after: Text)

  /** A member of an object with the blanks around its key and its value. */
  datatype MemberTree =
    MemberTree(before: Text, key: seq<Piece>, afterKey: Text, beforeValue: Text, tree: Tree, after: Text)

  predicate GoodTree(t: Tree) {
    match t
    case NullTree => true
    case BoolTree(_) => true
    case NumberTree(n) => GoodNumeral(n)
    case StringTree(ps) => GoodPieces(ps)
    case ArrayTree(inside, items) => Blanks(inside) && GoodItems(items)
    case ObjectTree(inside, members) => Blanks(inside) && GoodMembers(members)
  }

  predicate GoodItems(items: seq<ItemTree>) {
    items == [] ||
      (Blanks(items[0].before) && GoodTree(items[0].tree) && Blanks(items[0].after) && GoodItems(items[1..]))
  }

  predicate GoodMembers(ms: seq<MemberTree>) {
    ms == [] ||
      (Blanks(ms[0].before) && GoodPieces(ms[0].key) && Blanks(ms[0].afterKey) && Blanks(ms[0].beforeValue)
       && GoodTree(ms[0].tree) && Blanks(ms[0].after) && GoodMembers(ms[1..]))
  }

  function Show(t: Tree): Text
    requires GoodTree(t)
  {
    match t
    case NullTree => [0x6E, 0x75, 0x6C, 0x6C]
    case BoolTree(b) => if b then [0x74, 0x72, 0x75, 0x65] else [0x66, 0x61, 0x6C, 0x73, 0x65]
    case NumberTree(n) => ShowNumeral(n)
    case StringTree(ps) => ShowString(ps)
    case ArrayTree(inside, items) => [0x5B] + (if items == [] then inside else ShowItems(items)) + [0x5D]
    case ObjectTree(inside, members) => [0x7B] + (if members == [] then inside else ShowMembers(members)) + [0x7D]
  }

  function ShowItems(items: seq<ItemTree>): Text
    requires items != [] && GoodItems(items)
  {
    var more := if |items| == 1 then [] else [0x2C] + ShowItems(items[1..]);
    items[0].before + (Show(items[0].tree) + (items[0].after + more))
  }

  function ShowMembers(ms: seq<MemberTree>): Text
    requires ms != [] && GoodMembers(ms)
  {
    var more := if |ms| == 1 then [] else [0x2C] + ShowMembers(ms[1..]);
    var value := ms[0].beforeValue + (Show(ms[0].tree) + (ms[0].after + more));
    ms[0].before + (ShowString(ms[0].key) + (ms[0].afterKey + ([0x3A] + value)))
  }

  /** The value of a tree; a key that an assignment does not store is left out. */
  function Mean<N>(t: Tree, read: Text -> N, keeps: Text -> bool): Value<N>
    requires GoodTree(t)
  {
    match t
    case NullTree => Null
    case BoolTree(b) => Bool(b)
    case NumberTree(n) => Num(read(ShowNumeral(n)))
    case StringTree(ps) => Str(MeanPieces(ps))
    case ArrayTree(_, items) => Arr(MeanItems(items, read, keeps))
    case ObjectTree(_, members) => Obj(MeanMembers(members, read, keeps))
  }

  function MeanItems<N>(items: seq<ItemTree>, read: Text -> N, keeps: Text -> bool): seq<Value<N>>
    requires GoodItems(items)
  {
    if items == [] then [] else [Mean(items[0].tree, read, keeps)] + MeanItems(items[1..], read, keeps)
  }

  function MeanMembers<N>(ms: seq<MemberTree>, read: Text -> N, keeps: Text -> bool): seq<Entry<Value<N>>>
    requires GoodMembers(ms)
  {
    if ms == [] then []
    else
      var key := MeanPieces(ms[0].key);
      (if keeps(key) then [Entry(key, Mean(ms[0].tree, read, keeps))] else []) + MeanMembers(ms[1..], read, keeps)
  }

  /** No object in the tree, at any depth, has a key twice. */
  predicate Unique(t: Tree)
    requires GoodTree(t)
  {
    match t
    case ArrayTree(_, items) => UniqueItems(items)
    case ObjectTree(_, members) => UniqueMembers(members, {})
    case _ => true
  }

  predicate UniqueItems(items: seq<ItemTree>)
    requires GoodItems(items)
  {
    items == [] || (Unique(items[0].tree) && UniqueItems(items[1..]))
  }

  /** The keys of the members are different from each other and not among these. */
  predicate UniqueMembers(ms: seq<MemberTree>, seen: set<Text>)
    requires GoodMembers(ms)
  {
    ms == [] ||
      (MeanPieces(ms[0].key) !in seen && Unique(ms[0].tree)
       && UniqueMembers(ms[1..], seen + {MeanPieces(ms[0].key)}))
  }

  // ----- the parser reads what the trees show: tokens -----

  lemma {:induction false} SkipPast(blanks: Text, t: Text)
    requires Blanks(blanks)
    ensures SkipBlanks(blanks + t) == SkipBlanks(t)
  {
    if blanks == [] {
      assert blanks + t == t;
    } else {
      assert (blanks + t)[1..] == blanks[1..] + t && blanks[0] in WHITE_SPACE;
      SkipPast(blanks[1..], t);
    }
  }

  lemma {:induction false} SkippedIsBlank(s: Text) returns (blanks: Text)
    ensures Blanks(blanks) && s == blanks + SkipBlanks(s)
    ensures SkipBlanks(SkipBlanks(s)) == SkipBlanks(s)
    ensures SkipBlanks(s) != [] ==> SkipBlanks(s)[0] !in WHITE_SPACE
  {
    if s != [] && IsBlank(s[0]) {
      var rest := SkippedIsBlank(s[1..]);
      blanks := [s[0]] + rest;
    } else {
      blanks := [];
    }
  }

  lemma DigitReads(d: nat, upper: bool)
    requires d < 16
    ensures HexValue(ShowDigit(d, upper)) == Some(d)
  {
  }

  lemma DigitShows(c: Unit) returns (d: nat, upper: bool)
    requires HexValue(c).Some?
    ensures d < 16 && HexValue(c) == Some(d) && ShowDigit(d, upper) == c
  {
    d := HexValue(c).value;
    upper := 0x41 <= c <= 0x46;
  }

  lemma {:induction false} PieceReads(p: Piece, rest: Text)
    requires GoodPiece(p)
    ensures ParseChars(ShowPiece(p) + rest) == Prepend(MeanPiece(p), ParseChars(rest))
  {
    var s := ShowPiece(p) + rest;
    match p
    case Plain(c) => assert s[1..] == rest;
    case Short(letter) => assert s[2..] == rest;
    case Hex(d, up) =>
      assert s[6..] == rest;
      DigitReads(d[0], up[0]);
      DigitReads(d[1], up[1]);
      DigitReads(d[2], up[2]);
      DigitReads(d[3], up[3]);
  }

  lemma {:induction false} PiecesRead(ps: seq<Piece>, rest: Text)
    requires GoodPieces(ps)
    ensures ParseChars(ShowPieces(ps) + ([0x22] + rest)) == Some((MeanPieces(ps), rest))
  {
    if ps == [] {
      assert ShowPieces(ps) + ([0x22] + rest) == [0x22] + rest && ([0x22] + rest)[1..] == rest;
    } else {
      assert ShowPieces(ps) + ([0x22] + rest) == ShowPiece(ps[0]) + (ShowPieces(ps[1..]) + ([0x22] + rest));
      PieceReads(ps[0], ShowPieces(ps[1..]) + ([0x22] + rest));
      PiecesRead(ps[1..], rest);
    }
  }

  lemma {:induction false} StringReads(ps: seq<Piece>, rest: Text)
    requires GoodPieces(ps)
    ensures var s := ShowString(ps) + rest; s[0] == 0x22 && ParseChars(s[1..]) == Some((MeanPieces(ps), rest))
  {
    var s := ShowString(ps) + rest;
    assert s[1..] == ShowPieces(ps) + ([0x22] + rest);
    PiecesRead(ps, rest);
  }

  /** One piece at the start of what is read. */
  lemma FirstPiece(s: Text) returns (p: Piece, n: nat)
    requires ParseChars(s).Some? && s[0] != 0x22
    ensures GoodPiece(p) && n <= |s| && s == ShowPiece(p) + s[n..] && 0 < n
    ensures ParseChars(s[n..]).Some? && ParseChars(s) == Prepend(MeanPiece(p), ParseChars(s[n..]))
  {
    if s[0] != 0x5C {
      p, n := Plain(s[0]), 1;
    } else if s[1] != 0x75 {
      p, n := Short(s[1]), 2;
    } else {
      var d0, u0 := DigitShows(s[2]);
      var d1, u1 := DigitShows(s[3]);
      var d2, u2 := DigitShows(s[4]);
      var d3, u3 := DigitShows(s[5]);
      p, n := Hex([d0, d1, d2, d3], [u0, u1, u2, u3]), 6;
    }
  }

  lemma {:induction false} PiecesPush(p: Piece, more: seq<Piece>, end: Text)
    requires GoodPiece(p) && GoodPieces(more)
    ensures GoodPieces([p] + more) && MeanPieces([p] + more) == [MeanPiece(p)] + MeanPieces(more)
    ensures ShowPieces([p] + more) + end == ShowPiece(p) + (ShowPieces(more) + end)
  {
    var ps := [p] + more;
    assert ps[1..] == more && ps[0] == p;
  }

  lemma {:induction false} PiecesOf(s: Text) returns (ps: seq<Piece>)
    requires ParseChars(s).Some?
    ensures GoodPieces(ps) && MeanPieces(ps) == ParseChars(s).value.0
    ensures s == ShowPieces(ps) + ([0x22] + ParseChars(s).value.1)
    decreases |s|
  {
    if s[0] == 0x22 {
      ps := [];
      assert s == [0x22] + s[1..];
    } else {
      var p, n := FirstPiece(s);
      var more := PiecesOf(s[n..]);
      ps := [p] + more;
      PiecesPush(p, more, [0x22] + ParseChars(s[n..]).value.1);
    }
  }

  lemma {:induction false} DigitsRead(t: Text, rest: Text)
    requires Digital(t) && (rest == [] || !IsDigit(rest[0]))
    ensures Digits(t + rest) == |t|
  {
    if t == [] {
      assert t + rest == rest;
    } else {
      assert (t + rest)[1..] == t[1..] + rest;
      DigitsRead(t[1..], rest);
    }
  }

  lemma {:induction false} DigitsAreDigital(s: Text)
    ensures Digital(s[..Digits(s)])
  {
    if s != [] && IsDigit(s[0]) {
      DigitsAreDigital(s[1..]);
      assert s[..Digits(s)] == [s[0]] + s[1..][..Digits(s[1..])];
    }
  }

  /** Nothing, or something that is no digit and no point. */
  predicate AfterDigits(s: Text) {
    s == [] || (!IsDigit(s[0]) && s[0] != DOT)
  }

  lemma PowerReads(mark: Text, power: Text, rest: Text)
    requires Digital(power) && power != [] && GoodMark(mark) && Ended(rest)
    ensures ExponentPart(mark + (power + rest)) == Some(|mark| + |power|) && AfterDigits(mark + (power + rest))
  {
    var s := mark + (power + rest);
    assert s[|mark|..] == power + rest && s[0] == mark[0];
    DigitsRead(power, rest);
    if |mark| == 1 {
      assert s[1] == power[0];
    } else {
      assert s[1] == mark[1];
    }
  }

  lemma NoPowerReads(rest: Text)
    requires Ended(rest)
    ensures ExponentPart(rest) == Some(0) && AfterDigits(rest)
  {
  }

  lemma FractionReads(fraction: Text, tail: Text)
    requires Digital(fraction) && AfterDigits(tail)
    ensures var s := if fraction == [] then tail else [0x2E] + (fraction + tail);
            && FractionPart(s) == Some(if fraction == [] then 0 else 1 + |fraction|)
            && (s == [] || !IsDigit(s[0]))
  {
    if fraction != [] {
      assert ([0x2E] + (fraction + tail))[1..] == fraction + tail;
      DigitsRead(fraction, tail);
    }
  }

  lemma WholeReads(whole: Text, tail: Text)
    requires whole != [] && Digital(whole) && (whole[0] == 0x30 ==> |whole| == 1)
    requires tail == [] || !IsDigit(tail[0])
    ensures IntegerPart(whole + tail) == Some(|whole|)
  {
    DigitsRead(whole, tail);
    assert (whole + tail)[0] == whole[0];
  }

  lemma PartsAddUp(u: Text, whole: Text, fraction: Text, power: Text, rest: Text)
    requires u == whole + (fraction + (power + rest))
    requires IntegerPart(u) == Some(|whole|) && FractionPart(fraction + (power + rest)) == Some(|fraction|)
    requires ExponentPart(power + rest) == Some(|power|)
    ensures Unsigned(u) == Some(|whole| + (|fraction| + |power|))
  {
    assert u[|whole|..] == fraction + (power + rest);
    assert (fraction + (power + rest))[|fraction|..] == power + rest;
  }

  lemma ExponentReads(n: Numeral, rest: Text)
    requires GoodNumeral(n) && Ended(rest)
    ensures var tail := n.mark + n.power + rest;
            ExponentPart(tail) == Some(|n.mark + n.power|) && AfterDigits(tail)
  {
    if n.power == [] {
      assert n.mark + n.power + rest == rest;
      NoPowerReads(rest);
    } else {
      assert n.mark + n.power + rest == n.mark + (n.power + rest);
      PowerReads(n.mark, n.power, rest);
    }
  }

  lemma FractionShows(n: Numeral, tail: Text)
    requires GoodNumeral(n) && AfterDigits(tail)
    ensures var s := ShowFraction(n) + tail;
            FractionPart(s) == Some(|ShowFraction(n)|) && (s == [] || !IsDigit(s[0]))
  {
    FractionReads(n.fraction, tail);
    assert ShowFraction(n) + tail == if n.fraction == [] then tail else [0x2E] + (n.fraction + tail);
  }

  lemma UnsignedReads(n: Numeral, rest: Text)
    requires GoodNumeral(n) && Ended(rest)
    ensures Unsigned(ShowUnsigned(n) + rest) == Some(|ShowUnsigned(n)|)
  {
    var power, fraction := n.mark + n.power, ShowFraction(n);
    var tail := power + rest;
    ExponentReads(n, rest);
    FractionShows(n, tail);
    WholeReads(n.whole, fraction + tail);
    UnsignedShows(n.whole, fraction, power, rest);
    PartsAddUp(ShowUnsigned(n) + rest, n.whole, fraction, power, rest);
  }

  lemma UnsignedShows(whole: Text, fraction: Text, power: Text, rest: Text)
    ensures whole + (fraction + power) + rest == whole + (fraction + (power + rest))
  {
  }

  lemma NotMinusThenUnsigned(t: Text)
    requires t != [] && t[0] != MINUS
    ensures ScanNumber(t) == Unsigned(t)
  {
  }

  lemma SignReads(minus: bool, u: Text, rest: Text)
    requires u != [] && u[0] != MINUS && Unsigned(u + rest) == Some(|u|)
    ensures var t := if minus then [0x2D] + u else u; ScanNumber(t + rest) == Some(|t|)
  {
    if minus {
      assert ([0x2D] + u + rest)[1..] == u + rest;
      MinusThenUnsigned([0x2D] + u + rest, u + rest);
    } else {
      assert (u + rest)[0] == u[0];
      NotMinusThenUnsigned(u + rest);
    }
  }

  lemma UnsignedStarts(n: Numeral)
    requires GoodNumeral(n)
    ensures ShowUnsigned(n) != [] && ShowUnsigned(n)[0] != MINUS
  {
    assert ShowUnsigned(n)[0] == n.whole[0];
  }

  lemma NumeralReads(n: Numeral, rest: Text)
    requires GoodNumeral(n) && Ended(rest)
    ensures ScanNumber(ShowNumeral(n) + rest) == Some(|ShowNumeral(n)|)
  {
    UnsignedReads(n, rest);
    UnsignedStarts(n);
    SignReads(n.minus, ShowUnsigned(n), rest);
  }

  lemma FractionOf(s: Text) returns (fraction: Text)
    requires FractionPart(s).Some?
    ensures Digital(fraction) && s[..FractionPart(s).value] == if fraction == [] then [] else [0x2E] + fraction
  {
    var f := FractionPart(s).value;
    if f == 0 {
      fraction := [];
    } else {
      DigitsAreDigital(s[1..]);
      fraction := s[1..][..f - 1];
      assert s[..f] == [s[0]] + fraction;
    }
  }

  lemma PowerOf(t: Text) returns (mark: Text, power: Text)
    requires ExponentPart(t).Some?
    ensures Digital(power) && t[..ExponentPart(t).value] == mark + power && (power == [] ==> mark == [])
    ensures power != [] ==> GoodMark(mark)
  {
    var e := ExponentPart(t).value;
    if e == 0 {
      mark, power := [], [];
    } else {
      var sign := if |t| > 1 && (t[1] == PLUS || t[1] == MINUS) then 2 else 1;
      DigitsAreDigital(t[sign..]);
      mark, power := t[..sign], t[sign..][..e - sign];
      assert t[..e] == mark + power;
      assert mark == if sign == 1 then [t[0]] else [t[0], t[1]];
    }
  }

  lemma AfterIntegerOf(s: Text) returns (fraction: Text, mark: Text, power: Text)
    requires AfterInteger(s).Some?
    ensures Digital(fraction) && Digital(power) && (power == [] ==> mark == [])
    ensures power != [] ==> GoodMark(mark)
    ensures s[..AfterInteger(s).value] == (if fraction == [] then [] else [0x2E] + fraction) + (mark + power)
  {
    var f := FractionPart(s).value;
    fraction := FractionOf(s);
    mark, power := PowerOf(s[f..]);
    assert s[..AfterInteger(s).value] == s[..f] + s[f..][..ExponentPart(s[f..]).value];
  }

  lemma UnsignedOf(u: Text, minus: bool) returns (n: Numeral)
    requires Unsigned(u).Some?
    ensures GoodNumeral(n) && n.minus == minus && u[..Unsigned(u).value] == ShowUnsigned(n)
  {
    var i := IntegerPart(u).value;
    DigitsAreDigital(u);
    var fraction, mark, power := AfterIntegerOf(u[i..]);
    n := Numeral(minus, u[..i], fraction, mark, power);
    assert u[..Unsigned(u).value] == u[..i] + u[i..][..AfterInteger(u[i..]).value];
  }

  lemma SignedCut(s: Text, k: nat)
    requires s != [] && k < |s|
    ensures s[..1 + k] == [s[0]] + s[1..][..k]
  {
  }

  lemma NumeralOf(s: Text) returns (n: Numeral)
    requires ScanNumber(s).Some?
    ensures GoodNumeral(n) && s[..ScanNumber(s).value] == ShowNumeral(n)
  {
    if s[0] == MINUS {
      n := UnsignedOf(s[1..], true);
      SignedCut(s, Unsigned(s[1..]).value);
    } else {
      n := UnsignedOf(s, false);
    }
  }

  // ----- the parser reads what the trees show: values -----

  /** What can follow a value inside a text. */
  predicate Follows(rest: Text) {
    rest == [] || rest[0] in WHITE_SPACE || rest[0] == 0x2C || rest[0] == 0x5D || rest[0] == 0x7D
  }

  lemma {:induction false} ValueSkips<N>(s: Text, read: Text -> N, keeps: Text -> bool)
    ensures ParseValue(SkipBlanks(s), read, keeps) == ParseValue(s, read, keeps)
  {
    var blanks := SkippedIsBlank(s);
  }

  lemma {:induction false} ElementsSkip<N>(s: Text, read: Text -> N, keeps: Text -> bool)
    ensures ParseElements(SkipBlanks(s), read, keeps) == ParseElements(s, read, keeps)
  {
    ValueSkips(s, read, keeps);
  }

  lemma {:induction false} MembersSkip<N>(s: Text, seen: set<Text>, read: Text -> N, keeps: Text -> bool)
    ensures ParseMembers(SkipBlanks(s), seen, read, keeps) == ParseMembers(s, seen, read, keeps)
  {
    var blanks := SkippedIsBlank(s);
  }

  /** How a tree's text starts: not with a blank, and not with a closing bracket. */
  lemma {:induction false} TreeStarts(t: Tree)
    requires GoodTree(t)
    ensures Show(t) != [] && Show(t)[0] !in WHITE_SPACE && Show(t)[0] != 0x5D
    ensures t.NumberTree? <==> Show(t)[0] == 0x2D || IsDigit(Show(t)[0])
    ensures t.StringTree? <==> Show(t)[0] == 0x22
    ensures t.ArrayTree? <==> Show(t)[0] == 0x5B
    ensures t.ObjectTree? <==> Show(t)[0] == 0x7B
  {
  }

  /** What the parser should make of a tree's text with the rest behind it. */
  function Reading<N>(t: Tree, rest: Text, read: Text -> N, keeps: Text -> bool): Option<(Value<N>, Text)>
    requires GoodTree(t)
  {
    if Unique(t) then Some((Mean(t, read, keeps), rest)) else None
  }

  lemma {:induction false} WordReads<N>(t: Tree, rest: Text, read: Text -> N, keeps: Text -> bool)
    requires GoodTree(t) && (t.NullTree? || t.BoolTree?)
    ensures ParseValue(Show(t) + rest, read, keeps) == Reading(t, rest, read, keeps)
  {
    var s := Show(t) + rest;
    TreeStarts(t);
    assert s[0] == Show(t)[0] && SkipBlanks(s) == s;
    assert s[..|Show(t)|] == Show(t) && s[|Show(t)|..] == rest;
    if |s| >= 5 { assert s[..4][0] == s[0] && s[..5][0] == s[0]; }
  }

  lemma {:induction false} TokenReads<N>(t: Tree, rest: Text, read: Text -> N, keeps: Text -> bool)
    requires GoodTree(t) && Follows(rest) && (t.NumberTree? || t.StringTree?)
    ensures ParseValue(Show(t) + rest, read, keeps) == Reading(t, rest, read, keeps)
  {
    var s := Show(t) + rest;
    TreeStarts(t);
    assert s[0] == Show(t)[0] && SkipBlanks(s) == s;
    if t.NumberTree? {
      NumeralReads(t.numeral, rest);
      assert s[..|Show(t)|] == Show(t) && s[|Show(t)|..] == rest;
    } else {
      StringReads(t.pieces, rest);
    }
  }

  lemma {:induction false} TreeReads<N>(t: Tree, rest: Text, read: Text -> N, keeps: Text -> bool)
    requires GoodTree(t) && Follows(rest)
    ensures ParseValue(Show(t) + rest, read, keeps) == Reading(t, rest, read, keeps)
    decreases t, 1
  {
    match t
    case NullTree => WordReads(t, rest, read, keeps);
    case BoolTree(_) => WordReads(t, rest, read, keeps);
    case NumberTree(_) => TokenReads(t, rest, read, keeps);
    case StringTree(_) => TokenReads(t, rest, read, keeps);
    case ArrayTree(_, _) => ArrayReads(t, rest, read, keeps);
    case ObjectTree(_, _) => ObjectReads(t, rest, read, keeps);
  }

  lemma {:induction false} AroundValue<N>(before: Text, t: Tree, rest: Text, read: Text -> N, keeps: Text -> bool)
    requires Blanks(before) && GoodTree(t)
    ensures ParseValue(before + (Show(t) + rest), read, keeps) == ParseValue(Show(t) + rest, read, keeps)
  {
    SkipPast(before, Show(t) + rest);
    ValueSkips(before + (Show(t) + rest), read, keeps);
    ValueSkips(Show(t) + rest, read, keeps);
  }

  // ----- arrays -----

  lemma {:induction false} ArrayOpens<N>(inner: Text, read: Text -> N, keeps: Text -> bool)
    ensures var u := SkipBlanks(inner);
            ParseValue([0x5B] + inner, read, keeps)
              == if u != [] && u[0] == 0x5D then Some((Arr([]), u[1..]))
                 else match ParseElements(inner, read, keeps)
                      case None => None
                      case Some((items, rest)) => Some((Arr(items), rest))
  {
    var s := [0x5B] + inner;
    assert s[0] == 0x5B && SkipBlanks(s) == s && s[1..] == inner;
    ElementsSkip(inner, read, keeps);
  }

  lemma {:induction false} LastElement<N>(s: Text, v: Value<N>, after: Text, rest: Text, read: Text -> N,
    keeps: Text -> bool)
    requires ParseValue(s, read, keeps) == Some((v, after)) && SkipBlanks(after) == [0x5D] + rest
    ensures ParseElements(s, read, keeps) == Some(([v], rest))
  {
    assert ([0x5D] + rest)[1..] == rest;
  }

  lemma {:induction false} MoreElements<N>(s: Text, v: Value<N>, after: Text, more: Text, read: Text -> N,
    keeps: Text -> bool)
    requires ParseValue(s, read, keeps) == Some((v, after)) && SkipBlanks(after) == [0x2C] + more
    ensures ParseElements(s, read, keeps)
         == match ParseElements(more, read, keeps)
            case None => None
            case Some((items, last)) => Some(([v] + items, last))
  {
    assert ([0x2C] + more)[1..] == more;
  }

  /** The text behind the value of the first item. */
  function BehindItem(items: seq<ItemTree>, end: Text): Text
    requires items != [] && GoodItems(items)
  {
    if |items| == 1 then end else [0x2C] + (ShowItems(items[1..]) + end)
  }

  lemma CommaThen(t: Text, end: Text)
    ensures [0x2C] + t + end == [0x2C] + (t + end)
  {
  }

  lemma Nested(a: Text, b: Text, c: Text, d: Text, end: Text)
    ensures a + (b + (c + d)) + end == a + (b + (c + (d + end)))
  {
    assert c + d + end == c + (d + end);
    assert b + (c + d) + end == b + (c + d + end);
  }

  lemma {:induction false} ItemsShow(items: seq<ItemTree>, end: Text)
    requires items != [] && GoodItems(items)
    ensures ShowItems(items) + end
         == items[0].before + (Show(items[0].tree) + (items[0].after + BehindItem(items, end)))
  {
    var more := if |items| == 1 then [] else [0x2C] + ShowItems(items[1..]);
    if |items| > 1 { CommaThen(ShowItems(items[1..]), end); }
    Nested(items[0].before, Show(items[0].tree), items[0].after, more, end);
  }

  lemma {:induction false} TailStarts(tail: Text, after: Text)
    requires Blanks(after) && tail != [] && tail[0] in [0x2C, 0x5D, 0x7D]
    ensures SkipBlanks(after + tail) == tail && Follows(after + tail)
  {
    SkipPast(after, tail);
    assert SkipBlanks(tail) == tail;
    if after == [] { assert after + tail == tail; }
  }

  lemma {:induction false} ItemsStart(items: seq<ItemTree>, end: Text)
    requires items != [] && GoodItems(items)
    ensures var u := SkipBlanks(ShowItems(items) + end); u != [] && u[0] != 0x5D
  {
    ItemsShow(items, end);
    TreeStarts(items[0].tree);
    SkipPast(items[0].before, Show(items[0].tree) + (items[0].after + BehindItem(items, end)));
  }

  lemma {:induction false} ArrayReads<N>(t: Tree, rest: Text, read: Text -> N, keeps: Text -> bool)
    requires GoodTree(t) && t.ArrayTree?
    ensures ParseValue(Show(t) + rest, read, keeps) == Reading(t, rest, read, keeps)
    decreases t, 0
  {
    var end := [0x5D] + rest;
    var inner := (if t.items == [] then t.inside else ShowItems(t.items)) + end;
    assert Show(t) + rest == [0x5B] + inner;
    ArrayOpens(inner, read, keeps);
    if t.items == [] {
      TailStarts(end, t.inside);
      assert end[1..] == rest && Unique(t) && Mean(t, read, keeps) == Arr([]);
    } else {
      ItemsRead(t.items, rest, read, keeps);
      ItemsStart(t.items, end);
    }
  }

  lemma {:induction false} FirstItemReads<N>(items: seq<ItemTree>, end: Text, read: Text -> N, keeps: Text -> bool)
    requires items != [] && GoodItems(items) && end != [] && end[0] == 0x5D
    ensures var rest := items[0].after + BehindItem(items, end);
            && ParseValue(ShowItems(items) + end, read, keeps) == Reading(items[0].tree, rest, read, keeps)
            && SkipBlanks(rest) == BehindItem(items, end)
    decreases items, 0
  {
    var rest := items[0].after + BehindItem(items, end);
    ItemsShow(items, end);
    TailStarts(BehindItem(items, end), items[0].after);
    TreeReads(items[0].tree, rest, read, keeps);
    AroundValue(items[0].before, items[0].tree, rest, read, keeps);
  }

  lemma {:induction false} ItemsRead<N>(items: seq<ItemTree>, rest: Text, read: Text -> N, keeps: Text -> bool)
    requires items != [] && GoodItems(items)
    ensures ParseElements(ShowItems(items) + ([0x5D] + rest), read, keeps)
         == if UniqueItems(items) then Some((MeanItems(items, read, keeps), rest)) else None
    decreases items, 1
  {
    var end := [0x5D] + rest;
    var s, after := ShowItems(items) + end, items[0].after + BehindItem(items, end);
    FirstItemReads(items, end, read, keeps);
    if Unique(items[0].tree) {
      var v := Mean(items[0].tree, read, keeps);
      if |items| == 1 {
        LastElement(s, v, after, rest, read, keeps);
        assert items[1..] == [] && UniqueItems([]) && MeanItems([], read, keeps) == [];
        assert MeanItems(items, read, keeps) == [v];
      } else {
        ItemsRead(items[1..], rest, read, keeps);
        MoreElements(s, v, after, ShowItems(items[1..]) + end, read, keeps);
      }
    }
  }

  // ----- objects -----

  lemma {:induction false} ObjectOpens<N>(inner: Text, read: Text -> N, keeps: Text -> bool)
    ensures var u := SkipBlanks(inner);
            ParseValue([0x7B] + inner, read, keeps)
              == if u != [] && u[0] == 0x7D then Some((Obj([]), u[1..]))
                 else match ParseMembers(inner, {}, read, keeps)
                      case None => None
                      case Some((fields, rest)) => Some((Obj(fields), rest))
  {
    var s := [0x7B] + inner;
    assert s[0] == 0x7B && SkipBlanks(s) == s && s[1..] == inner;
    MembersSkip(inner, {}, read, keeps);
  }

  /** The text behind the value of the first member. */
  function BehindMember(ms: seq<MemberTree>, end: Text): Text
    requires ms != [] && GoodMembers(ms)
  {
    if |ms| == 1 then end else [0x2C] + (ShowMembers(ms[1..]) + end)
  }

  /** The text behind the key of a member: blanks, the colon, the value, and the tail. */
  function BehindKey(m: MemberTree, tail: Text): Text
    requires GoodTree(m.tree)
  {
    m.afterKey + ([0x3A] + (m.beforeValue + (Show(m.tree) + (m.after + tail))))
  }

  lemma BehindKeyAppend(m: MemberTree, more: Text, end: Text)
    requires GoodTree(m.tree)
    ensures BehindKey(m, more) + end == BehindKey(m, more + end)
  {
    var a := m.after + more;
    assert a + end == m.after + (more + end);
    var b := Show(m.tree) + a;
    assert b + end == Show(m.tree) + (a + end);
    var c := m.beforeValue + b;
    assert c + end == m.beforeValue + (b + end);
    var d := [0x3A] + c;
    assert d + end == [0x3A] + (c + end);
    assert m.afterKey + d + end == m.afterKey + (d + end);
  }

  lemma NestedKey(a: Text, key: Text, behind: Text, end: Text)
    ensures a + (key + behind) + end == a + (key + (behind + end))
  {
    assert key + behind + end == key + (behind + end);
  }

  lemma {:induction false} MembersShow(ms: seq<MemberTree>, end: Text)
    requires ms != [] && GoodMembers(ms)
    ensures ShowMembers(ms) + end
         == ms[0].before + (ShowString(ms[0].key) + BehindKey(ms[0], BehindMember(ms, end)))
  {
    var more := if |ms| == 1 then [] else [0x2C] + ShowMembers(ms[1..]);
    MoreAndEnd(ms, more, end);
    BehindKeyAppend(ms[0], more, end);
    NestedKey(ms[0].before, ShowString(ms[0].key), BehindKey(ms[0], more), end);
    assert ShowMembers(ms) == ms[0].before + (ShowString(ms[0].key) + BehindKey(ms[0], more));
  }

  lemma {:induction false} MoreAndEnd(ms: seq<MemberTree>, more: Text, end: Text)
    requires ms != [] && GoodMembers(ms) && more == if |ms| == 1 then [] else [0x2C] + ShowMembers(ms[1..])
    ensures more + end == BehindMember(ms, end)
  {
    if |ms| > 1 { CommaThen(ShowMembers(ms[1..]), end); }
  }

  lemma {:induction false} MembersStart(ms: seq<MemberTree>, end: Text)
    requires ms != [] && GoodMembers(ms)
    ensures var u := SkipBlanks(ShowMembers(ms) + end); u != [] && u[0] == 0x22
  {
    MembersShow(ms, end);
    var t := ShowString(ms[0].key) + BehindKey(ms[0], BehindMember(ms, end));
    assert t[0] == 0x22 && SkipBlanks(t) == t;
    SkipPast(ms[0].before, t);
  }

  /** The parser behind the colon of a member. */
  function ParseAfterColon<N>(key: Text, s: Text, seen: set<Text>, read: Text -> N, keeps: Text -> bool)
    : Option<(seq<Entry<Value<N>>>, Text)>
  {
    if key in seen then None else
    match ParseValue(s, read, keeps)
    case None => None
    case Some((value, afterValue)) =>
      var stored := if keeps(key) then [Entry(key, value)] else [];
      var w := SkipBlanks(afterValue);
      if w != [] && w[0] == 0x2C then
        (match ParseMembers(w[1..], seen + {key}, read, keeps)
         case None => None
         case Some((fields, last)) => Some((stored + fields, last)))
      else if w != [] && w[0] == 0x7D then Some((stored, w[1..]))
      else None
  }

  lemma {:induction false} KeyThenColon<N>(t: Text, key: Text, after: Text, value: Text, seen: set<Text>,
    read: Text -> N, keeps: Text -> bool)
    requires t != [] && t[0] == 0x22 && ParseChars(t[1..]) == Some((key, after)) && SkipBlanks(after) == [0x3A] + value
    ensures ParseMembers(t, seen, read, keeps) == ParseAfterColon(key, value, seen, read, keeps)
  {
    assert SkipBlanks(t) == t && ([0x3A] + value)[1..] == value;
  }

  /** What the parser makes of a member's key, up to its value. */
  lemma {:induction false} KeyReads<N>(m: MemberTree, tail: Text, seen: set<Text>, read: Text -> N, keeps: Text -> bool)
    requires Blanks(m.before) && GoodPieces(m.key) && Blanks(m.afterKey) && GoodTree(m.tree)
    ensures var s := m.before + (ShowString(m.key) + BehindKey(m, tail));
            var value := m.beforeValue + (Show(m.tree) + (m.after + tail));
            ParseMembers(s, seen, read, keeps) == ParseAfterColon(MeanPieces(m.key), value, seen, read, keeps)
  {
    var t := ShowString(m.key) + BehindKey(m, tail);
    var value := m.beforeValue + (Show(m.tree) + (m.after + tail));
    StringReads(m.key, BehindKey(m, tail));
    SkipPast(m.before, t);
    SkipPast(m.afterKey, [0x3A] + value);
    assert SkipBlanks([0x3A] + value) == [0x3A] + value && SkipBlanks(t) == t;
    KeyThenColon(t, MeanPieces(m.key), BehindKey(m, tail), value, seen, read, keeps);
    MembersSkip(m.before + t, seen, read, keeps);
    MembersSkip(t, seen, read, keeps);
  }

  lemma {:induction false} ObjectReads<N>(t: Tree, rest: Text, read: Text -> N, keeps: Text -> bool)
    requires GoodTree(t) && t.ObjectTree?
    ensures ParseValue(Show(t) + rest, read, keeps) == Reading(t, rest, read, keeps)
    decreases t, 0
  {
    var end := [0x7D] + rest;
    var inner := (if t.members == [] then t.inside else ShowMembers(t.members)) + end;
    assert Show(t) + rest == [0x7B] + inner;
    ObjectOpens(inner, read, keeps);
    if t.members == [] {
      TailStarts(end, t.inside);
      assert end[1..] == rest && Unique(t) && Mean(t, read, keeps) == Obj([]);
    } else {
      MembersRead(t.members, {}, rest, read, keeps);
      MembersStart(t.members, end);
    }
  }

  lemma {:induction false} FirstMemberReads<N>(ms: seq<MemberTree>, end: Text, read: Text -> N, keeps: Text -> bool)
    requires ms != [] && GoodMembers(ms) && end != [] && end[0] == 0x7D
    ensures var rest := ms[0].after + BehindMember(ms, end);
            && ParseValue(ms[0].beforeValue + (Show(ms[0].tree) + rest), read, keeps)
                 == Reading(ms[0].tree, rest, read, keeps)
            && SkipBlanks(rest) == BehindMember(ms, end)
    decreases ms, 0
  {
    var rest := ms[0].after + BehindMember(ms, end);
    TailStarts(BehindMember(ms, end), ms[0].after);
    TreeReads(ms[0].tree, rest, read, keeps);
    AroundValue(ms[0].beforeValue, ms[0].tree, rest, read, keeps);
  }

  lemma {:induction false} LastMemberReads<N>(key: Text, s: Text, v: Value<N>, after: Text, rest: Text,
    seen: set<Text>, read: Text -> N, keeps: Text -> bool)
    requires key !in seen && ParseValue(s, read, keeps) == Some((v, after)) && SkipBlanks(after) == [0x7D] + rest
    ensures ParseAfterColon(key, s, seen, read, keeps) == Some((if keeps(key) then [Entry(key, v)] else [], rest))
  {
    assert ([0x7D] + rest)[1..] == rest;
  }

  lemma {:induction false} MoreMembersRead<N>(key: Text, s: Text, v: Value<N>, after: Text, more: Text,
    seen: set<Text>, read: Text -> N, keeps: Text -> bool)
    requires key !in seen && ParseValue(s, read, keeps) == Some((v, after)) && SkipBlanks(after) == [0x2C] + more
    ensures ParseAfterColon(key, s, seen, read, keeps)
         == match ParseMembers(more, seen + {key}, read, keeps)
            case None => None
            case Some((fields, last)) => Some(((if keeps(key) then [Entry(key, v)] else []) + fields, last))
  {
    assert ([0x2C] + more)[1..] == more;
  }

  lemma {:induction false} MembersRead<N>(ms: seq<MemberTree>, seen: set<Text>, rest: Text, read: Text -> N,
                                          keeps: Text -> bool)
    requires ms != [] && GoodMembers(ms)
    ensures ParseMembers(ShowMembers(ms) + ([0x7D] + rest), seen, read, keeps)
         == if UniqueMembers(ms, seen) then Some((MeanMembers(ms, read, keeps), rest)) else None
    decreases ms, 1
  {
    var m, end, key := ms[0], [0x7D] + rest, MeanPieces(ms[0].key);
    var after := m.after + BehindMember(ms, end);
    var value := m.beforeValue + (Show(m.tree) + after);
    MembersShow(ms, end);
    KeyReads(m, BehindMember(ms, end), seen, read, keeps);
    FirstMemberReads(ms, end, read, keeps);
    MembersUnique(ms, seen);
    if key in seen || !Unique(m.tree) {
      BadMember(key, value, seen, read, keeps);
    } else {
      var v := Mean(m.tree, read, keeps);
      MembersMean(ms, read, keeps);
      if |ms| == 1 {
        LastMemberReads(key, value, v, after, rest, seen, read, keeps);
        assert ms[1..] == [];
      } else {
        MembersRead(ms[1..], seen + {key}, rest, read, keeps);
        MoreMembersRead(key, value, v, after, ShowMembers(ms[1..]) + end, seen, read, keeps);
      }
    }
  }

  lemma {:induction false} BadMember<N>(key: Text, s: Text, seen: set<Text>, read: Text -> N, keeps: Text -> bool)
    requires key in seen || ParseValue(s, read, keeps) == None
    ensures ParseAfterColon(key, s, seen, read, keeps) == None
  {
  }

  lemma {:induction false} MembersUnique(ms: seq<MemberTree>, seen: set<Text>)
    requires ms != [] && GoodMembers(ms)
    ensures UniqueMembers(ms, seen)
       <==> MeanPieces(ms[0].key) !in seen && Unique(ms[0].tree)
            && (|ms| == 1 || UniqueMembers(ms[1..], seen + {MeanPieces(ms[0].key)}))
  {
    if |ms| == 1 { assert ms[1..] == []; }
  }

  lemma {:induction false} MembersMean<N>(ms: seq<MemberTree>, read: Text -> N, keeps: Text -> bool)
    requires ms != [] && GoodMembers(ms)
    ensures var key := MeanPieces(ms[0].key);
            var stored := if keeps(key) then [Entry(key, Mean(ms[0].tree, read, keeps))] else [];
            MeanMembers(ms, read, keeps)
              == if |ms| == 1 then stored else stored + MeanMembers(ms[1..], read, keeps)
  {
    if |ms| == 1 { assert ms[1..] == [] && MeanMembers([], read, keeps) == []; }
  }

  // ----- every text that is parsed is the text of a tree -----

  /** A tree for a value that was parsed, with the blanks before it. */
  ghost predicate Reads<N>(s: Text, before: Text, t: Tree, v: Value<N>, rest: Text, read: Text -> N,
    keeps: Text -> bool)
  {
    && Blanks(before) && GoodTree(t) && Unique(t)
    && s == before + (Show(t) + rest) && Mean(t, read, keeps) == v
  }

  lemma ReadsBehindBlanks<N>(s: Text, before: Text, t: Text, tree: Tree, v: Value<N>, rest: Text, read: Text -> N,
                             keeps: Text -> bool)
    requires Reads(t, [], tree, v, rest, read, keeps) && Blanks(before) && s == before + t
    ensures Reads(s, before, tree, v, rest, read, keeps)
  {
    assert [] + (Show(tree) + rest) == Show(tree) + rest;
  }

  lemma {:induction false} ReadsArray<N>(inside: Text, items: seq<ItemTree>, rest: Text, read: Text -> N,
    keeps: Text -> bool)
    requires Blanks(inside) && GoodItems(items) && UniqueItems(items)
    ensures var inner := if items == [] then inside else ShowItems(items);
            Reads([0x5B] + (inner + ([0x5D] + rest)), [], ArrayTree(inside, items), Arr(MeanItems(items, read, keeps)),
                  rest, read, keeps)
  {
    var inner := if items == [] then inside else ShowItems(items);
    assert [] + ([0x5B] + inner + [0x5D] + rest) == [0x5B] + (inner + ([0x5D] + rest));
  }

  lemma {:induction false} ReadsObject<N>(inside: Text, members: seq<MemberTree>, rest: Text, read: Text -> N,
    keeps: Text -> bool)
    requires Blanks(inside) && GoodMembers(members) && UniqueMembers(members, {})
    ensures var inner := if members == [] then inside else ShowMembers(members);
            Reads([0x7B] + (inner + ([0x7D] + rest)), [], ObjectTree(inside, members),
                  Obj(MeanMembers(members, read, keeps)), rest, read, keeps)
  {
    var inner := if members == [] then inside else ShowMembers(members);
    assert [] + ([0x7B] + inner + [0x7D] + rest) == [0x7B] + (inner + ([0x7D] + rest));
  }

  lemma WordOf<N>(t: Text, read: Text -> N, keeps: Text -> bool) returns (tree: Tree)
    requires SkipBlanks(t) == t && ParseValue(t, read, keeps).Some?
    requires t[0] != 0x7B && t[0] != 0x5B && t[0] != 0x22 && t[0] != 0x2D && !IsDigit(t[0])
    ensures var (v, rest) := ParseValue(t, read, keeps).value; Reads(t, [], tree, v, rest, read, keeps)
  {
    if StartsWith(t, TRUE_TEXT) {
      tree := BoolTree(true);
      assert t == TRUE_TEXT + t[4..];
    } else if StartsWith(t, FALSE_TEXT) {
      tree := BoolTree(false);
      assert t == FALSE_TEXT + t[5..];
    } else {
      tree := NullTree;
      assert t == NULL_TEXT + t[4..];
    }
  }

  lemma TokenOf<N>(t: Text, read: Text -> N, keeps: Text -> bool) returns (tree: Tree)
    requires SkipBlanks(t) == t && ParseValue(t, read, keeps).Some?
    requires t[0] == 0x22 || t[0] == 0x2D || IsDigit(t[0])
    ensures var (v, rest) := ParseValue(t, read, keeps).value; Reads(t, [], tree, v, rest, read, keeps)
  {
    if t[0] == 0x22 {
      var ps := PiecesOf(t[1..]);
      tree := StringTree(ps);
      assert t == [0x22] + t[1..];
    } else {
      var n := NumeralOf(t);
      tree := NumberTree(n);
      assert t == t[..ScanNumber(t).value] + t[ScanNumber(t).value..];
    }
  }

  lemma {:induction false} TreeOf<N>(s: Text, read: Text -> N, keeps: Text -> bool) returns (before: Text, tree: Tree)
    requires ParseValue(s, read, keeps).Some?
    ensures var (v, rest) := ParseValue(s, read, keeps).value; Reads(s, before, tree, v, rest, read, keeps)
    decreases |s|, 1
  {
    before := SkippedIsBlank(s);
    var t := SkipBlanks(s);
    ValueSkips(s, read, keeps);
    var (v, rest) := ParseValue(s, read, keeps).value;
    tree := BareTreeOf(t, read, keeps);
    ReadsBehindBlanks(s, before, t, tree, v, rest, read, keeps);
  }

  lemma {:induction false} BareTreeOf<N>(t: Text, read: Text -> N, keeps: Text -> bool) returns (tree: Tree)
    requires SkipBlanks(t) == t && ParseValue(t, read, keeps).Some?
    ensures var (v, rest) := ParseValue(t, read, keeps).value; Reads(t, [], tree, v, rest, read, keeps)
    decreases |t|, 0, 1
  {
    if t[0] == 0x5B {
      tree := ArrayOf(t[1..], read, keeps);
      assert t == [0x5B] + t[1..];
    } else if t[0] == 0x7B {
      tree := ObjectOf(t[1..], read, keeps);
      assert t == [0x7B] + t[1..];
    } else if t[0] == 0x22 || t[0] == 0x2D || IsDigit(t[0]) {
      tree := TokenOf(t, read, keeps);
    } else {
      tree := WordOf(t, read, keeps);
    }
  }

  lemma {:induction false} ArrayOf<N>(inner: Text, read: Text -> N, keeps: Text -> bool) returns (tree: Tree)
    requires ParseValue([0x5B] + inner, read, keeps).Some?
    ensures var (v, rest) := ParseValue([0x5B] + inner, read, keeps).value;
            Reads([0x5B] + inner, [], tree, v, rest, read, keeps)
    decreases |inner| + 1, 0, 0
  {
    ArrayOpens(inner, read, keeps);
    var inside := SkippedIsBlank(inner);
    var u := SkipBlanks(inner);
    if u != [] && u[0] == 0x5D {
      tree := ArrayTree(inside, []);
      assert u == [0x5D] + u[1..];
      ReadsArray(inside, [], u[1..], read, keeps);
    } else {
      var items := ItemsOf(inner, read, keeps);
      tree := ArrayTree([], items);
      ReadsArray([], items, ParseElements(inner, read, keeps).value.1, read, keeps);
    }
  }

  lemma {:induction false} ItemsOf<N>(s: Text, read: Text -> N, keeps: Text -> bool) returns (items: seq<ItemTree>)
    requires ParseElements(s, read, keeps).Some?
    ensures var (vs, rest) := ParseElements(s, read, keeps).value;
            && items != [] && GoodItems(items) && UniqueItems(items) && MeanItems(items, read, keeps) == vs
            && s == ShowItems(items) + ([0x5D] + rest)
    decreases |s|, 2
  {
    var before, tree := TreeOf(s, read, keeps);
    var (v, after) := ParseValue(s, read, keeps).value;
    var blanks := SkippedIsBlank(after);
    var tail := SkipBlanks(after);
    var item := ItemTree(before, tree, blanks);
    if tail[0] == 0x2C {
      var more := ItemsOf(tail[1..], read, keeps);
      items := [item] + more;
      assert tail == [0x2C] + tail[1..] && items[1..] == more;
      MoreElements(s, v, after, tail[1..], read, keeps);
      ItemsShow(items, [0x5D] + ParseElements(s, read, keeps).value.1);
    } else {
      items := [item];
      assert tail == [0x5D] + tail[1..] && items[1..] == [];
      LastElement(s, v, after, tail[1..], read, keeps);
      ItemsShow(items, tail);
    }
  }

  lemma {:induction false} ObjectOf<N>(inner: Text, read: Text -> N, keeps: Text -> bool) returns (tree: Tree)
    requires ParseValue([0x7B] + inner, read, keeps).Some?
    ensures var (v, rest) := ParseValue([0x7B] + inner, read, keeps).value;
            Reads([0x7B] + inner, [], tree, v, rest, read, keeps)
    decreases |inner| + 1, 0, 0
  {
    ObjectOpens(inner, read, keeps);
    var inside := SkippedIsBlank(inner);
    var u := SkipBlanks(inner);
    if u != [] && u[0] == 0x7D {
      tree := ObjectTree(inside, []);
      assert u == [0x7D] + u[1..];
      ReadsObject(inside, [], u[1..], read, keeps);
    } else {
      var members := MembersOf(inner, {}, read, keeps);
      tree := ObjectTree([], members);
      ReadsObject([], members, ParseMembers(inner, {}, read, keeps).value.1, read, keeps);
    }
  }

  /** The key of a member that was parsed, and the text behind its colon. */
  lemma KeyOf<N>(s: Text, seen: set<Text>, read: Text -> N, keeps: Text -> bool)
      returns (before: Text, key: seq<Piece>, afterKey: Text, value: Text)
    requires ParseMembers(s, seen, read, keeps).Some?
    ensures Blanks(before) && GoodPieces(key) && Blanks(afterKey) && |value| < |s|
    ensures s == before + (ShowString(key) + (afterKey + ([0x3A] + value)))
    ensures ParseMembers(s, seen, read, keeps) == ParseAfterColon(MeanPieces(key), value, seen, read, keeps)
  {
    before := SkippedIsBlank(s);
    var t := SkipBlanks(s);
    MembersSkip(s, seen, read, keeps);
    key, afterKey, value := BareKeyOf(t, seen, read, keeps);
  }

  lemma BareKeyOf<N>(t: Text, seen: set<Text>, read: Text -> N, keeps: Text -> bool)
      returns (key: seq<Piece>, afterKey: Text, value: Text)
    requires SkipBlanks(t) == t && ParseMembers(t, seen, read, keeps).Some?
    ensures GoodPieces(key) && Blanks(afterKey) && |value| < |t|
    ensures t == ShowString(key) + (afterKey + ([0x3A] + value))
    ensures ParseMembers(t, seen, read, keeps) == ParseAfterColon(MeanPieces(key), value, seen, read, keeps)
  {
    var after := ParseChars(t[1..]).value.1;
    key := PiecesOf(t[1..]);
    StringSplits(t, key, after);
    afterKey := SkippedIsBlank(after);
    value := SkipBlanks(after)[1..];
    assert SkipBlanks(after) == [0x3A] + value;
    KeyThenColon(t, MeanPieces(key), after, value, seen, read, keeps);
  }

  lemma {:induction false} StringSplits(t: Text, key: seq<Piece>, after: Text)
    requires t != [] && t[0] == 0x22 && GoodPieces(key) && t[1..] == ShowPieces(key) + ([0x22] + after)
    ensures t == ShowString(key) + after
  {
    assert t == [0x22] + t[1..];
  }

  lemma {:induction false} MembersOf<N>(s: Text, seen: set<Text>, read: Text -> N, keeps: Text -> bool)
      returns (ms: seq<MemberTree>)
    requires ParseMembers(s, seen, read, keeps).Some?
    ensures var (fields, rest) := ParseMembers(s, seen, read, keeps).value;
            && ms != [] && GoodMembers(ms) && UniqueMembers(ms, seen) && MeanMembers(ms, read, keeps) == fields
            && s == ShowMembers(ms) + ([0x7D] + rest)
    decreases |s|, 2
  {
    var before, key, afterKey, value := KeyOf(s, seen, read, keeps);
    var k := MeanPieces(key);
    var beforeValue, tree := TreeOf(value, read, keeps);
    var (v, after) := ParseValue(value, read, keeps).value;
    var blanks := SkippedIsBlank(after);
    var tail := SkipBlanks(after);
    var m := MemberTree(before, key, afterKey, beforeValue, tree, blanks);
    if tail[0] == 0x2C {
      var more := MembersOf(tail[1..], seen + {k}, read, keeps);
      ms := [m] + more;
      assert tail == [0x2C] + tail[1..] && ms[1..] == more;
      MoreMembersRead(k, value, v, after, tail[1..], seen, read, keeps);
    } else {
      ms := [m];
      assert tail == [0x7D] + tail[1..] && ms[1..] == [];
      LastMemberReads(k, value, v, after, tail[1..], seen, read, keeps);
    }
    MembersUnique(ms, seen);
    MembersMean(ms, read, keeps);
    MembersShow(ms, [0x7D] + ParseMembers(s, seen, read, keeps).value.1);
  }

  // ----- the parser and the grammar -----

  /** A whole text: a tree with blanks around it. */
  ghost predicate Derives<N>(s: Text, v: Value<N>, read: Text -> N, keeps: Text -> bool) {
    exists before, t, after :: DerivedBy(s, before, t, after) && Mean(t, read, keeps) == v
  }

  predicate DerivedBy(s: Text, before: Text, t: Tree, after: Text) {
    Blanks(before) && GoodTree(t) && Unique(t) && Blanks(after) && s == before + (Show(t) + after)
  }

  /** A text of the grammar parses to what it means if no object in it has a key twice, and not at all otherwise. */
  lemma {:induction false} TreeParses<N>(before: Text, t: Tree, after: Text, read: Text -> N, keeps: Text -> bool)
    requires Blanks(before) && GoodTree(t) && Blanks(after)
    ensures Parse(before + (Show(t) + after), read, keeps) == if Unique(t) then Some(Mean(t, read, keeps)) else None
  {
    AroundValue(before, t, after, read, keeps);
    TreeReads(t, after, read, keeps);
    SkipPast(after, []);
    assert after + [] == after;
  }

  /** The parser accepts exactly the texts that the grammar derives with no key twice in one object, each with the one
      value that it means. */
  lemma ParsesExactlyWhatTheGrammarDerives<N>(s: Text, v: Value<N>, read: Text -> N, keeps: Text -> bool)
    ensures Parse(s, read, keeps) == Some(v) <==> Derives(s, v, read, keeps)
  {
    if Parse(s, read, keeps) == Some(v) {
      var before, t := TreeOf(s, read, keeps);
      var after := SkippedIsBlank(ParseValue(s, read, keeps).value.1);
      assert after + [] == after && DerivedBy(s, before, t, after);
    }
    if before, t, after :| DerivedBy(s, before, t, after) && Mean(t, read, keeps) == v {
      TreeParses(before, t, after, read, keeps);
    }
  }

  // ----- blanks and duplicate keys -----

  /** The tree without its blanks. */
  function Stripped(t: Tree): Tree {
    match t
    case ArrayTree(_, items) => ArrayTree([], StrippedItems(items))
    case ObjectTree(_, members) => ObjectTree([], StrippedMembers(members))
    case _ => t
  }

  function StrippedItems(items: seq<ItemTree>): seq<ItemTree> {
    if items == [] then [] else [ItemTree([], Stripped(items[0].tree), [])] + StrippedItems(items[1..])
  }

  function StrippedMembers(ms: seq<MemberTree>): seq<MemberTree> {
    if ms == [] then []
    else [MemberTree([], ms[0].key, [], [], Stripped(ms[0].tree), [])] + StrippedMembers(ms[1..])
  }

  lemma {:induction false} StrippedTree<N>(t: Tree, read: Text -> N, keeps: Text -> bool)
    requires GoodTree(t)
    ensures GoodTree(Stripped(t)) && (Unique(Stripped(t)) <==> Unique(t))
    ensures Mean(Stripped(t), read, keeps) == Mean(t, read, keeps)
    decreases t
  {
    match t
    case ArrayTree(_, items) => StrippedArray(items, read, keeps);
    case ObjectTree(_, members) => StrippedObject(members, {}, read, keeps);
    case _ =>
  }

  lemma {:induction false} StrippedArray<N>(items: seq<ItemTree>, read: Text -> N, keeps: Text -> bool)
    requires GoodItems(items)
    ensures var bare := StrippedItems(items);
            && GoodItems(bare) && (UniqueItems(bare) <==> UniqueItems(items))
            && MeanItems(bare, read, keeps) == MeanItems(items, read, keeps)
    decreases items
  {
    if items != [] {
      StrippedTree(items[0].tree, read, keeps);
      StrippedArray(items[1..], read, keeps);
      assert StrippedItems(items)[1..] == StrippedItems(items[1..]);
    }
  }

  lemma {:induction false} StrippedObject<N>(ms: seq<MemberTree>, seen: set<Text>, read: Text -> N, keeps: Text -> bool)
    requires GoodMembers(ms)
    ensures var bare := StrippedMembers(ms);
            && GoodMembers(bare) && (UniqueMembers(bare, seen) <==> UniqueMembers(ms, seen))
            && MeanMembers(bare, read, keeps) == MeanMembers(ms, read, keeps)
    decreases ms
  {
    if ms != [] {
      StrippedTree(ms[0].tree, read, keeps);
      StrippedObject(ms[1..], seen + {MeanPieces(ms[0].key)}, read, keeps);
      assert StrippedMembers(ms)[1..] == StrippedMembers(ms[1..]);
    }
  }

  /** Blanks between tokens never matter: a text parses to the same as the text without them, or both do not parse. */
  lemma {:induction false} BlanksDoNotMatter<N>(before: Text, t: Tree, after: Text, read: Text -> N,
    keeps: Text -> bool)
    requires Blanks(before) && GoodTree(t) && Blanks(after)
    ensures GoodTree(Stripped(t))
    ensures Parse(before + (Show(t) + after), read, keeps) == Parse(Show(Stripped(t)), read, keeps)
  {
    StrippedTree(t, read, keeps);
    TreeParses(before, t, after, read, keeps);
    TreeParses([], Stripped(t), [], read, keeps);
    assert [] + (Show(Stripped(t)) + []) == Show(Stripped(t));
  }

  /** The tree is the given one or contains it. */
  predicate Contains(t: Tree, part: Tree) {
    t == part || match t
                 case ArrayTree(_, items) => ItemsContain(items, part)
                 case ObjectTree(_, members) => MembersContain(members, part)
                 case _ => false
  }

  predicate ItemsContain(items: seq<ItemTree>, part: Tree) {
    items != [] && (Contains(items[0].tree, part) || ItemsContain(items[1..], part))
  }

  predicate MembersContain(ms: seq<MemberTree>, part: Tree) {
    ms != [] && (Contains(ms[0].tree, part) || MembersContain(ms[1..], part))
  }

  /** Two members of the object have keys that mean the same, however they are spelled. */
  predicate HasKeyTwice(t: Tree) {
    t.ObjectTree? && exists i, j | 0 <= i < j < |t.members| ::
      && GoodPieces(t.members[i].key) && GoodPieces(t.members[j].key)
      && MeanPieces(t.members[i].key) == MeanPieces(t.members[j].key)
  }

  lemma {:induction false} SeenKeyIsNotUnique(ms: seq<MemberTree>, seen: set<Text>, j: nat)
    requires GoodMembers(ms) && j < |ms| && GoodPieces(ms[j].key) && MeanPieces(ms[j].key) in seen
    ensures !UniqueMembers(ms, seen)
  {
    if j > 0 { SeenKeyIsNotUnique(ms[1..], seen + {MeanPieces(ms[0].key)}, j - 1); }
  }

  lemma {:induction false} KeyTwiceIsNotUnique(ms: seq<MemberTree>, seen: set<Text>, i: nat, j: nat)
    requires GoodMembers(ms) && i < j < |ms| && GoodPieces(ms[i].key) && GoodPieces(ms[j].key)
    requires MeanPieces(ms[i].key) == MeanPieces(ms[j].key)
    ensures !UniqueMembers(ms, seen)
  {
    var next := seen + {MeanPieces(ms[0].key)};
    if i == 0 {
      SeenKeyIsNotUnique(ms[1..], next, j - 1);
    } else {
      KeyTwiceIsNotUnique(ms[1..], next, i - 1, j - 1);
    }
  }

  lemma {:induction false} UniqueAllTheWay(t: Tree, part: Tree)
    requires GoodTree(t) && Contains(t, part) && HasKeyTwice(part)
    ensures !Unique(t)
    decreases t
  {
    if t == part {
      var i, j :| 0 <= i < j < |t.members| && GoodPieces(t.members[i].key) && GoodPieces(t.members[j].key)
                  && MeanPieces(t.members[i].key) == MeanPieces(t.members[j].key);
      KeyTwiceIsNotUnique(t.members, {}, i, j);
    } else {
      match t
      case ArrayTree(_, items) => UniqueInItems(items, part);
      case ObjectTree(_, members) => UniqueInMembers(members, {}, part);
    }
  }

  lemma {:induction false} UniqueInItems(items: seq<ItemTree>, part: Tree)
    requires GoodItems(items) && ItemsContain(items, part) && HasKeyTwice(part)
    ensures !UniqueItems(items)
    decreases items
  {
    if Contains(items[0].tree, part) {
      UniqueAllTheWay(items[0].tree, part);
    } else {
      UniqueInItems(items[1..], part);
    }
  }

  lemma {:induction false} UniqueInMembers(ms: seq<MemberTree>, seen: set<Text>, part: Tree)
    requires GoodMembers(ms) && MembersContain(ms, part) && HasKeyTwice(part)
    ensures !UniqueMembers(ms, seen)
    decreases ms
  {
    if Contains(ms[0].tree, part) {
      UniqueAllTheWay(ms[0].tree, part);
    } else {
      UniqueInMembers(ms[1..], seen + {MeanPieces(ms[0].key)}, part);
    }
  }

  lemma {:induction false} RepeatedKey(ms: seq<MemberTree>, seen: set<Text>) returns (i: nat, j: nat)
    requires GoodMembers(ms) && !UniqueMembers(ms, seen)
    requires forall k | 0 <= k < |ms| :: GoodTree(ms[k].tree) && Unique(ms[k].tree)
    ensures j < |ms| && GoodPieces(ms[j].key)
    ensures MeanPieces(ms[j].key) in seen
            || (i < j && GoodPieces(ms[i].key) && MeanPieces(ms[i].key) == MeanPieces(ms[j].key))
    decreases ms
  {
    var key := MeanPieces(ms[0].key);
    i := 0;
    if key in seen {
      j := 0;
    } else {
      assert forall k | 0 <= k < |ms[1..]| :: ms[1..][k] == ms[k + 1];
      var i', j' := RepeatedKey(ms[1..], seen + {key});
      j := j' + 1;
      if MeanPieces(ms[j].key) != key { i := i' + 1; }
    }
  }

  lemma {:induction false} MembersAreGood(ms: seq<MemberTree>, k: nat)
    requires GoodMembers(ms) && k < |ms|
    ensures GoodTree(ms[k].tree) && forall part | Contains(ms[k].tree, part) :: MembersContain(ms, part)
  {
    if k > 0 { MembersAreGood(ms[1..], k - 1); }
  }

  lemma {:induction false} ItemsAreGood(items: seq<ItemTree>) returns (k: nat)
    requires GoodItems(items) && !UniqueItems(items)
    ensures k < |items| && GoodTree(items[k].tree) && !Unique(items[k].tree)
    ensures forall part | Contains(items[k].tree, part) :: ItemsContain(items, part)
  {
    if !Unique(items[0].tree) {
      k := 0;
    } else {
      k := ItemsAreGood(items[1..]);
      k := k + 1;
    }
  }

  /** A tree that is not unique contains an object with a key twice. */
  lemma {:induction false} SomeKeyTwice(t: Tree) returns (part: Tree)
    requires GoodTree(t) && !Unique(t)
    ensures Contains(t, part) && HasKeyTwice(part)
    decreases t
  {
    match t
    case ArrayTree(_, items) =>
      var k := ItemsAreGood(items);
      part := SomeKeyTwice(items[k].tree);
    case ObjectTree(_, members) =>
      forall k: nat | k < |members|
        ensures GoodTree(members[k].tree)
        ensures forall inner | Contains(members[k].tree, inner) :: MembersContain(members, inner)
      {
        MembersAreGood(members, k);
      }
      if k: nat :| k < |members| && !Unique(members[k].tree) {
        part := SomeKeyTwice(members[k].tree);
      } else {
        var i, j := RepeatedKey(members, {});
        part := t;
      }
  }

  /** A text of the grammar is rejected exactly when some object in it, at any depth, has a key twice. */
  lemma {:induction false} RejectedExactlyForDuplicateKeys<N>(before: Text, t: Tree, after: Text, read: Text -> N,
    keeps: Text -> bool)
    requires Blanks(before) && GoodTree(t) && Blanks(after)
    ensures Parse(before + (Show(t) + after), read, keeps) == None
       <==> exists part :: Contains(t, part) && HasKeyTwice(part)
  {
    TreeParses(before, t, after, read, keeps);
    if !Unique(t) {
      var part := SomeKeyTwice(t);
    }
    if part :| Contains(t, part) && HasKeyTwice(part) {
      UniqueAllTheWay(t, part);
    }
  }
}
