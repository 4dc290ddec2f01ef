/** Canonical JSON text and the strict parser of the posting engine. Numbers are abstract: show
    prints one as a number token and read is its value. */
module JsonText {
  import opened Sums
  import opened Json

  const QUOTE: Unit := 0x22
  const BACKSLASH: Unit := 0x5C
  const COMMA: Unit := 0x2C
  const COLON: Unit := 0x3A
  const OPEN_BRACKET: Unit := 0x5B
  const CLOSE_BRACKET: Unit := 0x5D
  const OPEN_BRACE: Unit := 0x7B
  const CLOSE_BRACE: Unit := 0x7D
  const MINUS: Unit := 0x2D
  const PLUS: Unit := 0x2B
  const DOT: Unit := 0x2E
  const LOWER_E: Unit := 0x65
  const UPPER_E: Unit := 0x45
  const LOWER_U: Unit := 0x75
  const NULL_TEXT: Text := [0x6E, 0x75, 0x6C, 0x6C]
  const TRUE_TEXT: Text := [0x74, 0x72, 0x75, 0x65]
  const FALSE_TEXT: Text := [0x66, 0x61, 0x6C, 0x73, 0x65]

  // ----- strings -----

  predicate IsDigit(c: Unit) { 0x30 <= c <= 0x39 }

  /** The letter of a short escape: b, f, n, r, t, or the character itself. */
  function ShortEscape(c: Unit): Option<Unit> {
    if c == QUOTE || c == BACKSLASH then Some(c)
    else if c == 8 then Some(0x62) else if c == 12 then Some(0x66) else if c == 10 then Some(0x6E)
    else if c == 13 then Some(0x72) else if c == 9 then Some(0x74)
    else None
  }

  function Unescape(letter: Unit): Option<Unit> {
    if letter == QUOTE || letter == BACKSLASH || letter == 0x2F then Some(letter)
    else if letter == 0x62 then Some(8) else if letter == 0x66 then Some(12) else if letter == 0x6E then Some(10)
    else if letter == 0x72 then Some(13) else if letter == 0x74 then Some(9)
    else None
  }

  function HexDigit(d: nat): Unit
    requires d < 16
  {
    if d < 10 then 0x30 + d else 0x61 + d - 10
  }

  function HexValue(c: Unit): Option<nat> {
    if IsDigit(c) then Some(c - 0x30)
    else if 0x61 <= c <= 0x66 then Some(c - 0x61 + 10)
    else if 0x41 <= c <= 0x46 then Some(c - 0x41 + 10)
    else None
  }

  function Hex4(c: Unit): Text {
    [BACKSLASH, LOWER_U, HexDigit(c / 4096), HexDigit(c / 256 % 16), HexDigit(c / 16 % 16), HexDigit(c % 16)]
  }

  predicate IsHigh(c: Unit) { 0xD800 <= c <= 0xDBFF }

  predicate IsLow(c: Unit) { 0xDC00 <= c <= 0xDFFF }

  /** One unit by itself: a short escape, a hexadecimal escape for other control characters and lone
      surrogates, or the unit. */
  function EscapeUnit(c: Unit): Text {
    if ShortEscape(c).Some? then [BACKSLASH, ShortEscape(c).value]
    else if c < 0x20 || IsHigh(c) || IsLow(c) then Hex4(c)
    else [c]
  }

  function Escape(t: Text): Text {
    if t == [] then []
    else if |t| > 1 && IsHigh(t[0]) && IsLow(t[1]) then [t[0], t[1]] + Escape(t[2..])
    else EscapeUnit(t[0]) + Escape(t[1..])
  }

  /** JSON.stringify of a string. */
  function Quoted(t: Text): Text {
    [QUOTE] + Escape(t) + [QUOTE]
  }

  /** A string after its opening quote: its units and the text after the closing quote. */
  function ParseChars(s: Text): (r: Option<(Text, Text)>)
    ensures r.Some? ==> |r.value.1| < |s|
  {
    if s == [] then None
    else if s[0] == QUOTE then Some(([], s[1..]))
    else if s[0] == BACKSLASH then
      if |s| < 2 then None
      else if s[1] == LOWER_U then
        (if |s| < 6 || HexValue(s[2]).None? || HexValue(s[3]).None? || HexValue(s[4]).None? || HexValue(s[5]).None?
          then None
         else Prepend(HexUnit(s), ParseChars(s[6..])))
      else if Unescape(s[1]).None? then None
      else Prepend(Unescape(s[1]).value, ParseChars(s[2..]))
    else if s[0] < 0x20 then None
    else Prepend(s[0], ParseChars(s[1..]))
  }

  function HexUnit(s: Text): Unit
    requires |s| >= 6 && HexValue(s[2]).Some? && HexValue(s[3]).Some? && HexValue(s[4]).Some? && HexValue(s[5]).Some?
  {
    4096 * HexValue(s[2]).value + 256 * HexValue(s[3]).value + 16 * HexValue(s[4]).value + HexValue(s[5]).value
  }

  function Prepend(c: Unit, r: Option<(Text, Text)>): Option<(Text, Text)> {
    match r case None => None case Some((t, rest)) => Some(([c] + t, rest))
  }

  lemma HexDigitsSpellTheUnit(c: Unit)
    ensures c / 4096 < 16 && c == 4096 * (c / 4096) + 256 * (c / 256 % 16) + 16 * (c / 16 % 16) + c % 16
  {
  }

  lemma {:induction false} HexRoundTrip(c: Unit, rest: Text)
    ensures ParseChars(Hex4(c) + rest) == Prepend(c, ParseChars(rest))
  {
    HexDigitsSpellTheUnit(c);
    ParseHex(c / 4096, c / 256 % 16, c / 16 % 16, c % 16, rest);
  }

  lemma {:induction false} ParseHex(x: nat, y: nat, z: nat, w: nat, rest: Text)
    requires x < 16 && y < 16 && z < 16 && w < 16
    ensures var s := [BACKSLASH, LOWER_U, HexDigit(x), HexDigit(y), HexDigit(z), HexDigit(w)] + rest;
            ParseChars(s) == Prepend(4096 * x + 256 * y + 16 * z + w, ParseChars(rest))
  {
    var s := [BACKSLASH, LOWER_U, HexDigit(x), HexDigit(y), HexDigit(z), HexDigit(w)] + rest;
    assert s[6..] == rest;
    assert s[2] == HexDigit(x) && s[3] == HexDigit(y) && s[4] == HexDigit(z) && s[5] == HexDigit(w);
  }

  lemma {:induction false} UnitRoundTrip(c: Unit, rest: Text)
    ensures ParseChars(EscapeUnit(c) + rest) == Prepend(c, ParseChars(rest))
  {
    var s := EscapeUnit(c) + rest;
    if ShortEscape(c).Some? {
      assert s[2..] == rest;
    } else if c < 0x20 || IsHigh(c) || IsLow(c) {
      HexRoundTrip(c, rest);
    } else {
      assert s[1..] == rest;
    }
  }

  lemma {:induction false} PairRoundTrip(c: Unit, d: Unit, rest: Text)
    requires IsHigh(c) && IsLow(d)
    ensures ParseChars([c, d] + rest) == Prepend(c, Prepend(d, ParseChars(rest)))
  {
    assert ([c, d] + rest)[1..] == [d] + rest;
    assert ([d] + rest)[1..] == rest;
  }

  /** The units that Escape prints together: a surrogate pair, or one unit. */
  function Chunk(t: Text): nat
    requires t != []
  {
    if |t| > 1 && IsHigh(t[0]) && IsLow(t[1]) then 2 else 1
  }

  lemma {:induction false} ChunkRoundTrip(t: Text, tail: Text)
    requires t != []
    ensures var r := ParseChars(Escape(t[Chunk(t)..]) + tail);
            ParseChars(Escape(t) + tail) == if Chunk(t) == 2 then Prepend(t[0], Prepend(t[1], r)) else Prepend(t[0], r)
  {
    var rest := Escape(t[Chunk(t)..]) + tail;
    if Chunk(t) == 2 {
      assert Escape(t) + tail == [t[0], t[1]] + rest;
      PairRoundTrip(t[0], t[1], rest);
    } else {
      assert Escape(t) + tail == EscapeUnit(t[0]) + rest;
      UnitRoundTrip(t[0], rest);
    }
  }

  lemma {:induction false} TextRoundTrip(t: Text, tail: Text, rest: Text)
    requires ParseChars(tail) == Some(([], rest))
    ensures ParseChars(Escape(t) + tail) == Some((t, rest))
    decreases |t|
  {
    if t == [] {
      assert Escape(t) + tail == tail;
    } else {
      TextRoundTrip(t[Chunk(t)..], tail, rest);
      ChunkRoundTrip(t, tail);
      if Chunk(t) == 2 {
        assert t == [t[0]] + ([t[1]] + t[2..]);
      } else {
        assert t == [t[0]] + t[1..];
      }
    }
  }

  /** Reading back a printed string gives the string, surrogates and control characters included. */
  lemma {:induction false} StringRoundTrip(t: Text, rest: Text)
    ensures ParseChars(Escape(t) + [QUOTE] + rest) == Some((t, rest))
  {
    assert ([QUOTE] + rest)[1..] == rest;
    TextRoundTrip(t, [QUOTE] + rest, rest);
    assert Escape(t) + [QUOTE] + rest == Escape(t) + ([QUOTE] + rest);
  }

  // ----- numbers -----

  function Digits(s: Text): (n: nat)
    ensures n <= |s|
  {
    if s != [] && IsDigit(s[0]) then 1 + Digits(s[1..]) else 0
  }

  function IntegerPart(s: Text): (r: Option<nat>)
    ensures r.Some? ==> 0 < r.value <= |s|
  {
    if s == [] || !IsDigit(s[0]) then None else if s[0] == 0x30 then Some(1) else Some(Digits(s))
  }

  function FractionPart(s: Text): (r: Option<nat>)
    ensures r.Some? ==> r.value <= |s|
  {
    if s == [] || s[0] != DOT then Some(0)
    else if Digits(s[1..]) == 0 then None
    else Some(1 + Digits(s[1..]))
  }

  function ExponentPart(s: Text): (r: Option<nat>)
    ensures r.Some? ==> r.value <= |s|
  {
    if s == [] || (s[0] != LOWER_E && s[0] != UPPER_E) then Some(0) else
      var sign := if |s| > 1 && (s[1] == PLUS || s[1] == MINUS) then 2 else 1;
      if Digits(s[sign..]) == 0 then None else Some(sign + Digits(s[sign..]))
  }

  function AfterInteger(s: Text): (r: Option<nat>)
    ensures r.Some? ==> r.value <= |s|
  {
    match FractionPart(s)
    case None => None
    case Some(f) => match ExponentPart(s[f..]) case None => None case Some(e) => Some(f + e)
  }

  function Unsigned(s: Text): (r: Option<nat>)
    ensures r.Some? ==> 0 < r.value <= |s|
  {
    match IntegerPart(s)
    case None => None
    case Some(i) => match AfterInteger(s[i..]) case None => None case Some(n) => Some(i + n)
  }

  /** The length of the number token at the start of the text. */
  function ScanNumber(s: Text): (r: Option<nat>)
    ensures r.Some? ==> 0 < r.value <= |s|
  {
    if s != [] && s[0] == MINUS then
      (match Unsigned(s[1..]) case None => None case Some(n) => Some(1 + n))
    else Unsigned(s)
  }

  /** What can follow a value: the end, a comma or a closing bracket. */
  predicate Delimited(rest: Text) {
    rest == [] || rest[0] == COMMA || rest[0] == CLOSE_BRACKET || rest[0] == CLOSE_BRACE
  }

  /** What ends a number: nothing that a number token could go on with. */
  predicate Ended(rest: Text) {
    rest == [] || (!IsDigit(rest[0]) && rest[0] != DOT && rest[0] != LOWER_E && rest[0] != UPPER_E)
  }

  lemma {:induction false} DigitsAreLocal(s: Text, rest: Text)
    requires Ended(rest)
    ensures Digits(s + rest) == Digits(s)
  {
    if s != [] && IsDigit(s[0]) {
      assert (s + rest)[1..] == s[1..] + rest;
      DigitsAreLocal(s[1..], rest);
    } else if s == [] {
      assert s + rest == rest;
    }
  }

  lemma {:induction false} IntegerIsLocal(s: Text, rest: Text)
    requires Ended(rest) && IntegerPart(s).Some?
    ensures IntegerPart(s + rest) == IntegerPart(s)
  {
    DigitsAreLocal(s, rest);
  }

  lemma {:induction false} FractionIsLocal(s: Text, rest: Text)
    requires Ended(rest) && FractionPart(s).Some?
    ensures FractionPart(s + rest) == FractionPart(s)
  {
    if s == [] {
      assert s + rest == rest;
    } else {
      assert (s + rest)[1..] == s[1..] + rest;
      DigitsAreLocal(s[1..], rest);
    }
  }

  lemma {:induction false} ExponentIsLocal(s: Text, rest: Text)
    requires Ended(rest) && ExponentPart(s).Some?
    ensures ExponentPart(s + rest) == ExponentPart(s)
  {
    if s == [] {
      assert s + rest == rest;
    } else if s[0] == LOWER_E || s[0] == UPPER_E {
      var sign := if |s| > 1 && (s[1] == PLUS || s[1] == MINUS) then 2 else 1;
      assert (s + rest)[sign..] == s[sign..] + rest;
      DigitsAreLocal(s[sign..], rest);
      assert |s| > 1;
    }
  }

  lemma {:induction false} AfterIntegerIsLocal(s: Text, rest: Text)
    requires Ended(rest) && AfterInteger(s).Some?
    ensures AfterInteger(s + rest) == AfterInteger(s)
  {
    var f := FractionPart(s).value;
    FractionIsLocal(s, rest);
    assert (s + rest)[f..] == s[f..] + rest;
    ExponentIsLocal(s[f..], rest);
  }

  lemma {:induction false} UnsignedIsLocal(s: Text, rest: Text)
    requires Ended(rest) && Unsigned(s).Some?
    ensures Unsigned(s + rest) == Unsigned(s)
  {
    var i := IntegerPart(s).value;
    IntegerIsLocal(s, rest);
    assert (s + rest)[i..] == s[i..] + rest;
    AfterIntegerIsLocal(s[i..], rest);
  }

  lemma MinusThenUnsigned(t: Text, u: Text)
    requires t != [] && t[0] == MINUS && t[1..] == u && Unsigned(u).Some?
    ensures ScanNumber(t) == Some(1 + Unsigned(u).value)
  {
  }

  lemma SignedTail(s: Text, rest: Text)
    requires s != []
    ensures (s + rest)[0] == s[0] && (s + rest)[1..] == s[1..] + rest
  {
  }

  lemma {:induction false} SignedIsLocal(s: Text, rest: Text)
    requires Ended(rest) && s != [] && s[0] == MINUS && Unsigned(s[1..]).Some?
    ensures ScanNumber(s + rest) == Some(1 + Unsigned(s[1..]).value)
  {
    SignedTail(s, rest);
    UnsignedIsLocal(s[1..], rest);
    MinusThenUnsigned(s + rest, s[1..] + rest);
  }

  /** A number token ends where nothing can continue it. */
  lemma {:induction false} NumberIsLocal(s: Text, rest: Text)
    requires Ended(rest) && ScanNumber(s).Some?
    ensures ScanNumber(s + rest) == ScanNumber(s)
  {
    if s[0] == MINUS {
      SignedIsLocal(s, rest);
    } else {
      UnsignedIsLocal(s, rest);
    }
  }

  /** show prints a number token, and read is its inverse. */
  ghost predicate Faithful<N(!new)>(show: N -> Text, read: Text -> N) {
    forall n :: ScanNumber(show(n)) == Some(|show(n)|) && read(show(n)) == n
  }

  // ----- canonical text -----

  function Join(ts: seq<Text>): Text {
    if ts == [] then [] else if |ts| == 1 then ts[0] else ts[0] + [COMMA] + Join(ts[1..])
  }

  function Member(e: Entry<Text>): Text {
    Quoted(e.key) + [COLON] + e.value
  }

  function Members(es: seq<Entry<Text>>): seq<Text> {
    if es == [] then [] else [Member(es[0])] + Members(es[1..])
  }

  function Braced(es: seq<Entry<Text>>): Text {
    [OPEN_BRACE] + Join(Members(es)) + [CLOSE_BRACE]
  }

  function StringifyItems<N>(items: seq<Value<N>>, show: N -> Text): seq<Text> {
    if items == [] then [] else [Stringify(items[0], show)] + StringifyItems(items[1..], show)
  }

  function StringifyFields<N>(fields: seq<Entry<Value<N>>>, show: N -> Text): seq<Entry<Text>> {
    if fields == [] then []
    else [Entry(fields[0].key, Stringify(fields[0].value, show))] + StringifyFields(fields[1..], show)
  }

  /** canonicalStringify: keys sorted at every depth, no white space. */
  function Stringify<N>(v: Value<N>, show: N -> Text): Text {
    match v
    case Null => NULL_TEXT
    case Bool(b) => if b then TRUE_TEXT else FALSE_TEXT
    case Num(n) => show(n)
    case Str(s) => Quoted(s)
    case Arr(items) => [OPEN_BRACKET] + Join(StringifyItems(items, show)) + [CLOSE_BRACKET]
    case Obj(fields) => Braced(SortByKey(StringifyFields(fields, show)))
  }

  // ----- the strict parser -----

  predicate IsBlank(c: Unit) {
    c == 0x20 || c == 9 || c == 10 || c == 13
  }

  function SkipBlanks(s: Text): (r: Text)
    ensures |r| <= |s|
  {
    if s != [] && IsBlank(s[0]) then SkipBlanks(s[1..]) else s
  }

  predicate StartsWith(s: Text, prefix: Text) {
    |prefix| <= |s| && s[..|prefix|] == prefix
  }

  /** A value and the text after it. keeps says which keys an assignment to a plain object stores. */
  function ParseValue<N>(s: Text, read: Text -> N, keeps: Text -> bool): (r: Option<(Value<N>, Text)>)
    ensures r.Some? ==> |r.value.1| < |s|
    decreases |s|, 0
  {
    var t := SkipBlanks(s);
    if t == [] then None
    else if t[0] == OPEN_BRACE then
      var u := SkipBlanks(t[1..]);
      if u != [] && u[0] == CLOSE_BRACE then Some((Obj([]), u[1..]))
      else (match ParseMembers(u, {}, read, keeps)
            case None => None
            case Some((fields, rest)) => Some((Obj(fields), rest)))
    else if t[0] == OPEN_BRACKET then
      var u := SkipBlanks(t[1..]);
      if u != [] && u[0] == CLOSE_BRACKET then Some((Arr([]), u[1..]))
      else (match ParseElements(u, read, keeps)
            case None => None
            case Some((items, rest)) => Some((Arr(items), rest)))
    else if t[0] == QUOTE then
      (match ParseChars(t[1..]) case None => None case Some((text, rest)) => Some((Str(text), rest)))
    else if t[0] == MINUS || IsDigit(t[0]) then
      (match ScanNumber(t) case None => None case Some(n) => Some((Num(read(t[..n])), t[n..])))
    else if StartsWith(t, TRUE_TEXT) then Some((Bool(true), t[4..]))
    else if StartsWith(t, FALSE_TEXT) then Some((Bool(false), t[5..]))
    else if StartsWith(t, NULL_TEXT) then Some((Null, t[4..]))
    else None
  }

  function ParseElements<N>(s: Text, read: Text -> N, keeps: Text -> bool): (r: Option<(seq<Value<N>>, Text)>)
    ensures r.Some? ==> |r.value.1| < |s|
    decreases |s|, 1
  {
    match ParseValue(s, read, keeps)
    case None => None
    case Some((item, rest)) =>
      var t := SkipBlanks(rest);
      if t != [] && t[0] == COMMA then
        (match ParseElements(t[1..], read, keeps)
         case None => None
         case Some((items, last)) => Some(([item] + items, last)))
      else if t != [] && t[0] == CLOSE_BRACKET then Some(([item], t[1..]))
      else None
  }

  function ParseMembers<N>(s: Text, seen: set<Text>, read: Text -> N,
    keeps: Text -> bool): (r: Option<(seq<Entry<Value<N>>>, Text)>)
    ensures r.Some? ==> |r.value.1| < |s|
    decreases |s|, 1
  {
    var t := SkipBlanks(s);
    if t == [] || t[0] != QUOTE then None else
    match ParseChars(t[1..])
    case None => None
    case Some((key, afterKey)) =>
      var u := SkipBlanks(afterKey);
      if key in seen || u == [] || u[0] != COLON then None else
      match ParseValue(u[1..], read, keeps)
      case None => None
      case Some((value, afterValue)) =>
        var stored := if keeps(key) then [Entry(key, value)] else [];
        var w := SkipBlanks(afterValue);
        if w != [] && w[0] == COMMA then
          (match ParseMembers(w[1..], seen + {key}, read, keeps)
           case None => None
           case Some((fields, last)) => Some((stored + fields, last)))
        else if w != [] && w[0] == CLOSE_BRACE then Some((stored, w[1..]))
        else None
  }

  /** parseStrictJson: one value and nothing after it. */
  function Parse<N>(s: Text, read: Text -> N, keeps: Text -> bool): Option<Value<N>> {
    match ParseValue(s, read, keeps)
    case None => None
    case Some((v, rest)) => if SkipBlanks(rest) == [] then Some(v) else None
  }

  // ----- printing, then parsing -----

  function KeepItems<N>(items: seq<Value<N>>, keeps: Text -> bool): seq<Value<N>> {
    if items == [] then [] else [Keep(items[0], keeps)] + KeepItems(items[1..], keeps)
  }

  function KeepFields<N>(fields: seq<Entry<Value<N>>>, keeps: Text -> bool): seq<Entry<Value<N>>> {
    if fields == [] then []
    else if keeps(fields[0].key) then
      [Entry(fields[0].key, Keep(fields[0].value, keeps))] + KeepFields(fields[1..], keeps)
    else KeepFields(fields[1..], keeps)
  }

  /** The value without the fields that an assignment would not store, at every depth. */
  function Keep<N>(v: Value<N>, keeps: Text -> bool): Value<N> {
    match v
    case Arr(items) => Arr(KeepItems(items, keeps))
    case Obj(fields) => Obj(KeepFields(fields, keeps))
    case _ => v
  }

  /** The text parses to the value whatever delimiter follows, and does not start like a closing bracket. */
  ghost predicate Parses<N>(t: Text, v: Value<N>, read: Text -> N, keeps: Text -> bool) {
    && t != [] && !IsBlank(t[0]) && t[0] != CLOSE_BRACKET
    && forall rest | Delimited(rest) :: ParseValue(t + rest, read, keeps) == Some((v, rest))
  }

  ghost predicate AllParse<N>(ts: seq<Text>, vs: seq<Value<N>>, read: Text -> N, keeps: Text -> bool) {
    |ts| == |vs| && forall i | 0 <= i < |ts| :: Parses(ts[i], vs[i], read, keeps)
  }

  lemma {:induction false} JoinStep(ts: seq<Text>, close: Unit, rest: Text)
    requires ts != []
    ensures var s := Join(ts) + [close] + rest;
            s == if |ts| == 1 then ts[0] + ([close] + rest) else ts[0] + ([COMMA] + (Join(ts[1..]) + [close] + rest))
  {
  }

  lemma {:induction false} ElementsRoundTrip<N>(ts: seq<Text>, vs: seq<Value<N>>, rest: Text, read: Text -> N,
    keeps: Text -> bool)
    requires ts != [] && AllParse(ts, vs, read, keeps)
    ensures ParseElements(Join(ts) + [CLOSE_BRACKET] + rest, read, keeps) == Some((vs, rest))
  {
    JoinStep(ts, CLOSE_BRACKET, rest);
    assert Parses(ts[0], vs[0], read, keeps);
    if |ts| == 1 {
      assert vs == [vs[0]];
    } else {
      ElementsRoundTrip(ts[1..], vs[1..], rest, read, keeps);
      assert vs == [vs[0]] + vs[1..];
    }
  }

  lemma {:induction false} ArrayThenRest<N>(ts: seq<Text>, vs: seq<Value<N>>, rest: Text, read: Text -> N,
    keeps: Text -> bool)
    requires ts != [] && AllParse(ts, vs, read, keeps)
    ensures var inside := Join(ts) + [CLOSE_BRACKET] + rest;
            ParseValue([OPEN_BRACKET] + inside, read, keeps) == Some((Arr(vs), rest))
  {
    var inside := Join(ts) + [CLOSE_BRACKET] + rest;
    assert ([OPEN_BRACKET] + inside)[1..] == inside;
    assert Parses(ts[0], vs[0], read, keeps);
    assert inside[0] == ts[0][0] && SkipBlanks(inside) == inside;
    ElementsRoundTrip(ts, vs, rest, read, keeps);
  }

  lemma {:induction false} ArrayRoundTrip<N>(ts: seq<Text>, vs: seq<Value<N>>, read: Text -> N, keeps: Text -> bool)
    requires AllParse(ts, vs, read, keeps)
    ensures Parses([OPEN_BRACKET] + Join(ts) + [CLOSE_BRACKET], Arr(vs), read, keeps)
  {
    var t := [OPEN_BRACKET] + Join(ts) + [CLOSE_BRACKET];
    forall rest | Delimited(rest) ensures ParseValue(t + rest, read, keeps) == Some((Arr(vs), rest)) {
      if ts == [] {
        assert t + rest == [OPEN_BRACKET] + ([CLOSE_BRACKET] + rest);
        assert ([CLOSE_BRACKET] + rest)[1..] == rest;
      } else {
        assert t + rest == [OPEN_BRACKET] + (Join(ts) + [CLOSE_BRACKET] + rest);
        ArrayThenRest(ts, vs, rest, read, keeps);
      }
    }
  }

  // ----- objects -----

  /** Entries of text and entries of values: same keys, and every text parses to its value. */
  ghost predicate EntriesParse<N>(es: seq<Entry<Text>>, vs: seq<Entry<Value<N>>>, read: Text -> N,
    keeps: Text -> bool) {
    |es| == |vs| && forall i | 0 <= i < |es| :: es[i].key == vs[i].key && Parses(es[i].value, vs[i].value, read, keeps)
  }

  function Stored<N>(vs: seq<Entry<Value<N>>>, keeps: Text -> bool): seq<Entry<Value<N>>> {
    if vs == [] then [] else (if keeps(vs[0].key) then [vs[0]] else []) + Stored(vs[1..], keeps)
  }

  /** A member up to its value. */
  lemma {:induction false} MemberPrefix(key: Text, tail: Text)
    ensures var s := Quoted(key) + [COLON] + tail;
            && s[0] == QUOTE && SkipBlanks(s) == s
            && ParseChars(s[1..]) == Some((key, [COLON] + tail))
  {
    var s := Quoted(key) + [COLON] + tail;
    StringRoundTrip(key, [COLON] + tail);
    assert s[1..] == Escape(key) + [QUOTE] + ([COLON] + tail);
  }

  lemma {:induction false} OneMember<N>(e: Entry<Text>, v: Value<N>, tail: Text, seen: set<Text>, read: Text -> N,
    keeps: Text -> bool)
    requires Parses(e.value, v, read, keeps) && Delimited(tail) && tail != [] && e.key !in seen
    ensures var stored := if keeps(e.key) then [Entry(e.key, v)] else [];
            ParseMembers(Member(e) + tail, seen, read, keeps)
              == if tail[0] == COMMA then
                   (match ParseMembers(tail[1..], seen + {e.key}, read, keeps)
                    case None => None
                    case Some((fields, last)) => Some((stored + fields, last)))
                 else if tail[0] == CLOSE_BRACE then Some((stored, tail[1..])) else None
  {
    var rest := e.value + tail;
    MemberPrefix(e.key, rest);
    assert Member(e) + tail == Quoted(e.key) + [COLON] + rest;
    assert ([COLON] + rest)[1..] == rest;
    assert SkipBlanks([COLON] + rest) == [COLON] + rest;
  }

  lemma {:induction false} LastMember<N>(e: Entry<Text>, v: Value<N>, rest: Text, seen: set<Text>, read: Text -> N,
    keeps: Text -> bool)
    requires Parses(e.value, v, read, keeps) && e.key !in seen
    ensures ParseMembers(Member(e) + ([CLOSE_BRACE] + rest), seen, read, keeps)
         == Some((if keeps(e.key) then [Entry(e.key, v)] else [], rest))
  {
    assert ([CLOSE_BRACE] + rest)[1..] == rest;
    OneMember(e, v, [CLOSE_BRACE] + rest, seen, read, keeps);
  }

  lemma {:induction false} MoreMembers<N>(e: Entry<Text>, v: Value<N>, more: Text, fields: seq<Entry<Value<N>>>,
    rest: Text,
      seen: set<Text>, read: Text -> N, keeps: Text -> bool)
    requires Parses(e.value, v, read, keeps) && e.key !in seen
    requires ParseMembers(more, seen + {e.key}, read, keeps) == Some((fields, rest))
    ensures ParseMembers(Member(e) + ([COMMA] + more), seen, read, keeps)
         == Some(((if keeps(e.key) then [Entry(e.key, v)] else []) + fields, rest))
  {
    assert ([COMMA] + more)[1..] == more;
    OneMember(e, v, [COMMA] + more, seen, read, keeps);
  }

  lemma {:induction false} MembersStep(es: seq<Entry<Text>>, rest: Text)
    requires es != []
    ensures var s := Join(Members(es)) + [CLOSE_BRACE] + rest;
            s == if |es| == 1 then Member(es[0]) + ([CLOSE_BRACE] + rest)
                 else Member(es[0]) + ([COMMA] + (Join(Members(es[1..])) + [CLOSE_BRACE] + rest))
  {
    assert Members(es)[1..] == Members(es[1..]) && |Members(es[1..])| == |es[1..]| == |es| - 1 by {
      MembersLength(es[1..]);
    }
    JoinStep(Members(es), CLOSE_BRACE, rest);
  }

  lemma {:induction false} MembersLength(es: seq<Entry<Text>>)
    ensures |Members(es)| == |es|
  {
    if es != [] { MembersLength(es[1..]); }
  }

  lemma {:induction false} MembersRoundTrip<N>(es: seq<Entry<Text>>, vs: seq<Entry<Value<N>>>, rest: Text,
    seen: set<Text>, read: Text -> N, keeps: Text -> bool)
    requires es != [] && EntriesParse(es, vs, read, keeps) && DistinctKeys(es)
    requires forall i | 0 <= i < |es| :: es[i].key !in seen
    ensures ParseMembers(Join(Members(es)) + [CLOSE_BRACE] + rest, seen, read, keeps) == Some((Stored(vs, keeps), rest))
  {
    MembersStep(es, rest);
    assert vs[0] == Entry(es[0].key, vs[0].value);
    if |es| == 1 {
      LastMember(es[0], vs[0].value, rest, seen, read, keeps);
      assert vs[1..] == [] && Stored(vs[1..], keeps) == [];
      assert Stored(vs, keeps) == if keeps(vs[0].key) then [vs[0]] else [];
    } else {
      MembersRoundTrip(es[1..], vs[1..], rest, seen + {es[0].key}, read, keeps);
      MoreMembers(es[0], vs[0].value, Join(Members(es[1..])) + [CLOSE_BRACE] + rest, Stored(vs[1..], keeps), rest, seen,
        read, keeps);
    }
  }

  lemma {:induction false} ObjectThenRest<N>(es: seq<Entry<Text>>, vs: seq<Entry<Value<N>>>, rest: Text,
    read: Text -> N, keeps: Text -> bool)
    requires es != [] && EntriesParse(es, vs, read, keeps) && DistinctKeys(es)
    ensures var inside := Join(Members(es)) + [CLOSE_BRACE] + rest;
            ParseValue([OPEN_BRACE] + inside, read, keeps) == Some((Obj(Stored(vs, keeps)), rest))
  {
    var inside := Join(Members(es)) + [CLOSE_BRACE] + rest;
    MembersRoundTrip(es, vs, rest, {}, read, keeps);
    MembersStep(es, rest);
    assert inside[0] == QUOTE && SkipBlanks(inside) == inside;
    assert ([OPEN_BRACE] + inside)[1..] == inside;
  }

  lemma {:induction false} BracedThenRest(es: seq<Entry<Text>>, rest: Text)
    ensures Braced(es) + rest == [OPEN_BRACE] + (Join(Members(es)) + [CLOSE_BRACE] + rest)
    ensures es == [] ==> Braced(es) + rest == [OPEN_BRACE] + ([CLOSE_BRACE] + rest)
  {
  }

  lemma {:induction false} ObjectRoundTrip<N>(es: seq<Entry<Text>>, vs: seq<Entry<Value<N>>>, read: Text -> N,
    keeps: Text -> bool)
    requires EntriesParse(es, vs, read, keeps) && DistinctKeys(es)
    ensures Parses(Braced(es), Obj(Stored(vs, keeps)), read, keeps)
  {
    var t := Braced(es);
    forall rest | Delimited(rest) ensures ParseValue(t + rest, read, keeps) == Some((Obj(Stored(vs, keeps)), rest)) {
      BracedThenRest(es, rest);
      if es != [] {
        ObjectThenRest(es, vs, rest, read, keeps);
      }
    }
  }

  // ----- sorting keeps the parallel entries together -----

  lemma {:induction false} InsertKeepsEntriesParsing<N>(e: Entry<Text>, v: Entry<Value<N>>, es: seq<Entry<Text>>,
    vs: seq<Entry<Value<N>>>,
      read: Text -> N, keeps: Text -> bool)
    requires EntriesParse(es, vs, read, keeps) && e.key == v.key && Parses(e.value, v.value, read, keeps)
    ensures EntriesParse(InsertByKey(e, es), InsertByKey(v, vs), read, keeps)
  {
    if es != [] && Less(es[0].key, e.key) {
      InsertKeepsEntriesParsing(e, v, es[1..], vs[1..], read, keeps);
    }
  }

  lemma {:induction false} SortKeepsEntriesParsing<N>(es: seq<Entry<Text>>, vs: seq<Entry<Value<N>>>, read: Text -> N,
    keeps: Text -> bool)
    requires EntriesParse(es, vs, read, keeps)
    ensures EntriesParse(SortByKey(es), SortByKey(vs), read, keeps)
  {
    if es != [] {
      SortKeepsEntriesParsing(es[1..], vs[1..], read, keeps);
      InsertKeepsEntriesParsing(es[0], vs[0], SortByKey(es[1..]), SortByKey(vs[1..]), read, keeps);
    }
  }

  lemma {:induction false} StoredIsASelection<N>(vs: seq<Entry<Value<N>>>, keeps: Text -> bool)
    ensures forall v | v in Stored(vs, keeps) :: v in vs && keeps(v.key)
  {
    if vs != [] {
      StoredIsASelection(vs[1..], keeps);
    }
  }

  lemma {:induction false} StoredStep<N>(vs: seq<Entry<Value<N>>>, keeps: Text -> bool)
    requires vs != []
    ensures keeps(vs[0].key) ==>
              && Stored(vs, keeps) == [vs[0]] + Stored(vs[1..], keeps)
              && Stored(vs, keeps)[1..] == Stored(vs[1..], keeps)
    ensures !keeps(vs[0].key) ==> Stored(vs, keeps) == Stored(vs[1..], keeps)
  {
  }

  /** Every stored entry is at or after the first one. */
  lemma {:induction false} StoredIsNotBefore<N>(v: Entry<Value<N>>, vs: seq<Entry<Value<N>>>, keeps: Text -> bool)
    requires StrictlySorted(vs) && vs != [] && !Less(vs[0].key, v.key)
    ensures InsertByKey(v, Stored(vs, keeps)) == [v] + Stored(vs, keeps)
  {
    StoredIsASelection(vs, keeps);
    if Stored(vs, keeps) != [] {
      var w := Stored(vs, keeps)[0];
      assert w in vs;
      var j :| 0 <= j < |vs| && vs[j] == w;
      if Less(w.key, v.key) && j > 0 {
        LessIsTransitive(vs[0].key, w.key, v.key);
      }
    }
  }

  lemma {:induction false} InsertCommutesWithStored<N>(v: Entry<Value<N>>, vs: seq<Entry<Value<N>>>,
    keeps: Text -> bool)
    requires StrictlySorted(vs)
    ensures Stored(InsertByKey(v, vs), keeps)
      == if keeps(v.key) then InsertByKey(v, Stored(vs, keeps)) else Stored(vs, keeps)
  {
    var inserted := InsertByKey(v, vs);
    StoredStep(inserted, keeps);
    if vs == [] {
      assert inserted[1..] == [];
    } else if Less(vs[0].key, v.key) {
      SortedTail(vs);
      StoredStep(vs, keeps);
      InsertCommutesWithStored(v, vs[1..], keeps);
      assert inserted[1..] == InsertByKey(v, vs[1..]);
    } else {
      assert inserted[1..] == vs;
      StoredIsNotBefore(v, vs, keeps);
    }
  }

  lemma {:induction false} SortCommutesWithStored<N>(vs: seq<Entry<Value<N>>>, keeps: Text -> bool)
    requires DistinctKeys(vs)
    ensures SortByKey(Stored(vs, keeps)) == Stored(SortByKey(vs), keeps)
  {
    if vs != [] {
      StoredStep(vs, keeps);
      SortCommutesWithStored(vs[1..], keeps);
      SortSorts(vs[1..]);
      InsertCommutesWithStored(vs[0], SortByKey(vs[1..]), keeps);
    }
  }

  /** Every field with its kept and sorted value, stored or not. */
  function KeptValues<N>(fields: seq<Entry<Value<N>>>, keeps: Text -> bool): seq<Entry<Value<N>>> {
    if fields == [] then []
    else [Entry(fields[0].key, Canon(Keep(fields[0].value, keeps)))] + KeptValues(fields[1..], keeps)
  }

  lemma {:induction false} StoredKeptValues<N>(fields: seq<Entry<Value<N>>>, keeps: Text -> bool)
    ensures CanonFields(KeepFields(fields, keeps)) == Stored(KeptValues(fields, keeps), keeps)
  {
    if fields != [] {
      StoredKeptValues(fields[1..], keeps);
      var kept := KeepFields(fields, keeps);
      assert KeptValues(fields, keeps)[1..] == KeptValues(fields[1..], keeps);
      if keeps(fields[0].key) {
        assert kept[1..] == KeepFields(fields[1..], keeps);
      } else {
        assert kept == KeepFields(fields[1..], keeps);
      }
    }
  }

  lemma {:induction false} KeptValuesAt<N>(fields: seq<Entry<Value<N>>>, show: N -> Text, keeps: Text -> bool)
    ensures |KeptValues(fields, keeps)| == |StringifyFields(fields, show)| == |fields|
    ensures forall i | 0 <= i < |fields| ::
              && KeptValues(fields, keeps)[i] == Entry(fields[i].key, Canon(Keep(fields[i].value, keeps)))
              && StringifyFields(fields, show)[i] == Entry(fields[i].key, Stringify(fields[i].value, show))
  {
    if fields != [] {
      KeptValuesAt(fields[1..], show, keeps);
    }
  }

  lemma {:induction false} ItemsAt<N>(items: seq<Value<N>>, show: N -> Text, keeps: Text -> bool)
    ensures |CanonItems(KeepItems(items, keeps))| == |StringifyItems(items, show)| == |items|
    ensures forall i | 0 <= i < |items| ::
              CanonItems(KeepItems(items, keeps))[i] == Canon(Keep(items[i], keeps))
                && StringifyItems(items, show)[i] == Stringify(items[i], show)
  {
    if items != [] {
      ItemsAt(items[1..], show, keeps);
      assert KeepItems(items, keeps)[1..] == KeepItems(items[1..], keeps);
    }
  }

  // ----- the round trip -----

  lemma {:induction false} NumberThenRest<N>(t: Text, rest: Text, read: Text -> N, keeps: Text -> bool)
    requires ScanNumber(t) == Some(|t|) && Delimited(rest) && (t[0] == MINUS || IsDigit(t[0]))
    ensures ParseValue(t + rest, read, keeps) == Some((Num(read(t)), rest))
  {
    NumberIsLocal(t, rest);
    assert (t + rest)[0] == t[0] && SkipBlanks(t + rest) == t + rest;
    assert (t + rest)[..|t|] == t && (t + rest)[|t|..] == rest;
  }

  lemma {:induction false} NumberParses<N(!new)>(n: N, show: N -> Text, read: Text -> N, keeps: Text -> bool)
    requires Faithful(show, read)
    ensures Parses(show(n), Num(n), read, keeps)
  {
    var t := show(n);
    assert ScanNumber(t) == Some(|t|) && read(t) == n;
    assert t[0] == MINUS || IsDigit(t[0]);
    forall rest | Delimited(rest) ensures ParseValue(t + rest, read, keeps) == Some((Num(n), rest)) {
      NumberThenRest(t, rest, read, keeps);
    }
  }

  lemma {:induction false} QuotedThenRest(text: Text, rest: Text)
    ensures var s := Quoted(text) + rest;
            s[0] == QUOTE && SkipBlanks(s) == s && ParseChars(s[1..]) == Some((text, rest))
  {
    var s := Quoted(text) + rest;
    StringRoundTrip(text, rest);
    assert s[1..] == Escape(text) + [QUOTE] + rest;
  }

  lemma {:induction false} StringParses<N>(text: Text, read: Text -> N, keeps: Text -> bool)
    ensures Parses(Quoted(text), Value<N>.Str(text), read, keeps)
  {
    forall rest | Delimited(rest)
      ensures ParseValue(Quoted(text) + rest, read, keeps) == Some((Value<N>.Str(text), rest)) {
      QuotedThenRest(text, rest);
    }
  }

  lemma {:induction false} WordParses<N>(word: Text, v: Value<N>, read: Text -> N, keeps: Text -> bool)
    requires (word, v) in {(NULL_TEXT, Null), (TRUE_TEXT, Bool(true)), (FALSE_TEXT, Bool(false))}
    ensures Parses(word, v, read, keeps)
  {
    forall rest | Delimited(rest) ensures ParseValue(word + rest, read, keeps) == Some((v, rest)) {
      var s := word + rest;
      assert s[0] == word[0] && SkipBlanks(s) == s;
      assert s[..|word|] == word && s[|word|..] == rest;
      assert s[0] != TRUE_TEXT[0] ==> !StartsWith(s, TRUE_TEXT);
      assert s[0] != FALSE_TEXT[0] ==> !StartsWith(s, FALSE_TEXT);
    }
  }

  lemma {:induction false} ItemsParse<N(!new)>(items: seq<Value<N>>, show: N -> Text, read: Text -> N,
    keeps: Text -> bool)
    requires Faithful(show, read)
    requires forall i | 0 <= i < |items| :: Parses(Stringify(items[i], show), Canon(Keep(items[i], keeps)), read, keeps)
    ensures Parses(Stringify(Arr(items), show), Canon(Keep(Arr(items), keeps)), read, keeps)
  {
    ItemsAt(items, show, keeps);
    ArrayRoundTrip(StringifyItems(items, show), CanonItems(KeepItems(items, keeps)), read, keeps);
  }

  lemma {:induction false} FieldsParse<N(!new)>(fields: seq<Entry<Value<N>>>, show: N -> Text, read: Text -> N,
    keeps: Text -> bool)
    requires Faithful(show, read) && DistinctKeys(fields)
    requires forall i | 0 <= i < |fields| ::
      Parses(Stringify(fields[i].value, show), Canon(Keep(fields[i].value, keeps)), read, keeps)
    ensures Parses(Stringify(Obj(fields), show), Canon(Keep(Obj(fields), keeps)), read, keeps)
  {
    var es, vs := StringifyFields(fields, show), KeptValues(fields, keeps);
    KeptValuesAt(fields, show, keeps);
    assert EntriesParse(es, vs, read, keeps) && DistinctKeys(es) && DistinctKeys(vs);
    SortKeepsEntriesParsing(es, vs, read, keeps);
    SortSorts(es);
    ObjectRoundTrip(SortByKey(es), SortByKey(vs), read, keeps);
    SortCommutesWithStored(vs, keeps);
    StoredKeptValues(fields, keeps);
  }

  /** Printed text parses back, before any delimiter, to the canonical form of what an assignment keeps. */
  lemma {:induction false} ValueParses<N(!new)>(v: Value<N>, show: N -> Text, read: Text -> N, keeps: Text -> bool)
    requires Faithful(show, read) && WellFormed(v)
    ensures Parses(Stringify(v, show), Canon(Keep(v, keeps)), read, keeps)
    decreases v
  {
    match v
    case Null => WordParses(NULL_TEXT, v, read, keeps);
    case Bool(b) => WordParses(if b then TRUE_TEXT else FALSE_TEXT, v, read, keeps);
    case Num(n) => NumberParses(n, show, read, keeps);
    case Str(text) => StringParses<N>(text, read, keeps);
    case Arr(items) =>
      forall i | 0 <= i < |items| { ValueParses(items[i], show, read, keeps); }
      ItemsParse(items, show, read, keeps);
    case Obj(fields) =>
      forall i | 0 <= i < |fields| { ValueParses(fields[i].value, show, read, keeps); }
      FieldsParse(fields, show, read, keeps);
  }

  /** parseStrictJson undoes canonicalStringify, up to key order and fields that are not stored. */
  lemma {:induction false} ParseUndoesStringify<N(!new)>(v: Value<N>, show: N -> Text, read: Text -> N,
    keeps: Text -> bool)
    requires Faithful(show, read) && WellFormed(v)
    ensures Parse(Stringify(v, show), read, keeps) == Some(Canon(Keep(v, keeps)))
  {
    ValueParses(v, show, read, keeps);
    assert Stringify(v, show) + [] == Stringify(v, show);
  }

  // ----- what the text determines -----

  /** Every key, at any depth, is stored by an assignment. */
  predicate AllKept<N>(v: Value<N>, keeps: Text -> bool) {
    match v
    case Arr(items) => forall i | 0 <= i < |items| :: AllKept(items[i], keeps)
    case Obj(fields) => forall i | 0 <= i < |fields| :: keeps(fields[i].key) && AllKept(fields[i].value, keeps)
    case _ => true
  }

  lemma {:induction false} KeepIsIdentityOnFields<N>(fields: seq<Entry<Value<N>>>, keeps: Text -> bool)
    requires forall i | 0 <= i < |fields| :: keeps(fields[i].key) && Keep(fields[i].value, keeps) == fields[i].value
    ensures KeepFields(fields, keeps) == fields
  {
    if fields != [] {
      KeepIsIdentityOnFields(fields[1..], keeps);
    }
  }

  lemma {:induction false} KeepIsIdentityOnItems<N>(items: seq<Value<N>>, keeps: Text -> bool)
    requires forall i | 0 <= i < |items| :: Keep(items[i], keeps) == items[i]
    ensures KeepItems(items, keeps) == items
  {
    if items != [] {
      KeepIsIdentityOnItems(items[1..], keeps);
    }
  }

  lemma {:induction false} KeepIsIdentity<N>(v: Value<N>, keeps: Text -> bool)
    requires AllKept(v, keeps)
    ensures Keep(v, keeps) == v
    decreases v
  {
    match v {
      case Arr(items) =>
        forall i | 0 <= i < |items| { KeepIsIdentity(items[i], keeps); }
        KeepIsIdentityOnItems(items, keeps);
      case Obj(fields) =>
        forall i | 0 <= i < |fields| { KeepIsIdentity(fields[i].value, keeps); }
        KeepIsIdentityOnFields(fields, keeps);
      case _ =>
    }
  }

  lemma {:induction false} EverythingKept<N>(v: Value<N>)
    ensures AllKept(v, (key: Text) => true)
    decreases v
  {
    match v {
      case Arr(items) => forall i | 0 <= i < |items| { EverythingKept(items[i]); }
      case Obj(fields) => forall i | 0 <= i < |fields| { EverythingKept(fields[i].value); }
      case _ =>
    }
  }

  lemma {:induction false} InsertCommutesWithStringify<N>(e: Entry<Value<N>>, es: seq<Entry<Value<N>>>, show: N -> Text)
    ensures StringifyFields(InsertByKey(e, es), show)
      == InsertByKey(Entry(e.key, Stringify(e.value, show)), StringifyFields(es, show))
  {
    if es != [] && Less(es[0].key, e.key) {
      InsertCommutesWithStringify(e, es[1..], show);
      assert StringifyFields(es, show)[1..] == StringifyFields(es[1..], show);
    } else {
      assert ([e] + es)[1..] == es;
    }
  }

  lemma {:induction false} SortCommutesWithStringify<N>(es: seq<Entry<Value<N>>>, show: N -> Text)
    ensures StringifyFields(SortByKey(es), show) == SortByKey(StringifyFields(es, show))
  {
    if es != [] {
      SortCommutesWithStringify(es[1..], show);
      InsertCommutesWithStringify(es[0], SortByKey(es[1..]), show);
      assert StringifyFields(es, show)[1..] == StringifyFields(es[1..], show);
    }
  }

  lemma {:induction false} StringifyCanonFields<N>(fields: seq<Entry<Value<N>>>, show: N -> Text)
    requires forall i | 0 <= i < |fields| :: Stringify(Canon(fields[i].value), show) == Stringify(fields[i].value, show)
    ensures StringifyFields(CanonFields(fields), show) == StringifyFields(fields, show)
  {
    if fields != [] {
      StringifyCanonFields(fields[1..], show);
      assert CanonFields(fields)[1..] == CanonFields(fields[1..]);
    }
  }

  lemma {:induction false} StringifyCanonItems<N>(items: seq<Value<N>>, show: N -> Text)
    requires forall i | 0 <= i < |items| :: Stringify(Canon(items[i]), show) == Stringify(items[i], show)
    ensures StringifyItems(CanonItems(items), show) == StringifyItems(items, show)
  {
    if items != [] {
      StringifyCanonItems(items[1..], show);
      assert CanonItems(items)[1..] == CanonItems(items[1..]);
    }
  }

  lemma {:induction false} SortIsIdempotent<T>(es: seq<Entry<T>>)
    requires DistinctKeys(es)
    ensures SortByKey(SortByKey(es)) == SortByKey(es)
  {
    SortSorts(es);
    SortSorts(SortByKey(es));
    SortPermutes(SortByKey(es));
    SortedListIsUnique(SortByKey(SortByKey(es)), SortByKey(es));
  }

  lemma {:induction false} StringifyIgnoresKeyOrder<N>(v: Value<N>, show: N -> Text)
    requires WellFormed(v)
    ensures Stringify(Canon(v), show) == Stringify(v, show)
    decreases v
  {
    match v {
      case Arr(items) =>
        forall i | 0 <= i < |items| { StringifyIgnoresKeyOrder(items[i], show); }
        StringifyCanonItems(items, show);
      case Obj(fields) =>
        forall i | 0 <= i < |fields| { StringifyIgnoresKeyOrder(fields[i].value, show); }
        StringifyCanonFields(fields, show);
        SortCommutesWithStringify(CanonFields(fields), show);
        KeptValuesAt(fields, show, key => true);
        SortIsIdempotent(StringifyFields(fields, show));
      case _ =>
    }
  }

  /** The content hash is sound and complete: two values print the same canonical text exactly when
      deepEqualIgnoringKeyOrder holds of them. */
  lemma {:induction false} CanonicalTextDecidesEquality<N(!new)>(a: Value<N>, b: Value<N>, show: N -> Text,
    read: Text -> N)
    requires Faithful(show, read) && WellFormed(a) && WellFormed(b)
    ensures Stringify(a, show) == Stringify(b, show) <==> DeepEqual(a, b)
  {
    var all := (key: Text) => true;
    DeepEqualIsCanonEquality(a, b);
    if Stringify(a, show) == Stringify(b, show) {
      EverythingKept(a);
      EverythingKept(b);
      KeepIsIdentity(a, all);
      KeepIsIdentity(b, all);
      ParseUndoesStringify(a, show, read, all);
      ParseUndoesStringify(b, show, read, all);
    }
    if DeepEqual(a, b) {
      StringifyIgnoresKeyOrder(a, show);
      StringifyIgnoresKeyOrder(b, show);
    }
  }

  // ----- the key that plain objects do not store -----

  /** "__proto__": assigning it on a plain object sets the prototype and creates no field. */
  const PROTO: Text := [0x5F, 0x5F, 0x70, 0x72, 0x6F, 0x74, 0x6F, 0x5F, 0x5F]

  const PLAIN_OBJECT: Text -> bool := key => key != PROTO

  lemma {:induction false} DroppedFieldShortens<N>(fields: seq<Entry<Value<N>>>, keeps: Text -> bool)
    ensures |KeepFields(fields, keeps)| <= |fields|
    ensures |KeepFields(fields, keeps)| == |fields| ==>
              forall i | 0 <= i < |fields| ::
                keeps(fields[i].key) && KeepFields(fields, keeps)[i]
                == Entry(fields[i].key, Keep(fields[i].value, keeps))
  {
    if fields != [] {
      DroppedFieldShortens(fields[1..], keeps);
    }
  }

  lemma {:induction false} KeepItemsAt<N>(items: seq<Value<N>>, keeps: Text -> bool)
    ensures |KeepItems(items, keeps)| == |items| && forall i | 0 <= i < |items| ::
      KeepItems(items, keeps)[i] == Keep(items[i], keeps)
  {
    if items != [] {
      KeepItemsAt(items[1..], keeps);
    }
  }

  lemma KeptObject<N>(fields: seq<Entry<Value<N>>>, keeps: Text -> bool)
    requires DistinctKeys(fields) && Canon(Keep(Obj(fields), keeps)) == Canon(Obj(fields))
    ensures forall i | 0 <= i < |fields| ::
      keeps(fields[i].key) && Canon(Keep(fields[i].value, keeps)) == Canon(fields[i].value)
  {
    var kept := KeepFields(fields, keeps);
    SortedHasSameFields(CanonFields(kept));
    SortedHasSameFields(CanonFields(fields));
    CanonFieldsAt(kept);
    CanonFieldsAt(fields);
    DroppedFieldShortens(fields, keeps);
    assert DistinctKeys(kept);
    EqualCanonGivesEqualFields(fields, kept);
    forall i | 0 <= i < |fields| ensures Canon(Keep(fields[i].value, keeps)) == Canon(fields[i].value) {
      assert kept[i] in kept;
      GetIsTheField(kept, kept[i]);
    }
  }

  lemma {:induction false} CanonSurvivesExactlyWhenKept<N>(v: Value<N>, keeps: Text -> bool)
    requires WellFormed(v)
    ensures Canon(Keep(v, keeps)) == Canon(v) <==> AllKept(v, keeps)
    decreases v
  {
    if AllKept(v, keeps) {
      KeepIsIdentity(v, keeps);
    } else {
      match v {
        case Arr(items) =>
          var i :| 0 <= i < |items| && !AllKept(items[i], keeps);
          CanonSurvivesExactlyWhenKept(items[i], keeps);
          KeepItemsAt(items, keeps);
          CanonItemsAt(items);
          CanonItemsAt(KeepItems(items, keeps));
          assert CanonItems(KeepItems(items, keeps))[i] != CanonItems(items)[i];
        case Obj(fields) =>
          if Canon(Keep(v, keeps)) == Canon(v) {
            KeptObject(fields, keeps);
            forall i | 0 <= i < |fields| ensures AllKept(fields[i].value, keeps) {
              CanonSurvivesExactlyWhenKept(fields[i].value, keeps);
            }
            assert false;
          }
      }
    }
  }

  /** Text round-trips through the strict parser exactly when no object has a key named __proto__. */
  lemma {:induction false} RoundTripsExactlyWithoutProto<N(!new)>(v: Value<N>, show: N -> Text, read: Text -> N)
    requires Faithful(show, read) && WellFormed(v)
    ensures Parse(Stringify(v, show), read, PLAIN_OBJECT) == Some(Canon(v)) <==> AllKept(v, PLAIN_OBJECT)
  {
    ParseUndoesStringify(v, show, read, PLAIN_OBJECT);
    CanonSurvivesExactlyWhenKept(v, PLAIN_OBJECT);
  }
}
