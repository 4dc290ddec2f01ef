/** Canonical text against the grammar of JSON: no white space, the keys of every object in ascending order, and nothing
    escaped but what JSON.stringify escapes (QuoteJSONString, section 25.5.2.3 of ECMA-262), in its way. */
module CanonicalText {
  import opened Sums
  import opened Json
  import opened JsonText
  import opened JsonGrammar

  // ----- strings -----

  predicate Surrogate(c: Unit) { 0xD800 <= c <= 0xDFFF }

  /** The unit at i is one half of a surrogate pair. */
  predicate Paired(t: Text, i: nat)
    requires i < |t|
  {
    || (0xD800 <= t[i] <= 0xDBFF && i + 1 < |t| && 0xDC00 <= t[i + 1] <= 0xDFFF)
    || (0xDC00 <= t[i] <= 0xDFFF && i > 0 && 0xD800 <= t[i - 1] <= 0xDBFF)
  }

  /** The one way to write the unit at i: by itself; with a short escape if there is one, though not for the slash; in
      four lower-case digits if it is another control character or a surrogate by itself. */
  predicate InItsForm(p: Piece, t: Text, i: nat)
    requires i < |t|
  {
    match p
    case Plain(_) => Surrogate(t[i]) ==> Paired(t, i)
    case Short(letter) => letter != 0x2F
    case Hex(_, upper) =>
      && upper == [false, false, false, false]
      && ((t[i] < 0x20 && t[i] !in {8, 9, 10, 12, 13}) || (Surrogate(t[i]) && !Paired(t, i)))
  }

  predicate CanonicalPieces(ps: seq<Piece>)
    requires GoodPieces(ps)
  {
    forall i | 0 <= i < |ps| :: InItsForm(ps[i], MeanPieces(ps), i)
  }

  lemma LowerDigit(d: nat)
    requires d < 16
    ensures ShowDigit(d, false) == HexDigit(d)
  {
  }

  lemma HexPiece(c: Unit) returns (p: Piece)
    ensures GoodPiece(p) && ShowPiece(p) == Hex4(c) && MeanPiece(p) == c
    ensures p.Hex? && p.upper == [false, false, false, false]
  {
    HexDigitsSpellTheUnit(c);
    var d := [c / 4096, c / 256 % 16, c / 16 % 16, c % 16];
    LowerDigit(d[0]);
    LowerDigit(d[1]);
    LowerDigit(d[2]);
    LowerDigit(d[3]);
    p := Hex(d, [false, false, false, false]);
  }

  /** A unit that is not half of a pair. */
  lemma UnitPiece(c: Unit) returns (p: Piece)
    ensures GoodPiece(p) && ShowPiece(p) == EscapeUnit(c) && MeanPiece(p) == c
    ensures forall t: Text, i: nat | i < |t| && t[i] == c && !Paired(t, i) :: InItsForm(p, t, i)
  {
    if ShortEscape(c).Some? {
      p := Short(ShortEscape(c).value);
    } else if c < 0x20 || IsHigh(c) || IsLow(c) {
      p := HexPiece(c);
    } else {
      p := Plain(c);
    }
  }

  lemma PairedBehindTheFirst(t: Text, i: nat)
    requires t != [] && Chunk(t) <= i < |t|
    ensures Paired(t, i) <==> Paired(t[Chunk(t)..], i - Chunk(t))
  {
  }

  lemma FormsBehindTheFirst(t: Text, first: seq<Piece>, more: seq<Piece>)
    requires t != [] && |first| == Chunk(t) && |more| == |t| - Chunk(t)
    requires forall i | 0 <= i < |more| :: InItsForm(more[i], t[Chunk(t)..], i)
    requires forall i | 0 <= i < |first| :: InItsForm(first[i], t, i)
    ensures forall i | 0 <= i < |t| :: InItsForm((first + more)[i], t, i)
  {
    forall i | Chunk(t) <= i < |t| ensures InItsForm((first + more)[i], t, i) {
      PairedBehindTheFirst(t, i);
      assert (first + more)[i] == more[i - Chunk(t)] && t[i] == t[Chunk(t)..][i - Chunk(t)];
      assert InItsForm(more[i - Chunk(t)], t[Chunk(t)..], i - Chunk(t));
    }
  }

  lemma {:induction false} PushUnit(p: Piece, more: seq<Piece>)
    requires GoodPiece(p) && GoodPieces(more)
    ensures GoodPieces([p] + more) && MeanPieces([p] + more) == [MeanPiece(p)] + MeanPieces(more)
    ensures ShowPieces([p] + more) == ShowPiece(p) + ShowPieces(more)
  {
    PiecesPush(p, more, []);
    assert ShowPieces([p] + more) + [] == ShowPieces([p] + more) && ShowPieces(more) + [] == ShowPieces(more);
  }

  lemma PairThenMore(t: Text, more: seq<Piece>) returns (ps: seq<Piece>)
    requires t != [] && Chunk(t) == 2 && GoodPieces(more) && MeanPieces(more) == t[2..] && CanonicalPieces(more)
    ensures GoodPieces(ps) && MeanPieces(ps) == t && CanonicalPieces(ps)
    ensures ShowPieces(ps) == [t[0], t[1]] + ShowPieces(more)
  {
    var first, second := Plain(t[0]), Plain(t[1]);
    PushUnit(second, more);
    PushUnit(first, [second] + more);
    ps := [first] + ([second] + more);
    assert ps == [first, second] + more && t == [t[0]] + ([t[1]] + t[2..]);
    FormsBehindTheFirst(t, [first, second], more);
  }

  lemma UnitThenMore(t: Text, more: seq<Piece>) returns (ps: seq<Piece>)
    requires t != [] && Chunk(t) == 1 && GoodPieces(more) && MeanPieces(more) == t[1..] && CanonicalPieces(more)
    ensures GoodPieces(ps) && MeanPieces(ps) == t && CanonicalPieces(ps)
    ensures ShowPieces(ps) == EscapeUnit(t[0]) + ShowPieces(more)
  {
    var p := UnitPiece(t[0]);
    PushUnit(p, more);
    ps := [p] + more;
    assert t == [t[0]] + t[1..] && !Paired(t, 0);
    FormsBehindTheFirst(t, [p], more);
  }

  /** JSON.stringify writes every unit of a string in its form. */
  lemma {:induction false} EscapedInForm(t: Text) returns (ps: seq<Piece>)
    ensures GoodPieces(ps) && ShowPieces(ps) == Escape(t) && MeanPieces(ps) == t && CanonicalPieces(ps)
    decreases |t|
  {
    if t == [] {
      ps := [];
    } else {
      var more := EscapedInForm(t[Chunk(t)..]);
      if Chunk(t) == 2 {
        ps := PairThenMore(t, more);
      } else {
        ps := UnitThenMore(t, more);
      }
    }
  }

  // ----- keys -----

  /** The first is a proper prefix of the second, or smaller at the first unit where they differ. */
  predicate Precedes(a: Text, b: Text) {
    exists k: nat | k <= |a| && k < |b| :: a[..k] == b[..k] && (k < |a| ==> a[k] < b[k])
  }

  lemma {:induction false} LessPrecedes(a: Text, b: Text)
    requires Less(a, b)
    ensures Precedes(a, b)
  {
    if a != [] && a[0] == b[0] {
      var c, d := a[1..], b[1..];
      LessPrecedes(c, d);
      var k: nat :| k <= |c| && k < |d| && c[..k] == d[..k] && (k < |c| ==> c[k] < d[k]);
      assert a[..k + 1] == [a[0]] + c[..k] && b[..k + 1] == [b[0]] + d[..k];
    } else {
      assert a[..0] == b[..0];
    }
  }

  // ----- values -----

  predicate Canonical(t: Tree)
    requires GoodTree(t)
  {
    match t
    case StringTree(ps) => CanonicalPieces(ps)
    case ArrayTree(inside, items) => inside == [] && CanonicalItemTrees(items)
    case ObjectTree(inside, members) => inside == [] && CanonicalMembers(members)
    case _ => true
  }

  predicate CanonicalItemTrees(items: seq<ItemTree>)
    requires GoodItems(items)
  {
    items == [] ||
      (items[0].before == items[0].after == [] && Canonical(items[0].tree) && CanonicalItemTrees(items[1..]))
  }

  predicate CanonicalMembers(ms: seq<MemberTree>)
    requires GoodMembers(ms)
  {
    ms == [] ||
      (ms[0].before == ms[0].afterKey == ms[0].beforeValue == ms[0].after == []
       && CanonicalPieces(ms[0].key) && Canonical(ms[0].tree) && CanonicalMembers(ms[1..])
       && (|ms| > 1 ==> Precedes(MeanPieces(ms[0].key), MeanPieces(ms[1].key))))
  }

  predicate Spells(t: Tree, text: Text) {
    GoodTree(t) && Canonical(t) && Show(t) == text
  }

  ghost predicate HasForm(text: Text) {
    exists t :: Spells(t, text)
  }

  lemma {:induction false} JoinedItems(ts: seq<Text>) returns (items: seq<ItemTree>)
    requires ts != [] && forall i | 0 <= i < |ts| :: HasForm(ts[i])
    ensures |items| == |ts| && GoodItems(items) && CanonicalItemTrees(items) && ShowItems(items) == Join(ts)
  {
    var t :| Spells(t, ts[0]);
    var first := ItemTree([], t, []);
    if |ts| == 1 {
      items := [first];
      assert items[1..] == [];
    } else {
      var more := JoinedItems(ts[1..]);
      items := [first] + more;
      assert items[1..] == more && items[0] == first;
      assert ShowItems(items) == [] + (Show(t) + ([] + ([0x2C] + ShowItems(more))));
    }
  }

  lemma WithoutBlanks(key: Text, value: Text, tail: Text)
    ensures [] + (key + ([] + ([0x3A] + ([] + (value + ([] + tail)))))) == key + [0x3A] + value + tail
  {
  }

  lemma {:induction false} OneMemberShows(key: seq<Piece>, t: Tree, more: seq<MemberTree>)
    requires GoodPieces(key) && GoodTree(t) && GoodMembers(more)
    ensures var ms := [MemberTree([], key, [], [], t, [])] + more;
            && GoodMembers(ms)
            && ShowMembers(ms)
                 == ShowString(key) + [0x3A] + Show(t) + if more == [] then [] else [0x2C] + ShowMembers(more)
  {
    var ms := [MemberTree([], key, [], [], t, [])] + more;
    assert ms[1..] == more && ms[0] == MemberTree([], key, [], [], t, []);
    WithoutBlanks(ShowString(key), Show(t), if more == [] then [] else [0x2C] + ShowMembers(more));
  }

  lemma LastMemberTree(e: Entry<Text>) returns (ms: seq<MemberTree>)
    requires HasForm(e.value)
    ensures |ms| == 1 && GoodMembers(ms) && CanonicalMembers(ms) && ShowMembers(ms) == Member(e)
    ensures MeanPieces(ms[0].key) == e.key
  {
    var t :| Spells(t, e.value);
    var key := EscapedInForm(e.key);
    ms := [MemberTree([], key, [], [], t, [])] + [];
    OneMemberShows(key, t, []);
    assert ms[1..] == [];
  }

  lemma OneMoreMemberTree(e: Entry<Text>, more: seq<MemberTree>) returns (ms: seq<MemberTree>)
    requires HasForm(e.value) && more != [] && GoodMembers(more) && CanonicalMembers(more)
    requires Precedes(e.key, MeanPieces(more[0].key))
    ensures |ms| == 1 + |more| && GoodMembers(ms) && CanonicalMembers(ms)
    ensures ShowMembers(ms) == Member(e) + [COMMA] + ShowMembers(more) && MeanPieces(ms[0].key) == e.key
  {
    var t :| Spells(t, e.value);
    var key := EscapedInForm(e.key);
    ms := [MemberTree([], key, [], [], t, [])] + more;
    OneMemberShows(key, t, more);
    assert ms[1..] == more && ms[1] == more[0];
  }

  lemma {:induction false} JoinedMembers(es: seq<Entry<Text>>) returns (ms: seq<MemberTree>)
    requires es != [] && StrictlySorted(es) && forall i | 0 <= i < |es| :: HasForm(es[i].value)
    ensures |ms| == |es| && GoodMembers(ms) && CanonicalMembers(ms) && ShowMembers(ms) == Join(Members(es))
    ensures MeanPieces(ms[0].key) == es[0].key
  {
    assert Members(es)[1..] == Members(es[1..]);
    MembersLength(es);
    if |es| == 1 {
      ms := LastMemberTree(es[0]);
    } else {
      var more := JoinedMembers(es[1..]);
      LessPrecedes(es[0].key, es[1].key);
      ms := OneMoreMemberTree(es[0], more);
    }
  }

  lemma NumberHasForm(text: Text)
    requires ScanNumber(text) == Some(|text|)
    ensures HasForm(text)
  {
    var n := NumeralOf(text);
    assert text[..|text|] == text;
    assert Spells(NumberTree(n), text);
  }

  lemma {:induction false} ArraySpells(items: seq<ItemTree>)
    requires items != [] && GoodItems(items) && CanonicalItemTrees(items)
    ensures Spells(ArrayTree([], items), [OPEN_BRACKET] + ShowItems(items) + [CLOSE_BRACKET])
  {
  }

  lemma {:induction false} ArrayHasForm(ts: seq<Text>)
    requires forall i | 0 <= i < |ts| :: HasForm(ts[i])
    ensures HasForm([OPEN_BRACKET] + Join(ts) + [CLOSE_BRACKET])
  {
    if ts == [] {
      assert Spells(ArrayTree([], []), [OPEN_BRACKET] + [] + [CLOSE_BRACKET]);
    } else {
      var items := JoinedItems(ts);
      ArraySpells(items);
    }
  }

  lemma ObjectHasForm(es: seq<Entry<Text>>)
    requires StrictlySorted(es) && forall i | 0 <= i < |es| :: HasForm(es[i].value)
    ensures HasForm(Braced(es))
  {
    var ms: seq<MemberTree> := [];
    if es != [] { ms := JoinedMembers(es); }
    var t := ObjectTree([], ms);
    assert Show(t) == Braced(es);
    assert Spells(t, Show(t));
  }

  lemma ItemsHaveForm<N>(items: seq<Value<N>>, show: N -> Text)
    requires forall i | 0 <= i < |items| :: HasForm(Stringify(items[i], show))
    ensures HasForm(Stringify(Arr(items), show))
  {
    ItemsAt(items, show, key => true);
    ArrayHasForm(StringifyItems(items, show));
  }

  lemma {:induction false} SortKeepsForms(es: seq<Entry<Text>>)
    requires forall i | 0 <= i < |es| :: HasForm(es[i].value)
    ensures forall i | 0 <= i < |SortByKey(es)| :: HasForm(SortByKey(es)[i].value)
  {
    SortPermutes(es);
    var sorted := SortByKey(es);
    forall i | 0 <= i < |sorted| ensures HasForm(sorted[i].value) {
      assert sorted[i] in multiset(sorted);
      var j :| 0 <= j < |es| && es[j] == sorted[i];
    }
  }

  lemma FieldsHaveForm<N>(fields: seq<Entry<Value<N>>>, show: N -> Text)
    requires DistinctKeys(fields) && forall i | 0 <= i < |fields| :: HasForm(Stringify(fields[i].value, show))
    ensures HasForm(Stringify(Obj(fields), show))
  {
    KeptValuesAt(fields, show, key => true);
    var es := StringifyFields(fields, show);
    assert DistinctKeys(es);
    SortSorts(es);
    SortKeepsForms(es);
    ObjectHasForm(SortByKey(es));
  }

  lemma {:induction false} StringifiedHasForm<N(!new)>(v: Value<N>, show: N -> Text)
    requires WellFormed(v) && forall n :: ScanNumber(show(n)) == Some(|show(n)|)
    ensures HasForm(Stringify(v, show))
    decreases v
  {
    match v
    case Null => assert Spells(NullTree, NULL_TEXT);
    case Bool(b) => assert Spells(BoolTree(b), if b then TRUE_TEXT else FALSE_TEXT);
    case Num(n) => NumberHasForm(show(n));
    case Str(text) =>
      var ps := EscapedInForm(text);
      assert Spells(StringTree(ps), Quoted(text));
    case Arr(items) =>
      forall i | 0 <= i < |items| { StringifiedHasForm(items[i], show); }
      ItemsHaveForm(items, show);
    case Obj(fields) =>
      forall i | 0 <= i < |fields| { StringifiedHasForm(fields[i].value, show); }
      FieldsHaveForm(fields, show);
  }

  /** The canonical text of a value is the text of a canonical tree that means the value, with the fields in key order
      and without those that an assignment does not store. */
  lemma CanonicalTextHasTheCanonicalForm<N(!new)>(v: Value<N>, show: N -> Text, read: Text -> N, keeps: Text -> bool)
    returns (t: Tree)
    requires Faithful(show, read) && WellFormed(v)
    ensures GoodTree(t) && Canonical(t) && Show(t) == Stringify(v, show)
    ensures Unique(t) && Mean(t, read, keeps) == Canon(Keep(v, keeps))
  {
    StringifiedHasForm(v, show);
    t :| Spells(t, Stringify(v, show));
    ParseUndoesStringify(v, show, read, keeps);
    var text := Show(t);
    TreeParses([], t, [], read, keeps);
    assert text + [] == text && [] + text == text;
  }
}
