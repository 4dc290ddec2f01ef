/** JSON values as the seed scripts and the posting engine compare, print and parse them:
    key-order-insensitive equality, canonical text, and the strict parser. */
module Json {
  import opened Sums

  /** JavaScript strings are sequences of UTF-16 code units. */
  type Unit = n: nat | n < 0x10000

  type Text = seq<Unit>

  datatype Entry<T> = Entry(key: Text, value: T)

  /** N is the type of numbers, compared with ==. Fields are in insertion order. */
  datatype Value<N> =
    | Null
    | Bool(b: bool)
    | Num(n: N)
    | Str(s: Text)
    | Arr(items: seq<Value<N>>)
    | Obj(fields: seq<Entry<Value<N>>>)

  // ----- keys -----

  /** Code-unit order, the order of Array.prototype.sort on strings. */
  predicate Less(a: Text, b: Text) {
    b != [] && (a == [] || a[0] < b[0] || (a[0] == b[0] && Less(a[1..], b[1..])))
  }

  lemma {:induction false} LessIsTotal(a: Text, b: Text)
    ensures Less(a, b) || a == b || Less(b, a)
    ensures !(Less(a, b) && Less(b, a)) && !Less(a, a)
  {
    if a != [] && b != [] {
      LessIsTotal(a[1..], b[1..]);
      LessIsTotal(a[1..], a[1..]);
      assert a == [a[0]] + a[1..] && b == [b[0]] + b[1..];
    } else if a != [] {
      LessIsTotal(a[1..], a[1..]);
    }
  }

  lemma {:induction false} LessIsTransitive(a: Text, b: Text, c: Text)
    requires Less(a, b) && Less(b, c)
    ensures Less(a, c)
  {
    if a != [] && a[0] == b[0] == c[0] {
      LessIsTransitive(a[1..], b[1..], c[1..]);
    }
  }

  predicate DistinctKeys<T>(es: seq<Entry<T>>) {
    forall i, j | 0 <= i < j < |es| :: es[i].key != es[j].key
  }

  predicate HasField<T>(es: seq<Entry<T>>, key: Text) {
    exists i | 0 <= i < |es| :: es[i].key == key
  }

  function Get<T>(es: seq<Entry<T>>, key: Text): T
    requires HasField(es, key)
  {
    if es[0].key == key then es[0].value else Get(es[1..], key)
  }

  function Keys<T>(es: seq<Entry<T>>): seq<Text> {
    if es == [] then [] else [es[0].key] + Keys(es[1..])
  }

  lemma {:induction false} KeysAt<T>(es: seq<Entry<T>>)
    ensures |Keys(es)| == |es| && forall i | 0 <= i < |es| :: Keys(es)[i] == es[i].key
  {
    if es != [] {
      KeysAt(es[1..]);
    }
  }

  function InsertByKey<T>(e: Entry<T>, es: seq<Entry<T>>): seq<Entry<T>> {
    if es == [] || !Less(es[0].key, e.key) then [e] + es else [es[0]] + InsertByKey(e, es[1..])
  }

  function SortByKey<T>(es: seq<Entry<T>>): seq<Entry<T>> {
    if es == [] then [] else InsertByKey(es[0], SortByKey(es[1..]))
  }

  // ----- equality -----

  /** No object has a key twice, at any depth. */
  predicate WellFormed<N>(v: Value<N>) {
    match v
    case Arr(items) => forall i | 0 <= i < |items| :: WellFormed(items[i])
    case Obj(fields) => DistinctKeys(fields) && forall i | 0 <= i < |fields| :: WellFormed(fields[i].value)
    case _ => true
  }

  predicate DeepEqual<N(==)>(a: Value<N>, b: Value<N>)
    decreases a
  {
    match (a, b)
    case (Arr(xs), Arr(ys)) => |xs| == |ys| && forall i | 0 <= i < |xs| :: DeepEqual(xs[i], ys[i])
    case (Obj(fs), Obj(gs)) =>
      && Keys(SortByKey(fs)) == Keys(SortByKey(gs))
      && forall i | 0 <= i < |fs| :: HasField(gs, fs[i].key) && DeepEqual(fs[i].value, Get(gs, fs[i].key))
    case _ => a == b
  }

  function CanonItems<N>(items: seq<Value<N>>): seq<Value<N>> {
    if items == [] then [] else [Canon(items[0])] + CanonItems(items[1..])
  }

  function CanonFields<N>(fields: seq<Entry<Value<N>>>): seq<Entry<Value<N>>> {
    if fields == [] then [] else [Entry(fields[0].key, Canon(fields[0].value))] + CanonFields(fields[1..])
  }

  /** The same value with the keys of every object sorted. */
  function Canon<N>(v: Value<N>): Value<N> {
    match v
    case Arr(items) => Arr(CanonItems(items))
    case Obj(fields) => Obj(SortByKey(CanonFields(fields)))
    case _ => v
  }

  // ----- sorting facts -----

  /** The order of two insertions does not depend on the values. */
  lemma {:induction false} SortPermutes<T>(es: seq<Entry<T>>)
    ensures multiset(SortByKey(es)) == multiset(es)
  {
    if es != [] {
      SortPermutes(es[1..]);
      InsertPermutes(es[0], SortByKey(es[1..]));
      assert es == [es[0]] + es[1..];
    }
  }

  lemma {:induction false} InsertPermutes<T>(e: Entry<T>, es: seq<Entry<T>>)
    ensures multiset(InsertByKey(e, es)) == multiset{e} + multiset(es)
  {
    if es != [] && Less(es[0].key, e.key) {
      InsertPermutes(e, es[1..]);
      assert es == [es[0]] + es[1..];
    }
  }

  lemma {:induction false} SortedHasSameFields<T>(es: seq<Entry<T>>)
    ensures |SortByKey(es)| == |es|
    ensures forall e :: e in SortByKey(es) <==> e in es
    ensures forall key :: HasField(SortByKey(es), key) <==> HasField(es, key)
  {
    SortPermutes(es);
    var sorted := SortByKey(es);
    forall e ensures e in sorted <==> e in es {
      assert e in sorted <==> e in multiset(sorted);
      assert e in es <==> e in multiset(es);
    }
    assert |multiset(sorted)| == |sorted| && |multiset(es)| == |es|;
    forall key ensures HasField(sorted, key) <==> HasField(es, key) {
      if HasField(sorted, key) {
        var i :| 0 <= i < |sorted| && sorted[i].key == key;
        assert sorted[i] in es;
      }
      if HasField(es, key) {
        var i :| 0 <= i < |es| && es[i].key == key;
        assert es[i] in sorted;
      }
    }
  }

  /** With distinct keys, a key has one value. */
  lemma {:induction false} GetIsTheField<T>(es: seq<Entry<T>>, e: Entry<T>)
    requires DistinctKeys(es) && e in es
    ensures HasField(es, e.key) && Get(es, e.key) == e.value
  {
    var i :| 0 <= i < |es| && es[i] == e;
    if es[0].key != e.key {
      assert es[1..][i - 1] == e;
      GetIsTheField(es[1..], e);
    }
  }

  ghost predicate StrictlySorted<T>(es: seq<Entry<T>>) {
    forall i, j | 0 <= i < j < |es| :: Less(es[i].key, es[j].key)
  }

  lemma {:induction false} InsertKeepsSorted<T>(e: Entry<T>, es: seq<Entry<T>>)
    requires StrictlySorted(es) && !HasField(es, e.key)
    ensures StrictlySorted(InsertByKey(e, es))
  {
    if es == [] {
    } else if Less(es[0].key, e.key) {
      assert forall i | 0 <= i < |es[1..]| :: es[1..][i] == es[i + 1];
      InsertKeepsSorted(e, es[1..]);
      InsertPermutes(e, es[1..]);
      var tail := InsertByKey(e, es[1..]);
      forall j | 0 <= j < |tail| ensures Less(es[0].key, tail[j].key) {
        assert tail[j] in multiset(tail);
        assert tail[j] == e || tail[j] in es[1..];
      }
    } else {
      LessIsTotal(es[0].key, e.key);
      assert es[0].key != e.key;
      forall j | 0 <= j < |es| ensures Less(e.key, es[j].key) {
        if j > 0 { LessIsTransitive(e.key, es[0].key, es[j].key); }
      }
    }
  }

  lemma {:induction false} SortSorts<T>(es: seq<Entry<T>>)
    requires DistinctKeys(es)
    ensures StrictlySorted(SortByKey(es)) && DistinctKeys(SortByKey(es))
  {
    if es != [] {
      SortSorts(es[1..]);
      SortedHasSameFields(es[1..]);
      assert !HasField(es[1..], es[0].key) by {
        forall i | 0 <= i < |es[1..]| ensures es[1..][i].key != es[0].key {}
      }
      InsertKeepsSorted(es[0], SortByKey(es[1..]));
    }
    var sorted := SortByKey(es);
    forall i, j | 0 <= i < j < |sorted| ensures sorted[i].key != sorted[j].key {
      LessIsTotal(sorted[i].key, sorted[j].key);
    }
  }

  // ----- equality is equality of canonical forms -----

  lemma {:induction false} CanonFieldsAt<N>(fields: seq<Entry<Value<N>>>)
    ensures |CanonFields(fields)| == |fields|
    ensures forall i | 0 <= i < |fields| :: CanonFields(fields)[i] == Entry(fields[i].key, Canon(fields[i].value))
  {
    if fields != [] {
      CanonFieldsAt(fields[1..]);
    }
  }

  lemma {:induction false} CanonItemsAt<N>(items: seq<Value<N>>)
    ensures |CanonItems(items)| == |items|
    ensures forall i | 0 <= i < |items| :: CanonItems(items)[i] == Canon(items[i])
  {
    if items != [] {
      CanonItemsAt(items[1..]);
    }
  }

  lemma {:induction false} InsertCommutesWithCanon<N>(e: Entry<Value<N>>, es: seq<Entry<Value<N>>>)
    ensures InsertByKey(Entry(e.key, Canon(e.value)), CanonFields(es)) == CanonFields(InsertByKey(e, es))
  {
    if es != [] && Less(es[0].key, e.key) {
      InsertCommutesWithCanon(e, es[1..]);
      assert CanonFields(es)[1..] == CanonFields(es[1..]);
    } else {
      assert ([e] + es)[1..] == es;
    }
  }

  lemma {:induction false} SortCommutesWithCanon<N>(fields: seq<Entry<Value<N>>>)
    ensures SortByKey(CanonFields(fields)) == CanonFields(SortByKey(fields))
  {
    if fields != [] {
      SortCommutesWithCanon(fields[1..]);
      assert CanonFields(fields)[1..] == CanonFields(fields[1..]);
      InsertCommutesWithCanon(fields[0], SortByKey(fields[1..]));
    }
  }

  lemma {:induction false} SortedFieldIsAField<T>(es: seq<Entry<T>>, i: nat)
    requires DistinctKeys(es) && i < |SortByKey(es)|
    ensures var e := SortByKey(es)[i]; e in es && HasField(es, e.key) && Get(es, e.key) == e.value
  {
    SortPermutes(es);
    var e := SortByKey(es)[i];
    assert e in multiset(SortByKey(es)) && e in multiset(es);
    GetIsTheField(es, e);
  }

  /** Two fields of equal sorted key lists at the same position. */
  lemma {:induction false} MatchingField<N>(fs: seq<Entry<Value<N>>>, gs: seq<Entry<Value<N>>>, i: nat)
    requires DistinctKeys(fs) && DistinctKeys(gs) && Keys(SortByKey(fs)) == Keys(SortByKey(gs)) && i < |SortByKey(fs)|
    ensures |SortByKey(gs)| == |SortByKey(fs)|
    ensures var f, g := SortByKey(fs)[i], SortByKey(gs)[i];
            f in fs && f.key == g.key && HasField(gs, f.key) && Get(gs, f.key) == g.value
  {
    KeysAt(SortByKey(fs));
    KeysAt(SortByKey(gs));
    SortedFieldIsAField(fs, i);
    SortedFieldIsAField(gs, i);
  }

  lemma {:induction false} EqualFieldsHaveEqualCanon<N>(fs: seq<Entry<Value<N>>>, gs: seq<Entry<Value<N>>>)
    requires DistinctKeys(fs) && DistinctKeys(gs) && Keys(SortByKey(fs)) == Keys(SortByKey(gs))
    requires forall i | 0 <= i < |fs| :: HasField(gs, fs[i].key) && Canon(fs[i].value) == Canon(Get(gs, fs[i].key))
    ensures Canon(Obj(fs)) == Canon(Obj(gs))
  {
    var s, t := SortByKey(fs), SortByKey(gs);
    SortedHasSameFields(fs);
    SortedHasSameFields(gs);
    CanonFieldsAt(s);
    CanonFieldsAt(t);
    KeysAt(s);
    KeysAt(t);
    forall i | 0 <= i < |s| ensures CanonFields(s)[i] == CanonFields(t)[i] {
      MatchingField(fs, gs, i);
      var j :| 0 <= j < |fs| && fs[j] == s[i];
    }
    SortCommutesWithCanon(fs);
    SortCommutesWithCanon(gs);
  }

  lemma {:induction false} EqualCanonFields<N>(s: seq<Entry<Value<N>>>, t: seq<Entry<Value<N>>>)
    requires CanonFields(s) == CanonFields(t)
    ensures Keys(s) == Keys(t) && |s| == |t|
    ensures forall i | 0 <= i < |s| :: Canon(s[i].value) == Canon(t[i].value)
  {
    CanonFieldsAt(s);
    CanonFieldsAt(t);
    if s != [] {
      assert CanonFields(s)[0] == CanonFields(t)[0];
      assert CanonFields(s)[1..] == CanonFields(s[1..]) && CanonFields(t)[1..] == CanonFields(t[1..]);
      EqualCanonFields(s[1..], t[1..]);
    }
  }

  lemma {:induction false} SameFieldSameCanon<N>(fs: seq<Entry<Value<N>>>, gs: seq<Entry<Value<N>>>, f: Entry<Value<N>>)
    requires DistinctKeys(fs) && DistinctKeys(gs) && f in fs
    requires Keys(SortByKey(fs)) == Keys(SortByKey(gs)) && |SortByKey(fs)| == |SortByKey(gs)|
    requires forall i | 0 <= i < |SortByKey(fs)| :: Canon(SortByKey(fs)[i].value) == Canon(SortByKey(gs)[i].value)
    ensures HasField(gs, f.key) && Canon(f.value) == Canon(Get(gs, f.key))
  {
    SortedHasSameFields(fs);
    assert f in SortByKey(fs);
    var j :| 0 <= j < |SortByKey(fs)| && SortByKey(fs)[j] == f;
    MatchingField(fs, gs, j);
  }

  lemma {:induction false} EqualCanonGivesEqualFields<N>(fs: seq<Entry<Value<N>>>, gs: seq<Entry<Value<N>>>)
    requires DistinctKeys(fs) && DistinctKeys(gs) && Canon(Obj(fs)) == Canon(Obj(gs))
    ensures Keys(SortByKey(fs)) == Keys(SortByKey(gs))
    ensures forall i | 0 <= i < |fs| :: HasField(gs, fs[i].key) && Canon(fs[i].value) == Canon(Get(gs, fs[i].key))
  {
    SortCommutesWithCanon(fs);
    SortCommutesWithCanon(gs);
    EqualCanonFields(SortByKey(fs), SortByKey(gs));
    forall i | 0 <= i < |fs| ensures HasField(gs, fs[i].key) && Canon(fs[i].value) == Canon(Get(gs, fs[i].key)) {
      SameFieldSameCanon(fs, gs, fs[i]);
    }
  }

  /** deepEqualIgnoringKeyOrder decides equality of canonical forms. */
  lemma {:induction false} DeepEqualIsCanonEquality<N>(a: Value<N>, b: Value<N>)
    requires WellFormed(a) && WellFormed(b)
    ensures DeepEqual(a, b) <==> Canon(a) == Canon(b)
    decreases a
  {
    match (a, b) {
      case (Arr(xs), Arr(ys)) =>
        CanonItemsAt(xs);
        CanonItemsAt(ys);
        forall i | 0 <= i < |xs| && |xs| == |ys|
          ensures DeepEqual(xs[i], ys[i]) <==> CanonItems(xs)[i] == CanonItems(ys)[i] {
          DeepEqualIsCanonEquality(xs[i], ys[i]);
        }
        if DeepEqual(a, b) {
          assert CanonItems(xs) == CanonItems(ys);
        }
      case (Obj(fs), Obj(gs)) =>
        forall i | 0 <= i < |fs| && HasField(gs, fs[i].key)
          ensures DeepEqual(fs[i].value, Get(gs, fs[i].key)) <==> Canon(fs[i].value) == Canon(Get(gs, fs[i].key))
        {
          GetIsWellFormed(gs, fs[i].key);
          DeepEqualIsCanonEquality(fs[i].value, Get(gs, fs[i].key));
        }
        if DeepEqual(a, b) {
          EqualFieldsHaveEqualCanon(fs, gs);
        }
        if Canon(a) == Canon(b) {
          EqualCanonGivesEqualFields(fs, gs);
        }
      case _ =>
    }
  }

  lemma {:induction false} GetIsWellFormed<N>(gs: seq<Entry<Value<N>>>, key: Text)
    requires HasField(gs, key) && forall i | 0 <= i < |gs| :: WellFormed(gs[i].value)
    ensures WellFormed(Get(gs, key))
  {
    if gs[0].key != key {
      assert HasField(gs[1..], key) by {
        var i :| 0 <= i < |gs| && gs[i].key == key;
        assert gs[1..][i - 1].key == key;
      }
      GetIsWellFormed(gs[1..], key);
    }
  }

  /** So it is an equivalence relation. */
  lemma {:induction false} DeepEqualIsAnEquivalence<N>(a: Value<N>, b: Value<N>, c: Value<N>)
    requires WellFormed(a) && WellFormed(b) && WellFormed(c)
    ensures DeepEqual(a, a)
    ensures DeepEqual(a, b) ==> DeepEqual(b, a)
    ensures DeepEqual(a, b) && DeepEqual(b, c) ==> DeepEqual(a, c)
  {
    DeepEqualIsCanonEquality(a, a);
    DeepEqualIsCanonEquality(a, b);
    DeepEqualIsCanonEquality(b, a);
    DeepEqualIsCanonEquality(b, c);
    DeepEqualIsCanonEquality(a, c);
  }

  lemma FirstIsLeast<T>(xs: seq<Entry<T>>, e: Entry<T>)
    requires StrictlySorted(xs) && e in multiset(xs)
    ensures xs != [] && (e == xs[0] || Less(xs[0].key, e.key))
  {
    var i :| 0 <= i < |xs| && xs[i] == e;
  }

  lemma {:induction false} SortedListIsUnique<T>(xs: seq<Entry<T>>, ys: seq<Entry<T>>)
    requires StrictlySorted(xs) && StrictlySorted(ys) && multiset(xs) == multiset(ys)
    ensures xs == ys
  {
    assert |multiset(xs)| == |xs| && |multiset(ys)| == |ys|;
    if xs != [] {
      FirstIsLeast(ys, xs[0]);
      FirstIsLeast(xs, ys[0]);
      LessIsTotal(xs[0].key, ys[0].key);
      assert xs == [xs[0]] + xs[1..] && ys == [ys[0]] + ys[1..];
      SortedTail(xs);
      SortedTail(ys);
      SortedListIsUnique(xs[1..], ys[1..]);
    }
  }

  lemma SortedTail<T>(xs: seq<Entry<T>>)
    requires StrictlySorted(xs) && xs != []
    ensures StrictlySorted(xs[1..]) && multiset(xs[1..]) == multiset(xs) - multiset{xs[0]}
  {
    assert xs == [xs[0]] + xs[1..];
  }

  /** The order of the keys of an object is invisible. */
  lemma KeyOrderIsInvisible<N>(fs: seq<Entry<Value<N>>>, gs: seq<Entry<Value<N>>>)
    requires WellFormed(Obj(fs)) && WellFormed(Obj(gs)) && multiset(fs) == multiset(gs)
    ensures DeepEqual(Obj(fs), Obj(gs))
  {
    SortPermutes(fs);
    SortPermutes(gs);
    SortSorts(fs);
    SortSorts(gs);
    SortedListIsUnique(SortByKey(fs), SortByKey(gs));
    SortCommutesWithCanon(fs);
    SortCommutesWithCanon(gs);
    DeepEqualIsCanonEquality(Obj(fs), Obj(gs));
  }
}
