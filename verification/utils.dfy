/**
 * The canonical key sorter of `KnifeUploader::Utils`: JSON-like values whose
 * mappings are re-built with their keys in ascending order at every level,
 * so that two values that differ only in key insertion order render to the
 * same text.
 */
module Utils {
  import opened Strings

  /**
   * A JSON-like Ruby value. A mapping keeps its entries in insertion order,
   * as a Ruby Hash does; `JNum` covers the integers only.
   */
  datatype Json =
    | JNull
    | JBool(b: bool)
    | JNum(n: int)
    | JStr(s: string)
    | JArr(elems: seq<Json>)
    | JObj(entries: seq<(string, Json)>)

  /** The entries of a mapping, in insertion order. */
  type Entries = seq<(string, Json)>

  /** The keys of a mapping. */
  function Keys(es: Entries): set<string>
  {
    set e | e in es :: e.0
  }

  /** A Ruby Hash never holds a key twice. */
  ghost predicate UniqueKeys(es: Entries)
  {
    forall i, j :: 0 <= i < j < |es| ==> es[i].0 != es[j].0
  }

  /** Keys never decrease along the entries. */
  ghost predicate SortedByKey(es: Entries)
  {
    forall i, j :: 0 <= i < j < |es| ==> !StrLt(es[j].0, es[i].0)
  }

  lemma KeyLeTransitive(a: string, b: string, c: string)
    requires !StrLt(b, a) && !StrLt(c, b)
    ensures !StrLt(c, a)
  {
    StrLtTotal(b, c);
    if StrLt(c, a) && StrLt(b, c) {
      StrLtTransitive(b, c, a);
    }
  }

  /** Places `e` in front of the first entry whose key is not below `e`'s. */
  function InsertEntry(e: (string, Json), es: Entries): (r: Entries)
    ensures multiset(r) == multiset(es) + multiset{e}
  {
    if es == [] then [e]
    else if !StrLt(es[0].0, e.0) then [e] + es
    else
      assert es == [es[0]] + es[1..];
      [es[0]] + InsertEntry(e, es[1..])
  }

  /** Entries with equal multisets have equal key sets. */
  lemma SameKeys(a: Entries, b: Entries)
    requires multiset(a) == multiset(b)
    ensures Keys(a) == Keys(b)
  {
    forall k | k in Keys(a) ensures k in Keys(b) {
      var e :| e in a && e.0 == k;
      assert e in multiset(b);
    }
    forall k | k in Keys(b) ensures k in Keys(a) {
      var e :| e in b && e.0 == k;
      assert e in multiset(a);
    }
  }

  lemma {:induction false} InsertEntrySorted(e: (string, Json), es: Entries)
    requires SortedByKey(es)
    ensures SortedByKey(InsertEntry(e, es))
  {
    if es == [] {
    } else if !StrLt(es[0].0, e.0) {
      forall j | 0 < j < |es| ensures !StrLt(es[j].0, e.0) {
        KeyLeTransitive(e.0, es[0].0, es[j].0);
      }
    } else {
      var t := InsertEntry(e, es[1..]);
      InsertEntrySorted(e, es[1..]);
      forall y | y in t ensures !StrLt(y.0, es[0].0) {
        assert y in multiset(t);
        if y == e {
          StrLtAsymmetric(es[0].0, e.0);
        }
      }
      assert InsertEntry(e, es) == [es[0]] + t;
    }
  }

  lemma {:induction false} InsertEntryUnique(e: (string, Json), es: Entries)
    requires UniqueKeys(es) && e.0 !in Keys(es)
    ensures UniqueKeys(InsertEntry(e, es))
  {
    if es == [] {
    } else if !StrLt(es[0].0, e.0) {
      assert forall j :: 0 <= j < |es| ==> es[j].0 in Keys(es);
    } else {
      var t := InsertEntry(e, es[1..]);
      assert Keys(es[1..]) <= Keys(es);
      InsertEntryUnique(e, es[1..]);
      forall y | y in t ensures y.0 != es[0].0 {
        assert y in multiset(t);
        if y != e {
          assert y in es[1..];
          var j :| 0 <= j < |es[1..]| && es[1..][j] == y;
          assert es[j + 1] == y;
        }
      }
      assert InsertEntry(e, es) == [es[0]] + t;
    }
  }

  /** `Utils.sort_hash_keys`: the same key/value pairs, keys in ascending order. */
  function SortHashKeys(es: Entries): (r: Entries)
    ensures multiset(r) == multiset(es)
  {
    if es == [] then []
    else
      assert es == [es[0]] + es[1..];
      InsertEntry(es[0], SortHashKeys(es[1..]))
  }

  lemma {:induction false} SortHashKeysSorted(es: Entries)
    ensures SortedByKey(SortHashKeys(es))
  {
    if es != [] {
      SortHashKeysSorted(es[1..]);
      InsertEntrySorted(es[0], SortHashKeys(es[1..]));
    }
  }

  lemma {:induction false} SortHashKeysUnique(es: Entries)
    requires UniqueKeys(es)
    ensures UniqueKeys(SortHashKeys(es))
  {
    if es != [] {
      var t := SortHashKeys(es[1..]);
      SortHashKeysUnique(es[1..]);
      SameKeys(t, es[1..]);
      InsertEntryUnique(es[0], t);
    }
  }

  /** Every mapping at every level has its keys in ascending order. */
  ghost predicate Canonical(x: Json)
  {
    match x
    case JObj(es) => SortedByKey(es) && forall i :: 0 <= i < |es| ==> Canonical(es[i].1)
    case JArr(xs) => forall i :: 0 <= i < |xs| ==> Canonical(xs[i])
    case _ => true
  }

  /**
   * `Utils.recursive_sort_hash_keys`: sorts the keys of every mapping at every
   * level, keeps the order of array elements while recursing into each one,
   * and returns scalars unchanged. The values are rebuilt and the input is a
   * value, so the input is never changed. (The source sorts the entries and then
   * recurses into the values; sorting looks at the keys only, so recursing first
   * gives the same mapping.)
   */
  function RecursiveSortHashKeys(x: Json): (r: Json)
    ensures Canonical(r)
    decreases x, 1
  {
    match x
    case JObj(es) =>
      var mapped := SortValues(es);
      SortMappedEntries(es, mapped);
      JObj(SortHashKeys(mapped))
    case JArr(xs) =>
      JArr(seq(|xs|, i requires 0 <= i < |xs| => RecursiveSortHashKeys(xs[i])))
    case _ => x
  }

  /**
   * The canonical form has the shape of the input: a mapping with the same
   * keys, each entry's value in canonical form; an array of the canonical
   * forms of the elements in the same order; the scalar itself.
   */
  lemma RecursiveSortShape(x: Json)
    ensures x.JObj? <==> RecursiveSortHashKeys(x).JObj?
    ensures x.JArr? <==> RecursiveSortHashKeys(x).JArr?
    ensures !x.JObj? && !x.JArr? ==> RecursiveSortHashKeys(x) == x
    ensures x.JArr? ==>
      && |RecursiveSortHashKeys(x).elems| == |x.elems|
      && forall i :: 0 <= i < |x.elems| ==> RecursiveSortHashKeys(x).elems[i] == RecursiveSortHashKeys(x.elems[i])
    ensures x.JObj? ==>
      && Keys(RecursiveSortHashKeys(x).entries) == Keys(x.entries)
      && |RecursiveSortHashKeys(x).entries| == |x.entries|
      && forall e :: e in x.entries ==> (e.0, RecursiveSortHashKeys(e.1)) in RecursiveSortHashKeys(x).entries
  {
    if x.JObj? {
      var es := x.entries;
      var mapped := SortValues(es);
      SortMappedEntries(es, mapped);
      forall e | e in es ensures (e.0, RecursiveSortHashKeys(e.1)) in SortHashKeys(mapped) {
        var i :| 0 <= i < |es| && es[i] == e;
        assert mapped[i] in SortHashKeys(mapped);
      }
    }
  }

  /** Each value of the mapping replaced by its canonical form, keys and order kept. */
  function SortValues(es: Entries): (r: Entries)
    ensures |r| == |es|
    ensures forall i :: 0 <= i < |es| ==> r[i] == (es[i].0, RecursiveSortHashKeys(es[i].1))
    decreases JObj(es), 0
  {
    seq(|es|, i requires 0 <= i < |es| => (es[i].0, RecursiveSortHashKeys(es[i].1)))
  }

  /** Sorting entries whose values are already canonical gives a canonical mapping. */
  lemma SortMappedEntries(es: Entries, mapped: Entries)
    requires |mapped| == |es|
    requires forall i :: 0 <= i < |es| ==> mapped[i].0 == es[i].0 && Canonical(mapped[i].1)
    ensures Canonical(JObj(SortHashKeys(mapped)))
    ensures Keys(SortHashKeys(mapped)) == Keys(es)
    ensures |SortHashKeys(mapped)| == |es|
    ensures forall i :: 0 <= i < |mapped| ==> mapped[i] in SortHashKeys(mapped)
  {
    var sorted := SortHashKeys(mapped);
    SortHashKeysSorted(mapped);
    SameKeys(sorted, mapped);
    forall k | k in Keys(es) ensures k in Keys(mapped) {
      var e :| e in es && e.0 == k;
      var i :| 0 <= i < |es| && es[i] == e;
      assert mapped[i] in mapped;
    }
    forall k | k in Keys(mapped) ensures k in Keys(es) {
      var e :| e in mapped && e.0 == k;
      var i :| 0 <= i < |mapped| && mapped[i] == e;
      assert es[i] in es;
    }
    forall i | 0 <= i < |mapped| ensures mapped[i] in sorted {
      assert mapped[i] in multiset(mapped);
    }
    forall i | 0 <= i < |sorted| ensures Canonical(sorted[i].1) {
      assert sorted[i] in multiset(mapped);
      var j :| 0 <= j < |mapped| && mapped[j] == sorted[i];
    }
    assert |sorted| == |multiset(sorted)| == |multiset(mapped)|;
  }

  /** `Utils.json_with_sorted_keys`: the rendering of the canonical value, plus a newline. */
  function JsonWithSortedKeys(render: Json -> string, x: Json): (r: string)
    ensures |r| >= 1 && r[|r| - 1] == '\n'
  {
    render(RecursiveSortHashKeys(x)) + "\n"
  }

  lemma {:induction false} SortedEntriesFixed(es: Entries)
    requires SortedByKey(es)
    ensures SortHashKeys(es) == es
  {
    if es != [] {
      SortedEntriesFixed(es[1..]);
      if |es| > 1 {
        assert !StrLt(es[1].0, es[0].0);
      }
      assert es == [es[0]] + es[1..];
    }
  }

  /** A value whose mappings are all sorted is its own canonical form. */
  lemma {:induction false} CanonicalFixed(x: Json)
    requires Canonical(x)
    ensures RecursiveSortHashKeys(x) == x
    decreases x
  {
    match x
    case JObj(es) =>
      forall i | 0 <= i < |es| ensures RecursiveSortHashKeys(es[i].1) == es[i].1 {
        CanonicalFixed(es[i].1);
      }
      assert SortValues(es) == es;
      SortedEntriesFixed(es);
    case JArr(xs) =>
      forall i | 0 <= i < |xs| ensures RecursiveSortHashKeys(xs[i]) == xs[i] {
        CanonicalFixed(xs[i]);
      }
      assert RecursiveSortHashKeys(x).elems == xs;
    case _ =>
  }

  /** Sorting twice gives what sorting once gives. */
  lemma RecursiveSortIdempotent(x: Json)
    ensures RecursiveSortHashKeys(RecursiveSortHashKeys(x)) == RecursiveSortHashKeys(x)
  {
    CanonicalFixed(RecursiveSortHashKeys(x));
  }

  /** Sorted mappings without repeated keys are determined by their entries. */
  lemma {:induction false} SortedEntriesUnique(s: Entries, t: Entries)
    requires SortedByKey(s) && UniqueKeys(s) && SortedByKey(t) && UniqueKeys(t)
    requires forall e :: e in s <==> e in t
    ensures s == t
  {
    if s != [] && t != [] {
      assert s[0] in t && t[0] in s;
      if s[0] != t[0] {
        var i :| 0 <= i < |s| && s[i] == t[0];
        var j :| 0 <= j < |t| && t[j] == s[0];
        assert !StrLt(s[i].0, s[0].0) && !StrLt(t[j].0, t[0].0);
        StrLtTotal(s[0].0, t[0].0);
        assert false;
      }
      forall e | e in s[1..] ensures e != s[0] {
        var k :| 1 <= k < |s| && s[k] == e;
      }
      forall e | e in t[1..] ensures e != t[0] {
        var k :| 1 <= k < |t| && t[k] == e;
      }
      assert forall e :: e in s <==> e == s[0] || e in s[1..];
      assert forall e :: e in t <==> e == t[0] || e in t[1..];
      SortedEntriesUnique(s[1..], t[1..]);
      assert s == [s[0]] + s[1..] && t == [t[0]] + t[1..];
    } else {
      BothEmpty(s, t);
    }
  }

  lemma BothEmpty(s: Entries, t: Entries)
    requires forall e :: e in s <==> e in t
    ensures s == [] <==> t == []
  {
    if s != [] {
      assert s[0] in t;
    }
    if t != [] {
      assert t[0] in s;
    }
  }

  /**
   * `x` and `y` are the same value up to the insertion order of the keys of
   * their mappings, at every level: mappings without repeated keys, with the
   * same keys and related values under each key; arrays of the same length,
   * related element by element; equal scalars.
   */
  ghost predicate SameUpToKeyOrder(x: Json, y: Json)
    decreases x
  {
    match x
    case JObj(a) =>
      && y.JObj? && UniqueKeys(a) && UniqueKeys(y.entries) && Keys(a) == Keys(y.entries)
      && forall i, j :: 0 <= i < |a| && 0 <= j < |y.entries| && a[i].0 == y.entries[j].0 ==>
           SameUpToKeyOrder(a[i].1, y.entries[j].1)
    case JArr(xs) =>
      && y.JArr? && |xs| == |y.elems|
      && forall i :: 0 <= i < |xs| ==> SameUpToKeyOrder(xs[i], y.elems[i])
    case _ => x == y
  }

  /** Entries under the same key have the same canonical value. */
  ghost predicate SameCanonicalValues(a: Entries, b: Entries)
  {
    forall i, j :: 0 <= i < |a| && 0 <= j < |b| && a[i].0 == b[j].0 ==>
      RecursiveSortHashKeys(a[i].1) == RecursiveSortHashKeys(b[j].1)
  }

  /** Every entry of the sorted, value-sorted `a` is one of the sorted, value-sorted `b`. */
  lemma SortValuesIncluded(a: Entries, b: Entries, y: (string, Json))
    requires Keys(a) == Keys(b) && SameCanonicalValues(a, b)
    requires y in SortHashKeys(SortValues(a))
    ensures y in SortHashKeys(SortValues(b))
  {
    var ma, mb := SortValues(a), SortValues(b);
    assert y in multiset(SortHashKeys(ma));
    assert y in multiset(ma);
    var i :| 0 <= i < |a| && ma[i] == y;
    assert a[i] in a && a[i].0 in Keys(a);
    assert a[i].0 in Keys(b);
    var e :| e in b && e.0 == a[i].0;
    var j :| 0 <= j < |b| && b[j] == e;
    assert mb[j] == y;
    assert y in multiset(mb);
    assert y in multiset(SortHashKeys(mb));
  }

  lemma SortValuesUnique(es: Entries)
    requires UniqueKeys(es)
    ensures UniqueKeys(SortValues(es))
  {
  }

  /** Mappings with the same keys and the same canonical value under each key sort alike. */
  lemma SameCanonicalEntries(a: Entries, b: Entries)
    requires UniqueKeys(a) && UniqueKeys(b) && Keys(a) == Keys(b) && SameCanonicalValues(a, b)
    ensures SortHashKeys(SortValues(a)) == SortHashKeys(SortValues(b))
  {
    var sa, sb := SortHashKeys(SortValues(a)), SortHashKeys(SortValues(b));
    SortHashKeysSorted(SortValues(a));
    SortHashKeysSorted(SortValues(b));
    SortValuesUnique(a);
    SortValuesUnique(b);
    SortHashKeysUnique(SortValues(a));
    SortHashKeysUnique(SortValues(b));
    forall y ensures y in sa <==> y in sb {
      if y in sa {
        SortValuesIncluded(a, b, y);
      }
      if y in sb {
        SortValuesIncluded(b, a, y);
      }
    }
    SortedEntriesUnique(sa, sb);
  }

  /**
   * Two values that differ only in the key insertion order of their mappings,
   * at any level, have the same canonical form.
   */
  lemma {:induction false} ReorderedSameCanonical(x: Json, y: Json)
    requires SameUpToKeyOrder(x, y)
    ensures RecursiveSortHashKeys(x) == RecursiveSortHashKeys(y)
    decreases x
  {
    match x
    case JObj(a) =>
      var b := y.entries;
      forall i, j | 0 <= i < |a| && 0 <= j < |b| && a[i].0 == b[j].0
        ensures RecursiveSortHashKeys(a[i].1) == RecursiveSortHashKeys(b[j].1)
      {
        ReorderedSameCanonical(a[i].1, b[j].1);
      }
      SameCanonicalEntries(a, b);
    case JArr(xs) =>
      forall i | 0 <= i < |xs| ensures RecursiveSortHashKeys(xs[i]) == RecursiveSortHashKeys(y.elems[i]) {
        ReorderedSameCanonical(xs[i], y.elems[i]);
      }
      assert RecursiveSortHashKeys(x).elems == RecursiveSortHashKeys(y).elems;
    case _ =>
  }

  /**
   * Two values that differ only in the key insertion order of their mappings,
   * at any level, render to the same canonical text.
   */
  lemma ReorderedSameText(render: Json -> string, x: Json, y: Json)
    requires SameUpToKeyOrder(x, y)
    ensures JsonWithSortedKeys(render, x) == JsonWithSortedKeys(render, y)
  {
    ReorderedSameCanonical(x, y);
  }
}
