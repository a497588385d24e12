/**
 * Lexicographic order on strings (Ruby's `String#<=>` compares character by
 * character) and sorted sequences of identifiers, as produced by
 * `sort_by {|item| item.chef_id }` and `items_to_compare.keys.sort`.
 */
module Strings {

  /** `a` sorts strictly before `b`. */
  predicate StrLt(a: string, b: string)
  {
    if a == [] then b != []
    else if b == [] then false
    else if a[0] < b[0] then true
    else a[0] == b[0] && StrLt(a[1..], b[1..])
  }

  lemma {:induction false} StrLtIrreflexive(a: string)
    ensures !StrLt(a, a)
  {
    if a != [] {
      StrLtIrreflexive(a[1..]);
    }
  }

  lemma {:induction false} StrLtTransitive(a: string, b: string, c: string)
    requires StrLt(a, b) && StrLt(b, c)
    ensures StrLt(a, c)
  {
    if a != [] && b != [] && c != [] && a[0] == b[0] && b[0] == c[0] {
      StrLtTransitive(a[1..], b[1..], c[1..]);
    }
  }

  lemma {:induction false} StrLtTotal(a: string, b: string)
    ensures a == b || StrLt(a, b) || StrLt(b, a)
  {
    if a != [] && b != [] && a[0] == b[0] {
      StrLtTotal(a[1..], b[1..]);
      if a[1..] == b[1..] {
        assert a == [a[0]] + a[1..] && b == [b[0]] + b[1..];
      }
    }
  }

  lemma StrLtAsymmetric(a: string, b: string)
    requires StrLt(a, b)
    ensures !StrLt(b, a)
  {
    if StrLt(b, a) {
      StrLtTransitive(a, b, a);
      StrLtIrreflexive(a);
    }
  }

  /** The elements of a sequence, as a set. */
  function Elems<T>(s: seq<T>): set<T>
  {
    set x | x in s
  }

  lemma ElemsEmpty<T>(s: seq<T>)
    ensures Elems(s) == {} <==> s == []
  {
    if s != [] {
      assert s[0] in Elems(s);
    }
  }

  /** Every element strictly before every later one: sorted and duplicate-free. */
  ghost predicate StrictlySorted(s: seq<string>)
  {
    forall i, j :: 0 <= i < j < |s| ==> StrLt(s[i], s[j])
  }

  /** Extending a prefix by one element adds that element. */
  lemma ElemsSnoc<T>(s: seq<T>, i: int)
    requires 0 <= i < |s|
    ensures Elems(s[..i + 1]) == Elems(s[..i]) + {s[i]}
  {
    assert s[..i + 1] == s[..i] + [s[i]];
  }

  /** No element of a strictly sorted sequence occurs before its own position. */
  lemma SortedNotBefore(s: seq<string>, i: int)
    requires StrictlySorted(s) && 0 <= i < |s|
    ensures s[i] !in s[..i]
  {
    if s[i] in s[..i] {
      var k :| 0 <= k < i && s[k] == s[i];
      StrLtIrreflexive(s[i]);
    }
  }

  /** The elements before position `i` of a strictly sorted sequence are exactly those below `s[i]`. */
  lemma SortedPrefix(s: seq<string>, i: int)
    requires StrictlySorted(s) && 0 <= i < |s|
    ensures Elems(s[..i]) == set x | x in Elems(s) && StrLt(x, s[i])
  {
    forall x | x in Elems(s) && StrLt(x, s[i]) ensures x in Elems(s[..i]) {
      var k :| 0 <= k < |s| && s[k] == x;
      if k == i {
        StrLtIrreflexive(x);
      } else if k > i {
        StrLtAsymmetric(s[i], x);
      }
    }
  }

  /** Inserts `x` into the sorted `s` in front of the first element not below it. */
  function Insert(x: string, s: seq<string>): (r: seq<string>)
    requires StrictlySorted(s) && x !in s
    ensures StrictlySorted(r)
    ensures Elems(r) == Elems(s) + {x} && |r| == |s| + 1
  {
    if s == [] then [x]
    else if StrLt(x, s[0]) then
      assert forall j :: 0 < j < |s| ==> StrLt(x, s[j]) by {
        forall j | 0 < j < |s| ensures StrLt(x, s[j]) { StrLtTransitive(x, s[0], s[j]); }
      }
      [x] + s
    else
      StrLtTotal(x, s[0]);
      var t := Insert(x, s[1..]);
      assert forall y :: y in t ==> StrLt(s[0], y) by {
        forall y | y in t ensures StrLt(s[0], y) {
          assert y in Elems(t);
          if y != x { assert y in Elems(s[1..]); }
        }
      }
      [s[0]] + t
  }

  /** Two strictly sorted sequences with the same elements are the same sequence. */
  lemma {:induction false} StrictlySortedUnique(s: seq<string>, t: seq<string>)
    requires StrictlySorted(s) && StrictlySorted(t) && Elems(s) == Elems(t)
    ensures s == t
  {
    if s != [] && t != [] {
      assert s[0] in Elems(t) && t[0] in Elems(s);
      if s[0] != t[0] {
        var i :| 0 <= i < |s| && s[i] == t[0];
        var j :| 0 <= j < |t| && t[j] == s[0];
        assert StrLt(s[0], s[i]) && StrLt(t[0], t[j]);
        StrLtAsymmetric(s[0], t[0]);
        assert false;
      }
      assert Elems(s[1..]) == Elems(s) - {s[0]} by {
        forall y | y in Elems(s[1..]) ensures y != s[0] {
          var k :| 1 <= k < |s| && s[k] == y;
          StrLtIrreflexive(y);
        }
      }
      assert Elems(t[1..]) == Elems(t) - {t[0]} by {
        forall y | y in Elems(t[1..]) ensures y != t[0] {
          var k :| 1 <= k < |t| && t[k] == y;
          StrLtIrreflexive(y);
        }
      }
      StrictlySortedUnique(s[1..], t[1..]);
      assert s == [s[0]] + s[1..] && t == [t[0]] + t[1..];
    } else {
      ElemsEmpty(s);
      ElemsEmpty(t);
    }
  }

  /** The identifiers of `ids`, in ascending order. */
  method SortedIds(ids: set<string>) returns (r: seq<string>)
    ensures StrictlySorted(r)
    ensures Elems(r) == ids && |r| == |ids|
  {
    r := [];
    var rest := ids;
    while rest != {}
      invariant StrictlySorted(r)
      invariant Elems(r) + rest == ids && Elems(r) !! rest
      invariant |r| + |rest| == |ids|
      decreases |rest|
    {
      var x :| x in rest;
      r := Insert(x, r);
      rest := rest - {x};
    }
  }

  /** `xs.join(sep)`. */
  function JoinWith(xs: seq<string>, sep: string): string
  {
    if xs == [] then [] else if |xs| == 1 then xs[0] else xs[0] + sep + JoinWith(xs[1..], sep)
  }
}
