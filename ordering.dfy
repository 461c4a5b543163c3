/**
 * Python's ordering of strings (code point by code point, a proper prefix
 * first) and `sorted()` over a list or a set of strings.
 */
module Ordering {

  /** `a <= b` on Python strings. */
  predicate Below(a: string, b: string)
  {
    a == [] || (b != [] && (a[0] < b[0] || (a[0] == b[0] && Below(a[1..], b[1..]))))
  }

  lemma {:induction false} BelowTotal(a: string, b: string)
    ensures Below(a, b) || Below(b, a)
  {
    if a != [] && b != [] && a[0] == b[0] {
      BelowTotal(a[1..], b[1..]);
    }
  }

  lemma {:induction false} BelowAntisymmetric(a: string, b: string)
    requires Below(a, b) && Below(b, a)
    ensures a == b
  {
    assert a != [] ==> a[0] in b;
    assert b != [] ==> b[0] in a;
    if a != [] && b != [] {
      BelowAntisymmetric(a[1..], b[1..]);
      assert a == [a[0]] + a[1..] && b == [b[0]] + b[1..];
    }
  }

  lemma {:induction false} BelowTransitive(a: string, b: string, c: string)
    requires Below(a, b) && Below(b, c)
    ensures Below(a, c)
  {
    if a != [] && b != [] && c != [] && a[0] == b[0] && b[0] == c[0] {
      BelowTransitive(a[1..], b[1..], c[1..]);
    }
  }

  predicate Sorted(s: seq<string>)
  {
    forall i, j :: 0 <= i < j < |s| ==> Below(s[i], s[j])
  }

  predicate Distinct<T(==)>(s: seq<T>)
  {
    forall i, j :: 0 <= i < j < |s| ==> s[i] != s[j]
  }

  function Insert(x: string, s: seq<string>): seq<string>
  {
    if s == [] then [x]
    else if Below(x, s[0]) then [x] + s
    else [s[0]] + Insert(x, s[1..])
  }

  lemma {:induction false} InsertElements(x: string, s: seq<string>)
    ensures multiset(Insert(x, s)) == multiset(s) + multiset{x}
  {
    if s != [] && !Below(x, s[0]) {
      InsertElements(x, s[1..]);
      assert s == [s[0]] + s[1..];
    }
  }

  lemma {:induction false} InsertSorted(x: string, s: seq<string>)
    requires Sorted(s)
    ensures Sorted(Insert(x, s))
  {
    var r := Insert(x, s);
    if s == [] {
    } else if Below(x, s[0]) {
      forall i, j | 0 <= i < j < |r| ensures Below(r[i], r[j]) {
        if i == 0 && j > 1 {
          BelowTransitive(x, s[0], s[j - 1]);
        }
      }
    } else {
      BelowTotal(x, s[0]);
      var rest := Insert(x, s[1..]);
      InsertSorted(x, s[1..]);
      InsertElements(x, s[1..]);
      forall j | 0 <= j < |rest| ensures Below(s[0], rest[j]) {
        assert rest[j] in multiset(rest);
        if rest[j] != x {
          assert rest[j] in s[1..];
        }
      }
    }
  }

  /** `sorted(s)`: an ordered permutation of `s`. */
  function Sort(s: seq<string>): (r: seq<string>)
    ensures Sorted(r)
    ensures multiset(r) == multiset(s)
  {
    if s == [] then []
    else
      assert s == s[..|s| - 1] + [s[|s| - 1]];
      InsertSorted(s[|s| - 1], Sort(s[..|s| - 1]));
      InsertElements(s[|s| - 1], Sort(s[..|s| - 1]));
      Insert(s[|s| - 1], Sort(s[..|s| - 1]))
  }

  lemma BelowReflexive(a: string)
    ensures Below(a, a)
  {
  }

  /** Two sorted lists without repeats that hold the same strings are the same list. */
  lemma {:induction false} SortedUnique(a: seq<string>, b: seq<string>)
    requires Sorted(a) && Sorted(b) && Distinct(a) && Distinct(b)
    requires forall x :: x in a <==> x in b
    ensures a == b
  {
    assert a != [] ==> a[0] in b;
    assert b != [] ==> b[0] in a;
    if a != [] && b != [] {
      assert a[0] in b && b[0] in a;
      var i :| 0 <= i < |b| && b[i] == a[0];
      var j :| 0 <= j < |a| && a[j] == b[0];
      assert Below(b[0], a[0]) by { BelowReflexive(a[0]); }
      assert Below(a[0], b[0]) by { BelowReflexive(b[0]); }
      BelowAntisymmetric(a[0], b[0]);
      assert a == [a[0]] + a[1..] && b == [b[0]] + b[1..];
      forall x ensures x in a[1..] <==> x in b[1..] {
        if x in a[1..] {
          var k :| 1 <= k < |a| && a[k] == x;
          assert x in a;
          assert x in b;
          var m :| 0 <= m < |b| && b[m] == x;
          assert m != 0;
          assert b[1..][m - 1] == x;
        }
        if x in b[1..] {
          var k :| 1 <= k < |b| && b[k] == x;
          assert x in b;
          assert x in a;
          var m :| 0 <= m < |a| && a[m] == x;
          assert m != 0;
          assert a[1..][m - 1] == x;
        }
      }
      SortedUnique(a[1..], b[1..]);
      assert a == [a[0]] + a[1..] && b == [b[0]] + b[1..];
    }
  }

  /** `sorted(s)` for a set of strings: its members in order, each once. */
  method SortSet(s: set<string>) returns (r: seq<string>)
    ensures Sorted(r) && Distinct(r)
    ensures forall x :: x in r <==> x in s
  {
    var items: seq<string> := [];
    var rest := s;
    while rest != {}
      invariant forall x :: x in items ==> x !in rest
      invariant forall x :: x in s <==> x in rest || x in items
      invariant Distinct(items)
      decreases rest
    {
      var x :| x in rest;
      items := items + [x];
      rest := rest - {x};
    }
    r := Sort(items);
    forall x ensures x in r <==> x in items {
      assert x in r <==> x in multiset(r);
    }
    PermutationDistinct(items, r);
  }

  lemma PermutationDistinct(a: seq<string>, b: seq<string>)
    requires Distinct(a) && multiset(a) == multiset(b)
    ensures Distinct(b)
  {
    forall i, j | 0 <= i < j < |b| ensures b[i] != b[j] {
      if b[i] == b[j] {
        assert b == b[..i] + [b[i]] + b[i + 1..j] + [b[j]] + b[j + 1..];
        assert multiset(b)[b[i]] >= 2;
        DistinctCount(a, b[i]);
      }
    }
  }

  lemma {:induction false} DistinctCount(s: seq<string>, x: string)
    requires Distinct(s)
    ensures multiset(s)[x] <= 1
  {
    if s != [] {
      assert s == [s[0]] + s[1..];
      DistinctCount(s[1..], x);
      assert s[0] !in s[1..];
    }
  }

  /**
   * Appends to `acc` each of `items` not yet present, in order: the effect of
   * `if key not in keys: keys.append(key)` over `items`, and of assigning
   * `items` in turn as keys of an ordered dictionary.
   */
  function AppendMissing(acc: seq<string>, items: seq<string>): (r: seq<string>)
    ensures acc <= r
    ensures forall k :: k in r <==> k in acc || k in items
    ensures forall k :: k in r[|acc|..] ==> k !in acc
    ensures Distinct(acc) ==> Distinct(r)
  {
    if items == [] then acc
    else
      var front := AppendMissing(acc, items[..|items| - 1]);
      var last := items[|items| - 1];
      assert forall k :: k in items[..|items| - 1] ==> k in items;
      assert items == items[..|items| - 1] + [last];
      if last in front then front
      else
        assert (front + [last])[|acc|..] == front[|acc|..] + [last];
        front + [last]
  }

  /** One more item: appended exactly when it is not there yet. */
  lemma AppendMissingStep(acc: seq<string>, items: seq<string>, i: nat)
    requires i < |items|
    ensures AppendMissing(acc, items[..i + 1]) ==
      var front := AppendMissing(acc, items[..i]);
      if items[i] in front then front else front + [items[i]]
  {
    assert items[..i + 1][..i] == items[..i];
  }

  /** Appending more items never moves what is already there. */
  lemma {:induction false} AppendMissingPrefix(acc: seq<string>, items: seq<string>, n: nat)
    requires n <= |items|
    ensures AppendMissing(acc, items[..n]) <= AppendMissing(acc, items)
    decreases |items| - n
  {
    if n < |items| {
      AppendMissingPrefix(acc, items[..|items| - 1], n);
      assert items[..|items| - 1][..n] == items[..n];
    } else {
      assert items[..n] == items;
    }
  }

  /** Items already distinct and new to `acc` are appended as they are. */
  lemma {:induction false} AppendMissingOfDistinct(acc: seq<string>, items: seq<string>)
    requires Distinct(items)
    requires forall k :: k in items ==> k !in acc
    ensures AppendMissing(acc, items) == acc + items
  {
    if items != [] {
      var front := items[..|items| - 1];
      var last := items[|items| - 1];
      assert Distinct(front) && forall k :: k in front ==> k !in acc by {
        assert forall k :: k in front ==> k in items;
      }
      AppendMissingOfDistinct(acc, front);
      assert last !in acc + front by {
        assert last in items;
        forall i | 0 <= i < |front| ensures front[i] != last {
          assert front[i] == items[i];
        }
      }
      assert items == front + [last];
      assert acc + front + [last] == acc + items;
    }
  }

  /** Items all present already add nothing. */
  lemma {:induction false} AppendMissingNothingNew(acc: seq<string>, items: seq<string>)
    requires forall k :: k in items ==> k in acc
    ensures AppendMissing(acc, items) == acc
  {
    if items != [] {
      assert forall k :: k in items[..|items| - 1] ==> k in items;
      AppendMissingNothingNew(acc, items[..|items| - 1]);
    }
  }

  /** `r` is `s` with some elements left out and the others kept in their order. */
  predicate Subsequence(r: seq<string>, s: seq<string>)
    decreases |s|
  {
    if r == [] then true
    else if s == [] then false
    else if r[0] == s[0] then Subsequence(r[1..], s[1..])
    else Subsequence(r, s[1..])
  }

  /** Leaving out a new last element keeps a subsequence. */
  lemma {:induction false} SubsequenceSkipLast(r: seq<string>, s: seq<string>, x: string)
    requires Subsequence(r, s)
    ensures Subsequence(r, s + [x])
    decreases |s|
  {
    if r != [] {
      assert (s + [x])[0] == s[0] && (s + [x])[1..] == s[1..] + [x];
      if r[0] == s[0] {
        SubsequenceSkipLast(r[1..], s[1..], x);
      } else {
        SubsequenceSkipLast(r, s[1..], x);
      }
    }
  }

  /** Keeping a new last element keeps a subsequence. */
  lemma {:induction false} SubsequenceKeepLast(r: seq<string>, s: seq<string>, x: string)
    requires Subsequence(r, s)
    ensures Subsequence(r + [x], s + [x])
    decreases |s|
  {
    if s == [] {
      assert r == [] && r + [x] == s + [x];
    } else {
      assert (s + [x])[0] == s[0] && (s + [x])[1..] == s[1..] + [x];
      if r == [] {
        if s[0] != x {
          SubsequenceKeepLast([], s[1..], x);
        }
      } else if r[0] == s[0] {
        assert (r + [x])[1..] == r[1..] + [x];
        SubsequenceKeepLast(r[1..], s[1..], x);
      } else {
        SubsequenceKeepLast(r, s[1..], x);
      }
    }
  }

  /** The position of the first occurrence of `x` in `s`. */
  function FirstIndex(s: seq<string>, x: string): (r: nat)
    requires x in s
    ensures r < |s| && s[r] == x
    ensures forall k :: 0 <= k < r ==> s[k] != x
  {
    if s[0] == x then 0 else FirstIndex(s[1..], x) + 1
  }

  /** A string occurring in a prefix first occurs there. */
  lemma FirstIndexPrefix(s: seq<string>, n: nat, x: string)
    requires n <= |s| && x in s[..n]
    ensures FirstIndex(s, x) == FirstIndex(s[..n], x)
  {
    var p := FirstIndex(s[..n], x);
    assert forall k :: 0 <= k <= p ==> s[k] == s[..n][k];
  }

  /**
   * The appended keys come in the order of their first occurrence among
   * the items: of two appended keys, the earlier one occurs first.
   */
  lemma {:induction false} AppendMissingOrder(acc: seq<string>, items: seq<string>, i: nat, j: nat)
    requires i < j < |AppendMissing(acc, items)| - |acc|
    ensures var r := AppendMissing(acc, items);
      r[|acc| + i] in items && r[|acc| + j] in items &&
      FirstIndex(items, r[|acc| + i]) < FirstIndex(items, r[|acc| + j])
  {
    var r := AppendMissing(acc, items);
    var n := |items| - 1;
    var front := AppendMissing(acc, items[..n]);
    var last := items[n];
    assert items == items[..n] + [last];
    var a := r[|acc| + i];
    var b := r[|acc| + j];
    assert a in r[|acc|..] && b in r[|acc|..];
    if |acc| + j < |front| {
      assert front[|acc| + i] == a && front[|acc| + j] == b;
      AppendMissingOrder(acc, items[..n], i, j);
      FirstIndexPrefix(items, n, a);
      FirstIndexPrefix(items, n, b);
    } else {
      assert r == front + [last] && b == last;
      assert a in front[|acc|..];
      assert a in items[..n];
      FirstIndexPrefix(items, n, a);
      assert b !in items[..n];
      assert forall k :: 0 <= k < n ==> items[k] == items[..n][k];
    }
  }
}
