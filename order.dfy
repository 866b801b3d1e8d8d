/**
 * Python's ordering of `str` values and its stable `list.sort(key=...)`, modelled
 * as insertion of each element after every element whose key is not greater.
 */
module Order {

  /** Python's `a < b` on strings: lexicographic by code point, a proper prefix first. */
  predicate LexLess(a: string, b: string)
    decreases |a|
  {
    b != [] && (a == [] || a[0] < b[0] || (a[0] == b[0] && LexLess(a[1..], b[1..])))
  }

  lemma {:induction false} LexLessIrreflexive(a: string)
    ensures !LexLess(a, a)
    decreases |a|
  {
    if a != [] {
      LexLessIrreflexive(a[1..]);
    }
  }

  lemma {:induction false} LexLessTransitive(a: string, b: string, c: string)
    requires LexLess(a, b) && LexLess(b, c)
    ensures LexLess(a, c)
    decreases |a|
  {
    if a != [] && a[0] == b[0] && b[0] == c[0] {
      LexLessTransitive(a[1..], b[1..], c[1..]);
    }
  }

  lemma {:induction false} LexLessTotal(a: string, b: string)
    requires a != b
    ensures LexLess(a, b) || LexLess(b, a)
    decreases |a|
  {
    if a != [] && b != [] && a[0] == b[0] {
      assert a == [a[0]] + a[1..] && b == [b[0]] + b[1..];
      LexLessTotal(a[1..], b[1..]);
    }
  }

  /** No later element has a smaller key than an earlier one. */
  predicate SortedBy<T>(s: seq<T>, key: T -> string)
  {
    forall i, j :: 0 <= i < j < |s| ==> !LexLess(key(s[j]), key(s[i]))
  }

  /** `x` put into `s` just before the first element whose key is greater than x's. */
  function InsertBy<T>(x: T, s: seq<T>, key: T -> string): seq<T>
  {
    if s == [] then [x]
    else if LexLess(key(x), key(s[0])) then [x] + s
    else [s[0]] + InsertBy(x, s[1..], key)
  }

  /** Python's `sorted(s, key=key)`: stable, by the keys' string order. */
  function SortBy<T>(s: seq<T>, key: T -> string): seq<T>
  {
    if s == [] then [] else InsertBy(s[|s| - 1], SortBy(s[..|s| - 1], key), key)
  }

  /** The elements of `s` whose key is `k`, in their order in `s`. */
  function KeyedWith<T>(s: seq<T>, key: T -> string, k: string): seq<T>
  {
    if s == [] then [] else (if key(s[0]) == k then [s[0]] else []) + KeyedWith(s[1..], key, k)
  }

  lemma {:induction false} KeyedWithAppend<T>(a: seq<T>, b: seq<T>, key: T -> string, k: string)
    ensures KeyedWith(a + b, key, k) == KeyedWith(a, key, k) + KeyedWith(b, key, k)
  {
    if a == [] {
      assert a + b == b;
    } else {
      var head := if key(a[0]) == k then [a[0]] else [];
      assert (a + b)[0] == a[0];
      assert (a + b)[1..] == a[1..] + b;
      KeyedWithAppend(a[1..], b, key, k);
      assert KeyedWith(a + b, key, k) == head + KeyedWith(a[1..] + b, key, k);
      assert KeyedWith(a, key, k) == head + KeyedWith(a[1..], key, k);
    }
  }

  lemma {:induction false} KeyedWithAbsent<T>(s: seq<T>, key: T -> string, k: string)
    requires forall i :: 0 <= i < |s| ==> key(s[i]) != k
    ensures KeyedWith(s, key, k) == []
  {
    if s != [] {
      KeyedWithAbsent(s[1..], key, k);
    }
  }

  lemma {:induction false} InsertByMultiset<T>(x: T, s: seq<T>, key: T -> string)
    ensures multiset(InsertBy(x, s, key)) == multiset(s) + multiset{x}
    decreases |s|
  {
    if s != [] && !LexLess(key(x), key(s[0])) {
      InsertByMultiset(x, s[1..], key);
      assert s == [s[0]] + s[1..];
    }
  }

  /** Every key in a sorted sequence is at least the first one. */
  lemma SortedHeadLeast<T>(s: seq<T>, key: T -> string, i: int)
    requires SortedBy(s, key) && 0 <= i < |s|
    ensures !LexLess(key(s[i]), key(s[0]))
  {
    if i == 0 {
      LexLessIrreflexive(key(s[0]));
    }
  }

  lemma {:induction false} InsertBySorted<T>(x: T, s: seq<T>, key: T -> string)
    requires SortedBy(s, key)
    ensures SortedBy(InsertBy(x, s, key), key)
    decreases |s|
  {
    var r := InsertBy(x, s, key);
    if s == [] {
    } else if LexLess(key(x), key(s[0])) {
      forall j | 0 < j < |r| ensures !LexLess(key(r[j]), key(x)) {
        SortedHeadLeast(s, key, j - 1);
        if LexLess(key(s[j - 1]), key(x)) {
          LexLessTransitive(key(s[j - 1]), key(x), key(s[0]));
        }
      }
      assert forall i, j :: 0 < i < j < |r| ==> r[i] == s[i - 1] && r[j] == s[j - 1];
    } else {
      var rest := InsertBy(x, s[1..], key);
      InsertBySorted(x, s[1..], key);
      InsertByMultiset(x, s[1..], key);
      forall j | 0 <= j < |rest| ensures !LexLess(key(rest[j]), key(s[0])) {
        assert rest[j] in multiset(rest);
        if rest[j] != x {
          assert rest[j] in multiset(s[1..]);
          var i :| 0 <= i < |s[1..]| && s[1..][i] == rest[j];
          SortedHeadLeast(s, key, i + 1);
        }
      }
      assert forall i, j :: 0 < i < j < |r| ==> r[i] == rest[i - 1] && r[j] == rest[j - 1];
    }
  }

  lemma {:induction false} InsertByKeyed<T>(x: T, s: seq<T>, key: T -> string, k: string)
    requires SortedBy(s, key)
    ensures KeyedWith(InsertBy(x, s, key), key, k) == KeyedWith(s, key, k) + (if key(x) == k then [x] else [])
    decreases |s|
  {
    if s == [] {
    } else if LexLess(key(x), key(s[0])) {
      assert InsertBy(x, s, key) == [x] + s;
      KeyedWithAppend([x], s, key, k);
      if key(x) == k {
        forall i | 0 <= i < |s| ensures key(s[i]) != k {
          SortedHeadLeast(s, key, i);
        }
        KeyedWithAbsent(s, key, k);
      }
    } else {
      var rest := InsertBy(x, s[1..], key);
      assert InsertBy(x, s, key) == [s[0]] + rest;
      KeyedWithAppend([s[0]], rest, key, k);
      InsertByKeyed(x, s[1..], key, k);
      assert KeyedWith(s, key, k) == KeyedWith([s[0]], key, k) + KeyedWith(s[1..], key, k) by {
        assert s == [s[0]] + s[1..];
        KeyedWithAppend([s[0]], s[1..], key, k);
      }
    }
  }

  /**
   * SortBy is the stable sort: its result is ordered by key, is a permutation of the
   * input, and keeps the relative order of the elements that share a key.
   */
  lemma {:induction false} SortByCorrect<T>(s: seq<T>, key: T -> string)
    ensures var r := SortBy(s, key);
      SortedBy(r, key) && multiset(r) == multiset(s) &&
      forall k :: KeyedWith(r, key, k) == KeyedWith(s, key, k)
  {
    if s != [] {
      var init, last := s[..|s| - 1], s[|s| - 1];
      assert s == init + [last];
      SortByCorrect(init, key);
      InsertBySorted(last, SortBy(init, key), key);
      InsertByMultiset(last, SortBy(init, key), key);
      forall k ensures KeyedWith(SortBy(s, key), key, k) == KeyedWith(s, key, k) {
        InsertByKeyed(last, SortBy(init, key), key, k);
        KeyedWithAppend(init, [last], key, k);
      }
    }
  }

  /** Sorted with pairwise distinct keys means strictly increasing keys. */
  lemma SortedDistinctIsStrict<T>(s: seq<T>, key: T -> string)
    requires SortedBy(s, key)
    requires forall i, j :: 0 <= i < j < |s| ==> key(s[i]) != key(s[j])
    ensures forall i, j :: 0 <= i < j < |s| ==> LexLess(key(s[i]), key(s[j]))
  {
    forall i, j | 0 <= i < j < |s| ensures LexLess(key(s[i]), key(s[j])) {
      LexLessTotal(key(s[i]), key(s[j]));
    }
  }
}
