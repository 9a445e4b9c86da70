/**
 * Python's ordering of strings (lexicographic by code point, a proper prefix
 * first) and `sorted(xs, key=k, reverse=True)`, a stable sort into
 * non-increasing key order, written as an insertion sort.
 */
module Ordering {

  /** Python's `a <= b` on strings. */
  predicate LexLe(a: string, b: string)
  {
    |a| == 0 || (|b| > 0 && (a[0] < b[0] || (a[0] == b[0] && LexLe(a[1..], b[1..]))))
  }

  /** Python's `a < b` on strings. */
  predicate LexLt(a: string, b: string)
  {
    LexLe(a, b) && a != b
  }

  lemma {:induction false} LexLeRefl(a: string)
    ensures LexLe(a, a)
  {
    if |a| > 0 { LexLeRefl(a[1..]); }
  }

  lemma {:induction false} LexLeTotal(a: string, b: string)
    ensures LexLe(a, b) || LexLe(b, a)
  {
    if |a| > 0 && |b| > 0 && a[0] == b[0] { LexLeTotal(a[1..], b[1..]); }
  }

  lemma {:induction false} LexLeAntisym(a: string, b: string)
    requires LexLe(a, b) && LexLe(b, a)
    ensures a == b
  {
    if |a| > 0 && |b| > 0 {
      LexLeAntisym(a[1..], b[1..]);
      assert a == [a[0]] + a[1..] && b == [b[0]] + b[1..];
    }
  }

  lemma {:induction false} LexLeTrans(a: string, b: string, c: string)
    requires LexLe(a, b) && LexLe(b, c)
    ensures LexLe(a, c)
  {
    if |a| > 0 && a[0] == b[0] && b[0] == c[0] { LexLeTrans(a[1..], b[1..], c[1..]); }
  }

  /** `xs` is in non-increasing key order. */
  ghost predicate SortedDesc<T>(xs: seq<T>, key: T -> string)
  {
    forall i, j :: 0 <= i < j < |xs| ==> LexLe(key(xs[j]), key(xs[i]))
  }

  /** The elements of `xs` whose key is `k`, in their order in `xs`. */
  function WithKey<T>(xs: seq<T>, key: T -> string, k: string): seq<T>
  {
    if |xs| == 0 then []
    else (if key(xs[0]) == k then [xs[0]] else []) + WithKey(xs[1..], key, k)
  }

  /** Filtering an extended sequence filters the extension separately. */
  lemma {:induction false} WithKeyAppend<T>(xs: seq<T>, x: T, key: T -> string, k: string)
    ensures WithKey(xs + [x], key, k) == WithKey(xs, key, k) + (if key(x) == k then [x] else [])
  {
    if |xs| > 0 {
      assert (xs + [x])[1..] == xs[1..] + [x];
      WithKeyAppend(xs[1..], x, key, k);
    } else {
      assert ([x])[1..] == [];
    }
  }

  /** The filter keeps exactly the elements with key `k`. */
  lemma {:induction false} WithKeyMembers<T>(xs: seq<T>, key: T -> string, k: string)
    ensures forall y :: y in WithKey(xs, key, k) <==> y in xs && key(y) == k
  {
    if |xs| > 0 {
      WithKeyMembers(xs[1..], key, k);
      assert xs == [xs[0]] + xs[1..];
    }
  }

  /** No element with key `k` means an empty filter. */
  lemma {:induction false} WithKeyNone<T>(xs: seq<T>, key: T -> string, k: string)
    requires forall i :: 0 <= i < |xs| ==> key(xs[i]) != k
    ensures WithKey(xs, key, k) == []
  {
    if |xs| > 0 {
      WithKeyNone(xs[1..], key, k);
    }
  }

  /**
   * Insert `x` into `s` just before the first element whose key is not
   * greater than `x`'s, so that `x` goes ahead of the elements with its key.
   */
  function Insert<T>(x: T, s: seq<T>, key: T -> string): (r: seq<T>)
    ensures multiset(r) == multiset(s) + multiset{x}
  {
    if |s| == 0 || LexLe(key(s[0]), key(x)) then [x] + s
    else
      var r := [s[0]] + Insert(x, s[1..], key);
      assert s == [s[0]] + s[1..];
      r
  }

  /** Python's `sorted(xs, key=key, reverse=True)`. */
  function SortDesc<T>(xs: seq<T>, key: T -> string): (r: seq<T>)
    ensures multiset(r) == multiset(xs)
    ensures |r| == |xs|
  {
    if |xs| == 0 then []
    else
      var r := Insert(xs[0], SortDesc(xs[1..], key), key);
      assert xs == [xs[0]] + xs[1..];
      assert |r| == |multiset(r)|;
      r
  }

  lemma {:induction false} InsertSorted<T>(x: T, s: seq<T>, key: T -> string)
    requires SortedDesc(s, key)
    ensures SortedDesc(Insert(x, s, key), key)
  {
    var r := Insert(x, s, key);
    if |s| == 0 {
    } else if LexLe(key(s[0]), key(x)) {
      forall j | 0 < j < |r| ensures LexLe(key(r[j]), key(r[0])) {
        if j > 1 { LexLeTrans(key(s[j - 1]), key(s[0]), key(x)); }
      }
    } else {
      LexLeTotal(key(s[0]), key(x));
      var t := Insert(x, s[1..], key);
      InsertSorted(x, s[1..], key);
      assert r == [s[0]] + t;
      forall j | 0 < j < |r| ensures LexLe(key(r[j]), key(r[0])) {
        assert r[j] == t[j - 1];
        assert r[j] in multiset(t);
        if r[j] != x {
          assert r[j] in multiset(s[1..]);
          var k :| 0 <= k < |s[1..]| && s[1..][k] == r[j];
          assert s[k + 1] == r[j];
        }
      }
    }
  }

  /** The sort puts its result in non-increasing key order. */
  lemma {:induction false} SortDescSorted<T>(xs: seq<T>, key: T -> string)
    ensures SortedDesc(SortDesc(xs, key), key)
  {
    if |xs| > 0 {
      SortDescSorted(xs[1..], key);
      InsertSorted(xs[0], SortDesc(xs[1..], key), key);
    }
  }

  lemma {:induction false} InsertWithKey<T>(x: T, s: seq<T>, key: T -> string, k: string)
    ensures WithKey(Insert(x, s, key), key, k) ==
            (if key(x) == k then [x] else []) + WithKey(s, key, k)
  {
    if |s| == 0 || LexLe(key(s[0]), key(x)) {
      var r := [x] + s;
      assert r[1..] == s;
    } else {
      if key(s[0]) == key(x) { LexLeRefl(key(x)); }
      InsertWithKey(x, s[1..], key, k);
      var r := [s[0]] + Insert(x, s[1..], key);
      assert r[1..] == Insert(x, s[1..], key);
    }
  }

  /** The sort is stable: the elements that share a key keep their relative order. */
  lemma {:induction false} SortDescStable<T>(xs: seq<T>, key: T -> string, k: string)
    ensures WithKey(SortDesc(xs, key), key, k) == WithKey(xs, key, k)
  {
    if |xs| > 0 {
      SortDescStable(xs[1..], key, k);
      InsertWithKey(xs[0], SortDesc(xs[1..], key), key, k);
    }
  }

  /** A string as its own sort key. */
  function SelfKey(s: string): string
  {
    s
  }

  /** Sorting distinct strings by their own value gives a strictly decreasing sequence. */
  lemma SortDescStrict(xs: seq<string>)
    requires forall i, j :: 0 <= i < j < |xs| ==> xs[i] != xs[j]
    ensures var r := SortDesc(xs, SelfKey);
      forall i, j :: 0 <= i < j < |r| ==> LexLt(r[j], r[i])
  {
    var r := SortDesc(xs, SelfKey);
    SortDescSorted(xs, SelfKey);
    DistinctPermutation(xs, r);
  }

  /** A permutation of a sequence without repetitions has none either. */
  lemma DistinctPermutation<T>(xs: seq<T>, ys: seq<T>)
    requires multiset(xs) == multiset(ys)
    requires forall i, j :: 0 <= i < j < |xs| ==> xs[i] != xs[j]
    ensures forall i, j :: 0 <= i < j < |ys| ==> ys[i] != ys[j]
  {
    forall i, j | 0 <= i < j < |ys| ensures ys[i] != ys[j] {
      if ys[i] == ys[j] {
        var y := ys[i];
        assert multiset(ys)[y] >= 2 by {
          assert ys == ys[..i] + [y] + ys[i + 1..j] + [y] + ys[j + 1..];
        }
        DistinctCount(xs, y);
      }
    }
  }

  lemma {:induction false} DistinctCount<T>(xs: seq<T>, y: T)
    requires forall i, j :: 0 <= i < j < |xs| ==> xs[i] != xs[j]
    ensures multiset(xs)[y] <= 1
  {
    if |xs| > 0 {
      DistinctCount(xs[1..], y);
      assert xs == [xs[0]] + xs[1..];
      if xs[0] == y { assert y !in xs[1..]; }
    }
  }
}
