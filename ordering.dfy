/**
 * Orders used by pandas `groupby`, which by default lists its groups in
 * ascending key order: strict total orders, strictly sorted sequences, the
 * sorted list of distinct keys, and Python's `<` on `str`.
 */
module Ordering {

  ghost predicate StrictTotalOrder<K(!new)>(less: (K, K) -> bool)
  {
    && (forall a :: !less(a, a))
    && (forall a, b, c :: less(a, b) && less(b, c) ==> less(a, c))
    && (forall a, b :: a != b ==> less(a, b) || less(b, a))
  }

  /** Every element is below every later one: sorted and without duplicates. */
  ghost predicate StrictlySorted<K>(s: seq<K>, less: (K, K) -> bool)
  {
    forall i, j :: 0 <= i < j < |s| ==> less(s[i], s[j])
  }

  /** Puts `k` into the sorted list `s`, unless it is there already. */
  function Insert<K(==)>(s: seq<K>, k: K, less: (K, K) -> bool): seq<K>
  {
    if s == [] then [k]
    else if s[0] == k then s
    else if less(k, s[0]) then [k] + s
    else [s[0]] + Insert(s[1..], k, less)
  }

  /** The distinct keys of `ks` in ascending order: the group keys of a `groupby`. */
  function SortedKeys<K(==)>(ks: seq<K>, less: (K, K) -> bool): seq<K>
  {
    if ks == [] then [] else Insert(SortedKeys(ks[..|ks| - 1], less), ks[|ks| - 1], less)
  }

  lemma {:induction false} InsertKeepsSorted<K(!new)>(s: seq<K>, k: K, less: (K, K) -> bool)
    requires StrictTotalOrder(less)
    requires StrictlySorted(s, less)
    ensures StrictlySorted(Insert(s, k, less), less)
    ensures forall x :: x in Insert(s, k, less) <==> x == k || x in s
  {
    if s == [] {
    } else if s[0] == k {
    } else if less(k, s[0]) {
      var r := [k] + s;
      forall i, j | 0 <= i < j < |r| ensures less(r[i], r[j]) {
        if i == 0 && j > 1 {
          assert less(k, s[0]) && less(s[0], s[j - 1]);
        }
      }
    } else {
      assert less(s[0], k);
      var tail := Insert(s[1..], k, less);
      assert StrictlySorted(s[1..], less) by {
        forall i, j | 0 <= i < j < |s[1..]| ensures less(s[1..][i], s[1..][j]) {
          assert s[1..][i] == s[i + 1] && s[1..][j] == s[j + 1];
        }
      }
      InsertKeepsSorted(s[1..], k, less);
      var r := [s[0]] + tail;
      forall i, j | 0 <= i < j < |r| ensures less(r[i], r[j]) {
        if i == 0 {
          assert r[j] in tail;
          assert r[j] == k || r[j] in s[1..];
          if r[j] != k {
            var m :| 0 <= m < |s[1..]| && s[1..][m] == r[j];
            assert s[m + 1] == r[j];
          }
        } else {
          assert r[i] == tail[i - 1] && r[j] == tail[j - 1];
        }
      }
      forall x ensures x in r <==> x == k || x in s {
        assert x in s <==> x == s[0] || x in s[1..];
      }
    }
  }

  lemma {:induction false} SortedKeysSpec<K(!new)>(ks: seq<K>, less: (K, K) -> bool)
    requires StrictTotalOrder(less)
    ensures StrictlySorted(SortedKeys(ks, less), less)
    ensures forall x :: x in SortedKeys(ks, less) <==> x in ks
  {
    if ks != [] {
      var init := ks[..|ks| - 1];
      SortedKeysSpec(init, less);
      InsertKeepsSorted(SortedKeys(init, less), ks[|ks| - 1], less);
      assert ks == init + [ks[|ks| - 1]];
      forall x ensures x in ks <==> x in init || x == ks[|ks| - 1] {
      }
    }
  }

  /** Python's `<` on `str`: code point by code point, a proper prefix first. */
  predicate StringLess(a: string, b: string)
  {
    if |a| == 0 then |b| > 0
    else if |b| == 0 then false
    else if a[0] != b[0] then a[0] < b[0]
    else StringLess(a[1..], b[1..])
  }

  lemma {:induction false} StringLessIrreflexive(a: string)
    ensures !StringLess(a, a)
  {
    if |a| > 0 {
      StringLessIrreflexive(a[1..]);
    }
  }

  lemma {:induction false} StringLessTransitive(a: string, b: string, c: string)
    requires StringLess(a, b) && StringLess(b, c)
    ensures StringLess(a, c)
  {
    if |a| > 0 && |b| > 0 && |c| > 0 && a[0] == b[0] && b[0] == c[0] {
      StringLessTransitive(a[1..], b[1..], c[1..]);
    }
  }

  lemma {:induction false} StringLessTotal(a: string, b: string)
    requires a != b
    ensures StringLess(a, b) || StringLess(b, a)
  {
    if |a| > 0 && |b| > 0 && a[0] == b[0] {
      assert a == [a[0]] + a[1..] && b == [b[0]] + b[1..];
      StringLessTotal(a[1..], b[1..]);
    }
  }

  lemma StringLessIsStrictTotalOrder()
    ensures StrictTotalOrder(StringLess)
  {
    forall a ensures !StringLess(a, a) {
      StringLessIrreflexive(a);
    }
    forall a, b, c | StringLess(a, b) && StringLess(b, c) ensures StringLess(a, c) {
      StringLessTransitive(a, b, c);
    }
    forall a, b | a != b ensures StringLess(a, b) || StringLess(b, a) {
      StringLessTotal(a, b);
    }
  }

  /** `<` on integers, as a value that `SortedKeys` can take. */
  predicate IntLess(a: int, b: int)
  {
    a < b
  }

  lemma IntLessIsStrictTotalOrder()
    ensures StrictTotalOrder(IntLess)
  {
  }
}
