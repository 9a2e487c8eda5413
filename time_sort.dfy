/**
 * `Array.prototype.sort` with the comparator `(a, b) => a.time.localeCompare(b.time)`.
 * The library sort is stable; it is modelled by a stable insertion sort that
 * takes the elements left to right and puts each after every element whose
 * key does not collate after its own.
 */
module TimeSort {
  import opened Clock

  /** No element's key collates before the key of an element earlier in the list. */
  ghost predicate SortedBy<T>(s: seq<T>, key: T -> string) {
    forall i, j :: 0 <= i < j < |s| ==> !CollatesBefore(key(s[j]), key(s[i]))
  }

  /** The elements of `s` whose key is `k`, in their order in `s`. */
  function WithKey<T>(s: seq<T>, key: T -> string, k: string): seq<T> {
    if s == [] then [] else WithKey(s[..|s| - 1], key, k) + (if key(s[|s| - 1]) == k then [s[|s| - 1]] else [])
  }

  function InsertBy<T>(s: seq<T>, x: T, key: T -> string): seq<T> {
    if s == [] then [x]
    else if CollatesBefore(key(x), key(s[|s| - 1])) then InsertBy(s[..|s| - 1], x, key) + [s[|s| - 1]]
    else s + [x]
  }

  function SortBy<T>(s: seq<T>, key: T -> string): seq<T> {
    if s == [] then [] else InsertBy(SortBy(s[..|s| - 1], key), s[|s| - 1], key)
  }

  lemma {:induction false} InsertPermutes<T>(s: seq<T>, x: T, key: T -> string)
    ensures multiset(InsertBy(s, x, key)) == multiset(s) + multiset{x}
  {
    if s != [] && CollatesBefore(key(x), key(s[|s| - 1])) {
      InsertPermutes(s[..|s| - 1], x, key);
      assert s == s[..|s| - 1] + [s[|s| - 1]];
    }
  }

  lemma {:induction false} SortedAppend<T>(s: seq<T>, x: T, key: T -> string)
    requires SortedBy(s, key)
    requires forall e :: e in s ==> !CollatesBefore(key(x), key(e))
    ensures SortedBy(s + [x], key)
  {
    var r := s + [x];
    forall i, j | 0 <= i < j < |r| ensures !CollatesBefore(key(r[j]), key(r[i])) {
      if j == |s| { assert r[i] in s; }
    }
  }

  lemma {:induction false} InsertSorted<T>(s: seq<T>, x: T, key: T -> string)
    requires SortedBy(s, key)
    ensures SortedBy(InsertBy(s, x, key), key)
  {
    if s == [] {
    } else {
      var init, last := s[..|s| - 1], s[|s| - 1];
      assert s == init + [last];
      if CollatesBefore(key(x), key(last)) {
        InsertSorted(init, x, key);
        InsertPermutes(init, x, key);
        forall e | e in InsertBy(init, x, key) ensures !CollatesBefore(key(last), key(e)) {
          assert e in multiset(init) + multiset{x};
          if e == x {
            if CollatesBefore(key(last), key(x)) {
              CollatesTransitive(key(x), key(last), key(x));
              CollatesIrreflexive(key(x));
            }
          } else {
            assert e in init;
            var i :| 0 <= i < |init| && init[i] == e;
            assert s[i] == e;
          }
        }
        SortedAppend(InsertBy(init, x, key), last, key);
      } else {
        forall e | e in s ensures !CollatesBefore(key(x), key(e)) {
          var i :| 0 <= i < |s| && s[i] == e;
          if CollatesBefore(key(x), key(e)) {
            if i < |s| - 1 {
              assert !CollatesBefore(key(last), key(e));
              if key(last) == key(e) {
              } else {
                CollatesTotal(key(last), key(e));
                CollatesTransitive(key(x), key(e), key(last));
              }
            }
          }
        }
        SortedAppend(s, x, key);
      }
    }
  }

  /** The sort returns its input, ordered by key. */
  lemma {:induction false} SortSortsAndPermutes<T>(s: seq<T>, key: T -> string)
    ensures SortedBy(SortBy(s, key), key)
    ensures multiset(SortBy(s, key)) == multiset(s)
  {
    if s != [] {
      var init := s[..|s| - 1];
      SortSortsAndPermutes(init, key);
      InsertSorted(SortBy(init, key), s[|s| - 1], key);
      InsertPermutes(SortBy(init, key), s[|s| - 1], key);
      assert s == init + [s[|s| - 1]];
    }
  }

  lemma {:induction false} WithKeyAppend<T>(s: seq<T>, x: T, key: T -> string, k: string)
    ensures WithKey(s + [x], key, k) == WithKey(s, key, k) + (if key(x) == k then [x] else [])
  {
    assert (s + [x])[..|s|] == s;
  }

  lemma {:induction false} InsertStable<T>(s: seq<T>, x: T, key: T -> string, k: string)
    ensures WithKey(InsertBy(s, x, key), key, k) == WithKey(s, key, k) + (if key(x) == k then [x] else [])
  {
    if s == [] {
      WithKeyAppend([], x, key, k);
      assert [] + [x] == [x];
    } else {
      var init, last := s[..|s| - 1], s[|s| - 1];
      assert s == init + [last];
      if CollatesBefore(key(x), key(last)) {
        var xs := if key(x) == k then [x] else [];
        var ls := if key(last) == k then [last] else [];
        assert InsertBy(s, x, key) == InsertBy(init, x, key) + [last];
        InsertStable(init, x, key, k);
        WithKeyAppend(InsertBy(init, x, key), last, key, k);
        WithKeyAppend(init, last, key, k);
        if key(x) == k && key(last) == k {
          CollatesIrreflexive(k);
        }
        assert xs == [] || ls == [];
        calc {
          WithKey(InsertBy(s, x, key), key, k);
          WithKey(InsertBy(init, x, key), key, k) + ls;
          (WithKey(init, key, k) + xs) + ls;
          (WithKey(init, key, k) + ls) + xs;
          WithKey(s, key, k) + xs;
        }
      } else {
        assert InsertBy(s, x, key) == s + [x];
        WithKeyAppend(s, x, key, k);
      }
    }
  }

  /** Stability: elements with equal keys keep their relative order. */
  lemma {:induction false} SortStable<T>(s: seq<T>, key: T -> string, k: string)
    ensures WithKey(SortBy(s, key), key, k) == WithKey(s, key, k)
  {
    if s != [] {
      SortStable(s[..|s| - 1], key, k);
      InsertStable(SortBy(s[..|s| - 1], key), s[|s| - 1], key, k);
    }
  }
}
