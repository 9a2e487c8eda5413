/** `Array.prototype.filter` and its laws, shared by every list operation of the model. */
module Seqs {
  import opened Wrappers


  /** The elements of `s` that satisfy `p`, in their original order. */
  function Filter<T>(s: seq<T>, p: T -> bool): (r: seq<T>)
    ensures |r| <= |s|
  {
    if s == [] then [] else (if p(s[0]) then [s[0]] else []) + Filter(s[1..], p)
  }

  /** Every kept element passes and comes from `s`; every passing element of `s` is kept. */
  lemma {:induction false} FilterProperties<T>(s: seq<T>, p: T -> bool)
    ensures forall i :: 0 <= i < |Filter(s, p)| ==> Filter(s, p)[i] in s && p(Filter(s, p)[i])
    ensures forall i :: 0 <= i < |s| && p(s[i]) ==> s[i] in Filter(s, p)
  {
    if s != [] {
      FilterProperties(s[1..], p);
      var rest := Filter(s[1..], p);
      assert Filter(s, p) == (if p(s[0]) then [s[0]] else []) + rest;
      forall i | 0 <= i < |s| && p(s[i]) ensures s[i] in Filter(s, p) {
        if i > 0 { assert s[i] == s[1..][i - 1]; }
      }
      forall i | 0 <= i < |Filter(s, p)| ensures Filter(s, p)[i] in s && p(Filter(s, p)[i]) {
        if !p(s[0]) || i > 0 {
          var k := if p(s[0]) then i - 1 else i;
          assert Filter(s, p)[i] == rest[k];
          assert rest[k] in s[1..];
        }
      }
    }
  }

  /** Membership in a filtered list, element-wise. */
  lemma {:induction false} FilterMember<T>(s: seq<T>, p: T -> bool, x: T)
    ensures x in Filter(s, p) <==> x in s && p(x)
  {
    FilterProperties(s, p);
    if x in s && p(x) {
      var i :| 0 <= i < |s| && s[i] == x;
    }
    if x in Filter(s, p) {
      var i :| 0 <= i < |Filter(s, p)| && Filter(s, p)[i] == x;
    }
  }

  lemma {:induction false} FilterAppend<T>(a: seq<T>, b: seq<T>, p: T -> bool)
    ensures Filter(a + b, p) == Filter(a, p) + Filter(b, p)
  {
    if a != [] {
      assert (a + b)[0] == a[0];
      assert (a + b)[1..] == a[1..] + b;
      FilterAppend(a[1..], b, p);
      var head := if p(a[0]) then [a[0]] else [];
      assert Filter(a + b, p) == head + (Filter(a[1..], p) + Filter(b, p));
      assert Filter(a, p) == head + Filter(a[1..], p);
    } else {
      assert a + b == b;
    }
  }

  /** Filtering with a predicate every element satisfies keeps the whole list. */
  lemma {:induction false} FilterKeepsAll<T>(s: seq<T>, p: T -> bool)
    requires forall x :: x in s ==> p(x)
    ensures Filter(s, p) == s
  {
    if s != [] {
      FilterKeepsAll(s[1..], p);
    }
  }

  /** Filtering with a predicate no element satisfies gives the empty list. */
  lemma {:induction false} FilterDropsAll<T>(s: seq<T>, p: T -> bool)
    requires forall x :: x in s ==> !p(x)
    ensures Filter(s, p) == []
  {
    if s != [] {
      assert s[0] in s;
      forall x | x in s[1..] ensures !p(x) {
        assert x in s;
      }
      FilterDropsAll(s[1..], p);
    }
  }

  /** When at most one element fails `p`, filtering loses at most one element. */
  lemma {:induction false} FilterDropsAtMostOne<T>(s: seq<T>, p: T -> bool)
    requires forall i, j :: 0 <= i < |s| && 0 <= j < |s| && !p(s[i]) && !p(s[j]) ==> i == j
    ensures |Filter(s, p)| >= |s| - 1
  {
    if s != [] {
      var tail := s[1..];
      if p(s[0]) {
        forall i, j | 0 <= i < |tail| && 0 <= j < |tail| && !p(tail[i]) && !p(tail[j]) ensures i == j {
          assert s[i + 1] == tail[i] && s[j + 1] == tail[j];
        }
        FilterDropsAtMostOne(tail, p);
      } else {
        forall x | x in tail ensures p(x) {
          var k :| 0 <= k < |tail| && tail[k] == x;
          assert s[k + 1] == x;
        }
        FilterKeepsAll(tail, p);
      }
    }
  }

  /** Filtering keeps order: elements `i < j` of the result sit at positions `a < b` of the input. */
  lemma {:induction false} FilterIsSubsequence<T>(s: seq<T>, p: T -> bool, i: nat, j: nat) returns (a: nat, b: nat)
    requires i < j < |Filter(s, p)|
    ensures a < b < |s| && s[a] == Filter(s, p)[i] && s[b] == Filter(s, p)[j]
  {
    var f := Filter(s, p);
    var rest := Filter(s[1..], p);
    if !p(s[0]) {
      assert f == rest;
      a, b := FilterIsSubsequence(s[1..], p, i, j);
      assert s[a + 1] == s[1..][a] && s[b + 1] == s[1..][b];
      a, b := a + 1, b + 1;
    } else {
      assert f == [s[0]] + rest;
      if i == 0 {
        assert f[j] == rest[j - 1];
        FilterProperties(s[1..], p);
        assert rest[j - 1] in s[1..];
        var k :| 0 <= k < |s[1..]| && s[1..][k] == rest[j - 1];
        assert s[k + 1] == s[1..][k];
        a, b := 0, k + 1;
      } else {
        a, b := FilterIsSubsequence(s[1..], p, i - 1, j - 1);
        assert f[i] == rest[i - 1] && f[j] == rest[j - 1];
        assert s[a + 1] == s[1..][a] && s[b + 1] == s[1..][b];
        a, b := a + 1, b + 1;
      }
    }
  }

  /** When exactly one element satisfies `p`, the filtered list is that element alone. */
  lemma {:induction false} FilterSingle<T>(s: seq<T>, p: T -> bool, i: nat)
    requires i < |s| && p(s[i])
    requires forall j :: 0 <= j < |s| && j != i ==> !p(s[j])
    ensures Filter(s, p) == [s[i]]
  {
    if i == 0 {
      assert forall x :: x in s[1..] ==> !p(x);
      FilterDropsAll(s[1..], p);
    } else {
      assert !p(s[0]);
      assert forall j :: 0 <= j < |s[1..]| && j != i - 1 ==> !p(s[1..][j]) by {
        forall j | 0 <= j < |s[1..]| && j != i - 1 ensures !p(s[1..][j]) {
          assert s[1..][j] == s[j + 1];
        }
      }
      FilterSingle(s[1..], p, i - 1);
    }
  }

  /** When two different positions satisfy `p`, the filtered list has more than one element. */
  lemma {:induction false} FilterTwo<T>(s: seq<T>, p: T -> bool, i: nat, j: nat)
    requires i < j < |s| && p(s[i]) && p(s[j])
    ensures |Filter(s, p)| >= 2
  {
    FilterAppend(s[..j], s[j..], p);
    assert s[..j] + s[j..] == s;
    assert s[..j][i] == s[i];
    assert s[j..][0] == s[j];
    FilterProperties(s[..j], p);
    FilterProperties(s[j..], p);
  }

  /** `list.findIndex(x => key(x) === id)`, with `None` for -1: the first position whose key is `id`. */
  function FirstIndexOf<T, K(==)>(list: seq<T>, id: K, key: T -> K): (r: Option<nat>)
    ensures r.Some? ==> r.value < |list| && key(list[r.value]) == id &&
                        forall j :: 0 <= j < r.value ==> key(list[j]) != id
    ensures r.None? ==> forall j :: 0 <= j < |list| ==> key(list[j]) != id
  {
    if list == [] then None
    else if key(list[0]) == id then Some(0)
    else
      var r := FirstIndexOf(list[1..], id, key);
      if r.None? then None else Some(r.value + 1)
  }

  /** The first matching position is the least one. */
  lemma {:induction false} FirstIndexIsLeast<T, K>(list: seq<T>, id: K, key: T -> K, i: nat)
    requires i < |list| && key(list[i]) == id
    requires forall j :: 0 <= j < i ==> key(list[j]) != id
    ensures FirstIndexOf(list, id, key) == Some(i)
  {
    var r := FirstIndexOf(list, id, key);
    assert r.Some?;
  }
}
