// `Array.prototype.sort` with a numeric comparator, as the program uses it to
// order layers by z-index, by edge or by centre. The sort is stable: for a
// comparator of the form `(a, b) => key(a) - key(b)` there is exactly one
// stable sorted order, and the insertion sort below computes it.
module Sorting {

  /** Places `x` before the first element it compares below (`cmp(x, y) < 0`),
    * after every element it compares equal to or above. */
  function Insert<T>(x: T, s: seq<T>, cmp: (T, T) -> real): (r: seq<T>)
    ensures |r| == |s| + 1
    ensures multiset(r) == multiset(s) + multiset{x}
  {
    if s == [] then [x]
    else if cmp(x, s[0]) < 0.0 then [x] + s
    else
      assert s == [s[0]] + s[1..];
      [s[0]] + Insert(x, s[1..], cmp)
  }

  /** The stable sort of `s` under `cmp`: each element in turn inserted into the
    * sorted order of those before it. */
  function SortWith<T>(s: seq<T>, cmp: (T, T) -> real): (r: seq<T>)
    ensures |r| == |s|
    ensures multiset(r) == multiset(s)
  {
    if s == [] then []
    else
      assert s == s[..|s| - 1] + [s[|s| - 1]];
      Insert(s[|s| - 1], SortWith(s[..|s| - 1], cmp), cmp)
  }

  /** `cmp` is the comparator `(a, b) => key(a) - key(b)`. */
  ghost predicate ComparesBy<T(!new)>(cmp: (T, T) -> real, key: T -> real) {
    forall a: T, b: T :: cmp(a, b) == key(a) - key(b)
  }

  ghost predicate SortedBy<T>(s: seq<T>, key: T -> real) {
    forall i, j :: 0 <= i < j < |s| ==> key(s[i]) <= key(s[j])
  }

  /** The elements of `s` whose key is `k`, in their order in `s`. */
  function WithKey<T>(s: seq<T>, key: T -> real, k: real): (r: seq<T>)
    ensures |r| <= |s|
  {
    if s == [] then []
    else (if key(s[0]) == k then [s[0]] else []) + WithKey(s[1..], key, k)
  }

  lemma {:induction false} WithKeyAppend<T>(a: seq<T>, b: seq<T>, key: T -> real, k: real)
    ensures WithKey(a + b, key, k) == WithKey(a, key, k) + WithKey(b, key, k)
  {
    if a == [] {
      assert a + b == b;
    } else {
      var t := a[1..];
      var h := if key(a[0]) == k then [a[0]] else [];
      assert (a + b)[0] == a[0] && (a + b)[1..] == t + b;
      assert WithKey(a + b, key, k) == h + WithKey(t + b, key, k);
      WithKeyAppend(t, b, key, k);
      assert WithKey(a, key, k) == h + WithKey(t, key, k);
      assert h + (WithKey(t, key, k) + WithKey(b, key, k)) == (h + WithKey(t, key, k)) + WithKey(b, key, k);
    }
  }

  /** The key of the single element decides whether it is kept. */
  lemma WithKeySingle<T>(x: T, key: T -> real, k: real)
    ensures WithKey([x], key, k) == if key(x) == k then [x] else []
  {
    assert [x][1..] == [];
  }

  lemma {:induction false} WithKeyAbove<T>(s: seq<T>, key: T -> real, k: real)
    requires forall i :: 0 <= i < |s| ==> k < key(s[i])
    ensures WithKey(s, key, k) == []
  {
    if s != [] {
      WithKeyAbove(s[1..], key, k);
    }
  }

  /** Every key in `s` is at least `b`. */
  ghost predicate AllAtLeast<T>(s: seq<T>, key: T -> real, b: real) {
    forall i :: 0 <= i < |s| ==> b <= key(s[i])
  }

  /** Every key in `s` is at most `b`. */
  ghost predicate AllAtMost<T>(s: seq<T>, key: T -> real, b: real) {
    forall i :: 0 <= i < |s| ==> key(s[i]) <= b
  }

  /** The tail of a sorted sequence is sorted and bounded below by its head. */
  lemma SortedTail<T>(s: seq<T>, key: T -> real)
    requires s != [] && SortedBy(s, key)
    ensures SortedBy(s[1..], key) && AllAtLeast(s[1..], key, key(s[0]))
  {
    var t := s[1..];
    assert forall i :: 0 <= i < |t| ==> t[i] == s[i + 1];
  }

  /** A head no greater than the keys of a sorted tail gives a sorted sequence. */
  lemma SortedCons<T>(h: T, t: seq<T>, key: T -> real)
    requires SortedBy(t, key) && AllAtLeast(t, key, key(h))
    ensures SortedBy([h] + t, key)
  {
    var r := [h] + t;
    assert forall i :: 1 <= i < |r| ==> r[i] == t[i - 1];
  }

  /** Inserting keeps a lower bound on the keys. */
  lemma {:induction false} InsertAtLeast<T>(x: T, s: seq<T>, cmp: (T, T) -> real, key: T -> real, b: real)
    requires AllAtLeast(s, key, b) && b <= key(x)
    ensures AllAtLeast(Insert(x, s, cmp), key, b)
  {
    if s != [] {
      var t := s[1..];
      assert forall i :: 0 <= i < |t| ==> t[i] == s[i + 1];
      if cmp(x, s[0]) < 0.0 {
        var r := [x] + s;
        assert forall i :: 1 <= i < |r| ==> r[i] == s[i - 1];
      } else {
        InsertAtLeast(x, t, cmp, key, b);
        var r := [s[0]] + Insert(x, t, cmp);
        assert forall i :: 1 <= i < |r| ==> r[i] == Insert(x, t, cmp)[i - 1];
      }
    }
  }

  lemma {:induction false} InsertSorted<T(!new)>(x: T, s: seq<T>, cmp: (T, T) -> real, key: T -> real)
    requires ComparesBy(cmp, key) && SortedBy(s, key)
    ensures SortedBy(Insert(x, s, cmp), key)
  {
    if s != [] {
      assert cmp(x, s[0]) == key(x) - key(s[0]);
      SortedTail(s, key);
      if cmp(x, s[0]) < 0.0 {
        assert AllAtLeast(s, key, key(x)) by {
          assert forall i :: 1 <= i < |s| ==> s[i] == s[1..][i - 1];
        }
        SortedCons(x, s, key);
      } else {
        var t := s[1..];
        InsertSorted(x, t, cmp, key);
        InsertAtLeast(x, t, cmp, key, key(s[0]));
        SortedCons(s[0], Insert(x, t, cmp), key);
      }
    }
  }

  lemma WithKeyCons<T>(h: T, t: seq<T>, key: T -> real, k: real)
    ensures WithKey([h] + t, key, k) == (if key(h) == k then [h] else []) + WithKey(t, key, k)
  {
    assert ([h] + t)[0] == h && ([h] + t)[1..] == t;
  }

  /** Inserting an element below every key of a sorted sequence puts it first. */
  lemma InsertFrontWithKey<T>(x: T, s: seq<T>, key: T -> real, k: real)
    requires s != [] && SortedBy(s, key) && key(x) < key(s[0])
    ensures WithKey([x] + s, key, k) == WithKey(s, key, k) + (if key(x) == k then [x] else [])
  {
    WithKeyCons(x, s, key, k);
    if key(x) == k {
      assert forall i :: 0 <= i < |s| ==> k < key(s[i]) by {
        assert forall i :: 0 <= i < |s| ==> key(s[0]) <= key(s[i]);
      }
      WithKeyAbove(s, key, k);
    }
  }

  lemma {:induction false} InsertWithKey<T(!new)>(x: T, s: seq<T>, cmp: (T, T) -> real, key: T -> real, k: real)
    requires ComparesBy(cmp, key) && SortedBy(s, key)
    ensures WithKey(Insert(x, s, cmp), key, k) ==
      WithKey(s, key, k) + (if key(x) == k then [x] else [])
  {
    if s == [] {
      WithKeySingle(x, key, k);
    } else if cmp(x, s[0]) < 0.0 {
      assert key(x) < key(s[0]);
      InsertFrontWithKey(x, s, key, k);
    } else {
      var t := s[1..];
      SortedTail(s, key);
      InsertWithKey(x, t, cmp, key, k);
      assert Insert(x, s, cmp) == [s[0]] + Insert(x, t, cmp);
      WithKeyConsStep(s[0], Insert(x, t, cmp), t, if key(x) == k then [x] else [], key, k);
      assert s == [s[0]] + t;
    }
  }

  /** Putting the same head before two sequences keeps a relation between their
    * elements with key `k`. */
  lemma WithKeyConsStep<T>(h: T, a: seq<T>, t: seq<T>, tail: seq<T>, key: T -> real, k: real)
    requires WithKey(a, key, k) == WithKey(t, key, k) + tail
    ensures WithKey([h] + a, key, k) == WithKey([h] + t, key, k) + tail
  {
    WithKeyCons(h, a, key, k);
    WithKeyCons(h, t, key, k);
    var p := if key(h) == k then [h] else [];
    assert p + (WithKey(t, key, k) + tail) == (p + WithKey(t, key, k)) + tail;
  }

  /** A comparator made from a key sorts ascending by that key. */
  lemma {:induction false} SortWithSorted<T(!new)>(s: seq<T>, cmp: (T, T) -> real, key: T -> real)
    requires ComparesBy(cmp, key)
    ensures SortedBy(SortWith(s, cmp), key)
  {
    if s != [] {
      SortWithSorted(s[..|s| - 1], cmp, key);
      InsertSorted(s[|s| - 1], SortWith(s[..|s| - 1], cmp), cmp, key);
    }
  }

  /** ... and stably: the elements sharing any one key keep their relative order. */
  lemma {:induction false} SortWithStable<T(!new)>(s: seq<T>, cmp: (T, T) -> real, key: T -> real, k: real)
    requires ComparesBy(cmp, key)
    ensures WithKey(SortWith(s, cmp), key, k) == WithKey(s, key, k)
  {
    if s != [] {
      var init, last := s[..|s| - 1], s[|s| - 1];
      var sorted := SortWith(init, cmp);
      assert SortWith(s, cmp) == Insert(last, sorted, cmp);
      SortWithStable(init, cmp, key, k);
      SortWithSorted(init, cmp, key);
      InsertWithKey(last, sorted, cmp, key, k);
      assert s == init + [last];
      WithKeyAppend(init, [last], key, k);
      WithKeySingle(last, key, k);
    }
  }

  /** The elements of a sorted sequence before its last are sorted and have keys no greater
    * than the last one's. */
  lemma SortedInit<T>(s: seq<T>, key: T -> real)
    requires s != [] && SortedBy(s, key)
    ensures SortedBy(s[..|s| - 1], key) && AllAtMost(s[..|s| - 1], key, key(s[|s| - 1]))
  {
    var init := s[..|s| - 1];
    assert forall i :: 0 <= i < |init| ==> init[i] == s[i];
  }

  /** Sorting an already sorted sequence changes nothing. */
  lemma {:induction false} SortWithSortedInput<T(!new)>(s: seq<T>, cmp: (T, T) -> real, key: T -> real)
    requires ComparesBy(cmp, key) && SortedBy(s, key)
    ensures SortWith(s, cmp) == s
  {
    if s != [] {
      var init, last := s[..|s| - 1], s[|s| - 1];
      assert s == init + [last];
      SortedInit(s, key);
      SortWithSortedInput(init, cmp, key);
      SortWithSnoc(init, last, cmp, key);
    }
  }

  /** Appending an element with the greatest key to a sequence that sorts to
    * itself gives one that sorts to itself. */
  lemma SortWithSnoc<T(!new)>(init: seq<T>, last: T, cmp: (T, T) -> real, key: T -> real)
    requires ComparesBy(cmp, key) && AllAtMost(init, key, key(last)) && SortWith(init, cmp) == init
    ensures SortWith(init + [last], cmp) == init + [last]
  {
    var s := init + [last];
    assert s[..|s| - 1] == init && s[|s| - 1] == last;
    InsertLast(last, init, cmp, key);
  }

  lemma {:induction false} InsertLast<T(!new)>(x: T, s: seq<T>, cmp: (T, T) -> real, key: T -> real)
    requires ComparesBy(cmp, key)
    requires AllAtMost(s, key, key(x))
    ensures Insert(x, s, cmp) == s + [x]
  {
    if s != [] {
      var t := s[1..];
      assert cmp(x, s[0]) == key(x) - key(s[0]);
      assert key(s[0]) <= key(x);
      assert Insert(x, s, cmp) == [s[0]] + Insert(x, t, cmp);
      assert AllAtMost(t, key, key(x)) by {
        assert forall i :: 0 <= i < |t| ==> t[i] == s[i + 1];
      }
      InsertLast(x, t, cmp, key);
      assert [s[0]] + (t + [x]) == ([s[0]] + t) + [x];
      assert s == [s[0]] + t;
    }
  }
}
