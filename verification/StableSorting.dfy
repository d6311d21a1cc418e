/**
 Stable sorting by a key: what it promises, that the promise has one result, and when the result
 does not depend on the order of the input.
 */
module StableSorting {

  ghost predicate TotalOrder<K(!new)>(le: (K, K) -> bool) {
    && (forall a, b :: le(a, b) || le(b, a))
    && (forall a, b :: le(a, b) && le(b, a) ==> a == b)
    && (forall a, b, c :: le(a, b) && le(b, c) ==> le(a, c))
  }

  ghost predicate Sorted<T, K>(key: T -> K, le: (K, K) -> bool, s: seq<T>) {
    forall i, j | 0 <= i < j < |s| :: le(key(s[i]), key(s[j]))
  }

  /** The elements with key `k`, in their order. */
  ghost function With<T, K>(key: T -> K, s: seq<T>, k: K): (r: seq<T>) {
    if s == [] then [] else (if key(s[0]) == k then [s[0]] else []) + With(key, s[1..], k)
  }

  /** `t` is `s` stably sorted: ordered, and with the elements of each key in their old order. */
  ghost predicate StablySorted<T, K(!new)>(key: T -> K, le: (K, K) -> bool, s: seq<T>, t: seq<T>) {
    Sorted(key, le, t) && forall k :: With(key, t, k) == With(key, s, k)
  }

  /** Insertion in front of the first element that is not smaller. */
  function Insert<T, K>(key: T -> K, le: (K, K) -> bool, x: T, s: seq<T>): (r: seq<T>) {
    if s == [] || le(key(x), key(s[0])) then [x] + s else [s[0]] + Insert(key, le, x, s[1..])
  }

  function Sort<T, K>(key: T -> K, le: (K, K) -> bool, s: seq<T>): (r: seq<T>) {
    if s == [] then [] else Insert(key, le, s[0], Sort(key, le, s[1..]))
  }

  // ----- the sort keeps its promise -----

  lemma {:induction false} InsertElements<T, K>(key: T -> K, le: (K, K) -> bool, x: T, s: seq<T>)
    ensures multiset(Insert(key, le, x, s)) == multiset([x] + s)
  {
    if s != [] && !le(key(x), key(s[0])) {
      InsertElements(key, le, x, s[1..]);
      assert s == [s[0]] + s[1..];
    }
  }

  lemma {:induction false} InsertSorted<T, K(!new)>(key: T -> K, le: (K, K) -> bool, x: T, s: seq<T>)
    requires TotalOrder(le) && Sorted(key, le, s)
    ensures Sorted(key, le, Insert(key, le, x, s))
  {
    if s != [] && !le(key(x), key(s[0])) {
      InsertSorted(key, le, x, s[1..]);
      InsertElements(key, le, x, s[1..]);
      var rest := Insert(key, le, x, s[1..]);
      forall i | 0 <= i < |rest|
        ensures le(key(s[0]), key(rest[i]))
      {
        assert rest[i] in multiset([x] + s[1..]);
      }
    }
  }

  lemma {:induction false} InsertWith<T, K(!new)>(key: T -> K, le: (K, K) -> bool, x: T, s: seq<T>, k: K)
    requires TotalOrder(le)
    ensures With(key, Insert(key, le, x, s), k) == With(key, [x] + s, k)
  {
    var r := Insert(key, le, x, s);
    assert ([x] + s)[1..] == s;
    if s != [] && !le(key(x), key(s[0])) {
      InsertWith(key, le, x, s[1..], k);
      assert r[1..] == Insert(key, le, x, s[1..]);
      assert ([x] + s[1..])[1..] == s[1..];
      assert key(x) != key(s[0]);
    }
  }

  lemma {:induction false} SortIsStable<T, K(!new)>(key: T -> K, le: (K, K) -> bool, s: seq<T>)
    requires TotalOrder(le)
    ensures StablySorted(key, le, s, Sort(key, le, s))
    ensures multiset(Sort(key, le, s)) == multiset(s)
  {
    if s != [] {
      var rest := Sort(key, le, s[1..]);
      SortIsStable(key, le, s[1..]);
      InsertSorted(key, le, s[0], rest);
      InsertElements(key, le, s[0], rest);
      assert s == [s[0]] + s[1..];
      forall k
        ensures With(key, Sort(key, le, s), k) == With(key, s, k)
      {
        InsertWith(key, le, s[0], rest, k);
        assert ([s[0]] + rest)[1..] == rest;
      }
    }
  }

  // ----- the promise has one result -----

  lemma {:induction false} WithSome<T, K>(key: T -> K, s: seq<T>, k: K) returns (i: nat)
    requires With(key, s, k) != []
    ensures i < |s| && key(s[i]) == k
  {
    if key(s[0]) == k {
      i := 0;
    } else {
      var j := WithSome(key, s[1..], k);
      i := j + 1;
    }
  }

  /** Two sorted sequences with the same elements for each key start with the same element. */
  lemma {:induction false} SameStart<T, K(!new)>(key: T -> K, le: (K, K) -> bool, s: seq<T>, t: seq<T>)
    requires TotalOrder(le) && Sorted(key, le, s) && Sorted(key, le, t) && s != [] && t != []
    requires forall k :: With(key, t, k) == With(key, s, k)
    ensures s[0] == t[0]
  {
    var a, b := key(s[0]), key(t[0]);
    assert With(key, s, a)[0] == s[0] && With(key, t, b)[0] == t[0];
    var i := WithSome(key, t, a);
    var j := WithSome(key, s, b);
    assert le(b, a) && le(a, b);
  }

  lemma {:induction false} EmptyTogether<T, K(!new)>(key: T -> K, s: seq<T>, t: seq<T>)
    requires forall k :: With(key, t, k) == With(key, s, k)
    ensures s != [] ==> t != []
  {
    if s != [] {
      assert With(key, t, key(s[0])) == With(key, s, key(s[0])) != [];
    }
  }

  /** Whatever sorts stably computes the same sequence. */
  lemma {:induction false} StableSortIsUnique<T, K(!new)>(key: T -> K, le: (K, K) -> bool, s: seq<T>, t: seq<T>)
    requires TotalOrder(le) && Sorted(key, le, s) && Sorted(key, le, t)
    requires forall k :: With(key, t, k) == With(key, s, k)
    ensures s == t
  {
    EmptyTogether(key, s, t);
    EmptyTogether(key, t, s);
    if s != [] {
      SameStart(key, le, s, t);
      forall k
        ensures With(key, t[1..], k) == With(key, s[1..], k)
      {
        assert With(key, t, k) == With(key, s, k);
        var head := if key(s[0]) == k then [s[0]] else [];
        assert With(key, s[1..], k) == With(key, s, k)[|head|..];
        assert With(key, t[1..], k) == With(key, t, k)[|head|..];
      }
      StableSortIsUnique(key, le, s[1..], t[1..]);
      assert s == [s[0]] + s[1..] && t == [t[0]] + t[1..];
    }
  }

  // ----- when the order of the input does not matter -----

  /** Elements with the same key are the same element. */
  ghost predicate KeysIdentify<T, K>(key: T -> K, s: seq<T>) {
    forall x, y | x in s && y in s && key(x) == key(y) :: x == y
  }

  lemma SameLength<T>(s: seq<T>, t: seq<T>)
    requires multiset(s) == multiset(t)
    ensures |s| == |t|
  {
    assert |multiset(s)| == |s| && |multiset(t)| == |t|;
  }

  lemma LeastFirst<T, K(!new)>(key: T -> K, le: (K, K) -> bool, s: seq<T>, x: T)
    requires TotalOrder(le) && Sorted(key, le, s) && x in multiset(s)
    ensures s != [] && le(key(s[0]), key(x))
  {
    var i :| 0 <= i < |s| && s[i] == x;
  }

  lemma SameLeast<T, K(!new)>(key: T -> K, le: (K, K) -> bool, s: seq<T>, t: seq<T>)
    requires TotalOrder(le) && Sorted(key, le, s) && Sorted(key, le, t)
    requires multiset(s) == multiset(t) && KeysIdentify(key, s) && s != [] && t != []
    ensures s[0] == t[0]
  {
    assert t[0] in multiset(s) && s[0] in multiset(t);
    LeastFirst(key, le, s, t[0]);
    LeastFirst(key, le, t, s[0]);
  }

  lemma WithoutFirst<T, K>(key: T -> K, le: (K, K) -> bool, s: seq<T>)
    requires s != []
    ensures s == [s[0]] + s[1..] && multiset(s[1..]) == multiset(s) - multiset{s[0]}
    ensures Sorted(key, le, s) ==> Sorted(key, le, s[1..])
    ensures KeysIdentify(key, s) ==> KeysIdentify(key, s[1..])
  {
    assert s == [s[0]] + s[1..];
  }

  /** With identifying keys a collection has one sorted sequence. */
  lemma {:induction false} SortedPermutationsAgree<T, K(!new)>(key: T -> K, le: (K, K) -> bool, s: seq<T>, t: seq<T>)
    requires TotalOrder(le) && Sorted(key, le, s) && Sorted(key, le, t)
    requires multiset(s) == multiset(t) && KeysIdentify(key, s)
    ensures s == t
  {
    SameLength(s, t);
    if s != [] {
      SameLeast(key, le, s, t);
      WithoutFirst(key, le, s);
      WithoutFirst(key, le, t);
      SortedPermutationsAgree(key, le, s[1..], t[1..]);
    }
  }

  lemma {:induction false} WithConcat<T, K>(key: T -> K, s: seq<T>, t: seq<T>, k: K)
    ensures With(key, s + t, k) == With(key, s, k) + With(key, t, k)
  {
    if s == [] {
      assert s + t == t;
    } else {
      assert (s + t)[0] == s[0] && (s + t)[1..] == s[1..] + t;
      WithConcat(key, s[1..], t, k);
      var head := if key(s[0]) == k then [s[0]] else [];
      assert head + (With(key, s[1..], k) + With(key, t, k)) == (head + With(key, s[1..], k)) + With(key, t, k);
    }
  }

  /** Two different elements with one key: the element that comes first comes out first. */
  lemma {:induction false} FirstStaysFirst<T, K(!new)>(
    key: T -> K, le: (K, K) -> bool, a: seq<T>, x: T, b: seq<T>, k: K)
    requires TotalOrder(le) && key(x) == k
    ensures var w := With(key, Sort(key, le, a + [x] + b), k); |w| > |With(key, a, k)| && w[|With(key, a, k)|] == x
  {
    SortIsStable(key, le, a + [x] + b);
    WithConcat(key, a + [x], b, k);
    WithConcat(key, a, [x], k);
    assert [x][1..] == [];
  }
}
