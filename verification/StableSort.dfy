/** Selection of the first largest item, repeated: what the in-place storage sort computes. */
module StableSort {

  datatype Item<T> = Item(node: T, key: nat)

  /** The first position holding a largest key. */
  ghost predicate IsFirstMax<T>(s: seq<Item<T>>, m: nat) {
    && m < |s|
    && (forall i :: 0 <= i < |s| ==> s[i].key <= s[m].key)
    && (forall i :: 0 <= i < m ==> s[i].key < s[m].key)
  }

  lemma FirstMaxUnique<T>(s: seq<Item<T>>, m: nat, n: nat)
    requires IsFirstMax(s, m) && IsFirstMax(s, n)
    ensures m == n
  {
    assert s[m].key == s[n].key;
    assert !(m < n) && !(n < m);
  }

  ghost function FirstMax<T>(s: seq<Item<T>>): (m: nat)
    requires s != []
    ensures IsFirstMax(s, m)
  {
    if |s| == 1 then 0
    else
      var m := FirstMax(s[..|s| - 1]);
      if s[|s| - 1].key > s[m].key then |s| - 1 else m
  }

  ghost function Remove<T>(s: seq<T>, m: nat): seq<T>
    requires m < |s|
  {
    s[..m] + s[m + 1..]
  }

  ghost function Sorted<T>(s: seq<Item<T>>): seq<Item<T>>
    decreases |s|
  {
    if s == [] then [] else [s[FirstMax(s)]] + Sorted(Remove(s, FirstMax(s)))
  }

  lemma SortedStep<T>(done: seq<Item<T>>, s: seq<Item<T>>)
    requires s != []
    ensures done + [s[FirstMax(s)]] + Sorted(Remove(s, FirstMax(s))) == done + Sorted(s)
  {
  }

  /** The items with one key, in order. */
  ghost function WithKey<T>(s: seq<Item<T>>, k: nat): seq<Item<T>> {
    if s == [] then []
    else if s[0].key == k then [s[0]] + WithKey(s[1..], k)
    else WithKey(s[1..], k)
  }

  lemma {:induction false} WithKeyConcat<T>(a: seq<Item<T>>, b: seq<Item<T>>, k: nat)
    ensures WithKey(a + b, k) == WithKey(a, k) + WithKey(b, k)
  {
    if a == [] {
      assert a + b == b;
    } else {
      assert (a + b)[1..] == a[1..] + b;
      WithKeyConcat(a[1..], b, k);
    }
  }

  lemma {:induction false} WithKeyNone<T>(s: seq<Item<T>>, k: nat)
    requires forall i :: 0 <= i < |s| ==> s[i].key != k
    ensures WithKey(s, k) == []
  {
    if s != [] {
      assert forall i :: 0 <= i < |s[1..]| ==> s[1..][i] == s[i + 1];
      WithKeyNone(s[1..], k);
    }
  }

  lemma WithKeyRemove<T>(s: seq<Item<T>>, m: nat, k: nat)
    requires IsFirstMax(s, m)
    ensures WithKey(s, k) == (if s[m].key == k then [s[m]] else []) + WithKey(Remove(s, m), k)
  {
    var x := [s[m]];
    assert s == s[..m] + (x + s[m + 1..]);
    WithKeyConcat(s[..m], x + s[m + 1..], k);
    WithKeyConcat(x, s[m + 1..], k);
    WithKeyConcat(s[..m], s[m + 1..], k);
    assert WithKey(x, k) == if s[m].key == k then x else [];
    if s[m].key == k {
      WithKeyNone(s[..m], k);
    }
  }

  /** Stability: items with equal keys keep their order, whatever the key. */
  lemma {:induction false} SortedIsStable<T>(s: seq<Item<T>>, k: nat)
    ensures WithKey(Sorted(s), k) == WithKey(s, k)
    decreases |s|
  {
    if s != [] {
      var m := FirstMax(s);
      SortedIsStable(Remove(s, m), k);
      WithKeyRemove(s, m, k);
    }
  }

  /** Nothing is lost and nothing is invented. */
  lemma {:induction false} SortedIsPermutation<T>(s: seq<Item<T>>)
    ensures multiset(Sorted(s)) == multiset(s)
    ensures |Sorted(s)| == |s|
    decreases |s|
  {
    if s != [] {
      var m := FirstMax(s);
      SortedIsPermutation(Remove(s, m));
      assert s == s[..m] + [s[m]] + s[m + 1..];
    }
  }

  lemma SortedFirst<T>(s: seq<Item<T>>)
    requires s != []
    ensures Sorted(s) == [s[FirstMax(s)]] + Sorted(Remove(s, FirstMax(s)))
  {
  }

  lemma SortedInside<T>(s: seq<Item<T>>, j: nat)
    requires j < |Sorted(s)|
    ensures Sorted(s)[j] in s
  {
    hide Sorted;
    SortedIsPermutation(s);
    assert Sorted(s)[j] in multiset(Sorted(s));
  }

  lemma {:induction false} SortedDescends<T>(s: seq<Item<T>>, i: nat, j: nat)
    requires i < j < |Sorted(s)|
    ensures Sorted(s)[i].key >= Sorted(s)[j].key
    decreases |s|
  {
    hide Sorted;
    SortedIsPermutation(s);
    SortedFirst(s);
    var rest := Remove(s, FirstMax(s));
    if i == 0 {
      SortedInside(rest, j - 1);
      assert Sorted(rest)[j - 1] in s;
    } else {
      SortedDescends(rest, i - 1, j - 1);
    }
  }
}
