/**
 * A `TreeSet` built with `Comparator.comparingLong(key)`, as the services use
 * to return products and orders: the elements are kept in ascending key order,
 * and adding an element whose key is already present leaves the set as it is,
 * because the comparator calls the two elements equal.
 */
module TreeSets {

  predicate StrictlySorted<T(==)>(s: seq<T>, key: T -> int)
  {
    forall i, j :: 0 <= i < j < |s| ==> key(s[i]) < key(s[j])
  }

  predicate DistinctKeys<T(==)>(s: seq<T>, key: T -> int)
  {
    forall i, j :: 0 <= i < j < |s| ==> key(s[i]) != key(s[j])
  }

  function Keys<T(==)>(s: seq<T>, key: T -> int): set<int>
  {
    set x | x in s :: key(x)
  }

  /** `TreeSet.add`: insert `x` at its place, unless its key is taken. */
  function Add<T(==)>(s: seq<T>, x: T, key: T -> int): (r: seq<T>)
    requires StrictlySorted(s, key)
    ensures StrictlySorted(r, key)
    ensures Keys(r, key) == Keys(s, key) + {key(x)}
  {
    if s == [] then [x]
    else if key(x) < key(s[0]) then
      KeysCons(x, s, key);
      SortedCons(x, s, key);
      [x] + s
    else if key(x) == key(s[0]) then s
    else
      var rest := Add(s[1..], x, key);
      AddStep(s, x, key, rest);
      [s[0]] + rest
  }

  /** The step of `Add` past a smaller head: keeping the head in front of the rest keeps order and keys. */
  lemma AddStep<T>(s: seq<T>, x: T, key: T -> int, rest: seq<T>)
    requires StrictlySorted(s, key) && s != [] && key(s[0]) < key(x)
    requires StrictlySorted(rest, key) && Keys(rest, key) == Keys(s[1..], key) + {key(x)}
    ensures StrictlySorted([s[0]] + rest, key)
    ensures Keys([s[0]] + rest, key) == Keys(s, key) + {key(x)}
  {
    assert s == [s[0]] + s[1..];
    KeysCons(s[0], s[1..], key);
    KeysCons(s[0], rest, key);
    AllAbove(s[1..], key, key(s[0]));
    AllAbove(rest, key, key(s[0]));
    SortedCons(s[0], rest, key);
  }

  lemma SortedCons<T>(h: T, t: seq<T>, key: T -> int)
    requires StrictlySorted(t, key)
    requires forall j :: 0 <= j < |t| ==> key(h) < key(t[j])
    ensures StrictlySorted([h] + t, key)
  {
    var s := [h] + t;
    forall i, j | 0 <= i < j < |s| ensures key(s[i]) < key(s[j]) {
      assert s[j] == t[j - 1];
      if i > 0 {
        assert s[i] == t[i - 1];
      }
    }
  }

  lemma KeysCons<T>(h: T, t: seq<T>, key: T -> int)
    ensures Keys([h] + t, key) == {key(h)} + Keys(t, key)
  {
    assert forall x :: x in [h] + t <==> x == h || x in t;
  }

  /** Every key of a sequence exceeds a bound exactly when every element's key does. */
  lemma AllAbove<T>(t: seq<T>, key: T -> int, b: int)
    ensures (forall k :: k in Keys(t, key) ==> k > b) <==> (forall j :: 0 <= j < |t| ==> key(t[j]) > b)
  {
    if forall k :: k in Keys(t, key) ==> k > b {
      forall j | 0 <= j < |t| ensures key(t[j]) > b {
        assert key(t[j]) in Keys(t, key);
      }
    }
  }

  /** Adding a key already present changes nothing; adding a new key adds exactly that element. */
  lemma {:induction false} AddContents<T>(s: seq<T>, x: T, key: T -> int)
    requires StrictlySorted(s, key)
    ensures key(x) in Keys(s, key) ==> Add(s, x, key) == s
    ensures key(x) !in Keys(s, key) ==> multiset(Add(s, x, key)) == multiset(s) + multiset{x}
  {
    if s != [] && key(x) > key(s[0]) {
      assert s == [s[0]] + s[1..];
      assert Keys(s, key) == {key(s[0])} + Keys(s[1..], key);
      AddContents(s[1..], x, key);
    } else if s != [] && key(x) == key(s[0]) {
      assert s[0] in s;
    } else if s != [] {
      assert forall j :: 0 <= j < |s| ==> key(s[j]) >= key(s[0]);
    }
  }

  /** `stream().collect(Collectors.toCollection(TreeSet))`: add the elements one by one. */
  function Collect<T(==)>(xs: seq<T>, key: T -> int): (r: seq<T>)
    ensures StrictlySorted(r, key)
    ensures Keys(r, key) == Keys(xs, key)
    ensures multiset(r) <= multiset(xs)
  {
    if xs == [] then []
    else
      var init, last := xs[..|xs| - 1], xs[|xs| - 1];
      assert xs == init + [last];
      assert Keys(xs, key) == Keys(init, key) + {key(last)};
      var acc := Collect(init, key);
      AddContents(acc, last, key);
      assert multiset(xs) == multiset(init) + multiset{last};
      Add(acc, last, key)
  }

  /** When no two elements share a key, the tree set keeps every one of them. */
  lemma {:induction false} CollectKeepsAll<T>(xs: seq<T>, key: T -> int)
    requires DistinctKeys(xs, key)
    ensures multiset(Collect(xs, key)) == multiset(xs)
    ensures |Collect(xs, key)| == |xs|
  {
    if xs != [] {
      var init, last := xs[..|xs| - 1], xs[|xs| - 1];
      assert xs == init + [last];
      assert DistinctKeys(init, key);
      CollectKeepsAll(init, key);
      assert key(last) !in Keys(init, key);
      AddContents(Collect(init, key), last, key);
    }
  }

  /** When no two elements share a key, the tree set holds exactly the elements added. */
  lemma KeepsAllMembers<T>(xs: seq<T>, key: T -> int)
    requires DistinctKeys(xs, key)
    ensures forall x :: x in Collect(xs, key) <==> x in xs
  {
    CollectKeepsAll(xs, key);
    var r := Collect(xs, key);
    forall x ensures x in r <==> x in xs {
      assert x in r <==> x in multiset(r);
      assert x in xs <==> x in multiset(xs);
    }
  }

  /** A set ordered by keys has one element per key, so its size is the number of its keys. */
  lemma {:induction false} SizeIsKeyCount<T>(s: seq<T>, key: T -> int)
    requires StrictlySorted(s, key)
    ensures |Keys(s, key)| == |s|
  {
    if s != [] {
      var init := s[..|s| - 1];
      var last := s[|s| - 1];
      assert s == init + [last];
      SizeIsKeyCount(init, key);
      assert Keys(s, key) == Keys(init, key) + {key(last)};
      assert key(last) !in Keys(init, key) by {
        forall x | x in init ensures key(x) != key(last) {
          var i :| 0 <= i < |init| && init[i] == x;
        }
      }
    }
  }
}
