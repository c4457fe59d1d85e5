/**
 * PHP's ordered string-keyed arrays as association lists: `$a[$k] = $v`
 * overwrites in place or appends, lookups find the key, `ksort` orders the
 * entries by key.
 */
module PhpArray {
  import opened Wrappers
  import opened Php

  /** An ordered array with string keys, in insertion order. */
  type Arr<V> = seq<(Str, V)>

  predicate HasKey<V>(a: Arr<V>, k: Str)
  {
    exists i :: 0 <= i < |a| && a[i].0 == k
  }

  /** The keys of a, as a set. */
  function Keys<V>(a: Arr<V>): set<Str>
  {
    set i | 0 <= i < |a| :: a[i].0
  }

  /** No key occurs twice: every array PHP builds has this shape. */
  ghost predicate UniqueKeys<V>(a: Arr<V>)
  {
    forall i, j :: 0 <= i < j < |a| ==> a[i].0 != a[j].0
  }

  /** `$a[$k] ?? null`: the value of the first entry with key k. */
  function Get<V>(a: Arr<V>, k: Str): (r: Option<V>)
    ensures r.Some? <==> HasKey(a, k)
    ensures r.Some? ==> exists i :: 0 <= i < |a| && a[i] == (k, r.value)
    decreases |a|
  {
    if a == [] then None
    else if a[0].0 == k then Some(a[0].1)
    else
      var r := Get(a[1..], k);
      assert r.Some? ==> exists i :: 0 <= i < |a[1..]| && a[1..][i] == (k, r.value);
      assert HasKey(a[1..], k) ==> HasKey(a, k);
      assert HasKey(a, k) ==> HasKey(a[1..], k) by {
        if HasKey(a, k) {
          var i :| 0 <= i < |a| && a[i].0 == k;
          assert a[1..][i - 1].0 == k;
        }
      }
      r
  }

  /** The keys of a non-empty array: its first key and the keys after it. */
  lemma KeysCons<V>(a: Arr<V>)
    requires a != []
    ensures Keys(a) == {a[0].0} + Keys(a[1..])
    ensures HasKey(a, a[0].0)
  {
    forall x | x in Keys(a) ensures x in {a[0].0} + Keys(a[1..]) {
      var i :| 0 <= i < |a| && a[i].0 == x;
      if i > 0 { assert a[1..][i - 1].0 == x; }
    }
    forall x | x in Keys(a[1..]) ensures x in Keys(a) {
      var i :| 0 <= i < |a[1..]| && a[1..][i].0 == x;
      assert a[i + 1].0 == x;
    }
  }

  lemma HasKeyIsKeys<V>(a: Arr<V>, k: Str)
    ensures HasKey(a, k) <==> k in Keys(a)
  {
    if k in Keys(a) {
      var i :| 0 <= i < |a| && a[i].0 == k;
    }
  }

  /** Arrays holding the same entries have the same keys. */
  lemma KeysOfPermutation<V>(a: Arr<V>, b: Arr<V>)
    requires multiset(a) == multiset(b)
    ensures Keys(a) == Keys(b)
  {
    forall x | x in Keys(a) ensures x in Keys(b) {
      var i :| 0 <= i < |a| && a[i].0 == x;
      assert a[i] in multiset(b);
      var j :| 0 <= j < |b| && b[j] == a[i];
    }
    forall x | x in Keys(b) ensures x in Keys(a) {
      var i :| 0 <= i < |b| && b[i].0 == x;
      assert b[i] in multiset(a);
      var j :| 0 <= j < |a| && a[j] == b[i];
    }
  }

  /** `$a[$k] = $v`: overwrites the entry for k where it stands, or appends one. */
  function Put<V>(a: Arr<V>, k: Str, v: V): (r: Arr<V>)
    ensures HasKey(a, k) ==> |r| == |a|
    ensures !HasKey(a, k) ==> r == a + [(k, v)]
    decreases |a|
  {
    if a == [] then [(k, v)]
    else if a[0].0 == k then [(k, v)] + a[1..]
    else
      KeysCons(a);
      HasKeyIsKeys(a, k);
      HasKeyIsKeys(a[1..], k);
      assert a == [a[0]] + a[1..];
      [a[0]] + Put(a[1..], k, v)
  }

  /** After `$a[$k] = $v`, k maps to v and every other key keeps its value. */
  lemma {:induction false} PutGet<V>(a: Arr<V>, k: Str, v: V, k': Str)
    ensures Get(Put(a, k, v), k') == if k' == k then Some(v) else Get(a, k')
    decreases |a|
  {
    if a != [] && a[0].0 != k {
      PutGet(a[1..], k, v, k');
      assert Put(a, k, v)[1..] == Put(a[1..], k, v);
    } else if a != [] {
      assert Put(a, k, v)[1..] == a[1..];
    }
  }

  /** The keys of a non-empty array are unique exactly when its first key is not among the later ones and those are unique. */
  lemma UniqueCons<V>(a: Arr<V>)
    requires a != []
    ensures UniqueKeys(a) <==> a[0].0 !in Keys(a[1..]) && UniqueKeys(a[1..])
  {
    var t := a[1..];
    if UniqueKeys(a) {
      forall x | x in Keys(t) ensures x != a[0].0 {
        var i :| 0 <= i < |t| && t[i].0 == x;
        assert a[i + 1].0 == x;
      }
      forall i, j | 0 <= i < j < |t| ensures t[i].0 != t[j].0 {
        assert t[i] == a[i + 1] && t[j] == a[j + 1];
      }
    }
    if a[0].0 !in Keys(t) && UniqueKeys(t) {
      forall i, j | 0 <= i < j < |a| ensures a[i].0 != a[j].0 {
        assert a[j] == t[j - 1];
        if i > 0 { assert a[i] == t[i - 1]; }
      }
    }
  }

  /** `$a[$k] = $v` adds k to the keys and keeps every key unique. */
  lemma {:induction false} PutKeys<V>(a: Arr<V>, k: Str, v: V)
    ensures Keys(Put(a, k, v)) == Keys(a) + {k}
    ensures UniqueKeys(a) ==> UniqueKeys(Put(a, k, v))
    decreases |a|
  {
    var r := Put(a, k, v);
    if a == [] {
      assert Keys(r) == {k} by { KeysCons(r); }
    } else {
      KeysCons(a);
      KeysCons(r);
      UniqueCons(a);
      UniqueCons(r);
      if a[0].0 == k {
        assert r[1..] == a[1..];
      } else {
        PutKeys(a[1..], k, v);
        assert r[1..] == Put(a[1..], k, v);
      }
    }
  }

  /** array_merge($a, $b) for string keys: each entry of b, in order, overwrites or appends. */
  function Merge<V>(a: Arr<V>, b: Arr<V>): Arr<V>
    decreases |b|
  {
    if b == [] then a else Merge(Put(a, b[0].0, b[0].1), b[1..])
  }

  /** After array_merge, a key of b has b's value and any other key keeps a's. */
  lemma {:induction false} MergeGet<V>(a: Arr<V>, b: Arr<V>, k: Str)
    requires UniqueKeys(b)
    ensures Get(Merge(a, b), k) == if HasKey(b, k) then Get(b, k) else Get(a, k)
    decreases |b|
  {
    if b != [] {
      var t := b[1..];
      UniqueCons(b);
      MergeGet(Put(a, b[0].0, b[0].1), t, k);
      PutGet(a, b[0].0, b[0].1, k);
      KeysCons(b);
      HasKeyIsKeys(b, k);
      HasKeyIsKeys(t, k);
    }
  }

  /** Every key of a is smaller, in byte order, than every later key. */
  ghost predicate SortedByKey<V>(a: Arr<V>)
  {
    forall i, j :: 0 <= i < j < |a| ==> Less(a[i].0, a[j].0)
  }

  /** Keys in strictly increasing order are unique. */
  lemma SortedUnique<V>(a: Arr<V>)
    requires SortedByKey(a)
    ensures UniqueKeys(a)
  {
    forall i, j | 0 <= i < j < |a| ensures a[i].0 != a[j].0 {
      LessIrreflexive(a[i].0);
    }
  }

  /** Inserts one entry in front of the first entry whose key is not smaller. */
  function Insert<V>(x: (Str, V), a: Arr<V>): Arr<V>
    decreases |a|
  {
    if a == [] then [x]
    else if Less(a[0].0, x.0) then [a[0]] + Insert(x, a[1..])
    else [x] + a
  }

  lemma {:induction false} InsertPermutes<V>(x: (Str, V), a: Arr<V>)
    ensures multiset(Insert(x, a)) == multiset(a) + multiset{x}
    decreases |a|
  {
    if a != [] && Less(a[0].0, x.0) {
      InsertPermutes(x, a[1..]);
      assert a == [a[0]] + a[1..];
    }
  }

  lemma {:induction false} InsertSorted<V>(x: (Str, V), a: Arr<V>)
    requires SortedByKey(a) && x.0 !in Keys(a)
    ensures SortedByKey(Insert(x, a))
    decreases |a|
  {
    if a == [] {
    } else {
      KeysCons(a);
      if Less(a[0].0, x.0) {
        InsertSorted(x, a[1..]);
        InsertPermutes(x, a[1..]);
        var t := Insert(x, a[1..]);
        var r := [a[0]] + t;
        forall j | 0 < j < |r| ensures Less(r[0].0, r[j].0) {
          assert r[j] == t[j - 1];
          assert r[j] in multiset(t);
          assert r[j] in multiset(a[1..]) || r[j] == x;
          if r[j] != x {
            var m :| 0 <= m < |a[1..]| && a[1..][m] == r[j];
            assert r[j] == a[m + 1];
          }
        }
      } else {
        var r := [x] + a;
        forall j | 0 < j < |r| ensures Less(r[0].0, r[j].0) {
          LessTotal(x.0, a[0].0);
          if j > 1 {
            LessTransitive(x.0, a[0].0, a[j - 1].0);
          }
        }
      }
    }
  }

  /** ksort: the entries ordered by key. */
  function KSort<V>(a: Arr<V>): Arr<V>
    decreases |a|
  {
    if a == [] then [] else Insert(a[0], KSort(a[1..]))
  }

  /** ksort keeps every entry: the result is a permutation of the input. */
  lemma {:induction false} KSortPermutes<V>(a: Arr<V>)
    ensures multiset(KSort(a)) == multiset(a)
    decreases |a|
  {
    if a != [] {
      KSortPermutes(a[1..]);
      InsertPermutes(a[0], KSort(a[1..]));
      assert a == [a[0]] + a[1..];
    }
  }

  /** When no key repeats, ksort leaves the entries in strictly increasing key order. */
  lemma {:induction false} KSortSorted<V>(a: Arr<V>)
    requires UniqueKeys(a)
    ensures SortedByKey(KSort(a))
    decreases |a|
  {
    if a != [] {
      KSortSorted(a[1..]);
      KSortPermutes(a[1..]);
      var s := KSort(a[1..]);
      KeysOfPermutation(s, a[1..]);
      forall x | x in Keys(a[1..]) ensures x != a[0].0 {
        var i :| 0 <= i < |a[1..]| && a[1..][i].0 == x;
        assert a[i + 1].0 == x;
      }
      InsertSorted(a[0], s);
    }
  }
}
