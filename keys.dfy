/**
 * The order in which the generated marshallers write map entries
 * (server/status/status.pb.go): the keys of a map are collected and sorted
 * (`sortkeys.Strings` for string keys, `sortkeys.Int32s` for node IDs), so
 * the encoding of a map does not depend on Go's map iteration order.
 *
 * The order is a function value `lt` that must be a strict total order;
 * `Sorted(S, lt)` is the unique strictly increasing sequence of the keys in
 * `S`, and `SumOf` adds a per-key size over a key sequence, which is how
 * `Size` counts map entries while iterating in any order.
 */
module Keys {
  /** `lt` is irreflexive, transitive and total. */
  ghost predicate StrictTotalOrder<K(!new)>(lt: (K, K) -> bool) {
    && (forall a :: !lt(a, a))
    && (forall a, b, c :: lt(a, b) && lt(b, c) ==> lt(a, c))
    && (forall a, b :: a != b ==> lt(a, b) || lt(b, a))
  }

  predicate StrictlySorted<K>(ks: seq<K>, lt: (K, K) -> bool) {
    forall i, j :: 0 <= i < j < |ks| ==> lt(ks[i], ks[j])
  }

  ghost function Elems<K>(ks: seq<K>): set<K> {
    set k | k in ks
  }

  // ---------------------------------------------------------------------
  // The two orders the codec uses

  /** Go's `<` on strings: bytewise lexicographic order. */
  predicate LexLess(a: seq<int>, b: seq<int>) {
    if |a| == 0 then |b| > 0
    else if |b| == 0 then false
    else if a[0] != b[0] then a[0] < b[0]
    else LexLess(a[1..], b[1..])
  }

  lemma {:induction false} LexLessIrreflexive(a: seq<int>)
    ensures !LexLess(a, a)
  {
    if |a| > 0 {
      LexLessIrreflexive(a[1..]);
    }
  }

  lemma {:induction false} LexLessTransitive(a: seq<int>, b: seq<int>, c: seq<int>)
    requires LexLess(a, b) && LexLess(b, c)
    ensures LexLess(a, c)
  {
    if |a| > 0 && a[0] == b[0] && b[0] == c[0] {
      LexLessTransitive(a[1..], b[1..], c[1..]);
    }
  }

  lemma {:induction false} LexLessTotal(a: seq<int>, b: seq<int>)
    requires a != b
    ensures LexLess(a, b) || LexLess(b, a)
  {
    if |a| > 0 && |b| > 0 && a[0] == b[0] {
      assert a == [a[0]] + a[1..] && b == [b[0]] + b[1..];
      LexLessTotal(a[1..], b[1..]);
    }
  }

  lemma LexLessIsStrictTotalOrder()
    ensures StrictTotalOrder(LexLess)
  {
    forall a {
      LexLessIrreflexive(a);
    }
    forall a, b, c | LexLess(a, b) && LexLess(b, c) {
      LexLessTransitive(a, b, c);
    }
    forall a, b | a != b {
      LexLessTotal(a, b);
    }
  }

  /** Go's `<` on `int32`. */
  predicate IntLess(a: int, b: int) {
    a < b
  }

  lemma IntLessIsStrictTotalOrder()
    ensures StrictTotalOrder(IntLess)
  {
  }

  // ---------------------------------------------------------------------
  // The sorted key sequence of a set

  ghost predicate IsLeast<K>(x: K, S: set<K>, lt: (K, K) -> bool) {
    x in S && forall y :: y in S && y != x ==> lt(x, y)
  }

  lemma LeastExists<K(!new)>(S: set<K>, lt: (K, K) -> bool)
    requires S != {} && StrictTotalOrder(lt)
    ensures exists x :: IsLeast(x, S, lt)
  {
    var y :| y in S;
    if S == {y} {
      assert IsLeast(y, S, lt);
    } else {
      LeastExists(S - {y}, lt);
      var x :| IsLeast(x, S - {y}, lt);
      if lt(y, x) {
        forall z | z in S && z != y
          ensures lt(y, z)
        {
          if z != x {
            assert lt(x, z);
          }
        }
        assert IsLeast(y, S, lt);
      } else {
        assert IsLeast(x, S, lt);
      }
    }
  }

  /** A set has at most one least element. */
  lemma LeastUnique<K(!new)>(x: K, y: K, S: set<K>, lt: (K, K) -> bool)
    requires StrictTotalOrder(lt) && IsLeast(x, S, lt) && IsLeast(y, S, lt)
    ensures x == y
  {
  }

  ghost function Least<K(!new)>(S: set<K>, lt: (K, K) -> bool): (x: K)
    requires S != {} && StrictTotalOrder(lt)
    ensures IsLeast(x, S, lt)
  {
    LeastExists(S, lt);
    var x :| IsLeast(x, S, lt);
    x
  }

  /** The keys of `S` in increasing order: the least one, then the rest. */
  ghost function Sorted<K(!new)>(S: set<K>, lt: (K, K) -> bool): (ks: seq<K>)
    requires StrictTotalOrder(lt)
    ensures StrictlySorted(ks, lt)
    ensures Elems(ks) == S
  {
    if S == {} then []
    else
      var x := Least(S, lt);
      var rest := Sorted(S - {x}, lt);
      assert forall j :: 0 <= j < |rest| ==> rest[j] in S - {x};
      assert Elems([x] + rest) == {x} + Elems(rest);
      [x] + rest
  }

  /** A strictly sorted sequence has no repeated keys. */
  lemma StrictlySortedDistinct<K(!new)>(ks: seq<K>, lt: (K, K) -> bool)
    requires StrictTotalOrder(lt) && StrictlySorted(ks, lt)
    ensures forall i, j :: 0 <= i < |ks| && 0 <= j < |ks| && i != j ==> ks[i] != ks[j]
  {
    forall i, j | 0 <= i < |ks| && 0 <= j < |ks| && i != j
      ensures ks[i] != ks[j]
    {
      if i < j {
        assert lt(ks[i], ks[j]);
      } else {
        assert lt(ks[j], ks[i]);
      }
    }
  }

  /** Two strictly sorted sequences with the same keys are the same sequence. */
  lemma {:induction false} SortedUnique<K(!new)>(a: seq<K>, b: seq<K>, lt: (K, K) -> bool)
    requires StrictTotalOrder(lt)
    requires StrictlySorted(a, lt) && StrictlySorted(b, lt)
    requires Elems(a) == Elems(b)
    ensures a == b
    decreases |a|
  {
    if a == [] {
      ElemsEmpty(b);
    } else {
      assert a[0] in Elems(b);
      assert b != [];
      var S := Elems(a);
      assert IsLeast(a[0], S, lt) by {
        forall y | y in S && y != a[0]
          ensures lt(a[0], y)
        {
          var j :| 0 <= j < |a| && a[j] == y;
        }
      }
      assert IsLeast(b[0], S, lt) by {
        forall y | y in S && y != b[0]
          ensures lt(b[0], y)
        {
          var j :| 0 <= j < |b| && b[j] == y;
        }
      }
      LeastUnique(a[0], b[0], S, lt);
      TailElems(a, lt);
      TailElems(b, lt);
      SortedUnique(a[1..], b[1..], lt);
      assert a == [a[0]] + a[1..] && b == [b[0]] + b[1..];
    }
  }

  lemma ElemsEmpty<K>(b: seq<K>)
    ensures Elems(b) == {} ==> b == []
  {
    if b != [] {
      assert b[0] in Elems(b);
    }
  }

  /** Dropping the head of a strictly sorted sequence drops exactly that key. */
  lemma TailElems<K(!new)>(a: seq<K>, lt: (K, K) -> bool)
    requires StrictTotalOrder(lt) && StrictlySorted(a, lt) && a != []
    ensures StrictlySorted(a[1..], lt)
    ensures Elems(a[1..]) == Elems(a) - {a[0]}
  {
    StrictlySortedDistinct(a, lt);
    assert a == [a[0]] + a[1..];
    forall k | k in Elems(a) - {a[0]}
      ensures k in Elems(a[1..])
    {
      var j :| 0 <= j < |a| && a[j] == k;
      assert a[1..][j - 1] == k;
    }
    forall k | k in Elems(a[1..])
      ensures k in Elems(a) - {a[0]}
    {
      var j :| 0 <= j < |a[1..]| && a[1..][j] == k;
      assert a[j + 1] == k;
    }
  }

  /** `Sorted(S)` is the only strictly sorted sequence of the keys of `S`. */
  lemma SortedCharacterization<K(!new)>(ks: seq<K>, S: set<K>, lt: (K, K) -> bool)
    requires StrictTotalOrder(lt)
    ensures ks == Sorted(S, lt) <==> StrictlySorted(ks, lt) && Elems(ks) == S
  {
    if StrictlySorted(ks, lt) && Elems(ks) == S {
      SortedUnique(ks, Sorted(S, lt), lt);
    }
  }

  // ---------------------------------------------------------------------
  // Sums over the keys, in any order

  function SumOf<K>(ks: seq<K>, f: K -> nat): nat {
    if ks == [] then 0 else f(ks[0]) + SumOf(ks[1..], f)
  }

  /**
   * The sum over the sorted keys of `S` is `f(k)` plus the sum over the
   * rest, whichever key `k` of `S` is taken first: the order in which a map
   * is iterated does not change its size.
   */
  lemma {:induction false} SortedSumRemove<K(!new)>(S: set<K>, k: K, lt: (K, K) -> bool, f: K -> nat)
    requires StrictTotalOrder(lt) && k in S
    ensures SumOf(Sorted(S, lt), f) == f(k) + SumOf(Sorted(S - {k}, lt), f)
    decreases S
  {
    var x := Least(S, lt);
    var ks := Sorted(S, lt);
    assert ks[0] == x && ks[1..] == Sorted(S - {x}, lt);
    if k != x {
      SortedSumRemove(S - {x}, k, lt, f);
      assert IsLeast(x, S - {k}, lt);
      LeastUnique(x, Least(S - {k}, lt), S - {k}, lt);
      assert S - {x} - {k} == S - {k} - {x};
      var rs := Sorted(S - {k}, lt);
      assert rs[0] == x && rs[1..] == Sorted(S - {k} - {x}, lt);
    }
  }

  // ---------------------------------------------------------------------
  // Collecting and sorting the keys of a map

  /**
   * `for k := range m { keys = append(keys, k) }`: the keys of the map, in
   * whatever order the iteration visits them, each once.
   */
  method CollectKeys<K(==)>(S: set<K>) returns (ks: seq<K>)
    ensures Elems(ks) == S
    ensures forall i, j :: 0 <= i < j < |ks| ==> ks[i] != ks[j]
  {
    ks := [];
    var rest := S;
    while rest != {}
      invariant Elems(ks) + rest == S && Elems(ks) !! rest
      invariant forall i, j :: 0 <= i < j < |ks| ==> ks[i] != ks[j]
      decreases rest
    {
      var k :| k in rest;
      assert Elems(ks + [k]) == Elems(ks) + {k};
      ks := ks + [k];
      rest := rest - {k};
    }
  }

  /** Insertion of a new key into a strictly sorted sequence. */
  method InsertSorted<K(!new)>(ks: seq<K>, k: K, lt: (K, K) -> bool) returns (r: seq<K>)
    requires StrictTotalOrder(lt) && StrictlySorted(ks, lt) && k !in ks
    ensures StrictlySorted(r, lt)
    ensures Elems(r) == Elems(ks) + {k}
  {
    var i := 0;
    while i < |ks| && lt(ks[i], k)
      invariant 0 <= i <= |ks|
      invariant forall j :: 0 <= j < i ==> lt(ks[j], k)
    {
      i := i + 1;
    }
    assert i < |ks| ==> lt(k, ks[i]);
    r := ks[..i] + [k] + ks[i..];
    assert forall j :: 0 <= j < |r| ==> r[j] == (if j < i then ks[j] else if j == i then k else ks[j - 1]);
    assert Elems(r) == Elems(ks) + {k} by {
      assert ks == ks[..i] + ks[i..];
    }
  }

  /**
   * `sortkeys.Strings` / `sortkeys.Int32s` on the collected keys: the keys in
   * increasing order.
   */
  method SortKeys<K(!new)>(keys: seq<K>, lt: (K, K) -> bool) returns (sorted: seq<K>)
    requires StrictTotalOrder(lt)
    requires forall i, j :: 0 <= i < j < |keys| ==> keys[i] != keys[j]
    ensures sorted == Sorted(Elems(keys), lt)
  {
    sorted := [];
    var n := 0;
    while n < |keys|
      invariant 0 <= n <= |keys|
      invariant StrictlySorted(sorted, lt)
      invariant Elems(sorted) == Elems(keys[..n])
    {
      assert keys[n] !in Elems(keys[..n]);
      sorted := InsertSorted(sorted, keys[n], lt);
      assert Elems(keys[..n + 1]) == Elems(keys[..n]) + {keys[n]} by {
        assert keys[..n + 1] == keys[..n] + [keys[n]];
      }
      n := n + 1;
    }
    assert keys[..n] == keys;
    SortedCharacterization(sorted, Elems(keys), lt);
  }
}
