/** Sets of list elements, counting arguments and map lookup. */
module Collections {
  import opened Json

  function ToSet<T>(s: seq<T>): set<T> {
    set x | x in s
  }

  function Lookup<K, V>(m: map<K, V>, k: K): Option<V> {
    if k in m then Some(m[k]) else None
  }

  /** A duplicate-free list whose elements all lie in a set it is as long as exhausts that set. */
  lemma {:induction false} Pigeonhole<T>(list: seq<T>, s: set<T>)
    requires DuplicateFree(list) && ToSet(list) <= s && |s| <= |list|
    ensures ToSet(list) == s
  {
    if list == [] {
    } else {
      var x, rest := list[0], list[1..];
      assert x in s && forall y :: y in rest ==> y != x && y in list;
      assert list == [x] + rest;
      Pigeonhole(rest, s - {x});
      assert ToSet(list) == ToSet(rest) + {x};
    }
  }

  lemma {:induction false} DistinctSize<T>(list: seq<T>)
    requires DuplicateFree(list)
    ensures |ToSet(list)| == |list|
  {
    if list != [] {
      var x, rest := list[0], list[1..];
      assert list == [x] + rest;
      assert x !in rest;
      DistinctSize(rest);
      assert ToSet(list) == ToSet(rest) + {x};
    }
  }

  /** A list with as many different elements as it has places repeats none. */
  lemma {:induction false} NoDuplicates<T>(list: seq<T>)
    requires |ToSet(list)| == |list|
    ensures DuplicateFree(list)
  {
    if list != [] {
      var x, rest := list[0], list[1..];
      assert list == [x] + rest;
      assert ToSet(list) == ToSet(rest) + {x};
      SizeBound(rest);
      NoDuplicates(rest);
      assert x !in ToSet(rest);
    }
  }

  lemma {:induction false} SizeBound<T>(list: seq<T>)
    ensures |ToSet(list)| <= |list|
  {
    if list != [] {
      assert list == [list[0]] + list[1..];
      assert ToSet(list) == ToSet(list[1..]) + {list[0]};
      SizeBound(list[1..]);
    }
  }
}
