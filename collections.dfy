/**
 * Sequence helpers with the meaning of the JavaScript array methods the
 * program relies on: `find`/`findIndex` (first element satisfying a
 * predicate) and `filter` (order-preserving selection).
 */
module Collections {

  datatype Option<+T> = None | Some(value: T)

  /** Index of the first element of `s` satisfying `p`, as `Array.findIndex`. */
  function FirstIndex<T>(s: seq<T>, p: T -> bool): (r: Option<nat>)
    ensures r.Some? ==> r.value < |s| && p(s[r.value])
    ensures r.Some? ==> forall j :: 0 <= j < r.value ==> !p(s[j])
    ensures r.None? <==> forall j :: 0 <= j < |s| ==> !p(s[j])
  {
    if |s| == 0 then None
    else if p(s[0]) then Some(0)
    else match FirstIndex(s[1..], p)
      case None => None
      case Some(i) => Some(i + 1)
  }

  /** The first element of `s` satisfying `p`, as `Array.find`. */
  function Find<T>(s: seq<T>, p: T -> bool): (r: Option<T>)
    ensures r.None? <==> forall x :: x in s ==> !p(x)
    ensures r.Some? ==> r.value in s && p(r.value)
  {
    match FirstIndex(s, p)
    case None => None
    case Some(i) => Some(s[i])
  }

  /** The elements of `s` satisfying `p`, in their order in `s`, as `Array.filter`. */
  function Filter<T>(s: seq<T>, p: T -> bool): (r: seq<T>)
    ensures |r| <= |s|
    ensures forall x :: x in r ==> x in s && p(x)
    ensures forall x :: x in s && p(x) ==> x in r
  {
    if |s| == 0 then []
    else (if p(s[0]) then [s[0]] else []) + Filter(s[1..], p)
  }

  /** Filtering distributes over appending one element: the order of `s` is kept. */
  lemma {:induction false} FilterSnoc<T>(s: seq<T>, x: T, p: T -> bool)
    ensures Filter(s + [x], p) == Filter(s, p) + (if p(x) then [x] else [])
  {
    if |s| == 0 {
      assert s + [x] == [x];
      assert [x][1..] == [];
    } else {
      assert (s + [x])[0] == s[0];
      assert (s + [x])[1..] == s[1..] + [x];
      FilterSnoc(s[1..], x, p);
    }
  }

  /** Filtering with a predicate every element satisfies is the identity. */
  lemma {:induction false} FilterKeepsAll<T>(s: seq<T>, p: T -> bool)
    requires forall j :: 0 <= j < |s| ==> p(s[j])
    ensures Filter(s, p) == s
  {
    if |s| > 0 {
      FilterKeepsAll(s[1..], p);
    }
  }

  /** Filtering with a predicate no element satisfies gives the empty sequence. */
  lemma {:induction false} FilterDropsAll<T>(s: seq<T>, p: T -> bool)
    requires forall j :: 0 <= j < |s| ==> !p(s[j])
    ensures Filter(s, p) == []
  {
    if |s| > 0 {
      FilterDropsAll(s[1..], p);
    }
  }

  /** Keys that are pairwise distinct along `s` stay pairwise distinct along any filtering of `s`. */
  lemma {:induction false} FilterDistinctKeys<T, K>(s: seq<T>, p: T -> bool, key: T -> K)
    requires forall i, j :: 0 <= i < j < |s| ==> key(s[i]) != key(s[j])
    ensures forall i, j :: 0 <= i < j < |Filter(s, p)| ==> key(Filter(s, p)[i]) != key(Filter(s, p)[j])
  {
    if |s| > 0 {
      var rest := Filter(s[1..], p);
      FilterDistinctKeys(s[1..], p, key);
      forall x | x in rest
        ensures key(x) != key(s[0])
      {
        var j :| 0 <= j < |s[1..]| && s[1..][j] == x;
        assert s[j + 1] == x;
      }
      var head := if p(s[0]) then [s[0]] else [];
      var r := head + rest;
      assert Filter(s, p) == r;
      forall i, j | 0 <= i < j < |r|
        ensures key(r[i]) != key(r[j])
      {
        if i < |head| {
          assert r[i] == s[0] && r[j] == rest[j - |head|];
          assert r[j] in rest;
        } else {
          assert r[i] == rest[i - |head|] && r[j] == rest[j - |head|];
        }
      }
    }
  }
}
