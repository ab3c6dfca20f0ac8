/**
 * The index-aware array operations of JavaScript the task list is built from:
 * `Array.prototype.filter`, `Array.prototype.map` (both pass each element with
 * its position to the callback) and `Array.prototype.indexOf` (strict equality,
 * -1 when absent).
 */
module JsArray {

  /** `s.filter((x, i) => keep(x, i))`: the elements kept, in their original order. */
  function Filter<T>(s: seq<T>, keep: (T, nat) -> bool): (r: seq<T>)
    ensures |r| <= |s|
    ensures forall x :: x in r ==> x in s
    ensures (forall i :: 0 <= i < |s| ==> keep(s[i], i)) ==> r == s
  {
    if s == [] then []
    else
      var n := |s| - 1;
      Filter(s[..n], keep) + (if keep(s[n], n) then [s[n]] else [])
  }

  /** An element is in the filtered sequence exactly when some position holding it is kept. */
  lemma {:induction false} FilterMembers<T>(s: seq<T>, keep: (T, nat) -> bool, x: T)
    ensures x in Filter(s, keep) <==> exists i :: 0 <= i < |s| && s[i] == x && keep(s[i], i)
  {
    if s != [] {
      var n := |s| - 1;
      FilterMembers(s[..n], keep, x);
      if x in Filter(s, keep) && x !in Filter(s[..n], keep) {
        assert s[n] == x && keep(s[n], n);
      }
      if exists i :: 0 <= i < |s| && s[i] == x && keep(s[i], i) {
        var i :| 0 <= i < |s| && s[i] == x && keep(s[i], i);
        if i < n {
          assert s[..n][i] == x;
        }
      }
    }
  }

  /** `s.map((x, i) => f(x, i))`: one result per position. */
  function Map<T, U>(s: seq<T>, f: (T, nat) -> U): (r: seq<U>)
    ensures |r| == |s|
    ensures forall i :: 0 <= i < |s| ==> r[i] == f(s[i], i)
  {
    seq(|s|, i requires 0 <= i < |s| => f(s[i], i))
  }

  /** `s.indexOf(x)`: the first position holding `x`, or -1 when there is none. */
  function IndexOf<T(==)>(s: seq<T>, x: T): (r: int)
    ensures -1 <= r < |s|
    ensures r == -1 <==> x !in s
    ensures 0 <= r ==> s[r] == x && x !in s[..r]
  {
    if s == [] then -1
    else if s[0] == x then 0
    else
      var k := IndexOf(s[1..], x);
      if k == -1 then -1
      else
        assert s[..k + 1] == [s[0]] + s[1..][..k];
        k + 1
  }

  /**
   * A filter whose callback rejects exactly position `index` removes that one
   * element when `index` is a position of `s`, and nothing otherwise.
   */
  lemma {:induction false} FilterOutPosition<T>(s: seq<T>, keep: (T, nat) -> bool, index: int)
    requires forall x, i :: keep(x, i) == (i != index)
    ensures Filter(s, keep) == if 0 <= index < |s| then s[..index] + s[index + 1..] else s
  {
    if s != [] {
      var n := |s| - 1;
      FilterOutPosition(s[..n], keep, index);
      if index == n {
        assert s[index + 1..] == [];
        assert s[..n][..n] == s[..index];
      } else if 0 <= index < n {
        assert s[..n][..index] == s[..index];
        assert s[..n][index + 1..] + [s[n]] == s[index + 1..];
      } else {
        assert s[..n] + [s[n]] == s;
      }
    }
  }
}
