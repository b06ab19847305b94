/**
 * The parts of Python's built-in `list` that the `Row` record relies on:
 * subscription with an integer (negative indices count from the end),
 * `list.index`, `list.count` and `zip`.
 */
module PyList {
  import opened Wrappers

  /**
   * `s[i]` for an integer `i`: `None` stands for the `IndexError` Python raises.
   * A negative `i` counts from the end of the list.
   */
  function At<T>(s: seq<T>, i: int): (r: Option<T>)
    ensures r.Some? <==> -|s| <= i < |s|
    ensures r.Some? ==> exists j :: 0 <= j < |s| && (j == i || j == i + |s|) && r.value == s[j]
  {
    if 0 <= i < |s| then Some(s[i])
    else if -|s| <= i < 0 then Some(s[|s| + i])
    else None
  }

  /**
   * `s.index(x)`: the position of the FIRST occurrence of `x`;
   * `None` stands for the `ValueError` Python raises when `x` is absent.
   */
  function IndexOf<T(==)>(s: seq<T>, x: T): (r: Option<nat>)
    ensures r.None? <==> x !in s
    ensures r.Some? ==> r.value < |s| && s[r.value] == x
    ensures r.Some? ==> forall j :: 0 <= j < r.value ==> s[j] != x
  {
    if s == [] then None
    else if s[0] == x then Some(0)
    else
      match IndexOf(s[1..], x)
      case None => None
      case Some(k) => Some(k + 1)
  }

  /** `s.count(x)`: how many elements of `s` equal `x`. */
  function Count<T(==)>(s: seq<T>, x: T): (n: nat)
    ensures n == multiset(s)[x]
  {
    if s == [] then 0
    else
      assert s == [s[0]] + s[1..];
      (if s[0] == x then 1 else 0) + Count(s[1..], x)
  }

  /** `zip(a, b)`: pairs up the elements at equal positions and stops at the shorter input. */
  function Zip<A, B>(a: seq<A>, b: seq<B>): (r: seq<(A, B)>)
    ensures |r| == if |a| <= |b| then |a| else |b|
    ensures forall i :: 0 <= i < |r| ==> r[i] == (a[i], b[i])
  {
    if a == [] || b == [] then []
    else [(a[0], b[0])] + Zip(a[1..], b[1..])
  }

  /** `j` is the only position of `s` that holds `x`. */
  ghost predicate OnlyAt<T>(s: seq<T>, x: T, j: int) {
    0 <= j < |s| && s[j] == x && forall k :: 0 <= k < |s| && s[k] == x ==> k == j
  }

  /** `x` occurs in `s` at exactly one position. */
  ghost predicate OccursOnce<T>(s: seq<T>, x: T) {
    exists j :: OnlyAt(s, x, j)
  }

  /** `x` occurs in `s` at two or more positions. */
  ghost predicate OccursTwice<T>(s: seq<T>, x: T) {
    exists j, k :: 0 <= j < k < |s| && s[j] == x && s[k] == x
  }

  /** `count` is exactly 1 precisely when the element occurs at a single position. */
  lemma {:induction false} CountOneIffOccursOnce<T>(s: seq<T>, x: T)
    ensures Count(s, x) == 1 <==> OccursOnce(s, x)
  {
    if s != [] {
      var t := s[1..];
      CountOneIffOccursOnce(t, x);
      if s[0] == x {
        if Count(s, x) == 1 {
          assert x !in t;
          forall k | 0 < k < |s| ensures s[k] != x {
            assert s[k] == t[k - 1];
          }
          assert OnlyAt(s, x, 0);
        }
        if OccursOnce(s, x) {
          var j :| OnlyAt(s, x, j);
          assert j == 0;
          forall m | 0 <= m < |t| ensures t[m] != x {
            assert t[m] == s[m + 1];
          }
        }
      } else {
        if OccursOnce(t, x) {
          var j :| OnlyAt(t, x, j);
          forall k | 0 <= k < |s| && s[k] == x ensures k == j + 1 {
            assert t[k - 1] == x;
          }
          assert OnlyAt(s, x, j + 1);
        }
        if OccursOnce(s, x) {
          var j :| OnlyAt(s, x, j);
          assert t[j - 1] == x;
          forall k | 0 <= k < |t| && t[k] == x ensures k == j - 1 {
            assert s[k + 1] == x;
          }
          assert OnlyAt(t, x, j - 1);
        }
      }
    }
  }

  /** `count` exceeds 1 precisely when the element occurs at two different positions. */
  lemma {:induction false} CountManyIffOccursTwice<T>(s: seq<T>, x: T)
    ensures Count(s, x) > 1 <==> OccursTwice(s, x)
  {
    if s != [] {
      var t := s[1..];
      CountManyIffOccursTwice(t, x);
      if OccursTwice(t, x) {
        var j, k :| 0 <= j < k < |t| && t[j] == x && t[k] == x;
        assert s[j + 1] == x && s[k + 1] == x;
      }
      if OccursTwice(s, x) {
        var j, k :| 0 <= j < k < |s| && s[j] == x && s[k] == x;
        assert t[k - 1] == x;
        if j > 0 { assert t[j - 1] == x; }
      }
      if s[0] == x && x in t {
        var m :| 0 <= m < |t| && t[m] == x;
        assert s[m + 1] == x;
      }
    }
  }
}
