/**
 * Ordering of result lists. The routers sort with Python's `list.sort` and
 * SQL `ORDER BY`; the model sorts with one stable insertion sort that takes
 * the comparison as a parameter, and orders strings the way Python and SQLite
 * compare them (code point by code point, a proper prefix first).
 */
module Sorting {

  /** `le` is total and transitive: a comparison the sort can rely on. */
  ghost predicate TotalPreorder<T(!new)>(le: (T, T) -> bool)
  {
    (forall a, b :: le(a, b) || le(b, a)) &&
    (forall a, b, c :: le(a, b) && le(b, c) ==> le(a, c))
  }

  predicate Sorted<T>(s: seq<T>, le: (T, T) -> bool)
  {
    forall i, j :: 0 <= i < j < |s| ==> le(s[i], s[j])
  }

  /** Places `x` after every element of `r` that may precede it. */
  function Insert<T>(x: T, r: seq<T>, le: (T, T) -> bool): (q: seq<T>)
    ensures |q| == |r| + 1
    ensures multiset(q) == multiset(r) + multiset{x}
  {
    if r == [] then [x]
    else if le(r[0], x) then
      assert r == [r[0]] + r[1..];
      [r[0]] + Insert(x, r[1..], le)
    else [x] + r
  }

  lemma {:induction false} InsertKeepsSorted<T(!new)>(x: T, r: seq<T>, le: (T, T) -> bool)
    requires TotalPreorder(le)
    requires Sorted(r, le)
    ensures Sorted(Insert(x, r, le), le)
  {
    if r != [] {
      if le(r[0], x) {
        var tail := Insert(x, r[1..], le);
        InsertKeepsSorted(x, r[1..], le);
        forall k | 0 <= k < |tail| ensures le(r[0], tail[k]) {
          assert tail[k] == x || tail[k] in r[1..] by {
            assert tail[k] in multiset(r[1..]) + multiset{x};
          }
          if tail[k] != x {
            FirstPrecedesRest(r, tail[k], le);
          }
        }
        assert Insert(x, r, le) == [r[0]] + tail;
      } else {
        assert le(x, r[0]);
        forall k | 0 <= k < |r| ensures le(x, r[k]) {
          if k > 0 { assert le(r[0], r[k]); }
        }
      }
    }
  }

  /** In a sorted sequence the first element may precede every later one. */
  lemma FirstPrecedesRest<T>(r: seq<T>, y: T, le: (T, T) -> bool)
    requires r != [] && Sorted(r, le) && y in r[1..]
    ensures le(r[0], y)
  {
    var j :| 0 <= j < |r[1..]| && r[1..][j] == y;
    assert r[j + 1] == y;
  }


  /** A stable insertion sort of `s` by `le`. */
  function SortWith<T(!new)>(s: seq<T>, le: (T, T) -> bool): (q: seq<T>)
    ensures |q| == |s|
    ensures multiset(q) == multiset(s)
    ensures TotalPreorder(le) ==> Sorted(q, le)
  {
    if s == [] then []
    else
      var init := SortWith(s[..|s| - 1], le);
      var q := Insert(s[|s| - 1], init, le);
      assert s == s[..|s| - 1] + [s[|s| - 1]];
      assert TotalPreorder(le) ==> Sorted(q, le) by {
        if TotalPreorder(le) { InsertKeepsSorted(s[|s| - 1], init, le); }
      }
      q
  }

  // ---------------------------------------------------------------------
  // Stability

  /** `a` and `b` are equivalent under `le`: neither comes before the other. */
  predicate Tie<T>(le: (T, T) -> bool, a: T, b: T)
  {
    le(a, b) && le(b, a)
  }

  /** The elements of `s` equivalent to `x` under `le`, in the order `s` has them. */
  function Ties<T>(s: seq<T>, le: (T, T) -> bool, x: T): (r: seq<T>)
    ensures |r| <= |s|
  {
    if s == [] then [] else (if Tie(le, s[0], x) then [s[0]] else []) + Ties(s[1..], le, x)
  }

  /** `q` keeps every class of equivalent elements of `s` in the order `s` has them. */
  ghost predicate KeepsTieOrder<T(!new)>(q: seq<T>, s: seq<T>, le: (T, T) -> bool)
  {
    forall x :: Ties(q, le, x) == Ties(s, le, x)
  }

  lemma {:induction false} TiesAppend<T>(a: seq<T>, b: seq<T>, le: (T, T) -> bool, x: T)
    ensures Ties(a + b, le, x) == Ties(a, le, x) + Ties(b, le, x)
  {
    if a == [] {
      assert a + b == b;
    } else {
      assert a == [a[0]] + a[1..];
      assert a + b == [a[0]] + (a[1..] + b);
      TiesAppend(a[1..], b, le, x);
      ConsTies(a[0], a[1..], a[1..] + b, le, x, Ties(b, le, x));
    }
  }

  /** Elements all strictly after `y` contribute no tie of `x` when `y` ties `x`. */
  lemma {:induction false} NoTiesAbove<T(!new)>(r: seq<T>, le: (T, T) -> bool, y: T, x: T)
    requires TotalPreorder(le)
    requires Tie(le, y, x)
    requires forall k :: 0 <= k < |r| ==> !le(r[k], y)
    ensures Ties(r, le, x) == []
  {
    if r != [] {
      assert !Tie(le, r[0], x);
      NoTiesAbove(r[1..], le, y, x);
    }
  }

  /** Inserting `y` adds it at the end of its class and leaves every other class alone. */
  lemma {:induction false} InsertTies<T(!new)>(y: T, r: seq<T>, le: (T, T) -> bool, x: T)
    requires TotalPreorder(le)
    requires Sorted(r, le)
    ensures Ties(Insert(y, r, le), le, x) == Ties(r, le, x) + (if Tie(le, y, x) then [y] else [])
  {
    if r != [] {
      if le(r[0], y) {
        assert r == [r[0]] + r[1..];
        InsertTies(y, r[1..], le, x);
        ConsTies(r[0], r[1..], Insert(y, r[1..], le), le, x, if Tie(le, y, x) then [y] else []);
      } else {
        InsertTiesFront(y, r, le, x);
      }
    }
  }

  /** Putting the same head in front of two sequences keeps a relation between their ties. */
  lemma ConsTies<T>(h: T, t: seq<T>, u: seq<T>, le: (T, T) -> bool, x: T, e: seq<T>)
    requires Ties(u, le, x) == Ties(t, le, x) + e
    ensures Ties([h] + u, le, x) == Ties([h] + t, le, x) + e
  {
    assert ([h] + u)[1..] == u;
    assert ([h] + t)[1..] == t;
    var head := if Tie(le, h, x) then [h] else [];
    assert head + (Ties(t, le, x) + e) == (head + Ties(t, le, x)) + e;
  }

  /** The step of InsertTies where `y` goes in front of `r`. */
  lemma InsertTiesFront<T(!new)>(y: T, r: seq<T>, le: (T, T) -> bool, x: T)
    requires TotalPreorder(le)
    requires Sorted(r, le)
    requires r != [] && !le(r[0], y)
    ensures Ties(Insert(y, r, le), le, x) == Ties(r, le, x) + (if Tie(le, y, x) then [y] else [])
  {
    assert Insert(y, r, le) == [y] + r;
    assert ([y] + r)[1..] == r;
    if Tie(le, y, x) {
      forall k | 0 <= k < |r| ensures !le(r[k], y) {
        assert k == 0 || le(r[0], r[k]);
      }
      NoTiesAbove(r, le, y, x);
    }
  }

  /** The sort is stable: equivalent elements keep their relative order. */
  lemma {:induction false} SortWithIsStable<T(!new)>(s: seq<T>, le: (T, T) -> bool)
    requires TotalPreorder(le)
    ensures KeepsTieOrder(SortWith(s, le), s, le)
  {
    if s != [] {
      var init := s[..|s| - 1];
      var last := s[|s| - 1];
      SortWithIsStable(init, le);
      assert s == init + [last];
      forall x ensures Ties(SortWith(s, le), le, x) == Ties(s, le, x) {
        InsertTies(last, SortWith(init, le), le, x);
        TiesAppend(init, [last], le, x);
      }
    }
  }

  // ---------------------------------------------------------------------
  // String order

  /** `a <= b` for Python and SQLite strings. */
  predicate StrLe(a: string, b: string)
  {
    a == [] || (b != [] && (a[0] < b[0] || (a[0] == b[0] && StrLe(a[1..], b[1..]))))
  }

  lemma {:induction false} StrLeTotal(a: string, b: string)
    ensures StrLe(a, b) || StrLe(b, a)
  {
    if a != [] && b != [] && a[0] == b[0] {
      StrLeTotal(a[1..], b[1..]);
    }
  }

  lemma {:induction false} StrLeTransitive(a: string, b: string, c: string)
    requires StrLe(a, b) && StrLe(b, c)
    ensures StrLe(a, c)
  {
    if a != [] && b != [] && c != [] && a[0] == b[0] && b[0] == c[0] {
      StrLeTransitive(a[1..], b[1..], c[1..]);
    }
  }

  lemma {:induction false} StrLeAntisymmetric(a: string, b: string)
    requires StrLe(a, b) && StrLe(b, a)
    ensures a == b
  {
    if a != [] && b != [] {
      StrLeAntisymmetric(a[1..], b[1..]);
      assert a == [a[0]] + a[1..] && b == [b[0]] + b[1..];
    }
  }

  /** String comparison is a total order. */
  lemma StrLeIsTotalOrder()
    ensures forall a, b :: StrLe(a, b) || StrLe(b, a)
    ensures forall a, b, c :: StrLe(a, b) && StrLe(b, c) ==> StrLe(a, c)
  {
    forall a, b ensures StrLe(a, b) || StrLe(b, a) { StrLeTotal(a, b); }
    forall a, b, c | StrLe(a, b) && StrLe(b, c) ensures StrLe(a, c) { StrLeTransitive(a, b, c); }
  }
}
