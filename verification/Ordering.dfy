/** Strict total orders, sorting of finite sets by them, and the order of identifiers. */
module Ordering {

  ghost predicate StrictTotalOrder<T(!new)>(less: (T, T) -> bool) {
    && (forall x :: !less(x, x))
    && (forall x, y :: x != y ==> less(x, y) || less(y, x))
    && (forall x, y, z :: less(x, y) && less(y, z) ==> less(x, z))
  }

  ghost predicate Ascending<T>(s: seq<T>, less: (T, T) -> bool) {
    forall i, j :: 0 <= i < j < |s| ==> less(s[i], s[j])
  }

  predicate IsLeast<T(==)>(m: T, s: set<T>, less: (T, T) -> bool) {
    m in s && forall x :: x in s && x != m ==> less(m, x)
  }

  lemma {:induction false} LeastExists<T(!new)>(s: set<T>, less: (T, T) -> bool)
    requires s != {} && StrictTotalOrder(less)
    ensures exists m :: IsLeast(m, s, less)
    decreases |s|
  {
    var x :| x in s;
    if s == {x} {
      assert IsLeast(x, s, less);
    } else {
      var rest := s - {x};
      assert s == rest + {x};
      LeastExists(rest, less);
      var m :| IsLeast(m, rest, less);
      if less(x, m) {
        forall y | y in s && y != x
          ensures less(x, y)
        {
          assert y == m || less(m, y);
        }
        assert IsLeast(x, s, less);
      } else {
        assert IsLeast(m, s, less);
      }
    }
  }

  /** The elements of a finite set in ascending order. */
  function Sort<T(==, !new)>(s: set<T>, less: (T, T) -> bool): (r: seq<T>)
    requires StrictTotalOrder(less)
    ensures Ascending(r, less)
    ensures forall x :: x in r <==> x in s
    ensures |r| == |s|
    decreases |s|
  {
    if s == {} then []
    else
      LeastExists(s, less);
      var m :| m in s && IsLeast(m, s, less);
      [m] + Sort(s - {m}, less)
  }

  lemma AscendingTail<T(!new)>(s: seq<T>, less: (T, T) -> bool)
    requires s != [] && Ascending(s, less)
    ensures Ascending(s[1..], less)
    ensures forall x :: x in s[1..] ==> less(s[0], x)
  {
  }

  lemma SameHead<T(!new)>(s: seq<T>, t: seq<T>, less: (T, T) -> bool)
    requires StrictTotalOrder(less) && Ascending(s, less) && Ascending(t, less)
    requires s != [] && t != [] && s[0] in t && t[0] in s
    ensures s[0] == t[0]
  {
    AscendingTail(s, less);
    AscendingTail(t, less);
    var x, y := s[0], t[0];
    assert t == [y] + t[1..] && s == [x] + s[1..];
    assert !(less(x, y) && less(y, x));
  }

  /** An ascending sequence is determined by its elements. */
  lemma {:induction false} AscendingUnique<T(!new)>(s: seq<T>, t: seq<T>, less: (T, T) -> bool)
    requires StrictTotalOrder(less) && Ascending(s, less) && Ascending(t, less)
    requires forall x :: x in s <==> x in t
    ensures s == t
  {
    assert (s != [] ==> s[0] in t) && (t != [] ==> t[0] in s);
    if s != [] {
      SameHead(s, t, less);
      AscendingTail(s, less);
      AscendingTail(t, less);
      forall x
        ensures x in s[1..] <==> x in t[1..]
      {
        assert x in s <==> x == s[0] || x in s[1..];
        assert x in t <==> x == t[0] || x in t[1..];
      }
      AscendingUnique(s[1..], t[1..], less);
    }
  }

  lemma SmallerSet<T>(a: set<T>, b: set<T>)
    requires a <= b
    ensures |a| <= |b|
  {
    assert b == a + (b - a);
  }

  /** Identifiers compare character by character, a proper prefix coming first. */
  predicate IdLess(a: string, b: string) {
    if b == "" then false
    else if a == "" then true
    else if a[0] != b[0] then a[0] < b[0]
    else IdLess(a[1..], b[1..])
  }

  lemma {:induction false} IdLessTotal(a: string, b: string)
    ensures !(IdLess(a, b) && IdLess(b, a))
    ensures a != b <==> IdLess(a, b) || IdLess(b, a)
  {
    if a != "" && b != "" && a[0] == b[0] {
      IdLessTotal(a[1..], b[1..]);
      assert a == [a[0]] + a[1..] && b == [b[0]] + b[1..];
    }
  }

  lemma {:induction false} IdLessTransitive(a: string, b: string, c: string)
    requires IdLess(a, b) && IdLess(b, c)
    ensures IdLess(a, c)
  {
    if a != "" && b != "" && c != "" && a[0] == b[0] && b[0] == c[0] {
      IdLessTransitive(a[1..], b[1..], c[1..]);
    }
  }

  /** The texts agree up to position i, where the first ends before the second or has the smaller character. */
  predicate DiffersFirstAt(a: string, b: string, i: nat) {
    && i <= |a| && i < |b| && a[..i] == b[..i]
    && (i < |a| ==> a[i] < b[i])
  }

  lemma SameStart(a: string, b: string, i: nat)
    requires DiffersFirstAt(a, b, i) && i > 0
    ensures a != "" && b != "" && a[0] == b[0]
  {
    assert a[..i][0] == b[..i][0];
  }

  /** The order of identifiers is decided by the first difference. */
  lemma {:induction false} FirstDifferenceOrders(a: string, b: string)
    ensures IdLess(a, b) <==> exists i: nat :: DiffersFirstAt(a, b, i)
  {
    if a != "" && b != "" && a[0] == b[0] {
      FirstDifferenceOrders(a[1..], b[1..]);
      if IdLess(a[1..], b[1..]) {
        var i: nat :| DiffersFirstAt(a[1..], b[1..], i);
        assert a[..i + 1] == [a[0]] + a[1..][..i] && b[..i + 1] == [b[0]] + b[1..][..i];
        assert DiffersFirstAt(a, b, i + 1);
      }
      if i: nat :| DiffersFirstAt(a, b, i) {
        assert i > 0;
        assert a[1..][..i - 1] == a[..i][1..] && b[1..][..i - 1] == b[..i][1..];
        assert DiffersFirstAt(a[1..], b[1..], i - 1);
      }
    } else if b != "" && (a == "" || a[0] < b[0]) {
      assert DiffersFirstAt(a, b, 0);
    } else if i: nat :| DiffersFirstAt(a, b, i) {
      if i > 0 { SameStart(a, b, i); }
      assert false;
    }
  }

  function SortIds(ids: set<string>): (r: seq<string>)
    ensures Ascending(r, IdLess)
    ensures forall x :: x in r <==> x in ids
    ensures |r| == |ids|
  {
    IdOrder();
    Sort(ids, IdLess)
  }

  lemma IdOrder()
    ensures StrictTotalOrder(IdLess)
  {
    forall x
      ensures !IdLess(x, x)
    {
      IdLessTotal(x, x);
    }
    forall x, y | x != y
      ensures IdLess(x, y) || IdLess(y, x)
    {
      IdLessTotal(x, y);
    }
    forall x, y, z | IdLess(x, y) && IdLess(y, z)
      ensures IdLess(x, z)
    {
      IdLessTransitive(x, y, z);
    }
  }
}
