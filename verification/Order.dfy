/** Strict total orders, and the one ascending enumeration of a finite set. */
module Order {

  ghost predicate StrictOrder<T(!new)>(less: (T, T) -> bool) {
    && (forall x :: !less(x, x))
    && (forall x, y, z :: less(x, y) && less(y, z) ==> less(x, z))
    && (forall x, y :: less(x, y) || less(y, x) || x == y)
  }

  ghost predicate Ascending<T>(s: seq<T>, less: (T, T) -> bool) {
    forall i, j :: 0 <= i < j < |s| ==> less(s[i], s[j])
  }

  ghost predicate Least<T>(m: T, s: set<T>, less: (T, T) -> bool) {
    m in s && forall x | x in s :: x == m || less(m, x)
  }

  lemma {:induction false} LeastExists<T(!new)>(s: set<T>, less: (T, T) -> bool) returns (m: T)
    requires StrictOrder(less) && s != {}
    ensures Least(m, s, less)
    decreases |s|
  {
    var x :| x in s;
    if s == {x} {
      m := x;
    } else {
      var rest := s - {x};
      assert s == rest + {x};
      var r := LeastExists(rest, less);
      m := if less(x, r) then x else r;
    }
  }

  // The elements of a set in ascending order, as ORDER BY lists them.
  function Sorted<T(!new)>(s: set<T>, less: (T, T) -> bool): (r: seq<T>)
    requires StrictOrder(less)
    ensures Ascending(r, less) && |r| == |s|
    ensures forall x :: x in r <==> x in s
    decreases |s|
  {
    if s == {} then []
    else
      var _ := LeastOf(s, less);
      var m :| m in s && forall x | x in s :: x == m || less(m, x);
      [m] + Sorted(s - {m}, less)
  }

  ghost function LeastOf<T(!new)>(s: set<T>, less: (T, T) -> bool): (m: T)
    requires StrictOrder(less) && s != {}
    ensures Least(m, s, less)
  {
    assert exists m :: Least(m, s, less) by {
      var m := LeastExists(s, less);
    }
    var m :| Least(m, s, less);
    m
  }

  // An ascending enumeration is determined by its elements.
  lemma {:induction false} AscendingUnique<T(!new)>(a: seq<T>, b: seq<T>, less: (T, T) -> bool)
    requires StrictOrder(less) && Ascending(a, less) && Ascending(b, less)
    requires forall x :: x in a <==> x in b
    ensures a == b
  {
    assert a != [] ==> a[0] in b;
    assert b != [] ==> b[0] in a;
    if a != [] {
      assert a[0] == b[0] by {
        assert a[0] in b && b[0] in a;
      }
      var x := a[0];
      assert a == [x] + a[1..] && b == [x] + b[1..];
      forall y ensures y in a[1..] <==> y in b[1..] {
        assert x !in a[1..] && x !in b[1..];
        assert y in a <==> y == x || y in a[1..];
        assert y in b <==> y == x || y in b[1..];
      }
      AscendingUnique(a[1..], b[1..], less);
    }
  }

  predicate IntLess(a: int, b: int) { a < b }

  lemma IntOrder()
    ensures StrictOrder(IntLess)
  {
  }

  // Lexicographic by code unit.
  predicate StringLess(a: string, b: string) {
    if b == "" then false
    else if a == "" then true
    else a[0] < b[0] || (a[0] == b[0] && StringLess(a[1..], b[1..]))
  }

  lemma StringOrder()
    ensures StrictOrder(StringLess)
  {
    forall x ensures !StringLess(x, x) { StringIrreflexive(x); }
    forall x, y, z | StringLess(x, y) && StringLess(y, z) ensures StringLess(x, z) {
      StringTransitive(x, y, z);
    }
    forall x, y ensures StringLess(x, y) || StringLess(y, x) || x == y { StringTotal(x, y); }
  }

  lemma {:induction false} StringIrreflexive(x: string)
    ensures !StringLess(x, x)
  {
    if x != "" { StringIrreflexive(x[1..]); }
  }

  lemma {:induction false} StringTransitive(x: string, y: string, z: string)
    requires StringLess(x, y) && StringLess(y, z)
    ensures StringLess(x, z)
  {
    if x != "" && x[0] == y[0] == z[0] { StringTransitive(x[1..], y[1..], z[1..]); }
  }

  lemma {:induction false} StringTotal(x: string, y: string)
    ensures StringLess(x, y) || StringLess(y, x) || x == y
  {
    if x != "" && y != "" && x[0] == y[0] {
      StringTotal(x[1..], y[1..]);
      assert x == [x[0]] + x[1..] && y == [y[0]] + y[1..];
    }
  }

  // Where two strings first differ decides, and a front part comes first.
  lemma {:induction false} StringLessIff(a: string, b: string)
    ensures StringLess(a, b) <==>
              exists k: nat :: k <= |a| && k < |b| && a[..k] == b[..k] && (k == |a| || a[k] < b[k])
  {
    if StringLess(a, b) {
      var k := FirstDifference(a, b);
    }
    if k: nat :| k <= |a| && k < |b| && a[..k] == b[..k] && (k == |a| || a[k] < b[k]) {
      LessAt(a, b, k);
    }
  }

  lemma {:induction false} FirstDifference(a: string, b: string) returns (k: nat)
    requires StringLess(a, b)
    ensures k <= |a| && k < |b| && a[..k] == b[..k] && (k == |a| || a[k] < b[k])
  {
    if a == "" || a[0] < b[0] {
      k := 0;
    } else {
      var rest := FirstDifference(a[1..], b[1..]);
      k := rest + 1;
      assert a[..k] == [a[0]] + a[1..][..rest] && b[..k] == [b[0]] + b[1..][..rest];
    }
  }

  lemma {:induction false} LessAt(a: string, b: string, k: nat)
    requires k <= |a| && k < |b| && a[..k] == b[..k] && (k == |a| || a[k] < b[k])
    ensures StringLess(a, b)
    decreases k
  {
    if k > 0 {
      assert a[0] == a[..k][0] == b[..k][0] == b[0];
      assert a[1..][..k - 1] == a[..k][1..] == b[..k][1..] == b[1..][..k - 1];
      LessAt(a[1..], b[1..], k - 1);
    }
  }
}
