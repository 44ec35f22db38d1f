/** Python's `sorted` on strings: lexicographic order, used for JSON keys
    (`sort_keys=True`) and for directory listings (`sorted(os.listdir(...))`). */
module Order {

  predicate Le(a: string, b: string) {
    a == [] || (b != [] && (a[0] < b[0] || (a[0] == b[0] && Le(a[1..], b[1..]))))
  }

  lemma LeTotal(a: string, b: string)
    ensures Le(a, b) || Le(b, a)
  {
  }

  lemma {:induction false} LeAntisymmetric(a: string, b: string)
    requires Le(a, b) && Le(b, a)
    ensures a == b
  {
    if a != [] {
      LeAntisymmetric(a[1..], b[1..]);
      assert a == [a[0]] + a[1..] && b == [b[0]] + b[1..];
    }
  }

  lemma LeTransitive(a: string, b: string, c: string)
    requires Le(a, b) && Le(b, c)
    ensures Le(a, c)
  {
  }

  /** The order of strings: the first character in which two of them differ decides, and a
      proper prefix comes first. */
  lemma {:induction false} LeMeans(a: string, b: string, k: nat)
    requires k <= |a| && k <= |b| && a[..k] == b[..k]
    ensures k == |a| ==> Le(a, b)
    ensures k == |b| && k < |a| ==> !Le(a, b)
    ensures k < |a| && k < |b| && a[k] != b[k] ==> (Le(a, b) <==> a[k] < b[k])
  {
    if k > 0 {
      assert a[0] == a[..k][0] == b[..k][0] == b[0];
      assert a[1..][..k - 1] == a[..k][1..] == b[..k][1..] == b[1..][..k - 1];
      LeMeans(a[1..], b[1..], k - 1);
    }
  }

  ghost predicate IsLeast(x: string, s: set<string>) {
    x in s && forall y :: y in s ==> Le(x, y)
  }

  lemma {:induction false} LeastExists(s: set<string>)
    requires s != {}
    ensures exists x :: IsLeast(x, s)
  {
    var z :| z in s;
    var t := s - {z};
    if t == {} {
      LeTotal(z, z);
      assert forall y :: y in s ==> y == z || y in t;
      assert IsLeast(z, s);
    } else {
      LeastExists(t);
      var x :| IsLeast(x, t);
      LeTotal(x, z);
      LeTotal(z, z);
      if Le(x, z) {
        assert forall y :: y in s ==> y == z || y in t;
        assert IsLeast(x, s);
      } else {
        forall y | y in s ensures Le(z, y) {
          if y != z {
            assert y in t;
            LeTransitive(z, x, y);
          }
        }
        assert IsLeast(z, s);
      }
    }
  }

  lemma LeastUnique(s: set<string>)
    ensures forall x, y :: IsLeast(x, s) && IsLeast(y, s) ==> x == y
  {
    forall x, y | IsLeast(x, s) && IsLeast(y, s) ensures x == y {
      LeAntisymmetric(x, y);
    }
  }

  function Least(s: set<string>): (x: string)
    requires s != {}
    ensures IsLeast(x, s)
  {
    LeastExists(s);
    LeastUnique(s);
    assert exists x :: x in s && forall y :: y in s ==> Le(x, y) by {
      var x :| IsLeast(x, s);
    }
    assert forall x, y | x in s && y in s && (forall z :: z in s ==> Le(x, z)) && (forall z :: z in s ==> Le(y, z))
      :: IsLeast(x, s) && IsLeast(y, s);
    var x :| x in s && forall y :: y in s ==> Le(x, y);
    x
  }

  function Sorted(s: set<string>): seq<string> {
    if s == {} then [] else [Least(s)] + Sorted(s - {Least(s)})
  }

  ghost predicate Ascending(q: seq<string>) {
    forall i, j :: 0 <= i < j < |q| ==> Le(q[i], q[j]) && q[i] != q[j]
  }

  ghost function Elements(q: seq<string>): set<string> {
    set x | x in q
  }

  /** `Sorted` lists exactly the elements of its argument, once each, in order. */
  lemma {:induction false} SortedIsAscending(s: set<string>)
    ensures Ascending(Sorted(s))
    ensures forall x :: x in Sorted(s) <==> x in s
  {
    if s != {} {
      var x := Least(s);
      var q := Sorted(s - {x});
      SortedIsAscending(s - {x});
      assert Sorted(s) == [x] + q;
      forall i | 0 <= i < |q| ensures Le(x, q[i]) && x != q[i] {
        assert q[i] in q;
      }
    }
  }

  /** A listing in ascending order is determined by its elements. */
  lemma {:induction false} AscendingIsSorted(q: seq<string>)
    requires Ascending(q)
    ensures Sorted(Elements(q)) == q
  {
    var s := Elements(q);
    if q == [] {
      assert s == {};
    } else {
      assert q[0] in s;
      LeTotal(q[0], q[0]);
      forall y | y in s ensures Le(q[0], y) {
        var i :| 0 <= i < |q| && q[i] == y;
        if i > 0 { assert Le(q[0], q[i]); }
      }
      assert IsLeast(q[0], s);
      LeastUnique(s);
      assert Least(s) == q[0];
      var r := q[1..];
      assert Ascending(r) by {
        forall i, j | 0 <= i < j < |r| ensures Le(r[i], r[j]) && r[i] != r[j] {
          assert r[i] == q[i + 1] && r[j] == q[j + 1];
        }
      }
      assert Elements(r) == s - {q[0]} by {
        forall x | x in s - {q[0]} ensures x in r {
          var i :| 0 <= i < |q| && q[i] == x;
          assert r[i - 1] == x;
        }
        forall x | x in r ensures x in s && x != q[0] {
          var i :| 0 <= i < |r| && r[i] == x;
          assert q[i + 1] == x && q[0] != q[i + 1];
        }
      }
      AscendingIsSorted(r);
      assert q == [q[0]] + r;
    }
  }
}
