/** The order PostgreSQL uses for `text` columns in ORDER BY, MIN and comparisons, taken to be
    code-point lexicographic order (the "C" collation), and the sorted listing of a finite set
    of keys that an `ORDER BY key ASC` over a primary-key column produces. */
module Collation {

  /** `a` sorts no later than `b`: lexicographic order on characters, a prefix first. */
  predicate Le(a: string, b: string)
  {
    |a| == 0 || (|b| > 0 && (a[0] < b[0] || (a[0] == b[0] && Le(a[1..], b[1..]))))
  }

  predicate Lt(a: string, b: string)
  {
    Le(a, b) && a != b
  }

  /** Every pair of adjacent-or-not positions is in strictly ascending order. */
  predicate StrictlyAscending(s: seq<string>)
  {
    forall i, j :: 0 <= i < j < |s| ==> Lt(s[i], s[j])
  }

  lemma {:induction false} LeReflexive(a: string)
    ensures Le(a, a)
  {
    if |a| > 0 {
      LeReflexive(a[1..]);
    }
  }

  lemma {:induction false} LeAntisymmetric(a: string, b: string)
    requires Le(a, b) && Le(b, a)
    ensures a == b
  {
    if |a| > 0 && |b| > 0 && a[0] == b[0] {
      LeAntisymmetric(a[1..], b[1..]);
      assert a == [a[0]] + a[1..];
      assert b == [b[0]] + b[1..];
    }
  }

  lemma {:induction false} LeTransitive(a: string, b: string, c: string)
    requires Le(a, b) && Le(b, c)
    ensures Le(a, c)
  {
    if |a| > 0 && |b| > 0 && |c| > 0 && a[0] == b[0] && b[0] == c[0] {
      LeTransitive(a[1..], b[1..], c[1..]);
    }
  }

  lemma {:induction false} LeTotal(a: string, b: string)
    ensures Le(a, b) || Le(b, a)
  {
    if |a| > 0 && |b| > 0 && a[0] == b[0] {
      LeTotal(a[1..], b[1..]);
    }
  }

  lemma LeAntisymmetricAll()
    ensures forall a, b :: Le(a, b) && Le(b, a) ==> a == b
  {
    forall a, b | Le(a, b) && Le(b, a)
      ensures a == b
    {
      LeAntisymmetric(a, b);
    }
  }

  /** Two distinct texts listed in ascending order are listed in their own order. */
  lemma OrderedPair(x: string, y: string, a: string, b: string)
    requires (x == a || x == b) && (y == a || y == b)
    requires Lt(x, y) && Lt(a, b)
    ensures x == a && y == b
  {
    if x == b && y == a {
      LeAntisymmetric(a, b);
    }
  }

  /** Every finite non-empty set of texts has a least element. */
  lemma {:induction false} LeastExists(s: set<string>)
    requires s != {}
    ensures exists m :: m in s && forall k :: k in s ==> Le(m, k)
    decreases |s|
  {
    var x :| x in s;
    if s == {x} {
      LeReflexive(x);
      assert forall k :: k in s ==> k == x;
    } else {
      var rest := s - {x};
      LeastExists(rest);
      var m :| m in rest && forall k :: k in rest ==> Le(m, k);
      LeTotal(x, m);
      var least := if Le(x, m) then x else m;
      forall k | k in s
        ensures Le(least, k)
      {
        if k == x {
          LeReflexive(x);
        } else if least == x {
          LeTransitive(x, m, k);
        }
      }
      assert least in s;
    }
  }

  /** The least element of a finite non-empty set of texts (what `MIN(col)` returns). */
  function Least(s: set<string>): (m: string)
    requires s != {}
    ensures m in s
    ensures forall k :: k in s ==> Le(m, k)
  {
    LeastExists(s);
    LeAntisymmetricAll();
    var m :| m in s && forall k :: k in s ==> Le(m, k);
    m
  }

  /** The keys of a set listed in ascending order, each exactly once. */
  function SortedKeys(s: set<string>): (r: seq<string>)
    ensures |r| == |s|
    ensures forall k :: k in r <==> k in s
    ensures StrictlyAscending(r)
    decreases |s|
  {
    if s == {} then []
    else
      var m := Least(s);
      var rest := SortedKeys(s - {m});
      forall j | 0 <= j < |rest|
        ensures Lt(m, rest[j])
      {
        assert rest[j] in s - {m};
      }
      [m] + rest
  }
}
