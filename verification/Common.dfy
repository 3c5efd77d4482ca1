/** Small vocabulary shared by every component. */
module Common {

  datatype Option<+T> = None | Some(value: T)

  datatype Result<+T, +E> = Ok(value: T) | Err(error: E)

  function Max(a: int, b: int): int {
    if a < b then b else a
  }

  function Min(a: int, b: int): int {
    if b < a then b else a
  }

  predicate Distinct<T(==)>(s: seq<T>) {
    forall i, j :: 0 <= i < j < |s| ==> s[i] != s[j]
  }

  function Elements<T>(s: seq<T>): set<T> {
    set x | x in s
  }

  /** A sequence without repetition has as many elements as entries. */
  lemma {:induction false} DistinctSize<T>(s: seq<T>)
    requires Distinct(s)
    ensures |Elements(s)| == |s|
  {
    if s != [] {
      var init := s[..|s| - 1];
      DistinctSize(init);
      assert s == init + [s[|s| - 1]];
      assert Elements(s) == Elements(init) + {s[|s| - 1]};
    }
  }

  lemma DistinctConcat<T>(a: seq<T>, b: seq<T>)
    requires Distinct(a) && Distinct(b) && Elements(a) !! Elements(b)
    ensures Distinct(a + b) && Elements(a + b) == Elements(a) + Elements(b)
    ensures |a + b| == |Elements(a)| + |Elements(b)|
  {
    DistinctSize(a);
    DistinctSize(b);
    forall i, j | 0 <= i < j < |a + b| ensures (a + b)[i] != (a + b)[j] {
      if i < |a| <= j {
        assert a[i] in Elements(a) && b[j - |a|] in Elements(b);
      }
    }
  }

  /** A one-to-one correspondence, given as a map, preserves size. */
  lemma {:induction false} BijectionSize<A, B>(f: map<A, B>)
    requires forall x, y :: x in f && y in f && f[x] == f[y] ==> x == y
    ensures |f.Values| == |f.Keys|
  {
    if f.Keys != {} {
      var x :| x in f;
      var g := f - {x};
      BijectionSize(g);
      assert f.Keys == g.Keys + {x};
      assert f.Values == g.Values + {f[x]};
    }
  }

  /** Lists a set in some order: the rows of a query without an order clause. */
  method ListOf<T(==)>(s: set<T>) returns (q: seq<T>)
    ensures Distinct(q)
    ensures Elements(q) == s
    ensures |q| == |s|
  {
    q := [];
    var rest := s;
    while rest != {}
      invariant Distinct(q)
      invariant Elements(q) !! rest
      invariant Elements(q) + rest == s
      decreases rest
    {
      var x :| x in rest;
      q := q + [x];
      rest := rest - {x};
    }
    DistinctSize(q);
  }

  lemma SomeOf<T>(s: set<T>) returns (x: T)
    requires s != {}
    ensures x in s
  {
    x :| x in s;
  }

  lemma Outsider<T>(a: set<T>, b: set<T>) returns (x: T)
    requires !(a <= b)
    ensures x in a && x !in b
  {
    x :| x in a && x !in b;
  }
}
