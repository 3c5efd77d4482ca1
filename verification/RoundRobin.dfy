/**
  Dealing a list out to n places. The auto-heal loop always picks the first least
  loaded target; Dealt says which entries reach place j, and so what the loop
  achieves without loads: entry k goes to place k modulo n.
 */
module RoundRobin {
  import opened Common

  /** The entries at positions j, j + n, j + 2n, ... in order. */
  function Dealt<T>(s: seq<T>, n: nat, j: nat): seq<T>
    requires j < n
  {
    if s == [] then []
    else
      var m := |s| - 1;
      Dealt(s[..m], n, j) + if m % n == j then [s[m]] else []
  }

  /** Place j holds one entry more than place i exactly when the last round stopped in between. */
  lemma {:induction false} DealtSize<T>(s: seq<T>, n: nat, j: nat)
    requires j < n
    ensures |Dealt(s, n, j)| == |s| / n + if j < |s| % n then 1 else 0
  {
    if s != [] {
      var m := |s| - 1;
      DealtSize(s[..m], n, j);
      if m % n == n - 1 {
        NextRound(m, n);
      } else {
        SameRound(m, n);
      }
    } else {
      assert 0 / n == 0 && 0 % n == 0;
    }
  }

  lemma NextRound(m: nat, n: nat)
    requires n > 0 && m % n == n - 1
    ensures (m + 1) / n == m / n + 1 && (m + 1) % n == 0
  {
    var q := m / n;
    assert m + 1 == (q + 1) * n by { assert m == q * n + (n - 1); }
    DivModUnique(m + 1, n, q + 1, 0);
  }

  lemma SameRound(m: nat, n: nat)
    requires n > 0 && m % n != n - 1
    ensures (m + 1) / n == m / n && (m + 1) % n == m % n + 1
  {
    DivModUnique(m + 1, n, m / n, m % n + 1);
  }

  lemma DivModUnique(a: nat, n: nat, q: nat, r: nat)
    requires n > 0 && a == q * n + r && r < n
    ensures a / n == q && a % n == r
  {
    var d := a / n - q;
    assert d * n == r - a % n;
    assert d >= 1 ==> d * n >= n;
    assert d <= -1 ==> d * n <= 0 - n;
  }

  /** Any two places differ by at most one entry. */
  lemma DealtEven<T>(s: seq<T>, n: nat, i: nat, j: nat)
    requires i < n && j < n
    ensures -1 <= |Dealt(s, n, i)| - |Dealt(s, n, j)| <= 1
  {
    DealtSize(s, n, i);
    DealtSize(s, n, j);
  }

  /** Every entry reaches exactly the place of its position. */
  lemma {:induction false} DealtMembers<T>(s: seq<T>, n: nat, j: nat, x: T)
    requires j < n
    ensures x in Dealt(s, n, j) <==> exists k :: 0 <= k < |s| && k % n == j && s[k] == x
  {
    if s != [] {
      var m := |s| - 1;
      DealtMembers(s[..m], n, j, x);
      if k :| 0 <= k < |s| && k % n == j && s[k] == x {
        assert k < m ==> s[..m][k] == x;
      }
      if k :| 0 <= k < m && k % n == j && s[..m][k] == x {
        assert s[k] == x;
      }
    }
  }

  lemma {:induction false} DealtDistinct<T>(s: seq<T>, n: nat, j: nat)
    requires j < n && Distinct(s)
    ensures Distinct(Dealt(s, n, j))
  {
    if s != [] {
      var m := |s| - 1;
      DealtDistinct(s[..m], n, j);
      DealtMembers(s[..m], n, j, s[m]);
    }
  }

  ghost predicate Placed<T>(s: seq<T>, n: nat, x: T) {
    exists j: nat :: j < n && x in Dealt(s, n, j)
  }

  /** Different places share nothing, and together they hold everything. */
  lemma DealtPartitions<T>(s: seq<T>, n: nat)
    requires n > 0 && Distinct(s)
    ensures forall i, j :: 0 <= i < j < n ==> Elements(Dealt(s, n, i)) !! Elements(Dealt(s, n, j))
    ensures forall x :: x in s ==> Placed(s, n, x)
    ensures forall j, x :: 0 <= j < n && x in Dealt(s, n, j) ==> x in s
  {
    forall i, j | 0 <= i < j < n ensures Elements(Dealt(s, n, i)) !! Elements(Dealt(s, n, j)) {
      forall x | x in Dealt(s, n, i) ensures x !in Dealt(s, n, j) {
        DealtMembers(s, n, i, x);
        DealtMembers(s, n, j, x);
      }
    }
    forall x | x in s ensures Placed(s, n, x) {
      var k :| 0 <= k < |s| && s[k] == x;
      DealtMembers(s, n, k % n, x);
      assert x in Dealt(s, n, k % n);
    }
    forall j, x | 0 <= j < n && x in Dealt(s, n, j) ensures x in s {
      DealtMembers(s, n, j, x);
    }
  }
}
