/** Rearrangements of a sequence, as the matching and the placement code make them. */
module Permutations {
  /** Every index below `n`, once. */
  predicate Perm(p: seq<nat>, n: nat) {
    && |p| == n
    && (forall i :: 0 <= i < n ==> p[i] < n)
    && Different(p)
  }

  predicate Different(p: seq<nat>) {
    forall i, j :: 0 <= i < j < |p| ==> p[i] != p[j]
  }

  /** Different numbers without one of them. */
  lemma DropOne(p: seq<nat>, k: nat) returns (q: seq<nat>)
    requires Different(p) && k < |p|
    ensures |q| == |p| - 1 && Different(q) && p[k] !in q
    ensures forall m: nat :: m != p[k] ==> (m in q <==> m in p)
  {
    q := p[..k] + p[k + 1..];
    assert forall i :: 0 <= i < |q| ==> q[i] == p[if i < k then i else i + 1];
    assert p == p[..k] + [p[k]] + p[k + 1..];
  }

  /** Distinct numbers below `n` are at most `n`; when there are `n` of them, none is missing. */
  lemma {:induction false} Pigeonhole(p: seq<nat>, n: nat)
    requires (forall i :: 0 <= i < |p| ==> p[i] < n) && Different(p)
    ensures |p| <= n
    ensures |p| == n ==> forall k: nat :: k < n ==> k in p
    decreases n
  {
    if p != [] {
      assert p[0] < n;
      if k :| 0 <= k < |p| && p[k] == n - 1 {
        var q := DropOne(p, k);
        forall i | 0 <= i < |q|
          ensures q[i] < n - 1
        {
          assert q[i] in q && q[i] in p;
        }
        Pigeonhole(q, n - 1);
      } else {
        Pigeonhole(p, n - 1);
      }
    }
  }

  lemma Hits(p: seq<nat>, n: nat, k: nat) returns (i: nat)
    requires Perm(p, n) && k < n
    ensures i < n && p[i] == k
  {
    Pigeonhole(p, n);
    assert k in p;
    i :| 0 <= i < |p| && p[i] == k;
  }

  lemma WithoutOne<T>(s: seq<T>, k: nat)
    requires k < |s|
    ensures multiset(s) == multiset(s[..k] + s[k + 1..]) + multiset{s[k]}
  {
    assert s == s[..k] + [s[k]] + s[k + 1..];
  }

  /** Rearranging keeps the multiset of the entries. */
  lemma {:induction false} PermMultiset<T>(p: seq<nat>, s: seq<T>, t: seq<T>)
    requires Perm(p, |s|) && |t| == |s| && forall i :: 0 <= i < |s| ==> t[i] == s[p[i]]
    ensures multiset(t) == multiset(s)
    decreases |s|
  {
    if s != [] {
      var n := |s| - 1;
      var k := Hits(p, |s|, n);
      var q, u := p[..k] + p[k + 1..], t[..k] + t[k + 1..];
      forall i | 0 <= i < n
        ensures q[i] == (if i < k then p[i] else p[i + 1]) && q[i] < n && u[i] == s[..n][q[i]]
      {
      }
      assert forall i, j :: 0 <= i < j < n ==> q[i] != q[j];
      PermMultiset(q, s[..n], u);
      WithoutOne(t, k);
      WithoutOne(s, n);
      assert s[..n] + s[n + 1..] == s[..n];
    }
  }
}
