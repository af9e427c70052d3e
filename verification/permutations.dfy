/** Permutations of 0..n-1 as sequences, and the pigeonhole facts about them. */
module Permutations {

  ghost predicate Injective(s: seq<nat>) {
    forall k, m :: 0 <= k < m < |s| ==> s[k] != s[m]
  }

  ghost predicate Permutation(p: seq<nat>, n: nat) {
    |p| == n && Injective(p) && forall k :: 0 <= k < n ==> p[k] < n
  }

  ghost function Below(n: nat): (r: set<nat>)
    ensures |r| == n && forall k: nat :: k in r <==> k < n
  {
    if n == 0 then {} else Below(n - 1) + {n - 1}
  }

  ghost function Members(s: seq<nat>): (r: set<nat>)
    ensures forall v: nat :: v in r <==> v in s
    ensures |r| <= |s| && (Injective(s) ==> |r| == |s|)
  {
    if s == [] then {}
    else
      var init := s[..|s| - 1];
      assert s == init + [s[|s| - 1]];
      Members(init) + {s[|s| - 1]}
  }

  lemma {:induction false} SubsetCardinality<T>(a: set<T>, b: set<T>)
    requires a <= b
    ensures |a| <= |b| && (|a| == |b| ==> a == b)
  {
    if x :| x in a {
      SubsetCardinality(a - {x}, b - {x});
    }
  }

  /** Fewer than n numbers leave one of 0..n-1 out. */
  lemma OneLeft(s: seq<nat>, n: nat) returns (v: nat)
    requires |s| < n
    ensures v < n && v !in s
  {
    if Below(n) <= Members(s) {
      SubsetCardinality(Below(n), Members(s));
    }
    v :| v in Below(n) && v !in Members(s);
  }

  lemma PermutationOnto(p: seq<nat>, n: nat, v: nat)
    requires Permutation(p, n) && v < n
    ensures v in p
  {
    if v !in p {
      SubsetCardinality(Members(p + [v]), Below(n));
    }
  }

  /** Distinct numbers below n extend to a permutation. */
  lemma {:induction false} Completed(chosen: seq<nat>, n: nat) returns (order: seq<nat>)
    requires |chosen| <= n && Injective(chosen) && forall k :: 0 <= k < |chosen| ==> chosen[k] < n
    decreases n - |chosen|
    ensures Permutation(order, n) && chosen <= order
  {
    if |chosen| == n {
      order := chosen;
    } else {
      var v := OneLeft(chosen, n);
      order := Completed(chosen + [v], n);
    }
  }
}
