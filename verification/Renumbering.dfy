/** Graphs with their nodes renumbered: what a renumbering that carries every arc keeps. */
module Renumbering {
  import opened Orders
  import opened Graphs

  /** Every arc of `g` is an arc of `h` between the new numbers. */
  ghost predicate Carries(n: nat, g: Graph, h: Graph, pi: seq<nat>) {
    IsMatching(n, pi) &&
    forall a: nat, b: nat :: a < n && b < n && Linked(g, a, b) ==> Linked(h, pi[a], pi[b])
  }

  ghost function Renamed(pi: seq<nat>, p: seq<nat>): (r: seq<nat>)
    requires forall i :: 0 <= i < |p| ==> p[i] < |pi|
    ensures |r| == |p| && forall i :: 0 <= i < |p| ==> r[i] == pi[p[i]]
  {
    seq(|p|, i requires 0 <= i < |p| => pi[p[i]])
  }

  lemma PathCarried(n: nat, g: Graph, h: Graph, pi: seq<nat>, p: seq<nat>)
    requires Carries(n, g, h, pi) && IsPath(n, g, p)
    ensures IsPath(n, h, Renamed(pi, p))
  {
    var r := Renamed(pi, p);
    forall i | 0 <= i < |r| - 1 ensures Linked(h, r[i], r[i + 1]) {
      assert Linked(g, p[i], p[i + 1]);
    }
  }

  lemma ReachesCarried(n: nat, g: Graph, h: Graph, pi: seq<nat>, u: nat, v: nat)
    requires Carries(n, g, h, pi) && u < n && v < n && Reaches(n, g, u, v)
    ensures Reaches(n, h, pi[u], pi[v])
  {
    var p :| PathBetween(n, g, p, u, v);
    PathCarried(n, g, h, pi, p);
    assert PathBetween(n, h, Renamed(pi, p), pi[u], pi[v]);
  }

  lemma AcyclicCarriedBack(n: nat, g: Graph, h: Graph, pi: seq<nat>)
    requires Carries(n, g, h, pi) && Acyclic(n, h)
    ensures Acyclic(n, g)
  {
    forall p ensures !IsCycle(n, g, p) {
      if IsCycle(n, g, p) {
        PathCarried(n, g, h, pi, p);
        assert IsCycle(n, h, Renamed(pi, p));
      }
    }
  }

  // ------------------------------------------------------------------------ weights

  lemma {:induction false} WeightCarried(w: seq<nat>, w': seq<nat>, pi: seq<nat>, p: seq<nat>)
    requires |w| == |pi| == |w'| && IsMatching(|pi|, pi) && forall v :: 0 <= v < |w| ==> w'[pi[v]] == w[v]
    requires forall i :: 0 <= i < |p| ==> p[i] < |w|
    ensures Weight(w', Renamed(pi, p)) == Weight(w, p)
  {
    if p != [] {
      WeightCarried(w, w', pi, p[..|p| - 1]);
      assert Renamed(pi, p)[..|p| - 1] == Renamed(pi, p[..|p| - 1]);
    }
  }

  /** The numbers of the same nodes in two graphs that carry each other. */
  ghost predicate Isomorphic(n: nat, g: Graph, h: Graph, pi: seq<nat>, back: seq<nat>) {
    && Carries(n, g, h, pi) && Carries(n, h, g, back)
    && forall v :: 0 <= v < n ==> back[pi[v]] == v && pi[back[v]] == v
  }

  lemma CriticalCarried(n: nat, g: Graph, h: Graph, pi: seq<nat>, back: seq<nat>, w: seq<nat>, w': seq<nat>, total: nat)
    requires Isomorphic(n, g, h, pi, back) && |w| == |w'| == n && forall v :: 0 <= v < n ==> w'[pi[v]] == w[v]
    requires IsCriticalWeight(n, g, w, total)
    ensures IsCriticalWeight(n, h, w', total)
  {
    var p :| IsPath(n, g, p) && Weight(w, p) == total;
    PathCarried(n, g, h, pi, p);
    WeightCarried(w, w', pi, p);
    forall q | IsPath(n, h, q) ensures Weight(w', q) <= total {
      PathCarried(n, h, g, back, q);
      assert forall v :: 0 <= v < n ==> w[back[v]] == w'[pi[back[v]]];
      WeightCarried(w', w, back, q);
    }
  }

  // ---------------------------------------------------------------------- counting

  /** A set that is mapped one-to-one into another is no larger. */
  lemma {:induction false} InjectionBounds(a: set<nat>, b: set<nat>, f: seq<nat>)
    requires IsMatching(|f|, f) && forall x :: x in a ==> x < |f| && f[x] in b
    ensures |a| <= |b|
  {
    if x :| x in a {
      forall y | y in a - {x} ensures f[y] in b - {f[x]} {
        assert f[y] != f[x];
      }
      InjectionBounds(a - {x}, b - {f[x]}, f);
    }
  }
}
