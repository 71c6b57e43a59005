/** Reachability in a finite directed graph: each node with its successors. */
module Graph {

  ghost predicate Trail<T(!new)>(g: map<T, set<T>>, p: seq<T>) {
    && (forall k :: 0 <= k < |p| ==> p[k] in g)
    && (forall k :: 0 <= k < |p| - 1 ==> p[k + 1] in g[p[k]])
  }

  ghost predicate TrailFrom<T(!new)>(g: map<T, set<T>>, a: T, b: T, p: seq<T>) {
    p != [] && p[0] == a && p[|p| - 1] == b && Trail(g, p)
  }

  ghost predicate Reaches<T(!new)>(g: map<T, set<T>>, a: T, b: T) {
    exists p :: TrailFrom(g, a, b, p)
  }

  /** No edge leads out of `s` to another node of the graph. */
  ghost predicate Closed<T(!new)>(g: map<T, set<T>>, s: set<T>) {
    forall a, b :: a in s && a in g && b in g[a] && b in g ==> b in s
  }

  lemma TrailOf<T(!new)>(g: map<T, set<T>>, a: T, b: T) returns (p: seq<T>)
    requires Reaches(g, a, b)
    ensures TrailFrom(g, a, b, p)
  {
    p :| TrailFrom(g, a, b, p);
  }

  lemma ReachesSelf<T(!new)>(g: map<T, set<T>>, a: T)
    requires a in g
    ensures Reaches(g, a, a)
  {
    assert TrailFrom(g, a, a, [a]);
  }

  lemma ReachesStep<T(!new)>(g: map<T, set<T>>, a: T, b: T, c: T)
    requires Reaches(g, a, b) && b in g && c in g[b] && c in g
    ensures Reaches(g, a, c)
  {
    var p :| TrailFrom(g, a, b, p);
    var q := p + [c];
    assert forall k :: 0 <= k < |p| ==> q[k] == p[k];
    assert TrailFrom(g, a, c, q);
  }

  lemma TrailRest<T(!new)>(g: map<T, set<T>>, a: T, b: T, p: seq<T>)
    requires TrailFrom(g, a, b, p) && |p| > 1
    ensures TrailFrom(g, p[1], b, p[1..]) && p[1] in g[a] && p[1] in g
  {
    assert p[0 + 1] in g[p[0]];
    var q := p[1..];
    assert forall k :: 0 <= k < |q| ==> q[k] == p[k + 1];
    assert forall k :: 0 <= k < |q| - 1 ==> q[k + 1] in g[q[k]] by {
      forall k | 0 <= k < |q| - 1 ensures q[k + 1] in g[q[k]] { assert p[(k + 1) + 1] in g[p[k + 1]]; }
    }
  }

  lemma {:induction false} ClosedHoldsTrail<T(!new)>(g: map<T, set<T>>, s: set<T>, a: T, b: T, p: seq<T>)
    requires Closed(g, s) && a in s && TrailFrom(g, a, b, p)
    ensures b in s
    decreases |p|
  {
    if |p| > 1 {
      TrailRest(g, a, b, p);
      ClosedHoldsTrail(g, s, p[1], b, p[1..]);
    }
  }

  /** A closed set holds everything that its members reach. */
  lemma ClosedHolds<T(!new)>(g: map<T, set<T>>, s: set<T>, a: T, b: T)
    requires Closed(g, s) && a in s && Reaches(g, a, b)
    ensures b in s
  {
    var p := TrailOf(g, a, b);
    ClosedHoldsTrail(g, s, a, b, p);
  }

  lemma {:induction false} TrailJoins<T(!new)>(g: map<T, set<T>>, a: T, b: T, c: T, p: seq<T>)
    requires Reaches(g, a, b) && TrailFrom(g, b, c, p)
    ensures Reaches(g, a, c)
    decreases |p|
  {
    if |p| > 1 {
      TrailRest(g, b, c, p);
      ReachesStep(g, a, b, p[1]);
      TrailJoins(g, a, p[1], c, p[1..]);
    }
  }

  lemma ReachesTransitive<T(!new)>(g: map<T, set<T>>, a: T, b: T, c: T)
    requires Reaches(g, a, b) && Reaches(g, b, c)
    ensures Reaches(g, a, c)
  {
    var p := TrailOf(g, b, c);
    TrailJoins(g, a, b, c, p);
  }

  /** The nodes that `a` reaches are a closed set, and with it `a`. */
  lemma RegionClosed<T(!new)>(g: map<T, set<T>>, a: T)
    requires a in g
    ensures Closed(g, Region(g, a)) && a in Region(g, a)
  {
    hide Reaches;
    ReachesSelf(g, a);
    forall r, t | r in Region(g, a) && t in g[r] && t in g ensures t in Region(g, a) {
      ReachesStep(g, a, r, t);
    }
  }

  ghost function Region<T(!new)>(g: map<T, set<T>>, a: T): set<T> {
    set r | r in g && Reaches(g, a, r)
  }
}
