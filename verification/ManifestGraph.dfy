/** Finite directed graphs of image manifests: a present digest maps to the digests its manifest lists as children. */
module ManifestGraph {

  type Digest = string

  type Graph = map<Digest, set<Digest>>

  /** A non-empty walk over present manifests that follows child references. */
  ghost predicate IsPath(g: Graph, p: seq<Digest>) {
    && p != []
    && (forall i | 0 <= i < |p| :: p[i] in g)
    && (forall i | 0 < i < |p| :: p[i] in g[p[i - 1]])
  }

  ghost predicate Reaches(g: Graph, u: Digest, v: Digest) {
    exists p :: IsPath(g, p) && p[0] == u && p[|p| - 1] == v
  }

  /** No manifest contains itself, however deep. Content addressing makes image graphs so. */
  ghost predicate Acyclic(g: Graph) {
    forall p | IsPath(g, p) && |p| > 1 :: p[0] != p[|p| - 1]
  }

  ghost predicate HasParent(g: Graph, d: Digest) {
    exists u :: u in g && d in g[u]
  }

  /** The present manifests no present manifest lists as a child. */
  ghost function Sources(g: Graph): set<Digest> {
    set d | d in g && !HasParent(g, d)
  }

  ghost function ReachableFrom(g: Graph, u: Digest): set<Digest> {
    set v | v in g && Reaches(g, u, v)
  }

  ghost predicate NoDuplicates<T>(s: seq<T>) {
    forall i, j | 0 <= i < j < |s| :: s[i] != s[j]
  }

  // ---------------------------------------------------------------- reachability

  lemma ReachesItself(g: Graph, u: Digest)
    requires u in g
    ensures Reaches(g, u, u)
  {
    assert IsPath(g, [u]);
  }

  lemma ReachesEnds(g: Graph, u: Digest, v: Digest)
    requires Reaches(g, u, v)
    ensures u in g && v in g
  {}

  lemma ReachesThenEdge(g: Graph, u: Digest, v: Digest, w: Digest)
    requires Reaches(g, u, v) && w in g && w in g[v]
    ensures Reaches(g, u, w)
  {
    var p :| IsPath(g, p) && p[0] == u && p[|p| - 1] == v;
    var q := p + [w];
    assert IsPath(g, q) && q[0] == u && q[|q| - 1] == w;
  }

  /** A set closed under child references that holds u holds everything u reaches. */
  lemma ClosedSetHoldsReachable(g: Graph, s: set<Digest>, u: Digest, v: Digest)
    requires u in s && Reaches(g, u, v)
    requires forall x, y | x in s && x in g && y in g[x] && y in g :: y in s
    ensures v in s
  {
    var p :| IsPath(g, p) && p[0] == u && p[|p| - 1] == v;
    WalkStaysInside(g, s, p, |p| - 1);
  }

  lemma {:induction false} WalkStaysInside(g: Graph, s: set<Digest>, p: seq<Digest>, k: nat)
    requires IsPath(g, p) && p[0] in s && k < |p|
    requires forall x, y | x in s && x in g && y in g[x] && y in g :: y in s
    ensures p[k] in s
  {
    if k > 0 {
      WalkStaysInside(g, s, p, k - 1);
    }
  }

  // ---------------------------------------------------------------- acyclic graphs

  lemma DistinctFitsIn<T>(s: seq<T>, universe: set<T>)
    requires NoDuplicates(s) && forall x | x in s :: x in universe
    ensures |s| <= |universe|
  {
    if s != [] {
      var last := s[|s| - 1];
      DistinctFitsIn(s[..|s| - 1], universe - {last});
    }
  }

  /** Walking backwards along child references in an acyclic graph ends at a source that reaches the start. */
  lemma {:induction false} ClimbToSource(g: Graph, p: seq<Digest>) returns (s: Digest)
    requires Acyclic(g) && IsPath(g, p) && NoDuplicates(p)
    ensures s in Sources(g) && Reaches(g, s, p[|p| - 1])
    decreases |g.Keys| - |p|
  {
    DistinctFitsIn(p, g.Keys);
    if HasParent(g, p[0]) {
      var u :| u in g && p[0] in g[u];
      var q := [u] + p;
      assert IsPath(g, q);
      forall i | 0 <= i < |p| ensures p[i] != u {
        assert IsPath(g, q[..i + 2]);
      }
      DistinctFitsIn(q, g.Keys);
      s := ClimbToSource(g, q);
    } else {
      s := p[0];
    }
  }

  /** An acyclic graph with at least one manifest always has a root candidate. */
  lemma AcyclicHasSource(g: Graph)
    requires Acyclic(g) && g != map[]
    ensures Sources(g) != {}
  {
    var d :| d in g;
    var s := ClimbToSource(g, [d]);
  }

  /** In an acyclic graph, the only source reaches every manifest. */
  lemma UniqueSourceReachesAll(g: Graph, root: Digest, d: Digest)
    requires Acyclic(g) && Sources(g) == {root} && d in g
    ensures Reaches(g, root, d)
  {
    var s := ClimbToSource(g, [d]);
  }

  /**
   * A graph all of which is reachable from root has root as its only source exactly when nothing lists root as a
   * child; otherwise it has no source at all.
   */
  lemma RootedSources(g: Graph, root: Digest)
    requires root in g && forall d | d in g :: Reaches(g, root, d)
    ensures Sources(g) == if HasParent(g, root) then {} else {root}
  {
    forall d | d in g && d != root ensures HasParent(g, d) {
      assert Reaches(g, root, d);
      var p :| IsPath(g, p) && p[0] == root && p[|p| - 1] == d;
      assert p[|p| - 1] in g[p[|p| - 2]];
    }
  }

  lemma EdgeBackIsCycle(g: Graph, u: Digest, v: Digest)
    requires Reaches(g, u, v) && u in g[v]
    ensures !Acyclic(g)
  {
    var p :| IsPath(g, p) && p[0] == u && p[|p| - 1] == v;
    assert IsPath(g, p + [u]);
  }

  lemma AcyclicRootHasNoParent(g: Graph, root: Digest)
    requires Acyclic(g) && forall d | d in g :: Reaches(g, root, d)
    ensures !HasParent(g, root)
  {
    if HasParent(g, root) {
      var u :| u in g && root in g[u];
      EdgeBackIsCycle(g, root, u);
    }
  }

  // ---------------------------------------------------------------- worklist traversal

  /**
   * The state of a traversal from root: seen nodes and queued nodes are reachable, and every child of a seen node is
   * present and either seen or queued.
   */
  ghost predicate Frontier(g: Graph, root: Digest, seen: set<Digest>, queued: set<Digest>) {
    && root in seen + queued
    && seen + queued <= ReachableFrom(g, root)
    && (forall u, c | u in seen && c in g[u] :: c in g && c in seen + queued)
  }

  lemma FrontierStart(g: Graph, root: Digest)
    requires root in g
    ensures Frontier(g, root, {}, {root})
  {
    ReachesItself(g, root);
  }

  /** Dropping a queued node that was seen before loses nothing. */
  lemma FrontierSkip(g: Graph, root: Digest, seen: set<Digest>, queued: set<Digest>, d: Digest, rest: set<Digest>)
    requires Frontier(g, root, seen, queued) && d in seen && queued == rest + {d}
    ensures Frontier(g, root, seen, rest)
  {
    assert seen + queued == seen + rest;
  }

  /** Visiting a queued node and queueing its unseen children keeps the frontier. */
  lemma FrontierVisit(g: Graph, root: Digest, seen: set<Digest>, queued: set<Digest>, d: Digest, rest: set<Digest>,
                      more: set<Digest>)
    requires Frontier(g, root, seen, queued) && queued == rest + {d}
    requires more <= g[d] <= g.Keys && g[d] <= more + seen + {d}
    ensures Frontier(g, root, seen + {d}, rest + more)
  {
    forall c | c in more ensures Reaches(g, root, c) {
      ReachesThenEdge(g, root, d, c);
    }
  }

  /** With nothing queued, exactly the reachable nodes have been seen, and all their children are present. */
  lemma FrontierDone(g: Graph, root: Digest, seen: set<Digest>)
    requires Frontier(g, root, seen, {})
    ensures seen == ReachableFrom(g, root)
    ensures forall u, c | u in seen && c in g[u] :: c in g
  {
    forall d | d in ReachableFrom(g, root) ensures d in seen {
      ClosedSetHoldsReachable(g, seen, root, d);
    }
  }
}
