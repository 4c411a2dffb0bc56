/**
 * The graph-stability benchmark: Jaccard similarity of the node and edge
 * sets of two LightRAG graphs, of the entity and relation sets of two
 * GraphRAG outputs, and the pairwise comparison of every two versions.
 */
module Jaccard {
  import opened Wrappers
  import opened Fractions

  /** `|a ∩ b| / |a ∪ b|`, and 0.0 when both sets are empty. */
  function Ratio<T(==)>(a: set<T>, b: set<T>): (r: real)
    ensures |a + b| == 0 ==> r == 0.0
    ensures |a + b| > 0 ==> r * (|a + b| as real) == |a * b| as real
  {
    if |a + b| == 0 then 0.0 else (|a * b| as real) / (|a + b| as real)
  }

  /** Every score lies in [0, 1]. */
  lemma RatioBounds<T>(a: set<T>, b: set<T>)
    ensures 0.0 <= Ratio(a, b) <= 1.0
  {
    assert |a + b| == |a - b| + |b - a| + |a * b|;
    if |a + b| > 0 {
      UnitFraction(|a * b| as real, |a + b| as real);
    }
  }

  /** The score does not depend on the argument order. */
  lemma RatioSymmetric<T>(a: set<T>, b: set<T>)
    ensures Ratio(a, b) == Ratio(b, a)
  {
    assert a + b == b + a && a * b == b * a;
  }

  /**
   * The score is 1.0 exactly for two equal non-empty sets, and 0.0 exactly
   * for disjoint sets (two empty sets are disjoint).
   */
  lemma RatioExtremes<T>(a: set<T>, b: set<T>)
    ensures Ratio(a, b) == 1.0 <==> a == b && |a| > 0
    ensures Ratio(a, b) == 0.0 <==> a * b == {}
  {
    assert |a + b| == |a - b| + |b - a| + |a * b|;
    if Ratio(a, b) == 1.0 {
      assert |a * b| == |a + b|;
      assert |a - b| == 0 && |b - a| == 0;
      assert a - b == {} && b - a == {};
      assert a == b by {
        forall x | x in a ensures x in b { assert x !in a - b; }
        forall x | x in b ensures x in a { assert x !in b - a; }
      }
    }
    if a == b && |a| > 0 {
      assert a + b == a && a * b == a;
    }
    if a * b != {} {
      var x :| x in a * b;
      assert x in a + b;
    }
  }

  // ---------------------------------------------------------------------
  // LightRAG graphs

  /** An edge as the graph reader yields it: its ends and its attribute map. */
  datatype GraphEdge = GraphEdge(u: string, v: string, attrs: map<string, string>)

  datatype Graph = Graph(nodes: set<string>, edges: seq<GraphEdge>)

  /** An edge's identity: its ends and `relationship_type`, missing read as `""`. */
  function Fingerprint(e: GraphEdge): (t: (string, string, string))
    ensures t.0 == e.u && t.1 == e.v
    ensures "relationship_type" in e.attrs ==> t.2 == e.attrs["relationship_type"]
    ensures "relationship_type" !in e.attrs ==> t.2 == ""
  {
    (e.u, e.v, if "relationship_type" in e.attrs then e.attrs["relationship_type"] else "")
  }

  function EdgeSet(g: Graph): set<(string, string, string)> {
    set i | 0 <= i < |g.edges| :: Fingerprint(g.edges[i])
  }

  /** Two edges that differ only in attributes other than `relationship_type` count once. */
  lemma EdgesIdentifiedByFingerprint(g: Graph, i: nat, j: nat)
    requires i < |g.edges| && j < |g.edges|
    requires g.edges[i].u == g.edges[j].u && g.edges[i].v == g.edges[j].v
    requires ("relationship_type" in g.edges[i].attrs) == ("relationship_type" in g.edges[j].attrs)
    requires "relationship_type" in g.edges[i].attrs ==>
      g.edges[i].attrs["relationship_type"] == g.edges[j].attrs["relationship_type"]
    ensures Fingerprint(g.edges[i]) == Fingerprint(g.edges[j])
    ensures EdgeSet(g) == EdgeSet(g.(edges := g.edges[j := g.edges[i]]))
  {
    var g' := g.(edges := g.edges[j := g.edges[i]]);
    forall t | t in EdgeSet(g) ensures t in EdgeSet(g') {
      var k :| 0 <= k < |g.edges| && Fingerprint(g.edges[k]) == t;
      if k == j { assert Fingerprint(g'.edges[i]) == t; } else { assert Fingerprint(g'.edges[k]) == t; }
    }
    forall t | t in EdgeSet(g') ensures t in EdgeSet(g) {
      var k :| 0 <= k < |g'.edges| && Fingerprint(g'.edges[k]) == t;
      if k == j { assert Fingerprint(g.edges[i]) == t; } else { assert Fingerprint(g.edges[k]) == t; }
    }
  }

  datatype LightRagScores = LightRagScores(node: real, edge: real)

  /** `jaccard_lightrag`: a graph that fails to load (`None`) gives both scores 0.0. */
  function JaccardLightRag(g1: Option<Graph>, g2: Option<Graph>): (s: LightRagScores)
    ensures g1.None? || g2.None? ==> s == LightRagScores(0.0, 0.0)
    ensures 0.0 <= s.node <= 1.0 && 0.0 <= s.edge <= 1.0
  {
    match (g1, g2)
    case (Some(a), Some(b)) =>
      RatioBounds(a.nodes, b.nodes);
      RatioBounds(EdgeSet(a), EdgeSet(b));
      LightRagScores(Ratio(a.nodes, b.nodes), Ratio(EdgeSet(a), EdgeSet(b)))
    case _ => LightRagScores(0.0, 0.0)
  }

  /** Comparing two graphs in either order gives the same scores. */
  lemma JaccardLightRagSymmetric(g1: Option<Graph>, g2: Option<Graph>)
    ensures JaccardLightRag(g1, g2) == JaccardLightRag(g2, g1)
  {
    if g1.Some? && g2.Some? {
      RatioSymmetric(g1.value.nodes, g2.value.nodes);
      RatioSymmetric(EdgeSet(g1.value), EdgeSet(g2.value));
    }
  }

  /** A loaded graph compared with itself scores 1.0 on every non-empty part. */
  lemma JaccardLightRagSelf(g: Graph)
    ensures |g.nodes| > 0 ==> JaccardLightRag(Some(g), Some(g)).node == 1.0
    ensures |g.edges| > 0 ==> JaccardLightRag(Some(g), Some(g)).edge == 1.0
  {
    RatioExtremes(g.nodes, g.nodes);
    RatioExtremes(EdgeSet(g), EdgeSet(g));
    if |g.edges| > 0 {
      assert Fingerprint(g.edges[0]) in EdgeSet(g);
    }
  }

  // ---------------------------------------------------------------------
  // GraphRAG outputs

  /** One relations row; the `relationship_type` column may be absent. */
  datatype RelationRow = RelationRow(source: string, target: string, relationshipType: Option<string>)

  /** The two tables of one GraphRAG output: entity ids and relation rows. */
  datatype GraphRagOutput = GraphRagOutput(entityIds: seq<string>, relations: seq<RelationRow>)

  function RowFingerprint(r: RelationRow): (string, string, string) {
    (r.source, r.target, r.relationshipType.GetOr(""))
  }

  function EntitySet(k: GraphRagOutput): set<string> {
    set i | 0 <= i < |k.entityIds| :: k.entityIds[i]
  }

  function RelationSet(k: GraphRagOutput): set<(string, string, string)> {
    set i | 0 <= i < |k.relations| :: RowFingerprint(k.relations[i])
  }

  datatype GraphRagScores = GraphRagScores(entity: real, relation: real)

  /**
   * `jaccard_graphrag`: the four tables are read first; any one failing to
   * load (`None`) gives both scores 0.0.
   */
  function JaccardGraphRag(e1: Option<seq<string>>, r1: Option<seq<RelationRow>>,
                           e2: Option<seq<string>>, r2: Option<seq<RelationRow>>): (s: GraphRagScores)
    ensures e1.None? || r1.None? || e2.None? || r2.None? ==> s == GraphRagScores(0.0, 0.0)
    ensures 0.0 <= s.entity <= 1.0 && 0.0 <= s.relation <= 1.0
  {
    if e1.None? || r1.None? || e2.None? || r2.None? then GraphRagScores(0.0, 0.0)
    else
      var k1, k2 := GraphRagOutput(e1.value, r1.value), GraphRagOutput(e2.value, r2.value);
      RatioBounds(EntitySet(k1), EntitySet(k2));
      RatioBounds(RelationSet(k1), RelationSet(k2));
      GraphRagScores(Ratio(EntitySet(k1), EntitySet(k2)), Ratio(RelationSet(k1), RelationSet(k2)))
  }

  /** Comparing two outputs in either order gives the same scores. */
  lemma JaccardGraphRagSymmetric(e1: Option<seq<string>>, r1: Option<seq<RelationRow>>,
                                 e2: Option<seq<string>>, r2: Option<seq<RelationRow>>)
    ensures JaccardGraphRag(e1, r1, e2, r2) == JaccardGraphRag(e2, r2, e1, r1)
  {
    if e1.Some? && r1.Some? && e2.Some? && r2.Some? {
      var k1, k2 := GraphRagOutput(e1.value, r1.value), GraphRagOutput(e2.value, r2.value);
      RatioSymmetric(EntitySet(k1), EntitySet(k2));
      RatioSymmetric(RelationSet(k1), RelationSet(k2));
    }
  }

  // ---------------------------------------------------------------------
  // Pairwise comparison of versions

  /** `itertools.combinations(vs, 2)`: every pair of positions `i < j`, in lexicographic order. */
  function Pairs(vs: seq<string>): (ps: seq<(string, string)>)
    decreases |vs|
  {
    if |vs| < 2 then []
    else seq(|vs| - 1, j requires 0 <= j < |vs| - 1 => (vs[0], vs[j + 1])) + Pairs(vs[1..])
  }

  /** `n` versions give `n·(n−1)/2` comparisons. */
  lemma {:induction false} PairsCount(vs: seq<string>)
    ensures 2 * |Pairs(vs)| == |vs| * (|vs| - 1)
    decreases |vs|
  {
    if |vs| >= 2 {
      PairsCount(vs[1..]);
    }
  }

  /** A pair is produced iff it is two versions at positions `i < j`, the earlier first. */
  lemma {:induction false} PairsMembers(vs: seq<string>, p: (string, string))
    ensures p in Pairs(vs) <==> exists i, j :: 0 <= i < j < |vs| && p == (vs[i], vs[j])
    decreases |vs|
  {
    if |vs| >= 2 {
      var head := seq(|vs| - 1, j requires 0 <= j < |vs| - 1 => (vs[0], vs[j + 1]));
      var tail := vs[1..];
      PairsMembers(tail, p);
      assert Pairs(vs) == head + Pairs(tail);
      if p in Pairs(vs) {
        if p in head {
          var j :| 0 <= j < |head| && head[j] == p;
          assert p == (vs[0], vs[j + 1]);
        } else {
          var i, j :| 0 <= i < j < |tail| && p == (tail[i], tail[j]);
          assert p == (vs[i + 1], vs[j + 1]);
        }
      }
      if exists i, j :: 0 <= i < j < |vs| && p == (vs[i], vs[j]) {
        var i, j :| 0 <= i < j < |vs| && p == (vs[i], vs[j]);
        if i == 0 {
          assert head[j - 1] == p;
        } else {
          assert p == (tail[i - 1], tail[j - 1]);
        }
      }
    }
  }

  /** One result row of the LightRAG comparisons. */
  datatype Comparison = Comparison(comparison: string, scores: LightRagScores)

  /** The comparison label `"<ver1>-vs-<ver2>"`. */
  function Label(p: (string, string)): string {
    p.0 + "-vs-" + p.1
  }

  /** The row comparing versions `a` and `b`: label `"<a>-vs-<b>"` and the scores of their graphs. */
  function Compare(load: string -> Option<Graph>, a: string, b: string): Comparison {
    Comparison(a + "-vs-" + b, JaccardLightRag(load(a), load(b)))
  }

  /**
   * The LightRAG rows of `calculate_all_jaccard_scores` for one dataset,
   * framework and scenario: one row per pair of versions at positions
   * `i < j`, and no other row, in `combinations` order.
   */
  function CompareVersions(vs: seq<string>, load: string -> Option<Graph>): (rows: seq<Comparison>)
    ensures 2 * |rows| == |vs| * (|vs| - 1)
    ensures forall i, j :: 0 <= i < j < |vs| ==> Compare(load, vs[i], vs[j]) in rows
    ensures forall k :: 0 <= k < |rows| ==>
      exists i, j :: 0 <= i < j < |vs| && rows[k] == Compare(load, vs[i], vs[j])
  {
    var ps := Pairs(vs);
    var rows := seq(|ps|, k requires 0 <= k < |ps| => Compare(load, ps[k].0, ps[k].1));
    RowsArePairs(vs, (a, b) => Compare(load, a, b), rows);
    rows
  }

  /** The rows come in `combinations` order: row `k` compares the `k`-th pair. */
  lemma CompareVersionsOrder(vs: seq<string>, load: string -> Option<Graph>)
    ensures |CompareVersions(vs, load)| == |Pairs(vs)|
    ensures forall k :: 0 <= k < |Pairs(vs)| ==>
      CompareVersions(vs, load)[k].comparison == Label(Pairs(vs)[k])
  {
  }

  /** Rows listed pair by pair cover exactly the pairs `i < j`, whatever a row holds. */
  lemma RowsArePairs<R>(vs: seq<string>, row: (string, string) -> R, rows: seq<R>)
    requires |rows| == |Pairs(vs)|
    requires forall k :: 0 <= k < |rows| ==> rows[k] == row(Pairs(vs)[k].0, Pairs(vs)[k].1)
    ensures 2 * |rows| == |vs| * (|vs| - 1)
    ensures forall i, j :: 0 <= i < j < |vs| ==> row(vs[i], vs[j]) in rows
    ensures forall k :: 0 <= k < |rows| ==> PairRowAt(vs, row, rows[k])
  {
    PairsCount(vs);
    forall i, j | 0 <= i < j < |vs|
      ensures row(vs[i], vs[j]) in rows
    {
      PairRow(vs, row, rows, i, j);
    }
    forall k | 0 <= k < |rows|
      ensures PairRowAt(vs, row, rows[k])
    {
      RowPair(vs, row, rows, k);
    }
  }

  /** `r` is the row of some pair of positions `i < j`. */
  ghost predicate PairRowAt<R>(vs: seq<string>, row: (string, string) -> R, r: R) {
    exists i, j :: 0 <= i < j < |vs| && r == row(vs[i], vs[j])
  }

  lemma PairRow<R>(vs: seq<string>, row: (string, string) -> R, rows: seq<R>, i: nat, j: nat)
    requires |rows| == |Pairs(vs)|
    requires forall k :: 0 <= k < |rows| ==> rows[k] == row(Pairs(vs)[k].0, Pairs(vs)[k].1)
    requires i < j < |vs|
    ensures row(vs[i], vs[j]) in rows
  {
    var ps := Pairs(vs);
    PairsMembers(vs, (vs[i], vs[j]));
    var k :| 0 <= k < |ps| && ps[k] == (vs[i], vs[j]);
    assert rows[k] == row(vs[i], vs[j]);
  }

  lemma RowPair<R>(vs: seq<string>, row: (string, string) -> R, rows: seq<R>, k: nat)
    requires |rows| == |Pairs(vs)|
    requires forall k :: 0 <= k < |rows| ==> rows[k] == row(Pairs(vs)[k].0, Pairs(vs)[k].1)
    requires k < |rows|
    ensures PairRowAt(vs, row, rows[k])
  {
    var ps := Pairs(vs);
    assert ps[k] in ps;
    PairsMembers(vs, ps[k]);
    var i, j :| 0 <= i < j < |vs| && ps[k] == (vs[i], vs[j]);
    assert rows[k] == row(vs[i], vs[j]);
  }
}
