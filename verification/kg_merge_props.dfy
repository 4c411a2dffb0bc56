/**
 * What the merge fold computes, stated against independent reference
 * definitions: the contributions an entity name or relationship key
 * receives, in processing order, and the separator-joined strings built
 * from them. Every statement holds for any processing order of the
 * artifacts, which is the order the caller happens to supply.
 */
module KgMergeProps {
  import opened Wrappers
  import opened Text
  import opened KgMerge

  // ---------------------------------------------------------------------
  // Entities

  /** The records contributed to entity `name`, in processing order. */
  function Contributions(es: seq<EntityIn>, name: string): (cs: seq<NodeData>)
    ensures |cs| <= |es|
    decreases |es|
  {
    if es == [] then []
    else
      var init := Contributions(es[..|es| - 1], name);
      if es[|es| - 1].name == name then init + [NodeOf(es[|es| - 1])] else init
  }

  function Descriptions(ns: seq<NodeData>): (ds: seq<string>)
    ensures |ds| == |ns| && forall i :: 0 <= i < |ns| ==> ds[i] == ns[i].description
  {
    seq(|ns|, i requires 0 <= i < |ns| => ns[i].description)
  }

  function SourceIds(ns: seq<NodeData>): (ds: seq<string>)
    ensures |ds| == |ns| && forall i :: 0 <= i < |ns| ==> ds[i] == ns[i].sourceId
  {
    seq(|ns|, i requires 0 <= i < |ns| => ns[i].sourceId)
  }

  /** The accumulated record already present for `name`, as a zero- or one-element list. */
  function Prior(s: EntityStore, name: string): seq<NodeData> {
    if name in s.entities then [s.entities[name]] else []
  }

  /**
   * Description and source id are append-only: after the fold they are the
   * separator-joined list of the prior value and every contribution, in
   * processing order; the name is present iff something was contributed.
   */
  lemma {:induction false} EntityFoldAccumulates(s: EntityStore, es: seq<EntityIn>, name: string)
    ensures var r := EntityFold(s, es).entities;
      var all := Prior(s, name) + Contributions(es, name);
      && (name in r <==> |all| > 0)
      && (name in r ==>
            && r[name].description == Join(Descriptions(all), SEP)
            && r[name].sourceId == Join(SourceIds(all), SEP))
    decreases |es|
  {
    if es != [] {
      var init, e := es[..|es| - 1], es[|es| - 1];
      EntityFoldAccumulates(s, init, name);
      var before := Prior(s, name) + Contributions(init, name);
      if e.name == name {
        var all := before + [NodeOf(e)];
        assert Prior(s, name) + Contributions(es, name) == all;
        if |before| > 0 {
          assert Descriptions(all) == Descriptions(before) + [NodeOf(e).description];
          assert SourceIds(all) == SourceIds(before) + [NodeOf(e).sourceId];
          JoinSnoc(Descriptions(before), NodeOf(e).description, SEP);
          JoinSnoc(SourceIds(before), NodeOf(e).sourceId, SEP);
        } else {
          assert all == [NodeOf(e)];
        }
      }
    }
  }

  /** A name contributed exactly once keeps that record exactly: no separator appears. */
  lemma {:induction false} EntitySeenOnce(s: EntityStore, es: seq<EntityIn>, name: string)
    requires name !in s.entities
    requires |Contributions(es, name)| == 1
    ensures name in EntityFold(s, es).entities
    ensures EntityFold(s, es).entities[name] == Contributions(es, name)[0]
    decreases |es|
  {
    var init, e := es[..|es| - 1], es[|es| - 1];
    if e.name == name {
      EntityFoldAccumulates(s, init, name);
      assert Contributions(init, name) == [];
    } else {
      EntitySeenOnce(s, init, name);
    }
  }

  predicate InfixAt(a: string, b: string, i: int) {
    0 <= i <= |b| - |a| && b[i..i + |a|] == a
  }

  /** `a` occurs in `b` as a contiguous piece. */
  ghost predicate IsInfix(a: string, b: string) {
    exists i :: InfixAt(a, b, i)
  }

  lemma InfixOfSelf(a: string)
    ensures IsInfix(a, a)
  {
    assert InfixAt(a, a, 0);
  }

  /** Putting text in front keeps every infix an infix. */
  lemma InfixExtend(a: string, b: string, p: string)
    requires IsInfix(a, b)
    ensures IsInfix(a, p + b)
  {
    var i :| InfixAt(a, b, i);
    assert (p + b)[i + |p|..i + |p| + |a|] == b[i..i + |a|];
    assert InfixAt(a, p + b, i + |p|);
  }

  /**
   * Types concatenate rather than replace: every type ever contributed to
   * `name`, and the prior one, survives as a piece of the accumulated type.
   */
  lemma {:induction false} EntityTypeRetains(s: EntityStore, es: seq<EntityIn>, name: string)
    requires name in EntityFold(s, es).entities
    ensures forall c :: c in Prior(s, name) + Contributions(es, name) ==>
      IsInfix(c.entityType, EntityFold(s, es).entities[name].entityType)
    decreases |es|
  {
    if es == [] {
      InfixOfSelf(s.entities[name].entityType);
    } else {
      var init, e := es[..|es| - 1], es[|es| - 1];
      assert EntityFold(s, es) == MergeEntity(EntityFold(s, init), e);
      MergeEntityReconciles(EntityFold(s, init), e);
      var before := Prior(s, name) + Contributions(init, name);
      if e.name != name {
        assert Contributions(es, name) == Contributions(init, name);
        EntityTypeRetains(s, init, name);
      } else {
        var all := before + [NodeOf(e)];
        assert Prior(s, name) + Contributions(es, name) == all;
        var t := EntityFold(s, es).entities[name].entityType;
        var tn := NodeOf(e).entityType;
        if name in EntityFold(s, init).entities {
          EntityTypeRetains(s, init, name);
          var t0 := EntityFold(s, init).entities[name].entityType;
          assert t == tn || t == tn + SEP + t0;
          TypeStepRetainsNew(tn, t);
          forall c | c in before
            ensures IsInfix(c.entityType, t)
          {
            if t != t0 {
              assert t == (tn + SEP) + t0;
              InfixExtend(c.entityType, t0, tn + SEP);
            }
          }
        } else {
          EntityFoldAccumulates(s, init, name);
          assert all == [NodeOf(e)];
          InfixOfSelf(t);
        }
      }
    }
  }

  lemma TypeStepRetainsNew(tn: string, t: string)
    requires |tn| <= |t| && t[..|tn|] == tn
    ensures IsInfix(tn, t)
  {
    assert t[0..|tn|] == tn;
    assert InfixAt(tn, t, 0);
  }

  /** When every contribution (and the prior record) agrees on the type, the type is exactly that value. */
  lemma {:induction false} EntityTypeUniform(s: EntityStore, es: seq<EntityIn>, name: string, ty: string)
    requires name in EntityFold(s, es).entities
    requires forall c :: c in Prior(s, name) + Contributions(es, name) ==> c.entityType == ty
    ensures EntityFold(s, es).entities[name].entityType == ty
    decreases |es|
  {
    if es == [] {
      assert s.entities[name] in Prior(s, name);
    } else {
      var init, e := es[..|es| - 1], es[|es| - 1];
      var before := Prior(s, name) + Contributions(init, name);
      assert EntityFold(s, es) == MergeEntity(EntityFold(s, init), e);
      MergeEntityReconciles(EntityFold(s, init), e);
      if e.name != name {
        assert Contributions(es, name) == Contributions(init, name);
        EntityTypeUniform(s, init, name, ty);
      } else {
        var all := before + [NodeOf(e)];
        assert Prior(s, name) + Contributions(es, name) == all;
        assert NodeOf(e) in all;
        if name in EntityFold(s, init).entities {
          assert forall c :: c in before ==> c in all;
          EntityTypeUniform(s, init, name, ty);
        }
      }
    }
  }

  /** Folding two lists one after the other is folding their concatenation. */
  lemma {:induction false} EntityFoldAppend(s: EntityStore, xs: seq<EntityIn>, ys: seq<EntityIn>)
    ensures EntityFold(s, xs + ys) == EntityFold(EntityFold(s, xs), ys)
    decreases |ys|
  {
    if ys == [] {
      assert xs + ys == xs;
    } else {
      EntityFoldAppend(s, xs, ys[..|ys| - 1]);
      assert (xs + ys)[..|xs + ys| - 1] == xs + ys[..|ys| - 1];
    }
  }

  // ---------------------------------------------------------------------
  // Relationships

  function KeyOf(t: Tagged): string {
    RelationKey(t.0.srcId, t.0.tgtId)
  }

  /** The tagged relationships contributed to `key`, in processing order. */
  function RelContributions(ts: seq<Tagged>, key: string): (cs: seq<Tagged>)
    ensures forall i :: 0 <= i < |cs| ==> KeyOf(cs[i]) == key && cs[i] in ts
    decreases |ts|
  {
    if ts == [] then []
    else
      var init := RelContributions(ts[..|ts| - 1], key);
      if KeyOf(ts[|ts| - 1]) == key then init + [ts[|ts| - 1]] else init
  }

  function Keywords(cs: seq<Tagged>): (ks: seq<string>)
    ensures |ks| == |cs| && forall i :: 0 <= i < |cs| ==> ks[i] == cs[i].0.keywords
  {
    seq(|cs|, i requires 0 <= i < |cs| => cs[i].0.keywords)
  }

  function RelDescriptions(cs: seq<Tagged>): (ds: seq<string>)
    ensures |ds| == |cs| && forall i :: 0 <= i < |cs| ==> ds[i] == cs[i].0.description
  {
    seq(|cs|, i requires 0 <= i < |cs| => cs[i].0.description)
  }

  /** The relationships' own source ids, `"UNKNOWN"` when missing. */
  function OwnSources(cs: seq<Tagged>): (ds: seq<string>)
    ensures |ds| == |cs| && forall i :: 0 <= i < |cs| ==> ds[i] == cs[i].0.sourceId.GetOr(UNKNOWN)
  {
    seq(|cs|, i requires 0 <= i < |cs| => cs[i].0.sourceId.GetOr(UNKNOWN))
  }

  /**
   * A key first seen inside the fold is present iff it received a
   * contribution; its weight is the LAST contribution's (last write wins),
   * and it keeps its endpoints only while it has exactly one contribution.
   */
  lemma {:induction false} RelationFoldLastWeight(s: RelationStore, ts: seq<Tagged>, key: string)
    requires key !in s.relations
    ensures var r := RelationFold(s, ts).relations;
      var cs := RelContributions(ts, key);
      && (key in r <==> |cs| > 0)
      && (|cs| > 0 ==>
            && r[key].weight == cs[|cs| - 1].0.weight.GetOr(DEFAULT_WEIGHT)
            && (r[key].ends.Some? <==> |cs| == 1)
            && (|cs| == 1 ==> r[key].ends == Some((cs[0].0.srcId, cs[0].0.tgtId))))
    decreases |ts|
  {
    if ts != [] {
      var init, t := ts[..|ts| - 1], ts[|ts| - 1];
      RelationFoldLastWeight(s, init, key);
      RelationStepAt(RelationFold(s, init), t, key);
    }
  }

  /** What one relationship step does to the record under `key`. */
  lemma RelationStepAt(s: RelationStore, t: Tagged, key: string)
    ensures var r := MergeRelation(s, t.0, t.1).relations;
      && (KeyOf(t) != key ==> (key in r <==> key in s.relations) && (key in r ==> r[key] == s.relations[key]))
      && (KeyOf(t) == key ==>
            && key in r
            && r[key].weight == t.0.weight.GetOr(DEFAULT_WEIGHT)
            && (key !in s.relations ==> r[key].ends == Some((t.0.srcId, t.0.tgtId)))
            && (key in s.relations ==> r[key].ends.None?))
  {
    MergeRelationReconciles(s, t.0, t.1);
  }

  /** For a key first seen inside the fold, the keywords join every contribution's, in order. */
  lemma {:induction false} RelationFoldKeywords(s: RelationStore, ts: seq<Tagged>, key: string)
    requires key !in s.relations
    requires |RelContributions(ts, key)| > 0
    ensures key in RelationFold(s, ts).relations
    ensures RelationFold(s, ts).relations[key].keywords == Join(Keywords(RelContributions(ts, key)), SEP)
    decreases |ts|
  {
    var init, t := ts[..|ts| - 1], ts[|ts| - 1];
    var before := RelContributions(init, key);
    RelationFoldLastWeight(s, init, key);
    MergeRelationReconciles(RelationFold(s, init), t.0, t.1);
    if KeyOf(t) != key {
      RelationFoldKeywords(s, init, key);
    } else if |before| > 0 {
      RelationFoldKeywords(s, init, key);
      assert Keywords(before + [t]) == Keywords(before) + [t.0.keywords];
      JoinSnoc(Keywords(before), t.0.keywords, SEP);
    } else {
      assert Keywords(before + [t]) == [t.0.keywords];
    }
  }

  /** For a key first seen inside the fold, the description joins every contribution's, in order. */
  lemma {:induction false} RelationFoldDescriptions(s: RelationStore, ts: seq<Tagged>, key: string)
    requires key !in s.relations
    requires |RelContributions(ts, key)| > 0
    ensures key in RelationFold(s, ts).relations
    ensures RelationFold(s, ts).relations[key].description == Join(RelDescriptions(RelContributions(ts, key)), SEP)
    decreases |ts|
  {
    var init, t := ts[..|ts| - 1], ts[|ts| - 1];
    var before := RelContributions(init, key);
    RelationFoldLastWeight(s, init, key);
    MergeRelationReconciles(RelationFold(s, init), t.0, t.1);
    if KeyOf(t) != key {
      RelationFoldDescriptions(s, init, key);
    } else if |before| > 0 {
      RelationFoldDescriptions(s, init, key);
      assert RelDescriptions(before + [t]) == RelDescriptions(before) + [t.0.description];
      JoinSnoc(RelDescriptions(before), t.0.description, SEP);
    } else {
      assert RelDescriptions(before + [t]) == [t.0.description];
    }
  }

  /**
   * For a key first seen inside the fold, the source id starts with the
   * chunk-loop source id of the first contribution's artifact and continues
   * with the later contributions' OWN source ids (`"UNKNOWN"` when missing).
   */
  lemma {:induction false} RelationFoldSources(s: RelationStore, ts: seq<Tagged>, key: string)
    requires key !in s.relations
    requires |RelContributions(ts, key)| > 0
    ensures key in RelationFold(s, ts).relations
    ensures var cs := RelContributions(ts, key);
      RelationFold(s, ts).relations[key].sourceId == Join([cs[0].1] + OwnSources(cs[1..]), SEP)
    decreases |ts|
  {
    var init, t := ts[..|ts| - 1], ts[|ts| - 1];
    var before := RelContributions(init, key);
    RelationFoldLastWeight(s, init, key);
    MergeRelationReconciles(RelationFold(s, init), t.0, t.1);
    if KeyOf(t) != key {
      RelationFoldSources(s, init, key);
    } else {
      if |before| > 0 {
        RelationFoldSources(s, init, key);
      }
      SourcesSnoc(before, t);
    }
  }

  /** The joined source ids after one more contribution `t`. */
  lemma SourcesSnoc(before: seq<Tagged>, t: Tagged)
    ensures var cs := before + [t];
      Join([cs[0].1] + OwnSources(cs[1..]), SEP) ==
        if before == [] then t.1
        else Join([before[0].1] + OwnSources(before[1..]), SEP) + SEP + t.0.sourceId.GetOr(UNKNOWN)
  {
    var cs := before + [t];
    if before == [] {
      assert [cs[0].1] + OwnSources(cs[1..]) == [t.1];
    } else {
      var own := t.0.sourceId.GetOr(UNKNOWN);
      assert cs[1..] == before[1..] + [t];
      assert OwnSources(cs[1..]) == OwnSources(before[1..]) + [own];
      assert [cs[0].1] + OwnSources(cs[1..]) == ([before[0].1] + OwnSources(before[1..])) + [own];
      JoinSnoc([before[0].1] + OwnSources(before[1..]), own, SEP);
    }
  }

  /**
   * With every relationship tagged by its own source id, a relationship's
   * source id joins all its contributions' own source ids, in order, as
   * its keywords and description do.
   */
  lemma CorrectedEdgeSources(o: Oracles, s: KgState, a: Artifact, fullDocId: Option<string>,
                             filePath: string, key: string)
    requires key !in s.rels.relations
    requires |RelContributions(OwnTag(a.relationships), key)| > 0
    ensures var r := InsertArtifactCorrected(o, s, a, fullDocId, filePath);
      r.Ok? ==>
      && key in r.value.rels.relations
      && r.value.rels.relations[key].sourceId == Join(OwnSources(RelContributions(OwnTag(a.relationships), key)), SEP)
  {
    RelationFoldSources(s.rels, OwnTag(a.relationships), key);
    OwnTaggedSources(a.relationships, key);
  }

  /** With own tags, the first contribution's tag is its own source id too. */
  lemma OwnTaggedSources(rs: seq<RelationIn>, key: string)
    requires |RelContributions(OwnTag(rs), key)| > 0
    ensures var cs := RelContributions(OwnTag(rs), key);
      [cs[0].1] + OwnSources(cs[1..]) == OwnSources(cs)
  {
    var cs := RelContributions(OwnTag(rs), key);
    assert cs[0] in OwnTag(rs);
    assert cs[0].1 == cs[0].0.sourceId.GetOr(UNKNOWN);
  }

  /**
   * As written, a first-seen relationship records the source id of the
   * artifact's last chunk instead of its own: with a chunk from `"c"` and
   * a relationship from `"r"`, the edge says `"c"`; and without chunks the
   * same artifact cannot be inserted at all.
   */
  lemma FirstEdgeTakesChunkSource(o: Oracles)
    ensures var rel := RelationIn("A", "B", "d", "k", None, Some("r"));
      var a := Artifact(map[], [ChunkIn("text", "c", None)], [], [rel]);
      var r := InsertArtifact(o, EmptyState, a, None, DEFAULT_FILE_PATH);
      && r.Ok?
      && r.value.rels.relations[RelationKey("A", "B")].sourceId == "c"
      && InsertArtifact(o, EmptyState, a.(chunks := []), None, DEFAULT_FILE_PATH).Err?
  {
    var rel := RelationIn("A", "B", "d", "k", None, Some("r"));
    var ts := Tag([rel], "c");
    assert ts == [(rel, "c")];
    assert ts[..0] == [];
    assert RelationFold(EmptyRelations, ts) == MergeRelation(EmptyRelations, rel, "c");
  }

  /** Folding two lists one after the other is folding their concatenation. */
  lemma {:induction false} RelationFoldAppend(s: RelationStore, xs: seq<Tagged>, ys: seq<Tagged>)
    ensures RelationFold(s, xs + ys) == RelationFold(RelationFold(s, xs), ys)
    decreases |ys|
  {
    if ys == [] {
      assert xs + ys == xs;
    } else {
      RelationFoldAppend(s, xs, ys[..|ys| - 1]);
      assert (xs + ys)[..|xs + ys| - 1] == xs + ys[..|ys| - 1];
    }
  }

  /**
   * When source ids contain no `#`, the string key determines the pair:
   * `(a, b)` and `(b, a)` are distinct relationships whenever `a != b`.
   */
  lemma RelationKeyInjective(s1: string, t1: string, s2: string, t2: string)
    requires '#' !in s1 && '#' !in s2
    ensures RelationKey(s1, t1) == RelationKey(s2, t2) <==> s1 == s2 && t1 == t2
  {
    var k1, k2 := RelationKey(s1, t1), RelationKey(s2, t2);
    FirstHashAt(s1, t1);
    FirstHashAt(s2, t2);
    if k1 == k2 {
      assert |s1| == |s2|;
      assert s1 == k1[..|s1|] && s2 == k2[..|s2|];
      assert t1 == k1[|s1| + |KEY_SEP|..] && t2 == k2[|s2| + |KEY_SEP|..];
    }
  }

  /** In a key whose source id has no `#`, the first `#` sits right after the source id. */
  lemma FirstHashAt(src: string, tgt: string)
    requires '#' !in src
    ensures |src| < |RelationKey(src, tgt)| && RelationKey(src, tgt)[|src|] == '#'
    ensures forall i :: 0 <= i < |src| ==> RelationKey(src, tgt)[i] != '#'
  {
    assert forall i :: 0 <= i < |src| ==> RelationKey(src, tgt)[i] == src[i];
  }

  /**
   * Without that restriction the key is not injective, even for ids that
   * do not contain `"######"`: `("a", "#b")` and `("a#", "b")` share a key,
   * and so do the reversed pairs `("#", "##")` and `("##", "#")`.
   */
  lemma RelationKeyCollision()
    ensures RelationKey("a", "#b") == RelationKey("a#", "b")
    ensures RelationKey("#", "##") == RelationKey("##", "#")
  {
  }

  /** The graph edge for `p` holds the accumulated record of `p`'s key. */
  ghost predicate EdgesMirror(rs: RelationStore) {
    forall p :: p in rs.edges ==>
      RelationKey(p.0, p.1) in rs.relations && rs.edges[p] == rs.relations[RelationKey(p.0, p.1)]
  }

  /** Every accumulated key belongs to some graph edge. */
  ghost predicate KeysCovered(rs: RelationStore) {
    forall k :: k in rs.relations ==> exists p :: p in rs.edges && k == RelationKey(p.0, p.1)
  }

  ghost predicate SourcesHashFree(rs: RelationStore) {
    forall p :: p in rs.edges ==> '#' !in p.0
  }

  /**
   * Every key in the accumulator has a graph edge, always; and when no
   * source id contains `#`, every graph edge holds the accumulated record
   * of its own key (with such ids the mirror can go stale: two pairs
   * sharing one key each keep the record of their own last upsert).
   */
  lemma {:induction false} RelationFoldMirrors(s: RelationStore, ts: seq<Tagged>)
    requires KeysCovered(s)
    ensures KeysCovered(RelationFold(s, ts))
    ensures EdgesMirror(s) && SourcesHashFree(s) && (forall i :: 0 <= i < |ts| ==> '#' !in ts[i].0.srcId)
      ==> EdgesMirror(RelationFold(s, ts)) && SourcesHashFree(RelationFold(s, ts))
    decreases |ts|
  {
    if ts != [] {
      var init, t := ts[..|ts| - 1], ts[|ts| - 1];
      RelationFoldMirrors(s, init);
      var m := RelationFold(s, init);
      var r := RelationFold(s, ts);
      var p0 := (t.0.srcId, t.0.tgtId);
      assert p0 in r.edges;
      forall k | k in r.relations
        ensures exists p :: p in r.edges && k == RelationKey(p.0, p.1)
      {
        if k != KeyOf(t) {
          var p :| p in m.edges && k == RelationKey(p.0, p.1);
          assert p in r.edges;
        }
      }
      if EdgesMirror(s) && SourcesHashFree(s) && (forall i :: 0 <= i < |ts| ==> '#' !in ts[i].0.srcId) {
        assert forall i :: 0 <= i < |init| ==> init[i] == ts[i];
        forall p | p in r.edges
          ensures RelationKey(p.0, p.1) in r.relations && r.edges[p] == r.relations[RelationKey(p.0, p.1)]
        {
          if p != p0 {
            RelationKeyInjective(p.0, p.1, p0.0, p0.1);
          }
        }
      }
    }
  }

  // ---------------------------------------------------------------------
  // Chunks

  /**
   * Chunks with equal cleaned content collapse into one key, and the last
   * chunk with a given key is the one stored.
   */
  lemma {:induction false} ChunkMapLastWins(o: Oracles, cs: seq<ChunkIn>, fullDocId: Option<string>,
                                            filePath: string, i: nat)
    requires i < |cs|
    requires forall j :: i < j < |cs| ==> ChunkKey(o, cs[j]) != ChunkKey(o, cs[i])
    ensures ChunkMap(o, cs, fullDocId, filePath)[ChunkKey(o, cs[i])] == ChunkEntryOf(o, cs[i], fullDocId, filePath)
    decreases |cs|
  {
    if i < |cs| - 1 {
      ChunkMapLastWins(o, cs[..|cs| - 1], fullDocId, filePath, i);
    }
  }

  // ---------------------------------------------------------------------
  // A whole partition

  /** A chunk-less artifact with relationships: inserting it raises. */
  predicate Unbound(a: Artifact) {
    |a.relationships| > 0 && |a.chunks| == 0
  }

  /** An artifact whose insert returns normally: its relationships are bound and its id is hashable. */
  predicate Accepted(a: Artifact) {
    !Unbound(a) && DocKey(a).Some?
  }

  /** The artifacts the files name, when every file exists. */
  function Artifacts(fs: map<string, Artifact>, files: seq<string>): (arts: seq<Artifact>)
    requires forall i :: 0 <= i < |files| ==> files[i] in fs
    ensures |arts| == |files| && forall i :: 0 <= i < |files| ==> arts[i] == fs[files[i]]
  {
    seq(|files|, i requires 0 <= i < |files| => fs[files[i]])
  }

  function AllEntities(arts: seq<Artifact>): seq<EntityIn>
    decreases |arts|
  {
    if arts == [] then [] else AllEntities(arts[..|arts| - 1]) + arts[|arts| - 1].entities
  }

  /** Every relationship tagged with its own artifact's chunk-loop source id. */
  function AllTagged(arts: seq<Artifact>): seq<Tagged>
    decreases |arts|
  {
    if arts == [] then []
    else
      var a := arts[|arts| - 1];
      AllTagged(arts[..|arts| - 1]) + Tag(a.relationships, if |a.chunks| == 0 then "" else LastChunkSource(a))
  }

  /** Every file exists, and no artifact has relationships without chunks or an unhashable id. */
  predicate Insertable(fs: map<string, Artifact>, files: seq<string>) {
    forall i :: 0 <= i < |files| ==> files[i] in fs && Accepted(fs[files[i]])
  }

  /** The partition fold succeeds iff every file is insertable. */
  lemma {:induction false} InsertAllSucceeds(o: Oracles, fs: map<string, Artifact>, files: seq<string>)
    ensures InsertAll(o, fs, files).Ok? <==> Insertable(fs, files)
    decreases |files|
  {
    if files != [] {
      InsertAllSucceeds(o, fs, files[..|files| - 1]);
      InsertAllStep(o, fs, files);
      InsertableStep(fs, files);
    }
  }

  /** One more file succeeds iff the earlier ones did and this one exists and is accepted. */
  lemma InsertAllStep(o: Oracles, fs: map<string, Artifact>, files: seq<string>)
    requires files != []
    ensures var f := files[|files| - 1];
      InsertAll(o, fs, files).Ok? <==>
        InsertAll(o, fs, files[..|files| - 1]).Ok? && f in fs && Accepted(fs[f])
  {
  }

  lemma InsertableStep(fs: map<string, Artifact>, files: seq<string>)
    requires files != []
    ensures var f := files[|files| - 1];
      Insertable(fs, files) <==> Insertable(fs, files[..|files| - 1]) && f in fs && Accepted(fs[f])
  {
    assert forall i :: 0 <= i < |files| - 1 ==> files[..|files| - 1][i] == files[i];
  }

  /**
   * A successful partition fold equals one entity fold over all entities and
   * one relationship fold over all relationships, in file order, starting
   * from empty accumulators.
   */
  lemma {:induction false} InsertAllDecomposes(o: Oracles, fs: map<string, Artifact>, files: seq<string>)
    requires InsertAll(o, fs, files).Ok?
    ensures forall i :: 0 <= i < |files| ==> files[i] in fs
    ensures var arts := Artifacts(fs, files);
      && InsertAll(o, fs, files).value.ents == EntityFold(EmptyEntities, AllEntities(arts))
      && InsertAll(o, fs, files).value.rels == RelationFold(EmptyRelations, AllTagged(arts))
    decreases |files|
  {
    InsertAllSucceeds(o, fs, files);
    if files != [] {
      var init, f := files[..|files| - 1], files[|files| - 1];
      var prev := InsertAll(o, fs, init);
      assert prev.Ok?;
      InsertAllDecomposes(o, fs, init);
      var a := fs[f];
      var chunkSource := if |a.chunks| == 0 then "" else LastChunkSource(a);
      assert InsertAll(o, fs, files) == InsertArtifact(o, prev.value, a, None, DEFAULT_FILE_PATH);
      assert InsertAll(o, fs, files).value.ents == EntityFold(prev.value.ents, a.entities);
      assert InsertAll(o, fs, files).value.rels == RelationFold(prev.value.rels, Tag(a.relationships, chunkSource));
      var arts := Artifacts(fs, files);
      assert Artifacts(fs, init) == arts[..|arts| - 1];
      assert AllEntities(arts) == AllEntities(arts[..|arts| - 1]) + a.entities;
      assert AllTagged(arts) == AllTagged(arts[..|arts| - 1]) + Tag(a.relationships, chunkSource);
      EntityFoldAppend(EmptyEntities, AllEntities(arts[..|arts| - 1]), a.entities);
      RelationFoldAppend(EmptyRelations, AllTagged(arts[..|arts| - 1]), Tag(a.relationships, chunkSource));
    }
  }

  /**
   * For one partition: an entity's description and source id are the
   * separator-joined contributions of all its artifacts in processing
   * order, and an entity contributed once is stored exactly as given.
   */
  lemma PartitionEntityHistory(o: Oracles, fs: map<string, Artifact>, files: seq<string>, name: string)
    requires InsertAll(o, fs, files).Ok?
    ensures forall i :: 0 <= i < |files| ==> files[i] in fs
    ensures var ents := InsertAll(o, fs, files).value.ents.entities;
      var cs := Contributions(AllEntities(Artifacts(fs, files)), name);
      && (name in ents <==> |cs| > 0)
      && (name in ents ==>
            && ents[name].description == Join(Descriptions(cs), SEP)
            && ents[name].sourceId == Join(SourceIds(cs), SEP))
      && (|cs| == 1 ==> ents[name] == cs[0])
  {
    InsertAllDecomposes(o, fs, files);
    var es := AllEntities(Artifacts(fs, files));
    var cs := Contributions(es, name);
    assert InsertAll(o, fs, files).value.ents == EntityFold(EmptyEntities, es);
    EntityFoldAccumulates(EmptyEntities, es, name);
    assert Prior(EmptyEntities, name) + cs == cs;
    if |cs| == 1 {
      EntitySeenOnce(EmptyEntities, es, name);
    }
  }

  /**
   * For one partition: a relationship's weight is its last contribution's,
   * and its keywords and description join every contribution in order.
   */
  lemma PartitionRelationHistory(o: Oracles, fs: map<string, Artifact>, files: seq<string>, key: string)
    requires InsertAll(o, fs, files).Ok?
    ensures forall i :: 0 <= i < |files| ==> files[i] in fs
    ensures var rels := InsertAll(o, fs, files).value.rels.relations;
      var cs := RelContributions(AllTagged(Artifacts(fs, files)), key);
      && (key in rels <==> |cs| > 0)
      && (key in rels ==>
            && rels[key].weight == cs[|cs| - 1].0.weight.GetOr(DEFAULT_WEIGHT)
            && rels[key].keywords == Join(Keywords(cs), SEP)
            && rels[key].description == Join(RelDescriptions(cs), SEP))
  {
    InsertAllDecomposes(o, fs, files);
    var ts := AllTagged(Artifacts(fs, files));
    RelationFoldLastWeight(EmptyRelations, ts, key);
    if |RelContributions(ts, key)| > 0 {
      RelationFoldKeywords(EmptyRelations, ts, key);
      RelationFoldDescriptions(EmptyRelations, ts, key);
    }
  }
}
