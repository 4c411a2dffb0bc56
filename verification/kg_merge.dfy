/**
 * Phase 2 merge engine: one subgraph artifact is folded into the
 * per-partition accumulators (`ainsert_custom_kg`), and `custom_insert`
 * threads those accumulators through every artifact file of a partition.
 *
 * The entity accumulator is keyed by entity name; the relationship
 * accumulator is keyed by the string `src + "######" + tgt`. Every
 * accumulated value is mirrored into the graph's node or edge store.
 * Text cleaning, hashing and token counting are opaque and passed in
 * as `Oracles`.
 */
module KgMerge {
  import opened Wrappers

  /** Separator between accumulated values. */
  const SEP: string := "<SEP>"
  /** Separator inside a relationship key. */
  const KEY_SEP: string := "######"
  const UNKNOWN: string := "UNKNOWN"
  const NO_DESCRIPTION: string := "No description provided"
  /** The weight of a relationship without one: the float `1.0`. */
  const DEFAULT_WEIGHT: FieldValue := Float(1.0)
  /** The `file_path` argument `custom_insert` leaves at its default. */
  const DEFAULT_FILE_PATH: string := "custom_kg"

  /** A top-level scalar or non-scalar value of an artifact's JSON object. */
  datatype FieldValue =
    | Str(s: string)
    | Integer(i: int)
    | Float(f: real)
    | Boolean(b: bool)
    | Null
    | Composite   // a list or an object

  /** Python's `isinstance(v, (str, int, float))`; `bool` is a subclass of `int`. */
  predicate IsScalar(v: FieldValue) {
    v.Str? || v.Integer? || v.Float? || v.Boolean?
  }

  /** One element of the artifact's `chunks` list; `orderIndex` may be missing. */
  datatype ChunkIn = ChunkIn(content: string, sourceId: string, orderIndex: Option<int>)

  /** One element of the artifact's `entities` list; missing optional keys are `None`. */
  datatype EntityIn = EntityIn(
    name: string,
    entityType: Option<string>,
    description: Option<string>,
    sourceId: Option<string>)

  /**
   * One element of the artifact's `relationships` list. Its weight is
   * whatever JSON value the artifact holds (the artifacts written from
   * GraphML hold the weight as text); the merge only copies it.
   */
  datatype RelationIn = RelationIn(
    srcId: string,
    tgtId: string,
    description: string,
    keywords: string,
    weight: Option<FieldValue>,
    sourceId: Option<string>)

  /**
   * A subgraph artifact: the three lists plus every other top-level key
   * (`source_id`, the document's own fields) in `fields`.
   */
  datatype Artifact = Artifact(
    fields: map<string, FieldValue>,
    chunks: seq<ChunkIn>,
    entities: seq<EntityIn>,
    relationships: seq<RelationIn>)

  /** An accumulated entity record: `{entity_type, description, source_id}`. */
  datatype NodeData = NodeData(entityType: string, description: string, sourceId: string)

  /**
   * An accumulated relationship record. A first-seen relationship carries
   * its endpoints (`ends`); a merged one no longer does.
   */
  datatype EdgeData = EdgeData(
    ends: Option<(string, string)>,
    description: string,
    keywords: string,
    sourceId: string,
    weight: FieldValue)

  /**
   * A hashable Python dict key drawn from a JSON value: `None`, a string,
   * or a number. Numbers that compare equal are one key, so `True`, `1`
   * and `1.0` all land on `NumId(1.0)`.
   */
  datatype DocId = NoneId | StrId(s: string) | NumId(n: real)

  /** A stored chunk. */
  datatype ChunkEntry = ChunkEntry(
    content: string,
    sourceId: string,
    tokens: nat,
    orderIndex: int,
    fullDocId: string,
    filePath: string)

  /** A payload of the entity vector index. */
  datatype VectorEntry = VectorEntry(id: string, content: string, entityName: string)

  /** The opaque helpers: `clean_text`, the two `compute_mdhash_id` uses, tiktoken length. */
  datatype Oracles = Oracles(
    clean: string -> string,
    chunkId: string -> string,
    entityId: string -> string,
    tokenCount: string -> nat)

  /** `all_entities_map` together with the graph's node store. */
  datatype EntityStore = EntityStore(entities: map<string, NodeData>, nodes: map<string, NodeData>)

  /** `all_relationships_map` together with the graph's edge store. */
  datatype RelationStore = RelationStore(
    relations: map<string, EdgeData>,
    edges: map<(string, string), EdgeData>)

  /** Everything one partition's build writes. */
  datatype KgState = KgState(
    ents: EntityStore,
    rels: RelationStore,
    chunks: map<string, ChunkEntry>,
    docs: map<DocId, map<string, FieldValue>>,
    entityIndex: map<string, VectorEntry>)

  datatype KgError =
    | UnboundChunkSource        // a relationship met in an artifact without chunks
    | UnhashableSourceId        // a list or object `source_id` used as a dict key
    | MissingArtifact(path: string)

  const EmptyEntities := EntityStore(map[], map[])
  const EmptyRelations := RelationStore(map[], map[])
  const EmptyState := KgState(EmptyEntities, EmptyRelations, map[], map[], map[])

  // ---------------------------------------------------------------------
  // Chunks

  function ChunkKey(o: Oracles, c: ChunkIn): string {
    o.chunkId(o.clean(c.content))
  }

  /** The stored form of one chunk. */
  function ChunkEntryOf(o: Oracles, c: ChunkIn, fullDocId: Option<string>, filePath: string): (r: ChunkEntry)
    ensures r.content == o.clean(c.content) && r.sourceId == c.sourceId
    ensures c.orderIndex.None? ==> r.orderIndex == 0
    ensures fullDocId.None? ==> r.fullDocId == c.sourceId
  {
    var content := o.clean(c.content);
    ChunkEntry(content, c.sourceId, o.tokenCount(content), c.orderIndex.GetOr(0),
               fullDocId.GetOr(c.sourceId), filePath)
  }

  /** `all_chunks_data`: chunks keyed by the hash of their cleaned content. */
  function ChunkMap(o: Oracles, cs: seq<ChunkIn>, fullDocId: Option<string>, filePath: string)
    : (m: map<string, ChunkEntry>)
    ensures m.Keys == set c | c in cs :: ChunkKey(o, c)
  {
    if cs == [] then map[]
    else
      var last := cs[|cs| - 1];
      var m := ChunkMap(o, cs[..|cs| - 1], fullDocId, filePath);
      assert cs == cs[..|cs| - 1] + [last];
      m[ChunkKey(o, last) := ChunkEntryOf(o, last, fullDocId, filePath)]
  }

  // ---------------------------------------------------------------------
  // Entities

  /** The record an entity contributes, with the source's defaults for missing keys. */
  function NodeOf(e: EntityIn): NodeData {
    NodeData(e.entityType.GetOr(UNKNOWN), e.description.GetOr(NO_DESCRIPTION), e.sourceId.GetOr(UNKNOWN))
  }

  /**
   * One iteration of the entity loop: insert or reconcile the record, then
   * upsert the accumulated record as the entity's graph node.
   */
  function MergeEntity(s: EntityStore, e: EntityIn): EntityStore {
    var cur := NodeOf(e);
    var acc :=
      if e.name !in s.entities then cur
      else
        var prev := s.entities[e.name];
        var t := if cur.entityType != prev.entityType then cur.entityType + SEP + prev.entityType
                 else cur.entityType;
        NodeData(t, prev.description + SEP + cur.description, prev.sourceId + SEP + cur.sourceId);
    EntityStore(s.entities[e.name := acc], s.nodes[e.name := acc])
  }

  /**
   * The reconciliation rule of one entity step: a new name is stored as
   * given (with defaults); a known name appends description and source id
   * after the old value, and prefixes the new type only when it differs
   * from the whole accumulated type; the node mirrors the entry; nothing
   * else changes.
   */
  lemma MergeEntityReconciles(s: EntityStore, e: EntityIn)
    ensures var r := MergeEntity(s, e);
      && r.entities.Keys == s.entities.Keys + {e.name}
      && r.nodes.Keys == s.nodes.Keys + {e.name}
      && r.nodes[e.name] == r.entities[e.name]
      && (forall n :: n in s.entities && n != e.name ==> r.entities[n] == s.entities[n])
      && (forall n :: n in s.nodes && n != e.name ==> r.nodes[n] == s.nodes[n])
      && (e.name !in s.entities ==> r.entities[e.name] == NodeOf(e))
      && (e.name in s.entities ==>
            var prev, cur, acc := s.entities[e.name], NodeOf(e), r.entities[e.name];
            && acc.description == prev.description + SEP + cur.description
            && acc.sourceId == prev.sourceId + SEP + cur.sourceId
            && (cur.entityType != prev.entityType <==> acc.entityType == cur.entityType + SEP + prev.entityType)
            && (cur.entityType == prev.entityType ==> acc.entityType == prev.entityType))
  {
  }

  /** The entity loop over a list of entities, in order. */
  function EntityFold(s: EntityStore, es: seq<EntityIn>): (r: EntityStore)
    ensures s.nodes == s.entities ==> r.nodes == r.entities
    decreases |es|
  {
    if es == [] then s
    else MergeEntity(EntityFold(s, es[..|es| - 1]), es[|es| - 1])
  }

  // ---------------------------------------------------------------------
  // Relationships

  /** The relationship key: directional, built by plain concatenation. */
  function RelationKey(src: string, tgt: string): string {
    src + KEY_SEP + tgt
  }

  /**
   * The record a first-seen relationship stores. Its `source_id` is the
   * chunk loop's leftover variable (`chunkSource`), not the relationship's own.
   */
  function EdgeOf(rel: RelationIn, chunkSource: string): EdgeData {
    EdgeData(Some((rel.srcId, rel.tgtId)), rel.description, rel.keywords, chunkSource,
             rel.weight.GetOr(DEFAULT_WEIGHT))
  }

  /**
   * One iteration of the relationship loop: insert or reconcile under the
   * string key, then upsert the accumulated record as edge `(src, tgt)`.
   */
  function MergeRelation(s: RelationStore, rel: RelationIn, chunkSource: string): RelationStore {
    var k := RelationKey(rel.srcId, rel.tgtId);
    var acc :=
      if k !in s.relations then EdgeOf(rel, chunkSource)
      else
        var prev := s.relations[k];
        EdgeData(None, prev.description + SEP + rel.description, prev.keywords + SEP + rel.keywords,
                 prev.sourceId + SEP + rel.sourceId.GetOr(UNKNOWN), rel.weight.GetOr(DEFAULT_WEIGHT));
    RelationStore(s.relations[k := acc], s.edges[(rel.srcId, rel.tgtId) := acc])
  }

  /**
   * The reconciliation rule of one relationship step: a new key stores the
   * record with the chunk-loop source id; a known key takes the new weight
   * (default 1.0), appends keywords, description and the relationship's own
   * source id, and drops the endpoints; edge `(src, tgt)` mirrors the entry;
   * nothing else changes.
   */
  lemma MergeRelationReconciles(s: RelationStore, rel: RelationIn, chunkSource: string)
    ensures
      var r, k := MergeRelation(s, rel, chunkSource), RelationKey(rel.srcId, rel.tgtId);
      && r.relations.Keys == s.relations.Keys + {k}
      && r.edges.Keys == s.edges.Keys + {(rel.srcId, rel.tgtId)}
      && r.edges[(rel.srcId, rel.tgtId)] == r.relations[k]
      && r.relations[k].weight == rel.weight.GetOr(DEFAULT_WEIGHT)
      && (forall k' :: k' in s.relations && k' != k ==> r.relations[k'] == s.relations[k'])
      && (forall p :: p in s.edges && p != (rel.srcId, rel.tgtId) ==> r.edges[p] == s.edges[p])
      && (k !in s.relations ==> r.relations[k] == EdgeOf(rel, chunkSource))
      && (k in s.relations ==>
            var prev, acc := s.relations[k], r.relations[k];
            && acc.ends.None?
            && acc.keywords == prev.keywords + SEP + rel.keywords
            && acc.description == prev.description + SEP + rel.description
            && acc.sourceId == prev.sourceId + SEP + rel.sourceId.GetOr(UNKNOWN))
  {
  }

  /** A relationship paired with the chunk-loop source id of its artifact. */
  type Tagged = (RelationIn, string)

  function Tag(rs: seq<RelationIn>, chunkSource: string): (t: seq<Tagged>)
    ensures |t| == |rs|
    ensures forall i :: 0 <= i < |rs| ==> t[i] == (rs[i], chunkSource)
  {
    if rs == [] then [] else [(rs[0], chunkSource)] + Tag(rs[1..], chunkSource)
  }

  /** The relationship loop over tagged relationships, in order. */
  function RelationFold(s: RelationStore, ts: seq<Tagged>): RelationStore
    decreases |ts|
  {
    if ts == [] then s
    else
      var last := ts[|ts| - 1];
      MergeRelation(RelationFold(s, ts[..|ts| - 1]), last.0, last.1)
  }

  // ---------------------------------------------------------------------
  // One artifact, and the fold over a partition's artifact files

  /**
   * The documents-store key `custom_kg.get("source_id")`: an absent and a
   * `null` id are both `None`, and a list or object id is unhashable.
   */
  function DocKey(a: Artifact): (r: Option<DocId>)
    ensures r.None? <==> "source_id" in a.fields && a.fields["source_id"].Composite?
    ensures r == Some(NoneId) <==> "source_id" !in a.fields || a.fields["source_id"].Null?
  {
    if "source_id" !in a.fields then Some(NoneId)
    else
      match a.fields["source_id"]
      case Str(x) => Some(StrId(x))
      case Integer(i) => Some(NumId(i as real))
      case Float(f) => Some(NumId(f))
      case Boolean(b) => Some(NumId(if b then 1.0 else 0.0))
      case Null => Some(NoneId)
      case Composite => None
  }

  /** The `source_id` as `dict.get` reads it: a missing key reads as `None`. */
  function SourceValue(a: Artifact): FieldValue {
    if "source_id" in a.fields then a.fields["source_id"] else Null
  }

  /** Python's `==` between two hashable JSON values; `bool` compares as `0`/`1`. */
  predicate PyEquals(u: FieldValue, v: FieldValue) {
    match (u, v)
    case (Str(x), Str(y)) => x == y
    case (Null, Null) => true
    case (Integer(x), Integer(y)) => x == y
    case (Integer(x), Float(y)) => x as real == y
    case (Float(x), Integer(y)) => x == y as real
    case (Float(x), Float(y)) => x == y
    case (Boolean(x), Boolean(y)) => x == y
    case (Boolean(x), Integer(y)) => (if x then 1 else 0) == y
    case (Integer(x), Boolean(y)) => x == (if y then 1 else 0)
    case (Boolean(x), Float(y)) => (if x then 1.0 else 0.0) == y
    case (Float(x), Boolean(y)) => x == (if y then 1.0 else 0.0)
    case _ => false
  }

  /**
   * Two artifacts with hashable ids share a document entry exactly when
   * their ids compare equal in Python.
   */
  lemma DocKeyEquality(a: Artifact, b: Artifact)
    requires DocKey(a).Some? && DocKey(b).Some?
    ensures DocKey(a) == DocKey(b) <==> PyEquals(SourceValue(a), SourceValue(b))
  {
  }

  /** The documents-store value: the artifact's scalar top-level fields only. */
  function ScalarFields(a: Artifact): (m: map<string, FieldValue>)
    ensures forall k :: k in m <==> k in a.fields && IsScalar(a.fields[k])
    ensures forall k :: k in m ==> m[k] == a.fields[k]
  {
    map k | k in a.fields && IsScalar(a.fields[k]) :: a.fields[k]
  }

  /**
   * `ainsert_custom_kg`: chunks, then entities, then relationships, then
   * the document's scalar fields. A relationship in an artifact without
   * chunks reads an unbound variable and the call raises.
   */
  function InsertArtifact(o: Oracles, s: KgState, a: Artifact, fullDocId: Option<string>, filePath: string)
    : (r: Result<KgState, KgError>)
    ensures r.Err? <==> (|a.relationships| > 0 && |a.chunks| == 0) || DocKey(a).None?
    ensures r.Err? ==> (r.error == UnboundChunkSource <==> |a.relationships| > 0 && |a.chunks| == 0)
    ensures r.Ok? ==>
      && r.value.docs.Keys == s.docs.Keys + {DocKey(a).value}
      && r.value.docs[DocKey(a).value] == ScalarFields(a)
  {
    if |a.relationships| > 0 && |a.chunks| == 0 then Err(UnboundChunkSource)
    else if DocKey(a).None? then Err(UnhashableSourceId)
    else
      var chunkSource := if |a.chunks| == 0 then "" else LastChunkSource(a);
      Ok(KgState(
        EntityFold(s.ents, a.entities),
        RelationFold(s.rels, Tag(a.relationships, chunkSource)),
        s.chunks + ChunkMap(o, a.chunks, fullDocId, filePath),
        s.docs[DocKey(a).value := ScalarFields(a)],
        s.entityIndex))
  }

  /** Relationships tagged with their OWN source id, as the merge branch already uses it. */
  function OwnTag(rs: seq<RelationIn>): (t: seq<Tagged>)
    ensures |t| == |rs|
    ensures forall i :: 0 <= i < |rs| ==> t[i] == (rs[i], rs[i].sourceId.GetOr(UNKNOWN))
  {
    if rs == [] then [] else [(rs[0], rs[0].sourceId.GetOr(UNKNOWN))] + OwnTag(rs[1..])
  }

  /**
   * `ainsert_custom_kg` with a first-seen relationship recording its own
   * source id: it no longer depends on the chunk loop, and it raises only
   * on an unhashable `source_id`.
   */
  function InsertArtifactCorrected(o: Oracles, s: KgState, a: Artifact, fullDocId: Option<string>, filePath: string)
    : (r: Result<KgState, KgError>)
    ensures r.Err? <==> DocKey(a).None?
    ensures r.Ok? ==>
      && r.value.ents == EntityFold(s.ents, a.entities)
      && r.value.docs.Keys == s.docs.Keys + {DocKey(a).value}
      && r.value.docs[DocKey(a).value] == ScalarFields(a)
      && r.value.rels.relations.Keys
        == s.rels.relations.Keys + set rel | rel in a.relationships :: RelationKey(rel.srcId, rel.tgtId)
  {
    RelationFoldKeys(s.rels, OwnTag(a.relationships));
    if DocKey(a).None? then Err(UnhashableSourceId)
    else
      Ok(KgState(
        EntityFold(s.ents, a.entities),
        RelationFold(s.rels, OwnTag(a.relationships)),
        s.chunks + ChunkMap(o, a.chunks, fullDocId, filePath),
        s.docs[DocKey(a).value := ScalarFields(a)],
        s.entityIndex))
  }

  /** The relationship fold adds exactly the keys of the relationships it folds. */
  lemma {:induction false} RelationFoldKeys(s: RelationStore, ts: seq<Tagged>)
    ensures RelationFold(s, ts).relations.Keys
      == s.relations.Keys + set t | t in ts :: RelationKey(t.0.srcId, t.0.tgtId)
    decreases |ts|
  {
    if ts != [] {
      RelationFoldKeys(s, ts[..|ts| - 1]);
      RelationFoldAddsKey(s, ts);
      TaggedKeysSnoc(ts);
    }
  }

  /** One more relationship adds its key. */
  lemma RelationFoldAddsKey(s: RelationStore, ts: seq<Tagged>)
    requires ts != []
    ensures var last := ts[|ts| - 1];
      RelationFold(s, ts).relations.Keys
        == RelationFold(s, ts[..|ts| - 1]).relations.Keys + {RelationKey(last.0.srcId, last.0.tgtId)}
  {
    var last := ts[|ts| - 1];
    MergeRelationReconciles(RelationFold(s, ts[..|ts| - 1]), last.0, last.1);
  }

  lemma TaggedKeysSnoc(ts: seq<Tagged>)
    requires ts != []
    ensures var init, last := ts[..|ts| - 1], ts[|ts| - 1];
      (set t | t in ts :: RelationKey(t.0.srcId, t.0.tgtId))
        == (set t | t in init :: RelationKey(t.0.srcId, t.0.tgtId)) + {RelationKey(last.0.srcId, last.0.tgtId)}
  {
    assert ts == ts[..|ts| - 1] + [ts[|ts| - 1]];
  }

  /** The chunk-loop source id a non-empty artifact leaves behind. */
  function LastChunkSource(a: Artifact): string
    requires |a.chunks| > 0
  {
    a.chunks[|a.chunks| - 1].sourceId
  }

  /**
   * The partition's artifact files folded from empty accumulators, in the
   * given order; a missing file raises when it is opened.
   */
  function InsertAll(o: Oracles, fs: map<string, Artifact>, files: seq<string>): Result<KgState, KgError>
    decreases |files|
  {
    if files == [] then Ok(EmptyState)
    else
      match InsertAll(o, fs, files[..|files| - 1])
      case Err(e) => Err(e)
      case Ok(s) =>
        var path := files[|files| - 1];
        if path !in fs then Err(MissingArtifact(path))
        else InsertArtifact(o, s, fs[path], None, DEFAULT_FILE_PATH)
  }

  /** The entity vector payload built from the graph's nodes: `name + description`. */
  function EntityIndex(o: Oracles, nodes: map<string, NodeData>): (m: map<string, VectorEntry>)
    ensures m.Keys == nodes.Keys
    ensures forall n :: n in m ==> m[n].entityName == n && m[n].content == n + nodes[n].description
  {
    map n | n in nodes :: VectorEntry(o.entityId(n), n + nodes[n].description, n)
  }

  /**
   * `custom_insert`: start from empty accumulators, thread them through
   * every file, then project the graph's nodes into the entity index.
   */
  method CustomInsert(o: Oracles, fs: map<string, Artifact>, files: seq<string>)
    returns (r: Result<KgState, KgError>)
    ensures r.Err? <==> InsertAll(o, fs, files).Err?
    ensures r.Ok? ==>
      var s := InsertAll(o, fs, files).value;
      r.value == s.(entityIndex := EntityIndex(o, s.ents.nodes))
  {
    var s := EmptyState;
    var i := 0;
    while i < |files|
      invariant 0 <= i <= |files|
      invariant InsertAll(o, fs, files[..i]) == Ok(s)
    {
      assert files[..i + 1][..i] == files[..i];
      var path := files[i];
      if path !in fs {
        InsertAllStopsAtError(o, fs, files, i + 1);
        return Err(MissingArtifact(path));
      }
      var step := InsertArtifact(o, s, fs[path], None, DEFAULT_FILE_PATH);
      if step.Err? {
        InsertAllStopsAtError(o, fs, files, i + 1);
        return step;
      }
      s := step.value;
      i := i + 1;
    }
    assert files[..i] == files;
    r := Ok(s.(entityIndex := EntityIndex(o, s.ents.nodes)));
  }

  /** Once a prefix of the files fails, the whole fold fails. */
  lemma {:induction false} InsertAllStopsAtError(o: Oracles, fs: map<string, Artifact>, files: seq<string>, n: nat)
    requires n <= |files|
    requires InsertAll(o, fs, files[..n]).Err?
    ensures InsertAll(o, fs, files).Err?
    decreases |files| - n
  {
    if n < |files| {
      assert files[..n + 1][..n] == files[..n];
      InsertAllStopsAtError(o, fs, files, n + 1);
    } else {
      assert files[..n] == files;
    }
  }
}
