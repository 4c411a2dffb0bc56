/**
 * Phase 2 (`merge_kg`: one knowledge graph per partition, built into the
 * staging area) and the two-phase run `custom_genKG`: Phase 1 retried up
 * to three times until it reports 1, Phase 2 retried up to three times until
 * it does not raise, then the published graph is removed and the staging
 * area moved in its place.
 */
module Publish {
  import opened Wrappers
  import opened KgMerge
  import opened KgMergeProps
  import opened Lifecycle

  const SUCCESS: string := "SUCCESS"
  const FAILED: string := "FAILED"
  /** Attempts allowed for each phase. */
  const MAX_TRIES: nat := 3

  /** A partition directory: a finished graph, or what an aborted build left. */
  datatype Partition = Built(kg: KgState) | Broken

  /** A graph directory that may not exist, holding one directory per partition key. */
  type Area = Option<map<string, Partition>>

  function Partitions(a: Area): map<string, Partition> {
    match a
    case Some(m) => m
    case None => map[]
  }

  /**
   * What Phase 2 depends on besides the store: the artifact-fold oracles,
   * the order in which the runtime lists a partition's file set on attempt
   * `n`, and whether the vector-store upserts of a partition (which call the
   * embedding service) fail on attempt `n`.
   */
  datatype Builder = Builder(
    o: Oracles,
    arrange: (nat, string, seq<string>) -> seq<string>,
    embedFails: (nat, string) -> bool)

  /**
   * `custom_insert` for one partition: `None` when it raises, which it does
   * iff some listed file is missing, some listed artifact has relationships
   * but no chunks or an unhashable `source_id`, or the embedding calls
   * fail. A built graph holds one entity fold and one relationship fold
   * over all its artifacts' items in file order, and the entity index
   * projected from its nodes.
   */
  function BuildPartition(b: Builder, attempt: nat, jsons: map<string, Artifact>, key: string, rs: seq<DocRecord>)
    : (r: Option<KgState>)
    ensures var files := PartitionFiles(rs, ns => b.arrange(attempt, key, ns));
      r.None? <==> !Insertable(jsons, files) || b.embedFails(attempt, key)
    ensures var files := PartitionFiles(rs, ns => b.arrange(attempt, key, ns));
      r.Some? ==>
        && Insertable(jsons, files)
        && r.value.ents == EntityFold(EmptyEntities, AllEntities(Artifacts(jsons, files)))
        && r.value.rels == RelationFold(EmptyRelations, AllTagged(Artifacts(jsons, files)))
        && r.value.entityIndex == EntityIndex(b.o, r.value.ents.nodes)
  {
    var files := PartitionFiles(rs, ns => b.arrange(attempt, key, ns));
    InsertAllSucceeds(b.o, jsons, files);
    match InsertAll(b.o, jsons, files)
    case Err(_) => None
    case Ok(s) =>
      InsertAllDecomposes(b.o, jsons, files);
      if b.embedFails(attempt, key) then None
      else Some(s.(entityIndex := EntityIndex(b.o, s.ents.nodes)))
  }

  /** How one call of `merge_kg` ends, with the staging area it leaves. */
  datatype MergeOutcome = Merged(staging: Area) | MergeRaised(staging: Area)

  /** How one partition is built on a given attempt: `custom_insert` on its key and records. */
  type PartitionBuild = (string, seq<DocRecord>) -> Option<KgState>

  function Attempt(b: Builder, attempt: nat, jsons: map<string, Artifact>): PartitionBuild {
    (key, rs) => BuildPartition(b, attempt, jsons, key, rs)
  }

  /** The partition loop over the group keys, in order; the first failure raises out of it. */
  function MergeGroups(build: PartitionBuild, g: Groups, keys: seq<string>, staging: Area): MergeOutcome
    requires forall i :: 0 <= i < |keys| ==> keys[i] in g.members
    decreases |keys|
  {
    if keys == [] then Merged(staging)
    else
      match MergeGroups(build, g, keys[..|keys| - 1], staging)
      case MergeRaised(a) => MergeRaised(a)
      case Merged(a) =>
        var k := keys[|keys| - 1];
        match build(k, g.members[k])
        case Some(kg) => Merged(Some(Partitions(a)[k := Built(kg)]))
        case None => MergeRaised(Some(Partitions(a)[k := Broken]))
  }

  /** `merge_kg`: every partition of the `Persistent` records, built into the staging area. */
  function MergeKg(b: Builder, attempt: nat, st: Store, staging: Area): MergeOutcome {
    var g := PartitionGroups(st.db);
    MergeGroups(Attempt(b, attempt, st.jsons), g, g.order, staging)
  }

  /** Whether partition `k` builds on this attempt. */
  predicate Builds(build: PartitionBuild, g: Groups, k: string)
    requires k in g.members
  {
    build(k, g.members[k]).Some?
  }

  /**
   * A directory whose key is not in the loop keeps what it had, and the
   * staging area exists afterwards iff it existed or some partition was
   * attempted.
   */
  lemma MergeGroupsFrame(build: PartitionBuild, g: Groups, keys: seq<string>, staging: Area)
    requires forall i :: 0 <= i < |keys| ==> keys[i] in g.members
    ensures var out := MergeGroups(build, g, keys, staging);
      && (out.staging.Some? <==> staging.Some? || |keys| > 0)
      && (forall k :: k !in keys ==>
            (k in Partitions(out.staging) <==> k in Partitions(staging))
            && (k in Partitions(staging) ==> Partitions(out.staging)[k] == Partitions(staging)[k]))
  {
    MergeGroupsCreates(build, g, keys, staging);
    forall k | k !in keys
      ensures Keeps(MergeGroups(build, g, keys, staging).staging, staging, k)
    {
      MergeGroupsKeeps(build, g, keys, staging, k);
    }
  }

  /** Area `a` holds under key `k` exactly what area `b` holds. */
  predicate Keeps(a: Area, b: Area, k: string) {
    && (k in Partitions(a) <==> k in Partitions(b))
    && (k in Partitions(b) ==> Partitions(a)[k] == Partitions(b)[k])
  }

  /** The staging area exists after the loop iff it existed or a partition was attempted. */
  lemma {:induction false} MergeGroupsCreates(build: PartitionBuild, g: Groups, keys: seq<string>, staging: Area)
    requires forall i :: 0 <= i < |keys| ==> keys[i] in g.members
    ensures MergeGroups(build, g, keys, staging).staging.Some? <==> staging.Some? || |keys| > 0
    decreases |keys|
  {
    if keys != [] {
      MergeGroupsCreates(build, g, keys[..|keys| - 1], staging);
      MergeGroupsStep(build, g, keys, staging, "");
    }
  }

  /** A key the loop does not visit keeps its directory. */
  lemma {:induction false} MergeGroupsKeeps(build: PartitionBuild, g: Groups, keys: seq<string>, staging: Area, k: string)
    requires forall i :: 0 <= i < |keys| ==> keys[i] in g.members
    requires k !in keys
    ensures Keeps(MergeGroups(build, g, keys, staging).staging, staging, k)
    decreases |keys|
  {
    if keys != [] {
      var init := keys[..|keys| - 1];
      assert k !in init by {
        assert forall i :: 0 <= i < |init| ==> init[i] == keys[i];
      }
      MergeGroupsKeeps(build, g, init, staging, k);
      MergeGroupsStep(build, g, keys, staging, k);
    }
  }

  /**
   * One more key: a loop that already raised stays as it was; otherwise the
   * staging area exists and every other key keeps its directory.
   */
  lemma MergeGroupsStep(build: PartitionBuild, g: Groups, keys: seq<string>, staging: Area, k: string)
    requires forall i :: 0 <= i < |keys| ==> keys[i] in g.members
    requires keys != []
    ensures var prev := MergeGroups(build, g, keys[..|keys| - 1], staging);
      var out := MergeGroups(build, g, keys, staging);
      && (prev.MergeRaised? ==> out == prev)
      && (prev.Merged? ==> out.staging.Some?)
      && (k != keys[|keys| - 1] ==> Keeps(out.staging, prev.staging, k))
  {
  }

  /** The partition loop completes iff every partition builds. */
  lemma {:induction false} MergeGroupsCompletes(build: PartitionBuild, g: Groups, keys: seq<string>, staging: Area)
    requires forall i :: 0 <= i < |keys| ==> keys[i] in g.members
    ensures MergeGroups(build, g, keys, staging).Merged? <==>
      forall i :: 0 <= i < |keys| ==> Builds(build, g, keys[i])
    decreases |keys|
  {
    if keys != [] {
      var init := keys[..|keys| - 1];
      assert forall i :: 0 <= i < |init| ==> init[i] == keys[i];
      MergeGroupsCompletes(build, g, init, staging);
    }
  }

  /** A completed partition loop holds each partition's graph under its key. */
  lemma {:induction false} MergeGroupsHolds(build: PartitionBuild, g: Groups, keys: seq<string>, staging: Area)
    requires forall i :: 0 <= i < |keys| ==> keys[i] in g.members
    requires MergeGroups(build, g, keys, staging).Merged?
    ensures var out := MergeGroups(build, g, keys, staging);
      forall k :: k in keys ==>
        && k in Partitions(out.staging)
        && Partitions(out.staging)[k].Built?
        && Some(Partitions(out.staging)[k].kg) == build(k, g.members[k])
    decreases |keys|
  {
    if keys != [] {
      var init, last := keys[..|keys| - 1], keys[|keys| - 1];
      assert keys == init + [last];
      var prev := MergeGroups(build, g, init, staging);
      assert prev.Merged?;
      MergeGroupsHolds(build, g, init, staging);
    }
  }

  /**
   * Position `n` is the first key whose partition fails to build, and the
   * staging area `a` holds a broken directory for it.
   */
  predicate FailsFirstAt(build: PartitionBuild, g: Groups, keys: seq<string>, n: int, a: Area)
    requires forall i :: 0 <= i < |keys| ==> keys[i] in g.members
  {
    && 0 <= n < |keys|
    && !Builds(build, g, keys[n])
    && (forall i :: 0 <= i < n ==> Builds(build, g, keys[i]))
    && keys[n] in Partitions(a)
    && Partitions(a)[keys[n]] == Broken
  }

  /**
   * When the partition loop raises, it did so at the FIRST partition that
   * fails to build: every one before it was built and that one is left broken.
   */
  lemma {:induction false} MergeGroupsFirstFailure(build: PartitionBuild, g: Groups, keys: seq<string>, staging: Area)
    requires forall i :: 0 <= i < |keys| ==> keys[i] in g.members
    requires MergeGroups(build, g, keys, staging).MergeRaised?
    ensures exists n :: FailsFirstAt(build, g, keys, n, MergeGroups(build, g, keys, staging).staging)
    decreases |keys|
  {
    var init := keys[..|keys| - 1];
    assert forall i :: 0 <= i < |init| ==> init[i] == keys[i];
    var prev := MergeGroups(build, g, init, staging);
    if prev.MergeRaised? {
      MergeGroupsFirstFailure(build, g, init, staging);
      var n :| FailsFirstAt(build, g, init, n, prev.staging);
      assert MergeGroups(build, g, keys, staging) == prev;
      assert FailsFirstAt(build, g, keys, n, prev.staging);
    } else {
      MergeGroupsCompletes(build, g, init, staging);
      assert FailsFirstAt(build, g, keys, |keys| - 1, MergeGroups(build, g, keys, staging).staging);
    }
  }

  /**
   * One call of `merge_kg` succeeds iff every partition of the `Persistent`
   * records builds, and each then holds the graph folded from exactly its
   * own records' artifact files; partitions of base entries no longer in
   * use keep their old directories.
   */
  lemma MergeKgEffect(b: Builder, attempt: nat, st: Store, staging: Area)
    ensures var g, out := PartitionGroups(st.db), MergeKg(b, attempt, st, staging);
      && (out.Merged? <==>
            forall k :: k in g.members ==> BuildPartition(b, attempt, st.jsons, k, g.members[k]).Some?)
      && (out.Merged? ==>
            forall k :: k in g.members ==>
              && k in Partitions(out.staging)
              && Partitions(out.staging)[k].Built?
              && Some(Partitions(out.staging)[k].kg) == BuildPartition(b, attempt, st.jsons, k, g.members[k]))
      && (forall k :: k !in g.members ==>
            (k in Partitions(out.staging) <==> k in Partitions(staging))
            && (k in Partitions(staging) ==> Partitions(out.staging)[k] == Partitions(staging)[k]))
  {
    MergeKgCompletes(b, attempt, st, staging);
    MergeKgHolds(b, attempt, st, staging);
    MergeKgFrame(b, attempt, st, staging);
  }

  lemma MergeKgCompletes(b: Builder, attempt: nat, st: Store, staging: Area)
    ensures var g := PartitionGroups(st.db);
      MergeKg(b, attempt, st, staging).Merged? <==>
        forall k :: k in g.members ==> BuildPartition(b, attempt, st.jsons, k, g.members[k]).Some?
  {
    var g, build := PartitionGroups(st.db), Attempt(b, attempt, st.jsons);
    MergeGroupsCompletes(build, g, g.order, staging);
    forall k | k in g.members ensures exists i :: 0 <= i < |g.order| && g.order[i] == k {
      assert k in g.order;
    }
  }

  lemma MergeKgHolds(b: Builder, attempt: nat, st: Store, staging: Area)
    ensures var g, out := PartitionGroups(st.db), MergeKg(b, attempt, st, staging);
      out.Merged? ==>
        forall k :: k in g.members ==>
          && k in Partitions(out.staging)
          && Partitions(out.staging)[k].Built?
          && Some(Partitions(out.staging)[k].kg) == BuildPartition(b, attempt, st.jsons, k, g.members[k])
  {
    var g, build := PartitionGroups(st.db), Attempt(b, attempt, st.jsons);
    if MergeKg(b, attempt, st, staging).Merged? {
      MergeGroupsHolds(build, g, g.order, staging);
      forall k | k in g.members ensures exists i :: 0 <= i < |g.order| && g.order[i] == k {
        assert k in g.order;
      }
    }
  }

  lemma MergeKgFrame(b: Builder, attempt: nat, st: Store, staging: Area)
    ensures var g, out := PartitionGroups(st.db), MergeKg(b, attempt, st, staging);
      forall k :: k !in g.members ==> Keeps(out.staging, staging, k)
  {
    var g, build := PartitionGroups(st.db), Attempt(b, attempt, st.jsons);
    forall k | k !in g.members
      ensures Keeps(MergeKg(b, attempt, st, staging).staging, staging, k)
    {
      assert k !in g.order;
      MergeGroupsKeeps(build, g, g.order, staging, k);
    }
  }

  // ---------------------------------------------------------------------
  // `custom_genKG`

  /** The service's state: the store, the staging area `KG_NEW`, the published graph `KG`. */
  datatype World = World(store: Store, staging: Area, published: Area)

  /** How a run ends: one of the two literals, or an exception out of the swap. */
  datatype Verdict = Success | Failed | Crashed {
    function Text(): (t: Option<string>)
      ensures t.Some? <==> !Crashed?
    {
      match this
      case Success => Some(SUCCESS)
      case Failed => Some(FAILED)
      case Crashed => None
    }
  }

  datatype Env = Env(x: Extractor, b: Builder)

  /** What a phase's retry loop leaves: the state, the last result, and the number of calls made. */
  datatype Phase1Run = Phase1Run(store: Store, ret: int, calls: nat)
  datatype Phase2Run = Phase2Run(staging: Area, ok: bool, calls: nat)

  /** One call of a phase on attempt `n`. */
  type Phase1Call = (nat, Store) -> Phase1Outcome
  type Phase2Call = (nat, Area) -> MergeOutcome

  function SingleGenKgCalls(x: Extractor): Phase1Call {
    (n: nat, s: Store) => SingleGenKg(x, n, s)
  }

  function MergeKgCalls(b: Builder, st: Store): Phase2Call {
    (n: nat, a: Area) => MergeKg(b, n, st, a)
  }

  /**
   * Reference definition of the Phase 1 loop from its `n`-th call on:
   * stop after three calls or once a call returned 1; a call that raises
   * counts as a try and leaves the last result as it was.
   */
  function Phase1(call: Phase1Call, s: Store, n: nat, ret: int): Phase1Run
    decreases MAX_TRIES - n
  {
    if n >= MAX_TRIES || ret == 1 then Phase1Run(s, ret, n)
    else
      match call(n, s)
      case Raised(s') => Phase1(call, s', n + 1, ret)
      case Returned(s', r) => Phase1(call, s', n + 1, r)
  }

  /** Reference definition of the Phase 2 loop from its `n`-th call on. */
  function Phase2(call: Phase2Call, a: Area, n: nat, ok: bool): Phase2Run
    decreases MAX_TRIES - n
  {
    if n >= MAX_TRIES || ok then Phase2Run(a, ok, n)
    else
      match call(n, a)
      case Merged(a') => Phase2(call, a', n + 1, true)
      case MergeRaised(a') => Phase2(call, a', n + 1, false)
  }

  /**
   * Each phase is called at least once and at most three times, and stops
   * early only because a call succeeded: fewer than three calls means the
   * last one succeeded, and a call that succeeded first time is the only one.
   */
  lemma {:induction false} Phase1Bounded(call: Phase1Call, s: Store, n: nat, ret: int)
    requires n <= MAX_TRIES
    ensures var p := Phase1(call, s, n, ret);
      && n <= p.calls <= MAX_TRIES
      && (ret != 1 && n < MAX_TRIES ==> p.calls > n)
      && (p.calls < MAX_TRIES ==> p.ret == 1)
      && (p.ret == 1 && ret != 1 ==> p.calls > n)
    decreases MAX_TRIES - n
  {
    if n < MAX_TRIES && ret != 1 {
      match call(n, s)
      case Raised(s') => Phase1Bounded(call, s', n + 1, ret);
      case Returned(s', r) => Phase1Bounded(call, s', n + 1, r);
    }
  }

  lemma Phase1FirstSuccess(x: Extractor, s: Store)
    requires SingleGenKg(x, 0, s).Returned? && SingleGenKg(x, 0, s).response == 1
    ensures Phase1(SingleGenKgCalls(x), s, 0, 0) == Phase1Run(SingleGenKg(x, 0, s).store, 1, 1)
  {
  }

  lemma {:induction false} Phase2Bounded(call: Phase2Call, a: Area, n: nat, ok: bool)
    requires n <= MAX_TRIES
    ensures var p := Phase2(call, a, n, ok);
      && n <= p.calls <= MAX_TRIES
      && (!ok && n < MAX_TRIES ==> p.calls > n)
      && (p.calls < MAX_TRIES ==> p.ok)
      && (p.ok && !ok ==> p.calls > n)
    decreases MAX_TRIES - n
  {
    if n < MAX_TRIES && !ok {
      match call(n, a)
      case Merged(a') => Phase2Bounded(call, a', n + 1, true);
      case MergeRaised(a') => Phase2Bounded(call, a', n + 1, false);
    }
  }

  /** The Phase 1 retry loop of `custom_genKG`, around the call `single_genKG`. */
  method RunPhase1(call: Phase1Call, s0: Store) returns (store: Store, ret: int, calls: nat)
    ensures Phase1(call, s0, 0, 0) == Phase1Run(store, ret, calls)
    ensures 1 <= calls <= MAX_TRIES
    ensures calls < MAX_TRIES ==> ret == 1
  {
    Phase1Bounded(call, s0, 0, 0);
    store := s0;
    var tryTimes := MAX_TRIES;
    ret := 0;
    while tryTimes > 0 && ret != 1
      invariant 0 <= tryTimes <= MAX_TRIES
      invariant Phase1(call, store, MAX_TRIES - tryTimes, ret) == Phase1(call, s0, 0, 0)
      decreases tryTimes
    {
      match call(MAX_TRIES - tryTimes, store) {
        case Raised(s) =>
          store := s;
        case Returned(s, r) =>
          store := s;
          ret := r;
      }
      tryTimes := tryTimes - 1;
    }
    calls := MAX_TRIES - tryTimes;
  }

  /** The Phase 2 retry loop of `custom_genKG`, around the call `merge_kg`. */
  method RunPhase2(call: Phase2Call, a0: Area) returns (staging: Area, ok: bool, calls: nat)
    ensures Phase2(call, a0, 0, false) == Phase2Run(staging, ok, calls)
    ensures 1 <= calls <= MAX_TRIES
    ensures calls < MAX_TRIES ==> ok
  {
    Phase2Bounded(call, a0, 0, false);
    staging := a0;
    var tryTimes := MAX_TRIES;
    var ret := 0;
    while tryTimes > 0 && ret != 1
      invariant 0 <= tryTimes <= MAX_TRIES
      invariant ret == 0 || ret == 1
      invariant Phase2(call, staging, MAX_TRIES - tryTimes, ret == 1) == Phase2(call, a0, 0, false)
      decreases tryTimes
    {
      match call(MAX_TRIES - tryTimes, staging) {
        case Merged(a) =>
          staging := a;
          ret := 1;
        case MergeRaised(a) =>
          staging := a;
          ret := 0;
      }
      tryTimes := tryTimes - 1;
    }
    ok := ret == 1;
    calls := MAX_TRIES - tryTimes;
  }

  /**
   * `custom_genKG`. Phase 1 failing in all three tries returns `"FAILED"`
   * without calling `merge_kg` and touches neither graph directory. Phase 2
   * failing in all three tries returns `"FAILED"` with the published graph
   * untouched. Otherwise the published graph is deleted and replaced by the
   * staging area, which no longer exists afterwards; when the staging area
   * was never created the move raises after the deletion.
   */
  method CustomGenKg(env: Env, w: World) returns (v: Verdict, w': World, calls1: nat, calls2: nat)
    ensures var p1 := Phase1(SingleGenKgCalls(env.x), w.store, 0, 0);
      && w'.store == p1.store
      && calls1 == p1.calls && 1 <= calls1 <= MAX_TRIES
      && (p1.ret != 1 ==> v == Failed && calls2 == 0 && w'.staging == w.staging && w'.published == w.published)
      && (p1.ret == 1 ==>
            var p2 := Phase2(MergeKgCalls(env.b, p1.store), w.staging, 0, false);
            && calls2 == p2.calls && 1 <= calls2 <= MAX_TRIES
            && (!p2.ok ==> v == Failed && w'.staging == p2.staging && w'.published == w.published)
            && (p2.ok && p2.staging.Some? ==> v == Success && w'.published == p2.staging && w'.staging == None)
            && (p2.ok && p2.staging.None? ==> v == Crashed && w'.published == None && w'.staging == None))
  {
    var store, ret;
    store, ret, calls1 := RunPhase1(SingleGenKgCalls(env.x), w.store);
    if ret != 1 {
      return Failed, w.(store := store), calls1, 0;
    }
    var staging, ok;
    staging, ok, calls2 := RunPhase2(MergeKgCalls(env.b, store), w.staging);
    if !ok {
      return Failed, World(store, staging, w.published), calls1, calls2;
    }
    // Swap: delete the published graph, then move the staging area into its place.
    if staging.None? {
      return Crashed, World(store, None, None), calls1, calls2;
    }
    return Success, World(store, None, staging), calls1, calls2;
  }
}
