/**
 * The document-lifecycle side of the service: the `subgraph_pool_mapping`
 * record, the Phase 2 selection of `Persistent` records and their grouping
 * into partitions by `base_entry`, the per-partition artifact file set, and
 * the Phase 1 batch (`single_genKG`) that turns `New`/`Modified` records
 * into `Persistent` ones with an artifact file named after their md5.
 */
module Lifecycle {
  import opened Wrappers
  import opened Text
  import KgMerge

  const PERSISTENT: string := "Persistent"
  const NEW: string := "New"
  const MODIFIED: string := "Modified"
  /** The artifact's `source_id` is `"doc-" + md5`: the md5 drops 4 characters. */
  const DOC_PREFIX_LEN: nat := 4
  const JSON_EXT: string := ".json"

  /**
   * One row of `subgraph_pool_mapping`. `filename` is kept in its string
   * form (the service only ever uses `str(inst.filename)`).
   */
  datatype DocRecord = DocRecord(
    id: int,
    filename: string,
    md5: Option<string>,
    filepath: Option<string>,
    status: Option<string>,
    baseEntry: Option<string>)

  // ---------------------------------------------------------------------
  // Phase 2 selection and grouping

  /** The records the Phase 2 query returns, in query order. */
  function PersistentRecords(db: seq<DocRecord>): (rs: seq<DocRecord>)
    ensures forall r :: r in rs <==> r in db && r.status == Some(PERSISTENT)
    decreases |db|
  {
    if db == [] then []
    else
      var init := PersistentRecords(db[..|db| - 1]);
      assert db == db[..|db| - 1] + [db[|db| - 1]];
      if db[|db| - 1].status == Some(PERSISTENT) then init + [db[|db| - 1]] else init
  }

  /**
   * The partition key of a record: its stripped `base_entry`, or nothing
   * when `base_entry` is missing, empty or whitespace only.
   */
  function BaseKey(r: DocRecord): (k: Option<string>)
    ensures k.Some? <==> r.baseEntry.Some? && !AllSpace(r.baseEntry.value)
    ensures k.Some? ==> k.value == Strip(r.baseEntry.value) && Stripped(k.value)
  {
    match r.baseEntry
    case None => None
    case Some(b) =>
      StripEmpty(b);
      var k := Strip(b);
      if k == [] then None else Some(k)
  }

  /**
   * The ordered dictionary of groups: keys in order of first appearance,
   * each mapped to its records in query order.
   */
  datatype Groups = Groups(order: seq<string>, members: map<string, seq<DocRecord>>)

  const NoGroups := Groups([], map[])

  ghost predicate WellFormed(g: Groups) {
    && Distinct(g.order)
    && (forall k :: k in g.members <==> k in g.order)
    && (forall k :: k in g.members ==> |g.members[k]| > 0)
  }

  /** Append a record to its group, opening the group at the end if new. */
  function Bucket(g: Groups, k: string, r: DocRecord): Groups {
    if k in g.members then g.(members := g.members[k := g.members[k] + [r]])
    else Groups(g.order + [k], g.members[k := [r]])
  }

  /** The grouping loop of `merge_kg` over the selected records. */
  function GroupRecords(rs: seq<DocRecord>): (g: Groups)
    ensures WellFormed(g)
    decreases |rs|
  {
    if rs == [] then NoGroups
    else
      var g := GroupRecords(rs[..|rs| - 1]);
      var r := rs[|rs| - 1];
      match BaseKey(r)
      case None => g
      case Some(k) => Bucket(g, k, r)
  }

  /** The partitions `merge_kg` builds from the database. */
  function PartitionGroups(db: seq<DocRecord>): Groups {
    GroupRecords(PersistentRecords(db))
  }

  /** Reference definition: the records of `rs` whose key is `k`, in order. */
  function KeyMembers(rs: seq<DocRecord>, k: string): (ms: seq<DocRecord>)
    ensures forall r :: r in ms <==> r in rs && BaseKey(r) == Some(k)
    decreases |rs|
  {
    if rs == [] then []
    else
      var init := KeyMembers(rs[..|rs| - 1], k);
      assert rs == rs[..|rs| - 1] + [rs[|rs| - 1]];
      if BaseKey(rs[|rs| - 1]) == Some(k) then init + [rs[|rs| - 1]] else init
  }

  /** Reference definition: the keys of `rs` in record order, with repeats. */
  function KeySequence(rs: seq<DocRecord>): (ks: seq<string>)
    ensures forall k :: k in ks <==> exists r :: r in rs && BaseKey(r) == Some(k)
    decreases |rs|
  {
    if rs == [] then []
    else
      var init, last := rs[..|rs| - 1], rs[|rs| - 1];
      assert forall r :: r in rs <==> r in init || r == last by {
        assert rs == init + [last];
      }
      var ks := KeySequence(init);
      match BaseKey(last)
      case None => ks
      case Some(k) => ks + [k]
  }

  /** Reference definition: first occurrences only, in order. */
  function Dedup(xs: seq<string>): (ys: seq<string>)
    ensures Distinct(ys)
    ensures forall x :: x in ys <==> x in xs
    decreases |xs|
  {
    if xs == [] then []
    else
      var init := Dedup(xs[..|xs| - 1]);
      assert xs == xs[..|xs| - 1] + [xs[|xs| - 1]];
      if xs[|xs| - 1] in init then init else init + [xs[|xs| - 1]]
  }

  /**
   * Each group holds exactly the records with its key, in query order; the
   * group keys are the distinct keys in order of first appearance.
   */
  lemma GroupsAreFilters(rs: seq<DocRecord>)
    ensures var g := GroupRecords(rs);
      && g.order == Dedup(KeySequence(rs))
      && (forall k :: k in g.members <==> |KeyMembers(rs, k)| > 0)
      && (forall k :: k in g.members ==> g.members[k] == KeyMembers(rs, k))
  {
    GroupOrder(rs);
    forall k ensures var g := GroupRecords(rs);
      && (k in g.members <==> |KeyMembers(rs, k)| > 0)
      && (k in g.members ==> g.members[k] == KeyMembers(rs, k))
    {
      GroupMembers(rs, k);
    }
  }

  lemma {:induction false} GroupOrder(rs: seq<DocRecord>)
    ensures GroupRecords(rs).order == Dedup(KeySequence(rs))
    decreases |rs|
  {
    if rs != [] {
      var init, r := rs[..|rs| - 1], rs[|rs| - 1];
      GroupOrder(init);
      GroupKeys(init);
      var ks := KeySequence(init);
      match BaseKey(r)
      case None =>
        assert KeySequence(rs) == ks;
      case Some(k0) =>
        assert KeySequence(rs) == ks + [k0];
        assert (ks + [k0])[..|ks|] == ks;
    }
  }

  /** A key has a group iff some record carries it. */
  lemma {:induction false} GroupKeys(rs: seq<DocRecord>)
    ensures forall k :: k in GroupRecords(rs).members <==> k in KeySequence(rs)
    decreases |rs|
  {
    if rs != [] {
      GroupKeys(rs[..|rs| - 1]);
    }
  }

  /** Group `k` exists iff some record carries key `k`, and then holds exactly those records. */
  lemma {:induction false} GroupMembers(rs: seq<DocRecord>, k: string)
    ensures var g := GroupRecords(rs);
      && (k in g.members <==> |KeyMembers(rs, k)| > 0)
      && (k in g.members ==> g.members[k] == KeyMembers(rs, k))
    decreases |rs|
  {
    if rs != [] {
      GroupMembers(rs[..|rs| - 1], k);
    }
  }

  /**
   * Only `Persistent` records with a non-blank `base_entry` are grouped, and
   * each such record sits in exactly the group of its stripped key.
   */
  lemma GroupMembership(db: seq<DocRecord>, r: DocRecord, k: string)
    ensures var g := PartitionGroups(db);
      (k in g.members && r in g.members[k]) <==>
        r in db && r.status == Some(PERSISTENT) && BaseKey(r) == Some(k)
  {
    GroupsAreFilters(PersistentRecords(db));
  }

  // ---------------------------------------------------------------------
  // The artifact files of one partition

  /** The artifact file a record names; a missing md5 renders as `None`. */
  function JsonName(r: DocRecord): (f: string)
    ensures r.md5.Some? ==> f == r.md5.value + JSON_EXT
    ensures r.md5.None? ==> f == "None" + JSON_EXT
  {
    match r.md5
    case Some(m) => m + JSON_EXT
    case None => "None" + JSON_EXT
  }

  function JsonNames(rs: seq<DocRecord>): (fs: seq<string>)
    ensures |fs| == |rs| && forall i :: 0 <= i < |rs| ==> fs[i] == JsonName(rs[i])
  {
    seq(|rs|, i requires 0 <= i < |rs| => JsonName(rs[i]))
  }

  /**
   * The file list of one partition: the set of its records' file names,
   * listed in an order the runtime chooses. `arrange` proposes that order;
   * a proposal that is not an ordering of the set is replaced by the order
   * of first appearance, so every outcome is some ordering of the set.
   */
  function PartitionFiles(rs: seq<DocRecord>, arrange: seq<string> -> seq<string>): (files: seq<string>)
    ensures Distinct(files)
    ensures forall f :: f in files <==> exists r :: r in rs && JsonName(r) == f
  {
    var names := Dedup(JsonNames(rs));
    assert forall f :: f in JsonNames(rs) <==> exists r :: r in rs && JsonName(r) == f by {
      forall f | f in JsonNames(rs) ensures exists r :: r in rs && JsonName(r) == f {
        var i :| 0 <= i < |rs| && JsonNames(rs)[i] == f;
        assert rs[i] in rs;
      }
      forall f | exists r :: r in rs && JsonName(r) == f ensures f in JsonNames(rs) {
        var r :| r in rs && JsonName(r) == f;
        var i :| 0 <= i < |rs| && rs[i] == r;
        assert JsonNames(rs)[i] == f;
      }
    }
    var proposal := arrange(names);
    if && Distinct(proposal)
       && (forall i :: 0 <= i < |proposal| ==> proposal[i] in names)
       && (forall i :: 0 <= i < |names| ==> names[i] in proposal)
    then
      assert forall f :: f in proposal <==> f in names;
      proposal
    else names
  }

  /** Two records with the same md5 contribute one file. */
  lemma {:induction false} PartitionFilesCollapse(rs: seq<DocRecord>, arrange: seq<string> -> seq<string>)
    ensures |PartitionFiles(rs, arrange)| <= |rs|
    ensures (forall i, j :: 0 <= i < j < |rs| ==> JsonName(rs[i]) != JsonName(rs[j])) ==>
      |PartitionFiles(rs, arrange)| == |rs|
  {
    var files := PartitionFiles(rs, arrange);
    var names := JsonNames(rs);
    DistinctLength(files, names);
    if forall i, j :: 0 <= i < j < |rs| ==> JsonName(rs[i]) != JsonName(rs[j]) {
      assert Distinct(names);
      DistinctLength(names, files);
    }
  }

  /** `ys` without any occurrence of `x`. */
  function Without(ys: seq<string>, x: string): (r: seq<string>)
    ensures forall y :: y in r <==> y in ys && y != x
    ensures x in ys ==> |r| < |ys|
    ensures |r| <= |ys|
    decreases |ys|
  {
    if ys == [] then []
    else
      var init := Without(ys[..|ys| - 1], x);
      assert ys == ys[..|ys| - 1] + [ys[|ys| - 1]];
      if ys[|ys| - 1] == x then init else init + [ys[|ys| - 1]]
  }

  /** A duplicate-free list whose elements all occur in `ys` is no longer than `ys`. */
  lemma {:induction false} DistinctLength(xs: seq<string>, ys: seq<string>)
    requires Distinct(xs)
    requires forall x :: x in xs ==> x in ys
    ensures |xs| <= |ys|
    decreases |xs|
  {
    if xs != [] {
      var init, x := xs[..|xs| - 1], xs[|xs| - 1];
      assert x in xs;
      forall y | y in init ensures y in Without(ys, x) {
        var k :| 0 <= k < |init| && init[k] == y;
        assert xs[k] == y;
      }
      DistinctLength(init, Without(ys, x));
    }
  }

  // ---------------------------------------------------------------------
  // Phase 1: `single_genKG`

  /** The store Phase 1 changes: the record table and the artifact directory. */
  datatype Store = Store(db: seq<DocRecord>, jsons: map<string, KgMerge.Artifact>)

  /**
   * The outside world Phase 1 consults: the raw text files, and the
   * extraction pipeline for attempt `n` on a text and file name, which may
   * fail (`None`) and otherwise yields the artifact it writes.
   */
  datatype Extractor = Extractor(
    readRaw: string -> Option<string>,
    extract: (nat, string, string) -> Option<KgMerge.Artifact>)

  /** Python's `s[n:]`: empty when `s` is shorter than `n`. */
  function DropPrefix(s: string, n: nat): (t: string)
    ensures |s| >= n ==> s == s[..n] + t
    ensures |s| < n ==> t == []
  {
    if |s| <= n then [] else s[n..]
  }

  /**
   * The md5 an artifact is filed under: its `source_id` without the first
   * four characters. A missing `source_id` makes the slice raise.
   */
  function ArtifactMd5(a: KgMerge.Artifact): (m: Option<string>)
    ensures m.Some? <==> "source_id" in a.fields && a.fields["source_id"].Str?
  {
    if "source_id" in a.fields && a.fields["source_id"].Str? then
      Some(DropPrefix(a.fields["source_id"].s, DOC_PREFIX_LEN))
    else None
  }

  predicate Pending(r: DocRecord) {
    r.status == Some(NEW) || r.status == Some(MODIFIED)
  }

  /** The positions the Phase 1 query returns, in table order. */
  function PendingIndices(db: seq<DocRecord>): (ix: seq<nat>)
    ensures Distinct(ix)
    ensures forall i: nat :: i in ix <==> i < |db| && Pending(db[i])
    ensures forall k :: 0 <= k < |ix| ==> ix[k] < |db|
    decreases |db|
  {
    if db == [] then []
    else
      var init := PendingIndices(db[..|db| - 1]);
      assert forall i :: 0 <= i < |db| - 1 ==> db[..|db| - 1][i] == db[i];
      if Pending(db[|db| - 1]) then
        assert forall k :: 0 <= k < |init| ==> init[k] in init && init[k] < |db| - 1;
        init + [|db| - 1]
      else init
  }

  /** What handling one record amounts to, decided by the record alone. */
  datatype RecordOutcome =
    | Abort                                  // raised outside the `try`
    | Fail                                   // raised inside the `try`
    | Commit(md5: string, artifact: KgMerge.Artifact)

  /**
   * One record of the batch loop. Opening the raw file lies outside the
   * `try`, so a missing path or an unreadable file aborts the loop; the
   * extraction and the md5 cut lie inside it, so their failure only fails
   * the record.
   */
  function Handle(x: Extractor, attempt: nat, r: DocRecord): (h: RecordOutcome)
    ensures h.Abort? <==> r.filepath.None? || x.readRaw(r.filepath.value).None?
    ensures !h.Abort? ==>
      var a := x.extract(attempt, x.readRaw(r.filepath.value).value, r.filename);
      && (h.Fail? <==> a.None? || ArtifactMd5(a.value).None?)
      && (h.Commit? ==> a == Some(h.artifact))
    ensures h.Commit? ==> ArtifactMd5(h.artifact) == Some(h.md5)
  {
    if r.filepath.None? then Abort
    else
      match x.readRaw(r.filepath.value)
      case None => Abort
      case Some(content) =>
        match x.extract(attempt, content, r.filename)
        case None => Fail
        case Some(a) =>
          match ArtifactMd5(a)
          case None => Fail
          case Some(m) => Commit(m, a)
  }

  /** The record after a commit: md5 and status are set together. */
  function Committed(r: DocRecord, md5: string): DocRecord {
    r.(md5 := Some(md5), status := Some(PERSISTENT))
  }

  /** The state of the batch loop: the store, the response so far, and whether it raised. */
  datatype Batch = Batch(store: Store, response: int, raised: bool)

  function Step(x: Extractor, attempt: nat, b: Batch, i: nat): (b': Batch)
    requires i < |b.store.db|
    ensures |b'.store.db| == |b.store.db|
  {
    match Handle(x, attempt, b.store.db[i])
    case Abort => b.(raised := true)
    case Fail => b.(response := 0)
    case Commit(m, a) =>
      b.(store := Store(b.store.db[i := Committed(b.store.db[i], m)], b.store.jsons[m + JSON_EXT := a]))
  }

  /** The loop over the selected positions; a raise ends it with what was committed. */
  function RunBatch(x: Extractor, attempt: nat, s: Store, ix: seq<nat>): (b: Batch)
    requires forall k :: 0 <= k < |ix| ==> ix[k] < |s.db|
    ensures |b.store.db| == |s.db|
    decreases |ix|
  {
    if ix == [] then Batch(s, 1, false)
    else
      var b := RunBatch(x, attempt, s, ix[..|ix| - 1]);
      if b.raised then b else Step(x, attempt, b, ix[|ix| - 1])
  }

  /** How one call of `single_genKG` ends. */
  datatype Phase1Outcome =
    | Returned(store: Store, response: int)
    | Raised(store: Store)

  function SingleGenKg(x: Extractor, attempt: nat, s: Store): (out: Phase1Outcome)
    ensures |out.store.db| == |s.db|
  {
    var b := RunBatch(x, attempt, s, PendingIndices(s.db));
    if b.raised then Raised(b.store) else Returned(b.store, b.response)
  }

  /**
   * The per-record effect of a batch that did not raise: a selected record
   * whose extraction succeeded gets its md5 and `Persistent` status and its
   * artifact file; every other record is unchanged; the response is 1 iff
   * no selected record failed. Records are judged by their state before the
   * batch because each one is handled once.
   */
  lemma {:induction false} BatchEffect(x: Extractor, attempt: nat, s: Store, ix: seq<nat>)
    requires forall k :: 0 <= k < |ix| ==> ix[k] < |s.db|
    requires Distinct(ix)
    ensures var b := RunBatch(x, attempt, s, ix);
      && (b.raised <==> exists i :: i in ix && Handle(x, attempt, s.db[i]).Abort?)
      && (!b.raised ==>
            && (b.response == 1 <==> forall i :: i in ix ==> !Handle(x, attempt, s.db[i]).Fail?)
            && (forall i :: 0 <= i < |s.db| ==>
                  b.store.db[i] ==
                    if i in ix && Handle(x, attempt, s.db[i]).Commit? then
                      Committed(s.db[i], Handle(x, attempt, s.db[i]).md5)
                    else s.db[i]))
    decreases |ix|
  {
    if ix != [] {
      var init, j := ix[..|ix| - 1], ix[|ix| - 1];
      assert ix == init + [j];
      DistinctSnoc(ix);
      BatchEffect(x, attempt, s, init);
      var b := RunBatch(x, attempt, s, init);
      if !b.raised {
        assert b.store.db[j] == s.db[j];
        StepAt(x, attempt, b, j);
      }
    }
  }

  /** One step of the batch: what it does to the response, the flag and the records. */
  lemma StepAt(x: Extractor, attempt: nat, b: Batch, j: nat)
    requires j < |b.store.db|
    ensures var h, b' := Handle(x, attempt, b.store.db[j]), Step(x, attempt, b, j);
      && (b'.raised <==> b.raised || h.Abort?)
      && b'.response == (if h.Fail? then 0 else b.response)
      && (forall i :: 0 <= i < |b.store.db| && i != j ==> b'.store.db[i] == b.store.db[i])
      && b'.store.db[j] == (if h.Commit? then Committed(b.store.db[j], h.md5) else b.store.db[j])
  {
  }

  /** The artifact files the committed records among `ix` are written to. */
  ghost function Written(x: Extractor, attempt: nat, s: Store, ix: seq<nat>): (w: set<string>)
    requires forall k :: 0 <= k < |ix| ==> ix[k] < |s.db|
    ensures forall i :: i in ix && Handle(x, attempt, s.db[i]).Commit? ==> Handle(x, attempt, s.db[i]).md5 + JSON_EXT in w
    decreases |ix|
  {
    if ix == [] then {}
    else
      var h := Handle(x, attempt, s.db[ix[|ix| - 1]]);
      assert ix == ix[..|ix| - 1] + [ix[|ix| - 1]];
      Written(x, attempt, s, ix[..|ix| - 1]) + if h.Commit? then {h.md5 + JSON_EXT} else {}
  }

  /**
   * Artifact files are only ever added: a batch that did not raise adds
   * exactly the files of its committed records, and one that raised adds
   * a subset of them.
   */
  lemma {:induction false} BatchFiles(x: Extractor, attempt: nat, s: Store, ix: seq<nat>)
    requires forall k :: 0 <= k < |ix| ==> ix[k] < |s.db|
    requires Distinct(ix)
    ensures var b := RunBatch(x, attempt, s, ix);
      && s.jsons.Keys <= b.store.jsons.Keys <= s.jsons.Keys + Written(x, attempt, s, ix)
      && (!b.raised ==> b.store.jsons.Keys == s.jsons.Keys + Written(x, attempt, s, ix))
    decreases |ix|
  {
    if ix != [] {
      var init, j := ix[..|ix| - 1], ix[|ix| - 1];
      DistinctSnoc(ix);
      BatchFiles(x, attempt, s, init);
      var b := RunBatch(x, attempt, s, init);
      if !b.raised {
        BatchEffect(x, attempt, s, init);
        assert b.store.db[j] == s.db[j];
        StepFiles(x, attempt, b, j);
      }
    }
  }

  /** One step adds the artifact file of a committed record and nothing else. */
  lemma StepFiles(x: Extractor, attempt: nat, b: Batch, j: nat)
    requires j < |b.store.db|
    ensures var h := Handle(x, attempt, b.store.db[j]);
      Step(x, attempt, b, j).store.jsons.Keys
        == b.store.jsons.Keys + (if h.Commit? then {h.md5 + JSON_EXT} else {})
  {
  }

  /** A repeat-free list is a repeat-free prefix followed by a new last element. */
  lemma DistinctSnoc(ix: seq<nat>)
    requires ix != [] && Distinct(ix)
    ensures Distinct(ix[..|ix| - 1]) && ix[|ix| - 1] !in ix[..|ix| - 1]
  {
  }

  /**
   * One call of `single_genKG`: it raises iff some `New`/`Modified` record
   * has no readable raw file; otherwise exactly the `New`/`Modified` records
   * whose extraction succeeded become `Persistent` with the md5 cut from
   * their artifact's `source_id`, every other record is unchanged, and the
   * call returns 1 iff none of them failed (in particular with nothing to do).
   */
  lemma SingleGenKgEffect(x: Extractor, attempt: nat, s: Store)
    ensures var out := SingleGenKg(x, attempt, s);
      && (out.Raised? <==> exists i :: 0 <= i < |s.db| && Pending(s.db[i]) && Handle(x, attempt, s.db[i]).Abort?)
      && (out.Returned? ==>
            && (out.response == 1 <==>
                  forall i :: 0 <= i < |s.db| && Pending(s.db[i]) ==> !Handle(x, attempt, s.db[i]).Fail?)
            && (forall i :: 0 <= i < |s.db| ==>
                  var h := Handle(x, attempt, s.db[i]);
                  if Pending(s.db[i]) && h.Commit? then
                    && out.store.db[i] == s.db[i].(md5 := Some(h.md5), status := Some(PERSISTENT))
                    && h.md5 == DropPrefix(h.artifact.fields["source_id"].s, DOC_PREFIX_LEN)
                    && h.md5 + JSON_EXT in out.store.jsons
                  else out.store.db[i] == s.db[i]))
  {
    var ix := PendingIndices(s.db);
    BatchEffect(x, attempt, s, ix);
    var b := RunBatch(x, attempt, s, ix);
    BatchFiles(x, attempt, s, ix);
  }

  /**
   * A batch with nothing `New` or `Modified` changes nothing and reports 1;
   * a batch that reports 1 leaves nothing `New` or `Modified`, so running it
   * again is a no-op.
   */
  lemma SingleGenKgSettles(x: Extractor, attempt: nat, s: Store)
    ensures PendingIndices(s.db) == [] ==> SingleGenKg(x, attempt, s) == Returned(s, 1)
    ensures SingleGenKg(x, attempt, s) == Returned(SingleGenKg(x, attempt, s).store, 1) ==>
      PendingIndices(SingleGenKg(x, attempt, s).store.db) == []
  {
    var ix := PendingIndices(s.db);
    BatchEffect(x, attempt, s, ix);
    var b := RunBatch(x, attempt, s, ix);
    if !b.raised && b.response == 1 {
      forall i | 0 <= i < |b.store.db| ensures !Pending(b.store.db[i]) {
        if i in ix {
          assert !Handle(x, attempt, s.db[i]).Fail?;
          assert !Handle(x, attempt, s.db[i]).Abort?;
        }
      }
      if PendingIndices(b.store.db) != [] {
        assert PendingIndices(b.store.db)[0] in PendingIndices(b.store.db);
      }
    }
  }
}
