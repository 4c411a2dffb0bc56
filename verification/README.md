# Jigsaw-LightRAG: lifecycle, merge engine and benchmark metrics in Dafny

This project models the incremental knowledge-graph pipeline of Jigsaw-LightRAG
and the metrics of its benchmarks.

Each source document has a row in `subgraph_pool_mapping`. Its lifecycle
status is `New`, `Modified`, `Persistent` or `Deleted`, and its `base_entry`
names the partition it belongs to.

- **Phase 1** (`single_genKG`) runs LightRAG extraction on every `New` or
  `Modified` document. Each extraction writes a subgraph artifact
  `<md5>.json`, and a successful document becomes `Persistent`.
- **Phase 2** (`merge_kg`) groups the `Persistent` documents by stripped
  `base_entry`. It rebuilds one knowledge graph per partition by folding the
  partition's artifacts into two accumulators:
  - the entity map, keyed by entity name;
  - the relationship map, keyed by `src######tgt`.

  One artifact is folded by `ainsert_custom_kg`, and one partition by
  `custom_insert`.
- **`custom_genKG`** retries each phase up to three times. It then replaces
  the published graph `KG` with the staging area `KG_NEW`.

The benchmark side covers four things:

- Jaccard stability of LightRAG graphs and GraphRAG outputs across versions.
- Token precision, recall and F1 of answers.
- Filename precision, recall and F1 of retrieved contexts.
- The `<FileNameList>[...]</FileNameList>` response format, and the
  comma-separated form in which retrieved lists are stored.

Modules, one per file:

| file | module | what it holds |
|---|---|---|
| `wrappers.dfy` | `Wrappers` | `Option` (Python `None`, missing keys), `Result` (raise or return), `Distinct` |
| `text.dfy` | `Text` | `str.strip`, `str.split`, `sep.join`, `str.replace` on one character |
| `fractions.dfy` | `Fractions` | elementary facts about the ratios the metrics compute |
| `kg_merge.dfy` | `KgMerge` | artifacts, the accumulators, `ainsert_custom_kg`, `custom_insert` |
| `kg_merge_props.dfy` | `KgMergeProps` | what the fold accumulates, stated against reference definitions |
| `lifecycle.dfy` | `Lifecycle` | document records, the Phase 2 grouping, `single_genKG` |
| `publish.dfy` | `Publish` | `merge_kg`, the retry loops and the swap of `custom_genKG` |
| `jaccard.dfy` | `Jaccard` | `jaccard_lightrag`, `jaccard_graphrag`, the pairwise comparison |
| `prf.dfy` | `Prf` | `token_f1`, `calculate_filename_score_improved`, list normalisation |
| `tag_match.dfy` | `TagMatch` | `re.search` and `re.sub` for `OPEN(.*?)CLOSE` with literal tags |
| `response.dfy` | `Response` | `extract_file_list_and_answer` and `', '.join` storage |

Modelling choices:

- Python floats are modelled as `real`.
- A JSON value of an artifact is a `KgMerge.FieldValue`. Relationship weights are JSON values that the merge only copies. The artifacts written from GraphML hold them as text, and the default for a missing weight is the float `1.0`.
- The documents-store key is a `KgMerge.DocId`, which follows Python dict-key equality. An absent and a `null` `source_id` are the same key `None`. `True`, `1` and `1.0` are one key.
- Database query results are sequences in query order.
- Directories are maps from names to contents. A partition key is one map entry. Path normalisation is not modelled (see "## Left out").
- Everything the code cannot see is a function parameter:
  - the LLM extraction, as `Lifecycle.Extractor`;
  - the embedding service, as `Publish.Builder.embedFails`;
  - `clean_text`, `compute_mdhash_id` and tiktoken, as `KgMerge.Oracles`;
  - the iteration order of a Python `set`, as `Publish.Builder.arrange`.

## Model

| member | source | states |
|---|---|---|
| KgMerge.ChunkEntryOf | src/app/lightRAG/lightrag/lightrag.py:20-46 | a stored chunk holds the cleaned content and its own source id; a missing order index reads as 0, and a missing `full_doc_id` falls back to the chunk's source id |
| KgMerge.ChunkMap | src/app/lightRAG/lightrag/lightrag.py:19-47 | the chunk store's keys are exactly the hashes of the cleaned contents of the artifact's chunks |
| KgMergeProps.ChunkMapLastWins | src/app/lightRAG/lightrag/lightrag.py:32-47 | chunks with equal cleaned content share one key, and the last of them is the one stored |
| KgMerge.MergeEntityReconciles | src/app/lightRAG/lightrag/lightrag.py:56-81 | one entity step: a new name is stored with defaults; a known name appends description and source id after the old ones; the new type is prefixed only when it differs from the accumulated type; the node mirrors the entry; every other name is unchanged |
| KgMerge.EntityFold | src/app/lightRAG/lightrag/lightrag.py:56-81 | graph nodes stay equal to the entity accumulator across the loop |
| KgMerge.MergeRelationReconciles | src/app/lightRAG/lightrag/lightrag.py:83-115 | one relationship step: a new key stores the record with the chunk-loop source id; a known key takes the new weight (default 1.0), appends keywords, description and the relationship's own source id, and drops the endpoints; edge `(src, tgt)` mirrors the entry; every other key and edge is unchanged |
| KgMergeProps.RelationStepAt | src/app/lightRAG/lightrag/lightrag.py:99-115 | one relationship step leaves every other key as it was; its own key then holds the new weight, and keeps its endpoints only when first seen |
| KgMerge.ScalarFields | src/app/lightRAG/lightrag/lightrag.py:117-123 | the document entry keeps exactly the artifact's top-level string, integer, float and boolean fields, with their values |
| KgMerge.DocKey | src/app/lightRAG/lightrag/lightrag.py:117-118 | `custom_kg.get("source_id")` as a dict key: unhashable iff the id is a list or object; the key `None` iff the id is absent or `null` |
| KgMerge.DocKeyEquality | src/app/lightRAG/lightrag/lightrag.py:117-118 | two artifacts with hashable ids share a document entry iff their ids compare equal under Python's `==`, booleans and numbers included |
| KgMerge.InsertArtifact | src/app/lightRAG/lightrag/lightrag.py:15-128 | inserting one artifact raises iff it has relationships but no chunks, or its `source_id` is unhashable; the unbound-variable error comes first; otherwise the document store gains exactly the artifact's key, which maps to its scalar fields |
| KgMerge.InsertArtifactCorrected | src/app/lightRAG/lightrag/lightrag.py:83-123 | with each first-seen relationship recording its own source id, the insert raises only on an unhashable `source_id`; otherwise entities are folded as before, the document entry is stored, and the relationship keys grow by exactly the artifact's relationship keys |
| KgMerge.RelationFoldKeys | src/app/lightRAG/lightrag/lightrag.py:99-101 | the relationship loop adds exactly the keys `src######tgt` of the relationships it processes |
| KgMerge.EntityIndex | src/app/service/jigsaw_service.py:126-138 | the entity index has one entry per graph node, with content `name + description` and the node's name |
| KgMerge.CustomInsert | src/app/service/jigsaw_service.py:102-148 | the partition build fails iff the fold over its files fails; otherwise it yields the fold's state plus the entity index projected from the final nodes |
| KgMerge.InsertAllStopsAtError | src/app/service/jigsaw_service.py:120-125 | once one file of the loop raises, the whole partition build raises |
| KgMergeProps.EntityFoldAccumulates | src/app/lightRAG/lightrag/lightrag.py:66-78 | an entity's description and source id are the `<SEP>`-joined prior value and contributions, in processing order; the name is present iff something was contributed |
| KgMergeProps.EntitySeenOnce | src/app/lightRAG/lightrag/lightrag.py:66-67 | a name contributed exactly once is stored exactly as contributed, with no separator |
| KgMergeProps.EntityTypeRetains | src/app/lightRAG/lightrag/lightrag.py:70-73 | types are concatenated, never replaced: every type ever contributed survives as a piece of the accumulated type |
| KgMergeProps.EntityTypeUniform | src/app/lightRAG/lightrag/lightrag.py:70-73 | when all contributions agree on the type, the accumulated type is exactly that type |
| KgMergeProps.EntityFoldAppend | src/app/service/jigsaw_service.py:118-125 | threading the entity accumulator through two artifacts equals one fold over their concatenated entities |
| KgMergeProps.RelationFoldLastWeight | src/app/lightRAG/lightrag/lightrag.py:100-109 | a relationship is present iff contributed; its weight is the last contribution's (last write wins); it keeps its endpoints exactly while it has one contribution |
| KgMergeProps.RelationFoldKeywords | src/app/lightRAG/lightrag/lightrag.py:100-109 | a relationship's keywords are the `<SEP>`-joined keywords of all its contributions, in order |
| KgMergeProps.RelationFoldDescriptions | src/app/lightRAG/lightrag/lightrag.py:100-109 | a relationship's description is the `<SEP>`-joined descriptions of all its contributions, in order |
| KgMergeProps.RelationFoldSources | src/app/lightRAG/lightrag/lightrag.py:89-108 | a relationship's source id starts with the chunk-loop source id of its first artifact and continues with the later contributions' own source ids |
| KgMergeProps.CorrectedEdgeSources | src/app/lightRAG/lightrag/lightrag.py:89-108 | in the corrected insert, a relationship's source id is the `<SEP>`-joined own source ids of all its contributions |
| KgMergeProps.FirstEdgeTakesChunkSource | src/app/lightRAG/lightrag/lightrag.py:91-101 | as written, a relationship from `"r"` in an artifact whose chunk comes from `"c"` is stored with source id `"c"`, and the same artifact without chunks cannot be inserted |
| KgMergeProps.RelationFoldAppend | src/app/service/jigsaw_service.py:118-125 | threading the relationship accumulator through two artifacts equals one fold over their concatenated relationships |
| KgMergeProps.RelationKeyInjective | src/app/lightRAG/lightrag/lightrag.py:99 | when source ids contain no `#`, two keys are equal iff both endpoints are; `(a, b)` and `(b, a)` are different relationships |
| KgMergeProps.RelationKeyCollision | src/app/lightRAG/lightrag/lightrag.py:99 | with `#` in the ids, distinct pairs share a key, and so do some reversed pairs |
| KgMergeProps.RelationFoldMirrors | src/app/lightRAG/lightrag/lightrag.py:99-115 | every accumulated key has a graph edge; with `#`-free source ids, every edge holds the accumulated record of its own key |
| KgMergeProps.InsertAllSucceeds | src/app/service/jigsaw_service.py:120-125 | a partition's fold succeeds iff every file exists and no artifact has relationships without chunks or an unhashable `source_id` |
| KgMergeProps.InsertAllDecomposes | src/app/service/jigsaw_service.py:118-125 | a successful partition fold equals one entity fold and one relationship fold over all artifacts' items, in file order, from empty accumulators |
| KgMergeProps.PartitionEntityHistory | src/app/service/jigsaw_service.py:118-125 | in a partition's graph, an entity's description and source id join all its contributions across artifacts, and an entity seen once is stored as given |
| KgMergeProps.PartitionRelationHistory | src/app/service/jigsaw_service.py:118-125 | in a partition's graph, a relationship's weight is its last contribution's, and its keywords and description join all its contributions |
| Lifecycle.PersistentRecords | src/app/service/jigsaw_service.py:165 | the Phase 2 query returns exactly the records whose status is `Persistent` |
| Lifecycle.BaseKey | src/app/service/jigsaw_service.py:168-170 | a record has a partition key iff its `base_entry` is present and not all whitespace; the key is the stripped `base_entry` |
| Lifecycle.GroupRecords | src/app/service/jigsaw_service.py:166-173 | the grouping has distinct keys, the same keys in its order and in its map, and no empty group |
| Lifecycle.GroupsAreFilters | src/app/service/jigsaw_service.py:166-173 | the group keys are the distinct keys in order of first appearance; each group is exactly the records with its key, in query order |
| Lifecycle.GroupOrder | src/app/service/jigsaw_service.py:166-173 | the group keys are the distinct partition keys in order of first appearance |
| Lifecycle.GroupKeys | src/app/service/jigsaw_service.py:166-173 | a key has a group iff some record carries it |
| Lifecycle.GroupMembers | src/app/service/jigsaw_service.py:166-173 | a key has a group iff some record carries it, and the group is exactly the records with that key, in query order |
| Lifecycle.GroupMembership | src/app/service/jigsaw_service.py:165-173 | a record is in group `k` iff it is `Persistent` and its stripped `base_entry` is `k` |
| Lifecycle.JsonName | src/app/service/jigsaw_service.py:179 | a record's artifact file is `<md5>.json`, and `None.json` when the md5 is missing |
| Lifecycle.PartitionFiles | src/app/service/jigsaw_service.py:178-180 | a partition's file list has no repeats and holds exactly the artifact files of its records |
| Lifecycle.PartitionFilesCollapse | src/app/service/jigsaw_service.py:179 | a partition has at most as many files as records, and exactly as many when no two records share an md5 |
| Lifecycle.DropPrefix | src/app/service/jigsaw_service.py:50 | `s[4:]` is what follows the first four characters, and empty for a shorter string |
| Lifecycle.ArtifactMd5 | src/app/service/jigsaw_service.py:50 | an artifact yields an md5 iff it has a string `source_id` |
| Lifecycle.PendingIndices | src/app/service/jigsaw_service.py:197 | the Phase 1 query returns each `New` or `Modified` record exactly once |
| Lifecycle.Handle | src/app/service/jigsaw_service.py:199-230 | one record aborts the loop iff its path is missing or its raw file is unreadable, because the file is opened outside the `try`; otherwise it fails iff extraction yields nothing or the artifact has no string `source_id`; a commit carries the extracted artifact and the md5 cut from its `source_id` |
| Lifecycle.BatchEffect | src/app/service/jigsaw_service.py:197-231 | the batch raises iff a selected record's raw file is unreadable; otherwise each successful record becomes `Persistent` with its md5, every other record is unchanged, and the result is 1 iff no selected record failed |
| Lifecycle.StepAt | src/app/service/jigsaw_service.py:199-230 | handling one record raises only on an abort, sets the response to 0 only on a failure, rewrites only that record and only on a commit |
| Lifecycle.BatchFiles | src/app/service/jigsaw_service.py:223-226 | artifact files are only ever added; a batch that did not raise adds exactly its committed records' files |
| Lifecycle.SingleGenKgEffect | src/app/service/jigsaw_service.py:186-231 | one call of `single_genKG`, stated per record: raise condition, result 1 iff no failure, commits and unchanged records |
| Lifecycle.SingleGenKgSettles | src/app/service/jigsaw_service.py:197-198 | with nothing `New` or `Modified` the call changes nothing and returns 1; after a call returning 1 nothing is `New` or `Modified` |
| Publish.BuildPartition | src/app/service/jigsaw_service.py:102-148 | a partition fails to build iff a listed file is missing, a listed artifact has relationships without chunks or an unhashable `source_id`, or the embedding calls fail; a built graph is one entity fold and one relationship fold over all its artifacts' items in file order, plus the entity index of its nodes |
| Publish.MergeGroupsFrame | src/app/service/jigsaw_service.py:174-181 | partitions outside the loop keep their directories; the staging area exists afterwards iff it existed or a partition was attempted |
| Publish.MergeGroupsCreates | src/app/service/jigsaw_service.py:174-181 | the staging area exists after the loop iff it existed or some partition was attempted |
| Publish.MergeGroupsKeeps | src/app/service/jigsaw_service.py:174-181 | a key the loop does not visit keeps its directory, or its absence |
| Publish.MergeGroupsStep | src/app/service/jigsaw_service.py:174-181 | after a raise the loop is over; otherwise one more partition leaves a staging area and every other key's directory as it was |
| Publish.MergeGroupsCompletes | src/app/service/jigsaw_service.py:174-181 | the partition loop completes iff every partition builds |
| Publish.MergeGroupsHolds | src/app/service/jigsaw_service.py:174-181 | after a completed loop, each partition's directory holds its built graph |
| Publish.MergeGroupsFirstFailure | src/app/service/jigsaw_service.py:174-181 | a raising loop stopped at the first partition that fails to build: all earlier ones built, and that one is left broken |
| Publish.MergeKgEffect | src/app/service/jigsaw_service.py:155-183 | `merge_kg` succeeds iff every partition builds, each partition then holds the graph of exactly its own records, and directories of unused keys are kept |
| Publish.MergeKgCompletes | src/app/service/jigsaw_service.py:155-183 | `merge_kg` returns normally iff every partition of the `Persistent` records builds |
| Publish.MergeKgHolds | src/app/service/jigsaw_service.py:155-183 | after `merge_kg` returns, each partition's directory holds the graph built from exactly its own records |
| Publish.MergeKgFrame | src/app/service/jigsaw_service.py:155-183 | directories of keys without a partition are left as they were |
| Publish.Phase1Bounded | src/app/service/jigsaw_service.py:234-244 | Phase 1 is called between one and three times, and stops early only after a call returned 1 |
| Publish.Phase1FirstSuccess | src/app/service/jigsaw_service.py:234-244 | a first call returning 1 is the only call |
| Publish.Phase2Bounded | src/app/service/jigsaw_service.py:245-256 | Phase 2 is called between one and three times, and stops early only after a call did not raise |
| Publish.RunPhase1 | src/app/service/jigsaw_service.py:234-242 | the Phase 1 retry loop computes the reference retry definition, making 1 to 3 calls, fewer only after success |
| Publish.RunPhase2 | src/app/service/jigsaw_service.py:245-254 | the Phase 2 retry loop computes the reference retry definition, making 1 to 3 calls, fewer only after success |
| Publish.CustomGenKg | src/app/service/jigsaw_service.py:233-263 | a Phase 1 failure returns `FAILED` with both graph directories untouched; a Phase 2 failure returns `FAILED` with the published graph untouched; otherwise the staging area replaces the published graph and `SUCCESS` is returned, or the move raises when no staging area exists |
| Jaccard.RatioBounds | src/app/benchmark/jaccard_eval.py:31 | every Jaccard score lies in [0, 1] |
| Jaccard.RatioSymmetric | src/app/benchmark/jaccard_eval.py:31 | the score does not depend on argument order |
| Jaccard.RatioExtremes | src/app/benchmark/jaccard_eval.py:31 | the score is 1.0 iff the sets are equal and non-empty, and 0.0 iff they are disjoint |
| Jaccard.EdgesIdentifiedByFingerprint | src/app/benchmark/jaccard_eval.py:33-41 | edges that agree on their ends and `relationship_type` count as one edge |
| Jaccard.JaccardLightRag | src/app/benchmark/jaccard_eval.py:24-47 | a graph that fails to load gives both scores 0.0; both scores lie in [0, 1] |
| Jaccard.JaccardLightRagSymmetric | src/app/benchmark/jaccard_eval.py:24-47 | comparing two graphs in either order gives the same scores |
| Jaccard.JaccardLightRagSelf | src/app/benchmark/jaccard_eval.py:24-43 | a graph compared with itself scores 1.0 on every non-empty part |
| Jaccard.JaccardGraphRag | src/app/benchmark/jaccard_eval.py:49-74 | any table failing to load gives both scores 0.0; both scores lie in [0, 1] |
| Jaccard.JaccardGraphRagSymmetric | src/app/benchmark/jaccard_eval.py:49-74 | comparing two outputs in either order gives the same scores |
| Jaccard.PairsCount | src/app/benchmark/jaccard_eval.py:116 | `n` versions give `n(n-1)/2` comparisons |
| Jaccard.PairsMembers | src/app/benchmark/jaccard_eval.py:116 | a pair is compared iff it is two versions at positions `i < j`, the earlier first |
| Jaccard.CompareVersions | src/app/benchmark/jaccard_eval.py:114-131 | `n` versions give `n·(n−1)/2` rows; for every pair of positions `i < j` there is a row labelled `vs[i]-vs-vs[j]` with those graphs' LightRAG scores, and every row is such a row |
| Jaccard.CompareVersionsOrder | src/app/benchmark/jaccard_eval.py:116-131 | the rows follow `combinations` order: row `k` is labelled with the `k`-th pair |
| Jaccard.RowsArePairs | src/app/benchmark/jaccard_eval.py:116 | rows listed one per combination cover every pair `i < j` and nothing else, whatever a row holds |
| Prf.HarmonicMeanFacts | src/app/benchmark/dataset_prf_evaluation.py:23 | for ratios in [0, 1], F1 is symmetric, lies in [0, 1], is 0 iff a ratio is 0, and is 1 iff both are 1 |
| Prf.HarmonicMeanBounds | src/app/benchmark/dataset_prf_evaluation.py:23 | the F1 of two ratios in [0, 1], not both zero, lies in [0, 1] |
| Prf.HarmonicMeanZero | src/app/benchmark/dataset_prf_evaluation.py:23 | that F1 is 0 iff one of the ratios is 0 |
| Prf.HarmonicMeanOne | src/app/benchmark/dataset_prf_evaluation.py:23 | that F1 is 1 iff both ratios are 1 |
| Prf.TokenSet | src/app/benchmark/dataset_prf_evaluation.py:14-15 | a token is in the set iff the tokenizer yields it |
| Prf.TokenF1 | src/app/benchmark/dataset_prf_evaluation.py:12-24 | two empty token sets score (1, 1, 1) and one empty set scores (0, 0, 0); otherwise precision and recall are the shared tokens over each set's size |
| Prf.TokenF1Bounds | src/app/benchmark/dataset_prf_evaluation.py:20-24 | every token score lies in [0, 1], and F1 is the harmonic mean of precision and recall |
| Prf.TokenF1Swap | src/app/benchmark/dataset_prf_evaluation.py:12-24 | swapping prediction and ground truth swaps precision and recall and keeps F1 |
| Prf.TokenF1Perfect | src/app/benchmark/dataset_prf_evaluation.py:12-24 | token F1 is 1.0 iff the two token sets are equal |
| Prf.FilenameScore | src/app/benchmark/dataset_prf_evaluation.py:26-51 | as written: an empty gold list scores (1, 1, 1); precision and recall are the number of gold entries found in the retrieval, over the retrieval's and the gold list's lengths |
| Prf.FilenameScoreRecall | src/app/benchmark/dataset_prf_evaluation.py:48-49 | recall lies in [0, 1], and an empty retrieval scores (0, 0, 0) |
| Prf.FilenamePrecisionAboveOne | src/app/benchmark/dataset_prf_evaluation.py:34-38 | retrieval `["a"]` against gold `["a", "a"]` scores precision 2.0 |
| Prf.FilenameScoreCorrected | src/app/benchmark/dataset_prf_evaluation.py:48-51 | corrected: precision counts the retrieved entries found in the gold list; recall and F1 are as before |
| Prf.FilenameScoreCorrectedBounds | src/app/benchmark/dataset_prf_evaluation.py:48-51 | every corrected filename score lies in [0, 1] |
| Prf.OccurringIsOverlap | src/app/benchmark/dataset_prf_evaluation.py:34-38 | for a list without repeats, the matched count is the size of the overlap of the two lists' sets |
| Prf.FilenameScoresAgree | src/app/benchmark/dataset_prf_evaluation.py:26-51 | on lists without repeats, the as-written and corrected scores coincide |
| Prf.StripNonEmpty | src/app/benchmark/dataset_prf_evaluation.py:101-102 | the kept entries are non-empty, stripped, never more than the pieces, and comma-free when the pieces are |
| Prf.StripNonEmptyKeeps | src/app/benchmark/dataset_prf_evaluation.py:101-102 | entries already non-empty and stripped pass through unchanged |
| Prf.NormaliseList | src/app/benchmark/dataset_prf_evaluation.py:101-102 | a normalised list holds non-empty, stripped, comma-free names, and a missing value gives the empty list |
| Text.Strip | src/app/benchmark/dataset_prf_evaluation.py:101 | `strip()` yields the infix of its input with only whitespace before and after it, and that infix neither starts nor ends with whitespace; a stripped string is left unchanged |
| Text.StripEmpty | src/app/service/jigsaw_service.py:168-169 | a string strips to empty iff it is all whitespace |
| Text.Split | src/app/benchmark/dataset_exp.py:27 | `split(c)` gives one more piece than there are separators; the pieces hold no separator and only characters of the input |
| Text.JoinSplit | src/app/benchmark/dataset_exp.py:27 | re-joining the pieces of a split with the separator restores the string |
| Text.SplitJoin | src/app/benchmark/dataset_prf_evaluation.py:102 | splitting the join of separator-free pieces restores the pieces |
| Text.RemoveChar | src/app/benchmark/dataset_exp.py:27 | `replace(c, "")` removes every `c`, keeps every other character's count, shortens the string by the number of `c`s, and leaves a string without `c` unchanged |
| Text.RemoveCharAppend | src/app/benchmark/dataset_exp.py:27 | removal works piece by piece, so the characters kept stay in their order |
| TagMatch.FindCloseFirst | src/app/benchmark/dataset_exp.py:25 | the lazy capture ends at the first closing tag and holds no newline; none is found only when every closing tag ahead lies past a newline |
| TagMatch.MatchAtMeaning | src/app/benchmark/dataset_exp.py:25 | a match at a position is the opening tag, a newline-free capture without a closing tag, and the closing tag |
| TagMatch.SearchLeftmost | src/app/benchmark/dataset_exp.py:25 | the match found is the leftmost one, and none is found only when no position starts a match |
| TagMatch.Sub | src/app/benchmark/dataset_exp.py:30 | removing matches never lengthens the text |
| TagMatch.SubNoMatch | src/app/benchmark/dataset_exp.py:30 | without a match, removal changes nothing |
| TagMatch.SubFirst | src/app/benchmark/dataset_exp.py:30 | removal keeps the text before the leftmost match, drops the match, and carries on after it |
| TagMatch.SubAfterSearch | src/app/benchmark/dataset_exp.py:25-30 | removal over the whole text keeps what precedes the match `re.search` finds and resumes after its closing tag |
| TagMatch.SearchFound | src/app/benchmark/dataset_exp.py:25-30 | a found match splits the text into prefix, opening tag, capture, closing tag and rest; nothing matches in the prefix, and removal keeps the prefix |
| Response.Data | src/app/benchmark/dataset_exp.py:22 | a missing `data` field reads as the empty string |
| Response.FileList | src/app/benchmark/dataset_exp.py:26-27 | the list has at least one entry, and no entry holds a quote, a space or a comma |
| Response.Extract | src/app/benchmark/dataset_exp.py:20-32 | the file list is never empty, its entries hold no quote, space or comma, and the answer is stripped |
| Response.ExtractWith | src/app/benchmark/dataset_exp.py:20-32 | for any tag pair, the list is never empty, its entries hold no quote, space or comma, and the answer is stripped |
| Response.ExtractWithoutTag | src/app/benchmark/dataset_exp.py:25-30 | a response without a well-formed tag yields the list `[""]` and the whole text stripped |
| Response.ExtractWithoutData | src/app/benchmark/dataset_exp.py:22-32 | a response without `data` yields the list `[""]` and an empty answer |
| Response.ExtractWithTag | src/app/benchmark/dataset_exp.py:25-30 | with a tag, the list re-joined with commas is the capture without quotes and spaces, and the answer is the stripped text around the removed tag |
| Response.ExtractFound | src/app/benchmark/dataset_exp.py:25-30 | for any tag pair, a found match gives the list of its capture without quotes and spaces, and the answer of the stripped text around the removed match |
| Response.FileListJoin | src/app/benchmark/dataset_exp.py:26-27 | re-joining the cleaned list with commas gives the capture without quotes and spaces |
| Response.StoredListRoundTrip | src/app/benchmark/dataset_exp.py:88 | re-reading a stored list of comma-free names gives the names stripped, with the empty ones dropped |
| Response.PiecesRoundTrip | src/app/benchmark/dataset_exp.py:88 | splitting the `", "`-joined names on commas and stripping the pieces yields the names stripped, the empty ones dropped |
| Response.SerialiseRoundTrip | src/app/benchmark/dataset_exp.py:88 | names that are non-empty, stripped and comma-free are read back unchanged |
| Response.ExtractedListStored | src/app/benchmark/dataset_exp.py:88 | the list the experiment stores for a response is read back as the extracted names, stripped, without the empty ones |

## Left out

- File and database I/O, the HTTP API and `print` are left out. Directories, tables and artifact files are Dafny maps and sequences passed in and returned.
- The LLM extraction (`ainsert` in `single_genKG`) is an oracle, `Lifecycle.Extractor.extract`. It takes the attempt number, so retries may behave differently.
- The embedding service is left out. Whether a partition's vector upserts fail is the oracle `Publish.Builder.embedFails`.
- `clean_text`, `compute_mdhash_id` and tiktoken are the uninterpreted functions of `KgMerge.Oracles`. Hash collisions are therefore possible in the model, as in the code.
- The chunk vector upsert at the end of `custom_insert` (src/app/service/jigsaw_service.py:139-147) is folded into the failure oracle. Its payload is not modelled.
- KgMerge.EntityIndex: reads the nodes from the model's node store, not from re-parsed graphml. The graphml round trip is outside the model.
- KgMerge.EntityIndex: is keyed by entity name. The source keys it by `compute_mdhash_id(name)`, which is kept as a field of each entry.
- The graph store is a pair of maps, not a networkx graph. Two things follow:
  - Its undirected edge identity is not modelled.
  - Nodes created implicitly by an edge upsert are not modelled.
- Partial writes of a raising build are modelled only as a `Broken` partition directory. What that directory holds is not modelled.
- Concurrency and `asyncio` scheduling are left out. Every call is sequential.
- Publish.MergeKg: aborts at the first partition that fails, as the code does. Partitions after it are not rebuilt in that attempt.
- Stale partitions are not removed. A directory in `KG_NEW` whose key no longer occurs is carried into the published graph, as the code leaves it.
- Lifecycle.PartitionFiles: the iteration order of a Python set is chosen by the `arrange` parameter. Proposals that are not an ordering of the set fall back to first-appearance order.
- Python floats are modelled as exact reals. Rounding in divisions and means is not modelled.
- KgMerge.DocKey: a float `source_id` that is NaN is not modelled, since reals have no NaN. The documents store's own persistence is not part of this model. `docs` is the merged Python dict.
- Prf.FilenameScore: leaves out the weights, the `difflib` similarity and the excess penalty of src/app/benchmark/dataset_prf_evaluation.py:29-47. They only feed a `score` that is never returned.
- The averaging in `prf_eval` and the reporting in `calculate_all_jaccard_scores` are left out. So are the path discovery, the database queries and `semantic_llm_judge`.
- Prf.TokenSet: the tokenizer is a given token sequence. tiktoken encodings are not modelled.
- Jaccard.JaccardLightRag: graphml and parquet loading are `Option` inputs. `None` stands for any exception raised while reading or computing.
- Jaccard.JaccardGraphRag: a present `relationship_type` that is null would be fingerprinted as `"None"` or `"nan"` by `str()`. The model reads it as a given string, and a missing one as `""`.
- Text.IsSpace: covers Python's `str.isspace` for the characters in Unicode's White_Space set and the separators 0x1C-0x1F. Unicode normalisation is not modelled.
- TagMatch.Sub: requires a non-empty opening tag, which holds for the one pattern the code uses.
- Lifecycle.SingleGenKg: a record whose raw file cannot be opened raises out of the call, as the code does. Later records of that batch are not processed.
- Publish.CustomGenKg: `del_KG_data` is modelled as part of deleting the published graph.
- Publish.MergeGroupsKeeps: treats distinct partition keys as distinct, non-nested directories inside `KG_NEW`. The code builds `base_kg_dir / b` (src/app/service/jigsaw_service.py:175) and deletes an existing directory first (src/app/service/jigsaw_service.py:106-107). pathlib normalisation is not modelled: `"kb"`, `"kb/"` and `"./kb"` are one directory, `"."` is `KG_NEW` itself, `"kb"` contains `"kb/x"`, and an absolute key leaves `KG_NEW`. For such keys a later build deletes an earlier partition, which the model keeps.
- Publish.MergeGroupsHolds: holds only for keys that are distinct single relative path components, for the same reason. Aliasing and nesting keys are not modelled.
- Publish.MergeKgHolds: holds only for `base_entry` keys that are distinct single relative path components. pathlib aliasing, nesting and absolute keys are not modelled.
- Response.Data: the response body is a map from strings to strings. A body that is not a dict, or a non-string `data`, raises in `.get` or `re.search` (src/app/benchmark/dataset_exp.py:22-25). `call_api` then returns `(None, None)` (src/app/benchmark/dataset_exp.py:63-70). The program's own API always returns a string `data`, so this path is not modelled.
- KgMerge.InsertArtifact: the storage backends are assumed to overwrite on upsert. The chunk store is `s.chunks + ChunkMap(..)`, the documents store is `docs[key := ..]`, and an edge upsert replaces the edge's record. The backends are not part of this model. A KV upsert that only inserts absent keys would keep older entries. networkx `add_edge` merges attribute dicts, so it would keep stale keys such as the endpoints on a merged edge.
- KgMerge.ChunkIn: the artifact's items are typed records. A missing mandatory key raises `KeyError` in the code (src/app/lightRAG/lightrag/lightrag.py:20-21, 34, 57, 84-87), and the model cannot express that. Extra per-chunk fields are dropped. Neither arises from the artifacts `create_single_json` writes.
- The shipped pipeline keeps the as-written relationship source id, because the code does that. `KgMerge.InsertArtifactCorrected` is the corrected definition, stated and proved separately.

## Findings

| source | as written | input that shows it | evidently intended | confidence | as-written member | corrected member |
|---|---|---|---|---|---|---|
| src/app/benchmark/dataset_prf_evaluation.py:34-38 | `matched` counts the gold entries found in the retrieval, and line 48 divides it by the retrieval's length to get precision | retrieval `["a"]`, gold `["a", "a"]`: precision 2.0 | precision is the share of retrieved entries that are relevant, so it lies in [0, 1] | not executed | Prf.FilenamePrecisionAboveOne | Prf.FilenameScoreCorrectedBounds |
| src/app/lightRAG/lightrag/lightrag.py:96 | a first-seen relationship stores `source_id`, the leftover variable of the chunk loop, instead of its own `source_chunk_id` | one chunk from `"c"` and relationship `A→B` from `"r"`: the edge's source id is `"c"`; without chunks the same artifact raises `NameError` | the relationship records its own source id, as the merge branch at line 108 does | not executed | KgMergeProps.FirstEdgeTakesChunkSource | KgMergeProps.CorrectedEdgeSources |
