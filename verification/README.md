# Identity and deduplication engine of SAPP, in Dafny

This project models the in-memory core that SAPP (the static-analysis
post-processor of pyre-check) runs before a batch of analysis results is
written to its database. The modelled code is `sapp/sapp/models.py`. It covers:

- **Placeholder identities** (`DBID`, `IssueDBID`). They stand for primary
  keys that are not known yet. A placeholder can hold an integer, nothing,
  or another placeholder, and `resolved()` follows that reference. Every
  placeholder of the process lives in one `Heap`, a sequence indexed by
  `local_id`.
- **Merge.** Before a batch is written, each entity's `merge` drops the
  records the store already holds and the repeats within the batch:
  - `_merge_by_keys` and `_merge_by_key` dedup shared texts, sinks and
    sources by key.
  - `Issue.merge` dedups issues by handle.
  - `_merge_assocs` dedups association rows by their resolved pair of
    foreign keys.
  - `IssueInstance.merge` only flags each instance with its issue's
    `is_new`.
  - Every other kind keeps the default `merge`, which passes every record
    through.
- **`prepare`.** It consumes the merge lazily and resolves each survivor's
  placeholder to the next primary key of its kind, marked new, before the
  merge looks at the next record.
- **The primary-key generator** (`PrimaryKeyGenerator`). `reserve` advances
  a durable per-kind counter by the number of ids a batch needs. `get`
  hands out the ids in between, one at a time.

The store is a map from key to stored id. In the source a stored id comes
back from the database wrapped in a fresh placeholder that holds it; the
model uses the integer itself (see "## Left out"). The generator is an explicit
value, a map from kind to `Range(next, max)`. The durable counters and the
largest id of each table form a `KeyStore` value. Failures are values of
`Result`: a rejected `resolve` argument, an unresolved `int()`, a reference
cycle, and the three failed assertions of `get`.

The model follows what the code does, including where its names and comments suggest otherwise:

- `DBID(id)` calls `resolve(id)` with the default `is_new=True`, so a
  placeholder starts out new.
- `resolved()` recurses along the whole reference chain, not just the one
  level its comment at `sapp/sapp/models.py:344` allows. `Resolved` follows the chain too: a reference resolves to whatever
  its target resolves to (`Placeholders.ResolvedFollowsReference`). It
  fails with `RecursionLimit` exactly when the chain of references never
  ends (`Placeholders.FailsIffChainEndless`), which is when the source
  recurses without end. `Placeholders.ResolvedIsTwoStep` shows that it is
  the two-step dereference when references do not chain.
- `resolved()` returns `None` for an unset placeholder instead of failing.
  Only `int()`, and so arithmetic and comparison, fails on it
  (`Unresolved`).
- A `bool` passes `resolve`'s type check, because it is an `int`.
- `reserve` reserves a range for every managed kind that is being saved.
  A kind without a count gets 1; kinds without new records are not
  skipped.
- `IssueInstance.merge` copies the `is_new` flag of the issue's own
  placeholder. It does not follow the reference. An instance of an issue
  that repeats a new handle within the batch is therefore flagged as
  belonging to an old issue (`PlainPrepare.RepeatIssueInstanceNotNew`).

Results about a whole batch's placeholders assume no two records share a
placeholder. `models.py` never builds a record's placeholder itself: the
records and their ids come from its callers, which are assumed to give
each record its own. A record that appears twice in a batch makes its
placeholder refer to itself, and every later `resolved()` on it recurses
without end (`Placeholders.SelfReferenceNeverResolves`).

## Model

| member | source | states |
|---|---|---|
| Placeholders.Resolve | sapp/sapp/models.py:335-354 | `resolve` accepts an int, a bool, None or a placeholder, and rejects anything else with a type error. On success it changes the slot and `is_new` of that one placeholder and nothing else in the heap. |
| Placeholders.NewDbid | sapp/sapp/models.py:330-333 | The constructor type-checks first and consumes a `local_id` only on success. The new placeholder gets the next `local_id`, is new, and leaves every earlier placeholder unchanged. |
| Placeholders.NewIssueDbid | sapp/sapp/models.py:416-421 | An issue placeholder is a plain one whose `replace_assocs` starts false. |
| Placeholders.Resolved | sapp/sapp/models.py:341-348 | An unset slot resolves to none and a concrete slot to its integer. |
| Placeholders.ResolvedFollowsReference | sapp/sapp/models.py:341-348 | A reference resolves to exactly what its target resolves to, in any heap and however long the chain behind the target. |
| Placeholders.FailsIffChainEndless | sapp/sapp/models.py:341-348 | `resolved()` fails, with the recursion limit, exactly when following references never reaches a placeholder that is not a reference. |
| Placeholders.ResolvedIsTwoStep | sapp/sapp/models.py:341-348 | When no reference points at another reference, `resolved()` is the one-level dereference and never fails. |
| Placeholders.OneHop | sapp/sapp/models.py:341-348 | A reference to a concrete placeholder resolves to that placeholder's value. |
| Placeholders.SelfReferenceNeverResolves | sapp/sapp/models.py:341-348 | A placeholder resolved to itself can never be resolved. |
| Placeholders.ResolveThenResolved | sapp/sapp/models.py:335-348 | Reading back what `resolve` stored gives the value, or the target's value for a reference. |
| Placeholders.IntValue | sapp/sapp/models.py:357-358 | `int()` of a placeholder succeeds exactly when its chain ends in an integer, and then gives that integer. |
| Placeholders.Add | sapp/sapp/models.py:363-364 | Addition succeeds exactly when both operands convert, and gives the sum of the converted integers. |
| Placeholders.Compare | sapp/sapp/models.py:366-376 | A comparison succeeds exactly when both operands convert. Then `<` is the integer order of the converted values, and `>`, `>=` and `<=` are its converse and complements. |
| Placeholders.ReferenceActsAsTarget | sapp/sapp/models.py:356-376 | For a placeholder referring to a concrete one, `<=` and `>=` against its target both hold and `<` does not, and it adds like its target. `DBID` defines no `==`, so equality stays identity and is not claimed. |
| Dedup.FirstPositions | sapp/sapp/models.py:147-159 | The surviving positions are increasing, and they are exactly those holding a key outside the store with no earlier occurrence. |
| Dedup.CountFirstNewIsSurvivors | sapp/sapp/models.py:147-159 | The running count of first-new positions is the number of survivors of the prefix. |
| Dedup.SurvivorKeysDistinct | sapp/sapp/models.py:147-159 | No two survivors carry the same key. |
| Dedup.SurvivorKeySet | sapp/sapp/models.py:147-159 | The survivors' keys are exactly the batch's keys minus the stored ones. |
| Dedup.FirstPositionsPrefix | sapp/sapp/models.py:147-159 | A later record never changes the survivors already passed on. |
| Dedup.SurvivorRank | sapp/sapp/models.py:147-159 | The `k`-th survivor has exactly `k` first-new positions before it. |
| Dedup.RerunAddsNothing | sapp/sapp/models.py:150-152 | Once every key of a batch is stored, the batch has no survivors. |
| Dedup.DistinctNewKeysAllSurvive | sapp/sapp/models.py:147-159 | With distinct keys, none stored, every record survives in order. |
| Merge.ExistingIds | sapp/sapp/models.py:124-144 | The lookup maps exactly the batch's stored keys, each to its stored id. |
| Merge.Classify | sapp/sapp/models.py:150-158 | A candidate is a repeat only of a key already seen, is stored only under a stored key, and is first seen exactly when neither holds. |
| Merge.OrderIrrelevant | sapp/sapp/models.py:877-893 | Checking the batch before the store, as `Issue.merge` does, gives the same verdicts as the opposite order. |
| Merge.MergeKeyed | sapp/sapp/models.py:146-159 | The merge yields the first record of each new key, in order. A stored key's placeholder gets the stored id and a repeat's refers to its first record, both not new, when no two records share a placeholder. A survivor's placeholder and every placeholder outside the batch are unchanged. |
| Merge.MergeByKeys | sapp/sapp/models.py:89-159 | `_merge_by_key(s)` has this outcome. |
| Merge.MergeIssues | sapp/sapp/models.py:860-893 | `Issue.merge` has this outcome. |
| Merge.SurvivorsAreNewKeys | sapp/sapp/models.py:146-159 | The survivors of a keyed merge have pairwise distinct keys, and those keys are exactly the batch's unstored keys. |
| Merge.PairKeyOf | sapp/sapp/models.py:165-167 | An association's key is the pair of its resolved endpoints. It fails exactly when one endpoint fails to resolve. |
| Merge.MergeAssocs | sapp/sapp/models.py:161-170 | `_merge_assocs` keeps, in order, the first association of each resolved pair and changes no placeholder. It fails, with `RecursionLimit`, exactly when an endpoint cannot be resolved. |
| Merge.AssocSurvivorsDistinct | sapp/sapp/models.py:161-170 | The kept associations have distinct pairs, and every pair of the batch is among them. |
| Merge.ResolvedFailsOnlyByRecursion | sapp/sapp/models.py:341-348 | `resolved()` can only fail on a cycle. |
| Merge.MarkInstances | sapp/sapp/models.py:754-761 | Every instance is kept, in order. Only its `is_new_issue` changes, to its issue placeholder's own `is_new`. |
| KeyGen.ReserveRange | sapp/sapp/models.py:1826-1859 | The range runs from one past the baseline to the baseline plus the count. The counter is left at the end of the range, and no other kind's range or counter changes. |
| KeyGen.ReserveOneMore | sapp/sapp/models.py:1793-1799 | Reserving one more kind keeps every earlier reservation and leaves the other kinds untouched. |
| KeyGen.ManagedKinds | sapp/sapp/models.py:1793 | The kinds reserved are exactly those being saved that the generator manages. |
| KeyGen.Reserve | sapp/sapp/models.py:1780-1801 | Every managed kind being saved holds a fresh range of its count (1 when none is given). Every other kind is untouched. |
| KeyGen.Get | sapp/sapp/models.py:1861-1871 | `get` fails for an unmanaged kind, an unreserved kind or an exhausted range, in that order. Otherwise it returns the range start and advances it by one. |
| KeyGen.DrawSucceeds | sapp/sapp/models.py:1861-1871 | `n` successive `get`s succeed exactly when the range holds `n` more ids; a failure is the one `get` reports. |
| KeyGen.DrawIsConsecutive | sapp/sapp/models.py:1861-1871 | Successive `get`s return consecutive ids from the range start and leave the range advanced by their number. |
| KeyGen.GetAfterAdvance | sapp/sapp/models.py:1861-1871 | After `n` draws, the next one succeeds exactly when `n + 1` fit, and it returns start plus `n`. |
| KeyGen.ReservationIsFresh | sapp/sapp/models.py:1854-1859 | For a kind with a counter row, reserving without `use_lock`: while the counter covers every id granted so far, a new reservation grants none of them, and the counter still covers them all afterwards. |
| KeyGen.SuccessiveReservationsAdjacent | sapp/sapp/models.py:1854-1859 | A reservation that trusts the counter starts right after the previous one. |
| KeyGen.ResyncCanRegrant | sapp/sapp/models.py:1830-1848 | Resyncing with `use_lock` from the table's largest id can grant again ids that were reserved before. |
| KeyGen.FreshKindScenario | sapp/sapp/models.py:1836-1871 | For a kind with no counter row and an empty table, three ids give the range (1, 3). `get` returns 1, 2 and 3, and a fourth fails. |
| Entities.PrepareDrawsManagedKinds | sapp/sapp/models.py:1763-1775 | Every kind whose records `prepare` gives ids to is managed by the generator. Runs are the only other managed kind. |
| Prepare.AssignId | sapp/sapp/models.py:79-81 | The record's placeholder takes the next id of its kind, marked new, and the generator advances. A failure is `get`'s. |
| Prepare.PrepareKeyed | sapp/sapp/models.py:74-82 | `prepare` of a keyed merge succeeds exactly when the range holds one id per survivor, and otherwise fails as `get` does. The rows are the survivors, exactly that many ids are drawn, and every record's placeholder is settled. |
| Prepare.SettledNewIffYielded | sapp/sapp/models.py:150-159 | A record's placeholder ends up new exactly when the record was yielded. |
| Prepare.SurvivorNumbered | sapp/sapp/models.py:78-81 | The `k`-th survivor holds the `k`-th id of the range, marked new. |
| Prepare.RowsNumbered | sapp/sapp/models.py:74-82 | The `k`-th row holds the `k`-th id of the kind's reserved range. Ids are handed out in yield order without gaps. |
| Prepare.RowOfKey | sapp/sapp/models.py:153-159 | The row for a new key is the first record carrying it. |
| Prepare.SettledResolves | sapp/sapp/models.py:150-159 | Every record resolves to an integer: the stored id, or the id drawn for the survivor with its key. |
| Prepare.PreparedResolves | sapp/sapp/models.py:74-82 | A record with an unstored key resolves to the id of the one row yielded for that key. |
| Prepare.SameIdIffSameKey | sapp/sapp/models.py:146-159 | Two records with unstored keys get the same id exactly when they carry the same key. |
| PlainPrepare.PrepareUnmerged | sapp/sapp/models.py:74-87 | With the default `merge`, every record is yielded in order and the `j`-th gets the `j`-th id. This succeeds exactly when the range holds one id per record. |
| PlainPrepare.PrepareInstances | sapp/sapp/models.py:754-761 | Instances are flagged from the heap as it was before `prepare` and numbered in order. This succeeds exactly when the range holds one id per instance. |
| PlainPrepare.KeyedFreshIsUnmerged | sapp/sapp/models.py:146-159 | A keyed batch of distinct, unstored keys is prepared as the default `merge` would prepare it. |
| PlainPrepare.InstanceNewIffIssueYielded | sapp/sapp/models.py:754-761 | An instance is flagged as belonging to a new issue exactly when its issue was yielded. |
| PlainPrepare.RepeatIssueInstanceNotNew | sapp/sapp/models.py:756-759 | An instance of a repeated new issue is flagged old, although its issue resolves to the new id of the first issue with that handle. |
| PlainPrepare.StoredIssueInstanceNotNew | sapp/sapp/models.py:886-889 | A stored issue resolves to its stored id and is not new, and its instances are flagged old. |
| PlainPrepare.ResubmittedIssueScenario | sapp/sapp/models.py:886-889 | Handle `"H1"` stored with id 42 resolves to 42, not new, and its instance is flagged old. |
| SharedTexts.ParseKey | sapp/sapp/models.py:587-596 | A key splits into contents and kind only in a way that rebuilds it. |
| SharedTexts.ParseMergeKey | sapp/sapp/models.py:587-596 | Splitting a shared text's merge key gives back its contents and kind. |
| SharedTexts.MergeKeyInjective | sapp/sapp/models.py:587-596 | Two shared texts have the same merge key exactly when their contents and kinds agree, even when the contents contain `:`. |
| SharedTexts.TextCandidates | sapp/sapp/models.py:587-596 | Each shared text is offered under the key `contents:kind`, where the kind is the plain string `feature`, `message`, `source` or `sink`: `SharedTextKind` subclasses SQLAlchemy's `Enum` column type (models.py imports `Enum` from `sqlalchemy`), so its members are those strings. |
| SharedTexts.SameTextSameId | sapp/sapp/models.py:544-596 | After `prepare`, two unstored shared texts share an id exactly when their contents and kinds agree. |

## Left out

- The ORM mapping, the column types and the `TypeDecorator`s are left
  out. They are database plumbing.
- The store lookups in `_merge_by_keys` and `Issue.merge` are left out.
  They are queries, so the store is a map parameter, and the batched
  lookup (`split_every`, `BATCH_SIZE`) is not modelled.
- The row-lock retries, the bootstrap `INSERT` and its rollback, and
  concurrent writers are left out. The durable side is one `KeyStore`
  value, updated as `_reserve_id_range` updates it on success.
- `to_dict` is left out. Rows are the records themselves.
- The warning that `Issue.merge` logs for a repeated handle is left out.
- `__str__` and `__repr__` are left out.
- `SourceLocation`, run summaries and the other entity columns are left out.
- `Resolved` stands in for the interpreter's recursion limit with one hop
  per placeholder in the heap. `Placeholders.FailsIffChainEndless` shows
  that running out of those hops happens exactly on an endless chain.
- Merge.MergeKeyed: states what happens to the placeholders of stored and
  repeated records only when no two records share a placeholder, which
  callers are assumed to ensure.
- Merge.MergeKeyed: resolves a stored record's placeholder to the stored
  integer. The source resolves it to the placeholder that the id column
  type builds for each fetched row (`DBIDType.process_result_value` and
  `IssueBIGDBIDType.process_result_value`, `sapp/sapp/models.py:395-396`
  and `430-431`). That placeholder holds the integer and is new. So in the
  source the slot is a reference, and the heap grows by one placeholder per
  fetched row. The value the record resolves to and its own `is_new` flag
  are the same; the slot's shape and the heap's size are not. The lookup
  is a query, which the model leaves out.
- Merge.MergeByKeys: states the placeholders' outcome only when no two
  records share a placeholder, as `Merge.MergeKeyed` does.
- Merge.MergeIssues: states the placeholders' outcome only when no two
  issues share a placeholder, as `Merge.MergeKeyed` does.
- `PrimaryKeyGenerator.pks` is a class attribute, so every generator in
  the process shares one map of ranges (`sapp/sapp/models.py:1778`). The
  model passes one explicit `Generator` value and does not model two
  generator objects drawing from the same map.
- `prepare` and `_merge_assocs` are lazy generators.
  When a `get` or a `resolved()` fails part-way, the rows yielded before
  have already reached the caller, and the placeholders resolved before
  stay resolved. The model returns only the failure, not that partial
  output or heap.
- Prepare.PrepareKeyed: states the settled placeholders only when no two
  records share a placeholder, which callers are assumed to ensure.
- Prepare.PrepareKeyed: a stored record's placeholder settles on the stored
  integer, not on a reference to a fresh placeholder holding it, for the
  reason given under `Merge.MergeKeyed`. `Prepare.SettledResolves` states
  what both agree on: the value it resolves to.
- PlainPrepare.PrepareUnmerged: states the numbering only when no two
  records share a placeholder.
- PlainPrepare.PrepareInstances: states the flags and the numbering only
  when instances have placeholders of their own, distinct from their
  issues'.
- Association kinds have no `id` column, so `prepare` of an association
  batch is `Merge.MergeAssocs`.
- `MergingOf` records which `merge` each kind uses. `prepare` is stated
  for each kind of merge, taking the kind as a parameter.
