/**
  Merging a batch of new records against the store (`PrepareMixin` and the
  entity-specific `merge` methods): records whose key the store already
  holds, or that repeat a key seen earlier in the batch, are resolved and
  dropped; the rest are passed on with their placeholder still unset.
 */
module Merge {
  import opened Outcomes
  import opened Placeholders
  import opened Dedup

  /** A record offered for insertion: its key (the value of `hash_item`, or an
      issue's handle) and its own `id` placeholder. */
  datatype Candidate<K> = Candidate(key: K, id: Dbid)

  function Keys<K>(items: seq<Candidate<K>>): (ks: seq<K>)
    ensures |ks| == |items| && forall i :: 0 <= i < |items| ==> ks[i] == items[i].key
  {
    seq(|items|, i requires 0 <= i < |items| => items[i].key)
  }

  /** Every candidate's placeholder exists. */
  predicate IdsIn<K>(h: Heap, items: seq<Candidate<K>>) {
    forall i :: 0 <= i < |items| ==> items[i].id < |h|
  }

  /** No placeholder is shared by two candidates. */
  predicate DistinctIds<K>(items: seq<Candidate<K>>) {
    forall i, j :: 0 <= i < j < |items| ==> items[i].id != items[j].id
  }

  function IdSet<K>(items: seq<Candidate<K>>): set<Dbid> {
    set i | 0 <= i < |items| :: items[i].id
  }

  /** `existing_ids`: what the batched lookups return, the stored id of each
      key of the batch that the store holds. */
  function ExistingIds<K(==)>(store: map<K, int>, items: seq<Candidate<K>>): (e: map<K, int>)
    ensures forall i :: 0 <= i < |items| ==> (items[i].key in e <==> items[i].key in store)
    ensures forall k :: k in e ==> k in store && e[k] == store[k]
    ensures forall k :: k in e ==> k in Keys(items)
  {
    var ks := Keys(items);
    map k | k in store && k in ks :: store[k]
  }

  /** Which check comes first: the store (`_merge_by_keys`) or the keys already
      seen in this batch (`Issue.merge`). */
  datatype CheckOrder = StoreFirst | BatchFirst

  datatype Verdict = InStore(existingId: int) | RepeatOf(first: Dbid) | FirstSeen

  function Classify<K(==)>(order: CheckOrder, existing: map<K, int>, seen: map<K, Dbid>, k: K): (v: Verdict)
    ensures v.InStore? ==> k in existing && v.existingId == existing[k]
    ensures v.RepeatOf? ==> k in seen && v.first == seen[k]
    ensures v.FirstSeen? <==> k !in existing && k !in seen
  {
    match order
    case StoreFirst =>
      if k in existing then InStore(existing[k])
      else if k in seen then RepeatOf(seen[k])
      else FirstSeen
    case BatchFirst =>
      if k in seen then RepeatOf(seen[k])
      else if k in existing then InStore(existing[k])
      else FirstSeen
  }

  /** A key seen earlier in the batch was never in the store, so the order of
      the two checks cannot change a verdict. */
  lemma OrderIrrelevant<K>(existing: map<K, int>, seen: map<K, Dbid>, k: K)
    requires existing.Keys !! seen.Keys
    ensures Classify(StoreFirst, existing, seen, k) == Classify(BatchFirst, existing, seen, k)
  {
  }

  /** Key `k` occurs at position `i` and earlier in the batch. */
  predicate IsRepeat<K(==)>(items: seq<Candidate<K>>, i: nat)
    requires i < |items|
  {
    items[i].key in Keys(items)[..i]
  }

  /** The placeholder of the first candidate carrying `items[i]`'s key. */
  function FirstId<K(==)>(items: seq<Candidate<K>>, i: nat): Dbid
    requires i < |items|
  {
    items[FirstIndex(Keys(items), items[i].key)].id
  }

  /** What a merge leaves in the placeholder of candidate `i`: the stored id
      when the store holds its key, else a reference to the first candidate
      with its key when it repeats one, both marked not new; a first
      occurrence of a new key is left as it was. The stored id is held
      directly, where the source holds a reference to the placeholder its
      query built for the id; both resolve alike. */
  predicate MergedAs<K(==)>(h: Heap, store: map<K, int>, items: seq<Candidate<K>>, i: nat, p: Placeholder)
    requires i < |items| && IdsIn(h, items)
  {
    var c := items[i];
    if c.key in store then p == h[c.id].(slot := Concrete(store[c.key]), isNew := false)
    else if IsRepeat(items, i) then p == h[c.id].(slot := Indirect(FirstId(items, i)), isNew := false)
    else p == h[c.id]
  }

  /** The outcome of a key-based merge: the survivors are exactly the first
      occurrences of the keys the store lacks, in batch order; when no
      placeholder is shared, every candidate's placeholder is merged as
      `MergedAs` says; placeholders outside the batch are untouched. */
  ghost predicate KeyedMergeOutcome<K>(h: Heap, store: map<K, int>, items: seq<Candidate<K>>, h': Heap, out: seq<Candidate<K>>)
    requires IdsIn(h, items)
  {
    && |h'| == |h|
    && WellFormed(h')
    && out == Pick(items, FirstPositions(Keys(items), store.Keys))
    && (forall d :: 0 <= d < |h| && d !in IdSet(items) ==> h'[d] == h[d])
    && (DistinctIds(items) ==> forall i :: 0 <= i < |items| ==> MergedAs(h, store, items, i, h'[items[i].id]))
  }

  /** Loop invariant of the merge, after `i` candidates: `seen` maps each new
      key met so far to the placeholder of its first candidate. */
  ghost predicate SeenSoFar<K(!new)>(store: map<K, int>, items: seq<Candidate<K>>, i: nat, seen: map<K, Dbid>)
    requires i <= |items|
  {
    && (forall k :: k in seen <==> k in Keys(items)[..i] && k !in store)
    && (forall k :: k in seen ==> k in Keys(items) && seen[k] == items[FirstIndex(Keys(items), k)].id)
  }

  /** Loop invariant of the merge, after `i` candidates: the placeholders of the
      first `i` are merged, those of the rest are as they were. */
  ghost predicate MergedSoFar<K>(h: Heap, store: map<K, int>, items: seq<Candidate<K>>, i: nat, h': Heap)
    requires i <= |items| && IdsIn(h, items) && |h'| == |h|
  {
    && (forall d :: 0 <= d < |h| && d !in IdSet(items) ==> h'[d] == h[d])
    && (DistinctIds(items) ==> forall j :: 0 <= j < i ==> MergedAs(h, store, items, j, h'[items[j].id]))
    && (DistinctIds(items) ==> forall j :: i <= j < |items| ==> h'[items[j].id] == h[items[j].id])
  }

  lemma MergedStep<K>(h: Heap, store: map<K, int>, items: seq<Candidate<K>>, i: nat, h': Heap, p: Placeholder)
    requires i < |items| && IdsIn(h, items) && |h'| == |h|
    requires MergedSoFar(h, store, items, i, h')
    requires DistinctIds(items) ==> MergedAs(h, store, items, i, p)
    ensures MergedSoFar(h, store, items, i + 1, h'[items[i].id := p])
  {
    var c := items[i];
    assert c.id in IdSet(items);
    var h'' := h'[c.id := p];
    if DistinctIds(items) {
      forall j | 0 <= j < |items| && j != i
        ensures h''[items[j].id] == h'[items[j].id]
      {
        assert items[j].id != c.id;
      }
    }
  }

  lemma SeenStep<K(!new)>(store: map<K, int>, items: seq<Candidate<K>>, i: nat, seen: map<K, Dbid>)
    requires i < |items| && SeenSoFar(store, items, i, seen)
    ensures items[i].key in store || items[i].key in seen ==> SeenSoFar(store, items, i + 1, seen)
    ensures items[i].key !in store && items[i].key !in seen ==>
      && IsFirstNew(Keys(items), store.Keys, i)
      && SeenSoFar(store, items, i + 1, seen[items[i].key := items[i].id])
  {
    var ks := Keys(items);
    var c := items[i];
    assert ks[..i + 1] == ks[..i] + [c.key];
    if c.key !in store && c.key !in seen {
      FirstIndexUnique(ks, c.key, i);
    }
  }

  lemma SurvivorsStep<K>(store: map<K, int>, items: seq<Candidate<K>>, i: nat, out: seq<Candidate<K>>)
    requires i < |items|
    requires out == Pick(items, FirstPositions(Keys(items)[..i], store.Keys))
    ensures IsFirstNew(Keys(items), store.Keys, i) ==>
      out + [items[i]] == Pick(items, FirstPositions(Keys(items)[..i + 1], store.Keys))
    ensures !IsFirstNew(Keys(items), store.Keys, i) ==>
      out == Pick(items, FirstPositions(Keys(items)[..i + 1], store.Keys))
  {
    var ks := Keys(items);
    assert ks[..i + 1][..i] == ks[..i];
    assert ks[..i + 1][..i + 1 - 1] == ks[..i];
    assert IsFirstNew(ks[..i + 1], store.Keys, i) == IsFirstNew(ks, store.Keys, i);
    if IsFirstNew(ks, store.Keys, i) {
      PickSnoc(items, FirstPositions(ks[..i], store.Keys), i);
    }
  }

  /** The loop invariant of the merge after `i` candidates. */
  ghost predicate MergeProgress<K(!new)>(h: Heap, store: map<K, int>, items: seq<Candidate<K>>, i: nat,
                                         seen: map<K, Dbid>, h': Heap, out: seq<Candidate<K>>)
    requires i <= |items| && IdsIn(h, items)
  {
    && |h'| == |h| && WellFormed(h')
    && SeenSoFar(store, items, i, seen)
    && out == Pick(items, FirstPositions(Keys(items)[..i], store.Keys))
    && MergedSoFar(h, store, items, i, h')
  }

  lemma MergeStart<K(!new)>(h: Heap, store: map<K, int>, items: seq<Candidate<K>>)
    requires WellFormed(h) && IdsIn(h, items)
    ensures MergeProgress(h, store, items, 0, map[], h, [])
  {
    assert Keys(items)[..0] == [];
  }

  lemma MergeDone<K(!new)>(h: Heap, store: map<K, int>, items: seq<Candidate<K>>,
                           seen: map<K, Dbid>, h': Heap, out: seq<Candidate<K>>)
    requires IdsIn(h, items) && MergeProgress(h, store, items, |items|, seen, h', out)
    ensures KeyedMergeOutcome(h, store, items, h', out)
  {
    assert Keys(items)[..|items|] == Keys(items);
  }

  /** A candidate whose key the store holds takes the stored id. */
  lemma StoredProgress<K(!new)>(h: Heap, store: map<K, int>, items: seq<Candidate<K>>, i: nat,
                                seen: map<K, Dbid>, h': Heap, out: seq<Candidate<K>>)
    requires i < |items| && IdsIn(h, items) && MergeProgress(h, store, items, i, seen, h', out)
    requires items[i].key in store
    ensures var c := items[i];
      MergeProgress(h, store, items, i + 1, seen, Resolve(h', c.id, IntArg(store[c.key]), false).value, out)
  {
    var c := items[i];
    ResolveIsUpdate(h', c.id, IntArg(store[c.key]), false);
    SeenStep(store, items, i, seen);
    SurvivorsStep(store, items, i, out);
    MergedStep(h, store, items, i, h', h'[c.id].(slot := Concrete(store[c.key]), isNew := false));
  }

  /** A candidate repeating a new key of the batch refers to its first candidate. */
  lemma RepeatProgress<K(!new)>(h: Heap, store: map<K, int>, items: seq<Candidate<K>>, i: nat,
                                seen: map<K, Dbid>, h': Heap, out: seq<Candidate<K>>)
    requires i < |items| && IdsIn(h, items) && MergeProgress(h, store, items, i, seen, h', out)
    requires items[i].key !in store && items[i].key in seen
    ensures seen[items[i].key] < |h'|
    ensures var c := items[i];
      MergeProgress(h, store, items, i + 1, seen, Resolve(h', c.id, DbidArg(seen[c.key]), false).value, out)
  {
    var c := items[i];
    var first := seen[c.key];
    assert first == items[FirstIndex(Keys(items), c.key)].id;
    var p := h'[c.id].(slot := Indirect(first), isNew := false);
    ResolveIsUpdate(h', c.id, DbidArg(first), false);
    assert Resolve(h', c.id, DbidArg(first), false).value == h'[c.id := p];
    assert Keys(items)[i] == c.key;
    SeenStep(store, items, i, seen);
    SurvivorsStep(store, items, i, out);
    MergedStep(h, store, items, i, h', p);
  }

  /** The first candidate of a new key survives and is remembered. */
  lemma FirstProgress<K(!new)>(h: Heap, store: map<K, int>, items: seq<Candidate<K>>, i: nat,
                               seen: map<K, Dbid>, h': Heap, out: seq<Candidate<K>>)
    requires i < |items| && IdsIn(h, items) && MergeProgress(h, store, items, i, seen, h', out)
    requires items[i].key !in store && items[i].key !in seen
    ensures var c := items[i];
      MergeProgress(h, store, items, i + 1, seen[c.key := c.id], h', out + [c])
  {
    var c := items[i];
    SeenStep(store, items, i, seen);
    SurvivorsStep(store, items, i, out);
    MergedStep(h, store, items, i, h', h'[c.id]);
    assert h'[c.id := h'[c.id]] == h';
  }

  /** One candidate of the merge loop. */
  method MergeOne<K(==,!new)>(order: CheckOrder, ghost h: Heap, store: map<K, int>, items: seq<Candidate<K>>,
                              existing: map<K, int>, i: nat, seen: map<K, Dbid>, h': Heap, out: seq<Candidate<K>>)
    returns (seen': map<K, Dbid>, h'': Heap, out': seq<Candidate<K>>)
    requires i < |items| && IdsIn(h, items) && existing == ExistingIds(store, items)
    requires MergeProgress(h, store, items, i, seen, h', out)
    ensures MergeProgress(h, store, items, i + 1, seen', h'', out')
  {
    var c := items[i];
    seen', out' := seen, out;
    match Classify(order, existing, seen, c.key)
    case InStore(id) =>
      StoredProgress(h, store, items, i, seen, h', out);
      h'' := Resolve(h', c.id, IntArg(id), false).value;
    case RepeatOf(first) =>
      RepeatProgress(h, store, items, i, seen, h', out);
      h'' := Resolve(h', c.id, DbidArg(first), false).value;
    case FirstSeen =>
      FirstProgress(h, store, items, i, seen, h', out);
      h'' := h';
      seen' := seen[c.key := c.id];
      out' := out + [c];
  }

  /** The loop shared by `_merge_by_keys` and `Issue.merge`. */
  method MergeKeyed<K(==,!new)>(order: CheckOrder, h: Heap, store: map<K, int>, items: seq<Candidate<K>>)
    returns (h': Heap, out: seq<Candidate<K>>)
    requires WellFormed(h) && IdsIn(h, items)
    ensures KeyedMergeOutcome(h, store, items, h', out)
  {
    var existing := ExistingIds(store, items);
    var seen: map<K, Dbid> := map[];
    h', out := h, [];
    MergeStart(h, store, items);
    for i := 0 to |items|
      invariant MergeProgress(h, store, items, i, seen, h', out)
    {
      seen, h', out := MergeOne(order, h, store, items, existing, i, seen, h', out);
    }
    MergeDone(h, store, items, seen, h', out);
  }

  /** `_merge_by_keys` (and `_merge_by_key`, its single-attribute form): the
      store is checked before the batch. */
  method MergeByKeys<K(==,!new)>(h: Heap, store: map<K, int>, items: seq<Candidate<K>>)
    returns (h': Heap, out: seq<Candidate<K>>)
    requires WellFormed(h) && IdsIn(h, items)
    ensures KeyedMergeOutcome(h, store, items, h', out)
  {
    h', out := MergeKeyed(StoreFirst, h, store, items);
  }

  /** `Issue.merge`, keyed by handle: the batch is checked before the store,
      which yields the same outcome as `_merge_by_keys`. */
  method MergeIssues(h: Heap, store: map<string, int>, issues: seq<Candidate<string>>)
    returns (h': Heap, out: seq<Candidate<string>>)
    requires WellFormed(h) && IdsIn(h, issues)
    ensures KeyedMergeOutcome(h, store, issues, h', out)
  {
    h', out := MergeKeyed(BatchFirst, h, store, issues);
  }

  /** The survivors of a keyed merge carry pairwise distinct keys, and their
      keys are exactly the batch's keys the store lacks. */
  lemma SurvivorsAreNewKeys<K>(store: map<K, int>, items: seq<Candidate<K>>, out: seq<Candidate<K>>)
    requires out == Pick(items, FirstPositions(Keys(items), store.Keys))
    ensures forall a, b :: 0 <= a < b < |out| ==> out[a].key != out[b].key
    ensures (set j | 0 <= j < |out| :: out[j].key) == (set i | 0 <= i < |items| :: items[i].key) - store.Keys
  {
    var ks := Keys(items);
    var fp := FirstPositions(ks, store.Keys);
    SurvivorKeysDistinct(ks, store.Keys);
    SurvivorKeySet(ks, store.Keys);
    assert (set j | 0 <= j < |out| :: out[j].key) == (set j | 0 <= j < |fp| :: ks[fp[j]]);
    assert (set i | 0 <= i < |items| :: items[i].key) == (set k | k in ks);
  }

  /** An association record: its two foreign-key placeholders. */
  datatype Assoc = Assoc(left: Dbid, right: Dbid)

  type PairKey = (Option<int>, Option<int>)

  predicate AssocsIn(h: Heap, items: seq<Assoc>) {
    forall i :: 0 <= i < |items| ==> items[i].left < |h| && items[i].right < |h|
  }

  /** `(r1.resolved(), r2.resolved())`, left first. */
  function PairKeyOf(h: Heap, a: Assoc): (r: Result<PairKey>)
    requires WellFormed(h) && a.left < |h| && a.right < |h|
    ensures r.Ok? <==> Resolved(h, a.left).Ok? && Resolved(h, a.right).Ok?
    ensures r.Ok? ==> r.value == (Resolved(h, a.left).value, Resolved(h, a.right).value)
  {
    var l :- Resolved(h, a.left);
    var r :- Resolved(h, a.right);
    Ok((l, r))
  }

  predicate AllPairsResolve(h: Heap, items: seq<Assoc>)
    requires WellFormed(h) && AssocsIn(h, items)
  {
    forall i :: 0 <= i < |items| ==> PairKeyOf(h, items[i]).Ok?
  }

  function PairKeys(h: Heap, items: seq<Assoc>): (ks: seq<PairKey>)
    requires WellFormed(h) && AssocsIn(h, items) && AllPairsResolve(h, items)
    ensures |ks| == |items| && forall i :: 0 <= i < |items| ==> ks[i] == PairKeyOf(h, items[i]).value
  {
    seq(|items|, i requires 0 <= i < |items| => PairKeyOf(h, items[i]).value)
  }

  /** The loop invariant of `_merge_assocs` after `i` associations. */
  ghost predicate AssocProgress(h: Heap, items: seq<Assoc>, i: nat, seen: set<PairKey>, out: seq<Assoc>)
    requires WellFormed(h) && AssocsIn(h, items) && i <= |items|
  {
    && AllPairsResolve(h, items[..i])
    && (forall k :: k in seen <==> k in PairKeys(h, items[..i]))
    && out == Pick(items, FirstPositions(PairKeys(h, items[..i]), {}))
  }

  lemma AssocStep(h: Heap, items: seq<Assoc>, i: nat, seen: set<PairKey>, out: seq<Assoc>)
    requires WellFormed(h) && AssocsIn(h, items) && i < |items|
    requires AssocProgress(h, items, i, seen, out) && PairKeyOf(h, items[i]).Ok?
    ensures var key := PairKeyOf(h, items[i]).value;
      && (key in seen ==> AssocProgress(h, items, i + 1, seen, out))
      && (key !in seen ==> AssocProgress(h, items, i + 1, seen + {key}, out + [items[i]]))
  {
    var key := PairKeyOf(h, items[i]).value;
    assert items[..i + 1] == items[..i] + [items[i]];
    var prev := PairKeys(h, items[..i]);
    var next := PairKeys(h, items[..i + 1]);
    assert next == prev + [key];
    assert next[..i] == prev;
    if key !in seen {
      assert IsFirstNew(next, {}, i);
      PickSnoc(items, FirstPositions(prev, {}), i);
    }
  }

  /** `_merge_assocs`: keeps, in order, the first association for each
      resolved pair and drops later ones without touching any placeholder;
      fails only when an endpoint cannot be resolved. */
  method MergeAssocs(h: Heap, items: seq<Assoc>) returns (r: Result<seq<Assoc>>)
    requires WellFormed(h) && AssocsIn(h, items)
    ensures r.Ok? <==> AllPairsResolve(h, items)
    ensures r.Err? ==> r.error == RecursionLimit
    ensures r.Ok? ==> r.value == Pick(items, FirstPositions(PairKeys(h, items), {}))
  {
    var seen: set<PairKey> := {};
    var out: seq<Assoc> := [];
    for i := 0 to |items|
      invariant AssocProgress(h, items, i, seen, out)
    {
      var a := items[i];
      var key := PairKeyOf(h, a);
      if key.Err? {
        assert !AllPairsResolve(h, items);
        ResolvedFailsOnlyByRecursion(h, a.left);
        ResolvedFailsOnlyByRecursion(h, a.right);
        return Err(key.error);
      }
      AssocStep(h, items, i, seen, out);
      if key.value !in seen {
        seen := seen + {key.value};
        out := out + [a];
      }
    }
    assert items[..|items|] == items;
    return Ok(out);
  }

  /** The associations `_merge_assocs` keeps have pairwise distinct resolved
      pairs, and every pair of the batch is among them. */
  lemma AssocSurvivorsDistinct(h: Heap, items: seq<Assoc>, out: seq<Assoc>)
    requires WellFormed(h) && AssocsIn(h, items) && AllPairsResolve(h, items)
    requires out == Pick(items, FirstPositions(PairKeys(h, items), {}))
    ensures AssocsIn(h, out) && AllPairsResolve(h, out)
    ensures forall a, b :: 0 <= a < b < |out| ==> PairKeyOf(h, out[a]) != PairKeyOf(h, out[b])
    ensures (set j | 0 <= j < |out| :: PairKeyOf(h, out[j]).value) == (set i | 0 <= i < |items| :: PairKeyOf(h, items[i]).value)
  {
    var ks := PairKeys(h, items);
    var fp := FirstPositions(ks, {});
    SurvivorKeysDistinct(ks, {});
    SurvivorKeySet(ks, {});
    assert (set j | 0 <= j < |out| :: PairKeyOf(h, out[j]).value) == (set j | 0 <= j < |fp| :: ks[fp[j]]);
    assert (set i | 0 <= i < |items| :: PairKeyOf(h, items[i]).value) == (set k | k in ks);
  }

  lemma ResolvedFailsOnlyByRecursion(h: Heap, d: Dbid)
    requires WellFormed(h) && d < |h|
    ensures Resolved(h, d).Err? ==> Resolved(h, d).error == RecursionLimit
  {
    ResolvedWithinFailsOnlyByRecursion(h, d, |h|);
  }

  lemma {:induction false} ResolvedWithinFailsOnlyByRecursion(h: Heap, d: Dbid, fuel: nat)
    requires WellFormed(h) && d < |h|
    ensures ResolvedWithin(h, d, fuel).Err? ==> ResolvedWithin(h, d, fuel).error == RecursionLimit
    decreases fuel
  {
    if h[d].slot.Indirect? && fuel > 0 {
      ResolvedWithinFailsOnlyByRecursion(h, h[d].slot.target, fuel - 1);
    }
  }

  /** An issue instance: its own placeholder, its issue's placeholder, the
      `is_new_issue` flag and the remaining columns. */
  datatype Instance<C> = Instance(id: Dbid, issueId: Dbid, isNewIssue: bool, columns: C)

  predicate IssuesIn<C>(h: Heap, items: seq<Instance<C>>) {
    forall i :: 0 <= i < |items| ==> items[i].issueId < |h|
  }

  /** `IssueInstance.merge`: every instance is kept, in order, and only its
      `is_new_issue` changes, to the `is_new` flag of its issue's own
      placeholder (which is not followed through a reference). */
  function MarkInstances<C>(h: Heap, items: seq<Instance<C>>): (r: seq<Instance<C>>)
    requires IssuesIn(h, items)
    ensures |r| == |items|
    ensures forall i :: 0 <= i < |items| ==> r[i] == items[i].(isNewIssue := h[items[i].issueId].isNew)
  {
    if |items| == 0 then []
    else [items[0].(isNewIssue := h[items[0].issueId].isNew)] + MarkInstances(h, items[1..])
  }
}
