/**
  `prepare` of the entities without a key of their own: those that keep
  the default `merge` (every record is kept, in order) and issue instances,
  whose `merge` only copies their issue's `is_new` flag. Every record is
  yielded, so every record draws an id.
 */
module PlainPrepare {
  import opened Entities
  import opened Outcomes
  import opened Placeholders
  import opened Dedup
  import opened Merge
  import opened KeyGen
  import opened Prepare

  /** No placeholder occurs twice. */
  predicate Distinct(ids: seq<Dbid>) {
    forall a, b :: 0 <= a < b < |ids| ==> ids[a] != ids[b]
  }

  predicate AllIn(h: Heap, ids: seq<Dbid>) {
    forall j :: 0 <= j < |ids| ==> ids[j] < |h|
  }

  /** The first `i` placeholders hold the ids `base`, `base + 1`, ... in
      order, marked new, and every other placeholder is as it was. */
  ghost predicate Numbered(h: Heap, ids: seq<Dbid>, base: int, i: nat, heap: Heap)
    requires i <= |ids| && AllIn(h, ids)
  {
    && |heap| == |h|
    && (forall j {:trigger heap[ids[j]]} :: 0 <= j < i ==> heap[ids[j]] == h[ids[j]].(slot := Concrete(base + j), isNew := true))
    && (forall d :: 0 <= d < |h| && d !in ids[..i] ==> heap[d] == h[d])
  }

  lemma NumberedStart(h: Heap, ids: seq<Dbid>, base: int)
    requires AllIn(h, ids)
    ensures Numbered(h, ids, base, 0, h)
  {
  }

  /** Numbering placeholder `i` next extends the numbering by one. */
  lemma NumberedStep(h: Heap, ids: seq<Dbid>, base: int, i: nat, heap: Heap, heap': Heap)
    requires i < |ids| && AllIn(h, ids) && Distinct(ids)
    requires Numbered(h, ids, base, i, heap)
    requires heap' == heap[ids[i] := heap[ids[i]].(slot := Concrete(base + i), isNew := true)]
    ensures Numbered(h, ids, base, i + 1, heap')
  {
    assert ids[..i + 1] == ids[..i] + [ids[i]];
    assert ids[i] !in ids[..i];
    forall j | 0 <= j < i + 1
      ensures heap'[ids[j]] == h[ids[j]].(slot := Concrete(base + j), isNew := true)
    {
      if j < i {
        assert ids[j] != ids[i];
      }
    }
  }

  /** The draw that fails at record `i` is one of the `n` the batch needs. */
  lemma CannotDrawMore(g: Generator, kind: EntityKind, i: nat, n: nat)
    requires i <= n && !CanDraw(g, kind, i)
    ensures !CanDraw(g, kind, n)
  {
  }

  /** `prepare` with the default `merge`: every record is yielded, in order,
      and the `i`-th one is given the `i`-th id of the kind's range. */
  method PrepareUnmerged(kind: EntityKind, h: Heap, g: Generator, ids: seq<Dbid>)
    returns (r: Result<Prepared<Dbid>>)
    requires WellFormed(h) && AllIn(h, ids)
    ensures r.Ok? <==> CanDraw(g, kind, |ids|)
    ensures r.Err? ==> r.error == GetFailure(g, kind)
    ensures r.Ok? ==> r.value.rows == ids && r.value.gen == Advance(g, kind, |ids|) && WellFormed(r.value.heap)
    ensures r.Ok? && Distinct(ids) ==> Numbered(h, ids, Base(g, kind), |ids|, r.value.heap)
  {
    var heap, gen := h, g;
    NumberedStart(h, ids, Base(g, kind));
    for i := 0 to |ids|
      invariant CanDraw(g, kind, i) && gen == Advance(g, kind, i)
      invariant |heap| == |h| && WellFormed(heap)
      invariant Distinct(ids) ==> Numbered(h, ids, Base(g, kind), i, heap)
    {
      NextId(g, kind, i, gen);
      var drawn := AssignId(kind, heap, gen, ids[i]);
      if drawn.Err? {
        CannotDrawMore(g, kind, i + 1, |ids|);
        return Err(drawn.error);
      }
      if Distinct(ids) {
        NumberedStep(h, ids, Base(g, kind), i, heap, drawn.value.0);
      }
      heap, gen := drawn.value.0, drawn.value.1;
    }
    return Ok(Prepared(heap, gen, ids));
  }

  /** The instances' own placeholders. */
  function InstanceIds<C>(items: seq<Instance<C>>): (r: seq<Dbid>)
    ensures |r| == |items| && forall j :: 0 <= j < |items| ==> r[j] == items[j].id
  {
    seq(|items|, j requires 0 <= j < |items| => items[j].id)
  }

  /** Instances have placeholders of their own, none of which is an issue's. */
  predicate Separate<C>(items: seq<Instance<C>>) {
    && Distinct(InstanceIds(items))
    && forall a, b :: 0 <= a < |items| && 0 <= b < |items| ==> items[a].id != items[b].issueId
  }

  /** `prepare` of issue instances: each instance is marked from its issue's
      placeholder and then given the next id, before the next one is
      marked. Since no instance's placeholder is an issue's, the marks are
      those of the heap before `prepare`. */
  method PrepareInstances<C>(h: Heap, g: Generator, items: seq<Instance<C>>)
    returns (r: Result<Prepared<Instance<C>>>)
    requires WellFormed(h) && IssuesIn(h, items) && AllIn(h, InstanceIds(items))
    ensures r.Ok? <==> CanDraw(g, IssueInstance, |items|)
    ensures r.Err? ==> r.error == GetFailure(g, IssueInstance)
    ensures r.Ok? ==> r.value.gen == Advance(g, IssueInstance, |items|) && WellFormed(r.value.heap)
    ensures r.Ok? && Separate(items) ==>
      && r.value.rows == MarkInstances(h, items)
      && Numbered(h, InstanceIds(items), Base(g, IssueInstance), |items|, r.value.heap)
  {
    var ids := InstanceIds(items);
    var base := Base(g, IssueInstance);
    var heap, gen := h, g;
    var rows := [];
    NumberedStart(h, ids, base);
    for i := 0 to |items|
      invariant CanDraw(g, IssueInstance, i) && gen == Advance(g, IssueInstance, i)
      invariant |heap| == |h| && WellFormed(heap) && |rows| == i
      invariant Separate(items) ==> Numbered(h, ids, base, i, heap)
      invariant Separate(items) ==>
        forall j :: 0 <= j < i ==> rows[j] == items[j].(isNewIssue := h[items[j].issueId].isNew)
    {
      var c := items[i];
      if Separate(items) {
        assert c.issueId !in ids[..i];
      }
      var marked := c.(isNewIssue := heap[c.issueId].isNew);
      NextId(g, IssueInstance, i, gen);
      var drawn := AssignId(IssueInstance, heap, gen, c.id);
      if drawn.Err? {
        CannotDrawMore(g, IssueInstance, i + 1, |items|);
        return Err(drawn.error);
      }
      if Separate(items) {
        NumberedStep(h, ids, base, i, heap, drawn.value.0);
      }
      heap, gen := drawn.value.0, drawn.value.1;
      rows := rows + [marked];
    }
    return Ok(Prepared(heap, gen, rows));
  }

  /** A keyed batch whose keys are all distinct and none stored is prepared
      as the default `merge` would: every candidate is yielded, in order,
      and the `j`-th one holds the `j`-th id, marked new. */
  lemma KeyedFreshIsUnmerged<K>(h: Heap, store: map<K, int>, items: seq<Candidate<K>>, base: int,
                                heap: Heap, rows: seq<Candidate<K>>)
    requires IdsIn(h, items) && SettledHeap(h, store, items, base, heap)
    requires rows == Pick(items, FirstPositions(Keys(items), store.Keys))
    requires forall a, b :: 0 <= a < b < |items| ==> items[a].key != items[b].key
    requires forall a :: 0 <= a < |items| ==> items[a].key !in store
    ensures rows == items
    ensures forall j :: 0 <= j < |items| ==>
      heap[items[j].id] == h[items[j].id].(slot := Concrete(base + j), isNew := true)
  {
    DistinctNewKeysAllSurvive(Keys(items), store.Keys);
    forall j | 0 <= j < |items|
      ensures heap[items[j].id] == h[items[j].id].(slot := Concrete(base + j), isNew := true)
    {
      SurvivorNumbered(h, store, items, base, heap, j);
    }
  }

  /** After the issues are prepared, an instance is marked as belonging to a
      new issue exactly when its issue's placeholder is that of a yielded
      issue. */
  lemma InstanceNewIffIssueYielded<K, C>(h: Heap, store: map<K, int>, issues: seq<Candidate<K>>, base: int,
                                         heap: Heap, insts: seq<Instance<C>>, k: nat, q: nat)
    requires IdsIn(h, issues) && SettledHeap(h, store, issues, base, heap)
    requires IssuesIn(heap, insts) && k < |insts| && q < |issues| && insts[k].issueId == issues[q].id
    ensures MarkInstances(heap, insts)[k].isNewIssue <==> q in FirstPositions(Keys(issues), store.Keys)
  {
    SettledNewIffYielded(h, store, issues, base, heap, q);
  }

  /** An instance of a repeated new issue is marked as belonging to an old
      issue, although its issue resolves to the id just drawn for the first
      issue with the same key, which is marked new: the flag is read from
      the issue's own placeholder and not through the reference. */
  lemma RepeatIssueInstanceNotNew<K, C>(h: Heap, store: map<K, int>, issues: seq<Candidate<K>>, base: int,
                                        heap: Heap, insts: seq<Instance<C>>, k: nat, q: nat)
    requires IdsIn(h, issues) && SettledHeap(h, store, issues, base, heap) && WellFormed(heap)
    requires IssuesIn(heap, insts) && k < |insts| && q < |issues| && insts[k].issueId == issues[q].id
    requires issues[q].key !in store && q != FirstIndex(Keys(issues), issues[q].key)
    ensures !MarkInstances(heap, insts)[k].isNewIssue
    ensures var f := FirstIndex(Keys(issues), issues[q].key);
      && heap[issues[f].id].isNew
      && Resolved(heap, issues[q].id) == Resolved(heap, issues[f].id)
  {
    var ks := Keys(issues);
    var f := FirstIndex(ks, issues[q].key);
    assert ks[q] == issues[q].key;
    assert IsFirstNew(ks, store.Keys, f);
    SettledShape(h, store, issues, base, heap, q);
    SettledShape(h, store, issues, base, heap, f);
    SettledResolves(h, store, issues, base, heap, q);
    SettledResolves(h, store, issues, base, heap, f);
  }

  /** A resubmitted issue whose handle the store holds resolves to the
      stored id, is not new, and its instances are marked as belonging to
      an old issue. */
  lemma StoredIssueInstanceNotNew<C>(h: Heap, store: map<string, int>, issues: seq<Candidate<string>>, base: int,
                                     heap: Heap, insts: seq<Instance<C>>, k: nat, q: nat)
    requires IdsIn(h, issues) && SettledHeap(h, store, issues, base, heap) && WellFormed(heap)
    requires IssuesIn(heap, insts) && k < |insts| && q < |issues| && insts[k].issueId == issues[q].id
    requires issues[q].key in store
    ensures Resolved(heap, issues[q].id) == Ok(Some(store[issues[q].key]))
    ensures !heap[issues[q].id].isNew && !MarkInstances(heap, insts)[k].isNewIssue
  {
    SettledShape(h, store, issues, base, heap, q);
    SettledResolves(h, store, issues, base, heap, q);
  }

  /** Issue `"H1"` is stored with id 42 and submitted again: its placeholder
      resolves to 42, not new, and so does its instance's flag. */
  lemma ResubmittedIssueScenario<C>(h: Heap, issues: seq<Candidate<string>>, base: int,
                                    heap: Heap, insts: seq<Instance<C>>)
    requires |issues| == 1 && issues[0].key == "H1" && IdsIn(h, issues)
    requires SettledHeap(h, map["H1" := 42], issues, base, heap) && WellFormed(heap)
    requires |insts| == 1 && insts[0].issueId == issues[0].id
    ensures Resolved(heap, issues[0].id) == Ok(Some(42))
    ensures !heap[issues[0].id].isNew
    ensures MarkInstances(heap, insts) == [insts[0].(isNewIssue := false)]
  {
    StoredIssueInstanceNotNew(h, map["H1" := 42], issues, base, heap, insts, 0, 0);
  }
}
