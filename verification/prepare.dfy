/**
  `prepare`: the last step before a batch is written. It runs the entity's
  merge and, for every record the merge passes on, draws the next primary
  key of the entity's kind and resolves the record's `id` placeholder to it
  as a new identity. The merge is consumed lazily, so each survivor is
  given its key before the merge looks at the next record.
 */
module Prepare {
  import opened Entities
  import opened Outcomes
  import opened Placeholders
  import opened Dedup
  import opened Merge
  import opened KeyGen

  /** What `prepare` leaves behind: the placeholders, the generator and the
      rows it yields, in order. */
  datatype Prepared<T> = Prepared(heap: Heap, gen: Generator, rows: seq<T>)

  /** `item.id.resolve(id=pkgen.get(cls), is_new=True)`. */
  method AssignId(kind: EntityKind, h: Heap, g: Generator, d: Dbid) returns (r: Result<(Heap, Generator)>)
    requires WellFormed(h) && d < |h|
    ensures r.Ok? <==> IsQueryClass(kind) && kind in g.pks && g.pks[kind].next <= g.pks[kind].max
    ensures r.Err? ==> r.error == GetFailure(g, kind)
    ensures r.Ok? ==> r.value.0 == h[d := h[d].(slot := Concrete(g.pks[kind].next), isNew := true)]
    ensures r.Ok? ==> r.value.1 == Get(g, kind).value.0 && WellFormed(r.value.0)
  {
    var got :- Get(g, kind);
    var (g', pk) := got;
    ResolveIsUpdate(h, d, IntArg(pk), true);
    var h' := Resolve(h, d, IntArg(pk), true).value;
    return Ok((h', g'));
  }

  /** The first id of the kind's reserved range (0 when none is reserved,
      in which case no id is ever drawn). */
  function Base(g: Generator, kind: EntityKind): int {
    if kind in g.pks then g.pks[kind].next else 0
  }

  /** What `prepare` leaves in the placeholder of candidate `j`: the stored id
      or a reference to the first candidate with its key, both not new, as the
      merge left them; or, for the first candidate of a new key, the next id
      of the range, marked new. */
  function Settled<K(==)>(h: Heap, store: map<K, int>, items: seq<Candidate<K>>, base: int, j: nat): Placeholder
    requires j < |items| && IdsIn(h, items)
  {
    var c := items[j];
    if c.key in store then h[c.id].(slot := Concrete(store[c.key]), isNew := false)
    else if IsRepeat(items, j) then h[c.id].(slot := Indirect(FirstId(items, j)), isNew := false)
    else h[c.id].(slot := Concrete(base + CountFirstNew(Keys(items), store.Keys, j)), isNew := true)
  }

  /** The placeholders once the first `i` candidates are settled, when no two
      candidates share a placeholder. */
  function SettledUpTo<K(==)>(h: Heap, store: map<K, int>, items: seq<Candidate<K>>, base: int, i: nat): (r: Heap)
    requires i <= |items| && IdsIn(h, items)
    ensures |r| == |h|
  {
    if i == 0 then h
    else SettledUpTo(h, store, items, base, i - 1)[items[i - 1].id := Settled(h, store, items, base, i - 1)]
  }

  /** Settling touches only the placeholders of settled candidates. */
  lemma {:induction false} SettledUpToElsewhere<K>(h: Heap, store: map<K, int>, items: seq<Candidate<K>>, base: int, i: nat, d: Dbid)
    requires i <= |items| && IdsIn(h, items) && d < |h|
    requires forall j :: 0 <= j < i ==> items[j].id != d
    ensures SettledUpTo(h, store, items, base, i)[d] == h[d]
  {
    if i > 0 {
      SettledUpToElsewhere(h, store, items, base, i - 1, d);
    }
  }

  /** Each settled candidate's placeholder holds what `Settled` says. */
  lemma {:induction false} SettledUpToAt<K>(h: Heap, store: map<K, int>, items: seq<Candidate<K>>, base: int, i: nat, j: nat)
    requires i <= |items| && IdsIn(h, items) && DistinctIds(items) && j < i
    ensures SettledUpTo(h, store, items, base, i)[items[j].id] == Settled(h, store, items, base, j)
  {
    var prev := SettledUpTo(h, store, items, base, i - 1);
    assert SettledUpTo(h, store, items, base, i) == prev[items[i - 1].id := Settled(h, store, items, base, i - 1)];
    if j < i - 1 {
      SettledUpToAt(h, store, items, base, i - 1, j);
      assert items[j].id != items[i - 1].id;
    }
  }

  /** An unsettled candidate's placeholder is as it was. */
  lemma Unsettled<K>(h: Heap, store: map<K, int>, items: seq<Candidate<K>>, base: int, i: nat)
    requires i < |items| && IdsIn(h, items) && DistinctIds(items)
    ensures SettledUpTo(h, store, items, base, i)[items[i].id] == h[items[i].id]
  {
    SettledUpToElsewhere(h, store, items, base, i, items[i].id);
  }

  /** Resolving candidate `i` to its stored id settles it. */
  lemma SettleStored<K>(h: Heap, store: map<K, int>, items: seq<Candidate<K>>, base: int, i: nat, h': Heap)
    requires i < |items| && IdsIn(h, items) && DistinctIds(items)
    requires h' == SettledUpTo(h, store, items, base, i) && items[i].key in store
    ensures Resolve(h', items[i].id, IntArg(store[items[i].key]), false) == Ok(SettledUpTo(h, store, items, base, i + 1))
  {
    var c := items[i];
    Unsettled(h, store, items, base, i);
    ResolveIsUpdate(h', c.id, IntArg(store[c.key]), false);
    var p := Settled(h, store, items, base, i);
    assert p == h'[c.id].(slot := Concrete(store[c.key]), isNew := false);
  }

  /** Resolving a repeat to the first candidate with its key settles it. */
  lemma SettleRepeat<K>(h: Heap, store: map<K, int>, items: seq<Candidate<K>>, base: int, i: nat, h': Heap)
    requires i < |items| && IdsIn(h, items) && DistinctIds(items)
    requires h' == SettledUpTo(h, store, items, base, i)
    requires items[i].key !in store && IsRepeat(items, i)
    ensures FirstId(items, i) < |h'|
    ensures Resolve(h', items[i].id, DbidArg(FirstId(items, i)), false) == Ok(SettledUpTo(h, store, items, base, i + 1))
  {
    var c := items[i];
    Unsettled(h, store, items, base, i);
    ResolveIsUpdate(h', c.id, DbidArg(FirstId(items, i)), false);
    var p := Settled(h, store, items, base, i);
    assert p == h'[c.id].(slot := Indirect(FirstId(items, i)), isNew := false);
  }

  /** Giving the first candidate of a new key the next id settles it. */
  lemma SettleFirst<K>(h: Heap, store: map<K, int>, items: seq<Candidate<K>>, base: int, i: nat,
                       h': Heap, pk: int, h'': Heap)
    requires i < |items| && IdsIn(h, items) && DistinctIds(items)
    requires h' == SettledUpTo(h, store, items, base, i)
    requires items[i].key !in store && !IsRepeat(items, i)
    requires pk == base + CountFirstNew(Keys(items), store.Keys, i)
    requires h'' == h'[items[i].id := h'[items[i].id].(slot := Concrete(pk), isNew := true)]
    ensures h'' == SettledUpTo(h, store, items, base, i + 1)
  {
    Unsettled(h, store, items, base, i);
    assert Settled(h, store, items, base, i) == h'[items[i].id].(slot := Concrete(pk), isNew := true);
  }

  /** Every candidate's placeholder is settled. */
  ghost predicate SettledHeap<K>(h: Heap, store: map<K, int>, items: seq<Candidate<K>>, base: int, heap: Heap)
    requires IdsIn(h, items)
  {
    && |heap| == |h|
    && forall j {:trigger heap[items[j].id]} :: 0 <= j < |items| ==> heap[items[j].id] == Settled(h, store, items, base, j)
  }

  /** Every placeholder outside the batch is as it was. */
  ghost predicate OthersUnchanged<K>(h: Heap, items: seq<Candidate<K>>, heap: Heap)
    requires |heap| == |h|
  {
    forall d :: 0 <= d < |h| && d !in IdSet(items) ==> heap[d] == h[d]
  }

  /** Settling the whole batch, one candidate after another, settles every
      candidate and nothing else. */
  lemma SettledAll<K>(h: Heap, store: map<K, int>, items: seq<Candidate<K>>, base: int)
    requires IdsIn(h, items) && DistinctIds(items)
    ensures SettledHeap(h, store, items, base, SettledUpTo(h, store, items, base, |items|))
    ensures OthersUnchanged(h, items, SettledUpTo(h, store, items, base, |items|))
  {
    var heap := SettledUpTo(h, store, items, base, |items|);
    forall j | 0 <= j < |items|
      ensures heap[items[j].id] == Settled(h, store, items, base, j)
    {
      SettledUpToAt(h, store, items, base, |items|, j);
    }
    forall d | 0 <= d < |h| && d !in IdSet(items)
      ensures heap[d] == h[d]
    {
      SettledUpToElsewhere(h, store, items, base, |items|, d);
    }
  }

  /** The outcome of a successful `prepare` of a keyed batch: the rows are
      the merge's survivors, exactly that many ids were drawn, and (when no
      two candidates share a placeholder) every candidate is settled. */
  ghost predicate PreparedOutcome<K>(h: Heap, g: Generator, kind: EntityKind, store: map<K, int>,
                                     items: seq<Candidate<K>>, p: Prepared<Candidate<K>>)
    requires IdsIn(h, items)
  {
    var survivors := FirstPositions(Keys(items), store.Keys);
    && |p.heap| == |h| && WellFormed(p.heap)
    && p.rows == Pick(items, survivors)
    && CanDraw(g, kind, |p.rows|)
    && p.gen == Advance(g, kind, |p.rows|)
    && (DistinctIds(items) ==> SettledHeap(h, store, items, Base(g, kind), p.heap) && OthersUnchanged(h, items, p.heap))
  }

  /** The bookkeeping of `prepare` after `i` candidates: the keys seen, the
      rows yielded so far and the ids drawn for them. */
  ghost predicate Tally<K(!new)>(g: Generator, kind: EntityKind, store: map<K, int>, items: seq<Candidate<K>>,
                                 i: nat, seen: map<K, Dbid>, rows: seq<Candidate<K>>, gen: Generator)
    requires i <= |items|
  {
    && SeenSoFar(store, items, i, seen)
    && rows == Pick(items, FirstPositions(Keys(items)[..i], store.Keys))
    && |rows| == CountFirstNew(Keys(items), store.Keys, i)
    && CanDraw(g, kind, |rows|)
    && gen == Advance(g, kind, |rows|)
  }

  lemma TallyStart<K(!new)>(g: Generator, kind: EntityKind, store: map<K, int>, items: seq<Candidate<K>>)
    ensures Tally(g, kind, store, items, 0, map[], [], g)
  {
    assert Keys(items)[..0] == [];
  }

  /** Once every candidate is looked at, the rows are the merge's survivors
      and one id was drawn for each. */
  lemma TallyDone<K(!new)>(g: Generator, kind: EntityKind, store: map<K, int>, items: seq<Candidate<K>>,
                           seen: map<K, Dbid>, rows: seq<Candidate<K>>, gen: Generator)
    requires Tally(g, kind, store, items, |items|, seen, rows, gen)
    ensures rows == Pick(items, FirstPositions(Keys(items), store.Keys))
    ensures CanDraw(g, kind, |FirstPositions(Keys(items), store.Keys)|)
    ensures gen == Advance(g, kind, |rows|)
  {
    assert Keys(items)[..|items|] == Keys(items);
  }

  /** A candidate whose key is stored or already seen yields nothing and draws nothing. */
  lemma TallyKept<K(!new)>(g: Generator, kind: EntityKind, store: map<K, int>, items: seq<Candidate<K>>,
                           i: nat, seen: map<K, Dbid>, rows: seq<Candidate<K>>, gen: Generator)
    requires i < |items| && Tally(g, kind, store, items, i, seen, rows, gen)
    requires items[i].key in store || items[i].key in seen
    ensures Tally(g, kind, store, items, i + 1, seen, rows, gen)
    ensures items[i].key !in store ==> IsRepeat(items, i) && seen[items[i].key] == FirstId(items, i)
  {
    assert Keys(items)[i] == items[i].key;
    SeenStep(store, items, i, seen);
    SurvivorsStep(store, items, i, rows);
  }

  /** The first candidate of a new key is yielded and draws one id. */
  lemma TallyFirst<K(!new)>(g: Generator, kind: EntityKind, store: map<K, int>, items: seq<Candidate<K>>,
                            i: nat, seen: map<K, Dbid>, rows: seq<Candidate<K>>, gen: Generator)
    requires i < |items| && Tally(g, kind, store, items, i, seen, rows, gen)
    requires items[i].key !in store && items[i].key !in seen
    requires CanDraw(g, kind, |rows| + 1)
    ensures !IsRepeat(items, i) && |rows| == CountFirstNew(Keys(items), store.Keys, i)
    ensures Tally(g, kind, store, items, i + 1, seen[items[i].key := items[i].id], rows + [items[i]],
                  Advance(g, kind, |rows| + 1))
  {
    assert Keys(items)[i] == items[i].key;
    SeenStep(store, items, i, seen);
    SurvivorsStep(store, items, i, rows);
    assert |rows + [items[i]]| == |rows| + 1;
  }

  /** When the first candidate of a new key finds the range used up, the
      whole batch needs more ids than can be drawn. */
  lemma TallyFails<K(!new)>(g: Generator, kind: EntityKind, store: map<K, int>, items: seq<Candidate<K>>,
                            i: nat, seen: map<K, Dbid>, rows: seq<Candidate<K>>, gen: Generator)
    requires i < |items| && Tally(g, kind, store, items, i, seen, rows, gen)
    requires items[i].key !in store && items[i].key !in seen
    requires !CanDraw(g, kind, |rows| + 1)
    ensures !CanDraw(g, kind, |FirstPositions(Keys(items), store.Keys)|)
  {
    var ks := Keys(items);
    SeenStep(store, items, i, seen);
    SurvivorsStep(store, items, i, rows);
    FirstPositionsPrefix(ks, store.Keys, i + 1);
    assert |FirstPositions(ks[..i + 1], store.Keys)| == |rows| + 1;
  }

  /** The id drawn after `n` others: what `AssignId` sees of the generator. */
  lemma NextId(g: Generator, kind: EntityKind, n: nat, gen: Generator)
    requires CanDraw(g, kind, n) && gen == Advance(g, kind, n)
    ensures (IsQueryClass(kind) && kind in gen.pks && gen.pks[kind].next <= gen.pks[kind].max) <==> CanDraw(g, kind, n + 1)
    ensures GetFailure(gen, kind) == GetFailure(g, kind)
    ensures CanDraw(g, kind, n + 1) ==>
      && gen.pks[kind].next == Base(g, kind) + n
      && Get(gen, kind).value.0 == Advance(g, kind, n + 1)
  {
    GetAfterAdvance(g, kind, n);
  }

  /** One step of `prepare`: the merge's verdict on candidate `i`, and for a
      survivor the id drawn for it before the next candidate is looked at. */
  method PrepareOne<K(==,!new)>(order: CheckOrder, kind: EntityKind, ghost h: Heap, g: Generator,
                                store: map<K, int>, items: seq<Candidate<K>>, existing: map<K, int>,
                                i: nat, seen: map<K, Dbid>, st: Prepared<Candidate<K>>)
    returns (r: Result<(map<K, Dbid>, Prepared<Candidate<K>>)>)
    requires i < |items| && IdsIn(h, items) && existing == ExistingIds(store, items)
    requires Tally(g, kind, store, items, i, seen, st.rows, st.gen)
    requires |st.heap| == |h| && WellFormed(st.heap)
    requires DistinctIds(items) ==> st.heap == SettledUpTo(h, store, items, Base(g, kind), i)
    ensures r.Err? ==> r.error == GetFailure(g, kind) && !CanDraw(g, kind, |FirstPositions(Keys(items), store.Keys)|)
    ensures r.Ok? ==> var (seen', st') := r.value;
      && Tally(g, kind, store, items, i + 1, seen', st'.rows, st'.gen)
      && |st'.heap| == |h| && WellFormed(st'.heap)
      && (DistinctIds(items) ==> st'.heap == SettledUpTo(h, store, items, Base(g, kind), i + 1))
  {
    var c := items[i];
    match Classify(order, existing, seen, c.key)
    case InStore(id) =>
      TallyKept(g, kind, store, items, i, seen, st.rows, st.gen);
      if DistinctIds(items) {
        SettleStored(h, store, items, Base(g, kind), i, st.heap);
      }
      return Ok((seen, st.(heap := Resolve(st.heap, c.id, IntArg(id), false).value)));
    case RepeatOf(first) =>
      TallyKept(g, kind, store, items, i, seen, st.rows, st.gen);
      if DistinctIds(items) {
        SettleRepeat(h, store, items, Base(g, kind), i, st.heap);
      }
      return Ok((seen, st.(heap := Resolve(st.heap, c.id, DbidArg(first), false).value)));
    case FirstSeen =>
      r := PrepareFirst(kind, h, g, store, items, i, seen, st);
  }

  /** The first candidate of a new key: draw the next id and yield it. */
  method PrepareFirst<K(==,!new)>(kind: EntityKind, ghost h: Heap, g: Generator, store: map<K, int>,
                                  items: seq<Candidate<K>>, i: nat, seen: map<K, Dbid>, st: Prepared<Candidate<K>>)
    returns (r: Result<(map<K, Dbid>, Prepared<Candidate<K>>)>)
    requires i < |items| && IdsIn(h, items)
    requires Tally(g, kind, store, items, i, seen, st.rows, st.gen)
    requires |st.heap| == |h| && WellFormed(st.heap)
    requires DistinctIds(items) ==> st.heap == SettledUpTo(h, store, items, Base(g, kind), i)
    requires items[i].key !in store && items[i].key !in seen
    ensures r.Err? ==> r.error == GetFailure(g, kind) && !CanDraw(g, kind, |FirstPositions(Keys(items), store.Keys)|)
    ensures r.Ok? ==> var (seen', st') := r.value;
      && Tally(g, kind, store, items, i + 1, seen', st'.rows, st'.gen)
      && |st'.heap| == |h| && WellFormed(st'.heap)
      && (DistinctIds(items) ==> st'.heap == SettledUpTo(h, store, items, Base(g, kind), i + 1))
  {
    var c := items[i];
    NextId(g, kind, |st.rows|, st.gen);
    var drawn := AssignId(kind, st.heap, st.gen, c.id);
    if drawn.Err? {
      TallyFails(g, kind, store, items, i, seen, st.rows, st.gen);
      return Err(drawn.error);
    }
    var (heap', gen') := drawn.value;
    TallyFirst(g, kind, store, items, i, seen, st.rows, st.gen);
    if DistinctIds(items) {
      SettleFirst(h, store, items, Base(g, kind), i, st.heap, st.gen.pks[kind].next, heap');
    }
    return Ok((seen[c.key := c.id], Prepared(heap', gen', st.rows + [c])));
  }

  /** `prepare` of an entity merged by key (`_merge_by_keys`, or `Issue.merge`
      with `BatchFirst`). Ids are drawn exactly for the survivors, so the
      call succeeds exactly when the range holds that many; a failure is the
      one `get` reports. */
  method PrepareKeyed<K(==,!new)>(order: CheckOrder, kind: EntityKind, h: Heap, g: Generator,
                                  store: map<K, int>, items: seq<Candidate<K>>)
    returns (r: Result<Prepared<Candidate<K>>>)
    requires WellFormed(h) && IdsIn(h, items)
    ensures r.Ok? <==> CanDraw(g, kind, |FirstPositions(Keys(items), store.Keys)|)
    ensures r.Err? ==> r.error == GetFailure(g, kind)
    ensures r.Ok? ==> PreparedOutcome(h, g, kind, store, items, r.value)
  {
    var existing := ExistingIds(store, items);
    var seen: map<K, Dbid> := map[];
    var st := Prepared(h, g, []);
    TallyStart(g, kind, store, items);
    for i := 0 to |items|
      invariant Tally(g, kind, store, items, i, seen, st.rows, st.gen)
      invariant |st.heap| == |h| && WellFormed(st.heap)
      invariant DistinctIds(items) ==> st.heap == SettledUpTo(h, store, items, Base(g, kind), i)
    {
      var step := PrepareOne(order, kind, h, g, store, items, existing, i, seen, st);
      if step.Err? {
        return Err(step.error);
      }
      seen, st := step.value.0, step.value.1;
    }
    TallyDone(g, kind, store, items, seen, st.rows, st.gen);
    if DistinctIds(items) {
      SettledAll(h, store, items, Base(g, kind));
    }
    return Ok(st);
  }

  /** The three shapes of a settled placeholder, by the candidate's verdict. */
  lemma SettledCases<K>(h: Heap, store: map<K, int>, items: seq<Candidate<K>>, base: int, j: nat)
    requires j < |items| && IdsIn(h, items)
    ensures var c := items[j]; var p := Settled(h, store, items, base, j);
      && p.flavour == h[c.id].flavour
      && (c.key in store ==> p.slot == Concrete(store[c.key]) && !p.isNew)
      && (IsFirstNew(Keys(items), store.Keys, j) ==>
            p.slot == Concrete(base + CountFirstNew(Keys(items), store.Keys, j)) && p.isNew)
      && (c.key !in store && j != FirstIndex(Keys(items), c.key) ==>
            p.slot == Indirect(items[FirstIndex(Keys(items), c.key)].id) && !p.isNew)
  {
    var ks := Keys(items);
    assert ks[j] == items[j].key;
    if items[j].key !in store && j != FirstIndex(ks, items[j].key) {
      assert IsRepeat(items, j);
    }
  }

  /** A settled first candidate of a new key holds the id drawn for it. */
  lemma SettledFirst<K>(h: Heap, store: map<K, int>, items: seq<Candidate<K>>, base: int, heap: Heap, q: nat, pk: int)
    requires IdsIn(h, items) && SettledHeap(h, store, items, base, heap)
    requires q < |items| && IsFirstNew(Keys(items), store.Keys, q)
    requires pk == base + CountFirstNew(Keys(items), store.Keys, q)
    ensures heap[items[q].id] == h[items[q].id].(slot := Concrete(pk), isNew := true)
  {
    SettledCases(h, store, items, base, q);
    assert heap[items[q].id] == Settled(h, store, items, base, q);
  }

  /** The three shapes of a placeholder in a settled heap. */
  lemma SettledShape<K>(h: Heap, store: map<K, int>, items: seq<Candidate<K>>, base: int, heap: Heap, j: nat)
    requires IdsIn(h, items) && SettledHeap(h, store, items, base, heap)
    requires j < |items|
    ensures var c := items[j]; var p := heap[c.id];
      && (c.key in store ==> p.slot == Concrete(store[c.key]) && !p.isNew)
      && (IsFirstNew(Keys(items), store.Keys, j) ==>
            p.slot == Concrete(base + CountFirstNew(Keys(items), store.Keys, j)) && p.isNew)
      && (c.key !in store && j != FirstIndex(Keys(items), c.key) ==>
            p.slot == Indirect(items[FirstIndex(Keys(items), c.key)].id) && !p.isNew)
  {
    SettledCases(h, store, items, base, j);
    assert heap[items[j].id] == Settled(h, store, items, base, j);
  }

  /** Exactly the candidates that are yielded end up marked new. */
  lemma SettledNewIffYielded<K>(h: Heap, store: map<K, int>, items: seq<Candidate<K>>, base: int, heap: Heap, j: nat)
    requires IdsIn(h, items) && SettledHeap(h, store, items, base, heap)
    requires j < |items|
    ensures heap[items[j].id].isNew <==> j in FirstPositions(Keys(items), store.Keys)
  {
    SettledShape(h, store, items, base, heap, j);
    var ks := Keys(items);
    assert ks[j] == items[j].key;
    if items[j].key !in store {
      var f := FirstIndex(ks, items[j].key);
      assert !IsFirstNew(ks, store.Keys, j) ==> f != j;
    }
  }

  /** The `k`-th survivor holds the `k`-th id from `base`, marked new. */
  lemma SurvivorNumbered<K>(h: Heap, store: map<K, int>, items: seq<Candidate<K>>, base: int, heap: Heap, k: nat)
    requires IdsIn(h, items) && SettledHeap(h, store, items, base, heap)
    requires k < |FirstPositions(Keys(items), store.Keys)|
    ensures var q := FirstPositions(Keys(items), store.Keys)[k];
      heap[items[q].id] == h[items[q].id].(slot := Concrete(base + k), isNew := true)
  {
    var ks := Keys(items);
    var q := FirstPositions(ks, store.Keys)[k];
    SurvivorRank(ks, store.Keys, k);
    SettledFirst(h, store, items, base, heap, q, base + k);
  }

  /** The `k`-th yielded row holds the `k`-th id of the kind's reserved
      range, marked new: ids are handed out in yield order, from the start
      of the range, without gaps. */
  lemma RowsNumbered<K>(h: Heap, g: Generator, kind: EntityKind, store: map<K, int>,
                        items: seq<Candidate<K>>, heap: Heap, rows: seq<Candidate<K>>, k: nat)
    requires IdsIn(h, items) && SettledHeap(h, store, items, Base(g, kind), heap)
    requires rows == Pick(items, FirstPositions(Keys(items), store.Keys)) && CanDraw(g, kind, |rows|)
    requires k < |rows|
    ensures kind in g.pks && InRange(g.pks[kind], g.pks[kind].next + k)
    ensures heap[rows[k].id] == h[rows[k].id].(slot := Concrete(g.pks[kind].next + k), isNew := true)
  {
    SurvivorNumbered(h, store, items, Base(g, kind), heap, k);
  }

  /** The row yielded for a new key: its rank among the survivors. */
  function RowOf<K(==)>(store: map<K, int>, items: seq<Candidate<K>>, key: K): nat
    requires key in Keys(items)
  {
    CountFirstNew(Keys(items), store.Keys, FirstIndex(Keys(items), key))
  }

  /** The row yielded for a new key is the first candidate with that key. */
  lemma RowOfKey<K>(store: map<K, int>, items: seq<Candidate<K>>, key: K)
    requires key in Keys(items) && key !in store
    ensures var fp := FirstPositions(Keys(items), store.Keys);
      RowOf(store, items, key) < |fp| && fp[RowOf(store, items, key)] == FirstIndex(Keys(items), key)
  {
    var ks := Keys(items);
    var f := FirstIndex(ks, key);
    assert IsFirstNew(ks, store.Keys, f);
    var fp := FirstPositions(ks, store.Keys);
    var m :| 0 <= m < |fp| && fp[m] == f;
    SurvivorRank(ks, store.Keys, m);
  }

  /** A settled candidate resolves to the stored id when the store holds its
      key, otherwise to the id of the survivor carrying its key. */
  lemma SettledResolves<K>(h: Heap, store: map<K, int>, items: seq<Candidate<K>>, base: int, heap: Heap, j: nat)
    requires IdsIn(h, items) && SettledHeap(h, store, items, base, heap) && WellFormed(heap)
    requires j < |items|
    ensures items[j].key in store ==> Resolved(heap, items[j].id) == Ok(Some(store[items[j].key]))
    ensures items[j].key !in store ==>
      && items[j].key in Keys(items)
      && Resolved(heap, items[j].id) == Ok(Some(base + RowOf(store, items, items[j].key)))
  {
    var ks := Keys(items);
    var c := items[j];
    assert ks[j] == c.key;
    SettledShape(h, store, items, base, heap, j);
    if c.key !in store {
      var f := FirstIndex(ks, c.key);
      var k := RowOf(store, items, c.key);
      RowOfKey(store, items, c.key);
      SurvivorNumbered(h, store, items, base, heap, k);
      if j != f {
        OneHop(heap, c.id, items[f].id);
      }
    }
  }

  /** Every candidate of a prepared batch resolves to an integer: to the
      stored id when the store holds its key, otherwise to the id drawn for
      the one row yielded for its key. */
  lemma PreparedResolves<K>(h: Heap, g: Generator, kind: EntityKind, store: map<K, int>,
                            items: seq<Candidate<K>>, heap: Heap, rows: seq<Candidate<K>>, j: nat)
    requires IdsIn(h, items) && SettledHeap(h, store, items, Base(g, kind), heap) && WellFormed(heap)
    requires rows == Pick(items, FirstPositions(Keys(items), store.Keys)) && CanDraw(g, kind, |rows|)
    requires j < |items|
    ensures items[j].key in store ==> Resolved(heap, items[j].id) == Ok(Some(store[items[j].key]))
    ensures items[j].key !in store ==>
      && items[j].key in Keys(items)
      && RowOf(store, items, items[j].key) < |rows|
      && rows[RowOf(store, items, items[j].key)].key == items[j].key
      && Resolved(heap, items[j].id) == Ok(Some(g.pks[kind].next + RowOf(store, items, items[j].key)))
  {
    SettledResolves(h, store, items, Base(g, kind), heap, j);
    if items[j].key !in store {
      var ks := Keys(items);
      assert ks[j] == items[j].key;
      RowOfKey(store, items, items[j].key);
      RowsNumbered(h, g, kind, store, items, heap, rows, RowOf(store, items, items[j].key));
    }
  }

  /** Two candidates with keys the store lacks end up with the same id
      exactly when they carry the same key. */
  lemma SameIdIffSameKey<K>(h: Heap, store: map<K, int>, items: seq<Candidate<K>>, base: int, heap: Heap, j: nat, j': nat)
    requires IdsIn(h, items) && SettledHeap(h, store, items, base, heap) && WellFormed(heap)
    requires j < |items| && j' < |items| && items[j].key !in store && items[j'].key !in store
    ensures Resolved(heap, items[j].id) == Resolved(heap, items[j'].id) <==> items[j].key == items[j'].key
  {
    SettledResolves(h, store, items, base, heap, j);
    SettledResolves(h, store, items, base, heap, j');
    var ks := Keys(items);
    var a, b := items[j].key, items[j'].key;
    if RowOf(store, items, a) == RowOf(store, items, b) {
      RowOfKey(store, items, a);
      RowOfKey(store, items, b);
      assert ks[FirstIndex(ks, a)] == a && ks[FirstIndex(ks, b)] == b;
    }
  }
}
