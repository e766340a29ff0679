/**
  The primary-key generator (`PrimaryKeyGenerator`): per entity kind, a
  durable counter row is advanced by the number of ids a batch needs, and the
  ids in between are handed out one by one from memory.
 */
module KeyGen {
  import opened Entities
  import opened Outcomes

  /** A reserved range `(next_id, max_reserved_id)`; empty once `next > max`. */
  datatype Range = Range(next: int, max: int)

  /** The in-process range table `pks`, keyed by kind. */
  datatype Generator = Generator(pks: map<EntityKind, Range>)

  /** The durable side: the `primary_keys` counter rows, and the largest id
      each kind's own table holds (absent while that table is empty). */
  datatype KeyStore = KeyStore(counters: map<EntityKind, int>, maxIds: map<EntityKind, int>)

  /** The counter value a reservation starts from. A missing counter row, or a
      caller asking for `use_lock`, re-reads it from the largest id in the
      kind's table (0 when empty); otherwise the stored counter is used. */
  function Baseline(db: KeyStore, k: EntityKind, useLock: bool): int {
    if useLock || k !in db.counters then
      (if k in db.maxIds then db.maxIds[k] else 0)
    else db.counters[k]
  }

  /** `_reserve_id_range`: the range runs from just past the baseline to
      baseline + count, and the counter row is left at the end of the range. */
  function ReserveRange(db: KeyStore, g: Generator, k: EntityKind, count: int, useLock: bool): (r: (KeyStore, Generator))
    ensures k in r.1.pks && r.1.pks[k].next == Baseline(db, k, useLock) + 1
    ensures r.1.pks[k].max - r.1.pks[k].next + 1 == count
    ensures k in r.0.counters && r.0.counters[k] == r.1.pks[k].max
    ensures forall k' :: k' != k ==> (k' in r.1.pks <==> k' in g.pks) && (k' in g.pks ==> r.1.pks[k'] == g.pks[k'])
    ensures forall k' :: k' != k ==> (k' in r.0.counters <==> k' in db.counters) && (k' in db.counters ==> r.0.counters[k'] == db.counters[k'])
    ensures r.0.maxIds == db.maxIds
  {
    var base := Baseline(db, k, useLock);
    (db.(counters := db.counters[k := base + count]), g.(pks := g.pks[k := Range(base + 1, base + count)]))
  }

  /** The number of ids asked for: the caller's count for the kind, else 1. */
  function CountFor(itemCounts: map<EntityKind, int>, k: EntityKind): int {
    if k in itemCounts then itemCounts[k] else 1
  }

  /** After a reservation, kind `k` holds the range and counter that
      `_reserve_id_range` computes from the state before it. */
  predicate HoldsReservation(db: KeyStore, db': KeyStore, g': Generator, k: EntityKind, count: int, useLock: bool) {
    && k in g'.pks
    && g'.pks[k] == Range(Baseline(db, k, useLock) + 1, Baseline(db, k, useLock) + count)
    && k in db'.counters
    && db'.counters[k] == Baseline(db, k, useLock) + count
  }

  /** Kind `k` has the same range and counter as before. */
  predicate Untouched(db: KeyStore, g: Generator, db': KeyStore, g': Generator, k: EntityKind) {
    && (k in g'.pks <==> k in g.pks)
    && (k in g.pks ==> g'.pks[k] == g.pks[k])
    && (k in db'.counters <==> k in db.counters)
    && (k in db.counters ==> db'.counters[k] == db.counters[k])
  }

  /** The kinds in `done` hold their reservations; every other kind is untouched. */
  predicate ReservedExactly(db: KeyStore, g: Generator, db': KeyStore, g': Generator,
                            done: set<EntityKind>, itemCounts: map<EntityKind, int>, useLock: bool) {
    && db'.maxIds == db.maxIds
    && (forall k :: k in done ==> HoldsReservation(db, db', g', k, CountFor(itemCounts, k), useLock))
    && (forall k :: k !in done ==> Untouched(db, g, db', g', k))
  }

  lemma ReserveOneMore(db: KeyStore, g: Generator, db': KeyStore, g': Generator,
                       done: set<EntityKind>, itemCounts: map<EntityKind, int>, useLock: bool, k: EntityKind)
    requires ReservedExactly(db, g, db', g', done, itemCounts, useLock) && k !in done
    ensures var next := ReserveRange(db', g', k, CountFor(itemCounts, k), useLock);
      ReservedExactly(db, g, next.0, next.1, done + {k}, itemCounts, useLock)
  {
    var next := ReserveRange(db', g', k, CountFor(itemCounts, k), useLock);
    assert Untouched(db, g, db', g', k);
    assert Baseline(db', k, useLock) == Baseline(db, k, useLock);
    assert HoldsReservation(db, next.0, next.1, k, CountFor(itemCounts, k), useLock);
    forall k' | k' in done
      ensures HoldsReservation(db, next.0, next.1, k', CountFor(itemCounts, k'), useLock)
    {
      assert HoldsReservation(db, db', g', k', CountFor(itemCounts, k'), useLock);
    }
    forall k' | k' !in done + {k}
      ensures Untouched(db, g, next.0, next.1, k')
    {
      assert Untouched(db, g, db', g', k');
    }
  }

  /** The kinds of `saving` that the generator manages. */
  function ManagedKinds(saving: seq<EntityKind>): (r: set<EntityKind>)
    ensures forall k :: k in r <==> k in saving && IsQueryClass(k)
  {
    if |saving| == 0 then {}
    else
      var n := |saving| - 1;
      ManagedKinds(saving[..n]) + (if IsQueryClass(saving[n]) then {saving[n]} else {})
  }

  /** One step of `reserve`: kind `k` joins the reserved kinds. */
  method ReserveNext(ghost db: KeyStore, ghost g: Generator, db': KeyStore, g': Generator,
                     ghost done: set<EntityKind>, itemCounts: map<EntityKind, int>, useLock: bool, k: EntityKind)
    returns (db'': KeyStore, g'': Generator)
    requires ReservedExactly(db, g, db', g', done, itemCounts, useLock) && k !in done
    ensures ReservedExactly(db, g, db'', g'', done + {k}, itemCounts, useLock)
  {
    ReserveOneMore(db, g, db', g', done, itemCounts, useLock, k);
    var next := ReserveRange(db', g', k, CountFor(itemCounts, k), useLock);
    db'', g'' := next.0, next.1;
  }

  /** `reserve`: every kind of `saving` that the generator manages gets one
      fresh range; kinds it does not manage, and kinds not being saved, are
      left alone. The source walks the set of such kinds; walking the list
      and skipping kinds already reserved visits the same kinds once each. */
  method Reserve(db: KeyStore, g: Generator, saving: seq<EntityKind>, itemCounts: map<EntityKind, int>, useLock: bool)
    returns (db': KeyStore, g': Generator)
    ensures forall k :: k in saving && IsQueryClass(k) ==>
      HoldsReservation(db, db', g', k, CountFor(itemCounts, k), useLock)
    ensures forall k :: !(k in saving && IsQueryClass(k)) ==> Untouched(db, g, db', g', k)
    ensures db'.maxIds == db.maxIds
  {
    var done: set<EntityKind> := {};
    db', g' := db, g;
    for i := 0 to |saving|
      invariant done == ManagedKinds(saving[..i])
      invariant ReservedExactly(db, g, db', g', done, itemCounts, useLock)
    {
      var k := saving[i];
      assert saving[..i + 1] == saving[..i] + [k];
      if IsQueryClass(k) && k !in done {
        db', g' := ReserveNext(db, g, db', g', done, itemCounts, useLock, k);
        done := done + {k};
      }
    }
    assert saving[..|saving|] == saving;
  }

  /** The failure `get` raises for kind `k` when it cannot hand out an id. */
  function GetFailure(g: Generator, k: EntityKind): Failure {
    if !IsQueryClass(k) then NotRegistered(k)
    else if k !in g.pks then NotReserved(k)
    else RangeExhausted(k)
  }

  /** `get`: the next id of the kind's range, advancing the cursor by one. */
  function Get(g: Generator, k: EntityKind): (r: Result<(Generator, int)>)
    ensures r.Ok? <==> IsQueryClass(k) && k in g.pks && g.pks[k].next <= g.pks[k].max
    ensures r.Err? ==> r.error == GetFailure(g, k)
    ensures r.Ok? ==> r.value.1 == g.pks[k].next
    ensures r.Ok? ==> r.value.0.pks == g.pks[k := Range(g.pks[k].next + 1, g.pks[k].max)]
  {
    if !IsQueryClass(k) then Err(NotRegistered(k))
    else if k !in g.pks then Err(NotReserved(k))
    else
      var rng := g.pks[k];
      if rng.next > rng.max then Err(RangeExhausted(k))
      else Ok((g.(pks := g.pks[k := Range(rng.next + 1, rng.max)]), rng.next))
  }

  /** `n` ids can be drawn for `k`. */
  predicate CanDraw(g: Generator, k: EntityKind, n: nat) {
    n == 0 || (IsQueryClass(k) && k in g.pks && g.pks[k].next + n - 1 <= g.pks[k].max)
  }

  /** The generator after `n` ids were drawn for `k`. */
  function Advance(g: Generator, k: EntityKind, n: nat): Generator
    requires n == 0 || k in g.pks
  {
    if n == 0 then g else g.(pks := g.pks[k := Range(g.pks[k].next + n, g.pks[k].max)])
  }

  /** `n` successive calls of `get`, stopping at the first failure. */
  function Draw(g: Generator, k: EntityKind, n: nat): Result<(Generator, seq<int>)>
    decreases n
  {
    if n == 0 then Ok((g, []))
    else
      var (g1, v) :- Get(g, k);
      var (g2, vs) :- Draw(g1, k, n - 1);
      Ok((g2, [v] + vs))
  }

  /** Drawing one id and then `m` more is drawing `m + 1`. */
  lemma AdvanceAgain(g: Generator, k: EntityKind, m: nat)
    requires k in g.pks
    ensures Advance(Advance(g, k, 1), k, m) == Advance(g, k, m + 1)
  {
    var r := g.pks[k];
    if m > 0 {
      assert g.pks[k := Range(r.next + 1, r.max)][k := Range(r.next + 1 + m, r.max)]
          == g.pks[k := Range(r.next + m + 1, r.max)];
    }
  }

  /** Successive `get`s succeed for as long as the range lasts; the first
      one past `max` (or any for an unmanaged or unreserved kind) fails with
      the error `get` reports. */
  lemma {:induction false} DrawSucceeds(g: Generator, k: EntityKind, n: nat)
    ensures Draw(g, k, n).Ok? <==> CanDraw(g, k, n)
    ensures Draw(g, k, n).Err? ==> Draw(g, k, n).error == GetFailure(g, k)
    decreases n
  {
    if n > 0 {
      var r := Get(g, k);
      if r.Ok? {
        var (g1, v) := r.value;
        DrawSucceeds(g1, k, n - 1);
      }
    }
  }

  /** Successive `get`s return `next, next+1, ...` and leave the range
      advanced by their number. */
  lemma {:induction false} DrawIsConsecutive(g: Generator, k: EntityKind, n: nat)
    requires CanDraw(g, k, n)
    ensures Draw(g, k, n).Ok?
    ensures Draw(g, k, n).value.0 == Advance(g, k, n)
    ensures Draw(g, k, n).value.1 == seq(n, i requires 0 <= i < n => g.pks[k].next + i)
    decreases n
  {
    if n > 0 {
      var (g1, v) := Get(g, k).value;
      assert g1 == Advance(g, k, 1);
      DrawIsConsecutive(g1, k, n - 1);
      AdvanceAgain(g, k, n - 1);
      var rest := Draw(g1, k, n - 1).value.1;
      assert [v] + rest == seq(n, i requires 0 <= i < n => g.pks[k].next + i);
    }
  }

  /** After `n` successful `get`s, the next one succeeds exactly when `n + 1`
      ids can be drawn, and returns the `n`-th id after the range start. */
  lemma GetAfterAdvance(g: Generator, k: EntityKind, n: nat)
    requires CanDraw(g, k, n)
    ensures Get(Advance(g, k, n), k).Ok? <==> CanDraw(g, k, n + 1)
    ensures Get(Advance(g, k, n), k).Err? ==> Get(Advance(g, k, n), k).error == GetFailure(g, k)
    ensures Get(Advance(g, k, n), k).Ok? ==>
      Get(Advance(g, k, n), k).value == (Advance(g, k, n + 1), g.pks[k].next + n)
  {
    var r := Get(Advance(g, k, n), k);
    if r.Ok? {
      assert r.value.0.pks == Advance(g, k, n + 1).pks;
    }
  }

  /** `x` is one of the ids of range `r`. */
  predicate InRange(r: Range, x: int) {
    r.next <= x <= r.max
  }

  /** While the counter is at least every id granted so far, a reservation
      that trusts the counter grants only ids above all of them, and the
      counter still covers everything granted afterwards. This is why two
      batches never receive the same id. */
  lemma ReservationIsFresh(db: KeyStore, g: Generator, k: EntityKind, count: nat, granted: set<int>)
    requires k in db.counters
    requires forall x :: x in granted ==> x <= db.counters[k]
    ensures var (db', g') := ReserveRange(db, g, k, count, false);
      && (forall x :: x in granted ==> !InRange(g'.pks[k], x))
      && (forall x :: x in granted || InRange(g'.pks[k], x) ==> x <= db'.counters[k])
  {
  }

  /** Two reservations in a row, the second trusting the counter, are adjacent
      and disjoint. */
  lemma SuccessiveReservationsAdjacent(db: KeyStore, g: Generator, k: EntityKind, c1: int, c2: int, useLock: bool)
    ensures var (db1, g1) := ReserveRange(db, g, k, c1, useLock);
      var (db2, g2) := ReserveRange(db1, g1, k, c2, false);
      g2.pks[k].next == g1.pks[k].max + 1
  {
  }

  /** Resynchronising with `use_lock` trusts the data table instead of the
      counter, so ids reserved but not yet inserted are granted again. */
  lemma ResyncCanRegrant()
    ensures var db := KeyStore(map[Issue := 10], map[Issue := 4]);
      var (_, g) := ReserveRange(db, Generator(map[]), Issue, 3, true);
      g.pks[Issue] == Range(5, 7) && InRange(Range(1, 10), 5)
  {
  }

  /** No counter row, an empty table, three ids asked for: the range is
      `(1, 3)`, `get` returns 1, 2 and 3, and a fourth `get` fails. */
  lemma FreshKindScenario()
    ensures var (db, g) := ReserveRange(KeyStore(map[], map[]), Generator(map[]), SharedText, 3, false);
      && db.counters[SharedText] == 3
      && Draw(g, SharedText, 3) == Ok((Generator(map[SharedText := Range(4, 3)]), [1, 2, 3]))
      && Draw(g, SharedText, 4) == Err(RangeExhausted(SharedText))
  {
    var (db, g) := ReserveRange(KeyStore(map[], map[]), Generator(map[]), SharedText, 3, false);
    DrawIsConsecutive(g, SharedText, 3);
    DrawSucceeds(g, SharedText, 4);
    assert Draw(g, SharedText, 3).value.1 == [1, 2, 3];
    assert Advance(g, SharedText, 3).pks == map[SharedText := Range(4, 3)];
  }
}
