/**
  Placeholder identities (`DBID` and `IssueDBID`).

  Every placeholder ever created in the process lives in a `Heap`; its
  index there is its `local_id`, the value of the process-wide counter when
  it was built. A slot is unset (`None`), holds a concrete primary key, or
  points at another placeholder.
 */
module Placeholders {
  import opened Outcomes

  /** A placeholder's `local_id`, which is also its index in the heap. */
  type Dbid = nat

  datatype Slot = Unset | Concrete(value: int) | Indirect(target: Dbid)

  /** `IssueDBID` carries one extra flag that identity resolution never reads. */
  datatype Flavour = Plain | IssueFlavour(replaceAssocs: bool)

  datatype Placeholder = Placeholder(slot: Slot, isNew: bool, flavour: Flavour)

  type Heap = seq<Placeholder>

  /** The dynamically typed argument of `resolve` and of the constructor. */
  datatype IdArg =
    | IntArg(n: int)
    | BoolArg(b: bool)
    | NoneArg
    | DbidArg(d: Dbid)
    | OtherArg(typeName: string)

  /** Every reference names a placeholder that exists. */
  predicate WellFormed(h: Heap) {
    forall d :: 0 <= d < |h| && h[d].slot.Indirect? ==> h[d].slot.target < |h|
  }

  /** An argument naming a placeholder names one that exists. */
  predicate ArgIn(h: Heap, v: IdArg) {
    v.DbidArg? ==> v.d < |h|
  }

  /** The type check of `resolve`: an int (a bool is one), None or a placeholder. */
  predicate Accepted(v: IdArg) {
    !v.OtherArg?
  }

  function SlotFor(v: IdArg): Slot
    requires Accepted(v)
  {
    match v
    case IntArg(n) => Concrete(n)
    case BoolArg(b) => Concrete(if b then 1 else 0)
    case NoneArg => Unset
    case DbidArg(d) => Indirect(d)
  }

  /** `resolve(id, is_new)`: type-checks the value, then stores it and the flag;
      the placeholder (and every other one) is otherwise left as it was. */
  function Resolve(h: Heap, self: Dbid, v: IdArg, isNew: bool): (r: Result<Heap>)
    requires self < |h| && ArgIn(h, v)
    ensures r.Ok? <==> Accepted(v)
    ensures r.Err? ==> r.error == TypeMismatch(v.typeName)
    ensures r.Ok? ==> |r.value| == |h|
    ensures r.Ok? ==> r.value[self].slot == SlotFor(v) && r.value[self].isNew == isNew
    ensures r.Ok? ==> r.value[self].flavour == h[self].flavour
    ensures r.Ok? ==> forall d :: 0 <= d < |h| && d != self ==> r.value[d] == h[d]
    ensures r.Ok? && WellFormed(h) ==> WellFormed(r.value)
  {
    if v.OtherArg? then Err(TypeMismatch(v.typeName))
    else Ok(h[self := Placeholder(SlotFor(v), isNew, h[self].flavour)])
  }

  /** Helper: an accepted value changes the placeholder's slot and flag and
      nothing else, written as a point update. */
  lemma ResolveIsUpdate(h: Heap, self: Dbid, v: IdArg, isNew: bool)
    requires self < |h| && ArgIn(h, v) && Accepted(v)
    ensures Resolve(h, self, v, isNew) == Ok(h[self := h[self].(slot := SlotFor(v), isNew := isNew)])
  {
  }

  /** `DBID(id)`: resolves with the default `is_new=True` and only then draws
      the next `local_id`, so a rejected value consumes no id. */
  function NewDbid(h: Heap, v: IdArg): (r: Result<(Heap, Dbid)>)
    requires ArgIn(h, v)
    ensures r.Ok? <==> Accepted(v)
    ensures r.Err? ==> r.error == TypeMismatch(v.typeName)
    ensures r.Ok? ==> r.value.1 == |h| && |r.value.0| == |h| + 1 && r.value.0[..|h|] == h
    ensures r.Ok? ==> r.value.0[|h|] == Placeholder(SlotFor(v), true, Plain)
    ensures r.Ok? && WellFormed(h) ==> WellFormed(r.value.0)
  {
    if v.OtherArg? then Err(TypeMismatch(v.typeName))
    else Ok((h + [Placeholder(SlotFor(v), true, Plain)], |h|))
  }

  /** `IssueDBID(id)`: a `DBID` whose `replace_assocs` starts out false. */
  function NewIssueDbid(h: Heap, v: IdArg): (r: Result<(Heap, Dbid)>)
    requires ArgIn(h, v)
    ensures r.Ok? <==> Accepted(v)
    ensures r.Ok? ==> r.value.1 == |h| && |r.value.0| == |h| + 1 && r.value.0[..|h|] == h
    ensures r.Ok? ==> r.value.0[|h|] == Placeholder(SlotFor(v), true, IssueFlavour(false))
  {
    var (h', d) :- NewDbid(h, v);
    Ok((h'[d := h'[d].(flavour := IssueFlavour(false))], d))
  }

  /** Follows references for at most `fuel` hops. */
  function ResolvedWithin(h: Heap, d: Dbid, fuel: nat): Result<Option<int>>
    requires WellFormed(h) && d < |h|
    decreases fuel
  {
    match h[d].slot
    case Unset => Ok(None)
    case Concrete(n) => Ok(Some(n))
    case Indirect(t) => if fuel == 0 then Err(RecursionLimit) else ResolvedWithin(h, t, fuel - 1)
  }

  /** `resolved()`: the integer at the end of the reference chain, or none when
      the chain ends in an unset slot. The source recurses along the whole
      chain; a chain that revisits a placeholder recurses forever. With one
      hop per placeholder in the heap, running out of hops means exactly that. */
  function Resolved(h: Heap, d: Dbid): (r: Result<Option<int>>)
    requires WellFormed(h) && d < |h|
    ensures h[d].slot == Unset ==> r == Ok(None)
    ensures h[d].slot.Concrete? ==> r == Ok(Some(h[d].slot.value))
  {
    ResolvedWithin(h, d, |h|)
  }

  /** No reference points at a placeholder that is itself a reference. */
  predicate OneLevel(h: Heap) {
    && WellFormed(h)
    && forall d :: 0 <= d < |h| && h[d].slot.Indirect? ==> !h[h[d].slot.target].slot.Indirect?
  }

  /** The explicit two-step dereference: the slot itself, or the slot it names. */
  function Deref(h: Heap, d: Dbid): Option<int>
    requires WellFormed(h) && d < |h|
  {
    match h[d].slot
    case Unset => None
    case Concrete(n) => Some(n)
    case Indirect(t) => if h[t].slot.Concrete? then Some(h[t].slot.value) else None
  }

  /** Where references never chain, `resolved()` is the two-step dereference
      and never fails. */
  lemma {:induction false} ResolvedIsTwoStep(h: Heap, d: Dbid)
    requires OneLevel(h) && d < |h|
    ensures Resolved(h, d) == Ok(Deref(h, d))
  {
    match h[d].slot
    case Unset =>
    case Concrete(n) =>
    case Indirect(t) =>
      assert |h| > 0;
      assert ResolvedWithin(h, d, |h|) == ResolvedWithin(h, t, |h| - 1);
  }

  /** A reference to a concrete placeholder resolves to that placeholder's value. */
  lemma OneHop(h: Heap, d: Dbid, t: Dbid)
    requires WellFormed(h) && d < |h|
    requires h[d].slot == Indirect(t) && h[t].slot.Concrete?
    ensures Resolved(h, d) == Ok(Some(h[t].slot.value))
  {
    assert ResolvedWithin(h, d, |h|) == ResolvedWithin(h, t, |h| - 1);
  }

  lemma {:induction false} SelfLoopWithin(h: Heap, d: Dbid, fuel: nat)
    requires WellFormed(h) && d < |h| && h[d].slot == Indirect(d)
    ensures ResolvedWithin(h, d, fuel) == Err(RecursionLimit)
    decreases fuel
  {
    if fuel > 0 {
      SelfLoopWithin(h, d, fuel - 1);
    }
  }

  /** A placeholder resolved to itself can never be resolved: `resolved()`
      recurses until the interpreter gives up. */
  lemma SelfReferenceNeverResolves(h: Heap, d: Dbid)
    requires WellFormed(h) && d < |h| && h[d].slot == Indirect(d)
    ensures Resolved(h, d) == Err(RecursionLimit)
  {
    SelfLoopWithin(h, d, |h|);
  }

  /** One hop along a chain; a placeholder that is not a reference stays put. */
  function Step(h: Heap, d: Dbid): (e: Dbid)
    requires WellFormed(h) && d < |h|
    ensures e < |h|
  {
    if h[d].slot.Indirect? then h[d].slot.target else d
  }

  /** The placeholder reached from `d` after `k` hops. */
  function Hop(h: Heap, d: Dbid, k: nat): (e: Dbid)
    requires WellFormed(h) && d < |h|
    ensures e < |h|
    decreases k
  {
    if k == 0 then d else Hop(h, Step(h, d), k - 1)
  }

  /** The chain from `d` never reaches a placeholder that is not a reference:
      the source's `resolved()` recurses on it without end. */
  ghost predicate Endless(h: Heap, d: Dbid)
    requires WellFormed(h) && d < |h|
  {
    forall k: nat :: h[Hop(h, d, k)].slot.Indirect?
  }

  /** Resolution with some fuel fails exactly when every placeholder it can
      reach with that fuel is a reference. */
  lemma {:induction false} WithinFails(h: Heap, d: Dbid, fuel: nat)
    requires WellFormed(h) && d < |h|
    ensures ResolvedWithin(h, d, fuel).Err? <==>
      forall k: nat :: k <= fuel ==> h[Hop(h, d, k)].slot.Indirect?
    ensures ResolvedWithin(h, d, fuel).Err? ==> ResolvedWithin(h, d, fuel) == Err(RecursionLimit)
    decreases fuel
  {
    assert Hop(h, d, 0) == d;
    if h[d].slot.Indirect? && fuel > 0 {
      var t := h[d].slot.target;
      WithinFails(h, t, fuel - 1);
      assert ResolvedWithin(h, d, fuel) == ResolvedWithin(h, t, fuel - 1);
      forall k: nat | 1 <= k <= fuel
        ensures Hop(h, d, k) == Hop(h, t, k - 1)
      {
      }
      if ResolvedWithin(h, d, fuel).Ok? {
        var k: nat :| k <= fuel - 1 && !h[Hop(h, t, k)].slot.Indirect?;
        assert Hop(h, d, k + 1) == Hop(h, t, k);
        assert k + 1 <= fuel && !h[Hop(h, d, k + 1)].slot.Indirect?;
      } else {
        assert ResolvedWithin(h, t, fuel - 1).Err?;
        assert forall k: nat :: k <= fuel - 1 ==> h[Hop(h, t, k)].slot.Indirect?;
        forall k: nat | k <= fuel
          ensures h[Hop(h, d, k)].slot.Indirect?
        {
          if k == 0 {
            assert Hop(h, d, k) == d;
          } else {
            assert Hop(h, d, k) == Hop(h, t, k - 1);
            assert h[Hop(h, t, k - 1)].slot.Indirect?;
          }
        }
      }
    } else if h[d].slot.Indirect? {
      forall k: nat | k <= fuel
        ensures h[Hop(h, d, k)].slot.Indirect?
      {
        assert Hop(h, d, k) == d;
      }
    } else {
      assert ResolvedWithin(h, d, fuel).Ok?;
      var zero: nat := 0;
      assert zero <= fuel && !h[Hop(h, d, zero)].slot.Indirect?;
    }
  }

  /** More fuel changes nothing once resolution has succeeded. */
  lemma {:induction false} WithinStable(h: Heap, d: Dbid, fuel: nat, more: nat)
    requires WellFormed(h) && d < |h| && fuel <= more
    requires ResolvedWithin(h, d, fuel).Ok?
    ensures ResolvedWithin(h, d, more) == ResolvedWithin(h, d, fuel)
    decreases fuel
  {
    if h[d].slot.Indirect? {
      WithinStable(h, h[d].slot.target, fuel - 1, more - 1);
    }
  }

  lemma {:induction false} HopNext(h: Heap, d: Dbid, k: nat)
    requires WellFormed(h) && d < |h|
    ensures Hop(h, d, k + 1) == Step(h, Hop(h, d, k))
    decreases k
  {
    if k > 0 {
      HopNext(h, Step(h, d), k - 1);
    }
  }

  /** Once the chain revisits a placeholder it repeats itself. */
  lemma {:induction false} HopPeriodic(h: Heap, d: Dbid, i: nat, j: nat, m: nat)
    requires WellFormed(h) && d < |h| && Hop(h, d, i) == Hop(h, d, j)
    ensures Hop(h, d, i + m) == Hop(h, d, j + m)
    decreases m
  {
    if m > 0 {
      HopPeriodic(h, d, i, j, m - 1);
      HopNext(h, d, i + m - 1);
      HopNext(h, d, j + m - 1);
    }
  }

  /** After a revisit at hops `i < j`, every later placeholder was already met
      before hop `j`. */
  lemma {:induction false} HopSeenBefore(h: Heap, d: Dbid, i: nat, j: nat, k: nat)
    requires WellFormed(h) && d < |h| && i < j && Hop(h, d, i) == Hop(h, d, j)
    ensures exists m: nat :: m < j && Hop(h, d, k) == Hop(h, d, m)
    decreases k
  {
    if k < j {
      assert Hop(h, d, k) == Hop(h, d, k);
    } else {
      HopPeriodic(h, d, i, j, k - j);
      HopSeenBefore(h, d, i, j, i + (k - j));
    }
  }

  /** The first `m + 1` placeholders of the chain. */
  ghost function HopSet(h: Heap, d: Dbid, m: nat): set<Dbid>
    requires WellFormed(h) && d < |h|
  {
    set k: nat | k <= m :: Hop(h, d, k)
  }

  lemma {:induction false} HopSetSize(h: Heap, d: Dbid, m: nat)
    requires WellFormed(h) && d < |h|
    requires forall i: nat, j: nat :: i < j <= m ==> Hop(h, d, i) != Hop(h, d, j)
    ensures |HopSet(h, d, m)| == m + 1
    decreases m
  {
    if m > 0 {
      HopSetSize(h, d, m - 1);
      assert HopSet(h, d, m) == HopSet(h, d, m - 1) + {Hop(h, d, m)};
    } else {
      assert Hop(h, d, 0) == d;
      forall x | x in HopSet(h, d, 0)
        ensures x == d
      {
        var k: nat :| k <= 0 && Hop(h, d, k) == x;
      }
      assert HopSet(h, d, 0) == {d};
    }
  }

  /** A set of naturals below `n` has at most `n` members. */
  lemma {:induction false} BelowBound(s: set<nat>, n: nat)
    requires forall x :: x in s ==> x < n
    ensures |s| <= n
    decreases n
  {
    if n > 0 {
      BelowBound(s - {n - 1}, n - 1);
    } else {
      assert s == {};
    }
  }

  /** Pigeonhole: within `|h|` hops the chain meets some placeholder twice. */
  lemma Revisits(h: Heap, d: Dbid)
    requires WellFormed(h) && d < |h|
    ensures exists i: nat, j: nat :: i < j <= |h| && Hop(h, d, i) == Hop(h, d, j)
  {
    if forall i: nat, j: nat :: i < j <= |h| ==> Hop(h, d, i) != Hop(h, d, j) {
      HopSetSize(h, d, |h|);
      BelowBound(HopSet(h, d, |h|), |h|);
    }
  }

  /** A chain of references longer than the heap never ends. */
  lemma LongChainIsEndless(h: Heap, d: Dbid, fuel: nat)
    requires WellFormed(h) && d < |h| && |h| <= fuel + 1
    requires forall k: nat :: k <= fuel ==> h[Hop(h, d, k)].slot.Indirect?
    ensures Endless(h, d)
  {
    Revisits(h, d);
    var i: nat, j: nat :| i < j <= |h| && Hop(h, d, i) == Hop(h, d, j);
    forall k: nat
      ensures h[Hop(h, d, k)].slot.Indirect?
    {
      HopSeenBefore(h, d, i, j, k);
    }
  }

  /** Any fuel of at least one hop less than the heap size decides resolution. */
  lemma FuelEnough(h: Heap, d: Dbid, fuel: nat)
    requires WellFormed(h) && d < |h| && |h| <= fuel + 1
    ensures ResolvedWithin(h, d, fuel) == Resolved(h, d)
  {
    WithinFails(h, d, fuel);
    WithinFails(h, d, |h|);
    if ResolvedWithin(h, d, fuel).Err? {
      LongChainIsEndless(h, d, fuel);
    } else if ResolvedWithin(h, d, |h|).Err? {
      LongChainIsEndless(h, d, |h|);
    } else if fuel <= |h| {
      WithinStable(h, d, fuel, |h|);
    } else {
      WithinStable(h, d, |h|, fuel);
    }
  }

  /** `resolved()` of a reference is whatever its target resolves to, however
      long the chain behind it. */
  lemma ResolvedFollowsReference(h: Heap, d: Dbid, t: Dbid)
    requires WellFormed(h) && d < |h| && h[d].slot == Indirect(t)
    ensures Resolved(h, d) == Resolved(h, t)
  {
    assert Resolved(h, d) == ResolvedWithin(h, t, |h| - 1);
    FuelEnough(h, t, |h| - 1);
  }

  /** `resolved()` fails, with the recursion limit, exactly when the chain of
      references never ends. */
  lemma FailsIffChainEndless(h: Heap, d: Dbid)
    requires WellFormed(h) && d < |h|
    ensures Resolved(h, d).Err? <==> Endless(h, d)
    ensures Resolved(h, d).Err? ==> Resolved(h, d) == Err(RecursionLimit)
  {
    WithinFails(h, d, |h|);
    if Resolved(h, d).Err? {
      LongChainIsEndless(h, d, |h|);
    }
  }

  /** Resolving `self` to a value and reading it back gives the value; resolving
      it to a concrete placeholder gives that placeholder's value. */
  lemma ResolveThenResolved(h: Heap, self: Dbid, v: IdArg, isNew: bool)
    requires WellFormed(h) && self < |h| && ArgIn(h, v) && Accepted(v)
    requires v.DbidArg? ==> v.d != self && h[v.d].slot.Concrete?
    ensures Resolve(h, self, v, isNew).Ok?
    ensures var h' := Resolve(h, self, v, isNew).value;
      Resolved(h', self) ==
        match v
        case IntArg(n) => Ok(Some(n))
        case BoolArg(b) => Ok(Some(if b then 1 else 0))
        case NoneArg => Ok(None)
        case DbidArg(t) => Ok(Some(h[t].slot.value))
  {
    var h' := Resolve(h, self, v, isNew).value;
    if v.DbidArg? {
      OneHop(h', self, v.d);
    }
  }

  /** The right-hand operand of arithmetic and comparison: an int or a placeholder. */
  datatype Operand = OfDbid(d: Dbid) | OfInt(n: int)

  predicate OperandIn(h: Heap, o: Operand) {
    o.OfDbid? ==> o.d < |h|
  }

  /** `int(x)`: a placeholder's resolved integer; an unset chain is an error. */
  function IntValue(h: Heap, o: Operand): (r: Result<int>)
    requires WellFormed(h) && OperandIn(h, o)
    ensures o.OfInt? ==> r == Ok(o.n)
    ensures o.OfDbid? ==> (r.Ok? <==> Resolved(h, o.d).Ok? && Resolved(h, o.d).value.Some?)
    ensures o.OfDbid? && r.Ok? ==> r.value == Resolved(h, o.d).value.value
  {
    match o
    case OfInt(n) => Ok(n)
    case OfDbid(d) =>
      var v :- Resolved(h, d);
      if v.Some? then Ok(v.value) else Err(Unresolved)
  }

  /** `self + other`, computed on the resolved integers. */
  function Add(h: Heap, a: Dbid, b: Operand): (r: Result<int>)
    requires WellFormed(h) && a < |h| && OperandIn(h, b)
    ensures r.Ok? <==> IntValue(h, OfDbid(a)).Ok? && IntValue(h, b).Ok?
    ensures r.Ok? ==> r.value == IntValue(h, OfDbid(a)).value + IntValue(h, b).value
  {
    var x :- IntValue(h, OfDbid(a));
    var y :- IntValue(h, b);
    Ok(x + y)
  }

  datatype Comparison = Less | Greater | AtLeast | AtMost

  /** `<`, `>`, `>=` and `<=`, computed on the resolved integers. */
  function Compare(h: Heap, a: Dbid, op: Comparison, b: Operand): (r: Result<bool>)
    requires WellFormed(h) && a < |h| && OperandIn(h, b)
    ensures r.Ok? <==> IntValue(h, OfDbid(a)).Ok? && IntValue(h, b).Ok?
    ensures r.Ok? && op == Less ==> r.value == (IntValue(h, OfDbid(a)).value < IntValue(h, b).value)
    ensures r.Ok? && op == AtLeast ==> r.value == !(IntValue(h, OfDbid(a)).value < IntValue(h, b).value)
    ensures r.Ok? && op == Greater ==> r.value == (IntValue(h, b).value < IntValue(h, OfDbid(a)).value)
    ensures r.Ok? && op == AtMost ==> r.value == !(IntValue(h, b).value < IntValue(h, OfDbid(a)).value)
  {
    var x :- IntValue(h, OfDbid(a));
    var y :- IntValue(h, b);
    Ok(match op
       case Less => x < y
       case Greater => x > y
       case AtLeast => x >= y
       case AtMost => x <= y)
  }

  /** A placeholder that refers to a concrete one is numerically the same
      identity: `<=` and `>=` both hold, `<` does not, and they add alike. */
  lemma ReferenceActsAsTarget(h: Heap, d: Dbid, t: Dbid, o: Operand)
    requires WellFormed(h) && d < |h| && OperandIn(h, o)
    requires h[d].slot == Indirect(t) && h[t].slot.Concrete?
    ensures Compare(h, d, AtMost, OfDbid(t)) == Ok(true)
    ensures Compare(h, d, AtLeast, OfDbid(t)) == Ok(true)
    ensures Compare(h, d, Less, OfDbid(t)) == Ok(false)
    ensures Add(h, d, o) == Add(h, t, o)
  {
    OneHop(h, d, t);
  }
}
