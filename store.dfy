/**
 * The simulation store of store/useStore.ts: the discount engine `calculateDiscount`
 * and the `simulations` list with its add, update and delete operations.
 *
 * Numbers are reals. The floating-point discount factor
 * `(1 + monthlyRate) ^ (-i)`, with `monthlyRate = (1 + rate / 100) ^ (1 / 12) - 1`,
 * is not modelled: the store carries it as an arbitrary function of the annual
 * rate and the installment index, and only the structure of the schedule is proved.
 */
module Store {

  /** One row of a discount schedule (`SimulationResult`). */
  datatype InstallmentResult = InstallmentResult(
    installment: int,
    originalValue: real,
    discountedValue: real,
    discount: real)

  /** The input fields of a simulation, before an id and results are attached. */
  datatype Draft = Draft(
    productName: string,
    price: real,
    store: string,
    category: string,
    installments: int,
    interestRate: real)

  /** A saved simulation (`Simulation`). */
  datatype Simulation = Simulation(
    id: string,
    productName: string,
    price: real,
    store: string,
    category: string,
    installments: int,
    interestRate: real,
    results: seq<InstallmentResult>)

  /** The discount factor of installment `i` at annual rate `rate` (kept abstract). */
  type Factor = (real, int) -> real

  // ---------------------------------------------------------------------------
  // The discount schedule
  // ---------------------------------------------------------------------------

  /** The row the loop body pushes for installment `i`. */
  function Row(price: real, installments: int, rate: real, factor: Factor, i: int): InstallmentResult
    requires installments > 0
  {
    var installmentValue := price / installments as real;
    var discountedValue := installmentValue * factor(rate, i);
    InstallmentResult(i, installmentValue, discountedValue, installmentValue - discountedValue)
  }

  /** The rows pushed for installments 1 to `k`, in that order. */
  function RowsUpTo(price: real, installments: int, rate: real, factor: Factor, k: nat): seq<InstallmentResult>
    requires installments > 0
  {
    if k == 0 then []
    else RowsUpTo(price, installments, rate, factor, k - 1) + [Row(price, installments, rate, factor, k)]
  }

  /** The schedule `calculateDiscount` returns: no rows unless `installments` is at least 1. */
  function Schedule(price: real, installments: int, rate: real, factor: Factor): seq<InstallmentResult>
  {
    if installments <= 0 then [] else RowsUpTo(price, installments, rate, factor, installments)
  }

  /** A schedule has one row per installment, numbered from 1, each with the same
      nominal value `price / installments`, its discounted value and their difference. */
  ghost predicate ScheduleRowsOk(rows: seq<InstallmentResult>, price: real, installments: int, rate: real, factor: Factor)
  {
    |rows| == (if installments > 0 then installments else 0) &&
    forall k :: 0 <= k < |rows| ==>
      installments > 0 &&
      rows[k].installment == k + 1 &&
      rows[k].originalValue == price / installments as real &&
      rows[k].discountedValue == rows[k].originalValue * factor(rate, k + 1) &&
      rows[k].discount == rows[k].originalValue - rows[k].discountedValue
  }

  lemma {:induction false} RowsUpToShape(price: real, installments: int, rate: real, factor: Factor, k: nat)
    requires installments > 0
    ensures |RowsUpTo(price, installments, rate, factor, k)| == k
    ensures forall j :: 0 <= j < k ==>
      RowsUpTo(price, installments, rate, factor, k)[j] == Row(price, installments, rate, factor, j + 1)
  {
    if k > 0 {
      RowsUpToShape(price, installments, rate, factor, k - 1);
    }
  }

  /** The shape of the schedule: row count, indices, the constant nominal value and
      `discount == originalValue - discountedValue`; empty when `installments <= 0`. */
  lemma ScheduleShape(price: real, installments: int, rate: real, factor: Factor)
    ensures ScheduleRowsOk(Schedule(price, installments, rate, factor), price, installments, rate, factor)
    ensures installments <= 0 ==> Schedule(price, installments, rate, factor) == []
  {
    if installments > 0 {
      RowsUpToShape(price, installments, rate, factor, installments);
    }
  }

  // ---------------------------------------------------------------------------
  // The simulations list
  // ---------------------------------------------------------------------------

  /** The ids of a list of simulations, in order. */
  function Ids(s: seq<Simulation>): (ids: seq<string>)
    ensures |ids| == |s|
    ensures forall k :: 0 <= k < |s| ==> ids[k] == s[k].id
  {
    if s == [] then [] else [s[0].id] + Ids(s[1..])
  }

  /** No two entries share an id. */
  ghost predicate UniqueIds(s: seq<Simulation>)
  {
    forall i, j :: 0 <= i < j < |s| ==> s[i].id != s[j].id
  }

  /** `{ ...draft, id, results }`. */
  function Minted(draft: Draft, id: string, results: seq<InstallmentResult>): Simulation
  {
    Simulation(id, draft.productName, draft.price, draft.store, draft.category,
               draft.installments, draft.interestRate, results)
  }

  /** `simulations.map(sim => sim.id === updated.id ? updated : sim)`. */
  function Replaced(s: seq<Simulation>, updated: Simulation): seq<Simulation>
  {
    if s == [] then []
    else [if s[0].id == updated.id then updated else s[0]] + Replaced(s[1..], updated)
  }

  /** `simulations.filter(sim => sim.id !== id)`. */
  function Removed(s: seq<Simulation>, id: string): seq<Simulation>
  {
    if s == [] then []
    else if s[0].id == id then Removed(s[1..], id)
    else [s[0]] + Removed(s[1..], id)
  }

  // --- append ----------------------------------------------------------------

  /** Appending an entry with a fresh id keeps the ids unique. */
  lemma {:induction false} AppendKeepsUnique(s: seq<Simulation>, x: Simulation)
    requires UniqueIds(s)
    requires x.id !in Ids(s)
    ensures UniqueIds(s + [x])
  {
    forall i, j | 0 <= i < j < |s + [x]| ensures (s + [x])[i].id != (s + [x])[j].id {
      if j == |s| {
        assert Ids(s)[i] == s[i].id;
      }
    }
  }

  // --- update ----------------------------------------------------------------

  /** Update keeps length and positions: matching entries become `updated`, the others stay. */
  lemma {:induction false} ReplacedAt(s: seq<Simulation>, updated: Simulation)
    ensures |Replaced(s, updated)| == |s|
    ensures forall k :: 0 <= k < |s| ==>
      Replaced(s, updated)[k] == if s[k].id == updated.id then updated else s[k]
  {
    if s != [] {
      ReplacedAt(s[1..], updated);
    }
  }

  /** Update never changes the sequence of ids, so it keeps them unique. */
  lemma {:induction false} ReplacedIds(s: seq<Simulation>, updated: Simulation)
    ensures Ids(Replaced(s, updated)) == Ids(s)
    ensures UniqueIds(s) ==> UniqueIds(Replaced(s, updated))
  {
    ReplacedAt(s, updated);
  }

  /** Updating an id that is not present leaves the list unchanged. */
  lemma {:induction false} ReplacedAbsent(s: seq<Simulation>, updated: Simulation)
    requires updated.id !in Ids(s)
    ensures Replaced(s, updated) == s
  {
    ReplacedAt(s, updated);
    forall k | 0 <= k < |s| ensures Replaced(s, updated)[k] == s[k] {
      assert Ids(s)[k] == s[k].id;
    }
  }

  /** Updating twice with the same value is the same as updating once. */
  lemma {:induction false} ReplacedIdempotent(s: seq<Simulation>, updated: Simulation)
    ensures Replaced(Replaced(s, updated), updated) == Replaced(s, updated)
  {
    ReplacedAt(s, updated);
    ReplacedAt(Replaced(s, updated), updated);
  }

  // --- delete ----------------------------------------------------------------

  /** Delete keeps exactly the entries whose id differs. */
  lemma {:induction false} RemovedMembers(s: seq<Simulation>, id: string)
    ensures forall x :: x in Removed(s, id) <==> x in s && x.id != id
    ensures |Removed(s, id)| <= |s|
  {
    if s != [] {
      RemovedMembers(s[1..], id);
      assert forall x :: x in s <==> x == s[0] || x in s[1..];
    }
  }

  /** Delete works piecewise, so it keeps the surviving entries in their relative order. */
  lemma {:induction false} RemovedConcat(a: seq<Simulation>, b: seq<Simulation>, id: string)
    ensures Removed(a + b, id) == Removed(a, id) + Removed(b, id)
  {
    if a == [] {
      assert a + b == b;
    } else {
      assert (a + b)[0] == a[0];
      assert (a + b)[1..] == a[1..] + b;
      RemovedConcat(a[1..], b, id);
    }
  }

  /** Deleting an id that is not present leaves the list unchanged. */
  lemma {:induction false} RemovedAbsent(s: seq<Simulation>, id: string)
    requires id !in Ids(s)
    ensures Removed(s, id) == s
  {
    if s != [] {
      assert Ids(s)[0] == s[0].id;
      assert Ids(s[1..]) == Ids(s)[1..];
      RemovedAbsent(s[1..], id);
    }
  }

  /** Deleting twice gives the same list as deleting once. */
  lemma {:induction false} RemovedIdempotent(s: seq<Simulation>, id: string)
    ensures Removed(Removed(s, id), id) == Removed(s, id)
  {
    var r := Removed(s, id);
    RemovedMembers(s, id);
    forall k | 0 <= k < |r| ensures Ids(r)[k] != id {
      assert r[k] in r;
    }
    RemovedAbsent(r, id);
  }

  /** Delete keeps the ids unique. */
  lemma {:induction false} RemovedKeepsUnique(s: seq<Simulation>, id: string)
    requires UniqueIds(s)
    ensures UniqueIds(Removed(s, id))
  {
    if s != [] {
      RemovedKeepsUnique(s[1..], id);
      if s[0].id != id {
        RemovedMembers(s[1..], id);
        var r := Removed(s[1..], id);
        forall j | 0 <= j < |r| ensures s[0].id != r[j].id {
          assert r[j] in s[1..];
        }
        assert Removed(s, id) == [s[0]] + r;
      }
    }
  }

  /** With unique ids, deleting the id of entry `k` removes exactly that entry. */
  lemma RemovedUnique(s: seq<Simulation>, k: nat)
    requires UniqueIds(s)
    requires k < |s|
    ensures Removed(s, s[k].id) == s[..k] + s[k + 1..]
    ensures |Removed(s, s[k].id)| == |s| - 1
  {
    var id := s[k].id;
    assert s == s[..k] + ([s[k]] + s[k + 1..]);
    RemovedConcat(s[..k], [s[k]] + s[k + 1..], id);
    RemovedConcat([s[k]], s[k + 1..], id);
    forall j | 0 <= j < k ensures Ids(s[..k])[j] != id {}
    var after := s[k + 1..];
    forall j | 0 <= j < |after| ensures after[j].id != id {
      assert after[j] == s[k + 1 + j];
    }
    RemovedAbsent(s[..k], id);
    RemovedAbsent(s[k + 1..], id);
    assert Removed([s[k]], id) == [];
  }

  /** With unique ids, delete shortens the list by one when the id is present and
      leaves it as it is otherwise. */
  lemma {:induction false} RemovedLength(s: seq<Simulation>, id: string)
    requires UniqueIds(s)
    ensures |Removed(s, id)| == if id in Ids(s) then |s| - 1 else |s|
  {
    if id in Ids(s) {
      var k :| 0 <= k < |s| && Ids(s)[k] == id;
      RemovedUnique(s, k);
    } else {
      RemovedAbsent(s, id);
    }
  }

  // ---------------------------------------------------------------------------
  // The store object
  // ---------------------------------------------------------------------------

  /** The zustand store: its `simulations` state and the operations that replace it. */
  class SimulationStore {
    var simulations: seq<Simulation>
    /** Stands for the floating-point factor `calculateDiscount` computes per installment. */
    const discountFactor: Factor

    /** Ids stay pairwise distinct (the ids are minted by `uuidv4()`). */
    ghost predicate Valid()
      reads this
    {
      UniqueIds(simulations)
    }

    constructor (discountFactor: Factor)
      ensures simulations == [] && this.discountFactor == discountFactor
      ensures Valid()
    {
      simulations := [];
      this.discountFactor := discountFactor;
    }

    /** The schedule for `price` over `installments` months at annual rate `interestRate`. */
    method CalculateDiscount(price: real, installments: int, interestRate: real)
      returns (results: seq<InstallmentResult>)
      ensures |results| == if installments > 0 then installments else 0
      ensures forall k :: 0 <= k < |results| ==>
        installments > 0 &&
        results[k].installment == k + 1 &&
        results[k].originalValue == price / installments as real &&
        results[k].discountedValue == results[k].originalValue * discountFactor(interestRate, k + 1) &&
        results[k].discount == results[k].originalValue - results[k].discountedValue
      ensures results == Schedule(price, installments, interestRate, discountFactor)
    {
      results := [];
      // JavaScript divides by zero to Infinity here; that value is never used because
      // the loop below does not run, so any placeholder will do.
      var installmentValue := if installments == 0 then 0.0 else price / installments as real;
      var i := 1;
      while i <= installments
        invariant 1 <= i
        invariant installments > 0 ==> i <= installments + 1
        invariant installments > 0 ==> results == RowsUpTo(price, installments, interestRate, discountFactor, i - 1)
        invariant installments <= 0 ==> results == []
      {
        var factor := discountFactor(interestRate, i);
        var discountedValue := installmentValue * factor;
        var discount := installmentValue - discountedValue;
        results := results + [InstallmentResult(i, installmentValue, discountedValue, discount)];
        assert InstallmentResult(i, installmentValue, discountedValue, discount) == Row(price, installments, interestRate, discountFactor, i);
        i := i + 1;
      }
      ScheduleShape(price, installments, interestRate, discountFactor);
    }

    /** Appends the draft under the fresh id `id` (the value `uuidv4()` returned),
        with its schedule computed from its own fields. */
    method AddSimulation(draft: Draft, id: string)
      requires id !in Ids(simulations)
      modifies this
      ensures |simulations| == |old(simulations)| + 1
      ensures simulations[..|old(simulations)|] == old(simulations)
      ensures simulations == old(simulations) + [Minted(draft, id, Schedule(draft.price, draft.installments, draft.interestRate, discountFactor))]
      ensures var added := simulations[|simulations| - 1];
        added.id == id && added.productName == draft.productName && added.price == draft.price &&
        added.store == draft.store && added.category == draft.category &&
        added.installments == draft.installments && added.interestRate == draft.interestRate &&
        ScheduleRowsOk(added.results, draft.price, draft.installments, draft.interestRate, discountFactor)
      ensures old(Valid()) ==> Valid()
    {
      var results := CalculateDiscount(draft.price, draft.installments, draft.interestRate);
      var added := Minted(draft, id, results);
      if Valid() {
        AppendKeepsUnique(simulations, added);
      }
      simulations := simulations + [added];
      assert simulations[..|old(simulations)|] == old(simulations);
      ScheduleShape(draft.price, draft.installments, draft.interestRate, discountFactor);
    }

    /** Replaces every entry whose id is `updated.id` by `updated`, results as given. */
    method UpdateSimulation(updated: Simulation)
      modifies this
      ensures simulations == Replaced(old(simulations), updated)
      ensures |simulations| == |old(simulations)|
      ensures forall k :: 0 <= k < |simulations| ==>
        simulations[k] == if old(simulations)[k].id == updated.id then updated else old(simulations)[k]
      ensures Ids(simulations) == Ids(old(simulations))
      ensures updated.id !in Ids(old(simulations)) ==> simulations == old(simulations)
      ensures old(Valid()) ==> Valid()
    {
      ReplacedAt(simulations, updated);
      ReplacedIds(simulations, updated);
      if updated.id !in Ids(simulations) {
        ReplacedAbsent(simulations, updated);
      }
      simulations := Replaced(simulations, updated);
    }

    /** Drops every entry whose id is `id`, keeping the others in order. */
    method DeleteSimulation(id: string)
      modifies this
      ensures simulations == Removed(old(simulations), id)
      ensures forall x :: x in simulations <==> x in old(simulations) && x.id != id
      ensures id !in Ids(old(simulations)) ==> simulations == old(simulations)
      ensures old(Valid()) ==> Valid()
      ensures old(Valid()) ==> |simulations| == if id in Ids(old(simulations)) then |old(simulations)| - 1 else |old(simulations)|
      ensures forall k :: old(Valid()) && 0 <= k < |old(simulations)| && old(simulations)[k].id == id ==>
        simulations == old(simulations)[..k] + old(simulations)[k + 1..]
    {
      RemovedMembers(simulations, id);
      if id !in Ids(simulations) {
        RemovedAbsent(simulations, id);
      }
      if Valid() {
        RemovedKeepsUnique(simulations, id);
        RemovedLength(simulations, id);
        forall k | 0 <= k < |simulations| && simulations[k].id == id
          ensures Removed(simulations, id) == simulations[..k] + simulations[k + 1..]
        {
          RemovedUnique(simulations, k);
        }
      }
      simulations := Removed(simulations, id);
    }
  }
}
