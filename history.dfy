/**
 * The edit session of components/SimulationHistory.tsx: which row is being edited
 * (`editingId`), field edits that are written straight into the store
 * (`handleChange`), and saving, which recomputes the row's schedule (`handleSave`).
 *
 * `handleChange` assigns the field on the object `find` returned, an object the
 * store's list also holds, and then hands that object to `updateSimulation`. On
 * values this is: take the first entry with the id, change the field, and replace
 * every entry with that id by the result.
 */
module History {
  import opened Wrappers
  import opened Store

  /** The field assignments `handleChange` is called with; each carries the new value. */
  datatype Edit =
    | SetProductName(productName: string)
    | SetPrice(price: real)
    | SetStore(store: string)
    | SetCategory(category: string)
    | SetInstallments(installments: int)
    | SetInterestRate(interestRate: real)

  /** `(simulation as any)[field] = value`: one field changes; id and results never do. */
  function Apply(x: Simulation, e: Edit): (y: Simulation)
    ensures y.id == x.id && y.results == x.results
    ensures y.productName == (if e.SetProductName? then e.productName else x.productName)
    ensures y.price == (if e.SetPrice? then e.price else x.price)
    ensures y.store == (if e.SetStore? then e.store else x.store)
    ensures y.category == (if e.SetCategory? then e.category else x.category)
    ensures y.installments == (if e.SetInstallments? then e.installments else x.installments)
    ensures y.interestRate == (if e.SetInterestRate? then e.interestRate else x.interestRate)
  {
    match e
    case SetProductName(v) => x.(productName := v)
    case SetPrice(v) => x.(price := v)
    case SetStore(v) => x.(store := v)
    case SetCategory(v) => x.(category := v)
    case SetInstallments(v) => x.(installments := v)
    case SetInterestRate(v) => x.(interestRate := v)
  }

  /** `simulations.find(sim => sim.id === id)`. */
  function Find(s: seq<Simulation>, id: string): (r: Option<Simulation>)
    ensures r.None? <==> id !in Ids(s)
    ensures r.Some? ==> r.value in s && r.value.id == id
  {
    if s == [] then None
    else if s[0].id == id then Some(s[0])
    else Find(s[1..], id)
  }

  /** The entry's results are the schedule of its own price, installments and rate. */
  ghost predicate Consistent(x: Simulation, factor: Factor)
  {
    x.results == Schedule(x.price, x.installments, x.interestRate, factor)
  }

  /** The entry `x` with its results recomputed: `{ ...simulation, results }`. */
  function Recomputed(x: Simulation, factor: Factor): Simulation
  {
    x.(results := Schedule(x.price, x.installments, x.interestRate, factor))
  }

  /** The list after `handleSave(id)`. */
  function Saved(s: seq<Simulation>, id: string, factor: Factor): seq<Simulation>
  {
    match Find(s, id)
    case None => s
    case Some(x) => Replaced(s, Recomputed(x, factor))
  }

  /** The list after `handleChange(id, field, value)`. */
  function Changed(s: seq<Simulation>, id: string, e: Edit): seq<Simulation>
  {
    match Find(s, id)
    case None => s
    case Some(x) => Replaced(s, Apply(x, e))
  }

  /** `find` returns the first entry with the id. */
  lemma {:induction false} FindFirst(s: seq<Simulation>, id: string, k: nat)
    requires k < |s| && s[k].id == id
    requires forall j :: 0 <= j < k ==> s[j].id != id
    ensures Find(s, id) == Some(s[k])
  {
    if k > 0 {
      FindFirst(s[1..], id, k - 1);
    }
  }

  /** With unique ids, `find` returns the one entry with the id. */
  lemma {:induction false} FindUnique(s: seq<Simulation>, k: nat)
    requires UniqueIds(s)
    requires k < |s|
    ensures Find(s, s[k].id) == Some(s[k])
  {
    FindFirst(s, s[k].id, k);
  }

  /** Recomputing gives a consistent entry and touches nothing but the results. */
  lemma RecomputedConsistent(x: Simulation, factor: Factor)
    ensures Consistent(Recomputed(x, factor), factor)
    ensures Recomputed(x, factor).(results := x.results) == x
    ensures ScheduleRowsOk(Recomputed(x, factor).results, x.price, x.installments, x.interestRate, factor)
  {
    ScheduleShape(x.price, x.installments, x.interestRate, factor);
  }

  /** Save keeps length, ids and every other entry; each entry with the id ends up
      consistent with its fields; an absent id changes nothing. */
  lemma SavedShape(s: seq<Simulation>, id: string, factor: Factor)
    ensures |Saved(s, id, factor)| == |s|
    ensures Ids(Saved(s, id, factor)) == Ids(s)
    ensures id !in Ids(s) ==> Saved(s, id, factor) == s
    ensures forall k :: 0 <= k < |s| && s[k].id != id ==> Saved(s, id, factor)[k] == s[k]
    ensures forall k :: 0 <= k < |s| && s[k].id == id ==>
      Saved(s, id, factor)[k] == Recomputed(Find(s, id).value, factor) &&
      Consistent(Saved(s, id, factor)[k], factor)
    ensures UniqueIds(s) ==> UniqueIds(Saved(s, id, factor))
    ensures UniqueIds(s) ==> forall k :: 0 <= k < |s| && s[k].id == id ==>
      Saved(s, id, factor)[k] == Recomputed(s[k], factor)
  {
    match Find(s, id)
    case None =>
    case Some(x) =>
      var u := Recomputed(x, factor);
      ReplacedAt(s, u);
      ReplacedIds(s, u);
      if UniqueIds(s) {
        forall k | 0 <= k < |s| && s[k].id == id ensures x == s[k] {
          FindUnique(s, k);
        }
      }
  }

  /** Change keeps length, ids and every other entry; each entry with the id gets the
      edited field and keeps its old results; an absent id changes nothing. */
  lemma ChangedShape(s: seq<Simulation>, id: string, e: Edit)
    ensures |Changed(s, id, e)| == |s|
    ensures Ids(Changed(s, id, e)) == Ids(s)
    ensures id !in Ids(s) ==> Changed(s, id, e) == s
    ensures forall k :: 0 <= k < |s| && s[k].id != id ==> Changed(s, id, e)[k] == s[k]
    ensures forall k :: 0 <= k < |s| && s[k].id == id ==>
      Changed(s, id, e)[k] == Apply(Find(s, id).value, e)
    ensures UniqueIds(s) ==> UniqueIds(Changed(s, id, e))
    ensures UniqueIds(s) ==> forall k :: 0 <= k < |s| && s[k].id == id ==>
      Changed(s, id, e)[k] == Apply(s[k], e) && Changed(s, id, e)[k].results == s[k].results
  {
    match Find(s, id)
    case None =>
    case Some(x) =>
      var u := Apply(x, e);
      ReplacedAt(s, u);
      ReplacedIds(s, u);
      if UniqueIds(s) {
        forall k | 0 <= k < |s| && s[k].id == id ensures x == s[k] {
          FindUnique(s, k);
        }
      }
  }

  /** Editing a field and then saving the same row leaves that row holding the edited
      fields and the schedule computed from them; the other rows are untouched. */
  lemma ChangeThenSave(s: seq<Simulation>, k: nat, e: Edit, factor: Factor)
    requires UniqueIds(s)
    requires k < |s|
    ensures var after := Saved(Changed(s, s[k].id, e), s[k].id, factor);
      |after| == |s| &&
      after[k] == Recomputed(Apply(s[k], e), factor) &&
      Consistent(after[k], factor) &&
      forall j :: 0 <= j < |s| && j != k ==> after[j] == s[j]
  {
    var id := s[k].id;
    ChangedShape(s, id, e);
    var mid := Changed(s, id, e);
    assert Ids(mid)[k] == id;
    SavedShape(mid, id, factor);
    RecomputedConsistent(Apply(s[k], e), factor);
  }

  /** An edit of the installment count that changes the number of rows leaves a
      consistent entry inconsistent until it is saved. */
  lemma ChangeInstallmentsMakesStale(x: Simulation, n: int, factor: Factor)
    requires Consistent(x, factor)
    requires (if n > 0 then n else 0) != (if x.installments > 0 then x.installments else 0)
    ensures !Consistent(Apply(x, SetInstallments(n)), factor)
  {
    ScheduleShape(x.price, x.installments, x.interestRate, factor);
    ScheduleShape(x.price, n, x.interestRate, factor);
  }

  /** The history table: the store it shows and the id of the row being edited. */
  class SimulationHistory {
    const store: SimulationStore
    var editingId: Option<string>

    constructor (store: SimulationStore)
      ensures this.store == store && editingId == None
    {
      this.store := store;
      editingId := None;
    }

    /** Starts editing row `id`; the store is not touched. */
    method HandleEdit(id: string)
      modifies this
      ensures editingId == Some(id)
      ensures store.simulations == old(store.simulations)
    {
      editingId := Some(id);
    }

    /** Recomputes the results of row `id` from its current fields and stores them;
        always ends the edit session. */
    method HandleSave(id: string)
      modifies this, store
      ensures editingId == None
      ensures store.simulations == Saved(old(store.simulations), id, store.discountFactor)
      ensures |store.simulations| == |old(store.simulations)|
      ensures id !in Ids(old(store.simulations)) ==> store.simulations == old(store.simulations)
      ensures forall k :: 0 <= k < |store.simulations| ==>
        if old(store.simulations)[k].id == id
        then Consistent(store.simulations[k], store.discountFactor)
        else store.simulations[k] == old(store.simulations)[k]
      ensures old(store.Valid()) ==> store.Valid() && forall k :: 0 <= k < |store.simulations| && old(store.simulations)[k].id == id ==>
        store.simulations[k] == Recomputed(old(store.simulations)[k], store.discountFactor)
    {
      ghost var before := store.simulations;
      var simulation := Find(store.simulations, id);
      if simulation.Some? {
        var x := simulation.value;
        var results := store.CalculateDiscount(x.price, x.installments, x.interestRate);
        assert x.(results := results) == Recomputed(x, store.discountFactor);
        store.UpdateSimulation(x.(results := results));
      }
      editingId := None;
      assert store.simulations == Saved(before, id, store.discountFactor);
      SavedShape(before, id, store.discountFactor);
    }

    /** Sets one field of row `id` in the store without recomputing its results; the
        edit session is not changed. */
    method HandleChange(id: string, e: Edit)
      modifies store
      ensures editingId == old(editingId)
      ensures store.simulations == Changed(old(store.simulations), id, e)
      ensures |store.simulations| == |old(store.simulations)|
      ensures id !in Ids(old(store.simulations)) ==> store.simulations == old(store.simulations)
      ensures forall k :: 0 <= k < |store.simulations| ==>
        if old(store.simulations)[k].id == id
        then store.simulations[k].results == Find(old(store.simulations), id).value.results
        else store.simulations[k] == old(store.simulations)[k]
      ensures old(store.Valid()) ==> store.Valid() && forall k :: 0 <= k < |store.simulations| && old(store.simulations)[k].id == id ==>
        store.simulations[k] == Apply(old(store.simulations)[k], e)
    {
      ghost var before := store.simulations;
      var simulation := Find(store.simulations, id);
      if simulation.Some? {
        store.UpdateSimulation(Apply(simulation.value, e));
      }
      assert store.simulations == Changed(before, id, e);
      ChangedShape(before, id, e);
    }
  }
}
