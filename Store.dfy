/**
 * The relational store, abstracted as one in-memory object that holds both
 * tables in insertion order and hands out fresh primary keys.
 */
module Store {
  import opened Wrappers
  import opened Models

  /**
   * The position of the first element satisfying `p`: what a
   * `query(...).filter(...).first()` finds.
   */
  function FirstIndex<T>(xs: seq<T>, p: T -> bool): (k: Option<nat>)
    ensures k.Some? ==> k.value < |xs| && p(xs[k.value])
    ensures k.Some? ==> forall j :: 0 <= j < k.value ==> !p(xs[j])
    ensures k.None? <==> forall j :: 0 <= j < |xs| ==> !p(xs[j])
    decreases |xs|
  {
    if xs == [] then None
    else if p(xs[0]) then Some(0)
    else
      match FirstIndex(xs[1..], p)
      case None => None
      case Some(j) => Some(j + 1)
  }

  /** The position of the reservation with primary key `id`, if any. */
  function FindReservation(rs: seq<Reservation>, id: int): (k: Option<nat>)
  {
    FirstIndex(rs, (r: Reservation) => r.id == id)
  }

  /** The position of the table with primary key `id`, if any. */
  function FindTable(ts: seq<Table>, id: int): (k: Option<nat>)
  {
    FirstIndex(ts, (t: Table) => t.id == id)
  }

  /** The position of the first table called `name`, if any. */
  function FindTableByName(ts: seq<Table>, name: string): (k: Option<nat>)
  {
    FirstIndex(ts, (t: Table) => t.name == name)
  }

  /** In a store with unique keys, the one record with key `id` is found and no other has it. */
  lemma FoundReservationIsOnly(rs: seq<Reservation>, id: int)
    requires UniqueReservationIds(rs)
    requires FindReservation(rs, id).Some?
    ensures var k := FindReservation(rs, id).value;
      forall j :: 0 <= j < |rs| && j != k ==> rs[j].id != id
  {
  }

  /** In a store with unique keys, the table found by id is the only one with it. */
  lemma FoundTableIsOnly(ts: seq<Table>, id: int)
    requires UniqueTableIds(ts)
    requires FindTable(ts, id).Some?
    ensures var k := FindTable(ts, id).value;
      forall j :: 0 <= j < |ts| && j != k ==> ts[j].id != id
  {
  }

  class Database {
    var tables: seq<Table>
    var reservations: seq<Reservation>
    var nextTableId: int
    var nextReservationId: int

    /** Keys are unique, positive and below the next key to be handed out. */
    ghost predicate Valid()
      reads this
    {
      && 1 <= nextTableId && 1 <= nextReservationId
      && UniqueTableIds(tables)
      && UniqueReservationIds(reservations)
      && (forall t :: t in tables ==> 0 < t.id < nextTableId)
      && (forall r :: r in reservations ==> 0 < r.id < nextReservationId)
    }

    /** An empty store; the first key handed out is 1. */
    constructor ()
      ensures Valid()
      ensures tables == [] && reservations == []
      ensures nextTableId == 1 && nextReservationId == 1
    {
      tables := [];
      reservations := [];
      nextTableId := 1;
      nextReservationId := 1;
    }
  }
}
