/**
 A pool that lends what it has queued. The serializer pool lends its sharing maps so, the validator
 pool the maps of its validators: they differ in what a call makes of a map, and in what is queued
 of one that comes back.
 */
module Rentals {
  import opened Words

  // The queue, and what is out on loan.
  datatype Pool<M> = Pool(alive: bool, capacity: nat, queue: seq<M>, rented: map<int, M>)

  datatype Event<C> = RentEvent(id: int) | UseEvent(id: int, call: C) | ReturnEvent(id: int) | EndEvent

  function NewPool<M>(capacity: nat): Pool<M> {
    Pool(true, capacity, [], map[])
  }

  // Renting needs the pool, and a name not in use; using and returning need a loan.
  function Lend<M, C, R>(s: Pool<M>, e: Event<C>, empty: M, queued: M -> M, use: (M, C) -> (M, R)): (Pool<M>, Option<R>) {
    match e
    case RentEvent(id) =>
      if !s.alive || id in s.rented then
        (s, None)
      else if s.queue == [] then
        (s.(rented := s.rented[id := empty]), None)
      else
        (s.(queue := s.queue[1..], rented := s.rented[id := s.queue[0]]), None)
    case UseEvent(id, call) =>
      if id !in s.rented then
        (s, None)
      else
        var (m, r) := use(s.rented[id], call);
        (s.(rented := s.rented[id := m]), Some(r))
    case ReturnEvent(id) =>
      if id !in s.rented then
        (s, None)
      else if s.alive && |s.queue| < s.capacity then
        (s.(queue := s.queue + [queued(s.rented[id])], rented := s.rented - {id}), None)
      else
        (s.(rented := s.rented - {id}), None)
    case EndEvent =>
      (s.(alive := false, queue := []), None)
  }

  // ---------- order

  // What a return adds to the queue of `s`: nothing, if the pool is gone or full.
  function QueuedBy<M, C>(s: Pool<M>, e: Event<C>, queued: M -> M): seq<M> {
    if e.ReturnEvent? && e.id in s.rented && s.alive && |s.queue| < s.capacity then [queued(s.rented[e.id])] else []
  }

  // What a rental was lent, if there was something waiting.
  function TakenBy<M, C>(s: Pool<M>, e: Event<C>, s': Pool<M>): seq<M> {
    if e.RentEvent? && s.queue != [] && e.id !in s.rented && e.id in s'.rented then [s'.rented[e.id]] else []
  }

  // First in, first out, and nothing else happens to the queue of a pool that is still there.
  lemma LendIsFifo<M, C, R>(s: Pool<M>, e: Event<C>, empty: M, queued: M -> M, use: (M, C) -> (M, R))
    requires Lend(s, e, empty, queued, use).0.alive
    ensures var s' := Lend(s, e, empty, queued, use).0;
            && s.alive && s'.capacity == s.capacity
            && s.queue + QueuedBy(s, e, queued) == TakenBy(s, e, s') + s'.queue
            && (e.ReturnEvent? && s.capacity <= |s.queue| ==> s'.queue == s.queue)
            && (e.RentEvent? && s.queue == [] && e.id !in s.rented ==> e.id in s'.rented && s'.rented[e.id] == empty)
            && (e.RentEvent? && s.queue != [] && e.id !in s.rented ==> e.id in s'.rented)
  {
    var s' := Lend(s, e, empty, queued, use).0;
    if e.RentEvent? && e.id !in s.rented && s.queue != [] {
      assert s.queue == [s.queue[0]] + s.queue[1..];
    }
  }

  // An event touches no loan but the one it names.
  lemma LendKeepsOthers<M, C, R>(s: Pool<M>, e: Event<C>, empty: M, queued: M -> M, use: (M, C) -> (M, R), id: int)
    requires e.EndEvent? || e.id != id
    ensures var s' := Lend(s, e, empty, queued, use).0;
            (id in s'.rented <==> id in s.rented) && (id in s.rented ==> s'.rented[id] == s.rented[id])
  {}
}
