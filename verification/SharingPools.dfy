/**
 The serializer pool's queue of sharing maps. A returned map is queued as it is, so a rental may
 find in its map what earlier rentals started.
 */
module SharingPools {
  import opened Rentals
  import opened SharingMaps
  import opened Words

  // A map comes back uncleared.
  function Uncleared(m: Positions): Positions { m }

  function PoolNext(s: Pool<Positions>, e: Event<Call>): (Pool<Positions>, Option<Answer>) {
    Lend(s, e, map[], Uncleared, Next)
  }

  function PoolAfter(s: Pool<Positions>, es: seq<Event<Call>>): Pool<Positions> {
    if es == [] then s else PoolNext(PoolAfter(s, es[..|es| - 1]), es[|es| - 1]).0
  }

  function Answers(s: Pool<Positions>, es: seq<Event<Call>>): seq<Option<Answer>> {
    if es == [] then
      []
    else
      var n := |es| - 1;
      Answers(s, es[..n]) + [PoolNext(PoolAfter(s, es[..n]), es[n]).1]
  }

  // ---------- order

  // The maps that returns have queued, in order, and those that rentals were lent from the queue.
  function AllQueued(s: Pool<Positions>, es: seq<Event<Call>>): seq<Positions> {
    if es == [] then
      []
    else
      var n := |es| - 1;
      AllQueued(s, es[..n]) + QueuedBy(PoolAfter(s, es[..n]), es[n], Uncleared)
  }

  function AllTaken(s: Pool<Positions>, es: seq<Event<Call>>): seq<Positions> {
    if es == [] then
      []
    else
      var n := |es| - 1;
      AllTaken(s, es[..n]) + TakenBy(PoolAfter(s, es[..n]), es[n], PoolAfter(s, es))
  }

  // Until the pool ends, maps are lent in the order in which they came back: what was queued is
  // what was taken, and then what still waits.
  lemma {:induction false} FirstInFirstOut(capacity: nat, es: seq<Event<Call>>)
    requires PoolAfter(NewPool(capacity), es).alive
    ensures AllQueued(NewPool(capacity), es) == AllTaken(NewPool(capacity), es) + PoolAfter(NewPool(capacity), es).queue
  {
    if es != [] {
      var n, s := |es| - 1, NewPool(capacity);
      var before, now := PoolAfter(s, es[..n]), PoolAfter(s, es);
      LendIsFifo(before, es[n], map[], Uncleared, Next);
      FirstInFirstOut(capacity, es[..n]);
      hide PoolNext;
      hide TakenBy;
      hide QueuedBy;
      Regroup(AllTaken(s, es[..n]), before.queue, QueuedBy(before, es[n], Uncleared), TakenBy(before, es[n], now), now.queue);
    }
  }

  lemma Regroup<T>(taken: seq<T>, q: seq<T>, put: seq<T>, got: seq<T>, q': seq<T>)
    requires q + put == got + q'
    ensures (taken + q) + put == (taken + got) + q'
  {
    assert (taken + q) + put == taken + (q + put);
    assert taken + (got + q') == (taken + got) + q';
  }

  // ---------- whose calls a rental inherits

  // The same queue and loans, but of calls: all those made on a map since it was new, in every
  // rental it went through.
  function Noted(cs: seq<Call>, c: Call): (seq<Call>, ()) { (cs + [c], ()) }

  function Kept(cs: seq<Call>): seq<Call> { cs }

  function LedgerAfter(l: Pool<seq<Call>>, es: seq<Event<Call>>): Pool<seq<Call>> {
    if es == [] then l else Lend(LedgerAfter(l, es[..|es| - 1]), es[|es| - 1], [], Kept, Noted).0
  }

  predicate Tells(l: Pool<seq<Call>>, s: Pool<Positions>) {
    && l.alive == s.alive && l.capacity == s.capacity
    && |l.queue| == |s.queue| && (forall i :: 0 <= i < |s.queue| ==> s.queue[i] == After(map[], l.queue[i]))
    && l.rented.Keys == s.rented.Keys && (forall id :: id in s.rented ==> s.rented[id] == After(map[], l.rented[id]))
  }

  lemma TellsNext(l: Pool<seq<Call>>, s: Pool<Positions>, e: Event<Call>)
    requires Tells(l, s)
    ensures Tells(Lend(l, e, [], Kept, Noted).0, PoolNext(s, e).0)
  {
    if e.UseEvent? && e.id in s.rented {
      var calls := l.rented[e.id];
      assert (calls + [e.call])[..|calls|] == calls;
    }
  }

  lemma {:induction false} LedgerTells(capacity: nat, es: seq<Event<Call>>)
    ensures Tells(LedgerAfter(NewPool(capacity), es), PoolAfter(NewPool(capacity), es))
  {
    if es != [] {
      LedgerTells(capacity, es[..|es| - 1]);
      TellsNext(LedgerAfter(NewPool(capacity), es[..|es| - 1]),
                PoolAfter(NewPool(capacity), es[..|es| - 1]), es[|es| - 1]);
    }
  }

  // After any rentals, uses and returns, interleaved in any way, with a full queue or around the
  // end of the pool: a map on loan answers like a new one, over all further calls, exactly if no
  // call since it was new, in this rental or an earlier one, started anything.
  lemma RentalLikeNewIff(capacity: nat, es: seq<Event<Call>>, id: int)
    requires id in PoolAfter(NewPool(capacity), es).rented
    ensures id in LedgerAfter(NewPool(capacity), es).rented
    ensures var m := PoolAfter(NewPool(capacity), es).rented[id];
            (forall cs: seq<Call>, i: nat :: i < |cs| ==> AnswerAt(m, cs, i) == AnswerAt(map[], cs, i))
            <==> forall c :: c in LedgerAfter(NewPool(capacity), es).rented[id] ==> c.FinishCall?
  {
    LedgerTells(capacity, es);
    UsedLikeNewIff(LedgerAfter(NewPool(capacity), es).rented[id]);
  }

  // With one rental at a time there is one map, so a single start in any rental is seen by all
  // that follow.
  lemma NextRentalSees(s: Pool<Positions>, id: int, next: int)
    requires s.alive && s.queue == [] && 0 < s.capacity && s.rented.Keys == {id}
    ensures PoolAfter(s, [ReturnEvent(id), RentEvent(next)]).rented == map[next := s.rented[id]]
  {
    var es := [ReturnEvent(id), RentEvent(next)];
    assert es[..1] == [ReturnEvent(id)] && es[..1][..0] == [];
    assert s.rented - {id} == map[];
    assert PoolAfter(s, es[..1]) == PoolNext(s, ReturnEvent(id)).0;
  }

  // For example: the second user of a pool is told that an address it meets for the first time is
  // pending.
  lemma SecondRentalIsPending(capacity: nat, address: nat)
    requires 0 < capacity
    ensures Answers(NewPool(capacity), [RentEvent(0), UseEvent(0, StartCall(address)), ReturnEvent(0),
                                        RentEvent(1), UseEvent(1, StartCall(address))])
            == [None, Some(StateOf(Started)), None, None, Some(StateOf(Pending))]
  {
    var s: Pool<Positions>, m: Positions := NewPool(capacity), map[address := None];
    var es := [RentEvent(0), UseEvent(0, StartCall(address)), ReturnEvent(0), RentEvent(1), UseEvent(1, StartCall(address))];
    var first: map<int, Positions>, loan: map<int, Positions> := map[0 := map[]], map[0 := m];
    assert first[0][address := None] == m && first[0 := m] == loan && loan - {0} == map[] && [] + [m] == [m] && [m][1..] == [];
    assert PoolNext(s, es[0]) == (s.(rented := first), None);
    assert PoolNext(s.(rented := first), es[1]) == (s.(rented := loan), Some(StateOf(Started)));
    assert PoolNext(s.(rented := loan), es[2]) == (s.(queue := [m]), None);
    assert PoolNext(s.(queue := [m]), es[3]) == (s.(rented := map[1 := m]), None);
    assert PoolNext(s.(rented := map[1 := m]), es[4]).1 == Some(StateOf(Pending));
    hide PoolNext;
    ByStates(es, [s, s.(rented := first), s.(rented := loan), s.(queue := [m]), s.(rented := map[1 := m])]);
  }

  // The answers of a run, given the states it passes through.
  lemma {:induction false} ByStates(es: seq<Event<Call>>, ss: seq<Pool<Positions>>)
    requires es != [] && |ss| == |es| && forall i :: 0 < i < |es| ==> ss[i] == PoolNext(ss[i - 1], es[i - 1]).0
    ensures PoolAfter(ss[0], es[..|es| - 1]) == ss[|es| - 1]
    ensures Answers(ss[0], es) == seq(|es|, i requires 0 <= i < |es| => PoolNext(ss[i], es[i]).1)
    decreases |es|
  {
    hide PoolNext;
    var n := |es| - 1;
    if n > 0 {
      ByStates(es[..n], ss[..n]);
      assert es[..n][..n - 1] == es[..n - 1];
      assert PoolAfter(ss[0], es[..n]) == PoolNext(ss[n - 1], es[n - 1]).0;
    }
  }

  // ---------- the queue itself

  predicate Distinct(loans: map<int, RentedUnify>) {
    forall i, j :: i in loans && j in loans && i != j ==> loans[i] != loans[j]
  }

  function DecodedAll(queue: seq<Positions>): seq<Positions> {
    seq(|queue|, i requires 0 <= i < |queue| => Decoded(queue[i]))
  }

  // `loans` are the maps out on loan, by name.
  class MapPool {
    const capacity: nat
    var alive: bool
    var queue: seq<Positions>

    ghost predicate Valid()
      reads this
    {
      |queue| <= capacity && forall i :: 0 <= i < |queue| ==> Encoded(queue[i])
    }

    ghost function State(loans: map<int, RentedUnify>): Pool<Positions>
      reads this, loans.Values
    {
      Pool(alive, capacity, DecodedAll(queue), map id | id in loans :: Decoded(loans[id].positions))
    }

    constructor (capacity: nat)
      ensures Valid() && alive && queue == [] && this.capacity == capacity
    {
      this.capacity := capacity;
      alive := true;
      queue := [];
    }

    // The map's part of `SerializerPool::get`.
    method Get(ghost id: int, ghost loans: map<int, RentedUnify>) returns (u: RentedUnify)
      requires Valid() && alive && id !in loans
      modifies this`queue
      ensures Valid() && fresh(u) && u.Valid()
      ensures if old(queue) == [] then
                u.positions == map[] && queue == []
              else
                u.positions == old(queue)[0] && queue == old(queue)[1..]
      ensures State(loans[id := u]) == PoolNext(old(State(loans)), RentEvent(id)).0
    {
      if queue == [] {
        u := new RentedUnify(map[]);
      } else {
        u := new RentedUnify(queue[0]);
        queue := queue[1..];
        assert DecodedAll(queue) == old(DecodedAll(queue))[1..];
      }
      assert State(loans[id := u]).rented == old(State(loans)).rented[id := Decoded(u.positions)];
    }

    // `RentedUnify::drop`: the map goes back uncleared, if the pool is still there and has room.
    method Drop(u: RentedUnify, ghost id: int, ghost loans: map<int, RentedUnify>)
      requires Valid() && u.Valid() && id in loans && loans[id] == u && Distinct(loans)
      modifies this`queue, u
      ensures Valid()
      ensures queue == if alive && |old(queue)| < capacity then old(queue) + [old(u.positions)] else old(queue)
      ensures State(loans - {id}) == PoolNext(old(State(loans)), ReturnEvent(id)).0
    {
      assert forall j :: j in loans && j != id ==> loans[j] != u;
      if alive && |queue| < capacity {
        queue := queue + [u.positions];
        assert DecodedAll(queue) == old(DecodedAll(queue)) + [Decoded(u.positions)];
        u.positions := map[];
      }
      assert State(loans - {id}).rented == old(State(loans)).rented - {id};
    }

    // The last reference to the pool goes.
    method End(ghost loans: map<int, RentedUnify>)
      requires Valid()
      modifies this`alive, this`queue
      ensures !alive && queue == []
      ensures Valid() && State(loans) == PoolNext(old(State(loans)), EndEvent).0
    {
      alive := false;
      queue := [];
    }

    // A call on a map out on loan.
    method Use(id: int, call: Call, loans: map<int, RentedUnify>) returns (r: Answer)
      requires Valid() && id in loans && loans[id].Valid() && Distinct(loans) && (call.FinishCall? ==> call.pos < WORD)
      modifies loans[id]
      ensures loans[id].Valid() && forall j :: j in loans && j != id ==> loans[j] != loans[id]
      ensures (State(loans), Some(r)) == PoolNext(old(State(loans)), UseEvent(id, call))
    {
      assert forall j :: j in loans && j != id ==> loans[j] != loans[id];
      match call {
        case StartCall(address) =>
          var state := loans[id].StartSharing(address);
          r := StateOf(state);
        case FinishCall(address, pos) =>
          var result := loans[id].FinishSharing(address, pos);
          r := ResultOf(result);
      }
      assert State(loans).rented == old(State(loans)).rented[id := Decoded(loans[id].positions)];
    }

    method Do(e: Event<Call>, loans: map<int, RentedUnify>) returns (r: Option<Answer>, loans': map<int, RentedUnify>)
      requires Valid() && Distinct(loans) && (forall id :: id in loans ==> loans[id].Valid()) && IsEvent(e)
      modifies this, loans.Values
      ensures Valid() && Distinct(loans') && fresh(loans'.Values - loans.Values) && forall id :: id in loans' ==> loans'[id].Valid()
      ensures (State(loans'), r) == PoolNext(old(State(loans)), e)
    {
      hide DecodedAll;
      hide Decoded;
      r, loans' := None, loans;
      match e {
        case RentEvent(id) =>
          if alive && id !in loans {
            var u := Get(id, loans);
            loans' := loans[id := u];
          }
        case UseEvent(id, call) =>
          if id in loans {
            var a := Use(id, call, loans);
            r := Some(a);
          }
        case ReturnEvent(id) =>
          if id in loans {
            Drop(loans[id], id, loans);
            loans' := loans - {id};
            assert forall j :: j in loans' ==> loans'[j] != loans[id];
          }
        case EndEvent =>
          End(loans);
      }
    }

    // Any users of a new pool, in any order: they get the answers of the transitions above, and a
    // map on loan is empty exactly if nothing was ever started on it, in this rental or an earlier
    // one.
    method Execute(es: seq<Event<Call>>) returns (answers: seq<Option<Answer>>, loans: map<int, RentedUnify>)
      requires Valid() && alive && queue == [] && forall e :: e in es ==> IsEvent(e)
      modifies this
      ensures Valid() && State(loans) == PoolAfter(NewPool(capacity), es) && answers == Answers(NewPool(capacity), es)
      ensures var l := LedgerAfter(NewPool(capacity), es);
              && l.rented.Keys == loans.Keys
              && forall id :: id in loans ==>
                   (Decoded(loans[id].positions) == map[] <==> forall c :: c in l.rented[id] ==> c.FinishCall?)
    {
      answers, loans := [], map[];
      ghost var s := NewPool(capacity);
      var i := 0;
      while i < |es|
        invariant Valid() && i <= |es| && Distinct(loans) && fresh(loans.Values)
        invariant forall id :: id in loans ==> loans[id].Valid()
        invariant State(loans) == PoolAfter(s, es[..i]) && answers == Answers(s, es[..i])
      {
        var r: Option<Answer>;
        r, loans := Do(es[i], loans);
        answers := answers + [r];
        assert es[..i + 1][..i] == es[..i];
        i := i + 1;
      }
      assert es[..i] == es;
      LedgerTells(capacity, es);
      ghost var l := LedgerAfter(NewPool(capacity), es);
      assert State(loans).rented.Keys == loans.Keys;
      forall id | id in loans
        ensures Decoded(loans[id].positions) == map[] <==> forall c :: c in l.rented[id] ==> c.FinishCall?
      {
        assert State(loans).rented[id] == After(map[], l.rented[id]);
        ReturnedMapIsEmptyIff(l.rented[id]);
      }
    }
  }

  predicate IsEvent(e: Event<Call>) {
    e.UseEvent? && e.call.FinishCall? ==> e.call.pos < WORD
  }
}
