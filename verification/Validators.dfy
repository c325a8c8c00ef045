/**
 The shared-pointer bookkeeping of archive validation, and the pool that recycles it. Each
 claimed address has the type it was claimed as, and whether its validation is finished.
 */
module Validators {
  import opened Rentals
  import opened Words

  type TypeId = nat
  type Claims = map<nat, (TypeId, bool)>

  datatype ValidationState = Started | Pending | Finished

  datatype Answer =
    | State(state: ValidationState)
    | Done
    | TypeMismatch(previous: TypeId, current: TypeId)
    | NotStarted
    | AlreadyFinished

  datatype Call = StartCall(address: nat, typeId: TypeId) | FinishCall(address: nat, typeId: TypeId)

  function Next(m: Claims, c: Call): (Claims, Answer) {
    match c
    case StartCall(address, typeId) =>
      if address !in m then
        (m[address := (typeId, false)], State(Started))
      else if m[address].0 != typeId then
        (m, TypeMismatch(m[address].0, typeId))
      else
        (m, State(if m[address].1 then Finished else Pending))
    case FinishCall(address, typeId) =>
      if address !in m then
        (m, NotStarted)
      else if m[address].0 != typeId then
        (m, TypeMismatch(m[address].0, typeId))
      else if m[address].1 then
        (m, AlreadyFinished)
      else
        (m[address := (typeId, true)], Done)
  }

  class SharedValidator {
    var shared: Claims

    constructor (shared: Claims)
      ensures this.shared == shared
    {
      this.shared := shared;
    }

    method StartShared(address: nat, typeId: TypeId) returns (r: Answer)
      modifies this
      ensures (shared, r) == Next(old(shared), StartCall(address, typeId))
    {
      if address !in shared {
        shared := shared[address := (typeId, false)];
        return State(Started);
      }
      var (previous, finished) := shared[address];
      if previous != typeId {
        r := TypeMismatch(previous, typeId);
      } else if !finished {
        r := State(Pending);
      } else {
        r := State(Finished);
      }
    }

    method FinishShared(address: nat, typeId: TypeId) returns (r: Answer)
      modifies this
      ensures (shared, r) == Next(old(shared), FinishCall(address, typeId))
    {
      if address !in shared {
        return NotStarted;
      }
      var (previous, finished) := shared[address];
      if previous != typeId {
        r := TypeMismatch(previous, typeId);
      } else if finished {
        r := AlreadyFinished;
      } else {
        shared := shared[address := (previous, true)];
        r := Done;
      }
    }

    method Clear()
      modifies this
      ensures shared == map[]
    {
      shared := map[];
    }
  }

  // ---------- one rental

  function After(m: Claims, cs: seq<Call>): Claims {
    if cs == [] then m else Next(After(m, cs[..|cs| - 1]), cs[|cs| - 1]).0
  }

  function AnswerAt(m: Claims, cs: seq<Call>, i: nat): Answer
    requires i < |cs|
  {
    Next(After(m, cs[..i]), cs[i]).1
  }

  predicate Starts(c: Call, address: nat) { c.StartCall? && c.address == address }

  // The call that claimed the address.
  predicate ClaimedBy(cs: seq<Call>, j: int, address: nat) {
    0 <= j < |cs| && Starts(cs[j], address) && forall k :: 0 <= k < j ==> !Starts(cs[k], address)
  }

  // The call that finished the address.
  predicate Finishes(cs: seq<Call>, j: int, address: nat) {
    0 <= j < |cs| && cs[j].FinishCall? && cs[j].address == address && AnswerAt(map[], cs, j) == Done
  }

  ghost predicate IsClaimed(cs: seq<Call>, address: nat) { exists j :: ClaimedBy(cs, j, address) }

  ghost predicate IsFinished(cs: seq<Call>, address: nat) { exists j :: Finishes(cs, j, address) }

  // After any calls on an empty map: the claimed addresses are those started, with the type of
  // the first start, and the finished ones those some call finished.
  lemma {:induction false} MapTellsTheRun(cs: seq<Call>, address: nat)
    ensures var m := After(map[], cs);
            && (address in m <==> IsClaimed(cs, address))
            && (forall j :: ClaimedBy(cs, j, address) ==> address in m && m[address].0 == cs[j].typeId)
            && (address in m && m[address].1 <==> IsFinished(cs, address))
  {
    if cs != [] {
      var before := cs[..|cs| - 1];
      MapTellsTheRun(before, address);
      OneCallMore(cs, address);
      LastCall(cs, address, After(map[], before));
    }
  }

  lemma OneCallMore(cs: seq<Call>, address: nat)
    requires cs != []
    ensures var n, before := |cs| - 1, cs[..|cs| - 1];
            && (forall j :: 0 <= j < n ==> (ClaimedBy(cs, j, address) <==> ClaimedBy(before, j, address)))
            && (IsClaimed(cs, address) <==> IsClaimed(before, address) || ClaimedBy(cs, n, address))
            && (IsFinished(cs, address) <==> IsFinished(before, address) || Finishes(cs, n, address))
  {
    var n, before := |cs| - 1, cs[..|cs| - 1];
    forall j | 0 <= j < n
      ensures ClaimedBy(before, j, address) <==> ClaimedBy(cs, j, address)
      ensures Finishes(before, j, address) <==> Finishes(cs, j, address)
    {
      assert before[..j] == cs[..j];
    }
  }

  lemma LastCall(cs: seq<Call>, address: nat, m: Claims)
    requires cs != [] && m == After(map[], cs[..|cs| - 1])
    requires address in m <==> IsClaimed(cs[..|cs| - 1], address)
    ensures var n, m' := |cs| - 1, After(map[], cs);
            && (ClaimedBy(cs, n, address) <==> address in m' && address !in m)
            && (address in m ==> address in m' && m'[address].0 == m[address].0 && (m[address].1 ==> m'[address].1))
            && (ClaimedBy(cs, n, address) ==> m'[address] == (cs[n].typeId, false))
            && (Finishes(cs, n, address) <==> address in m' && m'[address].1 && !(address in m && m[address].1))
  {
    var n := |cs| - 1;
    assert AnswerAt(map[], cs, n) == Next(m, cs[n]).1 && After(map[], cs) == Next(m, cs[n]).0;
    ClaimedLast(cs, address);
    hide ClaimedBy;
    hide IsClaimed;
    hide After;
  }

  // The last call claims an address exactly if nobody claimed it before.
  lemma ClaimedLast(cs: seq<Call>, address: nat)
    requires cs != []
    ensures var n := |cs| - 1; ClaimedBy(cs, n, address) <==> Starts(cs[n], address) && !IsClaimed(cs[..n], address)
  {
    var n := |cs| - 1;
    var before := cs[..n];
    if IsClaimed(before, address) {
      var j :| ClaimedBy(before, j, address);
      assert Starts(cs[j], address);
    } else {
      NobodyStarted(before, address);
      assert forall k :: 0 <= k < n ==> cs[k] == before[k];
    }
  }

  // If nobody claimed the address, nobody started it.
  lemma {:induction false} NobodyStarted(cs: seq<Call>, address: nat)
    requires !IsClaimed(cs, address)
    ensures forall k :: 0 <= k < |cs| ==> !Starts(cs[k], address)
  {
    if cs != [] {
      var before := cs[..|cs| - 1];
      OneCallMore(cs, address);
      NobodyStarted(before, address);
      assert !ClaimedBy(cs, |cs| - 1, address);
      assert forall k :: 0 <= k < |before| ==> cs[k] == before[k];
    }
  }

  // The claim decides every later start: another type is refused, the same is pending until a
  // call finishes the address.
  lemma StartAnswers(cs: seq<Call>, i: nat, j: nat)
    requires i < |cs| && cs[i].StartCall?
    ensures var a, t, r := cs[i].address, cs[i].typeId, AnswerAt(map[], cs, i);
            && (r == State(Started) <==> !IsClaimed(cs[..i], a))
            && (ClaimedBy(cs[..i], j, a) ==>
                  r == (if cs[j].typeId != t then TypeMismatch(cs[j].typeId, t)
                        else State(if IsFinished(cs[..i], a) then Finished else Pending)))
  {
    MapTellsTheRun(cs[..i], cs[i].address);
  }

  // And it decides every finish; an address is finished at most once.
  lemma FinishAnswers(cs: seq<Call>, i: nat, j: nat)
    requires i < |cs| && cs[i].FinishCall?
    ensures var a, t, r := cs[i].address, cs[i].typeId, AnswerAt(map[], cs, i);
            && (r == NotStarted <==> !IsClaimed(cs[..i], a))
            && (ClaimedBy(cs[..i], j, a) ==>
                  r == (if cs[j].typeId != t then TypeMismatch(cs[j].typeId, t)
                        else if IsFinished(cs[..i], a) then AlreadyFinished else Done))
  {
    MapTellsTheRun(cs[..i], cs[i].address);
  }

  // Whatever the map held, a claim keeps its type and a finish stays.
  lemma {:induction false} ClaimsStay(m: Claims, cs: seq<Call>, address: nat)
    requires address in m
    ensures var m' := After(m, cs);
            address in m' && m'[address].0 == m[address].0 && (m[address].1 ==> m'[address].1)
  {
    if cs != [] {
      ClaimsStay(m, cs[..|cs| - 1], address);
    }
  }

  // ---------- the pool

  // A map comes back cleared.
  function Cleared(m: Claims): Claims { map[] }

  function PoolNext(s: Pool<Claims>, e: Event<Call>): (Pool<Claims>, Option<Answer>) {
    Lend(s, e, map[], Cleared, Next)
  }

  // The same events without a pool: each rental is a brand-new validator.
  function FreshNext(alive: bool, rented: map<int, Claims>, e: Event<Call>): (map<int, Claims>, Option<Answer>) {
    match e
    case RentEvent(id) => (if !alive || id in rented then rented else rented[id := map[]], None)
    case UseEvent(id, call) =>
      if id !in rented then
        (rented, None)
      else
        var (m, r) := Next(rented[id], call);
        (rented[id := m], Some(r))
    case ReturnEvent(id) => (rented - {id}, None)
    case EndEvent => (rented, None)
  }

  function Answers(s: Pool<Claims>, es: seq<Event<Call>>): seq<Option<Answer>>
    decreases |es|
  {
    if es == [] then
      []
    else
      var (t, r) := PoolNext(s, es[0]);
      [r] + Answers(t, es[1..])
  }

  function FreshAnswers(alive: bool, rented: map<int, Claims>, es: seq<Event<Call>>): seq<Option<Answer>>
    decreases |es|
  {
    if es == [] then
      []
    else
      var (m, r) := FreshNext(alive, rented, es[0]);
      [r] + FreshAnswers(alive && !es[0].EndEvent?, m, es[1..])
  }

  predicate QueueIsClean(s: Pool<Claims>) {
    forall i :: 0 <= i < |s.queue| ==> s.queue[i] == map[]
  }

  // Pooling is invisible: over any rentals, uses and returns, interleaved in any way, also
  // around the end of the pool, every answer is that of a brand-new validator.
  lemma {:induction false} PooledIsFresh(s: Pool<Claims>, es: seq<Event<Call>>)
    requires QueueIsClean(s)
    ensures Answers(s, es) == FreshAnswers(s.alive, s.rented, es)
    decreases |es|
  {
    if es != [] {
      var (t, r) := PoolNext(s, es[0]);
      var (m, r') := FreshNext(s.alive, s.rented, es[0]);
      assert QueueIsClean(t);
      assert t.rented == m && r == r' && t.alive == (s.alive && !es[0].EndEvent?);
      PooledIsFresh(t, es[1..]);
    }
  }

  predicate Distinct(loans: map<int, SharedValidator>) {
    forall i, j :: i in loans && j in loans && i != j ==> loans[i] != loans[j]
  }

  // `loans` are the validators out on loan, by name; the pool itself does not know them.
  class ValidatorPool {
    const capacity: nat
    var alive: bool
    var queue: seq<Claims>

    // Every queued map is empty.
    ghost predicate Valid()
      reads this
    {
      |queue| <= capacity && forall i :: 0 <= i < |queue| ==> queue[i] == map[]
    }

    ghost function State(loans: map<int, SharedValidator>): Pool<Claims>
      reads this, loans.Values
    {
      Pool(alive, capacity, queue, map id | id in loans :: loans[id].shared)
    }

    constructor (capacity: nat)
      ensures Valid() && alive && queue == [] && this.capacity == capacity
    {
      this.capacity := capacity;
      alive := true;
      queue := [];
    }

    // A rented validator is as good as new.
    method Rent(ghost id: int, ghost loans: map<int, SharedValidator>) returns (v: SharedValidator)
      requires Valid() && alive && id !in loans
      modifies this`queue
      ensures Valid() && fresh(v) && v.shared == map[]
      ensures queue == if old(queue) == [] then [] else old(queue)[1..]
      ensures State(loans[id := v]) == PoolNext(old(State(loans)), RentEvent(id)).0
    {
      if queue == [] {
        v := new SharedValidator(map[]);
      } else {
        v := new SharedValidator(queue[0]);
        queue := queue[1..];
      }
      assert State(loans[id := v]).rented == old(State(loans)).rented[id := v.shared];
    }

    // The drop of a validator: its map is cleared and queued, if the pool is still there and has
    // room.
    method Return(v: SharedValidator, ghost id: int, ghost loans: map<int, SharedValidator>)
      requires Valid() && id in loans && loans[id] == v && Distinct(loans)
      modifies this`queue, v
      ensures Valid()
      ensures queue == if alive && |old(queue)| < capacity then old(queue) + [map[]] else old(queue)
      ensures State(loans - {id}) == PoolNext(old(State(loans)), ReturnEvent(id)).0
    {
      assert forall j :: j in loans && j != id ==> loans[j] != v;
      if alive {
        v.Clear();
        if |queue| < capacity {
          queue := queue + [v.shared];
          v.shared := map[];
        }
      }
      assert State(loans - {id}).rented == old(State(loans)).rented - {id};
    }

    // The last reference to the pool goes.
    method End(ghost loans: map<int, SharedValidator>)
      requires Valid()
      modifies this`alive, this`queue
      ensures !alive && queue == []
      ensures Valid() && State(loans) == PoolNext(old(State(loans)), EndEvent).0
    {
      alive := false;
      queue := [];
    }

    // Any users renting, using and returning validators and ending the pool, in any order: every
    // answer is that of brand-new validators.
    method Execute(es: seq<Event<Call>>) returns (answers: seq<Option<Answer>>)
      requires Valid()
      modifies this
      ensures Valid() && answers == FreshAnswers(old(alive), map[], es)
    {
      var loans: map<int, SharedValidator> := map[];
      answers := [];
      ghost var s := State(loans);
      var i := 0;
      while i < |es|
        invariant Valid() && i <= |es| && Distinct(loans) && fresh(loans.Values)
        invariant Answers(s, es) == answers + Answers(State(loans), es[i..])
      {
        ghost var before := State(loans);
        var r: Option<Answer>;
        r, loans := Do(es[i], loans);
        Unfold(before, es[i..]);
        assert answers + ([r] + Answers(State(loans), es[i..][1..])) == (answers + [r]) + Answers(State(loans), es[i..][1..]);
        assert es[i..][1..] == es[i + 1..];
        answers := answers + [r];
        i := i + 1;
      }
      assert answers + [] == answers;
      PooledIsFresh(s, es);
    }

    method Do(e: Event<Call>, loans: map<int, SharedValidator>) returns (r: Option<Answer>, loans': map<int, SharedValidator>)
      requires Valid() && Distinct(loans)
      modifies this, loans.Values
      ensures Valid() && Distinct(loans') && fresh(loans'.Values - loans.Values)
      ensures (State(loans'), r) == PoolNext(old(State(loans)), e)
    {
      r, loans' := None, loans;
      match e {
        case RentEvent(id) =>
          if alive && id !in loans {
            var v := Rent(id, loans);
            loans' := loans[id := v];
          }
        case UseEvent(id, call) =>
          if id in loans {
            assert forall j :: j in loans && j != id ==> loans[j] != loans[id];
            var a: Answer;
            match call {
              case StartCall(address, typeId) => a := loans[id].StartShared(address, typeId);
              case FinishCall(address, typeId) => a := loans[id].FinishShared(address, typeId);
            }
            r := Some(a);
            assert State(loans).rented == old(State(loans)).rented[id := loans[id].shared];
          }
        case ReturnEvent(id) =>
          if id in loans {
            Return(loans[id], id, loans);
            loans' := loans - {id};
          }
        case EndEvent =>
          End(loans);
      }
    }
  }

  lemma Unfold(s: Pool<Claims>, es: seq<Event<Call>>)
    requires es != []
    ensures Answers(s, es) == [PoolNext(s, es[0]).1] + Answers(PoolNext(s, es[0]).0, es[1..])
  {}
}
