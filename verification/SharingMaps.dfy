/**
 The serializer's map of shared addresses: which have been met, and where those already written
 ended up. Positions are kept as nonzero words, as the complement of the position.
 */
module SharingMaps {
  import opened Words
  import opened Bits

  datatype SharingState = Started | Pending | Finished(pos: nat)
  datatype FinishResult = Ok | NotStarted | AlreadyFinished | Panicked

  // An address is pending, or finished at a position.
  type Positions = map<nat, Option<nat>>

  function Start(m: Positions, address: nat): (Positions, SharingState) {
    if address !in m then
      (m[address := None], Started)
    else
      (m, if m[address].Some? then Finished(m[address].value) else Pending)
  }

  // The last word has no nonzero complement: that position panics.
  function Finish(m: Positions, address: nat, pos: nat): (Positions, FinishResult) {
    if address !in m then
      (m, NotStarted)
    else if m[address].Some? then
      (m, AlreadyFinished)
    else if pos == USIZE_MAX then
      (m, Panicked)
    else
      (m[address := Some(pos)], Ok)
  }

  // ---------- the encoding

  predicate Encoded(m: Positions) {
    forall a :: a in m && m[a].Some? ==> 0 < m[a].value < WORD
  }

  function Decoded(m: Positions): Positions {
    map a | a in m :: if m[a].Some? then Some(Xor(m[a].value, USIZE_MAX)) else None
  }

  lemma DecodedUpdate(m: Positions, address: nat, v: Option<nat>)
    ensures Decoded(m[address := v]) == Decoded(m)[address := if v.Some? then Some(Xor(v.value, USIZE_MAX)) else None]
  {}

  // `NonZeroUsize::new(pos ^ usize::MAX)`
  function Complement(pos: nat): Option<nat> {
    var x := Xor(pos, USIZE_MAX);
    if x == 0 then None else Some(x)
  }

  lemma ComplementRoundTrips(pos: nat)
    requires pos < WORD
    ensures Complement(pos).None? <==> pos == USIZE_MAX
    ensures Complement(pos).Some? ==> 0 < Complement(pos).value < WORD && Xor(Complement(pos).value, USIZE_MAX) == pos
  {
    XorMax(pos);
    XorMax(USIZE_MAX - pos);
  }

  // ---------- runs

  datatype Call = StartCall(address: nat) | FinishCall(address: nat, pos: nat)
  datatype Answer = StateOf(state: SharingState) | ResultOf(result: FinishResult)

  function Next(m: Positions, c: Call): (Positions, Answer) {
    match c
    case StartCall(address) =>
      var (m', s) := Start(m, address);
      (m', StateOf(s))
    case FinishCall(address, pos) =>
      var (m', r) := Finish(m, address, pos);
      (m', ResultOf(r))
  }

  function After(m: Positions, cs: seq<Call>): Positions {
    if cs == [] then m else Next(After(m, cs[..|cs| - 1]), cs[|cs| - 1]).0
  }

  // What call `i` of a run is answered.
  function AnswerAt(m: Positions, cs: seq<Call>, i: nat): Answer
    requires i < |cs|
  {
    Next(After(m, cs[..i]), cs[i]).1
  }

  predicate HasStarted(cs: seq<Call>, address: nat) {
    exists j :: 0 <= j < |cs| && cs[j] == StartCall(address)
  }

  // The `j`th call finished the address, successfully.
  predicate Finishes(cs: seq<Call>, j: int, address: nat)
  {
    0 <= j < |cs| && cs[j].FinishCall? && cs[j].address == address && AnswerAt(map[], cs, j) == ResultOf(Ok)
  }

  // After any run from an empty map, the map holds what the calls say: the addresses started,
  // each with the position of its successful finish.
  lemma {:induction false} MapTellsTheRun(cs: seq<Call>, address: nat)
    ensures var m := After(map[], cs);
            && (address in m <==> HasStarted(cs, address))
            && (address in m && m[address].Some? <==> exists j :: Finishes(cs, j, address))
            && (forall j :: Finishes(cs, j, address) ==> address in m && m[address] == Some(cs[j].pos))
  {
    if cs != [] {
      var n := |cs| - 1;
      var before, c := cs[..n], cs[n];
      MapTellsTheRun(before, address);
      forall j | 0 <= j < n
        ensures before[j] == cs[j] && (Finishes(before, j, address) <==> Finishes(cs, j, address))
      {
        assert before[..j] == cs[..j];
      }
      var m, m' := After(map[], before), After(map[], cs);
      assert m' == Next(m, c).0 && AnswerAt(map[], cs, n) == Next(m, c).1;
      LastCall(cs, address, m);
    }
  }

  // One more call.
  lemma LastCall(cs: seq<Call>, address: nat, m: Positions)
    requires cs != [] && m == After(map[], cs[..|cs| - 1])
    ensures var n, m' := |cs| - 1, After(map[], cs);
            && (address in m' <==> address in m || cs[n] == StartCall(address))
            && (address in m ==> m[address].Some? ==> m'[address] == m[address])
            && (Finishes(cs, n, address) <==> address in m' && m'[address].Some? && !(address in m && m[address].Some?))
            && (Finishes(cs, n, address) ==> m'[address] == Some(cs[n].pos))
  {
    var n := |cs| - 1;
    assert AnswerAt(map[], cs, n) == Next(m, cs[n]).1;
  }

  // Hence every address answers Started the first time, then Pending, then Finished with exactly
  // the position it was finished with.
  lemma StartAnswers(cs: seq<Call>, i: nat, j: nat)
    requires i < |cs| && cs[i].StartCall?
    ensures var a, r := cs[i].address, AnswerAt(map[], cs, i);
            && (r == StateOf(Started) <==> !HasStarted(cs[..i], a))
            && (r == StateOf(Pending) <==> HasStarted(cs[..i], a) && forall k :: !Finishes(cs[..i], k, a))
            && (Finishes(cs[..i], j, a) ==> r == StateOf(Finished(cs[j].pos)))
  {
    MapTellsTheRun(cs[..i], cs[i].address);
  }

  // And a finish succeeds exactly once per address, after a start.
  lemma FinishAnswers(cs: seq<Call>, i: nat)
    requires i < |cs| && cs[i].FinishCall?
    ensures var a, r := cs[i].address, AnswerAt(map[], cs, i);
            && (r == ResultOf(NotStarted) <==> !HasStarted(cs[..i], a))
            && (r == ResultOf(AlreadyFinished) <==> exists k :: Finishes(cs[..i], k, a))
            && (r == ResultOf(Panicked) <==>
                  HasStarted(cs[..i], a) && (forall k :: !Finishes(cs[..i], k, a)) && cs[i].pos == USIZE_MAX)
            && (r == ResultOf(Ok) <==>
                  HasStarted(cs[..i], a) && (forall k :: !Finishes(cs[..i], k, a)) && cs[i].pos != USIZE_MAX)
  {
    MapTellsTheRun(cs[..i], cs[i].address);
  }

  // ---------- rented maps

  // A rented map behaves like a new one over every run exactly when it is empty.
  lemma RentedLikeNewIffEmpty(m: Positions)
    ensures (forall cs: seq<Call>, i: nat :: i < |cs| ==> AnswerAt(m, cs, i) == AnswerAt(map[], cs, i)) <==> m == map[]
  {
    if m != map[] {
      assert m.Keys != {};
      var a := Pick(m.Keys);
      var cs := [StartCall(a)];
      assert cs[..0] == [];
      assert AnswerAt(map[], cs, 0) == StateOf(Started);
      assert AnswerAt(m, cs, 0) != StateOf(Started);
    }
  }

  lemma ReturnedMapIsEmptyIff(cs: seq<Call>)
    ensures After(map[], cs) == map[] <==> forall c :: c in cs ==> c.FinishCall?
  {
    var m := After(map[], cs);
    if m != map[] {
      assert m.Keys != {};
      var a := Pick(m.Keys);
      MapTellsTheRun(cs, a);
    }
    forall c | c in cs && c.StartCall?
      ensures m != map[]
    {
      MapTellsTheRun(cs, c.address);
      assert HasStarted(cs, c.address);
      assert c.address in m;
    }
  }

  // So a map that calls were made on is like new exactly when none of them started anything.
  lemma UsedLikeNewIff(calls: seq<Call>)
    ensures (forall cs: seq<Call>, i: nat :: i < |cs| ==> AnswerAt(After(map[], calls), cs, i) == AnswerAt(map[], cs, i))
            <==> forall c :: c in calls ==> c.FinishCall?
  {
    ReturnedMapIsEmptyIff(calls);
    RentedLikeNewIffEmpty(After(map[], calls));
  }

  // ---------- the map of one rental

  class RentedUnify {
    var positions: Positions

    ghost predicate Valid()
      reads this
    {
      Encoded(positions)
    }

    constructor (rented: Positions)
      requires Encoded(rented)
      ensures Valid() && positions == rented
    {
      positions := rented;
    }

    // `start_sharing`
    method StartSharing(address: nat) returns (r: SharingState)
      requires Valid()
      modifies this
      ensures Valid()
      ensures (Decoded(positions), r) == Start(old(Decoded(positions)), address)
    {
      if address !in positions {
        DecodedUpdate(positions, address, None);
        positions := positions[address := None];
        r := Started;
      } else if positions[address].Some? {
        r := Finished(Xor(positions[address].value, USIZE_MAX));
      } else {
        r := Pending;
      }
    }

    // `finish_sharing`
    method FinishSharing(address: nat, pos: nat) returns (r: FinishResult)
      requires Valid() && pos < WORD
      modifies this
      ensures Valid()
      ensures (Decoded(positions), r) == Finish(old(Decoded(positions)), address, pos)
    {
      hide Xor;
      if address !in positions {
        return NotStarted;
      }
      if positions[address].Some? {
        return AlreadyFinished;
      }
      ComplementRoundTrips(pos);
      var complement := Complement(pos);
      if complement.None? {
        return Panicked;
      }
      DecodedUpdate(positions, address, complement);
      positions := positions[address := complement];
      r := Ok;
    }
  }
}
