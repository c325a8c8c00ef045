/** What the life-cycle invariant says of every run of every number of threads. */
module LifecycleRuns {
  import opened Words
  import opened Lifecycle
  import opened LifecycleInvariant
  import opened LifecycleSteps

  // ---------- single steps, and runs of them

  lemma InitialInv(cfg: Config)
    ensures Inv(cfg, INITIAL)
  {
    assert Holders(INITIAL.threads) == {} && Destroyers(INITIAL.threads) == {};
    assert InvAt(cfg, INITIAL, map[]);
  }

  lemma ContinueStep(cfg: Config, s: State, p: Places, t: Id, h: Id) returns (p': Places)
    requires InvAt(cfg, s, p) && Enabled(cfg, s, t, Continue(h))
    ensures var o := DoContinue(cfg, s, t, h); o.Next? && InvAt(cfg, o.state, p')
  {
    p' := p;
    match TaskOf(s, t)
    case Idle =>
    case CloneCheck(_, _, _) => p' := CloneEnd(cfg, s, p, t, h);
    case ThawRead(_, _) => p' := ThawEnd(cfg, s, p, t, h);
    case Push(b, cap, after) =>
      if |s.queue| < cfg.queueCapacity {
        PushStep(cfg, s, p, t, h);
        p' := p[b := InQueue];
      } else {
        DropperStep(cfg, s, p, t, h);
      }
    case GuardFree(b, cap, holding, after) =>
      FreeStep(cfg, s, p, t, h);
      p' := p - {b};
    case ReleaseStrong(after) => ReleaseStep(cfg, s, p, t, h);
    case Drain => p' := DrainStep(cfg, s, p, t, h);
    case _ => DropperStep(cfg, s, p, t, h);
  }

  lemma OwnerStep(cfg: Config, s: State, p: Places, t: Id, a: Action) returns (p': Places)
    requires InvAt(cfg, s, p) && Enabled(cfg, s, t, a)
    requires a.Allocate? || a.Reallocate? || a.Write? || a.Read? || a.ShrinkToZero? || a.Share?
    ensures var o := Exec(cfg, s, t, a); o.Next? && InvAt(cfg, o.state, p')
  {
    hide InvAt;
    p' := p;
    match a
    case Allocate(h, b, bytes) =>
      AllocateStep(cfg, s, p, t, h, b, bytes);
      p' := p[b := Held({ByHandle(h)}, {})];
    case Reallocate(h, b, cap, tail) => p' := ReallocateStep(cfg, s, p, t, h, b, cap, tail);
    case Write(h, bytes, len) => WriteStep(cfg, s, p, t, h, bytes, len);
    case Read(h) => ReadStep(cfg, s, p, t, h);
    case ShrinkToZero(h) =>
      ShrinkToZeroStep(cfg, s, p, t, h);
      p' := p[s.handles[h].block := Dropping(t)];
    case Share(h) => ShareStep(cfg, s, p, t, h);
  }

  lemma OtherStep(cfg: Config, s: State, p: Places, t: Id, a: Action) returns (p': Places)
    requires ValidConfig(cfg) && InvAt(cfg, s, p) && Enabled(cfg, s, t, a)
    requires a.Clone? || a.TryUnique? || a.DropHandle? || a.Get? || a.DropPool? || a.Continue?
    ensures var o := Exec(cfg, s, t, a); o.Next? && InvAt(cfg, o.state, p')
  {
    hide InvAt;
    p' := p;
    match a
    case Clone(h) => p' := CloneStep(cfg, s, p, t, h);
    case TryUnique(h) => p' := TryUniqueStep(cfg, s, p, t, h);
    case DropHandle(h) => p' := DropHandleStep(cfg, s, p, t, h);
    case Get(h) => p' := GetStep(cfg, s, p, t, h);
    case DropPool => DropPoolStep(cfg, s, p, t);
    case Continue(h) => p' := ContinueStep(cfg, s, p, t, h);
  }

  // No enabled step touches a dead block, frees one twice, hands back a wrong layout or
  // releases the pool once too often; and every step keeps the invariant.
  lemma StepKeepsInv(cfg: Config, s: State, t: Id, a: Action)
    requires ValidConfig(cfg) && Inv(cfg, s) && Enabled(cfg, s, t, a)
    ensures Exec(cfg, s, t, a).Next? && Inv(cfg, Exec(cfg, s, t, a).state)
  {
    var p: Places :| InvAt(cfg, s, p);
    hide InvAt;
    hide Exec;
    var p': Places;
    if a.Allocate? || a.Reallocate? || a.Write? || a.Read? || a.ShrinkToZero? || a.Share? {
      p' := OwnerStep(cfg, s, p, t, a);
    } else {
      p' := OtherStep(cfg, s, p, t, a);
    }
    assert InvAt(cfg, Exec(cfg, s, t, a).state, p');
  }

  datatype Event = Event(thread: Id, action: Action)
  datatype Result = Reached(state: State) | NotEnabled | Faulted

  // The interleaving `run`, from `s`.
  function Run(cfg: Config, s: State, run: seq<Event>): Result
    decreases |run|
  {
    if run == [] then Reached(s)
    else if !Enabled(cfg, s, run[0].thread, run[0].action) then NotEnabled
    else
      match Exec(cfg, s, run[0].thread, run[0].action)
      case Fault => Faulted
      case Next(s') => Run(cfg, s', run[1..])
  }

  lemma {:induction false} RunKeepsInv(cfg: Config, s: State, run: seq<Event>)
    requires ValidConfig(cfg) && Inv(cfg, s)
    ensures !Run(cfg, s, run).Faulted?
    ensures Run(cfg, s, run).Reached? ==> Inv(cfg, Run(cfg, s, run).state)
    decreases |run|
  {
    if run != [] && Enabled(cfg, s, run[0].thread, run[0].action) {
      StepKeepsInv(cfg, s, run[0].thread, run[0].action);
      RunKeepsInv(cfg, Exec(cfg, s, run[0].thread, run[0].action).state, run[1..]);
    }
  }

  ghost predicate Reachable(cfg: Config, s: State) {
    exists run :: Run(cfg, INITIAL, run) == Reached(s)
  }

  lemma ReachableInv(cfg: Config, s: State)
    requires ValidConfig(cfg) && Reachable(cfg, s)
    ensures Inv(cfg, s)
  {
    var run :| Run(cfg, INITIAL, run) == Reached(s);
    InitialInv(cfg);
    RunKeepsInv(cfg, INITIAL, run);
  }

  // Whatever the interleaving, no step of it faults.
  lemma NoFault(cfg: Config, run: seq<Event>)
    requires ValidConfig(cfg)
    ensures !Run(cfg, INITIAL, run).Faulted?
  {
    InitialInv(cfg);
    RunKeepsInv(cfg, INITIAL, run);
  }

  // ---------- who refers to a block

  function HandlesOf(s: State, b: Id): set<Id> {
    set h | h in s.handles && s.handles[h].block == b
  }

  // Clones and thaws in flight.
  function PendingOf(s: State, b: Id): set<Id> {
    set t | t in s.threads && (s.threads[t].CloneCheck? || s.threads[t].ThawRead?) && s.threads[t].block == b
  }

  function DroppersOf(s: State, b: Id): set<Id> {
    set t | t in s.threads && IsDropper(s.threads[t]) && s.threads[t].block == b
  }

  function SlotsOf(s: State, b: Id): set<int> {
    set i | 0 <= i < |s.queue| && s.queue[i].block == b
  }

  function ByHandles(hs: set<Id>): set<Ref> { set h | h in hs :: ByHandle(h) }
  function ByThreads(ts: set<Id>): set<Ref> { set t | t in ts :: ByThread(t) }

  lemma {:induction false} ByHandlesSize(hs: set<Id>)
    ensures |ByHandles(hs)| == |hs|
  {
    if hs != {} {
      var h := Pick(hs);
      ByHandlesSize(hs - {h});
      assert ByHandles(hs) == ByHandles(hs - {h}) + {ByHandle(h)};
    }
  }

  lemma {:induction false} ByThreadsSize(ts: set<Id>)
    ensures |ByThreads(ts)| == |ts|
  {
    if ts != {} {
      var t := Pick(ts);
      ByThreadsSize(ts - {t});
      assert ByThreads(ts) == ByThreads(ts - {t}) + {ByThread(t)};
    }
  }

  lemma HeldRefs(cfg: Config, s: State, p: Places, b: Id)
    requires InvAt(cfg, s, p) && b in p && p[b].Held?
    ensures p[b].refs == ByHandles(HandlesOf(s, b)) + ByThreads(PendingOf(s, b) - p[b].doomed)
  {
    assert BlockOk(s, p, b);
    forall r
      ensures r in p[b].refs <==> r in ByHandles(HandlesOf(s, b)) + ByThreads(PendingOf(s, b) - p[b].doomed)
    {
      match r
      case ByHandle(h) =>
        assert r in p[b].refs ==> RefOk(s, b, r);
        if h in HandlesOf(s, b) {
          HandleKnown(cfg, s, p, h);
        }
      case ByThread(t) =>
        assert r in p[b].refs ==> RefOk(s, b, r);
        assert t in p[b].doomed ==> DoomedOk(s, b, t);
        if t in PendingOf(s, b) {
          TaskKnown(cfg, s, p, t);
        }
    }
  }

  lemma HeldSizes(cfg: Config, s: State, p: Places, b: Id)
    requires InvAt(cfg, s, p) && b in p && p[b].Held?
    ensures b in s.blocks && s.blocks[b].refCount == |HandlesOf(s, b)| + |PendingOf(s, b)|
    ensures 0 < |HandlesOf(s, b)| + |PendingOf(s, b)|
  {
    var doomed := p[b].doomed;
    assert BlockOk(s, p, b);
    HeldRefs(cfg, s, p, b);
    DoomedArePending(s, p, b);
    hide InvAt;
    hide RefOk;
    hide DoomedOk;
    ByHandlesSize(HandlesOf(s, b));
    ByThreadsSize(PendingOf(s, b) - doomed);
    hide HandlesOf;
    hide PendingOf;
    assert PendingOf(s, b) == (PendingOf(s, b) - doomed) + doomed;
    assert ByHandles(HandlesOf(s, b)) !! ByThreads(PendingOf(s, b) - doomed);
  }

  lemma DoomedArePending(s: State, p: Places, b: Id)
    requires BlockOk(s, p, b) && b in p && p[b].Held?
    ensures p[b].doomed <= PendingOf(s, b)
  {
    forall d | d in p[b].doomed
      ensures d in PendingOf(s, b)
    {
      assert DoomedOk(s, b, d);
    }
  }

  // Nobody but the owner of its place refers to a block.
  lemma NobodyElse(cfg: Config, s: State, p: Places, b: Id)
    requires InvAt(cfg, s, p)
    ensures b !in p || !p[b].Held? ==> HandlesOf(s, b) == {} && PendingOf(s, b) == {}
    ensures |DroppersOf(s, b)| == if b in p && p[b].Dropping? then 1 else 0
    ensures b !in p || !p[b].InQueue? ==> SlotsOf(s, b) == {}
  {
    NobodyHolds(cfg, s, p, b);
    OneDrops(cfg, s, p, b);
    if SlotsOf(s, b) != {} {
      var i := Pick(SlotsOf(s, b));
      assert SlotOk(cfg, s, p, s.queue[i]);
    }
  }

  lemma NobodyHolds(cfg: Config, s: State, p: Places, b: Id)
    requires InvAt(cfg, s, p)
    ensures b !in p || !p[b].Held? ==> HandlesOf(s, b) == {} && PendingOf(s, b) == {}
  {
    if HandlesOf(s, b) != {} {
      var h := Pick(HandlesOf(s, b));
      HandleKnown(cfg, s, p, h);
    }
    if PendingOf(s, b) != {} {
      var t := Pick(PendingOf(s, b));
      TaskKnown(cfg, s, p, t);
    }
  }

  lemma OneDrops(cfg: Config, s: State, p: Places, b: Id)
    requires InvAt(cfg, s, p)
    ensures DroppersOf(s, b) == if b in p && p[b].Dropping? then {p[b].thread} else {}
  {
    forall t | t in DroppersOf(s, b)
      ensures b in p && p[b] == Dropping(t)
    {
      TaskKnown(cfg, s, p, t);
    }
    assert BlockOk(s, p, b);
    if b in p && p[b].Dropping? {
      assert DropperOk(s, b, p[b].thread);
      assert DroppersOf(s, b) == {p[b].thread} by {
        assert p[b].thread in DroppersOf(s, b);
        assert forall t :: t in DroppersOf(s, b) ==> t == p[b].thread;
      }
    } else if DroppersOf(s, b) != {} {
      var t := Pick(DroppersOf(s, b));
    }
  }

  lemma QueuedOnce(cfg: Config, s: State, p: Places, b: Id)
    requires InvAt(cfg, s, p) && b in p && p[b].InQueue?
    ensures |SlotsOf(s, b)| == 1 && s.blocks[b].refCount == 1
  {
    assert BlockOk(s, p, b);
    var i :| 0 <= i < |s.queue| && s.queue[i].block == b;
    assert SlotOk(cfg, s, p, s.queue[i]);
    assert SlotsOf(s, b) == {i};
  }

  // ---------- what holds in every reachable state

  // A block that is not live is referred to by nobody. A live one is in exactly one place:
  // with its handles, with one thread that is dropping it, or in one slot of the queue.
  lemma OnePlace(cfg: Config, s: State, b: Id)
    requires ValidConfig(cfg) && Reachable(cfg, s)
    ensures (if HandlesOf(s, b) + PendingOf(s, b) != {} then 1 else 0) + |DroppersOf(s, b)| + |SlotsOf(s, b)|
         == if b in s.blocks then 1 else 0
  {
    ReachableInv(cfg, s);
    var p: Places :| InvAt(cfg, s, p);
    assert BlockOk(s, p, b);
    NobodyElse(cfg, s, p, b);
    if b in p && p[b].Held? {
      HeldSizes(cfg, s, p, b);
    } else if b in p && p[b].InQueue? {
      QueuedOnce(cfg, s, p, b);
    }
  }

  // While anybody holds the block, its count is the number of handles and of operations that
  // are making one; it did not wrap around.
  lemma CountIsHandles(cfg: Config, s: State, b: Id)
    requires ValidConfig(cfg) && Reachable(cfg, s)
    requires HandlesOf(s, b) + PendingOf(s, b) != {}
    ensures b in s.blocks && s.blocks[b].refCount == |HandlesOf(s, b)| + |PendingOf(s, b)| < WORD
  {
    ReachableInv(cfg, s);
    var p: Places :| InvAt(cfg, s, p);
    assert BlockOk(s, p, b);
    NobodyElse(cfg, s, p, b);
    HeldSizes(cfg, s, p, b);
  }

  // A unique handle is the only one: no other handle, no operation in flight, no queue slot.
  // Its capacity is the one in the header, and so the layout rebuilt from it is the block's.
  lemma UniqueIsExclusive(cfg: Config, s: State, h: Id)
    requires ValidConfig(cfg) && Reachable(cfg, s) && h in s.handles && s.handles[h].Unique?
    ensures var u := s.handles[h];
            && HandlesOf(s, u.block) == {h} && PendingOf(s, u.block) == {}
            && |DroppersOf(s, u.block)| == 0 && SlotsOf(s, u.block) == {}
            && u.block in s.blocks && s.blocks[u.block].refCount == 1
            && u.len <= u.cap == s.blocks[u.block].allocBufferSize == |s.blocks[u.block].bytes|
  {
    ReachableInv(cfg, s);
    var p: Places :| InvAt(cfg, s, p);
    var b := s.handles[h].block;
    HandleKnown(cfg, s, p, h);
    NobodyElse(cfg, s, p, b);
    HeldRefs(cfg, s, p, b);
    assert h in HandlesOf(s, b);
    forall h' | h' in HandlesOf(s, b)
      ensures h' == h
    {
      assert ByHandle(h') in p[b].refs;
    }
    if PendingOf(s, b) != {} {
      var t := Pick(PendingOf(s, b));
    }
  }

  // A drop sees the count 1, and goes on to dispose of the block, exactly when its handle was
  // the last reference; a thaw succeeds under the same condition.
  lemma LastReference(cfg: Config, s: State, t: Id, h: Id)
    requires ValidConfig(cfg) && Reachable(cfg, s) && Enabled(cfg, s, t, DropHandle(h))
    ensures var alone := HandlesOf(s, s.handles[h].block) == {h} && PendingOf(s, s.handles[h].block) == {};
            && (DoDropHandle(s, t, h).Next? && (TaskOf(DoDropHandle(s, t, h).state, t).DropLoad? <==> alone))
            && (s.handles[h].Shared? ==>
                  DoTryUnique(s, t, h).Next? && (TaskOf(DoTryUnique(s, t, h).state, t).ThawRead? <==> alone))
  {
    var b := s.handles[h].block;
    assert h in HandlesOf(s, b);
    CountIsHandles(cfg, s, b);
    if s.blocks[b].refCount == 1 {
      assert |HandlesOf(s, b) - {h}| == |HandlesOf(s, b)| - 1;
      assert HandlesOf(s, b) - {h} == {};
    }
  }

  // Every buffer waiting in the queue satisfies the retention policy, is counted once and
  // records its block's capacity; the queue never exceeds its bound.
  lemma QueueIsSound(cfg: Config, s: State, i: nat)
    requires ValidConfig(cfg) && Reachable(cfg, s) && i < |s.queue|
    ensures |s.queue| <= cfg.queueCapacity && cfg.shouldRetain(s.queue[i].cap)
    ensures Fits(s, s.queue[i].block, s.queue[i].cap) && s.blocks[s.queue[i].block].refCount == 1
  {
    ReachableInv(cfg, s);
    var p: Places :| InvAt(cfg, s, p);
    assert SlotOk(cfg, s, p, s.queue[i]);
  }

  predicate AllIdle(s: State) {
    forall t :: t in s.threads ==> s.threads[t] == Idle
  }

  lemma IdleIsEmpty(s: State)
    requires AllIdle(s)
    ensures Holders(s.threads) == {} && Destroyers(s.threads) == {}
  {
    if Holders(s.threads) != {} {
      var t := Pick(Holders(s.threads));
    }
    if Destroyers(s.threads) != {} {
      var t := Pick(Destroyers(s.threads));
    }
  }

  lemma NothingLeft(s: State, b: Id)
    requires AllIdle(s) && s.handles == map[] && s.queue == []
    ensures HandlesOf(s, b) == {} && PendingOf(s, b) == {} && DroppersOf(s, b) == {} && SlotsOf(s, b) == {}
  {
    if PendingOf(s, b) != {} {
      var t := Pick(PendingOf(s, b));
    }
    if DroppersOf(s, b) != {} {
      var t := Pick(DroppersOf(s, b));
    }
    if SlotsOf(s, b) != {} {
      var i := Pick(SlotsOf(s, b));
    }
  }

  // Once the pool and every handle are gone and no operation is in flight, every block ever
  // allocated has been freed.
  lemma NoLeak(cfg: Config, s: State)
    requires ValidConfig(cfg) && Reachable(cfg, s) && AllIdle(s) && s.handles == map[] && !s.owner
    ensures s.blocks == map[] && s.queue == [] && s.strong == 0 && s.allocs == s.frees
  {
    ReachableInv(cfg, s);
    var p: Places :| InvAt(cfg, s, p);
    IdleIsEmpty(s);
    assert s.queue == [];
    if s.blocks.Keys != {} {
      var b := Pick(s.blocks.Keys);
      NothingLeft(s, b);
      OnePlace(cfg, s, b);
    }
  }
}
