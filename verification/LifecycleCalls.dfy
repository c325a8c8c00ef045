/** What a whole call comes to, when one thread takes its steps without interruption. */
module LifecycleCalls {
  import opened Words
  import opened Lifecycle
  import opened LifecycleInvariant
  import opened LifecycleRuns
  import LifecycleProgress

  predicate Continues(run: seq<Event>, t: Id) {
    forall i :: 0 <= i < |run| ==> run[i].thread == t && run[i].action.Continue?
  }

  // Thread `t`, going on with what it is doing, takes `s` to `s'`.
  ghost predicate GoesOn(cfg: Config, s: State, t: Id, s': State) {
    exists run :: Continues(run, t) && Run(cfg, s, run) == Reached(s')
  }

  // Thread `t` starts the call and ends it.
  ghost predicate Calls(cfg: Config, s: State, t: Id, a: Action, s': State) {
    && Enabled(cfg, s, t, a) && Exec(cfg, s, t, a).Next?
    && GoesOn(cfg, Exec(cfg, s, t, a).state, t, s') && TaskOf(s', t) == Idle
  }

  lemma CallIsRun(cfg: Config, s: State, t: Id, a: Action, s': State)
    requires Calls(cfg, s, t, a, s')
    ensures exists run :: run != [] && run[0] == Event(t, a) && Continues(run[1..], t) && Run(cfg, s, run) == Reached(s')
  {
    var rest :| Continues(rest, t) && Run(cfg, Exec(cfg, s, t, a).state, rest) == Reached(s');
    var run := [Event(t, a)] + rest;
    assert run[1..] == rest;
    assert Run(cfg, s, run) == Reached(s');
  }

  lemma CallKeepsInv(cfg: Config, s: State, t: Id, a: Action, s': State)
    requires ValidConfig(cfg) && Inv(cfg, s) && Calls(cfg, s, t, a, s')
    ensures Inv(cfg, s')
  {
    CallIsRun(cfg, s, t, a, s');
    var run :| Run(cfg, s, run) == Reached(s');
    RunKeepsInv(cfg, s, run);
  }

  lemma Rests(cfg: Config, s: State, t: Id)
    ensures GoesOn(cfg, s, t, s)
  {
    assert Continues([], t) && Run(cfg, s, []) == Reached(s);
  }

  lemma Onward(cfg: Config, s: State, t: Id, h: Id, s': State)
    requires Enabled(cfg, s, t, Continue(h)) && DoContinue(cfg, s, t, h).Next?
    requires GoesOn(cfg, DoContinue(cfg, s, t, h).state, t, s')
    ensures GoesOn(cfg, s, t, s')
  {
    var rest :| Continues(rest, t) && Run(cfg, DoContinue(cfg, s, t, h).state, rest) == Reached(s');
    var run := [Event(t, Continue(h))] + rest;
    assert run[1..] == rest;
    assert Exec(cfg, s, t, Continue(h)) == DoContinue(cfg, s, t, h);
    assert Continues(run, t) && Run(cfg, s, run) == Reached(s');
  }

  lemma GoesFurther(cfg: Config, s: State, t: Id, m: State, s': State)
    requires GoesOn(cfg, s, t, m) && GoesOn(cfg, m, t, s')
    ensures GoesOn(cfg, s, t, s')
  {
    var run :| Continues(run, t) && Run(cfg, s, run) == Reached(m);
    var rest :| Continues(rest, t) && Run(cfg, m, rest) == Reached(s');
    LifecycleProgress.RunAppend(cfg, s, run, rest);
    assert Continues(run + rest, t) && Run(cfg, s, run + rest) == Reached(s');
  }

  lemma SetTwice(s: State, t: Id, x: Task, y: Task)
    ensures SetTask(SetTask(s, t, x), t, y) == SetTask(s, t, y)
  {
    assert s.threads[t := x][t := y] == s.threads[t := y];
  }

  // ---------- giving a block back

  // The thread is in the middle of a call, and the name for its next step is free.
  predicate Ready(cfg: Config, s: State, t: Id, h: Id) {
    !s.aborted && 0 <= t < cfg.threads && h !in s.handles
  }

  // What becomes of a block with no references: queued exactly if the policy wants it, the pool
  // is there and the queue has room.
  function Disposed(cfg: Config, s: State, b: Id, cap: nat): State {
    if cfg.shouldRetain(cap) && 0 < s.strong && |s.queue| < cfg.queueCapacity then
      s.(queue := s.queue + [Pooled(b, cap)])
    else
      s.(blocks := s.blocks - {b}, frees := s.frees + 1)
  }

  lemma DisposedAlike(cfg: Config, s: State, t: Id, x: Task, y: Task, b: Id, cap: nat)
    ensures SetTask(Disposed(cfg, SetTask(s, t, x), b, cap), t, y) == SetTask(Disposed(cfg, s, b, cap), t, y)
  {
    assert Disposed(cfg, SetTask(s, t, x), b, cap) == SetTask(Disposed(cfg, s, b, cap), t, x);
    SetTwice(Disposed(cfg, s, b, cap), t, x, y);
  }

  // What one reference less makes of a block.
  function Dropped(cfg: Config, s: State, b: Id): State
    requires b in s.blocks
  {
    if s.blocks[b].refCount != 1 then
      SetCount(s, b, WrappingSub(s.blocks[b].refCount, 1))
    else
      Disposed(cfg, s, b, s.blocks[b].allocBufferSize)
  }

  lemma Releases(cfg: Config, s: State, t: Id, h: Id, after: After)
    requires Ready(cfg, s, t, h) && TaskOf(s, t) == ReleaseStrong(after) && 1 < s.strong
    ensures GoesOn(cfg, s, t, SetTask(s.(strong := s.strong - 1), t, Resume(after)))
  {
    hide GoesOn;
    Rests(cfg, SetTask(s.(strong := s.strong - 1), t, Resume(after)), t);
    Onward(cfg, s, t, h, SetTask(s.(strong := s.strong - 1), t, Resume(after)));
  }

  lemma Frees(cfg: Config, s: State, t: Id, h: Id, b: Id, cap: nat, holding: bool, after: After)
    requires Ready(cfg, s, t, h) && TaskOf(s, t) == GuardFree(b, cap, holding, after) && Fits(s, b, cap)
    requires holding ==> 1 < s.strong
    ensures GoesOn(cfg, s, t, SetTask(s.(blocks := s.blocks - {b}, frees := s.frees + 1,
                                         strong := if holding then s.strong - 1 else s.strong), t, Resume(after)))
  {
    hide GoesOn;
    var m := s.(blocks := s.blocks - {b}, frees := s.frees + 1);
    if holding {
      Releases(cfg, SetTask(m, t, ReleaseStrong(after)), t, h, after);
      SetTwice(m.(strong := s.strong - 1), t, ReleaseStrong(after), Resume(after));
      Onward(cfg, s, t, h, SetTask(m.(strong := s.strong - 1), t, Resume(after)));
    } else {
      Rests(cfg, SetTask(m, t, Resume(after)), t);
      Onward(cfg, s, t, h, SetTask(m, t, Resume(after)));
    }
  }

  // From the retention policy on: the four ways of a returned block.
  lemma Disposes(cfg: Config, s: State, t: Id, h: Id, b: Id, cap: nat, after: After)
    requires Ready(cfg, s, t, h) && TaskOf(s, t) == ShouldRetain(b, cap, after) && Fits(s, b, cap)
    ensures GoesOn(cfg, s, t, SetTask(Disposed(cfg, s, b, cap), t, Resume(after)))
  {
    hide GoesOn;
    var s' := SetTask(Disposed(cfg, s, b, cap), t, Resume(after));
    if !cfg.shouldRetain(cap) {
      var m := SetTask(s, t, GuardFree(b, cap, false, after));
      Frees(cfg, m, t, h, b, cap, false, after);
      DisposedAlike(cfg, s, t, GuardFree(b, cap, false, after), Resume(after), b, cap);
      Onward(cfg, s, t, h, s');
    } else {
      var m := SetTask(s, t, Upgrade(b, cap, after));
      Upgrades(cfg, m, t, h, b, cap, after);
      DisposedAlike(cfg, s, t, Upgrade(b, cap, after), Resume(after), b, cap);
      Onward(cfg, s, t, h, s');
    }
  }

  lemma Upgrades(cfg: Config, s: State, t: Id, h: Id, b: Id, cap: nat, after: After)
    requires Ready(cfg, s, t, h) && TaskOf(s, t) == Upgrade(b, cap, after) && Fits(s, b, cap) && cfg.shouldRetain(cap)
    ensures GoesOn(cfg, s, t, SetTask(Disposed(cfg, s, b, cap), t, Resume(after)))
  {
    hide GoesOn;
    var s' := SetTask(Disposed(cfg, s, b, cap), t, Resume(after));
    if 0 < s.strong {
      var m := SetTask(s.(strong := s.strong + 1), t, Push(b, cap, after));
      Pushes(cfg, m, t, h, b, cap, after);
      DisposedAlike(cfg, s, t, Push(b, cap, after), Resume(after), b, cap);
    } else {
      var m := SetTask(s, t, GuardFree(b, cap, false, after));
      Frees(cfg, m, t, h, b, cap, false, after);
      DisposedAlike(cfg, s, t, GuardFree(b, cap, false, after), Resume(after), b, cap);
    }
    Onward(cfg, s, t, h, s');
  }

  lemma Pushes(cfg: Config, s: State, t: Id, h: Id, b: Id, cap: nat, after: After)
    requires Ready(cfg, s, t, h) && TaskOf(s, t) == Push(b, cap, after) && Fits(s, b, cap)
    requires cfg.shouldRetain(cap) && 1 < s.strong
    ensures GoesOn(cfg, s, t, SetTask(Disposed(cfg, s, b, cap).(strong := s.strong - 1), t, Resume(after)))
  {
    hide GoesOn;
    var d := Disposed(cfg, s, b, cap).(strong := s.strong - 1);
    if |s.queue| < cfg.queueCapacity {
      var m := SetTask(Disposed(cfg, s, b, cap), t, ReleaseStrong(after));
      Releases(cfg, m, t, h, after);
      SetTwice(d, t, ReleaseStrong(after), Resume(after));
    } else {
      var m := SetTask(s, t, GuardFree(b, cap, true, after));
      Frees(cfg, m, t, h, b, cap, true, after);
      SetTwice(d, t, GuardFree(b, cap, true, after), Resume(after));
    }
    Onward(cfg, s, t, h, SetTask(d, t, Resume(after)));
  }

  lemma ReadsCap(cfg: Config, s: State, t: Id, h: Id, b: Id, after: After)
    requires Ready(cfg, s, t, h) && TaskOf(s, t) == DropReadCap(b, after)
    requires b in s.blocks && s.blocks[b].refCount == 1
    ensures GoesOn(cfg, s, t, SetTask(Disposed(cfg, s, b, s.blocks[b].allocBufferSize), t, Resume(after)))
  {
    var cap := s.blocks[b].allocBufferSize;
    hide GoesOn;
    hide Disposed;
    Disposes(cfg, SetTask(s, t, ShouldRetain(b, cap, after)), t, h, b, cap, after);
    DisposedAlike(cfg, s, t, ShouldRetain(b, cap, after), Resume(after), b, cap);
    Onward(cfg, s, t, h, SetTask(Disposed(cfg, s, b, cap), t, Resume(after)));
  }

  // After the `fetch_sub` of the last reference, which left the count 0.
  lemma LastGoes(cfg: Config, s: State, t: Id, h: Id, b: Id, after: After)
    requires Ready(cfg, s, t, h) && b in s.blocks && s.blocks[b].refCount == 1
    ensures GoesOn(cfg, SetTask(SetCount(s, b, 0), t, DropLoad(b, after)), t,
                   SetTask(Disposed(cfg, s, b, s.blocks[b].allocBufferSize), t, Resume(after)))
  {
    hide GoesOn;
    hide Disposed;
    var cap, zero := s.blocks[b].allocBufferSize, SetCount(s, b, 0);
    var s', stored := SetTask(Disposed(cfg, s, b, cap), t, Resume(after)), SetTask(s, t, DropReadCap(b, after));
    ReadsCap(cfg, stored, t, h, b, after);
    DisposedAlike(cfg, s, t, DropReadCap(b, after), Resume(after), b, cap);
    StoresOne(s, t, b, after);
    Onward(cfg, SetTask(zero, t, DropStore(b, after)), t, h, s');
    SetTwice(zero, t, DropLoad(b, after), DropStore(b, after));
    Onward(cfg, SetTask(zero, t, DropLoad(b, after)), t, h, s');
  }

  lemma StoresOne(s: State, t: Id, b: Id, after: After)
    requires b in s.blocks && s.blocks[b].refCount == 1
    ensures SetTask(SetCount(SetTask(SetCount(s, b, 0), t, DropStore(b, after)), b, 1), t, DropReadCap(b, after))
            == SetTask(s, t, DropReadCap(b, after))
  {
    SetTwice(s, t, DropStore(b, after), DropReadCap(b, after));
    assert s.blocks[b := s.blocks[b].(refCount := 0)][b := s.blocks[b]] == s.blocks;
  }

  // A reference less, by a call or by the teardown of the queue.
  lemma SubGoes(cfg: Config, s: State, t: Id, h: Id, b: Id, after: After)
    requires Ready(cfg, s, t, h) && b in s.blocks
    ensures FetchSub(s, t, b, after).Next?
    ensures GoesOn(cfg, FetchSub(s, t, b, after).state, t, SetTask(Dropped(cfg, s, b), t, Resume(after)))
  {
    hide GoesOn;
    if s.blocks[b].refCount == 1 {
      LastGoes(cfg, s, t, h, b, after);
    } else {
      Rests(cfg, FetchSub(s, t, b, after).state, t);
    }
  }

  // ---------- calls

  lemma DropCall(cfg: Config, s: State, t: Id, h: Id)
    requires Enabled(cfg, s, t, DropHandle(h)) && s.handles[h].block in s.blocks
    ensures Calls(cfg, s, t, DropHandle(h),
                  SetTask(Dropped(cfg, s.(handles := s.handles - {h}), s.handles[h].block), t, Idle))
  {
    hide GoesOn;
    SubGoes(cfg, s.(handles := s.handles - {h}), t, h, s.handles[h].block, Caller);
  }

  lemma GetCall(cfg: Config, s: State, t: Id, h: Id)
    requires Enabled(cfg, s, t, Get(h))
    ensures Calls(cfg, s, t, Get(h),
                  if s.queue == [] then s
                  else s.(queue := s.queue[1..], handles := s.handles[h := Unique(s.queue[0].block, s.queue[0].cap, 0)]))
  {
    hide GoesOn;
    Rests(cfg, DoGet(s, h).state, t);
  }

  // Shrinking to capacity 0 gives the handle up, and its block, with the count 1 it has, the way
  // of any returned block.
  lemma ShrinkToZeroCall(cfg: Config, s: State, t: Id, h: Id)
    requires Enabled(cfg, s, t, ShrinkToZero(h)) && Fits(s, s.handles[h].block, s.handles[h].cap)
    ensures var u := s.handles[h];
            Calls(cfg, s, t, ShrinkToZero(h), SetTask(Disposed(cfg, s.(handles := s.handles - {h}), u.block, u.cap), t, Idle))
  {
    hide GoesOn;
    var u, m := s.handles[h], s.(handles := s.handles - {h});
    Disposes(cfg, SetTask(m, t, ShouldRetain(u.block, u.cap, Caller)), t, h, u.block, u.cap, Caller);
    DisposedAlike(cfg, m, t, ShouldRetain(u.block, u.cap, Caller), Idle, u.block, u.cap);
  }

  // A clone below the limit: one more handle, and one more reference.
  lemma CloneCall(cfg: Config, s: State, t: Id, h: Id, x: Id)
    requires Enabled(cfg, s, t, Clone(h)) && x !in s.handles
    requires s.handles[h].block in s.blocks && s.blocks[s.handles[h].block].refCount <= MAX_REFCOUNT
    ensures var b := s.handles[h].block;
            Calls(cfg, s, t, Clone(h),
                  SetTask(SetCount(s.(handles := s.handles[x := s.handles[h]]), b, s.blocks[b].refCount + 1), t, Idle))
  {
    hide GoesOn;
    var b, len := s.handles[h].block, s.handles[h].len;
    var was := s.blocks[b].refCount;
    var m := SetCount(s, b, was + 1);
    assert WrappingAdd(was, 1) == was + 1;
    var s' := SetTask(m.(handles := s.handles[x := Shared(b, len)]), t, Idle);
    SetTwice(m.(handles := s.handles[x := Shared(b, len)]), t, CloneCheck(b, len, was), Idle);
    Rests(cfg, s', t);
    Onward(cfg, SetTask(m, t, CloneCheck(b, len, was)), t, x, s');
  }

  // A thaw of the only handle: a unique one, with the block's capacity.
  lemma ThawCall(cfg: Config, s: State, t: Id, h: Id, x: Id)
    requires Enabled(cfg, s, t, TryUnique(h)) && x !in s.handles - {h}
    requires s.handles[h].block in s.blocks && s.blocks[s.handles[h].block].refCount == 1
    ensures var b, len := s.handles[h].block, s.handles[h].len;
            Calls(cfg, s, t, TryUnique(h),
                  SetTask(s.(handles := (s.handles - {h})[x := Unique(b, s.blocks[b].allocBufferSize, len)]), t, Idle))
  {
    hide GoesOn;
    var b, len := s.handles[h].block, s.handles[h].len;
    var m := s.(handles := s.handles - {h});
    var s' := SetTask(m.(handles := m.handles[x := Unique(b, s.blocks[b].allocBufferSize, len)]), t, Idle);
    SetTwice(m.(handles := m.handles[x := Unique(b, s.blocks[b].allocBufferSize, len)]), t, ThawRead(b, len), Idle);
    Rests(cfg, s', t);
    Onward(cfg, SetTask(m, t, ThawRead(b, len)), t, x, s');
  }

  // Pooling pays off: a buffer that is the last of its block and the policy wants comes back, with
  // the same block and its bytes, from the next `get` of a pool with an empty queue; whether it
  // was dropped or shrunk to nothing.
  lemma ComesBack(cfg: Config, s: State, t: Id, h: Id, x: Id)
    requires ValidConfig(cfg) && Enabled(cfg, s, t, DropHandle(h)) && s.owner && 0 < s.strong && s.queue == []
    requires var u := s.handles[h];
             u.Unique? && Fits(s, u.block, u.cap) && s.blocks[u.block].refCount == 1 && cfg.shouldRetain(u.cap)
    requires x !in s.handles - {h}
    ensures var u := s.handles[h];
            var m := SetTask(s.(handles := s.handles - {h}, queue := [Pooled(u.block, u.cap)]), t, Idle);
            var s' := SetTask(s.(handles := (s.handles - {h})[x := Unique(u.block, u.cap, 0)]), t, Idle);
            && Calls(cfg, s, t, DropHandle(h), m)
            && (u.len == 0 ==> Calls(cfg, s, t, ShrinkToZero(h), m))
            && Calls(cfg, m, t, Get(x), s')
  {
    hide GoesOn;
    var u := s.handles[h];
    var m := SetTask(s.(handles := s.handles - {h}, queue := [Pooled(u.block, u.cap)]), t, Idle);
    assert [] + [Pooled(u.block, u.cap)] == [Pooled(u.block, u.cap)] && [Pooled(u.block, u.cap)][1..] == [];
    DropCall(cfg, s, t, h);
    if u.len == 0 {
      ShrinkToZeroCall(cfg, s, t, h);
    }
    GetCall(cfg, m, t, x);
  }

  function Queued(q: seq<Pooled>): set<Id> {
    set i | 0 <= i < |q| :: q[i].block
  }

  // The queued blocks are live, distinct and counted once.
  predicate QueueIsLive(s: State) {
    && (forall i :: 0 <= i < |s.queue| ==> s.queue[i].block in s.blocks && s.blocks[s.queue[i].block].refCount == 1)
    && (forall i, j :: 0 <= i < j < |s.queue| ==> s.queue[i].block != s.queue[j].block)
  }

  // The queue destroyed, with all the blocks in it.
  function Drained(s: State): State {
    s.(queue := [], blocks := s.blocks - Queued(s.queue), frees := s.frees + |s.queue|)
  }

  // One queued buffer less to destroy.
  lemma DrainedFurther(s: State, t: Id)
    requires s.queue != [] && QueueIsLive(s)
    ensures var b := s.queue[0].block;
            var m := SetTask(s.(queue := s.queue[1..], blocks := s.blocks - {b}, frees := s.frees + 1), t, Drain);
            QueueIsLive(m) && SetTask(Drained(m), t, Idle) == SetTask(Drained(s), t, Idle)
  {
    var b := s.queue[0].block;
    var m := s.(queue := s.queue[1..], blocks := s.blocks - {b}, frees := s.frees + 1);
    SetTwice(Drained(m), t, Drain, Idle);
    assert forall i :: 0 <= i < |m.queue| ==> m.queue[i] == s.queue[i + 1];
    assert Queued(s.queue) == {b} + Queued(m.queue);
    assert Drained(m).blocks == Drained(s).blocks;
  }

  lemma {:induction false} DrainGoes(cfg: Config, s: State, t: Id, h: Id)
    requires Ready(cfg, s, t, h) && TaskOf(s, t) == Drain && s.strong == 0 && QueueIsLive(s)
    ensures GoesOn(cfg, s, t, SetTask(Drained(s), t, Idle))
    decreases |s.queue|
  {
    hide GoesOn;
    if s.queue == [] {
      assert Queued(s.queue) == {};
      assert s.blocks - {} == s.blocks;
      Rests(cfg, SetTask(s, t, Idle), t);
    } else {
      var b, rest := s.queue[0].block, s.(queue := s.queue[1..]);
      var m := SetTask(rest.(blocks := s.blocks - {b}, frees := s.frees + 1), t, Drain);
      SubGoes(cfg, rest, t, h, b, Teardown);
      DrainedFurther(s, t);
      hide Drained;
      hide QueueIsLive;
      DrainGoes(cfg, m, t, h);
      GoesFurther(cfg, FetchSub(rest, t, b, Teardown).state, t, m, SetTask(Drained(s), t, Idle));
    }
    Onward(cfg, s, t, h, SetTask(Drained(s), t, Idle));
  }

  lemma DropPoolCall(cfg: Config, s: State, t: Id)
    requires Enabled(cfg, s, t, DropPool) && s.strong == 1 && QueueIsLive(s)
    ensures Calls(cfg, s, t, DropPool, SetTask(Drained(s.(owner := false, strong := 0)), t, Idle))
  {
    hide GoesOn;
    var h := LifecycleProgress.FreshId(s.handles.Keys);
    var m := s.(owner := false, strong := 0);
    DrainGoes(cfg, SetTask(m, t, Drain), t, h);
    SetTwice(Drained(m), t, Drain, Idle);
  }
}
