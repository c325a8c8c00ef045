/** Sharing freezes a block: until it is thawed or let go, its bytes, length and capacity stay. */
module LifecycleFreeze {
  import opened Words
  import opened Lifecycle
  import opened LifecycleInvariant
  import opened LifecycleSteps
  import opened LifecycleRuns

  // What the owner had when it shared the buffer.
  datatype Snapshot = Snapshot(len: nat, cap: nat, bytes: seq<Byte>)

  predicate BlockIs(s: State, b: Id, f: Snapshot) {
    b in s.blocks && s.blocks[b].allocBufferSize == f.cap && s.blocks[b].bytes == f.bytes
  }

  // Block `b` is as in `f`, and every handle of it, made or in the making, is shared with length `f.len`.
  predicate SharedAs(s: State, b: Id, f: Snapshot) {
    && BlockIs(s, b, f)
    && (forall h :: h in s.handles && s.handles[h].block == b ==> s.handles[h] == Shared(b, f.len))
    && (forall t :: t in s.threads && (s.threads[t].CloneCheck? || s.threads[t].ThawRead?) && s.threads[t].block == b ==>
                      s.threads[t].len == f.len)
  }

  predicate LetGo(s: State, b: Id) {
    HandlesOf(s, b) == {} && PendingOf(s, b) == {}
  }

  predicate Frozen(s: State, b: Id, f: Snapshot) {
    SharedAs(s, b, f) && !LetGo(s, b)
  }

  // A unique handle has the block back, with the length and capacity it had.
  predicate Thawed(s: State, b: Id, f: Snapshot) {
    BlockIs(s, b, f) && exists h :: h in s.handles && s.handles[h] == Unique(b, f.cap, f.len)
  }

  // A held block is in nobody else's hands.
  lemma HeldOnly(cfg: Config, s: State, b: Id)
    requires Inv(cfg, s) && !LetGo(s, b)
    ensures forall t :: t in s.threads && IsDropper(s.threads[t]) ==> s.threads[t].block != b
    ensures forall i :: 0 <= i < |s.queue| ==> s.queue[i].block != b
  {
    var p: Places :| InvAt(cfg, s, p);
    NobodyElse(cfg, s, p, b);
    forall t | t in s.threads && IsDropper(s.threads[t])
      ensures s.threads[t].block != b
    {
      TaskKnown(cfg, s, p, t);
    }
    forall i | 0 <= i < |s.queue|
      ensures s.queue[i].block != b
    {
      assert SlotOk(cfg, s, p, s.queue[i]);
    }
  }

  // Nothing but handle `h` and thread `t` changed, and neither breaks the freeze.
  lemma KeepsShared(s: State, s': State, b: Id, f: Snapshot, h: Id, t: Id)
    requires SharedAs(s, b, f) && BlockIs(s', b, f)
    requires SameBut(s.handles, s'.handles, h) && SameBut(s.threads, s'.threads, t)
    requires h in s'.handles && s'.handles[h].block == b ==> s'.handles[h] == Shared(b, f.len)
    requires var x := TaskOf(s', t); (x.CloneCheck? || x.ThawRead?) && x.block == b ==> x.len == f.len
    ensures SharedAs(s', b, f)
  {}

  lemma ContinueKeepsFrozen(cfg: Config, s: State, t: Id, h: Id, b: Id, f: Snapshot)
    requires Inv(cfg, s) && Enabled(cfg, s, t, Continue(h)) && Frozen(s, b, f)
    requires DoContinue(cfg, s, t, h).Next?
    ensures var s' := DoContinue(cfg, s, t, h).state; SharedAs(s', b, f) || Thawed(s', b, f)
  {
    HeldOnly(cfg, s, b);
    var s' := DoContinue(cfg, s, t, h).state;
    BlockStays(cfg, s, t, h, b, f);
    if TaskOf(s, t).ThawRead? && TaskOf(s, t).block == b {
      assert s'.handles[h] == Unique(b, f.cap, f.len);
    } else {
      ContinueFrame(cfg, s, t, h, b, f);
      KeepsShared(s, s', b, f, h, t);
    }
  }

  lemma BlockStays(cfg: Config, s: State, t: Id, h: Id, b: Id, f: Snapshot)
    requires Enabled(cfg, s, t, Continue(h)) && BlockIs(s, b, f) && DoContinue(cfg, s, t, h).Next?
    requires IsDropper(TaskOf(s, t)) ==> TaskOf(s, t).block != b
    ensures BlockIs(DoContinue(cfg, s, t, h).state, b, f)
  {}

  lemma ContinueFrame(cfg: Config, s: State, t: Id, h: Id, b: Id, f: Snapshot)
    requires Enabled(cfg, s, t, Continue(h)) && SharedAs(s, b, f) && DoContinue(cfg, s, t, h).Next?
    requires !(TaskOf(s, t).ThawRead? && TaskOf(s, t).block == b)
    ensures var s' := DoContinue(cfg, s, t, h).state;
            && SameBut(s.handles, s'.handles, h) && SameBut(s.threads, s'.threads, t)
            && (h in s'.handles && s'.handles[h].block == b ==> s'.handles[h] == Shared(b, f.len))
            && (var x := TaskOf(s', t); (x.CloneCheck? || x.ThawRead?) && x.block == b ==> x.len == f.len)
  {
    ContinueHandles(cfg, s, t, h);
    ContinueThread(cfg, s, t, h);
  }

  // A continuing thread touches one handle: the one a clone or a thaw makes.
  lemma ContinueHandles(cfg: Config, s: State, t: Id, h: Id)
    requires Enabled(cfg, s, t, Continue(h)) && DoContinue(cfg, s, t, h).Next?
    ensures var s', x := DoContinue(cfg, s, t, h).state, TaskOf(s, t);
            && SameBut(s.handles, s'.handles, h)
            && (h in s'.handles ==> (x.CloneCheck? && s'.handles[h] == Shared(x.block, x.len)) || (x.ThawRead? && s'.handles[h].block == x.block))
  {}

  // It starts no clone or thaw; a clone that aborts stays where it is.
  lemma ContinueThread(cfg: Config, s: State, t: Id, h: Id)
    requires Enabled(cfg, s, t, Continue(h)) && DoContinue(cfg, s, t, h).Next?
    ensures var s', x := DoContinue(cfg, s, t, h).state, TaskOf(s, t);
            && SameBut(s.threads, s'.threads, t)
            && (TaskOf(s', t).CloneCheck? || TaskOf(s', t).ThawRead? ==> TaskOf(s', t) == x)
  {}

  // The steps of a unique handle's owner are on another block.
  lemma OwnerKeepsFrozen(cfg: Config, s: State, t: Id, a: Action, b: Id, f: Snapshot)
    requires Inv(cfg, s) && Enabled(cfg, s, t, a) && Frozen(s, b, f) && Exec(cfg, s, t, a).Next?
    requires a.Allocate? || a.Reallocate? || a.Write? || a.Read? || a.ShrinkToZero? || a.Share?
    ensures SharedAs(Exec(cfg, s, t, a).state, b, f)
  {
    KeepsShared(s, Exec(cfg, s, t, a).state, b, f, a.handle, t);
  }

  lemma SharerKeepsFrozen(cfg: Config, s: State, t: Id, a: Action, b: Id, f: Snapshot)
    requires Inv(cfg, s) && Enabled(cfg, s, t, a) && Frozen(s, b, f) && Exec(cfg, s, t, a).Next?
    requires a.Clone? || a.TryUnique? || a.DropHandle?
    ensures SharedAs(Exec(cfg, s, t, a).state, b, f)
  {
    KeepsShared(s, Exec(cfg, s, t, a).state, b, f, a.handle, t);
  }

  lemma PoolKeepsFrozen(cfg: Config, s: State, t: Id, a: Action, b: Id, f: Snapshot)
    requires Inv(cfg, s) && Enabled(cfg, s, t, a) && Frozen(s, b, f) && Exec(cfg, s, t, a).Next?
    requires a.Get? || a.DropPool?
    ensures SharedAs(Exec(cfg, s, t, a).state, b, f)
  {
    HeldOnly(cfg, s, b);
    KeepsShared(s, Exec(cfg, s, t, a).state, b, f, if a.Get? then a.handle else 0, t);
  }

  lemma StepKeepsFrozen(cfg: Config, s: State, t: Id, a: Action, b: Id, f: Snapshot)
    requires ValidConfig(cfg) && Inv(cfg, s) && Enabled(cfg, s, t, a) && Frozen(s, b, f)
    requires Exec(cfg, s, t, a).Next?
    ensures var s' := Exec(cfg, s, t, a).state; SharedAs(s', b, f) || Thawed(s', b, f)
  {
    hide SharedAs;
    hide Thawed;
    if a.Continue? {
      ContinueKeepsFrozen(cfg, s, t, a.handle, b, f);
    } else if a.Get? || a.DropPool? {
      PoolKeepsFrozen(cfg, s, t, a, b, f);
    } else if a.Clone? || a.TryUnique? || a.DropHandle? {
      SharerKeepsFrozen(cfg, s, t, a, b, f);
    } else {
      OwnerKeepsFrozen(cfg, s, t, a, b, f);
    }
  }

  lemma NotPending(s: State, b: Id, t: Id)
    requires PendingOf(s, b) == {}
    ensures t in s.threads && (s.threads[t].CloneCheck? || s.threads[t].ThawRead?) ==> s.threads[t].block != b
  {
    assert t !in PendingOf(s, b);
  }

  lemma ShareFreezes(cfg: Config, s: State, t: Id, h: Id)
    requires ValidConfig(cfg) && Reachable(cfg, s) && Enabled(cfg, s, t, Share(h))
    ensures var u := s.handles[h];
            && u.block in s.blocks
            && Frozen(DoShare(s, h).state, u.block, Snapshot(u.len, u.cap, s.blocks[u.block].bytes))
  {
    var b := s.handles[h].block;
    var s' := DoShare(s, h).state;
    UniqueIsExclusive(cfg, s, h);
    assert h in HandlesOf(s', b);
    forall h' | h' in s'.handles && s'.handles[h'].block == b
      ensures h' == h
    {
      assert h' in HandlesOf(s, b);
    }
    forall t' | t' in s'.threads && (s'.threads[t'].CloneCheck? || s'.threads[t'].ThawRead?) && s'.threads[t'].block == b
      ensures false
    {
      NotPending(s, b, t');
    }
  }

  // Along any run from a frozen state, the first state that is not frozen, if there is one, is
  // one where the block has just been thawed with the bytes, length and capacity it had when it
  // was shared, or where its last reference has just been dropped.
  lemma {:induction false} FrozenUntilThawed(cfg: Config, s: State, run: seq<Event>, b: Id, f: Snapshot)
    requires ValidConfig(cfg) && Inv(cfg, s) && Frozen(s, b, f) && Run(cfg, s, run).Reached?
    ensures Frozen(Run(cfg, s, run).state, b, f) || FirstChange(cfg, s, run, b, f)
    decreases |run|
  {
    if run != [] {
      var Event(t, a) := run[0];
      StepKeepsInv(cfg, s, t, a);
      StepKeepsFrozen(cfg, s, t, a, b, f);
      var s1 := Exec(cfg, s, t, a).state;
      if Frozen(s1, b, f) {
        FrozenUntilThawed(cfg, s1, run[1..], b, f);
        if FirstChange(cfg, s1, run[1..], b, f) {
          var k :| ChangesAt(cfg, s1, run[1..], k, b, f);
          ShiftChange(cfg, s, run, k, b, f);
        }
      } else {
        assert run[..1] == [run[0]];
        assert Run(cfg, s, run[..0]) == Reached(s);
        assert ChangesAt(cfg, s, run, 1, b, f);
      }
    }
  }

  // After the first `k` events the block is no longer frozen, and it was until then.
  predicate ChangesAt(cfg: Config, s: State, run: seq<Event>, k: int, b: Id, f: Snapshot) {
    && 0 < k <= |run|
    && (var r := Run(cfg, s, run[..k]); r.Reached? && !Frozen(r.state, b, f) && (Thawed(r.state, b, f) || LetGo(r.state, b)))
    && (forall j :: 0 <= j < k ==> var r := Run(cfg, s, run[..j]); r.Reached? && Frozen(r.state, b, f))
  }

  predicate FirstChange(cfg: Config, s: State, run: seq<Event>, b: Id, f: Snapshot) {
    exists k :: 0 < k <= |run| && ChangesAt(cfg, s, run, k, b, f)
  }

  lemma ShiftChange(cfg: Config, s: State, run: seq<Event>, k: int, b: Id, f: Snapshot)
    requires run != [] && Enabled(cfg, s, run[0].thread, run[0].action)
    requires Frozen(s, b, f) && Exec(cfg, s, run[0].thread, run[0].action).Next?
    requires ChangesAt(cfg, Exec(cfg, s, run[0].thread, run[0].action).state, run[1..], k, b, f)
    ensures ChangesAt(cfg, s, run, k + 1, b, f)
  {
    var s1 := Exec(cfg, s, run[0].thread, run[0].action).state;
    forall j | 0 < j <= k + 1
      ensures Run(cfg, s, run[..j]) == Run(cfg, s1, run[1..][..j - 1])
    {
      assert run[..j][1..] == run[1..][..j - 1];
    }
    assert Run(cfg, s, run[..0]) == Reached(s);
    forall j | 0 <= j < k + 1
      ensures Run(cfg, s, run[..j]).Reached? && Frozen(Run(cfg, s, run[..j]).state, b, f)
    {
      if j > 0 {
        assert Run(cfg, s, run[..j]) == Run(cfg, s1, run[1..][..j - 1]);
      }
    }
  }

  // From the moment a buffer is shared, over any run of any threads: see `FrozenUntilThawed`.
  lemma ShareThenThaw(cfg: Config, s: State, t: Id, h: Id, run: seq<Event>)
    requires ValidConfig(cfg) && Reachable(cfg, s) && Enabled(cfg, s, t, Share(h))
    requires Run(cfg, DoShare(s, h).state, run).Reached?
    ensures var u := s.handles[h];
            && u.block in s.blocks
            && var f := Snapshot(u.len, u.cap, s.blocks[u.block].bytes);
               var s1 := DoShare(s, h).state;
               Frozen(Run(cfg, s1, run).state, u.block, f) || FirstChange(cfg, s1, run, u.block, f)
  {
    ReachableInv(cfg, s);
    StepKeepsInv(cfg, s, t, Share(h));
    ShareFreezes(cfg, s, t, h);
    var u := s.handles[h];
    FrozenUntilThawed(cfg, DoShare(s, h).state, run, u.block, Snapshot(u.len, u.cap, s.blocks[u.block].bytes));
  }
}
