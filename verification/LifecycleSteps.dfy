/** Every enabled step keeps the invariant and does not fault. */
module LifecycleSteps {
  import opened Words
  import opened Lifecycle
  import opened LifecycleInvariant

  // Two maps agree except possibly at `k`.
  ghost predicate SameBut<V>(m: map<Id, V>, m': map<Id, V>, k: Id) {
    forall i :: i != k ==> (i in m <==> i in m') && (i in m ==> m[i] == m'[i])
  }

  predicate HasBlock(x: Task) { x.CloneCheck? || x.ThawRead? || IsDropper(x) }

  // The step changed at most block `b`, handle `h` and thread `t`, which concern only `b`.
  ghost predicate Local(s: State, s': State, p: Places, p': Places, b: Id, h: Id, t: Id) {
    && SameBut(s.blocks, s'.blocks, b) && SameBut(p, p', b)
    && SameBut(s.handles, s'.handles, h) && SameBut(s.threads, s'.threads, t)
    && (h in s.handles ==> s.handles[h].block == b) && (h in s'.handles ==> s'.handles[h].block == b)
    && (HasBlock(TaskOf(s, t)) ==> TaskOf(s, t).block == b)
    && (HasBlock(TaskOf(s', t)) ==> TaskOf(s', t).block == b)
  }

  // What must be shown of the parts that changed.
  ghost predicate LocalOk(cfg: Config, s': State, p': Places, b: Id, h: Id, t: Id) {
    && BlockOk(s', p', b)
    && (h in s'.handles ==> HandleOk(s', p', h, s'.handles[h]))
    && 0 <= t < cfg.threads && (HasBlock(TaskOf(s', t)) ==> TaskOk(cfg, s', p', t, TaskOf(s', t)))
  }

  // What must be shown of the other handles and threads that refer to `b`.
  ghost predicate OthersOk(cfg: Config, s': State, p': Places, b: Id, h: Id, t: Id) {
    && (forall h' :: h' in s'.handles && h' != h && s'.handles[h'].block == b ==> HandleOk(s', p', h', s'.handles[h']))
    && (forall t' :: t' in s'.threads && t' != t && HasBlock(s'.threads[t']) && s'.threads[t'].block == b ==>
                       TaskOk(cfg, s', p', t', s'.threads[t']))
  }

  lemma HandlesFrame(cfg: Config, s: State, s': State, p: Places, p': Places, b: Id, h: Id, t: Id)
    requires HandlesOk(s, p) && Local(s, s', p, p', b, h, t)
    requires LocalOk(cfg, s', p', b, h, t) && OthersOk(cfg, s', p', b, h, t)
    ensures HandlesOk(s', p')
  {
    forall h' | h' in s'.handles
      ensures HandleOk(s', p', h', s'.handles[h'])
    {
      if h' != h && s'.handles[h'].block != b {
        assert HandleOk(s, p, h', s.handles[h']);
      }
    }
  }

  lemma TasksFrame(cfg: Config, s: State, s': State, p: Places, p': Places, b: Id, h: Id, t: Id)
    requires TasksOk(cfg, s, p) && Local(s, s', p, p', b, h, t)
    requires LocalOk(cfg, s', p', b, h, t) && OthersOk(cfg, s', p', b, h, t)
    ensures TasksOk(cfg, s', p')
  {
    forall t' | t' in s'.threads
      ensures TaskOk(cfg, s', p', t', s'.threads[t'])
    {
      if t' != t {
        assert TaskOk(cfg, s, p, t', s.threads[t']);
      }
    }
  }

  // The queue as a set of blocks, apart from `b`.
  ghost predicate SameSlots(s: State, s': State, b: Id) {
    forall b' :: b' != b && Enqueued(s.queue, b') ==> Enqueued(s'.queue, b')
  }

  lemma BlocksFrame(cfg: Config, s: State, s': State, p: Places, p': Places, b: Id, h: Id, t: Id)
    requires BlocksOk(s, p) && Local(s, s', p, p', b, h, t) && SameSlots(s, s', b)
    requires LocalOk(cfg, s', p', b, h, t)
    ensures BlocksOk(s', p')
  {
    forall b'
      ensures BlockOk(s', p', b')
    {
      assert BlockOk(s, p, b');
    }
  }

  lemma QueueFrame(cfg: Config, s: State, s': State, p: Places, p': Places, b: Id)
    requires QueueOk(cfg, s, p) && SameBut(s.blocks, s'.blocks, b) && SameBut(p, p', b)
    requires b in p ==> p[b] != InQueue
    requires s'.queue == s.queue
    ensures QueueOk(cfg, s', p')
  {
    forall i | 0 <= i < |s'.queue|
      ensures SlotOk(cfg, s', p', s'.queue[i])
    {
      assert SlotOk(cfg, s, p, s.queue[i]);
    }
  }

  lemma LocalStep(cfg: Config, s: State, s': State, p: Places, p': Places, b: Id, h: Id, t: Id)
    requires InvAt(cfg, s, p) && Local(s, s', p, p', b, h, t)
    requires LocalOk(cfg, s', p', b, h, t) && OthersOk(cfg, s', p', b, h, t)
    requires s'.queue == s.queue && (b in p ==> p[b] != InQueue)
    requires PoolOk(s') && s'.allocs == s'.frees + |s'.blocks|
    ensures InvAt(cfg, s', p')
  {
    BlocksFrame(cfg, s, s', p, p', b, h, t);
    HandlesFrame(cfg, s, s', p, p', b, h, t);
    TasksFrame(cfg, s, s', p, p', b, h, t);
    QueueFrame(cfg, s, s', p, p', b);
  }

  // The block has no referrer besides handle `h` and thread `t`.
  predicate Lone(p: Places, b: Id, h: Id, t: Id) {
    b in p ==> p[b] in {Held({ByHandle(h)}, {}), Held({ByThread(t)}, {}), Dropping(t), InQueue}
  }

  lemma LoneOthers(cfg: Config, s: State, s': State, p: Places, p': Places, b: Id, h: Id, t: Id)
    requires HandlesOk(s, p) && TasksOk(cfg, s, p) && Local(s, s', p, p', b, h, t) && Lone(p, b, h, t)
    ensures OthersOk(cfg, s', p', b, h, t)
  {
    forall h' | h' in s'.handles && h' != h
      ensures s'.handles[h'].block != b
    {
      assert HandleOk(s, p, h', s.handles[h']);
    }
    forall t' | t' in s'.threads && t' != t && HasBlock(s'.threads[t'])
      ensures s'.threads[t'].block != b
    {
      assert TaskOk(cfg, s, p, t', s.threads[t']);
    }
  }

  // The other references of a shared block survive when only `h` and `t` come or go.
  lemma SharedOthers(cfg: Config, s: State, s': State, p: Places, p': Places, b: Id, h: Id, t: Id)
    requires HandlesOk(s, p) && TasksOk(cfg, s, p) && Local(s, s', p, p', b, h, t)
    requires b in p && p[b].Held? && (ByHandle(h) in p[b].refs || ByThread(t) in p[b].refs)
    requires b in p' && p'[b].Held? && p[b].refs - {ByHandle(h), ByThread(t)} <= p'[b].refs && p[b].doomed <= p'[b].doomed
    requires b in s.blocks && b in s'.blocks && s'.blocks[b].allocBufferSize == s.blocks[b].allocBufferSize
    ensures OthersOk(cfg, s', p', b, h, t)
  {
    forall h' | h' in s'.handles && h' != h && s'.handles[h'].block == b
      ensures HandleOk(s', p', h', s'.handles[h'])
    {
      assert HandleOk(s, p, h', s.handles[h']);
    }
    forall t' | t' in s'.threads && t' != t && HasBlock(s'.threads[t']) && s'.threads[t'].block == b
      ensures TaskOk(cfg, s', p', t', s'.threads[t'])
    {
      assert TaskOk(cfg, s, p, t', s.threads[t']);
    }
  }

  // The two shapes of a step on block `b`: nobody else refers to it, or the others stay.
  lemma LoneStep(cfg: Config, s: State, s': State, p: Places, p': Places, b: Id, h: Id, t: Id)
    requires InvAt(cfg, s, p) && Local(s, s', p, p', b, h, t) && Lone(p, b, h, t)
    requires LocalOk(cfg, s', p', b, h, t)
    requires s'.queue == s.queue && (b in p ==> p[b] != InQueue)
    requires PoolOk(s') && s'.allocs == s'.frees + |s'.blocks|
    ensures InvAt(cfg, s', p')
  {
    LoneOthers(cfg, s, s', p, p', b, h, t);
    LocalStep(cfg, s, s', p, p', b, h, t);
  }

  lemma SharedStep(cfg: Config, s: State, s': State, p: Places, p': Places, b: Id, h: Id, t: Id)
    requires InvAt(cfg, s, p) && Local(s, s', p, p', b, h, t)
    requires b in p && p[b].Held? && (ByHandle(h) in p[b].refs || ByThread(t) in p[b].refs)
    requires b in p' && p'[b].Held? && p[b].refs - {ByHandle(h), ByThread(t)} <= p'[b].refs && p[b].doomed <= p'[b].doomed
    requires b in s.blocks && b in s'.blocks && s'.blocks[b].allocBufferSize == s.blocks[b].allocBufferSize
    requires LocalOk(cfg, s', p', b, h, t)
    requires s'.queue == s.queue
    requires PoolOk(s') && s'.allocs == s'.frees + |s'.blocks|
    ensures InvAt(cfg, s', p')
  {
    SharedOthers(cfg, s, s', p, p', b, h, t);
    LocalStep(cfg, s, s', p, p', b, h, t);
  }

  lemma HandleKnown(cfg: Config, s: State, p: Places, h: Id)
    requires InvAt(cfg, s, p) && h in s.handles
    ensures HandleOk(s, p, h, s.handles[h]) && BlockOk(s, p, s.handles[h].block)
  {}

  lemma TaskKnown(cfg: Config, s: State, p: Places, t: Id)
    requires InvAt(cfg, s, p) && t in s.threads
    ensures TaskOk(cfg, s, p, t, s.threads[t]) && (HasBlock(s.threads[t]) ==> BlockOk(s, p, s.threads[t].block))
  {}

  // ---------- steps of a unique handle's owner

  // A block nobody refers to, and a unique handle of it, appear.
  function GiveBlock(s: State, h: Id, b: Id, bytes: seq<Byte>, len: nat): State {
    s.(blocks := s.blocks[b := Block(1, |bytes|, bytes)],
       handles := s.handles[h := Unique(b, |bytes|, len)],
       allocs := s.allocs + 1)
  }

  lemma AdoptLocal(cfg: Config, s: State, p: Places, t: Id, h: Id, b: Id, bytes: seq<Byte>, len: nat)
    requires BlockOk(s, p, b) && h !in s.handles && b !in s.blocks && len <= |bytes|
    requires 0 <= t < cfg.threads && !HasBlock(TaskOf(s, t))
    ensures var s' := GiveBlock(s, h, b, bytes, len);
            var p' := p[b := Held({ByHandle(h)}, {})];
            Local(s, s', p, p', b, h, t) && LocalOk(cfg, s', p', b, h, t) && Lone(p, b, h, t)
  {
    var s' := GiveBlock(s, h, b, bytes, len);
    assert RefOk(s', b, ByHandle(h));
  }

  lemma Adopt(cfg: Config, s: State, p: Places, t: Id, h: Id, b: Id, bytes: seq<Byte>, len: nat)
    requires InvAt(cfg, s, p) && h !in s.handles && b !in s.blocks && len <= |bytes|
    requires 0 <= t < cfg.threads && !HasBlock(TaskOf(s, t))
    ensures InvAt(cfg, GiveBlock(s, h, b, bytes, len), p[b := Held({ByHandle(h)}, {})])
  {
    var s' := GiveBlock(s, h, b, bytes, len);
    assert BlockOk(s, p, b);
    AdoptLocal(cfg, s, p, t, h, b, bytes, len);
    assert s'.blocks.Keys == s.blocks.Keys + {b};
    LoneStep(cfg, s, s', p, p[b := Held({ByHandle(h)}, {})], b, h, t);
  }

  lemma AllocateStep(cfg: Config, s: State, p: Places, t: Id, h: Id, b: Id, bytes: seq<Byte>)
    requires InvAt(cfg, s, p) && Enabled(cfg, s, t, Allocate(h, b, bytes))
    ensures InvAt(cfg, DoAllocate(s, h, b, bytes).state, p[b := Held({ByHandle(h)}, {})])
  {
    Adopt(cfg, s, p, t, h, b, bytes, 0);
  }

  // A unique handle and its block disappear.
  lemma Disown(cfg: Config, s: State, p: Places, t: Id, h: Id)
    requires InvAt(cfg, s, p) && h in s.handles && s.handles[h].Unique?
    requires 0 <= t < cfg.threads && !HasBlock(TaskOf(s, t))
    ensures InvAt(cfg, s.(blocks := s.blocks - {s.handles[h].block}, handles := s.handles - {h}, frees := s.frees + 1),
                  p - {s.handles[h].block})
  {
    var b := s.handles[h].block;
    var s' := s.(blocks := s.blocks - {b}, handles := s.handles - {h}, frees := s.frees + 1);
    var p' := p - {b};
    HandleKnown(cfg, s, p, h);
    assert |s.blocks| == |s'.blocks| + 1 by {
      assert s.blocks.Keys == s'.blocks.Keys + {b};
    }
    DisownLocal(cfg, s, s', p, t, h);
    LoneStep(cfg, s, s', p, p', b, h, t);
  }

  lemma DisownLocal(cfg: Config, s: State, s': State, p: Places, t: Id, h: Id)
    requires h in s.handles && 0 <= t < cfg.threads && !HasBlock(TaskOf(s, t))
    requires s' == s.(blocks := s.blocks - {s.handles[h].block}, handles := s.handles - {h}, frees := s.frees + 1)
    ensures var b := s.handles[h].block; Local(s, s', p, p - {b}, b, h, t) && LocalOk(cfg, s', p - {b}, b, h, t)
  {}

  lemma ReallocateStep(cfg: Config, s: State, p: Places, t: Id, h: Id, b: Id, cap: nat, tail: seq<Byte>) returns (p': Places)
    requires InvAt(cfg, s, p) && Enabled(cfg, s, t, Reallocate(h, b, cap, tail))
    ensures var o := DoReallocate(s, h, b, cap, tail); o.Next? && InvAt(cfg, o.state, p')
  {
    var was := s.handles[h];
    HandleKnown(cfg, s, p, h);
    p' := p;
    if cap != was.cap {
      var mid := s.(blocks := s.blocks - {was.block}, handles := s.handles - {h}, frees := s.frees + 1);
      Disown(cfg, s, p, t, h);
      var bytes := s.blocks[was.block].bytes[..if cap < was.cap then cap else was.cap] + tail;
      assert mid.handles[h := Unique(b, cap, was.len)] == s.handles[h := Unique(b, cap, was.len)];
      Adopt(cfg, mid, p - {was.block}, t, h, b, bytes, was.len);
      p' := (p - {was.block})[b := Held({ByHandle(h)}, {})];
    }
  }

  lemma WriteStep(cfg: Config, s: State, p: Places, t: Id, h: Id, bytes: seq<Byte>, len: nat)
    requires InvAt(cfg, s, p) && Enabled(cfg, s, t, Write(h, bytes, len))
    ensures var o := DoWrite(s, h, bytes, len); o.Next? && InvAt(cfg, o.state, p)
  {
    var b := s.handles[h].block;
    HandleKnown(cfg, s, p, h);
    var s' := DoWrite(s, h, bytes, len).state;
    assert s'.blocks.Keys == s.blocks.Keys;
    LoneStep(cfg, s, s', p, p, b, h, t);
  }

  lemma ReadStep(cfg: Config, s: State, p: Places, t: Id, h: Id)
    requires InvAt(cfg, s, p) && Enabled(cfg, s, t, Read(h))
    ensures DoRead(s, h) == Next(s)
  {
    HandleKnown(cfg, s, p, h);
  }

  lemma ShrinkToZeroStep(cfg: Config, s: State, p: Places, t: Id, h: Id)
    requires InvAt(cfg, s, p) && Enabled(cfg, s, t, ShrinkToZero(h))
    ensures var o, u := DoShrinkToZero(s, t, h), s.handles[h];
            && o.Next? && InvAt(cfg, o.state, p[u.block := Dropping(t)])
            && TaskOf(o.state, t) == ShouldRetain(u.block, u.cap, Caller) && h !in o.state.handles
  {
    var b := s.handles[h].block;
    HandleKnown(cfg, s, p, h);
    var s' := DoShrinkToZero(s, t, h).state;
    SetTaskPool(s, t, s'.threads[t]);
    LoneStep(cfg, s, s', p, p[b := Dropping(t)], b, h, t);
  }

  lemma ShareStep(cfg: Config, s: State, p: Places, t: Id, h: Id)
    requires InvAt(cfg, s, p) && Enabled(cfg, s, t, Share(h))
    ensures InvAt(cfg, DoShare(s, h).state, p)
  {
    var b := s.handles[h].block;
    HandleKnown(cfg, s, p, h);
    LoneStep(cfg, s, DoShare(s, h).state, p, p, b, h, t);
  }

  // ---------- steps on shared handles

  lemma IdleHasNoRef(s: State, p: Places, t: Id, b: Id)
    requires BlockOk(s, p, b) && b in p && p[b].Held? && TaskOf(s, t) == Idle
    ensures ByThread(t) !in p[b].refs && t !in p[b].doomed
  {
    assert !RefOk(s, b, ByThread(t)) && !DoomedOk(s, b, t);
  }

  // An idle thread becomes one more clone of a held block, doomed or not.
  function WithClone(place: Place, t: Id, seen: nat): Place
    requires place.Held?
  {
    if seen <= MAX_REFCOUNT then place.(refs := place.refs + {ByThread(t)})
    else place.(doomed := place.doomed + {t})
  }

  lemma CloneCount(s: State, s': State, p: Places, t: Id, b: Id, len: nat)
    requires BlockOk(s, p, b) && b in p && p[b].Held? && TaskOf(s, t) == Idle && |p[b].doomed| < ISIZE_MAX
    requires s' == SetTask(SetCount(s, b, s.blocks[b].refCount + 1), t, CloneCheck(b, len, s.blocks[b].refCount))
    ensures BlockOk(s', p[b := WithClone(p[b], t, s.blocks[b].refCount)], b)
  {
    IdleHasNoRef(s, p, t, b);
    var place := WithClone(p[b], t, s.blocks[b].refCount);
    assert |place.refs| + |place.doomed| == |p[b].refs| + |p[b].doomed| + 1;
    forall r | r in p[b].refs
      ensures RefOk(s', b, r)
    {
      assert RefOk(s, b, r);
    }
  }

  lemma CloneStep(cfg: Config, s: State, p: Places, t: Id, h: Id) returns (p': Places)
    requires ValidConfig(cfg) && InvAt(cfg, s, p) && Enabled(cfg, s, t, Clone(h))
    ensures var o := DoClone(s, t, h); o.Next? && InvAt(cfg, o.state, p')
  {
    var b := s.handles[h].block;
    HandleKnown(cfg, s, p, h);
    DoomedBound(cfg, s, p, t, b);
    var s' := DoClone(s, t, h).state;
    assert WrappingAdd(s.blocks[b].refCount, 1) == s.blocks[b].refCount + 1;
    p' := p[b := WithClone(p[b], t, s.blocks[b].refCount)];
    CloneCount(s, s', p, t, b, s.handles[h].len);
    assert PoolOk(s') by { SetTaskPool(s, t, s'.threads[t]); }
    CloneLocal(cfg, s, s', p, p', t, h, b);
  }

  lemma CloneLocal(cfg: Config, s: State, s': State, p: Places, p': Places, t: Id, h: Id, b: Id)
    requires InvAt(cfg, s, p) && h in s.handles && HandleOk(s, p, h, s.handles[h]) && b == s.handles[h].block
    requires 0 <= t < cfg.threads && TaskOf(s, t) == Idle
    requires s' == SetTask(SetCount(s, b, s.blocks[b].refCount + 1), t, CloneCheck(b, s.handles[h].len, s.blocks[b].refCount))
    requires s.handles[h].Shared? && p' == p[b := WithClone(p[b], t, s.blocks[b].refCount)]
    requires BlockOk(s', p', b) && PoolOk(s')
    ensures InvAt(cfg, s', p')
  {
    assert s'.blocks.Keys == s.blocks.Keys;
    assert SameBut(s.blocks, s'.blocks, b);
    assert SameBut(p, p', b);
    assert SameBut(s.threads, s'.threads, t);
    SharedStep(cfg, s, s', p, p', b, h, t);
  }

  // A count of 1 means there is no reference besides this one.
  lemma OneMeansAlone(s: State, p: Places, b: Id, r: Ref)
    requires BlockOk(s, p, b) && HeldBy(p, b, r)
    ensures 1 <= s.blocks[b].refCount
    ensures s.blocks[b].refCount == 1 ==> p[b] == Held({r}, {})
  {
    var Held(refs, doomed) := p[b];
    assert refs == {r} + (refs - {r});
    assert |refs| == 1 + |refs - {r}|;
  }

  // The handle is consumed exactly if it is the block's only reference; else nothing changes.
  lemma TryUniqueStep(cfg: Config, s: State, p: Places, t: Id, h: Id) returns (p': Places)
    requires InvAt(cfg, s, p) && Enabled(cfg, s, t, TryUnique(h))
    ensures var o := DoTryUnique(s, t, h); o.Next? && InvAt(cfg, o.state, p')
    ensures var b, s' := s.handles[h].block, DoTryUnique(s, t, h).state;
            && b in p
            && (if p[b] == Held({ByHandle(h)}, {}) then
                  h !in s'.handles && TaskOf(s', t) == ThawRead(b, s.handles[h].len) && p' == p[b := Held({ByThread(t)}, {})]
                else
                  s' == s && p' == p)
  {
    var b := s.handles[h].block;
    HandleKnown(cfg, s, p, h);
    OneMeansAlone(s, p, b, ByHandle(h));
    p' := p;
    if s.blocks[b].refCount == 1 {
      p' := p[b := Held({ByThread(t)}, {})];
      ThawStart(cfg, s, p, t, h);
    }
  }

  lemma ThawStart(cfg: Config, s: State, p: Places, t: Id, h: Id)
    requires InvAt(cfg, s, p) && Enabled(cfg, s, t, TryUnique(h)) && HandleOk(s, p, h, s.handles[h])
    requires BlockOk(s, p, s.handles[h].block) && s.blocks[s.handles[h].block].refCount == 1
    requires p[s.handles[h].block] == Held({ByHandle(h)}, {})
    ensures var o := DoTryUnique(s, t, h);
            o.Next? && InvAt(cfg, o.state, p[s.handles[h].block := Held({ByThread(t)}, {})])
  {
    var b := s.handles[h].block;
    var s' := DoTryUnique(s, t, h).state;
    var p' := p[b := Held({ByThread(t)}, {})];
    assert PoolOk(s') by { SetTaskPool(s, t, s'.threads[t]); }
    assert SameBut(p, p', b) && SameBut(s.handles, s'.handles, h) && SameBut(s.threads, s'.threads, t);
    LoneStep(cfg, s, s', p, p', b, h, t);
  }

  // A reference leaves a block that keeps others.
  lemma DropCount(s: State, s': State, p: Places, t: Id, h: Id, b: Id)
    requires BlockOk(s, p, b) && HeldBy(p, b, ByHandle(h)) && TaskOf(s, t) == Idle && s.blocks[b].refCount != 1
    requires s' == SetTask(SetCount(s.(handles := s.handles - {h}), b, s.blocks[b].refCount - 1), t, Idle)
    ensures BlockOk(s', p[b := p[b].(refs := p[b].refs - {ByHandle(h)})], b)
  {
    IdleHasNoRef(s, p, t, b);
    var refs' := p[b].refs - {ByHandle(h)};
    assert p[b].refs == refs' + {ByHandle(h)};
    forall r | r in refs'
      ensures RefOk(s', b, r)
    {
      assert RefOk(s, b, r);
    }
  }

  lemma DropHandleStep(cfg: Config, s: State, p: Places, t: Id, h: Id) returns (p': Places)
    requires InvAt(cfg, s, p) && Enabled(cfg, s, t, DropHandle(h))
    ensures var o := DoDropHandle(s, t, h); o.Next? && InvAt(cfg, o.state, p')
  {
    var b := s.handles[h].block;
    HandleKnown(cfg, s, p, h);
    OneMeansAlone(s, p, b, ByHandle(h));
    if s.blocks[b].refCount == 1 {
      p' := p[b := Dropping(t)];
      LastDrop(cfg, s, p, t, h);
    } else {
      p' := p[b := p[b].(refs := p[b].refs - {ByHandle(h)})];
      OtherDrop(cfg, s, p, t, h);
    }
  }

  lemma LastDrop(cfg: Config, s: State, p: Places, t: Id, h: Id)
    requires InvAt(cfg, s, p) && Enabled(cfg, s, t, DropHandle(h)) && HandleOk(s, p, h, s.handles[h])
    requires BlockOk(s, p, s.handles[h].block) && s.blocks[s.handles[h].block].refCount == 1
    requires p[s.handles[h].block] == Held({ByHandle(h)}, {})
    ensures var o := DoDropHandle(s, t, h); o.Next? && InvAt(cfg, o.state, p[s.handles[h].block := Dropping(t)])
  {
    var b := s.handles[h].block;
    var s' := DoDropHandle(s, t, h).state;
    DropFrame(s, s', t, h);
    assert SameBut(p, p[b := Dropping(t)], b);
    LoneStep(cfg, s, s', p, p[b := Dropping(t)], b, h, t);
  }

  lemma OtherDrop(cfg: Config, s: State, p: Places, t: Id, h: Id)
    requires InvAt(cfg, s, p) && Enabled(cfg, s, t, DropHandle(h)) && HandleOk(s, p, h, s.handles[h])
    requires BlockOk(s, p, s.handles[h].block) && 1 < s.blocks[s.handles[h].block].refCount
    ensures var o, b := DoDropHandle(s, t, h), s.handles[h].block;
            o.Next? && InvAt(cfg, o.state, p[b := p[b].(refs := p[b].refs - {ByHandle(h)})])
  {
    var b := s.handles[h].block;
    var s' := DoDropHandle(s, t, h).state;
    var p' := p[b := p[b].(refs := p[b].refs - {ByHandle(h)})];
    assert !s.handles[h].Unique?;
    DropFrame(s, s', t, h);
    assert SameBut(p, p', b);
    DropCount(s, s', p, t, h, b);
    SharedStep(cfg, s, s', p, p', b, h, t);
  }

  lemma DropFrame(s: State, s': State, t: Id, h: Id)
    requires h in s.handles && s.handles[h].block in s.blocks && DoDropHandle(s, t, h) == Next(s')
    requires PoolOk(s) && TaskOf(s, t) == Idle
    ensures SameBut(s.blocks, s'.blocks, s.handles[h].block) && |s'.blocks| == |s.blocks|
    ensures SameBut(s.handles, s'.handles, h) && SameBut(s.threads, s'.threads, t) && PoolOk(s')
  {
    SetTaskPool(s, t, s'.threads[t]);
    assert s'.blocks.Keys == s.blocks.Keys;
  }

  // A clone that passed the check hands its reference over to a new handle; one that saw more
  // references than the limit aborts.
  lemma CloneEnd(cfg: Config, s: State, p: Places, t: Id, h: Id) returns (p': Places)
    requires InvAt(cfg, s, p) && Enabled(cfg, s, t, Continue(h)) && TaskOf(s, t).CloneCheck?
    ensures var o := DoContinue(cfg, s, t, h); o.Next? && InvAt(cfg, o.state, p')
    ensures var s', x := DoContinue(cfg, s, t, h).state, TaskOf(s, t);
            && x.block in p && p[x.block].Held? && x.block in s.blocks
            && (if x.seen <= MAX_REFCOUNT then
                  && !s'.aborted && s'.handles == s.handles[h := Shared(x.block, x.len)] && TaskOf(s', t) == Idle
                  && p' == p[x.block := p[x.block].(refs := p[x.block].refs - {ByThread(t)} + {ByHandle(h)})]
                else
                  s' == s.(aborted := true) && p' == p)
  {
    TaskKnown(cfg, s, p, t);
    var CloneCheck(b, len, seen) := TaskOf(s, t);
    p' := p;
    if seen <= MAX_REFCOUNT {
      TaskKnown(cfg, s, p, t);
      var s' := DoContinue(cfg, s, t, h).state;
      p' := p[b := p[b].(refs := p[b].refs - {ByThread(t)} + {ByHandle(h)})];
      CloneEndCount(s, s', p, t, h, b);
      assert SameBut(p, p', b);
      assert SameBut(s.handles, s'.handles, h);
      assert SameBut(s.threads, s'.threads, t);
      assert PoolOk(s') by { SetTaskPool(s, t, Idle); }
      SharedStep(cfg, s, s', p, p', b, h, t);
    } else {
      AbortKeeps(cfg, s, p);
    }
  }

  lemma AbortKeeps(cfg: Config, s: State, p: Places)
    requires InvAt(cfg, s, p)
    ensures InvAt(cfg, s.(aborted := true), p)
  {
    forall b
      ensures BlockOk(s.(aborted := true), p, b)
    {
      assert BlockOk(s, p, b);
    }
  }

  lemma CloneEndCount(s: State, s': State, p: Places, t: Id, h: Id, b: Id)
    requires BlockOk(s, p, b) && HeldBy(p, b, ByThread(t)) && h !in s.handles && TaskOf(s, t).CloneCheck?
    requires s' == SetTask(s.(handles := s.handles[h := Shared(b, TaskOf(s, t).len)]), t, Idle)
    ensures BlockOk(s', p[b := p[b].(refs := p[b].refs - {ByThread(t)} + {ByHandle(h)})], b)
  {
    var kept := p[b].refs - {ByThread(t)};
    assert p[b].refs == kept + {ByThread(t)};
    assert !RefOk(s, b, ByHandle(h));
    forall r | r in kept
      ensures RefOk(s', b, r)
    {
      assert RefOk(s, b, r);
    }
    assert RefOk(s, b, ByThread(t));
    forall d | d in p[b].doomed
      ensures DoomedOk(s', b, d)
    {
      assert DoomedOk(s, b, d);
    }
  }

  lemma ThawEnd(cfg: Config, s: State, p: Places, t: Id, h: Id) returns (p': Places)
    requires InvAt(cfg, s, p) && Enabled(cfg, s, t, Continue(h)) && TaskOf(s, t).ThawRead?
    ensures var o := DoContinue(cfg, s, t, h); o.Next? && InvAt(cfg, o.state, p')
  {
    var b := TaskOf(s, t).block;
    TaskKnown(cfg, s, p, t);
    var s' := DoContinue(cfg, s, t, h).state;
    p' := p[b := Held({ByHandle(h)}, {})];
    assert SameBut(p, p', b);
    assert SameBut(s.handles, s'.handles, h);
    assert SameBut(s.threads, s'.threads, t);
    assert PoolOk(s') by { SetTaskPool(s, t, Idle); }
    LoneStep(cfg, s, s', p, p', b, h, t);
  }

  // ---------- the last dropper's steps

  // The dropper moves on and keeps the block.
  lemma DropperMoves(cfg: Config, s: State, s': State, p: Places, t: Id, h: Id)
    requires InvAt(cfg, s, p) && h !in s.handles && IsDropper(TaskOf(s, t)) && IsDropper(TaskOf(s', t))
    requires var b := TaskOf(s, t).block;
             && s' == s.(blocks := s'.blocks, threads := s.threads[t := s'.threads[t]], strong := s'.strong)
             && TaskOf(s', t).block == b && b in s.blocks && b in s'.blocks
             && (s'.blocks == s.blocks || s'.blocks == s.blocks[b := s.blocks[b].(refCount := 1)])
             && TaskOk(cfg, s', p, t, TaskOf(s', t)) && PoolOk(s')
    ensures InvAt(cfg, s', p)
  {
    var b := TaskOf(s, t).block;
    TaskKnown(cfg, s, p, t);
    assert s'.blocks.Keys == s.blocks.Keys;
    assert SameBut(s.blocks, s'.blocks, b);
    assert SameBut(s.threads, s'.threads, t);
    LoneStep(cfg, s, s', p, p, b, h, t);
  }

  lemma DropperStep(cfg: Config, s: State, p: Places, t: Id, h: Id)
    requires InvAt(cfg, s, p) && Enabled(cfg, s, t, Continue(h))
    requires var x := TaskOf(s, t);
             || x.DropLoad? || x.DropStore? || x.DropReadCap? || x.ShouldRetain? || x.Upgrade?
             || (x.Push? && |s.queue| >= cfg.queueCapacity)
    ensures var o := DoContinue(cfg, s, t, h); o.Next? && InvAt(cfg, o.state, p)
  {
    TaskKnown(cfg, s, p, t);
    var s' := DoContinue(cfg, s, t, h).state;
    SetTaskPool(s, t, s'.threads[t]);
    DropperMoves(cfg, s, s', p, t, h);
  }

  lemma FreeStep(cfg: Config, s: State, p: Places, t: Id, h: Id)
    requires InvAt(cfg, s, p) && Enabled(cfg, s, t, Continue(h)) && TaskOf(s, t).GuardFree?
    ensures var o := DoContinue(cfg, s, t, h); o.Next? && InvAt(cfg, o.state, p - {TaskOf(s, t).block})
  {
    TaskKnown(cfg, s, p, t);
    var s' := DoContinue(cfg, s, t, h).state;
    FreePool(s, s', t);
    FreeBlock(cfg, s, s', p, t, h, TaskOf(s, t).block);
  }

  lemma FreePool(s: State, s': State, t: Id)
    requires PoolOk(s) && TaskOf(s, t).GuardFree? && s'.owner == s.owner && s'.strong == s.strong && s'.queue == s.queue
    requires var x := TaskOf(s, t);
             s'.threads == s.threads[t := if x.holding then ReleaseStrong(x.after) else Resume(x.after)]
    ensures PoolOk(s')
  {
    SetTaskPool(s, t, s'.threads[t]);
  }

  lemma FreeBlock(cfg: Config, s: State, s': State, p: Places, t: Id, h: Id, b: Id)
    requires InvAt(cfg, s, p) && b in p && p[b] == Dropping(t) && IsDropper(TaskOf(s, t)) && TaskOf(s, t).block == b
    requires 0 <= t < cfg.threads && h !in s.handles && b in s.blocks
    requires s' == s.(blocks := s.blocks - {b}, frees := s.frees + 1, threads := s'.threads)
    requires SameBut(s.threads, s'.threads, t) && !HasBlock(TaskOf(s', t)) && PoolOk(s')
    ensures InvAt(cfg, s', p - {b})
  {
    assert s.blocks.Keys == s'.blocks.Keys + {b};
    assert SameBut(s.blocks, s'.blocks, b);
    assert SameBut(p, p - {b}, b);
    LoneStep(cfg, s, s', p, p - {b}, b, h, t);
  }

  // ---------- steps on the queue and the strong count

  // A step of a thread that refers to no block before or after.
  lemma BlocklessStep(cfg: Config, s: State, s': State, p: Places, t: Id)
    requires InvAt(cfg, s, p) && 0 <= t < cfg.threads
    requires s' == s.(threads := s'.threads, owner := s'.owner, strong := s'.strong)
    requires SameBut(s.threads, s'.threads, t) && !HasBlock(TaskOf(s, t)) && !HasBlock(TaskOf(s', t))
    requires PoolOk(s')
    ensures InvAt(cfg, s', p)
  {
    assert BlocksOk(s', p) by {
      forall b
        ensures BlockOk(s', p, b)
      {
        assert BlockOk(s, p, b);
      }
    }
    assert TasksOk(cfg, s', p) by {
      forall t' | t' in s'.threads && t' != t
        ensures TaskOk(cfg, s', p, t', s'.threads[t'])
      {
        assert TaskOk(cfg, s, p, t', s.threads[t']);
      }
    }
  }

  // While a temporary strong reference exists, nobody destroys the queue.
  lemma HolderKeepsPool(s: State, t: Id)
    requires PoolOk(s) && HoldsStrong(TaskOf(s, t))
    ensures 0 < s.strong && !InTeardown(TaskOf(s, t))
  {
    assert t in Holders(s.threads);
    assert InTeardown(TaskOf(s, t)) ==> t in Destroyers(s.threads);
  }

  lemma ReleaseStep(cfg: Config, s: State, p: Places, t: Id, h: Id)
    requires InvAt(cfg, s, p) && Enabled(cfg, s, t, Continue(h)) && TaskOf(s, t).ReleaseStrong?
    ensures var o := DoContinue(cfg, s, t, h); o.Next? && InvAt(cfg, o.state, p)
  {
    HolderKeepsPool(s, t);
    var s' := DoContinue(cfg, s, t, h).state;
    SetTaskPool(s, t, s'.threads[t]);
    BlocklessStep(cfg, s, s', p, t);
  }

  lemma DropPoolStep(cfg: Config, s: State, p: Places, t: Id)
    requires InvAt(cfg, s, p) && Enabled(cfg, s, t, DropPool)
    ensures var o := Release(s.(owner := false), t, Caller); o.Next? && InvAt(cfg, o.state, p)
  {
    var s' := Release(s.(owner := false), t, Caller).state;
    SetTaskPool(s, t, s'.threads[t]);
    BlocklessStep(cfg, s, s', p, t);
  }

  // The head of the queue goes to handle `h` or to thread `t`.
  lemma PopStep(cfg: Config, s: State, s': State, p: Places, p': Places, h: Id, t: Id)
    requires InvAt(cfg, s, p) && s.queue != [] && s'.queue == s.queue[1..]
    requires Local(s, s', p, p', s.queue[0].block, h, t) && LocalOk(cfg, s', p', s.queue[0].block, h, t)
    requires PoolOk(s') && s'.allocs == s'.frees + |s'.blocks|
    ensures InvAt(cfg, s', p')
  {
    var b := s.queue[0].block;
    assert SlotOk(cfg, s, p, s.queue[0]);
    assert SameSlots(s, s', b) by {
      forall b' | b' != b && Enqueued(s.queue, b')
        ensures Enqueued(s'.queue, b')
      {
        var i :| 0 <= i < |s.queue| && s.queue[i].block == b';
        assert s'.queue[i - 1].block == b';
      }
    }
    LoneOthers(cfg, s, s', p, p', b, h, t);
    BlocksFrame(cfg, s, s', p, p', b, h, t);
    HandlesFrame(cfg, s, s', p, p', b, h, t);
    TasksFrame(cfg, s, s', p, p', b, h, t);
    forall i | 0 <= i < |s'.queue|
      ensures SlotOk(cfg, s', p', s'.queue[i])
    {
      assert SlotOk(cfg, s, p, s.queue[i + 1]);
      assert s.queue[0].block != s.queue[i + 1].block;
    }
  }

  lemma GetStep(cfg: Config, s: State, p: Places, t: Id, h: Id) returns (p': Places)
    requires InvAt(cfg, s, p) && Enabled(cfg, s, t, Get(h))
    ensures InvAt(cfg, DoGet(s, h).state, p')
  {
    p' := p;
    if s.queue != [] {
      var b := s.queue[0].block;
      assert SlotOk(cfg, s, p, s.queue[0]);
      assert BlockOk(s, p, b);
      p' := p[b := Held({ByHandle(h)}, {})];
      var s' := DoGet(s, h).state;
      assert RefOk(s', b, ByHandle(h));
      PopStep(cfg, s, s', p, p', h, t);
    }
  }

  lemma DrainStep(cfg: Config, s: State, p: Places, t: Id, h: Id) returns (p': Places)
    requires InvAt(cfg, s, p) && Enabled(cfg, s, t, Continue(h)) && TaskOf(s, t).Drain?
    ensures var o := DoContinue(cfg, s, t, h); o.Next? && InvAt(cfg, o.state, p')
  {
    p' := p;
    if s.queue == [] {
      var s' := DoContinue(cfg, s, t, h).state;
      SetTaskPool(s, t, Idle);
      BlocklessStep(cfg, s, s', p, t);
    } else {
      var b := s.queue[0].block;
      assert SlotOk(cfg, s, p, s.queue[0]);
      assert BlockOk(s, p, b);
      p' := p[b := Dropping(t)];
      DrainFrame(cfg, s, p, t, h);
      PopStep(cfg, s, DoContinue(cfg, s, t, h).state, p, p', h, t);
    }
  }

  lemma DrainFrame(cfg: Config, s: State, p: Places, t: Id, h: Id)
    requires Enabled(cfg, s, t, Continue(h)) && TaskOf(s, t).Drain? && s.queue != [] && PoolOk(s)
    requires s.queue[0].block in p && SlotOk(cfg, s, p, s.queue[0]) && BlockOk(s, p, s.queue[0].block)
    ensures var o, b := DoContinue(cfg, s, t, h), s.queue[0].block;
            && o.Next? && o.state.queue == s.queue[1..] && PoolOk(o.state) && |o.state.blocks| == |s.blocks|
            && o.state.allocs == s.allocs && o.state.frees == s.frees
            && Local(s, o.state, p, p[b := Dropping(t)], b, h, t) && LocalOk(cfg, o.state, p[b := Dropping(t)], b, h, t)
  {
    var s' := DoContinue(cfg, s, t, h).state;
    assert s'.blocks.Keys == s.blocks.Keys;
    assert PoolOk(s') by {
      SetTaskPool(s, t, s'.threads[t]);
    }
  }

  // The dropper publishes its block to the queue.
  lemma PushStep(cfg: Config, s: State, p: Places, t: Id, h: Id)
    requires InvAt(cfg, s, p) && Enabled(cfg, s, t, Continue(h)) && TaskOf(s, t).Push? && |s.queue| < cfg.queueCapacity
    ensures var o := DoContinue(cfg, s, t, h); o.Next? && InvAt(cfg, o.state, p[TaskOf(s, t).block := InQueue])
  {
    var Push(b, cap, after) := TaskOf(s, t);
    TaskKnown(cfg, s, p, t);
    var s' := DoContinue(cfg, s, t, h).state;
    var p' := p[b := InQueue];
    assert s'.queue[|s.queue|].block == b;
    assert SameSlots(s, s', b) by {
      forall b' | b' != b && Enqueued(s.queue, b')
        ensures Enqueued(s'.queue, b')
      {
        var i :| 0 <= i < |s.queue| && s.queue[i].block == b';
        assert s'.queue[i].block == b';
      }
    }
    assert PoolOk(s') by {
      HolderKeepsPool(s, t);
      SetTaskPool(s, t, s'.threads[t]);
    }
    PushFrame(cfg, s, s', p, p', t, h, Pooled(b, cap));
  }

  lemma PushFrame(cfg: Config, s: State, s': State, p: Places, p': Places, t: Id, h: Id, e: Pooled)
    requires InvAt(cfg, s, p) && s'.queue == s.queue + [e] && e.block in p && p[e.block] == Dropping(t)
    requires |s.queue| < cfg.queueCapacity && SlotOk(cfg, s', p', e)
    requires Local(s, s', p, p', e.block, h, t) && LocalOk(cfg, s', p', e.block, h, t) && SameSlots(s, s', e.block)
    requires PoolOk(s') && s'.allocs == s'.frees + |s'.blocks|
    ensures InvAt(cfg, s', p')
  {
    var b := e.block;
    LoneOthers(cfg, s, s', p, p', b, h, t);
    BlocksFrame(cfg, s, s', p, p', b, h, t);
    HandlesFrame(cfg, s, s', p, p', b, h, t);
    TasksFrame(cfg, s, s', p, p', b, h, t);
    forall i | 0 <= i < |s.queue|
      ensures SlotOk(cfg, s', p', s.queue[i]) && s.queue[i].block != b
    {
      assert SlotOk(cfg, s, p, s.queue[i]);
    }
  }
}
