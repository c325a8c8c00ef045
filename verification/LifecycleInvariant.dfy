/**
 The invariant of the block life cycle. Every live block is in exactly one place, recorded in
 a map from blocks to places, and the count in its header follows from the place.
 */
module LifecycleInvariant {
  import opened Words
  import opened Lifecycle

  // A reference is a handle, or a thread that is cloning or thawing one.
  datatype Ref = ByHandle(handle: Id) | ByThread(thread: Id)

  // Where a block is.
  //  - `Held`: by references, and by `doomed` threads whose clone is about to abort the process;
  //  - `Dropping`: by the one thread that saw the count go from 1 to 0;
  //  - `InQueue`: in one slot of the pool's queue.
  datatype Place =
    | Held(refs: set<Ref>, doomed: set<Id>)
    | Dropping(thread: Id)
    | InQueue

  type Places = map<Id, Place>

  predicate IsDropper(x: Task) {
    x.DropLoad? || x.DropStore? || IsStored(x)
  }

  // The last dropper has stored 1 into the header.
  predicate IsStored(x: Task) { x.DropReadCap? || CarriesCap(x) }

  predicate CarriesCap(x: Task) { x.ShouldRetain? || x.Upgrade? || x.Push? || x.GuardFree? }

  // The thread holds a temporary strong reference to the pool.
  predicate HoldsStrong(x: Task) {
    x.Push? || (x.GuardFree? && x.holding) || x.ReleaseStrong?
  }

  // The thread is destroying the queue, possibly in the middle of dropping one of its buffers.
  predicate InTeardown(x: Task) {
    x.Drain? || ((IsDropper(x) || x.ReleaseStrong?) && x.after == Teardown)
  }

  ghost function Holders(m: map<Id, Task>): set<Id> {
    set t | t in m && HoldsStrong(m[t])
  }

  ghost function Destroyers(m: map<Id, Task>): set<Id> {
    set t | t in m && InTeardown(m[t])
  }

  // The block exists and a layout built from `cap` is the one it was allocated with.
  predicate Fits(s: State, b: Id, cap: nat) {
    b in s.blocks && s.blocks[b].allocBufferSize == cap
  }

  // The block exists and its first `len` bytes are inside it.
  predicate Spans(s: State, b: Id, len: nat) {
    b in s.blocks && len <= s.blocks[b].allocBufferSize
  }

  predicate HeldBy(p: Places, b: Id, r: Ref) {
    b in p && p[b].Held? && r in p[b].refs
  }

  predicate HandleOk(s: State, p: Places, h: Id, x: Handle) {
    && HeldBy(p, x.block, ByHandle(h))
    && Spans(s, x.block, x.len)
    && (x.Unique? ==> p[x.block] == Held({ByHandle(h)}, {}) && Fits(s, x.block, x.cap))
  }

  predicate TaskOk(cfg: Config, s: State, p: Places, t: Id, x: Task) {
    && 0 <= t < cfg.threads
    && (x.CloneCheck? ==>
          && Spans(s, x.block, x.len)
          && (if x.seen <= MAX_REFCOUNT then HeldBy(p, x.block, ByThread(t))
              else x.block in p && p[x.block].Held? && t in p[x.block].doomed))
    && (x.ThawRead? ==> x.block in p && p[x.block] == Held({ByThread(t)}, {}) && Spans(s, x.block, x.len))
    && (IsDropper(x) ==> x.block in p && p[x.block] == Dropping(t) && x.block in s.blocks)
    && (IsStored(x) ==> s.blocks[x.block].refCount == 1)
    && (CarriesCap(x) ==> Fits(s, x.block, x.cap))
    && (x.Upgrade? || x.Push? ==> cfg.shouldRetain(x.cap))
  }

  predicate SlotOk(cfg: Config, s: State, p: Places, e: Pooled) {
    && e.block in p && p[e.block] == InQueue
    && Fits(s, e.block, e.cap) && s.blocks[e.block].refCount == 1
    && cfg.shouldRetain(e.cap)
  }

  // The reference is real: the handle, or the clone or thaw in flight, exists and is of block `b`.
  predicate RefOk(s: State, b: Id, r: Ref) {
    match r
    case ByHandle(h) => h in s.handles && s.handles[h].block == b
    case ByThread(t) =>
      && t in s.threads
      && ((s.threads[t].CloneCheck? && s.threads[t].seen <= MAX_REFCOUNT) || s.threads[t].ThawRead?)
      && s.threads[t].block == b
  }

  predicate DoomedOk(s: State, b: Id, t: Id) {
    t in s.threads && s.threads[t].CloneCheck? && MAX_REFCOUNT < s.threads[t].seen && s.threads[t].block == b
  }

  predicate DropperOk(s: State, b: Id, t: Id) {
    t in s.threads && IsDropper(s.threads[t]) && s.threads[t].block == b
  }

  predicate Enqueued(q: seq<Pooled>, b: Id) {
    exists i :: 0 <= i < |q| && q[i].block == b
  }

  predicate PlaceOk(s: State, b: Id, place: Place)
    requires b in s.blocks
  {
    match place
    case Held(refs, doomed) =>
      && s.blocks[b].refCount == |refs| + |doomed|
      && 0 < |refs| + |doomed|
      && |refs| <= MAX_REFCOUNT + 1
      && (forall r :: r in refs ==> RefOk(s, b, r))
      && (forall t :: t in doomed ==> DoomedOk(s, b, t))
    case Dropping(t) => DropperOk(s, b, t)
    case InQueue => Enqueued(s.queue, b)
  }

  predicate BlockOk(s: State, p: Places, b: Id) {
    && (b in s.blocks <==> b in p)
    && (b in p ==>
          && PlaceOk(s, b, p[b])
          && s.blocks[b].refCount < WORD
          && |s.blocks[b].bytes| == s.blocks[b].allocBufferSize)
  }

  ghost predicate BlocksOk(s: State, p: Places) {
    forall b :: BlockOk(s, p, b)
  }

  predicate HandlesOk(s: State, p: Places) {
    forall h :: h in s.handles ==> HandleOk(s, p, h, s.handles[h])
  }

  predicate TasksOk(cfg: Config, s: State, p: Places) {
    forall t :: t in s.threads ==> TaskOk(cfg, s, p, t, s.threads[t])
  }

  predicate QueueOk(cfg: Config, s: State, p: Places) {
    && |s.queue| <= cfg.queueCapacity
    && (forall i :: 0 <= i < |s.queue| ==> SlotOk(cfg, s, p, s.queue[i]))
    && (forall i, j :: 0 <= i < j < |s.queue| ==> s.queue[i].block != s.queue[j].block)
  }

  // The strong count is the pool's own handle plus the temporary upgrades; it reaches 0 once,
  // and then one thread has the queue to itself until it is empty.
  ghost predicate PoolOk(s: State) {
    && s.strong == Tally(s.owner) + |Holders(s.threads)|
    && |Destroyers(s.threads)| <= 1
    && (0 < |Destroyers(s.threads)| ==> s.strong == 0)
    && (s.strong == 0 && s.queue != [] ==> |Destroyers(s.threads)| == 1)
  }

  ghost predicate InvAt(cfg: Config, s: State, p: Places) {
    && BlocksOk(s, p)
    && HandlesOk(s, p)
    && TasksOk(cfg, s, p)
    && QueueOk(cfg, s, p)
    && PoolOk(s)
    && s.allocs == s.frees + |s.blocks|
  }

  ghost predicate Inv(cfg: Config, s: State) {
    exists p :: InvAt(cfg, s, p)
  }

  function Tally(c: bool): nat { if c then 1 else 0 }

  lemma SwapSize<T>(before: set<T>, after: set<T>, x: T)
    requires before - {x} == after - {x}
    ensures |after| == |before| - Tally(x in before) + Tally(x in after)
  {
    assert before == (before - {x}) + if x in before then {x} else {};
    assert after == (after - {x}) + if x in after then {x} else {};
  }

  // What one thread's step does to the strong count's bookkeeping.
  lemma SetTaskPool(s: State, t: Id, v: Task)
    ensures var m := s.threads[t := v];
            && |Holders(m)| == |Holders(s.threads)| - Tally(HoldsStrong(TaskOf(s, t))) + Tally(HoldsStrong(v))
            && |Destroyers(m)| == |Destroyers(s.threads)| - Tally(InTeardown(TaskOf(s, t))) + Tally(InTeardown(v))
  {
    var m := s.threads[t := v];
    SwapSize(Holders(s.threads), Holders(m), t);
    SwapSize(Destroyers(s.threads), Destroyers(m), t);
  }

  // The doomed clones of one block are distinct threads, none of them the idle `t`.
  lemma DoomedBound(cfg: Config, s: State, p: Places, t: Id, b: Id)
    requires BlockOk(s, p, b) && TasksOk(cfg, s, p) && 0 <= t < cfg.threads && TaskOf(s, t) == Idle
    requires b in p && p[b].Held?
    ensures |p[b].doomed| < cfg.threads
  {
    var doomed := p[b].doomed;
    forall d | d in doomed
      ensures 0 <= d < cfg.threads && d != t
    {
      assert DoomedOk(s, b, d);
    }
    BoundedSize(doomed + {t}, cfg.threads);
  }

  lemma {:induction false} BoundedSize(ids: set<Id>, n: nat)
    requires forall t :: t in ids ==> 0 <= t < n
    ensures |ids| <= n
  {
    if n == 0 {
      assert forall t :: t !in ids;
      assert ids == {};
    } else {
      BoundedSize(ids - {n - 1}, n - 1);
    }
  }
}
