/** The buffer pool's calls, on real blocks and objects, as calls of the life cycle. */
module PoolRuns {
  import opened Words
  import opened Bits
  import opened BlockLayouts
  import opened TaggedCaps
  import opened Memory
  import opened Headers
  import opened RawBuffers
  import opened UniqueBuffers
  import opened BufferPools
  import opened SharedBuffers
  import BufferRuns
  import Lifecycle
  import LifecycleCalls
  import LifecycleInvariant

  // ---------- bytes as a state of the life cycle

  ghost function BlocksOf(p: Params, h: Heap): map<int, Lifecycle.Block>
    requires ValidParams(p)
  {
    map b | b in h && GoodBlock(p, h[b]) ::
      Lifecycle.Block(CountOf(p, h[b].bytes), CapOf(p, h[b].bytes), DataOf(p, h[b].bytes))
  }

  function SlotsOf(p: Params, queue: seq<Pooled>): seq<Lifecycle.Pooled>
    requires ValidParams(p)
  {
    seq(|queue|, i requires 0 <= i < |queue| => Lifecycle.Pooled(queue[i].buf - Offset(p), queue[i].cap.Value()))
  }

  // Between calls of thread `t`, while the others are idle. The handles and the counters of the
  // allocator are not in the heap.
  ghost function Between(p: Params, h: Heap, queue: seq<Pooled>, alive: bool, t: int,
                         handles: map<int, Lifecycle.Handle>, allocs: nat, frees: nat): Lifecycle.State
    requires ValidParams(p)
  {
    Lifecycle.State(BlocksOf(p, h), handles, map[t := Lifecycle.Idle], SlotsOf(p, queue), alive,
                    if alive then 1 else 0, false, allocs, frees)
  }

  ghost function StateOf(pool: BufferPool, t: int, handles: map<int, Lifecycle.Handle>, allocs: nat, frees: nat): Lifecycle.State
    requires pool.Valid()
    reads pool, pool.sys
  {
    Between(pool.p, pool.sys.heap, pool.queue, pool.alive, t, handles, allocs, frees)
  }

  function ConfigOf(pool: BufferPool, threads: nat): Lifecycle.Config {
    Lifecycle.Config(pool.capacity, threads, pool.shouldRetain)
  }

  lemma BlocksRecounted(p: Params, h: Heap, h': Heap, base: int, count: nat)
    requires ValidParams(p) && base in h && GoodBlock(p, h[base]) && Recounted(p, h, h', base, count)
    ensures base in BlocksOf(p, h)
    ensures BlocksOf(p, h') == BlocksOf(p, h)[base := BlocksOf(p, h)[base].(refCount := count)]
  {
    hide GoodBlock;
    hide CountOf;
    hide CapOf;
    hide DataOf;
    forall b | b != base
      ensures b in h' <==> b in h
      ensures b in h ==> h'[b] == h[b]
    {
      if b in h {
        SameAt(h, h', base, b);
      }
      if b in h' {
        SameAt(h', h, base, b);
      }
    }
  }

  lemma BlocksFreed(p: Params, h: Heap, gone: set<int>)
    requires ValidParams(p)
    ensures BlocksOf(p, h - gone) == BlocksOf(p, h) - gone
  {}

  lemma SlotsAppended(p: Params, queue: seq<Pooled>, e: Pooled)
    requires ValidParams(p)
    ensures SlotsOf(p, queue + [e]) == SlotsOf(p, queue) + [Lifecycle.Pooled(e.buf - Offset(p), e.cap.Value())]
  {}

  // ---------- the drop of a handle

  // What `BufferPool.DropBuffer` promises of a buffer with a block.
  ghost predicate DropsTo(p: Params, cfg: Lifecycle.Config, h: Heap, h': Heap, queue: seq<Pooled>, queue': seq<Pooled>,
                          alive: bool, buf: int)
    requires ValidParams(p) && buf - Offset(p) in h && GoodBlock(p, h[buf - Offset(p)])
  {
    var base := buf - Offset(p);
    var count, cap := CountOf(p, h[base].bytes), CapOf(p, h[base].bytes);
    if count != 1 then
      queue' == queue && Recounted(p, h, h', base, WrappingSub(count, 1))
    else if cfg.shouldRetain(cap) && alive && |queue| < cfg.queueCapacity then
      && queue' == queue + [Pooled(buf, New(cap, true))] && New(cap, true).Value() == cap
      && Recounted(p, h, h', base, 1)
    else
      queue' == queue && h' == h - {base}
  }

  lemma StateAfterDrop(p: Params, cfg: Lifecycle.Config, h: Heap, h': Heap, queue: seq<Pooled>, queue': seq<Pooled>, alive: bool,
                       buf: int, t: int, handles: map<int, Lifecycle.Handle>, allocs: nat, frees: nat)
    requires ValidParams(p) && buf - Offset(p) in h && GoodBlock(p, h[buf - Offset(p)])
    requires DropsTo(p, cfg, h, h', queue, queue', alive, buf)
    ensures buf - Offset(p) in BlocksOf(p, h)
    ensures LifecycleCalls.Dropped(cfg, Between(p, h, queue, alive, t, handles, allocs, frees), buf - Offset(p))
            == Between(p, h', queue', alive, t, handles, allocs, if buf - Offset(p) in h' then frees else frees + 1)
  {
    var base := buf - Offset(p);
    var count, cap := CountOf(p, h[base].bytes), CapOf(p, h[base].bytes);
    var blocks := BlocksOf(p, h);
    assert base in blocks && blocks[base].refCount == count && blocks[base].allocBufferSize == cap;
    if base in h' {
      BlocksRecounted(p, h, h', base, if count == 1 then 1 else WrappingSub(count, 1));
      assert blocks[base].(refCount := count) == blocks[base] && blocks[base := blocks[base]] == blocks;
    } else {
      BlocksFreed(p, h, {base});
    }
    hide GoodBlock;
    hide CountOf;
    hide CapOf;
    hide BlocksOf;
    hide New;
    hide DataOf;
    hide LayoutOf;
    hide Recounted;
    SlotsAppended(p, queue, Pooled(buf, New(cap, true)));
    hide SlotsOf;
    var s := Between(p, h, queue, alive, t, handles, allocs, frees);
    if count != 1 {
      assert LifecycleCalls.Dropped(cfg, s, base).blocks == BlocksOf(p, h');
    } else if queue' != queue {
      assert LifecycleCalls.Dropped(cfg, s, base) == s.(queue := SlotsOf(p, queue'));
    } else {
      assert LifecycleCalls.Dropped(cfg, s, base) == s.(blocks := BlocksOf(p, h'), frees := frees + 1);
    }
  }

  lemma DropIsCall(p: Params, cfg: Lifecycle.Config, h: Heap, h': Heap, queue: seq<Pooled>, queue': seq<Pooled>, alive: bool,
                   buf: int, t: int, x: int, handles: map<int, Lifecycle.Handle>, allocs: nat, frees: nat)
    requires ValidParams(p) && buf - Offset(p) in h && GoodBlock(p, h[buf - Offset(p)])
    requires DropsTo(p, cfg, h, h', queue, queue', alive, buf)
    requires 0 <= t < cfg.threads && x in handles && handles[x].block == buf - Offset(p)
    ensures LifecycleCalls.Calls(cfg, Between(p, h, queue, alive, t, handles, allocs, frees), t, Lifecycle.DropHandle(x),
                                 Between(p, h', queue', alive, t, handles - {x}, allocs,
                                         if buf - Offset(p) in h' then frees else frees + 1))
  {
    hide DropsTo;
    hide BlocksOf;
    hide LifecycleCalls.Calls;
    hide LifecycleCalls.Dropped;
    var s, base := Between(p, h, queue, alive, t, handles, allocs, frees), buf - Offset(p);
    StateAfterDrop(p, cfg, h, h', queue, queue', alive, buf, t, handles - {x}, allocs, frees);
    LifecycleCalls.DropCall(cfg, s, t, x);
    assert s.threads[t := Lifecycle.Idle] == s.threads;
    assert s.(handles := handles - {x}) == Between(p, h, queue, alive, t, handles - {x}, allocs, frees);
  }

  lemma GetIsCall(p: Params, cfg: Lifecycle.Config, h: Heap, queue: seq<Pooled>, t: int, x: int,
                  handles: map<int, Lifecycle.Handle>, allocs: nat, frees: nat)
    requires ValidParams(p) && 0 <= t < cfg.threads && x !in handles
    ensures LifecycleCalls.Calls(cfg, Between(p, h, queue, true, t, handles, allocs, frees), t, Lifecycle.Get(x),
                                 if queue == [] then Between(p, h, queue, true, t, handles, allocs, frees)
                                 else Between(p, h, queue[1..], true, t,
                                              handles[x := Lifecycle.Unique(queue[0].buf - Offset(p), queue[0].cap.Value(), 0)],
                                              allocs, frees))
  {
    hide BlocksOf;
    LifecycleCalls.GetCall(cfg, Between(p, h, queue, true, t, handles, allocs, frees), t, x);
    hide LifecycleCalls.Calls;
    assert queue != [] ==> SlotsOf(p, queue[1..]) == SlotsOf(p, queue)[1..];
  }

  // ---------- shrinking to nothing

  // What `BufferPool.ShrinkEmpty` promises of the buffer's block.
  ghost predicate ReturnsTo(p: Params, cfg: Lifecycle.Config, h: Heap, h': Heap, queue: seq<Pooled>, queue': seq<Pooled>,
                            alive: bool, e: Pooled)
    requires ValidParams(p)
  {
    if cfg.shouldRetain(e.cap.Value()) && alive && |queue| < cfg.queueCapacity then
      queue' == queue + [e] && h' == h
    else
      queue' == queue && h' == h - {e.buf - Offset(p)}
  }

  lemma StateAfterReturn(p: Params, cfg: Lifecycle.Config, h: Heap, h': Heap, queue: seq<Pooled>, queue': seq<Pooled>, alive: bool,
                         e: Pooled, t: int, handles: map<int, Lifecycle.Handle>, allocs: nat, frees: nat)
    requires ValidParams(p) && e.buf - Offset(p) in h && ReturnsTo(p, cfg, h, h', queue, queue', alive, e)
    ensures LifecycleCalls.Disposed(cfg, Between(p, h, queue, alive, t, handles, allocs, frees), e.buf - Offset(p), e.cap.Value())
            == Between(p, h', queue', alive, t, handles, allocs, if e.buf - Offset(p) in h' then frees else frees + 1)
  {
    BlocksFreed(p, h, {e.buf - Offset(p)});
    SlotsAppended(p, queue, e);
    hide BlocksOf;
    hide SlotsOf;
  }

  lemma ShrinkIsCall(p: Params, cfg: Lifecycle.Config, h: Heap, h': Heap, queue: seq<Pooled>, queue': seq<Pooled>, alive: bool,
                     e: Pooled, t: int, x: int, handles: map<int, Lifecycle.Handle>, allocs: nat, frees: nat)
    requires ValidParams(p) && SlotOk(p, h, e) && ReturnsTo(p, cfg, h, h', queue, queue', alive, e)
    requires 0 <= t < cfg.threads && x in handles && handles[x] == Lifecycle.Unique(e.buf - Offset(p), e.cap.Value(), 0)
    ensures LifecycleCalls.Calls(cfg, Between(p, h, queue, alive, t, handles, allocs, frees), t, Lifecycle.ShrinkToZero(x),
                                 Between(p, h', queue', alive, t, handles - {x}, allocs,
                                         if e.buf - Offset(p) in h' then frees else frees + 1))
  {
    var s := Between(p, h, queue, alive, t, handles, allocs, frees);
    assert LifecycleInvariant.Fits(s, e.buf - Offset(p), e.cap.Value());
    hide LifecycleCalls.Calls;
    hide LifecycleCalls.Disposed;
    hide SlotOk;
    hide BlocksOf;
    hide ReturnsTo;
    StateAfterReturn(p, cfg, h, h', queue, queue', alive, e, t, handles - {x}, allocs, frees);
    LifecycleCalls.ShrinkToZeroCall(cfg, s, t, x);
    assert s.(handles := handles - {x}) == Between(p, h, queue, alive, t, handles - {x}, allocs, frees);
    assert s.threads[t := Lifecycle.Idle] == s.threads;
  }

  // ---------- sharing, cloning and thawing

  lemma StateAfterClone(p: Params, h: Heap, h': Heap, queue: seq<Pooled>, alive: bool, base: int, count: nat,
                        t: int, handles: map<int, Lifecycle.Handle>, handles': map<int, Lifecycle.Handle>, allocs: nat, frees: nat)
    requires ValidParams(p) && base in h && GoodBlock(p, h[base]) && Recounted(p, h, h', base, count)
    ensures base in BlocksOf(p, h) && BlocksOf(p, h)[base].refCount == CountOf(p, h[base].bytes)
    ensures var s := Between(p, h, queue, alive, t, handles, allocs, frees);
            Lifecycle.SetTask(Lifecycle.SetCount(s.(handles := handles'), base, count), t, Lifecycle.Idle)
            == Between(p, h', queue, alive, t, handles', allocs, frees)
  {
    BlocksRecounted(p, h, h', base, count);
    hide Recounted;
    hide SlotsOf;
    var threads: map<int, Lifecycle.Task> := map[t := Lifecycle.Idle];
    assert threads[t := Lifecycle.Idle] == threads;
  }

  lemma CloneIsCall(p: Params, cfg: Lifecycle.Config, h: Heap, h': Heap, queue: seq<Pooled>, alive: bool, base: int,
                    t: int, x: int, y: int, handles: map<int, Lifecycle.Handle>, allocs: nat, frees: nat)
    requires ValidParams(p) && base in h && GoodBlock(p, h[base]) && CountOf(p, h[base].bytes) <= MAX_REFCOUNT
    requires Recounted(p, h, h', base, CountOf(p, h[base].bytes) + 1)
    requires 0 <= t < cfg.threads && x in handles && handles[x].Shared? && handles[x].block == base && y !in handles
    ensures LifecycleCalls.Calls(cfg, Between(p, h, queue, alive, t, handles, allocs, frees), t, Lifecycle.Clone(x),
                                 Between(p, h', queue, alive, t, handles[y := handles[x]], allocs, frees))
  {
    var s, count := Between(p, h, queue, alive, t, handles, allocs, frees), CountOf(p, h[base].bytes);
    StateAfterClone(p, h, h', queue, alive, base, count + 1, t, handles, handles[y := handles[x]], allocs, frees);
    hide LifecycleCalls.Calls;
    hide BlocksOf;
    hide Recounted;
    hide GoodBlock;
    hide Lifecycle.SetTask;
    hide Lifecycle.SetCount;
    LifecycleCalls.CloneCall(cfg, s, t, x, y);
  }

  lemma ThawIsCall(p: Params, cfg: Lifecycle.Config, h: Heap, queue: seq<Pooled>, alive: bool, base: int,
                   t: int, x: int, y: int, handles: map<int, Lifecycle.Handle>, allocs: nat, frees: nat)
    requires ValidParams(p) && base in h && GoodBlock(p, h[base]) && 0 <= t < cfg.threads
    requires x in handles && handles[x].Shared? && handles[x].block == base && y !in handles - {x}
    ensures LifecycleCalls.Calls(
              cfg, Between(p, h, queue, alive, t, handles, allocs, frees), t, Lifecycle.TryUnique(x),
              Between(p, h, queue, alive, t,
                      if CountOf(p, h[base].bytes) != 1 then handles
                      else (handles - {x})[y := Lifecycle.Unique(base, CapOf(p, h[base].bytes), handles[x].len)], allocs, frees))
  {
    var s := Between(p, h, queue, alive, t, handles, allocs, frees);
    assert base in s.blocks && s.blocks[base].refCount == CountOf(p, h[base].bytes);
    assert s.blocks[base].allocBufferSize == CapOf(p, h[base].bytes);
    if s.blocks[base].refCount == 1 {
      LifecycleCalls.ThawCall(cfg, s, t, x, y);
    } else {
      LifecycleCalls.Rests(cfg, s, t);
    }
    hide LifecycleCalls.GoesOn;
    hide BlocksOf;
    hide GoodBlock;
    assert s.threads[t := Lifecycle.Idle] == s.threads;
  }

  // ---------- the teardown

  lemma {:induction false} BasesAreQueued(p: Params, queue: seq<Pooled>)
    requires ValidParams(p)
    ensures Bases(p, queue) == LifecycleCalls.Queued(SlotsOf(p, queue))
  {
    if queue != [] {
      var n := |queue| - 1;
      BasesAreQueued(p, queue[..n]);
      var slots := SlotsOf(p, queue);
      assert SlotsOf(p, queue[..n]) == slots[..n];
      assert LifecycleCalls.Queued(slots) == LifecycleCalls.Queued(slots[..n]) + {slots[n].block} by {
        assert forall i :: 0 <= i < n ==> slots[..n][i] == slots[i];
      }
    }
  }

  lemma QueueIsLive(p: Params, h: Heap, queue: seq<Pooled>, alive: bool, t: int,
                    handles: map<int, Lifecycle.Handle>, allocs: nat, frees: nat)
    requires ValidParams(p) && SlotsOk(p, h, queue) && forall i, j :: 0 <= i < j < |queue| ==> queue[i].buf != queue[j].buf
    ensures LifecycleCalls.QueueIsLive(Between(p, h, queue, alive, t, handles, allocs, frees))
  {
    hide GoodBlock;
    hide CountOf;
    hide CapOf;
    hide Offset;
    forall i | 0 <= i < |queue|
      ensures SlotOk(p, h, queue[i])
    {}
  }

  lemma DropPoolIsCall(p: Params, cfg: Lifecycle.Config, h: Heap, queue: seq<Pooled>, t: int,
                       handles: map<int, Lifecycle.Handle>, allocs: nat, frees: nat)
    requires ValidParams(p) && SlotsOk(p, h, queue) && forall i, j :: 0 <= i < j < |queue| ==> queue[i].buf != queue[j].buf
    requires 0 <= t < cfg.threads
    ensures LifecycleCalls.Calls(cfg, Between(p, h, queue, true, t, handles, allocs, frees), t, Lifecycle.DropPool,
                                 Between(p, h - Bases(p, queue), [], false, t, handles, allocs, frees + |queue|))
  {
    hide LifecycleCalls.Calls;
    hide LifecycleCalls.QueueIsLive;
    hide LifecycleCalls.Queued;
    hide BlocksOf;
    hide SlotsOk;
    hide Bases;
    var s := Between(p, h, queue, true, t, handles, allocs, frees);
    QueueIsLive(p, h, queue, true, t, handles, allocs, frees);
    LifecycleCalls.DropPoolCall(cfg, s, t);
    BasesAreQueued(p, queue);
    BlocksFreed(p, h, Bases(p, queue));
    assert s.threads[t := Lifecycle.Idle] == s.threads && SlotsOf(p, []) == [] && |s.queue| == |queue|;
    assert Lifecycle.SetTask(LifecycleCalls.Drained(s.(owner := false, strong := 0)), t, Lifecycle.Idle)
        == Between(p, h - Bases(p, queue), [], false, t, handles, allocs, frees + |queue|);
  }

  // ---------- the calls, on a real pool

  // One thread at a time: a dropped handle runs the life cycle's drop, to its end.
  method DropBuffer(pool: BufferPool, raw: RawAlignedBuffer, ghost threads: nat, ghost t: int, ghost x: int,
                    ghost handles: map<int, Lifecycle.Handle>, ghost allocs: nat, ghost frees: nat)
    requires pool.Valid() && raw.p == pool.p && raw.sys == pool.sys && raw.Valid() && raw.IsAllocated()
    requires Apart(pool.queue, raw.buf) && 0 <= t < threads && x in handles && handles[x].block == raw.Base()
    modifies pool`queue, pool.sys`heap
    ensures pool.Valid()
    ensures LifecycleCalls.Calls(ConfigOf(pool, threads), old(StateOf(pool, t, handles, allocs, frees)), t,
                                 Lifecycle.DropHandle(x),
                                 StateOf(pool, t, handles - {x}, allocs,
                                         if raw.Base() in pool.sys.heap then frees else frees + 1))
  {
    ghost var h, queue := pool.sys.heap, pool.queue;
    LayoutOfIs(pool.p, CapOf(pool.p, h[raw.Base()].bytes));
    PackUnpack(CapOf(pool.p, h[raw.Base()].bytes), true);
    pool.DropBuffer(raw);
    DropIsCall(pool.p, ConfigOf(pool, threads), h, pool.sys.heap, queue, pool.queue, pool.alive, raw.buf,
               t, x, handles, allocs, frees);
  }

  ghost function HandleOf(u: UniqueAlignedBuffer): Lifecycle.Handle
    requires u.Valid()
    reads u, u.raw, u.raw.sys
  {
    Lifecycle.Unique(u.raw.Base(), u.raw.CapOrLen(), u.len)
  }

  // The handle the life cycle adds is the buffer handed out.
  method Get(pool: BufferPool, ghost threads: nat, ghost t: int, ghost x: int,
             ghost handles: map<int, Lifecycle.Handle>, ghost allocs: nat, ghost frees: nat) returns (u: UniqueAlignedBuffer)
    requires pool.Valid() && pool.alive && 0 <= t < threads && x !in handles
    modifies pool`queue
    ensures pool.Valid() && fresh(u) && fresh(u.raw) && u.Valid()
    ensures LifecycleCalls.Calls(ConfigOf(pool, threads), old(StateOf(pool, t, handles, allocs, frees)), t, Lifecycle.Get(x),
                                 StateOf(pool, t, if u.raw.IsAllocated() then handles[x := HandleOf(u)] else handles,
                                         allocs, frees))
  {
    GetIsCall(pool.p, ConfigOf(pool, threads), pool.sys.heap, pool.queue, t, x, handles, allocs, frees);
    hide LifecycleCalls.Calls;
    hide Between;
    u := pool.Get();
  }

  // The pool's last reference goes, and with it every queued block.
  method DropPool(pool: BufferPool, ghost threads: nat, ghost t: int,
                  ghost handles: map<int, Lifecycle.Handle>, ghost allocs: nat, ghost frees: nat)
    requires pool.Valid() && pool.alive && 0 <= t < threads
    modifies pool`alive, pool`queue, pool.sys`heap
    ensures pool.Valid()
    ensures LifecycleCalls.Calls(ConfigOf(pool, threads), old(StateOf(pool, t, handles, allocs, frees)), t, Lifecycle.DropPool,
                                 StateOf(pool, t, handles, allocs, frees + |old(pool.queue)|))
  {
    DropPoolIsCall(pool.p, ConfigOf(pool, threads), pool.sys.heap, pool.queue, t, handles, allocs, frees);
    hide LifecycleCalls.Calls;
    hide Between;
    hide SlotsOk;
    pool.DropPool();
  }

  // An empty buffer of the pool gives up its block.
  method ShrinkEmpty(pool: BufferPool, u: UniqueAlignedBuffer, ghost threads: nat, ghost t: int, ghost x: int,
                     ghost handles: map<int, Lifecycle.Handle>, ghost allocs: nat, ghost frees: nat)
    requires pool.Valid() && u.Valid() && u.len == 0 && u.raw.p == pool.p && u.raw.sys == pool.sys && u.raw.IsAllocated()
    requires Apart(pool.queue, u.raw.buf) && 0 <= t < threads && x in handles && handles[x] == HandleOf(u)
    modifies pool`queue, pool.sys`heap, u.raw
    ensures pool.Valid() && u.Valid() && u.View() == BufferRuns.View([], 0)
    ensures LifecycleCalls.Calls(ConfigOf(pool, threads), old(StateOf(pool, t, handles, allocs, frees)), t,
                                 Lifecycle.ShrinkToZero(x),
                                 StateOf(pool, t, handles - {x}, allocs,
                                         if old(u.raw.Base()) in pool.sys.heap then frees else frees + 1))
  {
    ghost var h, queue, e := pool.sys.heap, pool.queue, Pooled(u.raw.buf, u.raw.capOrLen);
    assert SlotOk(pool.p, h, e);
    pool.ShrinkEmpty(u);
    hide SlotOk;
    hide LifecycleCalls.Calls;
    ShrinkIsCall(pool.p, ConfigOf(pool, threads), h, pool.sys.heap, queue, pool.queue, pool.alive, e, t, x, handles, allocs, frees);
  }

  ghost function SharedOf(s: SharedAlignedBuffer): Lifecycle.Handle
    requires s.Valid()
    reads s, s.raw, s.raw.sys
  {
    Lifecycle.Shared(s.raw.Base(), s.raw.CapOrLen())
  }

  // Sharing, cloning and thawing do not involve the pool, but they too are steps of the life cycle.
  method Share(pool: BufferPool, u: UniqueAlignedBuffer, ghost threads: nat, ghost t: int, ghost x: int,
               ghost handles: map<int, Lifecycle.Handle>, ghost allocs: nat, ghost frees: nat) returns (s: SharedAlignedBuffer)
    requires pool.Valid() && u.Valid() && u.raw.p == pool.p && u.raw.sys == pool.sys && u.raw.IsAllocated()
    requires 0 <= t < threads && x in handles && handles[x] == HandleOf(u)
    modifies u.raw
    ensures pool.Valid() && fresh(s) && s.Valid() && s.Bytes() == old(u.View()).bytes
    ensures LifecycleCalls.Calls(ConfigOf(pool, threads), old(StateOf(pool, t, handles, allocs, frees)), t, Lifecycle.Share(x),
                                 StateOf(pool, t, handles[x := SharedOf(s)], allocs, frees))
  {
    ghost var before := StateOf(pool, t, handles, allocs, frees);
    s := IntoShared(u);
    LifecycleCalls.Rests(ConfigOf(pool, threads), StateOf(pool, t, handles[x := SharedOf(s)], allocs, frees), t);
    hide LifecycleCalls.GoesOn;
    hide BlocksOf;
  }

  method Clone(pool: BufferPool, s: SharedAlignedBuffer, ghost threads: nat, ghost t: int, ghost x: int, ghost y: int,
               ghost handles: map<int, Lifecycle.Handle>, ghost allocs: nat, ghost frees: nat)
    returns (c: Option<SharedAlignedBuffer>)
    requires pool.Valid() && s.Valid() && s.raw.p == pool.p && s.raw.sys == pool.sys && s.raw.IsAllocated()
    requires Apart(pool.queue, s.raw.buf) && 0 <= t < threads && x in handles && handles[x] == SharedOf(s) && y !in handles
    modifies pool.sys`heap
    ensures pool.Valid() && (c.None? <==> MAX_REFCOUNT < old(s.raw.Count()))
    ensures c.Some? ==>
              && fresh(c.value) && c.value.Valid()
              && LifecycleCalls.Calls(ConfigOf(pool, threads), old(StateOf(pool, t, handles, allocs, frees)), t, Lifecycle.Clone(x),
                                      StateOf(pool, t, handles[y := SharedOf(c.value)], allocs, frees))
  {
    ghost var h, base := pool.sys.heap, s.raw.Base();
    ghost var count := CountOf(pool.p, h[base].bytes);
    assert s.raw.Count() == count;
    hide RawAlignedBuffer.Count;
    hide RawAlignedBuffer.Data;
    hide RawAlignedBuffer.HeaderCap;
    hide SharedAlignedBuffer.Bytes;
    assert count <= MAX_REFCOUNT ==> WrappingAdd(count, 1) == count + 1;
    hide LifecycleCalls.Calls;
    hide Between;
    hide WrappingAdd;
    hide And;
    hide GoodBlock;
    hide BlocksOf;
    c := s.Clone();
    assert Recounted(pool.p, h, pool.sys.heap, base, WrappingAdd(count, 1));
    assert pool.sys.heap - {base} == h - {base};
    hide Recounted;
    hide SlotsOk;
    SlotsStay(pool.p, h, pool.sys.heap, pool.queue, s.raw.buf);
    if c.Some? {
      CloneIsCall(pool.p, ConfigOf(pool, threads), h, pool.sys.heap, pool.queue, pool.alive, base, t, x, y, handles, allocs, frees);
    }
  }

  method Thaw(pool: BufferPool, s: SharedAlignedBuffer, ghost threads: nat, ghost t: int, ghost x: int, ghost y: int,
              ghost handles: map<int, Lifecycle.Handle>, ghost allocs: nat, ghost frees: nat)
    returns (u: Option<UniqueAlignedBuffer>)
    requires pool.Valid() && s.Valid() && s.raw.p == pool.p && s.raw.sys == pool.sys && s.raw.IsAllocated()
    requires 0 <= t < threads && x in handles && handles[x] == SharedOf(s) && y !in handles - {x}
    modifies s.raw
    ensures pool.Valid() && (u.Some? ==> u.value.Valid())
    ensures LifecycleCalls.Calls(ConfigOf(pool, threads), old(StateOf(pool, t, handles, allocs, frees)), t, Lifecycle.TryUnique(x),
                                 StateOf(pool, t, if u.Some? then (handles - {x})[y := HandleOf(u.value)] else handles, allocs, frees))
  {
    ThawIsCall(pool.p, ConfigOf(pool, threads), pool.sys.heap, pool.queue, pool.alive, s.raw.Base(), t, x, y, handles, allocs, frees);
    hide LifecycleCalls.Calls;
    hide BlocksOf;
    u := s.TryUnique();
  }
}
