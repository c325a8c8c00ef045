/**
 The life of a pooled block under any interleaving of threads.

 Each atomic operation of the reference-counted handles (`fetch_add`, `fetch_sub`, `load`,
 `store`), of the weak pool reference (upgrade, release) and of the bounded queue (push, pop)
 is one step of `Exec`. A step that would touch a block that is not live, hand the allocator a
 layout the block was not allocated with, or write out of bounds yields `Fault`. The invariant
 that rules faults out is in `LifecycleInvariant`, its preservation in `LifecycleSteps`, and
 the theorems over whole runs in `LifecycleRuns`.
 */
module Lifecycle {
  import opened Words

  // Names of blocks, handles and threads. A name may be used again once it is free.
  type Id = int

  // `shouldRetain` is the retention policy. `threads` bounds the number of threads.
  datatype Config = Config(queueCapacity: nat, threads: nat, shouldRetain: nat -> bool)

  // The queue rejects capacity 0, and the word-sized count relies on there being
  // fewer than 2^63 threads that can be inside `clone` at once.
  predicate ValidConfig(cfg: Config) {
    0 < cfg.queueCapacity && cfg.threads <= ISIZE_MAX
  }

  // A live block: the two header words and the data bytes behind the header.
  datatype Block = Block(refCount: nat, allocBufferSize: nat, bytes: seq<Byte>)

  // An allocated handle. A unique handle carries a capacity, a shared one only its length.
  // Handles without a block own nothing and are not tracked.
  datatype Handle =
    | Unique(block: Id, cap: nat, len: nat)
    | Shared(block: Id, len: nat)

  // What a thread goes back to when a drop has finished.
  datatype After = Caller | Teardown

  // The program counter of a thread, with its local variables.
  datatype Task =
    | Idle
    | CloneCheck(block: Id, len: nat, seen: nat)
    | ThawRead(block: Id, len: nat)
    | DropLoad(block: Id, after: After)
    | DropStore(block: Id, after: After)
    | DropReadCap(block: Id, after: After)
    | ShouldRetain(block: Id, cap: nat, after: After)
    | Upgrade(block: Id, cap: nat, after: After)
    | Push(block: Id, cap: nat, after: After)
    | GuardFree(block: Id, cap: nat, holding: bool, after: After)
    | ReleaseStrong(after: After)
    | Drain

  // A buffer in the queue is a unique buffer of length 0.
  datatype Pooled = Pooled(block: Id, cap: nat)

  // `owner` says whether the pool's own handle is alive, `strong` is the strong count of the
  // pool. `allocs` and `frees` count what the system allocator handed out and took back.
  datatype State = State(
    blocks: map<Id, Block>,
    handles: map<Id, Handle>,
    threads: map<Id, Task>,
    queue: seq<Pooled>,
    owner: bool,
    strong: nat,
    aborted: bool,
    allocs: nat,
    frees: nat)

  datatype Action =
    | Allocate(handle: Id, block: Id, bytes: seq<Byte>)
    | Reallocate(handle: Id, block: Id, cap: nat, tail: seq<Byte>)
    | Write(handle: Id, bytes: seq<Byte>, len: nat)
    | Read(handle: Id)
    | ShrinkToZero(handle: Id)
    | Share(handle: Id)
    | Clone(handle: Id)
    | TryUnique(handle: Id)
    | DropHandle(handle: Id)
    | Get(handle: Id)
    | DropPool
    | Continue(handle: Id)

  datatype Outcome = Next(state: State) | Fault

  const INITIAL := State(map[], map[], map[], [], true, 1, false, 0, 0)

  function TaskOf(s: State, t: Id): Task {
    if t in s.threads then s.threads[t] else Idle
  }

  function Resume(after: After): Task {
    match after
    case Caller => Idle
    case Teardown => Drain
  }

  // What type checking and the unsafe contracts let thread `t` attempt in state `s`.
  // Whether a block is live is not asked here: that is what `Exec` checks.
  predicate Enabled(cfg: Config, s: State, t: Id, a: Action) {
    && !s.aborted
    && 0 <= t < cfg.threads
    && (a.Continue? <==> TaskOf(s, t) != Idle)
    && match a
       case Allocate(h, b, bytes) => h !in s.handles && b !in s.blocks && 0 < |bytes|
       case Reallocate(h, b, cap, tail) =>
         && h in s.handles && s.handles[h].Unique?
         && (b == s.handles[h].block || b !in s.blocks)
         && 0 < cap && s.handles[h].len <= cap
         && |tail| == if s.handles[h].cap <= cap then cap - s.handles[h].cap else 0
       case Write(h, bytes, len) =>
         h in s.handles && s.handles[h].Unique? && |bytes| == s.handles[h].cap && len <= |bytes|
       case Read(h) => h in s.handles
       case ShrinkToZero(h) => h in s.handles && s.handles[h].Unique? && s.handles[h].len == 0
       case Share(h) => h in s.handles && s.handles[h].Unique?
       case Clone(h) => h in s.handles && s.handles[h].Shared?
       case TryUnique(h) => h in s.handles && s.handles[h].Shared?
       case DropHandle(h) => h in s.handles
       case Get(h) => h !in s.handles && s.owner
       case DropPool => s.owner
       case Continue(h) => h !in s.handles
  }

  // ---------- single steps

  function SetTask(s: State, t: Id, task: Task): State {
    s.(threads := s.threads[t := task])
  }

  function SetCount(s: State, b: Id, count: nat): State
    requires b in s.blocks
  {
    s.(blocks := s.blocks[b := s.blocks[b].(refCount := count)])
  }

  function DoAllocate(s: State, h: Id, b: Id, bytes: seq<Byte>): Outcome {
    Next(s.(blocks := s.blocks[b := Block(1, |bytes|, bytes)],
            handles := s.handles[h := Unique(b, |bytes|, 0)],
            allocs := s.allocs + 1))
  }

  function DoReallocate(s: State, h: Id, b: Id, cap: nat, tail: seq<Byte>): Outcome
    requires h in s.handles && s.handles[h].Unique?
  {
    var was := s.handles[h];
    if was.block !in s.blocks || s.blocks[was.block].allocBufferSize != was.cap || |s.blocks[was.block].bytes| < was.cap then
      Fault
    else if cap == was.cap then
      Next(s)
    else
      var blk := s.blocks[was.block];
      var kept := if cap < was.cap then cap else was.cap;
      Next(s.(blocks := (s.blocks - {was.block})[b := Block(blk.refCount, cap, blk.bytes[..kept] + tail)],
              handles := s.handles[h := Unique(b, cap, was.len)],
              allocs := s.allocs + 1,
              frees := s.frees + 1))
  }

  function DoWrite(s: State, h: Id, bytes: seq<Byte>, len: nat): Outcome
    requires h in s.handles && s.handles[h].Unique?
  {
    var u := s.handles[h];
    if u.block !in s.blocks || |s.blocks[u.block].bytes| != |bytes| then
      Fault
    else
      Next(s.(blocks := s.blocks[u.block := s.blocks[u.block].(bytes := bytes)],
              handles := s.handles[h := u.(len := len)]))
  }

  function DoRead(s: State, h: Id): Outcome
    requires h in s.handles
  {
    var b := s.handles[h].block;
    if b !in s.blocks || |s.blocks[b].bytes| < s.handles[h].len then Fault else Next(s)
  }

  // Shrinking to capacity 0 hands the block to `deallocate_buffer` without touching its count.
  function DoShrinkToZero(s: State, t: Id, h: Id): Outcome
    requires h in s.handles && s.handles[h].Unique?
  {
    var u := s.handles[h];
    Next(SetTask(s.(handles := s.handles - {h}), t, ShouldRetain(u.block, u.cap, Caller)))
  }

  function DoShare(s: State, h: Id): Outcome
    requires h in s.handles && s.handles[h].Unique?
  {
    Next(s.(handles := s.handles[h := Shared(s.handles[h].block, s.handles[h].len)]))
  }

  // `fetch_add`; the comparison with the limit is the thread's next step.
  function DoClone(s: State, t: Id, h: Id): Outcome
    requires h in s.handles && s.handles[h].Shared?
  {
    var b := s.handles[h].block;
    if b !in s.blocks then
      Fault
    else
      var was := s.blocks[b].refCount;
      Next(SetTask(SetCount(s, b, WrappingAdd(was, 1)), t, CloneCheck(b, s.handles[h].len, was)))
  }

  // `load`; the handle is consumed and comes back unchanged when others exist.
  function DoTryUnique(s: State, t: Id, h: Id): Outcome
    requires h in s.handles && s.handles[h].Shared?
  {
    var b := s.handles[h].block;
    if b !in s.blocks then Fault
    else if s.blocks[b].refCount != 1 then Next(s)
    else Next(SetTask(s.(handles := s.handles - {h}), t, ThawRead(b, s.handles[h].len)))
  }

  // `fetch_sub` on block `b` by thread `t`, which only goes on when it saw 1.
  function FetchSub(s: State, t: Id, b: Id, after: After): Outcome {
    if b !in s.blocks then
      Fault
    else
      var was := s.blocks[b].refCount;
      Next(SetTask(SetCount(s, b, WrappingSub(was, 1)), t,
                   if was == 1 then DropLoad(b, after) else Resume(after)))
  }

  function DoDropHandle(s: State, t: Id, h: Id): Outcome
    requires h in s.handles
  {
    FetchSub(s.(handles := s.handles - {h}), t, s.handles[h].block, Caller)
  }

  function DoGet(s: State, h: Id): Outcome {
    if s.queue == [] then Next(s)
    else Next(s.(queue := s.queue[1..],
                 handles := s.handles[h := Unique(s.queue[0].block, s.queue[0].cap, 0)]))
  }

  // Gives up one strong reference; whoever gives up the last one destroys the queue.
  function Release(s: State, t: Id, after: After): Outcome {
    if s.strong == 0 then Fault
    else Next(SetTask(s.(strong := s.strong - 1), t, if s.strong == 1 then Drain else Resume(after)))
  }

  function DoContinue(cfg: Config, s: State, t: Id, h: Id): Outcome {
    match TaskOf(s, t)
    case Idle => Next(s)
    case CloneCheck(b, len, seen) =>
      if MAX_REFCOUNT < seen then Next(s.(aborted := true))
      else Next(SetTask(s.(handles := s.handles[h := Shared(b, len)]), t, Idle))
    case ThawRead(b, len) =>
      if b !in s.blocks then Fault
      else Next(SetTask(s.(handles := s.handles[h := Unique(b, s.blocks[b].allocBufferSize, len)]), t, Idle))
    case DropLoad(b, after) =>
      if b !in s.blocks then Fault else Next(SetTask(s, t, DropStore(b, after)))
    case DropStore(b, after) =>
      if b !in s.blocks then Fault else Next(SetTask(SetCount(s, b, 1), t, DropReadCap(b, after)))
    case DropReadCap(b, after) =>
      if b !in s.blocks then Fault
      else Next(SetTask(s, t, ShouldRetain(b, s.blocks[b].allocBufferSize, after)))
    case ShouldRetain(b, cap, after) =>
      Next(SetTask(s, t, if cfg.shouldRetain(cap) then Upgrade(b, cap, after)
                         else GuardFree(b, cap, false, after)))
    case Upgrade(b, cap, after) =>
      if 0 < s.strong then Next(SetTask(s.(strong := s.strong + 1), t, Push(b, cap, after)))
      else Next(SetTask(s, t, GuardFree(b, cap, false, after)))
    case Push(b, cap, after) =>
      if |s.queue| < cfg.queueCapacity then
        Next(SetTask(s.(queue := s.queue + [Pooled(b, cap)]), t, ReleaseStrong(after)))
      else
        Next(SetTask(s, t, GuardFree(b, cap, true, after)))
    case GuardFree(b, cap, holding, after) =>
      if b !in s.blocks || s.blocks[b].allocBufferSize != cap then Fault
      else Next(SetTask(s.(blocks := s.blocks - {b}, frees := s.frees + 1), t,
                        if holding then ReleaseStrong(after) else Resume(after)))
    case ReleaseStrong(after) => Release(s, t, after)
    case Drain =>
      if s.queue == [] then Next(SetTask(s, t, Idle))
      else FetchSub(s.(queue := s.queue[1..]), t, s.queue[0].block, Teardown)
  }

  function Exec(cfg: Config, s: State, t: Id, a: Action): Outcome
    requires Enabled(cfg, s, t, a)
  {
    match a
    case Allocate(h, b, bytes) => DoAllocate(s, h, b, bytes)
    case Reallocate(h, b, cap, tail) => DoReallocate(s, h, b, cap, tail)
    case Write(h, bytes, len) => DoWrite(s, h, bytes, len)
    case Read(h) => DoRead(s, h)
    case ShrinkToZero(h) => DoShrinkToZero(s, t, h)
    case Share(h) => DoShare(s, h)
    case Clone(h) => DoClone(s, t, h)
    case TryUnique(h) => DoTryUnique(s, t, h)
    case DropHandle(h) => DoDropHandle(s, t, h)
    case Get(h) => DoGet(s, h)
    case DropPool => Release(s.(owner := false), t, Caller)
    case Continue(h) => DoContinue(cfg, s, t, h)
  }
}
