/** What handles show: a step changes it for the handle it is made on, and for no other. */
module LifecycleContents {
  import opened Words
  import opened Lifecycle
  import opened LifecycleInvariant
  import opened LifecycleSteps
  import opened LifecycleRuns
  import opened LifecycleFreeze

  // The bytes handle `h` shows.
  function Shown(s: State, h: Id): seq<Byte>
    requires h in s.handles
  {
    var x := s.handles[h];
    if x.block in s.blocks && x.len <= |s.blocks[x.block].bytes| then s.blocks[x.block].bytes[..x.len] else []
  }

  // The handle and its block's bytes and recorded capacity are as they were.
  predicate Untouched(s: State, s': State, h: Id)
    requires h in s.handles
  {
    var b := s.handles[h].block;
    && h in s'.handles && s'.handles[h] == s.handles[h]
    && b in s.blocks && b in s'.blocks
    && s'.blocks[b].bytes == s.blocks[b].bytes && s'.blocks[b].allocBufferSize == s.blocks[b].allocBufferSize
  }

  lemma UntouchedShows(s: State, s': State, h: Id)
    requires h in s.handles && Untouched(s, s', h)
    ensures Shown(s', h) == Shown(s, h)
  {}

  predicate Names(a: Action, h: Id) { !a.DropPool? && a.handle == h }

  // A block held by one handle is another's only if neither is unique, and nobody drops it.
  lemma HeldApart(cfg: Config, s: State, h: Id)
    requires Inv(cfg, s) && h in s.handles
    ensures s.handles[h].block in s.blocks && |s.blocks[s.handles[h].block].bytes| == s.blocks[s.handles[h].block].allocBufferSize
    ensures s.handles[h].len <= s.blocks[s.handles[h].block].allocBufferSize
    ensures s.handles[h].Unique? ==> s.handles[h].cap == s.blocks[s.handles[h].block].allocBufferSize
    ensures forall g :: g in s.handles && g != h && s.handles[g].Unique? ==> s.handles[g].block != s.handles[h].block
    ensures forall t :: t in s.threads && IsDropper(s.threads[t]) ==> s.threads[t].block != s.handles[h].block
    ensures forall i :: 0 <= i < |s.queue| ==> s.queue[i].block != s.handles[h].block
  {
    var p: Places :| InvAt(cfg, s, p);
    HandleKnown(cfg, s, p, h);
    forall g | g in s.handles && g != h && s.handles[g].Unique?
      ensures s.handles[g].block != s.handles[h].block
    {
      HandleKnown(cfg, s, p, g);
    }
    assert h in HandlesOf(s, s.handles[h].block);
    HeldOnly(cfg, s, s.handles[h].block);
  }

  // No step of any thread changes what a handle it does not name is or shows.
  lemma OthersUntouched(cfg: Config, s: State, t: Id, a: Action, h: Id)
    requires ValidConfig(cfg) && Inv(cfg, s) && Enabled(cfg, s, t, a) && h in s.handles && !Names(a, h)
    ensures Exec(cfg, s, t, a).Next?
    ensures var s' := Exec(cfg, s, t, a).state; Untouched(s, s', h) && Shown(s', h) == Shown(s, h)
  {
    StepKeepsInv(cfg, s, t, a);
    HeldApart(cfg, s, h);
    hide Inv;
    var s' := Exec(cfg, s, t, a).state;
    if a.Continue? {
      ContinueLeaves(cfg, s, t, a.handle, h);
    } else {
      StartLeaves(cfg, s, t, a, h);
    }
    UntouchedShows(s, s', h);
  }

  lemma ContinueLeaves(cfg: Config, s: State, t: Id, x: Id, h: Id)
    requires Enabled(cfg, s, t, Continue(x)) && h in s.handles && s.handles[h].block in s.blocks
    requires IsDropper(TaskOf(s, t)) ==> TaskOf(s, t).block != s.handles[h].block
    requires forall i :: 0 <= i < |s.queue| ==> s.queue[i].block != s.handles[h].block
    requires DoContinue(cfg, s, t, x).Next?
    ensures Untouched(s, DoContinue(cfg, s, t, x).state, h)
  {
    var b := s.handles[h].block;
    BlockStays(cfg, s, t, x, b, Snapshot(0, s.blocks[b].allocBufferSize, s.blocks[b].bytes));
    ContinueHandles(cfg, s, t, x);
  }

  lemma StartLeaves(cfg: Config, s: State, t: Id, a: Action, h: Id)
    requires Enabled(cfg, s, t, a) && !a.Continue? && h in s.handles && s.handles[h].block in s.blocks && !Names(a, h)
    requires forall g :: g in s.handles && g != h && s.handles[g].Unique? ==> s.handles[g].block != s.handles[h].block
    requires Exec(cfg, s, t, a).Next?
    ensures Untouched(s, Exec(cfg, s, t, a).state, h)
  {}

  // ---------- the handle a step names

  // A new buffer is empty, in a block of the capacity asked for.
  lemma AllocateShows(cfg: Config, s: State, t: Id, h: Id, b: Id, bytes: seq<Byte>)
    requires Enabled(cfg, s, t, Allocate(h, b, bytes))
    ensures var o := Exec(cfg, s, t, Allocate(h, b, bytes));
            && o.Next? && h in o.state.handles && Shown(o.state, h) == []
            && o.state.handles[h] == Unique(b, |bytes|, 0)
            && b in o.state.blocks && o.state.blocks[b] == Block(1, |bytes|, bytes)
            && o.state.allocs == s.allocs + 1 && o.state.frees == s.frees
  {}

  // Reallocating changes the capacity and keeps what is shown, and of the bytes behind it those
  // that fit.
  lemma ReallocateShows(cfg: Config, s: State, t: Id, h: Id, b: Id, cap: nat, tail: seq<Byte>)
    requires ValidConfig(cfg) && Inv(cfg, s) && Enabled(cfg, s, t, Reallocate(h, b, cap, tail))
    ensures var o, was := Exec(cfg, s, t, Reallocate(h, b, cap, tail)), s.handles[h];
            && (cap == was.cap ==> o == Next(s))
            && (cap != was.cap ==>
                  && o.Next? && h in o.state.handles && Shown(o.state, h) == Shown(s, h)
                  && o.state.handles[h] == Unique(b, cap, was.len)
                  && b in o.state.blocks && o.state.blocks[b].allocBufferSize == |o.state.blocks[b].bytes| == cap
                  && o.state.blocks[b].refCount == 1 && (b != was.block ==> was.block !in o.state.blocks)
                  && was.block in s.blocks
                  && (forall i :: 0 <= i < cap && i < was.cap ==>
                        i < |s.blocks[was.block].bytes| && o.state.blocks[b].bytes[i] == s.blocks[was.block].bytes[i])
                  && o.state.allocs == s.allocs + 1 && o.state.frees == s.frees + 1)
  {
    StepKeepsInv(cfg, s, t, Reallocate(h, b, cap, tail));
    HeldApart(cfg, s, h);
    UniqueCounts(cfg, s, h);
    hide Inv;
  }

  lemma UniqueCounts(cfg: Config, s: State, h: Id)
    requires Inv(cfg, s) && h in s.handles && s.handles[h].Unique?
    ensures s.handles[h].block in s.blocks && s.blocks[s.handles[h].block].refCount == 1
  {
    var p: Places :| InvAt(cfg, s, p);
    HandleKnown(cfg, s, p, h);
  }

  // A write shows what was written, up to the new length, and moves nothing.
  lemma WriteShows(cfg: Config, s: State, t: Id, h: Id, bytes: seq<Byte>, len: nat)
    requires ValidConfig(cfg) && Inv(cfg, s) && Enabled(cfg, s, t, Write(h, bytes, len))
    ensures var o, was := Exec(cfg, s, t, Write(h, bytes, len)), s.handles[h];
            && o.Next? && h in o.state.handles && Shown(o.state, h) == bytes[..len]
            && o.state.handles[h] == Unique(was.block, was.cap, len)
            && was.block in s.blocks && was.block in o.state.blocks
            && o.state.blocks[was.block] == s.blocks[was.block].(bytes := bytes)
            && o.state.allocs == s.allocs && o.state.frees == s.frees
  {
    StepKeepsInv(cfg, s, t, Write(h, bytes, len));
    HeldApart(cfg, s, h);
  }

  // Reading and sharing change no byte, and a pooled buffer comes back empty, alone with the
  // longest-waiting block.
  lemma RestShows(cfg: Config, s: State, t: Id, h: Id)
    requires ValidConfig(cfg) && Inv(cfg, s)
    ensures Enabled(cfg, s, t, Read(h)) ==> Exec(cfg, s, t, Read(h)) == Next(s)
    ensures Enabled(cfg, s, t, Share(h)) ==>
              var o := Exec(cfg, s, t, Share(h));
              && o.Next? && o.state.blocks == s.blocks && h in o.state.handles && Shown(o.state, h) == Shown(s, h)
              && o.state.handles[h] == Shared(s.handles[h].block, s.handles[h].len)
    ensures Enabled(cfg, s, t, Get(h)) && s.queue != [] ==>
              var o := Exec(cfg, s, t, Get(h));
              && o.Next? && o.state.blocks == s.blocks && h in o.state.handles && Shown(o.state, h) == []
              && o.state.handles[h] == Unique(s.queue[0].block, s.queue[0].cap, 0)
    ensures Enabled(cfg, s, t, Get(h)) && s.queue == [] ==> Exec(cfg, s, t, Get(h)) == Next(s)
  {
    if Enabled(cfg, s, t, Read(h)) {
      StepKeepsInv(cfg, s, t, Read(h));
    }
  }
}
