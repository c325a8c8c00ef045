/** The order of the pool's queue under any interleaving. */
module LifecycleQueue {
  import opened Words
  import opened Lifecycle
  import opened LifecycleInvariant
  import opened LifecycleRuns

  // The buffer a step put into the queue, if any: its thread was about to push, and is now about
  // to give its reference to the pool back.
  function Entered(s: State, t: Id, s': State): seq<Pooled> {
    var x, y := TaskOf(s, t), TaskOf(s', t);
    if x.Push? && y.ReleaseStrong? then [Pooled(x.block, x.cap)] else []
  }

  // The buffer a step took from it: as a new handle, or to drop it in the teardown.
  function Left(s: State, t: Id, a: Action, s': State): seq<Pooled> {
    var x, y := TaskOf(s, t), TaskOf(s', t);
    if a.Get? && a.handle in s'.handles && s'.handles[a.handle].Unique? then
      [Pooled(s'.handles[a.handle].block, s'.handles[a.handle].cap)]
    else if x.Drain? && y.DropLoad? && y.block in s'.blocks then
      [Pooled(y.block, s'.blocks[y.block].allocBufferSize)]
    else
      []
  }

  // Every other step leaves the queue as it is.
  lemma StepIsFifo(cfg: Config, s: State, t: Id, a: Action)
    requires ValidConfig(cfg) && Inv(cfg, s) && Enabled(cfg, s, t, a) && Exec(cfg, s, t, a).Next?
    ensures var s' := Exec(cfg, s, t, a).state;
            s.queue + (if a.Continue? then Entered(s, t, s') else []) == Left(s, t, a, s') + s'.queue
  {
    var p: Places :| InvAt(cfg, s, p);
    if s.queue != [] {
      assert SlotOk(cfg, s, p, s.queue[0]);
      assert s.queue == [s.queue[0]] + s.queue[1..];
    }
    hide InvAt;
    hide Entered;
    hide Left;
    hide DoContinue;
    if a.Continue? {
      ContinueIsFifo(cfg, s, t, a.handle);
    } else {
      StartIsFifo(cfg, s, t, a);
    }
  }

  lemma ContinueIsFifo(cfg: Config, s: State, t: Id, h: Id)
    requires Enabled(cfg, s, t, Continue(h)) && DoContinue(cfg, s, t, h).Next?
    requires s.queue != [] ==> Fits(s, s.queue[0].block, s.queue[0].cap) && s.blocks[s.queue[0].block].refCount == 1
    ensures var s' := DoContinue(cfg, s, t, h).state;
            s.queue + Entered(s, t, s') == Left(s, t, Continue(h), s') + s'.queue
  {
    if s.queue != [] {
      assert s.queue == [s.queue[0]] + s.queue[1..];
    }
  }

  lemma StartIsFifo(cfg: Config, s: State, t: Id, a: Action)
    requires Enabled(cfg, s, t, a) && !a.Continue? && Exec(cfg, s, t, a).Next?
    ensures s.queue == Left(s, t, a, Exec(cfg, s, t, a).state) + Exec(cfg, s, t, a).state.queue
  {
    if a.Get? && s.queue != [] {
      assert s.queue == [s.queue[0]] + s.queue[1..];
    }
  }

  // What entered and what left the queue along a run.
  function AllEntered(cfg: Config, s: State, run: seq<Event>): seq<Pooled>
    requires Run(cfg, s, run).Reached?
    decreases |run|
  {
    if run == [] then
      []
    else
      var s1 := Exec(cfg, s, run[0].thread, run[0].action).state;
      (if run[0].action.Continue? then Entered(s, run[0].thread, s1) else []) + AllEntered(cfg, s1, run[1..])
  }

  function AllLeft(cfg: Config, s: State, run: seq<Event>): seq<Pooled>
    requires Run(cfg, s, run).Reached?
    decreases |run|
  {
    if run == [] then
      []
    else
      var s1 := Exec(cfg, s, run[0].thread, run[0].action).state;
      Left(s, run[0].thread, run[0].action, s1) + AllLeft(cfg, s1, run[1..])
  }

  lemma {:induction false} RunIsFifo(cfg: Config, s: State, run: seq<Event>)
    requires ValidConfig(cfg) && Inv(cfg, s) && Run(cfg, s, run).Reached?
    ensures s.queue + AllEntered(cfg, s, run) == AllLeft(cfg, s, run) + Run(cfg, s, run).state.queue
    decreases |run|
  {
    if run != [] {
      var Event(t, a) := run[0];
      var s1, s' := Exec(cfg, s, t, a).state, Run(cfg, s, run).state;
      var put, got := if a.Continue? then Entered(s, t, s1) else [], Left(s, t, a, s1);
      StepKeepsInv(cfg, s, t, a);
      StepIsFifo(cfg, s, t, a);
      RunIsFifo(cfg, s1, run[1..]);
      var puts, gots := AllEntered(cfg, s1, run[1..]), AllLeft(cfg, s1, run[1..]);
      hide Inv;
      hide Exec;
      Regroup(s.queue, put, got, s1.queue, puts, gots, s'.queue);
    }
  }

  lemma Regroup<T>(q: seq<T>, put: seq<T>, got: seq<T>, q1: seq<T>, puts: seq<T>, gots: seq<T>, q': seq<T>)
    requires q + put == got + q1 && q1 + puts == gots + q'
    ensures q + (put + puts) == (got + gots) + q'
  {
    assert q + (put + puts) == (q + put) + puts == (got + q1) + puts == got + (q1 + puts) == got + (gots + q') == (got + gots) + q';
  }

  // Over any interleaving, buffers leave the queue in the order in which they entered it: what
  // entered is what left, and then what still waits.
  lemma QueueIsFifo(cfg: Config, run: seq<Event>)
    requires ValidConfig(cfg) && Run(cfg, INITIAL, run).Reached?
    ensures AllEntered(cfg, INITIAL, run) == AllLeft(cfg, INITIAL, run) + Run(cfg, INITIAL, run).state.queue
  {
    InitialInv(cfg);
    RunIsFifo(cfg, INITIAL, run);
    assert [] + AllEntered(cfg, INITIAL, run) == AllEntered(cfg, INITIAL, run);
  }
}
