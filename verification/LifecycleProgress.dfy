/**
 Operations in flight finish, however their steps interleave, and once they have, nothing is
 left behind.
 */
module LifecycleProgress {
  import opened Words
  import opened Lifecycle
  import opened LifecycleInvariant
  import opened LifecycleSteps
  import opened LifecycleRuns

  // ---------- a measure that every step of every thread lowers

  // An upper bound on what a thread still does. A push is paid for before it is made: a queued
  // buffer weighs 8, enough to drop it in the teardown.
  function Weight(x: Task): nat {
    match x
    case Idle => 0
    case CloneCheck(_, _, _) => 1
    case ThawRead(_, _) => 1
    case DropLoad(_, after) => 5 + UpgradeWeight(after)
    case DropStore(_, after) => 4 + UpgradeWeight(after)
    case DropReadCap(_, after) => 3 + UpgradeWeight(after)
    case ShouldRetain(_, _, after) => 2 + UpgradeWeight(after)
    case Upgrade(_, _, after) => UpgradeWeight(after)
    case Push(_, _, _) => 11
    case GuardFree(_, _, holding, _) => if holding then 3 else 2
    case ReleaseStrong(_) => 2
    case Drain => 1
  }

  // A thread that is tearing the pool down finds no strong reference to upgrade to.
  function UpgradeWeight(after: After): nat {
    if after.Teardown? then 3 else 12
  }

  // Over threads 0 to n - 1.
  function Weights(s: State, n: nat): nat {
    if n == 0 then 0 else Weights(s, n - 1) + Weight(TaskOf(s, n - 1))
  }

  // An aborted process does nothing more.
  function Measure(cfg: Config, s: State): nat {
    if s.aborted then 0 else Weights(s, cfg.threads) + 8 * |s.queue|
  }

  lemma {:induction false} OneWeightChanges(s: State, s': State, t: Id, n: nat)
    requires forall t' :: t' != t ==> TaskOf(s', t') == TaskOf(s, t')
    ensures Weights(s', n) - Weights(s, n) == if 0 <= t < n then Weight(TaskOf(s', t)) - Weight(TaskOf(s, t)) else 0
  {
    if n > 0 {
      OneWeightChanges(s, s', t, n - 1);
      assert n - 1 != t ==> TaskOf(s', n - 1) == TaskOf(s, n - 1);
    }
  }

  lemma {:induction false} BusyHasWeight(s: State, t: Id, n: nat)
    requires 0 <= t < n && TaskOf(s, t) != Idle
    ensures 0 < Weights(s, n)
  {
    if t != n - 1 {
      BusyHasWeight(s, t, n - 1);
    }
  }

  lemma TeardownHoldsNothing(s: State, t: Id)
    requires PoolOk(s) && InTeardown(TaskOf(s, t))
    ensures s.strong == 0 && !HoldsStrong(TaskOf(s, t))
  {
    assert t in Destroyers(s.threads);
    assert HoldsStrong(TaskOf(s, t)) ==> t in Holders(s.threads);
  }

  lemma OnlyOneMoves(cfg: Config, s: State, t: Id, h: Id)
    requires Enabled(cfg, s, t, Continue(h)) && DoContinue(cfg, s, t, h).Next?
    ensures forall t' :: t' != t ==> TaskOf(DoContinue(cfg, s, t, h).state, t') == TaskOf(s, t')
  {}

  // What the thread pays for its step covers what it adds to the queue.
  lemma StepPays(cfg: Config, s: State, t: Id, h: Id)
    requires ValidConfig(cfg) && Enabled(cfg, s, t, Continue(h)) && DoContinue(cfg, s, t, h).Next?
    requires InTeardown(TaskOf(s, t)) ==> s.strong == 0
    ensures var s' := DoContinue(cfg, s, t, h).state;
            s'.aborted || Weight(TaskOf(s', t)) + 8 * |s'.queue| < Weight(TaskOf(s, t)) + 8 * |s.queue|
  {
    if TaskOf(s, t).Drain? {
      DrainPays(cfg, s, t, h);
    }
  }

  lemma DrainPays(cfg: Config, s: State, t: Id, h: Id)
    requires Enabled(cfg, s, t, Continue(h)) && DoContinue(cfg, s, t, h).Next? && TaskOf(s, t).Drain?
    ensures var s' := DoContinue(cfg, s, t, h).state;
            Weight(TaskOf(s', t)) + 8 * |s'.queue| < 1 + 8 * |s.queue|
  {}

  // Whatever the other threads are doing, a step of any thread lowers the common measure.
  lemma StepDecreases(cfg: Config, s: State, t: Id, h: Id)
    requires ValidConfig(cfg) && Inv(cfg, s) && Enabled(cfg, s, t, Continue(h))
    requires DoContinue(cfg, s, t, h).Next?
    ensures Measure(cfg, DoContinue(cfg, s, t, h).state) < Measure(cfg, s)
  {
    var p: Places :| InvAt(cfg, s, p);
    if InTeardown(TaskOf(s, t)) {
      TeardownHoldsNothing(s, t);
    }
    BusyHasWeight(s, t, cfg.threads);
    OnlyOneMoves(cfg, s, t, h);
    StepPays(cfg, s, t, h);
    OneWeightChanges(s, DoContinue(cfg, s, t, h).state, t, cfg.threads);
  }

  // ---------- runs that start nothing new

  predicate OnlyContinues(run: seq<Event>) {
    forall e :: e in run ==> e.action.Continue?
  }

  // Nobody is cloning or thawing.
  predicate NoPending(s: State) {
    forall t :: t in s.threads ==> !s.threads[t].CloneCheck? && !s.threads[t].ThawRead?
  }

  // No operation in flight can take another step.
  ghost predicate Stuck(cfg: Config, s: State) {
    forall t, h :: !Enabled(cfg, s, t, Continue(h))
  }

  // What finishing operations leaves alone: the pool's own handle, and all handles unless one is
  // in the making.
  lemma StepKeepsHandles(cfg: Config, s: State, t: Id, h: Id)
    requires Enabled(cfg, s, t, Continue(h)) && DoContinue(cfg, s, t, h).Next?
    ensures var s' := DoContinue(cfg, s, t, h).state;
            && s'.owner == s.owner
            && (NoPending(s) ==> NoPending(s') && s'.handles == s.handles && !s'.aborted)
  {
    var s' := DoContinue(cfg, s, t, h).state;
    if NoPending(s) {
      assert !TaskOf(s, t).CloneCheck? && !TaskOf(s, t).ThawRead?;
      assert !TaskOf(s', t).CloneCheck? && !TaskOf(s', t).ThawRead?;
      OnlyOneMoves(cfg, s, t, h);
      forall t' | t' in s'.threads
        ensures !s'.threads[t'].CloneCheck? && !s'.threads[t'].ThawRead?
      {
        assert TaskOf(s', t') == s'.threads[t'];
      }
    }
  }

  // Every interleaving of the operations in flight is shorter than the measure, and it starts
  // and loses nothing.
  lemma {:induction false} ContinuesAreBounded(cfg: Config, s: State, run: seq<Event>)
    requires ValidConfig(cfg) && Inv(cfg, s) && OnlyContinues(run) && Run(cfg, s, run).Reached?
    ensures var s' := Run(cfg, s, run).state;
            && |run| + Measure(cfg, s') <= Measure(cfg, s)
            && Inv(cfg, s') && s'.owner == s.owner
            && (NoPending(s) && !s.aborted ==> s'.handles == s.handles && NoPending(s') && !s'.aborted)
    decreases |run|
  {
    if run != [] {
      var Event(t, a) := run[0];
      assert run[0] in run && a == Continue(a.handle);
      StepKeepsInv(cfg, s, t, a);
      StepDecreases(cfg, s, t, a.handle);
      StepKeepsHandles(cfg, s, t, a.handle);
      ContinuesAreBounded(cfg, DoContinue(cfg, s, t, a.handle).state, run[1..]);
    }
  }

  // A name above all of those in use.
  lemma {:induction false} FreshId(ids: set<Id>) returns (x: Id)
    ensures forall y :: y in ids ==> y < x
  {
    x := 0;
    if ids != {} {
      var y := Pick(ids);
      x := FreshId(ids - {y});
      if x <= y {
        x := y + 1;
      }
      assert forall z :: z in ids ==> z == y || z in ids - {y};
    } else {
      assert forall z: Id :: z !in ids;
    }
  }

  lemma ThreadInRange(cfg: Config, s: State, t: Id)
    requires Inv(cfg, s) && t in s.threads
    ensures 0 <= t < cfg.threads
  {
    var p: Places :| InvAt(cfg, s, p);
    TaskKnown(cfg, s, p, t);
  }

  // An operation in flight is never blocked by another: no step is possible exactly when there
  // is none left, or the process has aborted.
  lemma StuckIffIdle(cfg: Config, s: State)
    requires Inv(cfg, s)
    ensures Stuck(cfg, s) <==> s.aborted || AllIdle(s)
  {
    var h := FreshId(s.handles.Keys);
    if Stuck(cfg, s) && !s.aborted {
      forall t | t in s.threads
        ensures s.threads[t] == Idle
      {
        ThreadInRange(cfg, s, t);
        assert !Enabled(cfg, s, t, Continue(h));
      }
    }
  }

  // So from any state of the invariant the operations in flight can be run to their end.
  lemma SettleAll(cfg: Config, s: State) returns (run: seq<Event>)
    requires ValidConfig(cfg) && Inv(cfg, s)
    ensures OnlyContinues(run) && Run(cfg, s, run).Reached? && Stuck(cfg, Run(cfg, s, run).state)
    decreases Measure(cfg, s)
  {
    run := [];
    if !Stuck(cfg, s) {
      var t: Id, h: Id :| Enabled(cfg, s, t, Continue(h));
      StepKeepsInv(cfg, s, t, Continue(h));
      StepDecreases(cfg, s, t, h);
      var rest := SettleAll(cfg, DoContinue(cfg, s, t, h).state);
      run := [Event(t, Continue(h))] + rest;
      assert run[1..] == rest;
    }
  }

  // Every way of running them to their end ends alike: all threads idle, or the process aborted.
  lemma EveryEndIsIdle(cfg: Config, s: State, run: seq<Event>)
    requires ValidConfig(cfg) && Inv(cfg, s) && OnlyContinues(run) && Run(cfg, s, run).Reached?
    requires Stuck(cfg, Run(cfg, s, run).state)
    ensures var s' := Run(cfg, s, run).state; s'.aborted || AllIdle(s')
  {
    ContinuesAreBounded(cfg, s, run);
    StuckIffIdle(cfg, Run(cfg, s, run).state);
  }

  lemma {:induction false} RunAppend(cfg: Config, s: State, run: seq<Event>, rest: seq<Event>)
    requires Run(cfg, s, run).Reached?
    ensures Run(cfg, s, run + rest) == Run(cfg, Run(cfg, s, run).state, rest)
    decreases |run|
  {
    if run == [] {
      assert run + rest == rest;
    } else {
      assert (run + rest)[1..] == run[1..] + rest;
      RunAppend(cfg, Exec(cfg, s, run[0].thread, run[0].action).state, run[1..], rest);
    }
  }

  lemma RunJoin(cfg: Config, s: State, before: seq<Event>, run: seq<Event>)
    requires Run(cfg, INITIAL, before) == Reached(s) && Run(cfg, s, run).Reached?
    ensures Reachable(cfg, Run(cfg, s, run).state)
  {
    RunAppend(cfg, INITIAL, before, run);
    assert Run(cfg, INITIAL, before + run) == Run(cfg, s, run);
  }

  // Once the pool is gone, every interleaving of the operations in flight is bounded, and every
  // one that has run to its end and left no handle has freed every block ever allocated: also
  // those where a return races the teardown. No handle is left if there was none and nobody was
  // making one.
  lemma EverythingIsFreed(cfg: Config, s: State, run: seq<Event>)
    requires ValidConfig(cfg) && Reachable(cfg, s) && !s.aborted && !s.owner
    requires OnlyContinues(run) && Run(cfg, s, run).Reached?
    ensures |run| <= Measure(cfg, s)
    ensures var s' := Run(cfg, s, run).state;
            && (Stuck(cfg, s') && !s'.aborted && s'.handles == map[] ==>
                  s'.blocks == map[] && s'.queue == [] && s'.allocs == s'.frees)
            && (s.handles == map[] && NoPending(s) ==> s'.handles == map[] && !s'.aborted)
  {
    ReachableInv(cfg, s);
    ContinuesAreBounded(cfg, s, run);
    var s' := Run(cfg, s, run).state;
    if Stuck(cfg, s') && !s'.aborted && s'.handles == map[] {
      EveryEndIsIdle(cfg, s, run);
      var before :| Run(cfg, INITIAL, before) == Reached(s);
      RunJoin(cfg, s, before, run);
      NoLeak(cfg, s');
    }
  }
}
