/** Every interleaving of any number of threads running the programs of ShmProtocol: mutual exclusion,
    absence of deadlock, and the equivalence of every execution to one in which each access to a stream
    happens in one step, in the order in which the stream's semaphore was acquired. */
module ShmExecution {
  import opened Basics
  import opened ShmBlock
  import opened ShmHistory
  import opened ShmProtocol
  import opened ShmDiscipline

  /** A thread is between calls or inside one. `started` is the length of the access log when the call
      began, `took` the position of the call's latest stream access in the log, -1 before the first. */
  datatype Thread = Idle | Busy(call: Call, todo: seq<Instr>, local: Local, started: nat, took: int)

  datatype Access = Access(tid: nat, call: Call, stream: Stream, ix: nat)

  datatype Completed = Completed(tid: nat, call: Call, local: Local, started: nat, took: int, finished: nat)

  /** `sems` holds the values of the semaphores that differ from their initial 1. `log` lists the stream
      accesses in the order of their semaphore acquisitions, `done` the calls that have returned. */
  datatype Config = Config(block: Shared, sems: map<Sem, nat>, threads: seq<Thread>, log: seq<Access>, done: seq<Completed>)

  function Value(c: Config, s: Sem): (v: nat) { if s in c.sems then c.sems[s] else 1 }

  ghost predicate ThreadOk(th: Thread)
  {
    th.Busy? ==> CallOk(th.call) && Sound(th.call, th.todo) && LocalOk(th.call, th.local)
  }

  ghost predicate ThreadsOk(c: Config) { forall t :: 0 <= t < |c.threads| ==> ThreadOk(c.threads[t]) }

  predicate IsBusy(c: Config, t: nat) { t < |c.threads| && c.threads[t].Busy? }

  /** A thread is blocked only at a semaphore whose value is 0. */
  predicate CanStep(c: Config, t: nat)
  {
    IsBusy(c, t) && (c.threads[t].todo != [] && c.threads[t].todo[0].Acquire? ==> Value(c, c.threads[t].todo[0].s) > 0)
  }

  function SemsAfter(c: Config, i: Instr): (r: map<Sem, nat>)
    requires i.Acquire? ==> Value(c, i.s) > 0
  {
    match i
    case Acquire(s) => c.sems[s := Value(c, s) - 1]
    case Release(s) => c.sems[s := Value(c, s) + 1]
    case _ => c.sems
  }

  predicate Accesses(i: Instr) { i.Acquire? && IsStreamSem(i.s) }

  function LogAfter(c: Config, t: nat, call: Call, i: Instr): (r: seq<Access>)
  {
    if Accesses(i) then c.log + [Access(t, call, StreamOf(i.s), i.s.ix)] else c.log
  }

  ghost function ThreadAfter(c: Config, th: Thread): (r: Thread)
    requires th.Busy? && ThreadOk(th) && th.todo != []
  {
    Busy(th.call, ExecTodo(th.call, th.todo, c.block), ExecLocal(th.call, th.todo[0], th.local, c.block), th.started,
         if Accesses(th.todo[0]) then |c.log| else th.took)
  }

  /** Thread `t` executes one instruction, or returns from its call. */
  ghost function Advance(c: Config, t: nat): (r: Config)
    requires CanStep(c, t) && ThreadOk(c.threads[t])
  {
    var th := c.threads[t];
    if th.todo == [] then
      Config(c.block, c.sems, c.threads[t := Idle], c.log,
             c.done + [Completed(t, th.call, th.local, th.started, th.took, |c.log|)])
    else
      Config(ExecBlock(th.call, th.todo[0], c.block), SemsAfter(c, th.todo[0]), c.threads[t := ThreadAfter(c, th)],
             LogAfter(c, t, th.call, th.todo[0]), c.done)
  }

  /** Idle thread `t` enters a call. */
  function Begin(c: Config, t: nat, call: Call): (r: Config)
    requires t < |c.threads| && CallOk(call)
  {
    Config(c.block, c.sems, c.threads[t := Busy(call, Program(call), StartLocal(call), |c.log|, -1)], c.log, c.done)
  }

  datatype Move = Start(t: nat, call: Call) | Go(t: nat)

  ghost predicate Next(c: Config, m: Move, c': Config)
  {
    match m
    case Start(t, call) => t < |c.threads| && c.threads[t].Idle? && CallOk(call) && c' == Begin(c, t, call)
    case Go(t) => CanStep(c, t) && ThreadOk(c.threads[t]) && c' == Advance(c, t)
  }

  ghost predicate Init(c: Config)
  {
    && Initial(c.block) && c.sems == map[] && c.log == [] && c.done == []
    && forall t :: 0 <= t < |c.threads| ==> c.threads[t].Idle?
  }

  /** An execution: configurations `cs` joined by moves `ms`. */
  ghost predicate Execution(cs: seq<Config>, ms: seq<Move>)
  {
    && |cs| == |ms| + 1 && Init(cs[0])
    && forall k :: 0 <= k < |ms| ==> Next(cs[k], ms[k], cs[k + 1])
  }

  lemma NobodyBusy(c: Config, t: nat)
    requires Init(c)
    ensures !IsBusy(c, t)
  {
  }

  // ------------------------------------------------------------------ mutual exclusion

  predicate Holds(c: Config, t: nat, s: Sem) { IsBusy(c, t) && s in HeldOf(c.threads[t].todo) }

  ghost predicate Taken(c: Config, s: Sem) { exists t: nat :: Holds(c, t, s) }

  /** A semaphore's value is 0 or 1, 0 exactly while some thread holds it, and then only one does. */
  ghost predicate SemsOk(c: Config)
  {
    && (forall t: nat, u: nat, s :: Holds(c, t, s) && Holds(c, u, s) ==> t == u)
    && (forall s :: Value(c, s) == if Taken(c, s) then 0 else 1)
  }

  lemma AdvanceHolds(c: Config, t: nat, u: nat, s: Sem)
    requires CanStep(c, t) && ThreadOk(c.threads[t])
    ensures Holds(Advance(c, t), u, s) <==>
              if u == t && c.threads[t].todo != [] then s in HoldAfter(c.threads[t].todo[0], HeldOf(c.threads[t].todo))
              else if u == t then false
              else Holds(c, u, s)
    ensures u == t && c.threads[t].todo == [] ==> !Holds(c, u, s)
  {
    var th := c.threads[t];
    if th.todo != [] {
      SoundParts(th.call, th.todo);
      ExecSound(th.call, th.todo, c.block);
    }
  }

  lemma AdvanceKeepsExclusion(c: Config, t: nat, u: nat, v: nat, s: Sem)
    requires CanStep(c, t) && ThreadOk(c.threads[t]) && SemsOk(c)
    requires Holds(Advance(c, t), u, s) && Holds(Advance(c, t), v, s)
    ensures u == v
  {
    hide HeldOf, Advance;
    assert s in HeldOf(c.threads[t].todo) ==> Holds(c, t, s);
    assert Holds(c, u, s) || Holds(c, v, s) ==> Taken(c, s);
    AdvanceHolds(c, t, u, s);
    AdvanceHolds(c, t, v, s);
  }

  lemma AdvanceKeepsValues(c: Config, t: nat, s: Sem)
    requires CanStep(c, t) && ThreadOk(c.threads[t]) && SemsOk(c)
    ensures Value(Advance(c, t), s) == if Taken(Advance(c, t), s) then 0 else 1
  {
    var th, c' := c.threads[t], Advance(c, t);
    forall u: nat ensures Holds(c', u, s) <==>
        if u == t && th.todo != [] then s in HoldAfter(th.todo[0], HeldOf(th.todo)) else if u == t then false else Holds(c, u, s)
    {
      AdvanceHolds(c, t, u, s);
    }
    if th.todo != [] { SoundParts(th.call, th.todo); }
    hide HeldOf;
    if th.todo != [] && th.todo[0] == Acquire(s) {
      assert Holds(c', t, s);
    } else if th.todo != [] && th.todo[0] == Release(s) {
      assert Holds(c, t, s);
    } else {
      AdvanceHolds(c, t, t, s);
      forall u: nat ensures Holds(c', u, s) <==> Holds(c, u, s) {
        if u == t && th.todo != [] { assert Holds(c, t, s) <==> s in HeldOf(th.todo); }
      }
      assert Taken(c', s) <==> Taken(c, s);
      assert Value(c', s) == Value(c, s);
    }
  }

  lemma NextKeepsSems(c: Config, m: Move, c': Config)
    requires Next(c, m, c') && ThreadsOk(c) && SemsOk(c)
    ensures ThreadsOk(c') && SemsOk(c')
  {
    match m
    case Start(t, call) =>
      ProgramSound(call);
      forall u: nat, s ensures Holds(c', u, s) <==> Holds(c, u, s) {}
      forall s ensures Taken(c', s) <==> Taken(c, s) {}
    case Go(t) =>
      var th := c.threads[t];
      if th.todo != [] {
        ExecSound(th.call, th.todo, c.block);
      }
      forall u: nat, v: nat, s | Holds(c', u, s) && Holds(c', v, s) ensures u == v { AdvanceKeepsExclusion(c, t, u, v, s); }
      forall s ensures Value(c', s) == if Taken(c', s) then 0 else 1 { AdvanceKeepsValues(c, t, s); }
  }

  lemma {:induction false} SemsAlwaysOk(cs: seq<Config>, ms: seq<Move>, n: nat)
    requires Execution(cs, ms) && n < |cs|
    ensures ThreadsOk(cs[n]) && SemsOk(cs[n])
  {
    if n > 0 {
      SemsAlwaysOk(cs, ms, n - 1);
      NextKeepsSems(cs[n - 1], ms[n - 1], cs[n]);
    }
  }

  /** In no reachable configuration are two threads about to execute instructions guarded by a common
      semaphore: guarded accesses never race. */
  lemma NoRaces(cs: seq<Config>, ms: seq<Move>, n: nat, t: nat, u: nat, s: Sem)
    requires Execution(cs, ms) && n < |cs| && t != u
    requires IsBusy(cs[n], t) && cs[n].threads[t].todo != [] && s in Guards(cs[n].threads[t].todo[0])
    requires IsBusy(cs[n], u) && cs[n].threads[u].todo != []
    ensures s !in Guards(cs[n].threads[u].todo[0])
  {
    SemsAlwaysOk(cs, ms, n);
    var x, y := cs[n].threads[t], cs[n].threads[u];
    assert ThreadOk(x) && ThreadOk(y);
    SoundParts(x.call, x.todo);
    SoundParts(y.call, y.todo);
    if s in Guards(y.todo[0]) {
      assert Holds(cs[n], t, s) && Holds(cs[n], u, s);
    }
  }

  // ------------------------------------------------------------------ no deadlock

  /** A blocked thread waits for a semaphore ranked above all it holds; following holders must end. */
  lemma {:induction false} SomeThreadSteps(c: Config, t: nat) returns (u: nat)
    requires ThreadsOk(c) && SemsOk(c) && IsBusy(c, t)
    ensures CanStep(c, u)
    decreases if CanStep(c, t) then 0 else 6 - Rank(c.threads[t].todo[0].s)
  {
    if CanStep(c, t) {
      u := t;
    } else {
      var s := c.threads[t].todo[0].s;
      assert Taken(c, s);
      var h: nat :| Holds(c, h, s);
      if CanStep(c, h) {
        u := h;
      } else {
        var th := c.threads[h];
        assert ThreadOk(th);
        SoundParts(th.call, th.todo);
        assert Rank(s) < Rank(th.todo[0].s);
        u := SomeThreadSteps(c, h);
      }
    }
  }

  /** In every reachable configuration with an unfinished call some thread can step. */
  lemma DeadlockFree(cs: seq<Config>, ms: seq<Move>, n: nat, t: nat)
    requires Execution(cs, ms) && n < |cs| && IsBusy(cs[n], t)
    ensures exists u :: CanStep(cs[n], u)
  {
    SemsAlwaysOk(cs, ms, n);
    var u := SomeThreadSteps(cs[n], t);
  }
}
