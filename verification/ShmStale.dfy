/** The catalog test of device_write holds no semaphore, so a write can outlive its device: a concrete
    execution in which a newly connected device starts with somebody else's pending command. */
module ShmStale {
  import opened Basics
  import opened ShmBlock
  import opened ShmHistory
  import opened ShmProtocol
  import opened ShmDiscipline
  import opened ShmExecution
  import opened ShmSolo

  function Last<T>(s: seq<T>): (r: T)
    requires s != []
  {
    s[|s| - 1]
  }

  lemma Extend(cs: seq<Config>, ms: seq<Move>, m: Move, c: Config)
    requires Execution(cs, ms) && Next(Last(cs), m, c)
    ensures Execution(cs + [c], ms + [m]) && Last(cs + [c]) == c
  {
    hide Next, Init;
    var cs', ms' := cs + [c], ms + [m];
    forall k | 0 <= k < |ms'| ensures Next(cs'[k], ms'[k], cs'[k + 1]) {
      if k < |ms| {
        assert Next(cs[k], ms[k], cs[k + 1]);
      }
    }
  }

  ghost predicate OthersHoldNothing(c: Config, t: nat) { forall u: nat, s :: u != t ==> !Holds(c, u, s) }

  lemma AloneCanStep(c: Config, t: nat)
    requires ThreadsOk(c) && SemsOk(c) && IsBusy(c, t) && OthersHoldNothing(c, t)
    ensures CanStep(c, t)
  {
    var th := c.threads[t];
    if th.todo != [] && th.todo[0].Acquire? {
      assert ThreadOk(th);
      SoundParts(th.call, th.todo);
      assert !Taken(c, th.todo[0].s);
    }
  }

  lemma AdvanceOthers(c: Config, t: nat)
    requires CanStep(c, t) && ThreadOk(c.threads[t]) && OthersHoldNothing(c, t)
    ensures OthersHoldNothing(Advance(c, t), t)
  {
    forall u: nat, s | u != t ensures !Holds(Advance(c, t), u, s) { AdvanceHolds(c, t, u, s); }
  }

  /** A thread that nobody disturbs can run its call to the end. */
  lemma {:induction false} RunToEnd(cs: seq<Config>, ms: seq<Move>, t: nat) returns (cs': seq<Config>, ms': seq<Move>)
    requires Execution(cs, ms) && IsBusy(Last(cs), t) && OthersHoldNothing(Last(cs), t)
    ensures Execution(cs', ms') && OthersHoldNothing(Last(cs'), t)
    ensures var c, c' := Last(cs), Last(cs');
            var th := c.threads[t];
            && c'.threads == c.threads[t := Idle]
            && CallOk(th.call) && LocalOk(th.call, th.local)
            && c'.block == RunAlone(th.call, th.todo, th.local, c.block).1
    decreases Weight(Last(cs).threads[t].todo)
  {
    hide RunAlone, Sound, HeldOf, Init;
    var c := Last(cs);
    SemsAlwaysOk(cs, ms, |cs| - 1);
    var th := c.threads[t];
    assert ThreadOk(th);
    AloneCanStep(c, t);
    var c1 := Advance(c, t);
    AdvanceOthers(c, t);
    assert Next(c, Go(t), c1);
    Extend(cs, ms, Go(t), c1);
    cs', ms' := cs + [c1], ms + [Go(t)];
    if th.todo == [] {
      EndRun(th.call, Release(CatalogSem), th.local, c.block);
    } else {
      SoundParts(th.call, th.todo);
      WeightDrops(th.call, th.todo, c.block);
      OneStep(th.call, th.todo, th.local, c.block);
      cs', ms' := RunToEnd(cs', ms', t);
    }
  }

  /** An idle thread makes a whole call. */
  lemma {:induction false} WholeCall(cs: seq<Config>, ms: seq<Move>, t: nat, call: Call) returns (cs': seq<Config>, ms': seq<Move>)
    requires Execution(cs, ms) && t < |Last(cs).threads| && Last(cs).threads[t].Idle? && OthersHoldNothing(Last(cs), t) && CallOk(call)
    ensures Execution(cs', ms') && OthersHoldNothing(Last(cs'), t)
    ensures Last(cs').threads == Last(cs).threads && Last(cs').block == Apply(Last(cs).block, call)
  {
    hide RunAlone, Sound, HeldOf, Init, Program;
    var c := Last(cs);
    var c1 := Begin(c, t, call);
    assert Next(c, Start(t, call), c1);
    Extend(cs, ms, Start(t, call), c1);
    forall u: nat, s | u != t ensures !Holds(c1, u, s) { assert !Holds(c, u, s); }
    AloneAsOneStep(call, c.block);
    cs', ms' := RunToEnd(cs + [c1], ms + [Start(t, call)], t);
    assert Last(cs').threads == c.threads;
  }

  // ------------------------------------------------------------------ the execution

  const STALE: Call := Write(0, EXECUTOR, COMMAND, {0}, [ZERO_WORD])

  function Fresh(): (b: Shared)
    ensures Initial(b)
  {
    Block({}, Repeat(33, {}), Repeat(33, ALL_BITS), Repeat(33, {}), Repeat(32, ZeroRow()), Repeat(32, ZeroRow()), Repeat(32, DevId(0, 0, 0)))
  }

  lemma AllIdle(c: Config, t: nat)
    requires forall u :: 0 <= u < |c.threads| ==> c.threads[u].Idle?
    ensures OthersHoldNothing(c, t)
  {
  }

  /** The executor's write passes the catalog test and is overtaken by a whole disconnect. */
  lemma {:induction false} Overtaken(id: DevId) returns (cs: seq<Config>, ms: seq<Move>)
    ensures Execution(cs, ms) && OthersHoldNothing(Last(cs), 0) && OthersHoldNothing(Last(cs), 1)
    ensures |Last(cs).threads| == 2 && Last(cs).threads[1].Idle?
    ensures var th := Last(cs).threads[0];
            th.Busy? && th.call == STALE && LocalOk(STALE, th.local) && th.todo == WriteProgram(0, EXECUTOR, COMMAND, {0}, [ZERO_WORD])
    ensures Last(cs).block.catalog == {}
  {
    hide Program, HeldOf, WriteProgram, Sound;
    var c0 := Config(Fresh(), map[], [Idle, Idle], [], []);
    assert Execution([c0], []);
    AllIdle(c0, 0);
    cs, ms := WholeCall([c0], [], 0, Connect(id));
    var c1 := Last(cs);
    assert c1.threads == [Idle, Idle] && c1.block.catalog == {0};
    cs, ms := BeginStale(cs, ms);
    cs, ms := WholeCall(cs, ms, 1, Disconnect(0));
    QuietThreads(Last(cs));
  }

  lemma QuietThreads(c: Config)
    requires |c.threads| == 2 && c.threads[1].Idle? && c.threads[0].Busy? && c.threads[0].call == STALE
    requires c.threads[0].todo == WriteProgram(0, EXECUTOR, COMMAND, {0}, [ZERO_WORD])
    ensures OthersHoldNothing(c, 0) && OthersHoldNothing(c, 1)
  {
    hide HeldOf, WriteProgram;
    WriteProgramSound(STALE, 0, EXECUTOR, COMMAND, {0}, [ZERO_WORD]);
  }

  lemma {:induction false} BeginStale(cs: seq<Config>, ms: seq<Move>) returns (cs': seq<Config>, ms': seq<Move>)
    requires Execution(cs, ms) && Last(cs).threads == [Idle, Idle] && 0 in Last(cs).block.catalog
    ensures Execution(cs', ms') && OthersHoldNothing(Last(cs'), 1) && |Last(cs').threads| == 2 && Last(cs').threads[1].Idle?
    ensures var th := Last(cs').threads[0];
            th.Busy? && th.call == STALE && LocalOk(STALE, th.local) && th.todo == WriteProgram(0, EXECUTOR, COMMAND, {0}, [ZERO_WORD])
    ensures Last(cs').block == Last(cs).block
  {
    hide HeldOf, WriteProgram, Sound, Init;
    var c := Last(cs);
    var c1 := Begin(c, 0, STALE);
    assert Next(c, Start(0, STALE), c1);
    Extend(cs, ms, Start(0, STALE), c1);
    ProgramSound(STALE);
    var rest := WriteProgram(0, EXECUTOR, COMMAND, {0}, [ZERO_WORD]);
    assert c1.threads[0].todo == [IfConnected(0)] + rest && c1.threads[0].todo[1..] == rest;
    SoundParts(STALE, c1.threads[0].todo);
    var c2 := Advance(c1, 0);
    assert Next(c1, Go(0), c2);
    Extend(cs + [c1], ms + [Start(0, STALE)], Go(0), c2);
    cs', ms' := cs + [c1] + [c2], ms + [Start(0, STALE)] + [Go(0)];
    QuietThreads(c2);
  }

  /** Once calls interleave a free slot need not be clean. */
  lemma {:induction false} StaleSlot(id: DevId) returns (cs: seq<Config>, ms: seq<Move>)
    ensures Execution(cs, ms) && Last(cs).threads == [Idle, Idle]
    ensures var b := Last(cs).block; b.catalog == {} && 0 in b.cmdMap[1] && !FreeSlotsClean(b)
  {
    hide WriteProgram, RunAlone, Next, Init;
    cs, ms := Overtaken(id);
    var c := Last(cs);
    WriteRuns(STALE, 0, c.threads[0].local, c.block);
    cs, ms := RunToEnd(cs, ms, 0);
    assert Last(cs).threads[1].Idle?;
  }

  /** The next device to connect starts with the pending command of the device before it. */
  lemma {:induction false} StaleCommand(id: DevId, id': DevId) returns (cs: seq<Config>, ms: seq<Move>)
    ensures Execution(cs, ms) && Last(cs).threads == [Idle, Idle]
    ensures var b := Last(cs).block; 0 in b.catalog && b.ids[0] == id' && 0 in b.cmdMap[1] && !StartsClean(b, 0, id')
  {
    hide Next, Init;
    cs, ms := StaleSlot(id);
    AllIdle(Last(cs), 1);
    cs, ms := WholeCall(cs, ms, 1, Connect(id'));
  }
}
