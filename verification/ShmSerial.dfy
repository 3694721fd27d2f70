/** Every interleaving of the shared-memory calls acts on each stream of each device as if the calls had run
    one at a time, in the order in which they acquired that stream's semaphore. */
module ShmSerial {
  import opened Basics
  import opened ShmBlock
  import opened ShmHistory
  import opened ShmProtocol
  import opened ShmDiscipline
  import opened ShmExecution

  predicate OnStream(a: Access, st: Stream, ix: nat) { a.stream == st && a.ix == ix }

  predicate LogOk(log: seq<Access>) { forall i :: 0 <= i < |log| ==> CallOk(log[i].call) }

  /** The stream after the logged calls on it, each in one step, in log order. */
  function Replay(init: StreamState, log: seq<Access>, st: Stream, ix: nat): (r: StreamState)
    requires LogOk(log)
    ensures |r.vals| == |init.vals|
    decreases |log|
  {
    if log == [] then init
    else
      var n := |log| - 1;
      var before := Replay(init, log[..n], st, ix);
      if OnStream(log[n], st, ix) then Effect(log[n].call, st, before) else before
  }

  lemma ReplaySnoc(init: StreamState, log: seq<Access>, a: Access, st: Stream, ix: nat)
    requires LogOk(log) && CallOk(a.call)
    ensures LogOk(log + [a])
    ensures Replay(init, log + [a], st, ix) ==
            if OnStream(a, st, ix) then Effect(a.call, st, Replay(init, log, st, ix)) else Replay(init, log, st, ix)
  {
    assert (log + [a])[..|log|] == log;
  }

  // ------------------------------------------------------------------ streams

  /** While a thread holds the stream's semaphore, what it has still to do completes the replay of the log;
      otherwise the stream is the replay of the log. */
  ghost predicate StreamOk(b0: Shared, c: Config, st: Stream, ix: nat)
    requires LogOk(c.log) && ix < MAX_DEVICES
  {
    var now, due := Concrete(c.block, st, ix), Replay(Concrete(b0, st, ix), c.log, st, ix);
    && (!Taken(c, StreamSem(st, ix)) ==> now == due)
    && (forall t: nat :: Holds(c, t, StreamSem(st, ix)) ==> Finish(c.threads[t].todo, st, ix, now) == due)
  }

  ghost predicate StreamsOk(b0: Shared, c: Config)
  {
    && LogOk(c.log)
    && (forall st, ix: nat :: ix < MAX_DEVICES ==> StreamOk(b0, c, st, ix))
  }

  /** While a thread holds a stream's semaphore it runs straight on. */
  lemma HolderRunsOn(th: Thread, s: Sem, b: Shared)
    requires th.Busy? && ThreadOk(th) && th.todo != [] && s in HeldOf(th.todo) && IsStreamSem(s)
    ensures InstrOk(th.call, th.todo[0]) && ExecTodo(th.call, th.todo, b) == th.todo[1..]
  {
    SoundParts(th.call, th.todo);
  }

  /** One step of thread `t` seen from a stream whose semaphore it held before the step. */
  lemma HolderStep(b0: Shared, c: Config, t: nat, st: Stream, ix: nat)
    requires CanStep(c, t) && ThreadOk(c.threads[t]) && SemsOk(c) && ix < MAX_DEVICES
    requires LogOk(c.log) && StreamOk(b0, c, st, ix) && Holds(c, t, StreamSem(st, ix))
    ensures LogOk(Advance(c, t).log) && StreamOk(b0, Advance(c, t), st, ix)
  {
    var s, th, c' := StreamSem(st, ix), c.threads[t], Advance(c, t);
    assert Taken(c, s) && Value(c, s) == 0;
    HolderRunsOn(th, s, c.block);
    SoundParts(th.call, th.todo);
    ExecTouches(th.call, th.todo[0], c.block, st, ix);
    var i, now := th.todo[0], Concrete(c.block, st, ix);
    assert Finish(th.todo, st, ix, now) == Finish(th.todo[1..], st, ix, Touch(i, st, ix, now));
    if Accesses(i) {
      ReplaySnoc(Concrete(b0, st, ix), c.log, Access(t, th.call, StreamOf(i.s), i.s.ix), st, ix);
    }
    forall u: nat ensures Holds(c', u, s) ==> u == t {
      AdvanceHolds(c, t, u, s);
    }
    AdvanceHolds(c, t, t, s);
    if i == Release(s) {
      ReleasesQuiet(th.todo[1..], st, ix, Touch(i, st, ix, now));
    } else {
      assert Holds(c', t, s);
    }
  }

  /** A step that acquires the stream's semaphore logs the access whose effect the rest of the call will have. */
  lemma AcquireStep(b0: Shared, c: Config, t: nat, st: Stream, ix: nat)
    requires CanStep(c, t) && ThreadOk(c.threads[t]) && SemsOk(c) && ix < MAX_DEVICES
    requires LogOk(c.log) && StreamOk(b0, c, st, ix)
    requires c.threads[t].todo != [] && c.threads[t].todo[0] == Acquire(StreamSem(st, ix))
    ensures LogOk(Advance(c, t).log) && StreamOk(b0, Advance(c, t), st, ix)
  {
    var s, th, c' := StreamSem(st, ix), c.threads[t], Advance(c, t);
    SoundParts(th.call, th.todo);
    ReplaySnoc(Concrete(b0, st, ix), c.log, Access(t, th.call, st, ix), st, ix);
    AdvanceHolds(c, t, t, s);
    assert Holds(c', t, s);
    forall u: nat ensures Holds(c', u, s) ==> u == t {
      SoleHolder(c, t, u, s);
    }
    assert Finish(th.todo[1..], st, ix, Concrete(c.block, st, ix)) == Effect(th.call, st, Concrete(c.block, st, ix));
  }

  lemma SoleHolder(c: Config, t: nat, u: nat, s: Sem)
    requires CanStep(c, t) && ThreadOk(c.threads[t]) && SemsOk(c) && Holds(Advance(c, t), t, s)
    ensures Holds(Advance(c, t), u, s) ==> u == t
  {
    if Holds(Advance(c, t), u, s) { AdvanceKeepsExclusion(c, t, u, t, s); }
  }

  /** Any other step leaves the stream as it was. */
  lemma OutsiderStep(b0: Shared, c: Config, t: nat, st: Stream, ix: nat)
    requires CanStep(c, t) && ThreadOk(c.threads[t]) && SemsOk(c) && ix < MAX_DEVICES
    requires LogOk(c.log) && StreamOk(b0, c, st, ix) && !Holds(c, t, StreamSem(st, ix))
    requires c.threads[t].todo != [] ==> c.threads[t].todo[0] != Acquire(StreamSem(st, ix))
    ensures LogOk(Advance(c, t).log) && StreamOk(b0, Advance(c, t), st, ix)
    ensures Concrete(Advance(c, t).block, st, ix) == Concrete(c.block, st, ix)
  {
    var s, th, c' := StreamSem(st, ix), c.threads[t], Advance(c, t);
    if th.todo != [] {
      var i := th.todo[0];
      SoundParts(th.call, th.todo);
      ExecTouches(th.call, i, c.block, st, ix);
      TouchGuarded(i, st, ix, Concrete(c.block, st, ix));
      if Accesses(i) {
        ReplaySnoc(Concrete(b0, st, ix), c.log, Access(t, th.call, StreamOf(i.s), i.s.ix), st, ix);
      }
    }
    forall u: nat ensures Holds(c', u, s) <==> Holds(c, u, s) {
      AdvanceHolds(c, t, u, s);
    }
    assert Taken(c', s) <==> Taken(c, s);
  }

  lemma NextKeepsStreams(b0: Shared, c: Config, m: Move, c': Config)
    requires Next(c, m, c') && ThreadsOk(c) && SemsOk(c) && StreamsOk(b0, c)
    ensures StreamsOk(b0, c')
  {
    forall st, ix: nat | ix < MAX_DEVICES ensures LogOk(c'.log) && StreamOk(b0, c', st, ix) {
      var s := StreamSem(st, ix);
      assert StreamOk(b0, c, st, ix);
      match m
      case Start(t, call) =>
        ProgramSound(call);
        forall u: nat ensures Holds(c', u, s) <==> Holds(c, u, s) {}
        assert Taken(c', s) <==> Taken(c, s);
      case Go(t) =>
        if Holds(c, t, s) {
          HolderStep(b0, c, t, st, ix);
        } else if c.threads[t].todo != [] && c.threads[t].todo[0] == Acquire(s) {
          AcquireStep(b0, c, t, st, ix);
        } else {
          OutsiderStep(b0, c, t, st, ix);
        }
    }
    assert LogOk(c'.log) by {
      assert StreamOk(b0, c, DATA, 0);
    }
  }

  lemma {:induction false} StreamsAlwaysOk(cs: seq<Config>, ms: seq<Move>, n: nat)
    requires Execution(cs, ms) && n < |cs|
    ensures ThreadsOk(cs[n]) && SemsOk(cs[n]) && StreamsOk(cs[0].block, cs[n])
  {
    SemsAlwaysOk(cs, ms, n);
    if n > 0 {
      StreamsAlwaysOk(cs, ms, n - 1);
      NextKeepsStreams(cs[0].block, cs[n - 1], ms[n - 1], cs[n]);
    }
  }

  /** Whenever nobody is inside a stream, memory is what the logged calls make of it one at a time: no
      interleaving tears a write or loses a pending bit. */
  lemma Serializable(cs: seq<Config>, ms: seq<Move>, n: nat, st: Stream, ix: nat)
    requires Execution(cs, ms) && n < |cs| && ix < MAX_DEVICES
    requires Value(cs[n], StreamSem(st, ix)) == 1
    ensures LogOk(cs[n].log)
    ensures Concrete(cs[n].block, st, ix) == Replay(Concrete(cs[0].block, st, ix), cs[n].log, st, ix)
  {
    StreamsAlwaysOk(cs, ms, n);
    assert StreamOk(cs[0].block, cs[n], st, ix);
  }
}
