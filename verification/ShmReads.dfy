/** What device_read and device_read_uid return under every interleaving: one consistent snapshot. */
module ShmReads {
  import opened Basics
  import opened ShmBlock
  import opened ShmHistory
  import opened ShmProtocol
  import opened ShmDiscipline
  import opened ShmExecution
  import opened ShmSerial

  /** The caller's buffer with the parameters of the mask as they were after the first `took` accesses. */
  ghost function Snapshot(b0: Shared, log: seq<Access>, took: nat, call: Call, ix: nat): (r: seq<Word>)
    requires LogOk(log) && took <= |log| && IsRead(call) && CallOk(call) && ix < MAX_DEVICES
  {
    Overlay(call.into, call.mask, Replay(Concrete(b0, call.stream, ix), log[..took], call.stream, ix).vals)
  }

  /** What a reader may still execute behind its stream's semaphore. */
  ghost predicate ReadsOnly(todo: seq<Instr>, st: Stream, ix: nat)
  {
    forall i :: i in todo ==> i == Acquire(CmdMapSem) || i.Release? || i.CmdOff0? || i.CmdOff? || (i.CopyOut? && i.st == st && i.ix == ix)
  }

  /** A read before its stream's semaphore. */
  ghost predicate Waiting(call: Call, todo: seq<Instr>, local: Local)
    requires IsRead(call)
  {
    && local.vals == call.into
    && (call.Read? ==> local.ix == call.ix)
    && if todo == [] then local.code == -1
       else
         && local.code == 0
         && (|| (call.ReadUid? && |todo| == 1 && (todo[0].SeekUid? || todo[0].SeekId?))
             || (call.Read? && todo == [IfConnected(call.ix)] + ReadProgram(call.ix, call.proc, call.stream, call.mask))
             || (0 <= local.ix < MAX_DEVICES && todo == ReadProgram(local.ix, call.proc, call.stream, call.mask)))
  }

  /** A read from its stream's semaphore on. */
  ghost predicate Reading(b0: Shared, b: Shared, log: seq<Access>, call: Call, todo: seq<Instr>, local: Local, took: nat)
    requires LogOk(log) && IsRead(call) && CallOk(call)
  {
    && took < |log| && 0 <= local.ix < MAX_DEVICES && local.code == 0
    && ReadsOnly(todo, call.stream, local.ix)
    && var s, seen := StreamSem(call.stream, local.ix), Snapshot(b0, log, took, call, local.ix);
       if s in HeldOf(todo) then Gather(todo, Row(b, call.stream, local.ix), local.vals) == seen
       else OnlyReleases(todo) && local.vals == seen
  }

  ghost predicate Logged(log: seq<Access>, t: nat, call: Call, ix: int, started: nat, took: nat)
    requires IsRead(call)
  {
    started <= took < |log| && ix >= 0 && log[took] == Access(t, call, call.stream, ix)
  }

  ghost predicate ReaderOk(b0: Shared, b: Shared, log: seq<Access>, t: nat, th: Thread)
    requires LogOk(log)
  {
    th.Busy? && IsRead(th.call) && CallOk(th.call) ==>
      && th.started <= |log|
      && if th.took < 0 then Waiting(th.call, th.todo, th.local)
         else Logged(log, t, th.call, th.local.ix, th.started, th.took)
              && Reading(b0, b, log, th.call, th.todo, th.local, th.took)
  }

  /** A completed read: on success the snapshot at a moment between its start and its end, on failure nothing. */
  ghost predicate ResultOk(b0: Shared, log: seq<Access>, d: Completed)
    requires LogOk(log)
  {
    IsRead(d.call) ==>
      && CallOk(d.call)
      && if d.took < 0 then d.local.code == -1 && d.local.vals == d.call.into
         else
           && d.local.code == 0 && d.took < d.finished <= |log| && d.local.ix < MAX_DEVICES
           && Logged(log, d.tid, d.call, d.local.ix, d.started, d.took)
           && d.local.vals == Snapshot(b0, log, d.took, d.call, d.local.ix)
  }

  ghost predicate ReadsOk(b0: Shared, c: Config)
    requires LogOk(c.log)
  {
    && (forall t :: 0 <= t < |c.threads| ==> ReaderOk(b0, c.block, c.log, t, c.threads[t]))
    && (forall k :: 0 <= k < |c.done| ==> ResultOk(b0, c.log, c.done[k]))
  }

  // ------------------------------------------------------------------ the log only grows

  lemma SnapshotStable(b0: Shared, log: seq<Access>, log': seq<Access>, took: nat, call: Call, ix: nat)
    requires LogOk(log) && LogOk(log') && log <= log' && took <= |log| && IsRead(call) && CallOk(call) && ix < MAX_DEVICES
    ensures Snapshot(b0, log', took, call, ix) == Snapshot(b0, log, took, call, ix)
  {
    assert log'[..took] == log[..took];
  }

  lemma ResultStable(b0: Shared, log: seq<Access>, log': seq<Access>, d: Completed)
    requires LogOk(log) && LogOk(log') && log <= log' && ResultOk(b0, log, d)
    ensures ResultOk(b0, log', d)
  {
    if IsRead(d.call) && d.took >= 0 {
      SnapshotStable(b0, log, log', d.took, d.call, d.local.ix);
    }
  }

  // ------------------------------------------------------------------ a reader's own steps

  lemma {:induction false} CopyOutsReadOnly(st: Stream, ix: nat, mask: Bitmap, p: nat)
    requires p <= MAX_PARAMS
    ensures ReadsOnly(CopyOuts(st, ix, mask, p), st, ix)
    decreases MAX_PARAMS - p
  {
    hide CopyOuts;
    CopyOutsUnfold(st, ix, mask, p, []);
    assert CopyOuts(st, ix, mask, p) + [] == CopyOuts(st, ix, mask, p);
    if p < MAX_PARAMS {
      CopyOutsReadOnly(st, ix, mask, p + 1);
      assert CopyOuts(st, ix, mask, p + 1) + [] == CopyOuts(st, ix, mask, p + 1);
    }
  }

  lemma ReadReadsOnly(ix: nat, p: Process, st: Stream, mask: Bitmap)
    ensures ReadsOnly(CopyOuts(st, ix, mask, 0) + ReadTail(ix, p, st, mask), st, ix)
  {
    hide CopyOuts;
    CopyOutsReadOnly(st, ix, mask, 0);
  }

  lemma ReadProgramParts(ix: nat, p: Process, st: Stream, mask: Bitmap)
    ensures var r := ReadProgram(ix, p, st, mask);
            r != [] && r[0] == Acquire(StreamSem(st, ix)) && r[1..] == CopyOuts(st, ix, mask, 0) + ReadTail(ix, p, st, mask)
  {
    hide CopyOuts;
  }

  /** Before the semaphore a reader searches, gives up, or reaches the semaphore; its buffer is untouched. */
  lemma WaitingStep(call: Call, todo: seq<Instr>, local: Local, b: Shared)
    requires IsRead(call) && CallOk(call) && LocalOk(call, local) && Sound(call, todo) && todo != []
    requires Waiting(call, todo, local) && !todo[0].Acquire?
    ensures InstrOk(call, todo[0]) && !Accesses(todo[0])
    ensures Waiting(call, ExecTodo(call, todo, b), ExecLocal(call, todo[0], local, b))
  {
    hide ReadProgram, HeldOf;
    var i := todo[0];
    SoundParts(call, todo);
    if i.SeekUid? {
      assert todo[1..] == [];
    } else if i.SeekId? {
      assert todo[1..] == [];
      if b.ids[i.i].uid == call.uid {
        ReadProgramParts(i.i, call.proc, call.stream, call.mask);
        assert ExecTodo(call, todo, b) == ReadProgram(i.i, call.proc, call.stream, call.mask);
      }
    } else {
      ReadProgramParts(if local.ix < 0 then 0 else local.ix, call.proc, call.stream, call.mask);
      var rest := ReadProgram(call.ix, call.proc, call.stream, call.mask);
      assert todo == [IfConnected(call.ix)] + rest;
      assert todo[1..] == rest;
    }
  }

  lemma WaitingAcquires(call: Call, todo: seq<Instr>, local: Local)
    requires IsRead(call) && todo != [] && Waiting(call, todo, local) && todo[0].Acquire?
    ensures 0 <= local.ix < MAX_DEVICES && todo == ReadProgram(local.ix, call.proc, call.stream, call.mask)
    ensures todo[0] == Acquire(StreamSem(call.stream, local.ix)) && local.code == 0 && local.vals == call.into
  {
    hide ReadProgram;
    assert 0 <= local.ix < MAX_DEVICES && todo == ReadProgram(local.ix, call.proc, call.stream, call.mask);
    ReadProgramParts(local.ix, call.proc, call.stream, call.mask);
  }

  /** Taking the semaphore fixes the snapshot. */
  lemma {:induction false} TakeStep(b0: Shared, b: Shared, log: seq<Access>, call: Call, todo: seq<Instr>, local: Local, a: Access)
    requires LogOk(log) && CallOk(a.call) && IsRead(call) && CallOk(call) && Sound(call, todo) && todo != []
    requires Waiting(call, todo, local) && 0 <= local.ix < MAX_DEVICES && todo[0] == Acquire(StreamSem(call.stream, local.ix))
    requires Concrete(b, call.stream, local.ix) == Replay(Concrete(b0, call.stream, local.ix), log, call.stream, local.ix)
    ensures Reading(b0, b, log + [a], call, todo[1..], local, |log|)
  {
    hide Waiting, ReadProgram, HeldOf, Gather, CopyOuts, Replay, ReadTail;
    SoundParts(call, todo);
    WaitingAcquires(call, todo, local);
    var ix := local.ix;
    ReadProgramParts(ix, call.proc, call.stream, call.mask);
    ReadReadsOnly(ix, call.proc, call.stream, call.mask);
    ReadGathers(ix, call.proc, call.stream, call.mask, Row(b, call.stream, ix), call.into);
    assert (log + [a])[..|log|] == log;
  }

  /** Behind the semaphore each copy takes its value from the snapshot. */
  lemma ReadingStep(b0: Shared, b: Shared, log: seq<Access>, call: Call, todo: seq<Instr>, local: Local, took: nat)
    requires LogOk(log) && IsRead(call) && CallOk(call) && LocalOk(call, local) && Sound(call, todo) && todo != []
    requires Reading(b0, b, log, call, todo, local, took)
    ensures InstrOk(call, todo[0]) && !Accesses(todo[0])
    ensures Reading(b0, ExecBlock(call, todo[0], b), log, call, ExecTodo(call, todo, b), ExecLocal(call, todo[0], local, b), took)
    ensures ExecLocal(call, todo[0], local, b).ix == local.ix
  {
    hide Gather, Replay, Sound, HeldOf;
    var i, st, ix := todo[0], call.stream, local.ix;
    SoundParts(call, todo);
    assert todo == [i] + todo[1..];
    if StreamSem(st, ix) in HeldOf(todo) {
      ExecTouches(call, i, b, st, ix);
      GatherCons(i, todo[1..], Row(b, st, ix), local.vals);
      if i == Release(StreamSem(st, ix)) {
        GatherNothing(todo[1..], Row(b, st, ix), local.vals);
      }
    }
  }

  // ------------------------------------------------------------------ every step of an execution

  lemma LogGrows(b0: Shared, c: Config, t: nat)
    requires CanStep(c, t) && ThreadOk(c.threads[t]) && LogOk(c.log)
    ensures LogOk(Advance(c, t).log) && c.log <= Advance(c, t).log
  {
  }

  /** A reader's own step. */
  lemma {:induction false} OwnStep(b0: Shared, c: Config, t: nat)
    requires CanStep(c, t) && ThreadOk(c.threads[t]) && SemsOk(c) && StreamsOk(b0, c)
    requires ReaderOk(b0, c.block, c.log, t, c.threads[t]) && c.threads[t].todo != []
    ensures LogOk(Advance(c, t).log)
    ensures ReaderOk(b0, Advance(c, t).block, Advance(c, t).log, t, Advance(c, t).threads[t])
  {
    hide Waiting, Reading, Sound, Replay, ReadProgram;
    var th, c' := c.threads[t], Advance(c, t);
    LogGrows(b0, c, t);
    if IsRead(th.call) {
      if th.took >= 0 {
        ReadingStep(b0, c.block, c.log, th.call, th.todo, th.local, th.took);
      } else if !th.todo[0].Acquire? {
        WaitingStep(th.call, th.todo, th.local, c.block);
      } else {
        TakingStep(b0, c, t);
      }
    }
  }

  lemma {:induction false} TakingStep(b0: Shared, c: Config, t: nat)
    requires CanStep(c, t) && ThreadOk(c.threads[t]) && SemsOk(c) && StreamsOk(b0, c)
    requires ReaderOk(b0, c.block, c.log, t, c.threads[t]) && c.threads[t].todo != []
    requires var th := c.threads[t]; IsRead(th.call) && th.took < 0 && th.todo[0].Acquire?
    ensures LogOk(Advance(c, t).log)
    ensures ReaderOk(b0, Advance(c, t).block, Advance(c, t).log, t, Advance(c, t).threads[t])
  {
    hide Waiting, Reading, Sound, Replay, ReadProgram, Finish, HeldOf;
    var th, c' := c.threads[t], Advance(c, t);
    LogGrows(b0, c, t);
    WaitingAcquires(th.call, th.todo, th.local);
    var st, ix := th.call.stream, th.local.ix;
    assert StreamOk(b0, c, st, ix);
    TakeStep(b0, c.block, c.log, th.call, th.todo, th.local, Access(t, th.call, st, ix));
  }

  /** A step of thread `t` as seen by another reader `u`: the row under `u`'s semaphore does not move. */
  lemma {:induction false} OtherStep(b0: Shared, c: Config, t: nat, u: nat)
    requires CanStep(c, t) && ThreadOk(c.threads[t]) && SemsOk(c) && StreamsOk(b0, c)
    requires u != t && u < |c.threads| && ReaderOk(b0, c.block, c.log, u, c.threads[u])
    ensures LogOk(Advance(c, t).log)
    ensures ReaderOk(b0, Advance(c, t).block, Advance(c, t).log, u, c.threads[u])
  {
    hide Waiting, Replay, Finish, Sound, Gather, HeldOf, Snapshot;
    var th, c' := c.threads[u], Advance(c, t);
    LogGrows(b0, c, t);
    if th.Busy? && IsRead(th.call) && CallOk(th.call) && th.took >= 0 {
      var st, ix := th.call.stream, th.local.ix;
      SnapshotStable(b0, c.log, c'.log, th.took, th.call, ix);
      if StreamSem(st, ix) in HeldOf(th.todo) {
        assert Holds(c, u, StreamSem(st, ix)) && Taken(c, StreamSem(st, ix));
        assert StreamOk(b0, c, st, ix);
        OutsiderStep(b0, c, t, st, ix);
      }
    }
  }

  lemma {:induction false} ReturnStep(b0: Shared, c: Config, t: nat)
    requires CanStep(c, t) && ThreadOk(c.threads[t]) && LogOk(c.log)
    requires ReaderOk(b0, c.block, c.log, t, c.threads[t]) && c.threads[t].todo == []
    ensures var th := c.threads[t]; ResultOk(b0, c.log, Completed(t, th.call, th.local, th.started, th.took, |c.log|))
  {
    hide Replay, ReadProgram, Snapshot;
  }

  lemma {:induction false} AdvanceKeepsReads(b0: Shared, c: Config, t: nat)
    requires CanStep(c, t) && ThreadsOk(c) && SemsOk(c) && StreamsOk(b0, c) && ReadsOk(b0, c)
    ensures LogOk(Advance(c, t).log) && ReadsOk(b0, Advance(c, t))
  {
    hide ReaderOk, ResultOk;
    var c' := Advance(c, t);
    LogGrows(b0, c, t);
    forall u | 0 <= u < |c'.threads| ensures ReaderOk(b0, c'.block, c'.log, u, c'.threads[u]) {
      if u != t {
        OtherStep(b0, c, t, u);
      } else if c.threads[t].todo != [] {
        OwnStep(b0, c, t);
      } else {
        IdleReads(b0, c'.block, c'.log, t);
      }
    }
    forall k | 0 <= k < |c'.done| ensures ResultOk(b0, c'.log, c'.done[k]) {
      if k < |c.done| {
        ResultStable(b0, c.log, c'.log, c.done[k]);
      } else {
        ReturnStep(b0, c, t);
      }
    }
  }

  lemma IdleReads(b0: Shared, b: Shared, log: seq<Access>, t: nat)
    requires LogOk(log)
    ensures ReaderOk(b0, b, log, t, Idle)
  {
  }

  lemma BeginReads(b0: Shared, c: Config, t: nat, call: Call)
    requires LogOk(c.log) && t < |c.threads| && CallOk(call)
    ensures ReaderOk(b0, c.block, c.log, t, Begin(c, t, call).threads[t])
  {
    hide Reading, ReadProgram;
  }

  lemma {:induction false} NextKeepsReads(b0: Shared, c: Config, m: Move, c': Config)
    requires Next(c, m, c') && ThreadsOk(c) && SemsOk(c) && StreamsOk(b0, c) && ReadsOk(b0, c)
    ensures LogOk(c'.log) && ReadsOk(b0, c')
  {
    hide ReaderOk, ResultOk, StreamOk, SemsOk, Advance;
    match m
    case Start(t, call) => BeginReads(b0, c, t, call);
    case Go(t) => AdvanceKeepsReads(b0, c, t);
  }

  lemma NoReadsYet(c: Config)
    requires Init(c)
    ensures LogOk(c.log) && ReadsOk(c.block, c)
  {
  }

  lemma {:induction false} ReadsAlwaysOk(cs: seq<Config>, ms: seq<Move>, n: nat)
    requires Execution(cs, ms) && n < |cs|
    ensures StreamsOk(cs[0].block, cs[n]) && ReadsOk(cs[0].block, cs[n])
  {
    hide ReadsOk, StreamOk, SemsOk, ThreadsOk, Next, Init;
    StreamsAlwaysOk(cs, ms, n);
    if n == 0 {
      NoReadsYet(cs[0]);
    } else {
      ReadsAlwaysOk(cs, ms, n - 1);
      StreamsAlwaysOk(cs, ms, n - 1);
      NextKeepsReads(cs[0].block, cs[n - 1], ms[n - 1], cs[n]);
    }
  }
}
