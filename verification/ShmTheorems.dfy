/** What callers of the shared-memory wrapper may rely on under every interleaving. */
module ShmTheorems {
  import opened Basics
  import opened ShmBlock
  import opened ShmHistory
  import opened ShmProtocol
  import opened ShmDiscipline
  import opened ShmExecution
  import opened ShmSerial
  import opened ShmReads

  // ------------------------------------------------------------------ a read happens at one instant

  lemma NextLog(c: Config, m: Move, c': Config)
    requires Next(c, m, c')
    ensures c'.log == c.log || (m.Go? && c.threads[m.t].todo != [] && Accesses(c.threads[m.t].todo[0])
                                && c'.log == LogAfter(c, m.t, c.threads[m.t].call, c.threads[m.t].todo[0]))
    ensures c.log <= c'.log && |c'.log| <= |c.log| + 1
  {
  }

  /** The step that made entry `k` of the log. */
  lemma {:induction false} LoggedAt(cs: seq<Config>, ms: seq<Move>, n: nat, k: nat) returns (j: nat)
    requires Execution(cs, ms) && n < |cs| && k < |cs[n].log|
    ensures j < n && cs[j].log == cs[n].log[..k] && cs[j + 1].log == cs[n].log[..k + 1]
  {
    hide Next, Init;
    NothingLogged(cs[0]);
    NextLog(cs[n - 1], ms[n - 1], cs[n]);
    if k < |cs[n - 1].log| {
      j := LoggedAt(cs, ms, n - 1, k);
    } else {
      j := n - 1;
    }
  }

  lemma NothingLogged(c: Config)
    requires Init(c)
    ensures c.log == []
  {
  }

  /** When entry `k` was logged its stream was free and stood as the entries before it had left it. */
  lemma {:induction false} FreeWhenLogged(cs: seq<Config>, ms: seq<Move>, n: nat, k: nat) returns (j: nat)
    requires Execution(cs, ms) && n < |cs| && k < |cs[n].log|
    ensures j < n && LogOk(cs[n].log) && |cs[j].log| == k
    ensures var a := cs[n].log[k];
            && a.ix < MAX_DEVICES && ms[j] == Go(a.tid) && IsBusy(cs[j], a.tid) && cs[j].threads[a.tid].call == a.call
            && Concrete(cs[j].block, a.stream, a.ix) == Replay(Concrete(cs[0].block, a.stream, a.ix), cs[n].log[..k], a.stream, a.ix)
  {
    hide Sound, HeldOf, Replay, Advance, Init;
    j := LoggedAt(cs, ms, n, k);
    StreamsAlwaysOk(cs, ms, n);
    StreamsAlwaysOk(cs, ms, j);
    assert Next(cs[j], ms[j], cs[j + 1]);
    NextLog(cs[j], ms[j], cs[j + 1]);
    var a := cs[n].log[k];
    assert cs[j + 1].log[k] == a;
    var th := cs[j].threads[ms[j].t];
    SoundParts(th.call, th.todo);
    assert StreamOk(cs[0].block, cs[j], a.stream, a.ix);
  }

  /** A read that succeeds returns, for the parameters of its mask, values that the stream held together at
      one instant `j` between its start and its end; the rest of the buffer is untouched. A read that fails
      leaves the whole buffer untouched. */
  lemma ReadAtOneInstant(cs: seq<Config>, ms: seq<Move>, n: nat, k: nat) returns (j: nat)
    requires Execution(cs, ms) && n < |cs| && k < |cs[n].done| && IsRead(cs[n].done[k].call)
    ensures var d := cs[n].done[k];
            && CallOk(d.call)
            && (d.local.code != 0 ==> d.local.vals == d.call.into)
            && (d.local.code == 0 ==>
                  && 0 <= d.local.ix < MAX_DEVICES
                  && j < n && ms[j] == Go(d.tid) && IsBusy(cs[j], d.tid) && cs[j].threads[d.tid].call == d.call
                  && d.started <= |cs[j].log| < d.finished
                  && d.local.vals == Overlay(d.call.into, d.call.mask, Row(cs[j].block, d.call.stream, d.local.ix)))
  {
    hide ReaderOk, Replay, Next, Init, StreamOk;
    ReadsAlwaysOk(cs, ms, n);
    var d := cs[n].done[k];
    assert ResultOk(cs[0].block, cs[n].log, d);
    j := 0;
    if d.took >= 0 {
      j := FreeWhenLogged(cs, ms, n, d.took);
    }
  }

  lemma NextDone(c: Config, m: Move, c': Config)
    requires Next(c, m, c')
    ensures c.done <= c'.done && |c'.done| <= |c.done| + 1
    ensures |c'.done| > |c.done| ==>
              var d := c'.done[|c.done|];
              m == Go(d.tid) && IsBusy(c, d.tid) && c.threads[d.tid] == Busy(d.call, [], d.local, d.started, d.took)
  {
    hide Sound, LocalOk, ExecBlock, ExecLocal, ExecTodo;
  }

  /** The step at which call `k` of the completed calls returned. */
  lemma {:induction false} ReturnedAt(cs: seq<Config>, ms: seq<Move>, n: nat, k: nat) returns (f: nat)
    requires Execution(cs, ms) && n < |cs| && k < |cs[n].done|
    ensures var d := cs[n].done[k];
            && f < n && ms[f] == Go(d.tid) && IsBusy(cs[f], d.tid)
            && cs[f].threads[d.tid] == Busy(d.call, [], d.local, d.started, d.took)
  {
    hide Next, Init;
    NothingDone(cs[0]);
    NextDone(cs[n - 1], ms[n - 1], cs[n]);
    if k < |cs[n - 1].done| { f := ReturnedAt(cs, ms, n - 1, k); } else { f := n - 1; }
  }

  lemma NothingDone(c: Config)
    requires Init(c)
    ensures c.done == []
  {
  }

  // ------------------------------------------------------------------ last written value

  predicate IsWrite(c: Call) { c.Write? || c.WriteUid? }

  /** The access gives parameter `p` of the stream a new value. */
  predicate Sets(a: Access, st: Stream, ix: nat, p: nat)
  {
    OnStream(a, st, ix) && (a.call.Connect? || (IsWrite(a.call) && a.call.stream == st && p in a.call.mask))
  }

  function SetTo(a: Access, p: nat): (w: Word)
    requires CallOk(a.call) && (a.call.Connect? || (IsWrite(a.call) && p in a.call.mask))
  {
    if a.call.Connect? then ZERO_WORD else a.call.vals[p]
  }

  ghost predicate LastSetter(log: seq<Access>, i: nat, st: Stream, ix: nat, p: nat)
  {
    i < |log| && Sets(log[i], st, ix, p) && forall j :: i < j < |log| ==> !Sets(log[j], st, ix, p)
  }

  lemma EffectOnValue(a: Access, st: Stream, ix: nat, p: nat, s: StreamState)
    requires CallOk(a.call) && OnStream(a, st, ix) && p < |s.vals|
    ensures |Effect(a.call, st, s).vals| == |s.vals|
    ensures Effect(a.call, st, s).vals[p] == if Sets(a, st, ix, p) then SetTo(a, p) else s.vals[p]
  {
  }

  /** The replay of a log leaves each parameter as its last setter made it. */
  lemma {:induction false} LastSetterWins(init: StreamState, log: seq<Access>, st: Stream, ix: nat, p: nat)
    requires LogOk(log) && p < |init.vals|
    ensures forall i: nat :: LastSetter(log, i, st, ix, p) ==> Replay(init, log, st, ix).vals[p] == SetTo(log[i], p)
    ensures (forall i: nat :: !LastSetter(log, i, st, ix, p)) ==> Replay(init, log, st, ix).vals[p] == init.vals[p]
    decreases |log|
  {
    if log != [] {
      var n := |log| - 1;
      var before := log[..n];
      LastSetterWins(init, before, st, ix, p);
      if OnStream(log[n], st, ix) { EffectOnValue(log[n], st, ix, p, Replay(init, before, st, ix)); }
      if Sets(log[n], st, ix, p) {
        assert LastSetter(log, n, st, ix, p);
      } else {
        assert forall i: nat :: LastSetter(log, i, st, ix, p) <==> LastSetter(before, i, st, ix, p);
      }
    }
  }

  /** A successful read returns for each parameter it asked for the value of the last write or connect that
      got to the stream before it. */
  lemma ReadReturnsLatest(cs: seq<Config>, ms: seq<Move>, n: nat, k: nat, p: nat)
    requires Execution(cs, ms) && n < |cs| && k < |cs[n].done| && IsRead(cs[n].done[k].call)
    requires cs[n].done[k].local.code == 0 && p in cs[n].done[k].call.mask
    ensures var d, log := cs[n].done[k], cs[n].log;
            && LogOk(log) && 0 <= d.took < |log| && 0 <= d.local.ix < MAX_DEVICES && p < |d.local.vals|
            && (forall i: nat :: LastSetter(log[..d.took], i, d.call.stream, d.local.ix, p) ==> d.local.vals[p] == SetTo(log[i], p))
            && ((forall i: nat :: !LastSetter(log[..d.took], i, d.call.stream, d.local.ix, p)) ==>
                  d.local.vals[p] == Row(cs[0].block, d.call.stream, d.local.ix)[p])
  {
    hide ReaderOk, Replay, Next, Init, StreamOk;
    ReadsAlwaysOk(cs, ms, n);
    var d := cs[n].done[k];
    assert ResultOk(cs[0].block, cs[n].log, d);
    LastSetterWins(Concrete(cs[0].block, d.call.stream, d.local.ix), cs[n].log[..d.took], d.call.stream, d.local.ix, p);
  }

  // ------------------------------------------------------------------ pending commands

  predicate RaisesPending(a: Access, ix: nat, p: nat)
  {
    OnStream(a, COMMAND, ix) && IsWrite(a.call) && a.call.proc == EXECUTOR && a.call.stream == COMMAND && p in a.call.mask
  }

  predicate ClearsPending(a: Access, ix: nat, p: nat)
  {
    OnStream(a, COMMAND, ix) &&
    (a.call.Disconnect? || (IsRead(a.call) && a.call.proc == DEV_HANDLER && a.call.stream == COMMAND && p in a.call.mask))
  }

  /** Entry `i` is a command write of parameter `p` that nothing after it has consumed. */
  ghost predicate Unconsumed(log: seq<Access>, i: nat, ix: nat, p: nat)
  {
    i < |log| && RaisesPending(log[i], ix, p) && forall j :: i < j < |log| ==> !ClearsPending(log[j], ix, p)
  }

  lemma {:induction false} PendingReplay(init: StreamState, log: seq<Access>, ix: nat, p: nat)
    requires LogOk(log) && p !in init.pending
    ensures p in Replay(init, log, COMMAND, ix).pending <==> exists i: nat :: Unconsumed(log, i, ix, p)
    decreases |log|
  {
    if log != [] {
      var n := |log| - 1;
      var before := log[..n];
      PendingReplay(init, before, ix, p);
      if RaisesPending(log[n], ix, p) {
        assert Unconsumed(log, n, ix, p);
      } else if ClearsPending(log[n], ix, p) {
        assert forall i: nat :: !Unconsumed(log, i, ix, p);
      } else {
        assert forall i: nat :: Unconsumed(log, i, ix, p) <==> Unconsumed(before, i, ix, p);
      }
    }
  }

  lemma {:induction false} NothingPending(init: StreamState, log: seq<Access>, ix: nat)
    requires LogOk(log) && init.pending == {}
    ensures Replay(init, log, COMMAND, ix).pending == {} <==> forall i: nat, p: nat :: !Unconsumed(log, i, ix, p)
  {
    hide Replay, Unconsumed;
    var pending := Replay(init, log, COMMAND, ix).pending;
    forall p: nat ensures p in pending <==> exists i: nat :: Unconsumed(log, i, ix, p) {
      PendingReplay(init, log, ix, p);
    }
    if i: nat, p: nat :| Unconsumed(log, i, ix, p) {
      assert p in pending;
    }
  }

  /** Whenever nobody is inside a device's command stream, its pending bits are exactly the parameters that
      the executor has written and neither a dev_handler read nor a disconnect has since consumed. */
  lemma PendingExact(cs: seq<Config>, ms: seq<Move>, n: nat, ix: nat, p: nat)
    requires Execution(cs, ms) && n < |cs| && ix < MAX_DEVICES && Value(cs[n], CommandSem(ix)) == 1
    ensures p in cs[n].block.cmdMap[ix + 1] <==> exists i: nat :: Unconsumed(cs[n].log, i, ix, p)
  {
    hide Replay, Next, Unconsumed;
    Serializable(cs, ms, n, COMMAND, ix);
    PendingReplay(Concrete(cs[0].block, COMMAND, ix), cs[n].log, ix, p);
  }

  // ------------------------------------------------------------------ the device's bit in cmd_map[0]

  predicate RaisesFlag(a: Access, ix: nat)
  {
    OnStream(a, COMMAND, ix) && IsWrite(a.call) && a.call.proc == EXECUTOR && a.call.stream == COMMAND
  }

  predicate ClearsFlag(a: Access, ix: nat)
  {
    OnStream(a, COMMAND, ix) &&
    (a.call.Disconnect? || (IsRead(a.call) && a.call.proc == DEV_HANDLER && a.call.stream == COMMAND))
  }

  /** Entry `i` is a command write that no command read of dev_handler and no disconnect follows. */
  ghost predicate Unread(log: seq<Access>, i: nat, ix: nat)
  {
    i < |log| && RaisesFlag(log[i], ix) && forall j :: i < j < |log| ==> !ClearsFlag(log[j], ix)
  }

  lemma {:induction false} FlagReplay(init: StreamState, log: seq<Access>, ix: nat)
    requires LogOk(log) && !init.flagged
    ensures Replay(init, log, COMMAND, ix).flagged <==> exists i: nat :: Unread(log, i, ix)
    decreases |log|
  {
    if log != [] {
      var n := |log| - 1;
      var before := log[..n];
      FlagReplay(init, before, ix);
      if RaisesFlag(log[n], ix) {
        assert Unread(log, n, ix);
      } else if ClearsFlag(log[n], ix) {
        assert forall i: nat :: !Unread(log, i, ix);
      } else {
        assert forall i: nat :: Unread(log, i, ix) <==> Unread(before, i, ix);
      }
    }
  }

  /** Whenever nobody is inside a device's command stream, its bit in cmd_map[0] is on exactly when the
      executor has written a command since the last command read of dev_handler or disconnect. */
  lemma FlagExact(cs: seq<Config>, ms: seq<Move>, n: nat, ix: nat)
    requires Execution(cs, ms) && n < |cs| && ix < MAX_DEVICES && Value(cs[n], CommandSem(ix)) == 1
    ensures ix in cs[n].block.cmdMap[0] <==> exists i: nat :: Unread(cs[n].log, i, ix)
  {
    hide Replay, Next, Unread;
    Serializable(cs, ms, n, COMMAND, ix);
    FlagReplay(Concrete(cs[0].block, COMMAND, ix), cs[n].log, ix);
  }

  // ------------------------------------------------------------------ the catalog

  predicate Arrives(a: Access, ix: nat) { OnStream(a, DATA, ix) && a.call.Connect? }

  predicate Departs(a: Access, ix: nat) { OnStream(a, DATA, ix) && a.call.Disconnect? }

  /** Entry `i` is a connect into slot `ix` that no disconnect follows. */
  ghost predicate Staying(log: seq<Access>, i: nat, ix: nat)
  {
    i < |log| && Arrives(log[i], ix) && forall j :: i < j < |log| ==> !Departs(log[j], ix)
  }

  ghost predicate LastArrival(log: seq<Access>, i: nat, ix: nat)
  {
    i < |log| && Arrives(log[i], ix) && forall j :: i < j < |log| ==> !Arrives(log[j], ix)
  }

  lemma {:induction false} PresentReplay(init: StreamState, log: seq<Access>, ix: nat)
    requires LogOk(log) && !init.present
    ensures Replay(init, log, DATA, ix).present <==> exists i: nat :: Staying(log, i, ix)
    decreases |log|
  {
    if log != [] {
      var n := |log| - 1;
      var before := log[..n];
      PresentReplay(init, before, ix);
      if Arrives(log[n], ix) {
        assert Staying(log, n, ix);
      } else if Departs(log[n], ix) {
        assert forall i: nat :: !Staying(log, i, ix);
      } else {
        assert forall i: nat :: Staying(log, i, ix) <==> Staying(before, i, ix);
      }
    }
  }

  lemma {:induction false} IdReplay(init: StreamState, log: seq<Access>, ix: nat)
    requires LogOk(log)
    ensures forall i: nat :: LastArrival(log, i, ix) ==> Replay(init, log, DATA, ix).id == log[i].call.id
    decreases |log|
  {
    if log != [] {
      var n := |log| - 1;
      var before := log[..n];
      IdReplay(init, before, ix);
      if !Arrives(log[n], ix) {
        assert forall i: nat :: LastArrival(log, i, ix) ==> LastArrival(before, i, ix);
      }
    }
  }

  /** Whenever nobody is inside a slot's data stream, the slot is in the catalog exactly if the last connect or
      disconnect that reached it was a connect, and its identifier is the one that connect was called with. */
  lemma {:induction false} CatalogExact(cs: seq<Config>, ms: seq<Move>, n: nat, ix: nat)
    requires Execution(cs, ms) && n < |cs| && ix < MAX_DEVICES && Value(cs[n], DataSem(ix)) == 1
    ensures ix in cs[n].block.catalog <==> exists i: nat :: Staying(cs[n].log, i, ix)
    ensures forall i: nat :: LastArrival(cs[n].log, i, ix) ==> cs[n].block.ids[ix] == cs[n].log[i].call.id
  {
    hide Replay, Next, Staying, LastArrival;
    Serializable(cs, ms, n, DATA, ix);
    PresentReplay(Concrete(cs[0].block, DATA, ix), cs[n].log, ix);
    IdReplay(Concrete(cs[0].block, DATA, ix), cs[n].log, ix);
    var log := cs[n].log;
    forall i: nat | LastArrival(log, i, ix) ensures i < |log| && log[i].call.Connect? { ArrivalIs(log, i, ix); }
  }

  lemma ArrivalIs(log: seq<Access>, i: nat, ix: nat)
    requires LastArrival(log, i, ix)
    ensures i < |log| && log[i].call.Connect?
  {
  }
}
