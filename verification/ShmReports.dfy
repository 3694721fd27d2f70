/** What get_sub_requests reports under every interleaving, and that no subscription change is lost or
    reported twice. */
module ShmReports {
  import opened Basics
  import opened ShmBlock
  import opened ShmHistory
  import opened ShmProtocol
  import opened ShmDiscipline
  import opened ShmExecution
  import opened ShmSubs
  import opened ShmTheorems

  // ------------------------------------------------------------------ the report of one call

  /** Thread `t` is inside call `c` from configuration `a` to configuration `n`. */
  ghost predicate InCall(cs: seq<Config>, t: nat, c: Call, a: nat, n: nat)
    requires n < |cs|
  {
    forall m :: a <= m <= n ==> IsBusy(cs[m], t) && cs[m].threads[t].call == c
  }

  /** Slot `ix` stays connected, or stays free, from `a` to `n`. */
  ghost predicate Steady(cs: seq<Config>, a: nat, n: nat, ix: nat)
    requires n < |cs|
  {
    forall m :: a <= m <= n ==> (ix in cs[m].block.catalog <==> ix in cs[a].block.catalog)
  }

  /** The report's entries for slot `ix` are those of block `b`. */
  predicate RowOk(b: Shared, p: Process, maps: seq<Bitmap>, ix: nat)
    requires |maps| == MAX_DEVICES + 1 && ix < MAX_DEVICES
  {
    (ix in maps[0] <==> ix in SubEntry(b, p, 0)) && maps[ix + 1] == SubEntry(b, p, ix + 1)
  }

  /** Rows below `i` are filled in as at `a`, for slots that did not change since; the rest of the change
      bits are as at `a`. */
  ghost predicate Partial(cs: seq<Config>, a: nat, n: nat, p: Process, maps: seq<Bitmap>, i: nat)
    requires a <= n < |cs| && |maps| == MAX_DEVICES + 1
  {
    && (forall ix: nat :: ix + 1 < i && ix < MAX_DEVICES && Steady(cs, a, n, ix) ==> RowOk(cs[a].block, p, maps, ix))
    && (forall ix: nat :: i <= ix + 1 ==> (ix in maps[0] <==> ix in SubsFor(cs[a].block, p, 0)))
  }

  /** The whole report: early and empty for dev_handler if nothing changed, full otherwise. */
  ghost predicate Report(cs: seq<Config>, a: nat, n: nat, c: Call, maps: seq<Bitmap>)
    requires a <= n < |cs| && c.GetSub? && |maps| == MAX_DEVICES + 1
  {
    if c.proc == DEV_HANDLER && SubsFor(cs[a].block, c.proc, 0) == {} then |c.buf| == MAX_DEVICES + 1 && maps == c.buf[0 := {}]
    else forall ix: nat :: ix < MAX_DEVICES && Steady(cs, a, n, ix) ==> RowOk(cs[a].block, c.proc, maps, ix)
  }

  /** Where a call of get_sub_requests is; `a` is the step that acquired the semaphore, `r` the one that released it. */
  datatype Stage = Before | Asked(a: nat) | Rows(a: nat, i: nat) | Ready(a: nat) | Left(a: nat, r: nat)

  /** Inside the semaphore since step `a`. */
  ghost predicate Inside(cs: seq<Config>, ms: seq<Move>, a: nat, n: nat, t: nat)
    requires n < |cs| == |ms| + 1 && IsBusy(cs[n], t)
  {
    && a < n && ms[a] == Go(t) && TakesSubs(cs[a], ms[a]) && InCall(cs, t, cs[n].threads[t].call, a, n)
    && SubMapSem in HeldOf(cs[n].threads[t].todo)
  }

  ghost predicate StageOk(cs: seq<Config>, ms: seq<Move>, n: nat, t: nat, s: Stage)
    requires n < |cs| == |ms| + 1
  {
    && IsBusy(cs[n], t) && cs[n].threads[t].call.GetSub? && |cs[n].threads[t].local.maps| == MAX_DEVICES + 1
    && var th, b := cs[n].threads[t], cs[n].block;
       var c, maps := th.call, th.local.maps;
       && CallOk(c)
       && match s
          case Before => th.todo == Program(c) && maps == c.buf
          case Asked(a) =>
            Inside(cs, ms, a, n, t) && Subs(b) == Subs(cs[a].block) && th.todo == [SubHead] + (SubRows(1) + SubTail(c.proc)) && maps == c.buf
          case Rows(a, i) =>
            && Inside(cs, ms, a, n, t) && Subs(b) == Subs(cs[a].block) && 1 <= i <= MAX_DEVICES + 1
            && th.todo == SubRows(i) + SubTail(c.proc) && Partial(cs, a, n, c.proc, maps, i)
            && !(c.proc == DEV_HANDLER && SubsFor(cs[a].block, c.proc, 0) == {})
          case Ready(a) =>
            Inside(cs, ms, a, n, t) && c.proc == DEV_HANDLER && th.todo == [Release(SubMapSem)] && Report(cs, a, n, c, maps)
          case Left(a, r) =>
            && a < r < n && ms[a] == Go(t) && TakesSubs(cs[a], ms[a]) && ms[r] == Go(t) && InCall(cs, t, c, a, n)
            && IsBusy(cs[r], t) && cs[r].threads[t].todo == [Release(SubMapSem)]
            && th.todo == [] && Report(cs, a, r, c, maps)
  }

  // ------------------------------------------------------------------ steps of other threads

  lemma SteadyShorter(cs: seq<Config>, a: nat, n: nat, ix: nat)
    requires a <= n && n + 1 < |cs| && Steady(cs, a, n + 1, ix)
    ensures Steady(cs, a, n, ix)
  {
  }

  lemma {:induction false} PartialLonger(cs: seq<Config>, a: nat, n: nat, p: Process, maps: seq<Bitmap>, i: nat)
    requires a <= n && n + 1 < |cs| && |maps| == MAX_DEVICES + 1 && Partial(cs, a, n, p, maps, i)
    ensures Partial(cs, a, n + 1, p, maps, i)
  {
    hide RowOk, Steady;
    forall ix: nat | ix + 1 < i && ix < MAX_DEVICES && Steady(cs, a, n + 1, ix) ensures RowOk(cs[a].block, p, maps, ix) {
      SteadyShorter(cs, a, n, ix);
    }
  }

  lemma {:induction false} ReportLonger(cs: seq<Config>, a: nat, n: nat, c: Call, maps: seq<Bitmap>)
    requires a <= n && n + 1 < |cs| && c.GetSub? && |maps| == MAX_DEVICES + 1 && Report(cs, a, n, c, maps)
    ensures Report(cs, a, n + 1, c, maps)
  {
    hide RowOk, Steady;
    forall ix: nat | ix < MAX_DEVICES && Steady(cs, a, n + 1, ix) ensures Steady(cs, a, n, ix) { SteadyShorter(cs, a, n, ix); }
  }

  /** While `t` holds the semaphore nobody else changes the maps. */
  lemma {:induction false} SubsHeld(c: Config, m: Move, c': Config, t: nat)
    requires Next(c, m, c') && ThreadsOk(c) && SemsOk(c) && Holds(c, t, SubMapSem) && !(m.Go? && m.t == t)
    ensures Subs(c'.block) == Subs(c.block)
  {
    hide Sound, HeldOf;
    if m.Go? && c.threads[m.t].todo != [] {
      var th := c.threads[m.t];
      SoundParts(th.call, th.todo);
      assert SubMapSem in HeldOf(th.todo) ==> Holds(c, m.t, SubMapSem);
      GuardedSubs(th.call, th.todo[0], c.block);
    }
  }

  lemma {:induction false} StageWaits(cs: seq<Config>, ms: seq<Move>, n: nat, t: nat, s: Stage)
    requires Execution(cs, ms) && n + 1 < |cs| && StageOk(cs, ms, n, t, s) && ThreadsOk(cs[n]) && SemsOk(cs[n])
    requires IsBusy(cs[n + 1], t) && cs[n + 1].threads[t] == cs[n].threads[t] && !(ms[n].Go? && ms[n].t == t)
    ensures StageOk(cs, ms, n + 1, t, s)
  {
    hide Sound, HeldOf, RowOk, Steady, Partial, Report, SubRows, Program, Subs;
    var th := cs[n].threads[t];
    assert Next(cs[n], ms[n], cs[n + 1]);
    if s.Asked? || s.Rows? || s.Ready? {
      assert Holds(cs[n], t, SubMapSem);
      SubsHeld(cs[n], ms[n], cs[n + 1], t);
    }
    match s
    case Rows(a, i) => PartialLonger(cs, a, n, th.call.proc, th.local.maps, i);
    case Ready(a) => ReportLonger(cs, a, n, th.call, th.local.maps);
    case _ =>
  }

  // ------------------------------------------------------------------ the call's own steps

  /** Filling in row `i`. */
  lemma {:induction false} RowStep(cs: seq<Config>, a: nat, n: nat, c: Call, l: Local, i: nat)
    requires a <= n && n + 1 < |cs| && c.GetSub? && CallOk(c) && LocalOk(c, l) && 1 <= i <= MAX_DEVICES
    requires Subs(cs[n].block) == Subs(cs[a].block) && Partial(cs, a, n, c.proc, l.maps, i)
    ensures Partial(cs, a, n + 1, c.proc, ExecLocal(c, SubRow(i), l, cs[n].block).maps, i + 1)
  {
    hide Steady;
    var maps, p, b := ExecLocal(c, SubRow(i), l, cs[n].block).maps, c.proc, cs[a].block;
    forall ix: nat | ix + 1 < i + 1 && ix < MAX_DEVICES && Steady(cs, a, n + 1, ix) ensures RowOk(b, p, maps, ix) {
      SteadyShorter(cs, a, n, ix);
      if ix + 1 < i {
        assert RowOk(b, p, l.maps, ix);
      } else {
        SteadyAt(cs, a, n, ix);
        assert SubsFor(cs[n].block, p, i) == SubsFor(b, p, i);
      }
    }
  }

  lemma SteadyAt(cs: seq<Config>, a: nat, n: nat, ix: nat)
    requires a <= n < |cs| && Steady(cs, a, n, ix)
    ensures ix in cs[n].block.catalog <==> ix in cs[a].block.catalog
  {
  }

  lemma {:induction false} FullReport(cs: seq<Config>, a: nat, n: nat, c: Call, maps: seq<Bitmap>)
    requires a <= n < |cs| && c.GetSub? && |maps| == MAX_DEVICES + 1 && Partial(cs, a, n, c.proc, maps, MAX_DEVICES + 1)
    requires !(c.proc == DEV_HANDLER && SubsFor(cs[a].block, c.proc, 0) == {})
    ensures Report(cs, a, n, c, maps)
  {
    hide RowOk, Steady;
  }

  lemma {:induction false} FirstRows(cs: seq<Config>, a: nat, n: nat, c: Call, l: Local)
    requires a <= n && n + 1 < |cs| && c.GetSub? && CallOk(c) && LocalOk(c, l) && Subs(cs[n].block) == Subs(cs[a].block)
    ensures Partial(cs, a, n + 1, c.proc, ExecLocal(c, SubHead, l, cs[n].block).maps, 1)
    ensures SubsFor(cs[n].block, c.proc, 0) == SubsFor(cs[a].block, c.proc, 0)
  {
    hide RowOk, Steady;
  }

  lemma {:induction false} InCallLonger(cs: seq<Config>, t: nat, c: Call, a: nat, n: nat)
    requires a <= n + 1 < |cs| && (a <= n ==> InCall(cs, t, c, a, n)) && IsBusy(cs[n + 1], t) && cs[n + 1].threads[t].call == c
    ensures InCall(cs, t, c, a, n + 1)
  {
  }

  lemma SubRowsUnfold(i: nat, tail: seq<Instr>)
    requires i <= MAX_DEVICES + 1
    ensures SubRows(i) + tail == if i == MAX_DEVICES + 1 then tail else [SubRow(i)] + (SubRows(i + 1) + tail)
  {
    if i == MAX_DEVICES + 1 {
      assert SubRows(i) + tail == tail;
    } else {
      assert SubRows(i) == [SubRow(i)] + SubRows(i + 1);
      assert [SubRow(i)] + SubRows(i + 1) + tail == [SubRow(i)] + (SubRows(i + 1) + tail);
    }
  }

  /** The stage after the call's own step. */
  function NextStage(cs: seq<Config>, n: nat, t: nat, s: Stage): (r: Stage)
    requires n < |cs| && IsBusy(cs[n], t) && cs[n].threads[t].call.GetSub?
  {
    var p := cs[n].threads[t].call.proc;
    match s
    case Before => Asked(n)
    case Asked(a) => if SubsFor(cs[n].block, p, 0) == {} && p == DEV_HANDLER then Ready(a) else Rows(a, 1)
    case Rows(a, i) => if i <= MAX_DEVICES then Rows(a, i + 1) else if p == DEV_HANDLER then Ready(a) else Left(a, n)
    case Ready(a) => Left(a, n)
    case Left(_, _) => s
  }

  lemma {:induction false} Stepped(cs: seq<Config>, ms: seq<Move>, n: nat, t: nat)
    requires Execution(cs, ms) && n + 1 < |cs| && ThreadsOk(cs[n]) && ms[n] == Go(t) && IsBusy(cs[n], t) && cs[n].threads[t].todo != []
    ensures var th, b := cs[n].threads[t], cs[n].block;
            && CallOk(th.call) && LocalOk(th.call, th.local) && InstrOk(th.call, th.todo[0]) && IsBusy(cs[n + 1], t)
            && cs[n + 1].block == ExecBlock(th.call, th.todo[0], b)
            && var th' := cs[n + 1].threads[t];
               && th'.call == th.call && th'.todo == ExecTodo(th.call, th.todo, b)
               && th'.local == ExecLocal(th.call, th.todo[0], th.local, b)
               && HeldOf(th'.todo) == HoldAfter(th.todo[0], HeldOf(th.todo))
  {
    hide Sound, HeldOf, ExecBlock, ExecTodo, ExecLocal;
    assert Next(cs[n], ms[n], cs[n + 1]);
    var th := cs[n].threads[t];
    assert ThreadOk(th);
    SoundParts(th.call, th.todo);
    ExecSound(th.call, th.todo, cs[n].block);
  }

  lemma {:induction false} Acquires(cs: seq<Config>, ms: seq<Move>, n: nat, t: nat, s: Stage)
    requires Execution(cs, ms) && n + 1 < |cs| && StageOk(cs, ms, n, t, s) && ThreadsOk(cs[n]) && ms[n] == Go(t)
    requires cs[n].threads[t].todo != [] && s.Before?
    ensures StageOk(cs, ms, n + 1, t, NextStage(cs, n, t, s))
  {
    hide Next, Sound, HeldOf, Partial, Report, SubRows, ThreadsOk, InCall, Init;
    var th, b := cs[n].threads[t], cs[n].block;
    var c, l, tail := th.call, th.local, SubTail(th.call.proc);
    Stepped(cs, ms, n, t);
    assert Program(c) == [Acquire(SubMapSem)] + ([SubHead] + (SubRows(1) + tail));
    assert th.todo[1..] == [SubHead] + (SubRows(1) + tail);
    InCallLonger(cs, t, c, n + 1, n);
    InCallLonger(cs, t, c, n, n);
  }

  lemma {:induction false} Looks(cs: seq<Config>, ms: seq<Move>, n: nat, t: nat, s: Stage)
    requires Execution(cs, ms) && n + 1 < |cs| && StageOk(cs, ms, n, t, s) && ThreadsOk(cs[n]) && ms[n] == Go(t)
    requires cs[n].threads[t].todo != [] && s.Asked?
    ensures StageOk(cs, ms, n + 1, t, NextStage(cs, n, t, s))
  {
    hide Next, Sound, HeldOf, Partial, Report, SubRows, Program, SubsFor, ThreadsOk, InCall, Init;
    var th, b := cs[n].threads[t], cs[n].block;
    var c, l, tail := th.call, th.local, SubTail(th.call.proc);
    Stepped(cs, ms, n, t);
    var a := s.a;
    FirstRows(cs, a, n, c, l);
    InCallLonger(cs, t, c, a, n);
    assert th.todo[1..] == SubRows(1) + tail;
    EarlyReport(cs, a, n + 1, c, ExecLocal(c, SubHead, l, b).maps);
  }

  lemma {:induction false} Fills(cs: seq<Config>, ms: seq<Move>, n: nat, t: nat, s: Stage)
    requires Execution(cs, ms) && n + 1 < |cs| && StageOk(cs, ms, n, t, s) && ThreadsOk(cs[n]) && ms[n] == Go(t)
    requires cs[n].threads[t].todo != [] && s.Rows? && s.i <= MAX_DEVICES
    ensures StageOk(cs, ms, n + 1, t, NextStage(cs, n, t, s))
  {
    hide Next, Sound, HeldOf, Partial, Report, SubRows, Program, SubsFor, ThreadsOk, InCall, Init;
    var th, b := cs[n].threads[t], cs[n].block;
    var c, l, tail := th.call, th.local, SubTail(th.call.proc);
    Stepped(cs, ms, n, t);
    var a, i := s.a, s.i;
    InCallLonger(cs, t, c, a, n);
    SubRowsUnfold(i, tail);
    RowStep(cs, a, n, c, l, i);
    assert th.todo[1..] == SubRows(i + 1) + tail;
  }

  lemma {:induction false} Lowers(cs: seq<Config>, ms: seq<Move>, n: nat, t: nat, s: Stage)
    requires Execution(cs, ms) && n + 1 < |cs| && StageOk(cs, ms, n, t, s) && ThreadsOk(cs[n]) && ms[n] == Go(t)
    requires cs[n].threads[t].todo != [] && s.Rows? && s.i > MAX_DEVICES && cs[n].threads[t].call.proc == DEV_HANDLER
    ensures StageOk(cs, ms, n + 1, t, NextStage(cs, n, t, s))
  {
    hide Next, Sound, HeldOf, Partial, Report, SubRows, Program, SubsFor, ExecBlock, Subs, ThreadsOk, InCall, Init;
    var th, b := cs[n].threads[t], cs[n].block;
    var c, l, tail := th.call, th.local, SubTail(th.call.proc);
    Stepped(cs, ms, n, t);
    var a := s.a;
    InCallLonger(cs, t, c, a, n);
    SubRowsUnfold(s.i, tail);
    FullReport(cs, a, n, c, l.maps);
    ReportLonger(cs, a, n, c, l.maps);
    assert tail == [SubLower, Release(SubMapSem)] && th.todo == tail && th.todo[1..] == [Release(SubMapSem)];
  }

  lemma {:induction false} LeavesFull(cs: seq<Config>, ms: seq<Move>, n: nat, t: nat, s: Stage)
    requires Execution(cs, ms) && n + 1 < |cs| && StageOk(cs, ms, n, t, s) && ThreadsOk(cs[n]) && ms[n] == Go(t)
    requires cs[n].threads[t].todo != [] && s.Rows? && s.i > MAX_DEVICES && cs[n].threads[t].call.proc != DEV_HANDLER
    ensures StageOk(cs, ms, n + 1, t, NextStage(cs, n, t, s))
  {
    hide Next, Sound, HeldOf, Partial, Report, SubRows, Program, SubsFor, ExecBlock, Subs, ThreadsOk, InCall, Init;
    var th, b := cs[n].threads[t], cs[n].block;
    var c, l, tail := th.call, th.local, SubTail(th.call.proc);
    Stepped(cs, ms, n, t);
    var a := s.a;
    InCallLonger(cs, t, c, a, n);
    SubRowsUnfold(s.i, tail);
    FullReport(cs, a, n, c, l.maps);
    assert tail == [Release(SubMapSem)] && th.todo == tail && th.todo[1..] == [];
  }

  lemma {:induction false} Leaves(cs: seq<Config>, ms: seq<Move>, n: nat, t: nat, s: Stage)
    requires Execution(cs, ms) && n + 1 < |cs| && StageOk(cs, ms, n, t, s) && ThreadsOk(cs[n]) && ms[n] == Go(t)
    requires cs[n].threads[t].todo != [] && s.Ready?
    ensures StageOk(cs, ms, n + 1, t, NextStage(cs, n, t, s))
  {
    hide Next, Sound, HeldOf, Partial, Report, SubRows, Program, SubsFor, ExecBlock, Subs, ThreadsOk, InCall, Init;
    var th, b := cs[n].threads[t], cs[n].block;
    var c, l, tail := th.call, th.local, SubTail(th.call.proc);
    Stepped(cs, ms, n, t);
    InCallLonger(cs, t, c, s.a, n);
    assert th.todo[1..] == [];
  }

  lemma {:induction false} StageMoves(cs: seq<Config>, ms: seq<Move>, n: nat, t: nat, s: Stage)
    requires Execution(cs, ms) && n + 1 < |cs| && StageOk(cs, ms, n, t, s) && ThreadsOk(cs[n]) && ms[n] == Go(t)
    requires cs[n].threads[t].todo != []
    ensures StageOk(cs, ms, n + 1, t, NextStage(cs, n, t, s))
  {
    hide ThreadsOk, NextStage, Inside, InCall, Partial, Report, SubRows, Program, Next;
    match s
    case Before => Acquires(cs, ms, n, t, s);
    case Asked(_) => Looks(cs, ms, n, t, s);
    case Rows(_, i) =>
      if i <= MAX_DEVICES {
        Fills(cs, ms, n, t, s);
      } else if cs[n].threads[t].call.proc == DEV_HANDLER {
        Lowers(cs, ms, n, t, s);
      } else {
        LeavesFull(cs, ms, n, t, s);
      }
    case Ready(_) => Leaves(cs, ms, n, t, s);
    case Left(_, _) =>
  }

  lemma {:induction false} EarlyReport(cs: seq<Config>, a: nat, n: nat, c: Call, maps: seq<Bitmap>)
    requires a <= n < |cs| && c.GetSub? && CallOk(c) && |maps| == MAX_DEVICES + 1 && maps == c.buf[0 := SubsFor(cs[a].block, c.proc, 0)]
    ensures c.proc == DEV_HANDLER && SubsFor(cs[a].block, c.proc, 0) == {} ==> Report(cs, a, n, c, maps)
  {
  }

  // ------------------------------------------------------------------ every call

  /** A thread in get_sub_requests is at one of its stages. */
  lemma {:induction false} StageOf(cs: seq<Config>, ms: seq<Move>, n: nat, t: nat) returns (s: Stage)
    requires Execution(cs, ms) && n < |cs| && IsBusy(cs[n], t) && cs[n].threads[t].call.GetSub?
    ensures StageOk(cs, ms, n, t, s)
  {
    hide StageOk, NextStage, SemsOk;
    s := Before;
    NobodyBusy(cs[0], t);
    SemsAlwaysOk(cs, ms, n - 1);
    assert Next(cs[n - 1], ms[n - 1], cs[n]);
    var c := cs[n - 1];
    if ms[n - 1].Start? && ms[n - 1].t == t {
      StageStarts(cs, ms, n, t);
    } else {
      s := StageOf(cs, ms, n - 1, t);
      if ms[n - 1] == Go(t) {
        StageMoves(cs, ms, n - 1, t, s);
        s := NextStage(cs, n - 1, t, s);
      } else {
        StageWaits(cs, ms, n - 1, t, s);
      }
    }
  }

  lemma {:induction false} StageStarts(cs: seq<Config>, ms: seq<Move>, n: nat, t: nat)
    requires n > 0 && n < |cs| == |ms| + 1 && ms[n - 1].Start? && ms[n - 1].t == t && Next(cs[n - 1], ms[n - 1], cs[n])
    requires ms[n - 1].call.GetSub?
    ensures StageOk(cs, ms, n, t, Before)
  {
    hide Program;
  }

  /** Completed call `k` held the semaphore from step `a` to step `r` and reported what stood there at `a`. */
  ghost predicate IsReport(cs: seq<Config>, ms: seq<Move>, n: nat, k: nat, a: nat, r: nat)
    requires n < |cs| == |ms| + 1 && k < |cs[n].done| && cs[n].done[k].call.GetSub?
  {
    var d := cs[n].done[k];
    && |d.local.maps| == MAX_DEVICES + 1
    && a < r < n && ms[a] == Go(d.tid) && TakesSubs(cs[a], ms[a]) && ms[r] == Go(d.tid)
    && InCall(cs, d.tid, d.call, a, r) && cs[r].threads[d.tid].todo == [Release(SubMapSem)]
    && Report(cs, a, r, d.call, d.local.maps)
  }

  /** Every call of get_sub_requests that has returned held the semaphore from a step `a` to a step `r`, and
      reported for every slot that stayed connected or stayed free in between what stood there at `a`. */
  lemma {:induction false} ReportAtAcquisition(cs: seq<Config>, ms: seq<Move>, n: nat, k: nat) returns (a: nat, r: nat)
    requires Execution(cs, ms) && n < |cs| && k < |cs[n].done| && cs[n].done[k].call.GetSub?
    ensures IsReport(cs, ms, n, k, a, r)
  {
    hide Next, Init, Report, TakesSubs, Program, SubRows, Partial, Inside;
    var f := ReturnedAt(cs, ms, n, k);
    var t := cs[n].done[k].tid;
    var s := StageOf(cs, ms, f, t);
    StageDone(cs, ms, f, t, s);
    a, r := s.a, s.r;
  }

  lemma {:induction false} StageDone(cs: seq<Config>, ms: seq<Move>, n: nat, t: nat, s: Stage)
    requires n < |cs| == |ms| + 1 && StageOk(cs, ms, n, t, s) && cs[n].threads[t].todo == []
    ensures s.Left?
  {
    hide SubRows, Partial, Report;
  }

  // ------------------------------------------------------------------ changes are reported exactly once

  /** Entry `j` of the log raises the change bit of slot `ix`; at -1 every bit is on. */
  predicate SubRaisedAt(init: SubMaps, log: seq<SubAccess>, j: int, ix: nat)
    requires Sized(init) && -1 <= j < |log| && ix < MAX_DEVICES
  {
    j == -1 ||
    (log[j].ix == ix && (log[j].call.Connect? ||
                         (log[j].call.PlaceSub? && SubsIn(ReplaySubs(init, log[..j]), log[j].call.proc, ix + 1) != log[j].call.mask)))
  }

  ghost predicate UnreportedSince(log: seq<SubAccess>, j: int) { forall m :: j < m < |log| && 0 <= m ==> !Consumes(log[m].call) }

  /** Raised, with no dev_handler report since. */
  ghost predicate SubRaisedSince(init: SubMaps, log: seq<SubAccess>, ix: nat)
    requires Sized(init) && ix < MAX_DEVICES
  {
    exists j :: -1 <= j < |log| && SubRaisedAt(init, log, j, ix) && UnreportedSince(log, j)
  }

  lemma RaisedPrefix(init: SubMaps, log: seq<SubAccess>, a: SubAccess, j: int, ix: nat)
    requires Sized(init) && -1 <= j < |log| && ix < MAX_DEVICES
    ensures SubRaisedAt(init, log + [a], j, ix) <==> SubRaisedAt(init, log, j, ix)
  {
    if j >= 0 { assert (log + [a])[..j] == log[..j]; }
  }

  lemma {:induction false} RaisedSinceSnoc(init: SubMaps, log: seq<SubAccess>, a: SubAccess, ix: nat)
    requires Sized(init) && ix < MAX_DEVICES
    ensures SubRaisedSince(init, log + [a], ix) <==>
            SubRaisedAt(init, log + [a], |log|, ix) || (!Consumes(a.call) && SubRaisedSince(init, log, ix))
  {
    hide SubRaisedAt;
    var more := log + [a];
    if SubRaisedSince(init, more, ix) {
      var j :| -1 <= j < |more| && SubRaisedAt(init, more, j, ix) && UnreportedSince(more, j);
      if j < |log| {
        RaisedPrefix(init, log, a, j, ix);
        assert more[|log|] == a;
        assert forall m :: 0 <= m < |log| ==> more[m] == log[m];
        assert UnreportedSince(log, j);
      }
    }
    if SubRaisedAt(init, more, |log|, ix) {
      assert UnreportedSince(more, |log|);
    }
    if !Consumes(a.call) && SubRaisedSince(init, log, ix) {
      var j :| -1 <= j < |log| && SubRaisedAt(init, log, j, ix) && UnreportedSince(log, j);
      RaisedPrefix(init, log, a, j, ix);
      assert UnreportedSince(more, j);
    }
  }

  lemma {:induction false} ChangeReplay(init: SubMaps, log: seq<SubAccess>, ix: nat)
    requires Sized(init) && ix < MAX_DEVICES && ix in init.net[0]
    ensures ix in SubsIn(ReplaySubs(init, log), DEV_HANDLER, 0) <==> SubRaisedSince(init, log, ix)
  {
    hide SubRaisedSince, SubRaisedAt;
    if log == [] {
      RaisedAtStart(init, ix);
    } else {
      var n := |log| - 1;
      var before, a := log[..n], log[n];
      assert log == before + [a];
      ChangeReplay(init, before, ix);
      RaisedSinceSnoc(init, before, a, ix);
      ReplaySubsSnoc(init, before, a);
      EffectOnChange(init, before, a, ix);
    }
  }

  lemma RaisedAtStart(init: SubMaps, ix: nat)
    requires Sized(init) && ix < MAX_DEVICES
    ensures SubRaisedSince(init, [], ix)
  {
    assert SubRaisedAt(init, [], -1, ix) && UnreportedSince([], -1);
  }

  lemma {:induction false} EffectOnChange(init: SubMaps, before: seq<SubAccess>, a: SubAccess, ix: nat)
    requires Sized(init) && ix < MAX_DEVICES
    ensures var m := ReplaySubs(init, before);
            ix in SubsIn(SubEffect(a.call, a.ix, m), DEV_HANDLER, 0) <==>
            SubRaisedAt(init, before + [a], |before|, ix) || (!Consumes(a.call) && ix in SubsIn(m, DEV_HANDLER, 0))
  {
    hide ReplaySubs;
    assert (before + [a])[..|before|] == before;
  }

  lemma {:induction false} SubLogPrefix(cs: seq<Config>, ms: seq<Move>, a: nat, n: nat)
    requires a <= n <= |ms| && n <= |cs|
    ensures SubLog(cs, ms, a) <= SubLog(cs, ms, n)
  {
    hide SubTaken;
    if a < n { SubLogPrefix(cs, ms, a, n - 1); }
  }

  ghost predicate ConnectedThroughout(cs: seq<Config>, a: nat, r: nat, ix: nat)
    requires r < |cs|
  {
    forall m :: a <= m <= r ==> ix in cs[m].block.catalog
  }

  lemma {:induction false} ReportedRow(cs: seq<Config>, ms: seq<Move>, n: nat, k: nat, a: nat, r: nat, ix: nat)
    requires n < |cs| == |ms| + 1 && k < |cs[n].done| && cs[n].done[k].call.GetSub? && IsReport(cs, ms, n, k, a, r)
    requires cs[n].done[k].call.proc == DEV_HANDLER && ix < MAX_DEVICES && ConnectedThroughout(cs, a, r, ix)
    ensures var maps, b := cs[n].done[k].local.maps, cs[a].block;
            && (ix in maps[0] <==> ix in SubsFor(b, DEV_HANDLER, 0))
            && (ix in maps[0] ==> maps[ix + 1] == b.netSub[ix + 1] + b.execSub[ix + 1])
  {
    hide TakesSubs, InCall;
    assert Steady(cs, a, r, ix);
    var maps, b := cs[n].done[k].local.maps, cs[a].block;
    assert ix in b.catalog;
    if SubsFor(b, DEV_HANDLER, 0) != {} { assert RowOk(b, DEV_HANDLER, maps, ix); }
  }

  /** Under every interleaving a dev_handler report names a slot that stays connected during it exactly when
      a connect or a differing request has raised it since the previous dev_handler report, in the order in
      which the calls acquired the maps, and gives it the union of both maps at that moment. */
  lemma {:induction false} ReportExactInterleaved(cs: seq<Config>, ms: seq<Move>, n: nat, k: nat, a: nat, r: nat, ix: nat)
    requires Execution(cs, ms) && n < |cs| && k < |cs[n].done| && cs[n].done[k].call.GetSub? && IsReport(cs, ms, n, k, a, r)
    requires cs[n].done[k].call.proc == DEV_HANDLER && ix < MAX_DEVICES && ConnectedThroughout(cs, a, r, ix)
    ensures var maps, b := cs[n].done[k].local.maps, cs[a].block;
            && |maps| == MAX_DEVICES + 1
            && (ix in maps[0] <==> SubRaisedSince(Subs(cs[0].block), SubLog(cs, ms, a), ix))
            && (ix in maps[0] ==> maps[ix + 1] == b.netSub[ix + 1] + b.execSub[ix + 1])
  {
    hide Next, Report, InCall, ReplaySubs, SubRaisedSince, SubLog, ThreadsOk, SubThreadsOk, FinishSubs;
    ReportedRow(cs, ms, n, k, a, r, ix);
    SubsAlwaysOk(cs, ms, a);
    TakingStep(cs, ms, a);
    ChangeReplay(Subs(cs[0].block), SubLog(cs, ms, a), ix);
  }

  lemma TakingStep(cs: seq<Config>, ms: seq<Move>, a: nat)
    requires Execution(cs, ms) && a < |ms| && TakesSubs(cs[a], ms[a])
    ensures Value(cs[a], SubMapSem) > 0
  {
    assert Next(cs[a], ms[a], cs[a + 1]);
  }

  /** A change that dev_handler's report `k` covers is in no later dev_handler report `k2` unless it is
      raised again between their acquisitions of the maps. */
  lemma {:induction false} ReportedOnceInterleaved(
    cs: seq<Config>, ms: seq<Move>, n: nat, k: nat, a: nat, r: nat, k2: nat, a2: nat, r2: nat, ix: nat)
    requires Execution(cs, ms) && n < |cs| && k < |cs[n].done| && k2 < |cs[n].done| && ix < MAX_DEVICES && a < a2
    requires cs[n].done[k].call.GetSub? && cs[n].done[k].call.proc == DEV_HANDLER && IsReport(cs, ms, n, k, a, r)
    requires cs[n].done[k2].call.GetSub? && cs[n].done[k2].call.proc == DEV_HANDLER && IsReport(cs, ms, n, k2, a2, r2)
    requires ConnectedThroughout(cs, a2, r2, ix)
    requires var log := SubLog(cs, ms, a2); forall j :: |SubLog(cs, ms, a)| < j < |log| ==> !SubRaisedAt(Subs(cs[0].block), log, j, ix)
    ensures |cs[n].done[k2].local.maps| == MAX_DEVICES + 1 && ix !in cs[n].done[k2].local.maps[0]
  {
    hide Next, Report, SubLog, SubRaisedAt, ReplaySubs;
    ReportExactInterleaved(cs, ms, n, k2, a2, r2, ix);
    var log, q := SubLog(cs, ms, a2), |SubLog(cs, ms, a)|;
    TakenNext(cs, ms, n, k, a, r);
    SubLogPrefix(cs, ms, a + 1, a2);
    assert q < |log| && Consumes(log[q].call);
    NotRaising(Subs(cs[0].block), log, q, ix);
    forall j | -1 <= j < |log| && SubRaisedAt(Subs(cs[0].block), log, j, ix) ensures !UnreportedSince(log, j) {
      assert j < q;
    }
  }

  lemma NotRaising(init: SubMaps, log: seq<SubAccess>, q: nat, ix: nat)
    requires Sized(init) && q < |log| && ix < MAX_DEVICES && Consumes(log[q].call)
    ensures !SubRaisedAt(init, log, q, ix)
  {
  }

  lemma {:induction false} TakenNext(cs: seq<Config>, ms: seq<Move>, n: nat, k: nat, a: nat, r: nat)
    requires n < |cs| == |ms| + 1 && k < |cs[n].done| && cs[n].done[k].call.GetSub? && IsReport(cs, ms, n, k, a, r)
    requires cs[n].done[k].call.proc == DEV_HANDLER
    ensures var log := SubLog(cs, ms, a + 1); |log| == |SubLog(cs, ms, a)| + 1 && Consumes(log[|log| - 1].call)
  {
    hide Report;
    assert cs[a].threads[cs[n].done[k].tid].call == cs[n].done[k].call;
  }

  // ------------------------------------------------------------------ what the other processes are told

  /** Entry `j` turns on the change bit that process `p` has for slot `ix`; at -1 the network's are all on. */
  predicate OwnRaisedAt(init: SubMaps, log: seq<SubAccess>, j: int, p: Process, ix: nat)
    requires Sized(init) && -1 <= j < |log| && ix < MAX_DEVICES
  {
    if j == -1 then p == NET_HANDLER
    else
      log[j].ix == ix
      && ((log[j].call.Connect? && p == NET_HANDLER)
          || (log[j].call.PlaceSub? && log[j].call.proc == p && SubsIn(ReplaySubs(init, log[..j]), p, ix + 1) != log[j].call.mask))
  }

  /** The access turns it off: a dev_handler report, or for the executor a connect. */
  predicate OwnLowers(a: SubAccess, p: Process, ix: nat)
  {
    Consumes(a.call) || (p == EXECUTOR && a.call.Connect? && a.ix == ix)
  }

  ghost predicate OwnStands(log: seq<SubAccess>, j: int, p: Process, ix: nat)
  {
    forall m :: j < m < |log| && 0 <= m ==> !OwnLowers(log[m], p, ix)
  }

  ghost predicate OwnRaisedSince(init: SubMaps, log: seq<SubAccess>, p: Process, ix: nat)
    requires Sized(init) && ix < MAX_DEVICES
  {
    exists j :: -1 <= j < |log| && OwnRaisedAt(init, log, j, p, ix) && OwnStands(log, j, p, ix)
  }

  lemma OwnPrefix(init: SubMaps, log: seq<SubAccess>, a: SubAccess, j: int, p: Process, ix: nat)
    requires Sized(init) && -1 <= j < |log| && ix < MAX_DEVICES
    ensures OwnRaisedAt(init, log + [a], j, p, ix) <==> OwnRaisedAt(init, log, j, p, ix)
  {
    if j >= 0 { assert (log + [a])[..j] == log[..j]; }
  }

  lemma {:induction false} OwnSnoc(init: SubMaps, log: seq<SubAccess>, a: SubAccess, p: Process, ix: nat)
    requires Sized(init) && ix < MAX_DEVICES
    ensures OwnRaisedSince(init, log + [a], p, ix) <==>
            OwnRaisedAt(init, log + [a], |log|, p, ix) || (!OwnLowers(a, p, ix) && OwnRaisedSince(init, log, p, ix))
  {
    hide OwnRaisedAt, OwnLowers;
    var more := log + [a];
    if OwnRaisedSince(init, more, p, ix) {
      var j :| -1 <= j < |more| && OwnRaisedAt(init, more, j, p, ix) && OwnStands(more, j, p, ix);
      if j < |log| {
        OwnPrefix(init, log, a, j, p, ix);
        assert more[|log|] == a;
        assert forall m :: 0 <= m < |log| ==> more[m] == log[m];
        assert OwnStands(log, j, p, ix);
      }
    }
    if OwnRaisedAt(init, more, |log|, p, ix) {
      assert OwnStands(more, |log|, p, ix);
    }
    if !OwnLowers(a, p, ix) && OwnRaisedSince(init, log, p, ix) {
      var j :| -1 <= j < |log| && OwnRaisedAt(init, log, j, p, ix) && OwnStands(log, j, p, ix);
      OwnPrefix(init, log, a, j, p, ix);
      assert OwnStands(more, j, p, ix);
    }
  }

  lemma {:induction false} EffectOnOwn(init: SubMaps, before: seq<SubAccess>, a: SubAccess, p: Process, ix: nat)
    requires Sized(init) && ix < MAX_DEVICES && Subscriber(p) && (a.call.PlaceSub? ==> Subscriber(a.call.proc))
    ensures var m := ReplaySubs(init, before);
            ix in SubsIn(SubEffect(a.call, a.ix, m), p, 0) <==>
            OwnRaisedAt(init, before + [a], |before|, p, ix) || (!OwnLowers(a, p, ix) && ix in SubsIn(m, p, 0))
  {
    hide ReplaySubs;
    assert (before + [a])[..|before|] == before;
  }

  /** A change bit of one process is on exactly if it was raised and not lowered since. */
  lemma {:induction false} OwnReplay(init: SubMaps, log: seq<SubAccess>, p: Process, ix: nat)
    requires Sized(init) && ix < MAX_DEVICES && Subscriber(p) && RequestsOk(log)
    requires ix in init.net[0] && ix !in init.exec[0]
    ensures ix in SubsIn(ReplaySubs(init, log), p, 0) <==> OwnRaisedSince(init, log, p, ix)
  {
    if log == [] {
      assert OwnStands([], -1, p, ix);
    } else {
      hide OwnRaisedSince, OwnRaisedAt, OwnLowers, SubEffect;
      var n := |log| - 1;
      var before, a := log[..n], log[n];
      assert log == before + [a];
      OwnReplay(init, before, p, ix);
      OwnSnoc(init, before, a, p, ix);
      ReplaySubsSnoc(init, before, a);
      EffectOnOwn(init, before, a, p, ix);
    }
  }

  lemma {:induction false} OwnRow(cs: seq<Config>, ms: seq<Move>, n: nat, k: nat, a: nat, r: nat, ix: nat)
    requires n < |cs| == |ms| + 1 && k < |cs[n].done| && cs[n].done[k].call.GetSub? && IsReport(cs, ms, n, k, a, r)
    requires Subscriber(cs[n].done[k].call.proc) && ix < MAX_DEVICES && ConnectedThroughout(cs, a, r, ix)
    ensures var p, maps, b := cs[n].done[k].call.proc, cs[n].done[k].local.maps, cs[a].block;
            (ix in maps[0] <==> ix in SubsFor(b, p, 0)) && maps[ix + 1] == SubsFor(b, p, ix + 1)
  {
    hide TakesSubs, InCall;
    assert Steady(cs, a, r, ix);
    assert ix in cs[a].block.catalog;
    assert RowOk(cs[a].block, cs[n].done[k].call.proc, cs[n].done[k].local.maps, ix);
  }

  /** Under every interleaving a report to the network or the executor gives, for a slot that stays connected
      during it, that process's own last request or the default of a new device, and its own change bit. */
  lemma {:induction false} ToldOwnRequests(cs: seq<Config>, ms: seq<Move>, n: nat, k: nat, a: nat, r: nat, ix: nat)
    requires Execution(cs, ms) && n < |cs| && k < |cs[n].done| && cs[n].done[k].call.GetSub? && IsReport(cs, ms, n, k, a, r)
    requires Subscriber(cs[n].done[k].call.proc) && ix < MAX_DEVICES && ConnectedThroughout(cs, a, r, ix)
    ensures var p, maps, log := cs[n].done[k].call.proc, cs[n].done[k].local.maps, SubLog(cs, ms, a);
            && |maps| == MAX_DEVICES + 1
            && (ix in maps[0] <==> OwnRaisedSince(Subs(cs[0].block), log, p, ix))
            && (forall i: nat :: LastSubSetter(log, i, p, ix) ==>
                  maps[ix + 1] == if log[i].call.PlaceSub? then log[i].call.mask else if p == NET_HANDLER then ALL_BITS else {})
            && ((forall i: nat :: !LastSubSetter(log, i, p, ix)) ==> maps[ix + 1] == if p == NET_HANDLER then ALL_BITS else {})
  {
    hide Next, Report, InCall, ReplaySubs, SubLog, ThreadsOk, SubThreadsOk, FinishSubs, LastSubSetter, OwnRaisedSince;
    OwnRow(cs, ms, n, k, a, r, ix);
    SubsAlwaysOk(cs, ms, a);
    TakingStep(cs, ms, a);
    RequestsLogged(cs, ms, a);
    OwnReplay(Subs(cs[0].block), SubLog(cs, ms, a), cs[n].done[k].call.proc, ix);
    LastRequestStands(cs, ms, a, cs[n].done[k].call.proc, ix);
  }
}
