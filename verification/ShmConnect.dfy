/** What a new device finds under every interleaving: everything at its default, and exactly the command
    bits of writes that reached the slot's command stream and were never consumed. */
module ShmConnect {
  import opened Basics
  import opened ShmBlock
  import opened ShmHistory
  import opened ShmProtocol
  import opened ShmDiscipline
  import opened ShmExecution
  import opened ShmSerial
  import opened ShmTheorems

  /** What an instruction of device_connect is there for. */
  ghost predicate Post(i: Instr, b: Shared)
  {
    match i
    case PutType(ix, typ) => ix < MAX_DEVICES ==> b.ids[ix].typ == typ
    case PutYear(ix, year) => ix < MAX_DEVICES ==> b.ids[ix].year == year
    case PutUid(ix, uid) => ix < MAX_DEVICES ==> b.ids[ix].uid == uid
    case CatOn(ix) => ix in b.catalog
    case Zero(st, ix, p) => ix < MAX_DEVICES && p < MAX_PARAMS ==> Row(b, st, ix)[p] == ZERO_WORD
    case ExecOff0(ix) => ix !in b.execSub[0]
    case ExecOff(ix) => ix < MAX_DEVICES ==> b.execSub[ix + 1] == {}
    case NetOn0(ix) => ix in b.netSub[0]
    case NetOn(ix) => ix < MAX_DEVICES ==> b.netSub[ix + 1] == ALL_BITS
    case _ => true
  }

  predicate ByConnect(i: Instr, ix: nat, id: DevId)
  {
    match i
    case Acquire(_) => true
    case Release(_) => true
    case PutType(k, typ) => k == ix && typ == id.typ
    case PutYear(k, year) => k == ix && year == id.year
    case PutUid(k, uid) => k == ix && uid == id.uid
    case CatOn(k) => k == ix
    case Zero(_, k, p) => k == ix && p < MAX_PARAMS
    case ExecOff0(k) => k == ix
    case ExecOff(k) => k == ix
    case NetOn0(k) => k == ix
    case NetOn(k) => k == ix
    case _ => false
  }

  /** Somebody else's instruction cannot undo it under the semaphores that guard it. */
  lemma PostStable(c: Call, i: Instr, x: Instr, b: Shared)
    requires InstrOk(c, i) && Guards(i) !! Guards(x) && Post(x, b)
    ensures Post(x, ExecBlock(c, i, b))
  {
  }

  /** Nor can another instruction of the same connect. */
  lemma OwnStable(c: Call, i: Instr, x: Instr, b: Shared, ix: nat, id: DevId)
    requires InstrOk(c, i) && ByConnect(i, ix, id) && ByConnect(x, ix, id) && ix < MAX_DEVICES
    requires x == i || Post(x, b)
    ensures Post(x, ExecBlock(c, i, b))
  {
  }

  function Ends(ix: nat): (r: seq<Instr>)
  {
    [Release(SubMapSem), Release(DataSem(ix)), Release(CommandSem(ix)), Release(CatalogSem)]
  }

  function Work(ix: nat, id: DevId): (r: seq<Instr>)
  {
    [Acquire(DataSem(ix)), Acquire(CommandSem(ix)), Acquire(SubMapSem)]
    + (ConnectHead(ix, id) + (Zeros(ix, 0) + [ExecOff0(ix), ExecOff(ix), NetOn0(ix), NetOn(ix)]))
  }

  lemma {:induction false} ZerosBy(ix: nat, p: nat, x: Instr)
    requires p <= MAX_PARAMS
    ensures x in Zeros(ix, p) <==> x.Zero? && x.ix == ix && p <= x.p < MAX_PARAMS
    decreases MAX_PARAMS - p
  {
    hide Zeros;
    ZerosUnfold(ix, p);
    if p < MAX_PARAMS {
      ZerosBy(ix, p + 1, x);
      var head := [Zero(DATA, ix, p), Zero(COMMAND, ix, p)];
      assert x in head <==> x == head[0] || x == head[1];
      assert x.Zero? && x.ix == ix && x.p == p ==> x == Zero(x.st, ix, p) && (x.st == DATA || x.st == COMMAND);
    }
  }

  lemma ZerosUnfold(ix: nat, p: nat)
    requires p <= MAX_PARAMS
    ensures Zeros(ix, p) == if p == MAX_PARAMS then [] else [Zero(DATA, ix, p), Zero(COMMAND, ix, p)] + Zeros(ix, p + 1)
  {
  }

  lemma {:induction false} WorkBy(ix: nat, id: DevId)
    ensures ConnectAt(ix, id) == Work(ix, id) + Ends(ix) && |Work(ix, id)| > 4
    ensures forall x :: x in Work(ix, id) ==> !x.Release? && ByConnect(x, ix, id)
  {
    hide Zeros;
    forall x ensures x in Zeros(ix, 0) <==> x.Zero? && x.ix == ix && 0 <= x.p < MAX_PARAMS { ZerosBy(ix, 0, x); }
    var maps := [ExecOff0(ix), ExecOff(ix), NetOn0(ix), NetOn(ix)];
    assert ConnectTail(ix) == maps + Ends(ix);
    assert Zeros(ix, 0) + (maps + Ends(ix)) == Zeros(ix, 0) + maps + Ends(ix);
    var body := Zeros(ix, 0) + maps;
    assert ConnectHead(ix, id) + (body + Ends(ix)) == ConnectHead(ix, id) + body + Ends(ix);
  }

  // ------------------------------------------------------------------ along an execution

  /** Thread `th` is connecting into the slot it found and has executed `done`. */
  ghost predicate Connecting(th: Thread, done: seq<Instr>)
  {
    th.Busy? && th.call.Connect? && 0 <= th.local.ix < MAX_DEVICES && ConnectAt(th.local.ix, th.call.id) == done + th.todo
  }

  /** Until the first release everything done still holds, under semaphores still held. */
  ghost predicate Kept(b: Shared, th: Thread, done: seq<Instr>)
    requires th.Busy?
  {
    (forall x :: x in done ==> !x.Release?) ==> forall x :: x in done ==> Post(x, b) && Guards(x) <= HeldOf(th.todo)
  }

  lemma ConnectStraight(ix: nat, id: DevId, x: Instr)
    requires x in ConnectAt(ix, id)
    ensures ByConnect(x, ix, id)
  {
    hide ConnectAt, Work;
    WorkBy(ix, id);
  }

  /** The connecting thread's own step. */
  lemma {:induction false} OwnConnectStep(c: Config, t: nat, done: seq<Instr>)
    requires CanStep(c, t) && ThreadOk(c.threads[t]) && c.threads[t].todo != []
    requires Connecting(c.threads[t], done) && Kept(c.block, c.threads[t], done)
    ensures var th := Advance(c, t).threads[t];
            Connecting(th, done + [c.threads[t].todo[0]]) && Kept(Advance(c, t).block, th, done + [c.threads[t].todo[0]])
  {
    hide Sound, HeldOf, ConnectAt, Post, ExecBlock;
    var th, c' := c.threads[t], Advance(c, t);
    var i, ix, id, done' := th.todo[0], th.local.ix, th.call.id, done + [th.todo[0]];
    SoundParts(th.call, th.todo);
    ExecSound(th.call, th.todo, c.block);
    assert done + th.todo == done' + th.todo[1..];
    assert i in ConnectAt(ix, id);
    ConnectStraight(ix, id, i);
    assert ExecTodo(th.call, th.todo, c.block) == th.todo[1..];
    if forall x :: x in done' ==> !x.Release? {
      assert i in done' && !i.Release?;
      assert forall x :: x in done ==> x in done';
      forall x | x in done' ensures Post(x, c'.block) && Guards(x) <= HeldOf(c'.threads[t].todo) {
        assert x in ConnectAt(ix, id);
        ConnectStraight(ix, id, x);
        OwnStable(th.call, i, x, c.block, ix, id);
      }
    }
  }

  /** A step of another thread. */
  lemma {:induction false} OtherConnectStep(c: Config, t: nat, u: nat, done: seq<Instr>)
    requires CanStep(c, u) && ThreadsOk(c) && SemsOk(c) && u != t && IsBusy(c, t) && Kept(c.block, c.threads[t], done)
    ensures Kept(Advance(c, u).block, c.threads[t], done)
  {
    hide Sound, HeldOf, Post, ExecBlock;
    var th := c.threads[u];
    if th.todo != [] && forall x :: x in done ==> !x.Release? {
      SoundParts(th.call, th.todo);
      forall x | x in done ensures Post(x, Advance(c, u).block) {
        forall s | s in Guards(th.todo[0]) ensures s !in Guards(x) {
          assert Holds(c, u, s);
          assert s in HeldOf(c.threads[t].todo) ==> Holds(c, t, s);
        }
        PostStable(th.call, th.todo[0], x, c.block);
      }
    }
  }

  predicate HasSlot(c: Config, t: nat) { IsBusy(c, t) && c.threads[t].call.Connect? && c.threads[t].local.ix >= 0 }

  lemma {:induction false} ConnectStep(c: Config, m: Move, c': Config, t: nat, done: seq<Instr>) returns (done': seq<Instr>)
    requires Next(c, m, c') && ThreadsOk(c) && SemsOk(c) && HasSlot(c', t)
    requires HasSlot(c, t) ==> Connecting(c.threads[t], done) && Kept(c.block, c.threads[t], done)
    ensures Connecting(c'.threads[t], done') && Kept(c'.block, c'.threads[t], done')
  {
    hide Sound, HeldOf, ConnectAt, Post, ExecBlock, SemsOk, Kept, Connecting;
    done' := done;
    match m
    case Start(u, call) => assert u != t;
    case Go(u) =>
      if u != t {
        OtherConnectStep(c, t, u, done);
      } else if HasSlot(c, t) {
        OwnConnectStep(c, t, done);
        done' := done + [c.threads[t].todo[0]];
      } else {
        FoundSlot(c, t);
        done' := [];
      }
  }

  /** A thread that has found its slot is somewhere in device_connect's straight part. */
  lemma {:induction false} ConnectProgress(cs: seq<Config>, ms: seq<Move>, n: nat, t: nat) returns (done: seq<Instr>)
    requires Execution(cs, ms) && n < |cs| && HasSlot(cs[n], t)
    ensures Connecting(cs[n].threads[t], done) && Kept(cs[n].block, cs[n].threads[t], done)
  {
    hide SemsOk, ThreadsOk, Kept, Connecting, Next;
    done := [];
    if n == 0 {
      NobodyBusy(cs[0], t);
    } else {
      SemsAlwaysOk(cs, ms, n - 1);
      if HasSlot(cs[n - 1], t) { done := ConnectProgress(cs, ms, n - 1, t); }
      done := ConnectStep(cs[n - 1], ms[n - 1], cs[n], t, done);
    }
  }

  lemma {:induction false} FoundSlot(c: Config, t: nat)
    requires CanStep(c, t) && ThreadOk(c.threads[t]) && c.threads[t].call.Connect? && c.threads[t].local.ix < 0
    requires var th := Advance(c, t).threads[t]; th.Busy? && th.local.ix >= 0
    ensures var th := Advance(c, t).threads[t]; Connecting(th, []) && Kept(Advance(c, t).block, th, [])
  {
    hide Sound, HeldOf, ConnectAt, ExecBlock;
    var th := c.threads[t];
    SoundParts(th.call, th.todo);
    var ix := Advance(c, t).threads[t].local.ix;
    assert [] + ConnectAt(ix, th.call.id) == ConnectAt(ix, th.call.id);
  }

  // ------------------------------------------------------------------ the new device

  /** All of a clean start but the command bits. */
  ghost predicate Defaults(b: Shared, ix: nat, id: DevId)
    requires ix < MAX_DEVICES
  {
    && ix in b.catalog && b.ids[ix] == id
    && (forall p :: 0 <= p < MAX_PARAMS ==> b.data[ix][p] == b.command[ix][p] == ZERO_WORD)
    && b.execSub[ix + 1] == {} && ix !in b.execSub[0] && b.netSub[ix + 1] == ALL_BITS && ix in b.netSub[0]
  }

  /** The thread has done all of device_connect's work and is about to release its semaphores. */
  ghost predicate Releasing(c: Config, t: nat) { HasSlot(c, t) && c.threads[t].todo == Ends(c.threads[t].local.ix) }

  lemma {:induction false} InWork(x: Instr, ix: nat, id: DevId)
    requires x in ConnectHead(ix, id) || x in [ExecOff0(ix), ExecOff(ix), NetOn0(ix), NetOn(ix)] || (x.Zero? && x.ix == ix && x.p < MAX_PARAMS)
    ensures x in Work(ix, id)
  {
    hide Zeros, ConnectHead;
    if x.Zero? { ZerosBy(ix, 0, x); }
  }

  lemma {:induction false} AllPosts(b: Shared, ix: nat, id: DevId)
    requires ix < MAX_DEVICES && forall x :: x in Work(ix, id) ==> Post(x, b)
    ensures Defaults(b, ix, id)
  {
    hide Work;
    var head, maps := ConnectHead(ix, id), [ExecOff0(ix), ExecOff(ix), NetOn0(ix), NetOn(ix)];
    InWork(head[0], ix, id);
    InWork(head[1], ix, id);
    InWork(head[2], ix, id);
    InWork(head[3], ix, id);
    InWork(maps[0], ix, id);
    InWork(maps[1], ix, id);
    InWork(maps[2], ix, id);
    InWork(maps[3], ix, id);
    forall p | 0 <= p < MAX_PARAMS ensures b.data[ix][p] == b.command[ix][p] == ZERO_WORD { ZeroPosts(b, ix, id, p); }
  }

  lemma {:induction false} ZeroPosts(b: Shared, ix: nat, id: DevId, p: nat)
    requires ix < MAX_DEVICES && p < MAX_PARAMS && forall x :: x in Work(ix, id) ==> Post(x, b)
    ensures b.data[ix][p] == b.command[ix][p] == ZERO_WORD
  {
    hide Work;
    InWork(Zero(DATA, ix, p), ix, id);
    InWork(Zero(COMMAND, ix, p), ix, id);
    assert Post(Zero(DATA, ix, p), b) && Post(Zero(COMMAND, ix, p), b);
  }

  /** In every execution, when a connect is about to release, its slot has its identifier, zero values,
      no executor subscription and the full net subscription. */
  lemma {:induction false} ConnectDefaults(cs: seq<Config>, ms: seq<Move>, n: nat, t: nat)
    requires Execution(cs, ms) && n < |cs| && Releasing(cs[n], t)
    ensures var th := cs[n].threads[t]; th.local.ix < MAX_DEVICES && Defaults(cs[n].block, th.local.ix, th.call.id)
  {
    hide Post, HeldOf, ConnectAt, Work, Next, Init, Defaults;
    var done := ConnectProgress(cs, ms, n, t);
    var th := cs[n].threads[t];
    var ix, id := th.local.ix, th.call.id;
    WorkBy(ix, id);
    assert done == Work(ix, id) by {
      assert (done + Ends(ix))[..|done|] == done && (Work(ix, id) + Ends(ix))[..|done|] == Work(ix, id);
    }
    AllPosts(cs[n].block, ix, id);
  }

  /** In every execution a new device starts clean if and only if no executor command write that reached its
      slot's command stream is left unconsumed there. */
  lemma {:induction false} StartsCleanIff(cs: seq<Config>, ms: seq<Move>, n: nat, t: nat)
    requires Execution(cs, ms) && n < |cs| && Releasing(cs[n], t)
    ensures var th, log := cs[n].threads[t], cs[n].log;
            var ix := th.local.ix;
            && ix < MAX_DEVICES
            && (StartsClean(cs[n].block, ix, th.call.id) <==>
                  (forall i: nat, p: nat :: !Unconsumed(log, i, ix, p)) && (forall i: nat :: !Unread(log, i, ix)))
  {
    hide HeldOf, Next, Replay, Unconsumed, Unread, Finish;
    ConnectDefaults(cs, ms, n, t);
    var th, c := cs[n].threads[t], cs[n];
    var ix := th.local.ix;
    StreamsAlwaysOk(cs, ms, n);
    ReleasesSound(th.call, ix, SubMapSem);
    assert StreamOk(cs[0].block, c, COMMAND, ix) && Holds(c, t, CommandSem(ix));
    ReleasesQuiet(Ends(ix), COMMAND, ix, Concrete(c.block, COMMAND, ix));
    var init := Concrete(cs[0].block, COMMAND, ix);
    FlagReplay(init, c.log, ix);
    NothingPending(init, c.log, ix);
  }

  /** The same at the instant a connect reaches the command stream: the slot's pending bits are off exactly
      when the accesses before it leave no command write unconsumed. */
  lemma {:induction false} PendingAtConnect(cs: seq<Config>, ms: seq<Move>, n: nat, k: nat) returns (j: nat)
    requires Execution(cs, ms) && n < |cs| && k < |cs[n].log| && cs[n].log[k].call.Connect? && cs[n].log[k].stream == COMMAND
    ensures var a := cs[n].log[k];
            && j < n && ms[j] == Go(a.tid) && |cs[j].log| == k && a.ix < MAX_DEVICES
            && (cs[j].block.cmdMap[a.ix + 1] == {} <==> forall i: nat, p: nat :: !Unconsumed(cs[n].log[..k], i, a.ix, p))
  {
    hide Next, Replay, Unconsumed;
    j := FreeWhenLogged(cs, ms, n, k);
    var a, before := cs[n].log[k], cs[n].log[..k];
    NothingPending(Concrete(cs[0].block, COMMAND, a.ix), before, a.ix);
  }

  /** After a disconnect only a later command write can leave the slot unclean. */
  lemma CleanSinceDisconnect(log: seq<Access>, d: nat, ix: nat)
    requires d < |log| && OnStream(log[d], COMMAND, ix) && log[d].call.Disconnect?
    requires forall i :: d < i < |log| ==> !RaisesFlag(log[i], ix)
    ensures (forall i: nat, p: nat :: !Unconsumed(log, i, ix, p)) && forall i: nat :: !Unread(log, i, ix)
  {
    assert ClearsFlag(log[d], ix);
    assert forall p: nat :: ClearsPending(log[d], ix, p);
    assert forall i: nat, p: nat :: i < |log| && RaisesPending(log[i], ix, p) ==> RaisesFlag(log[i], ix);
  }

  lemma {:induction false} TailOfConnect(th: Thread, done: seq<Instr>)
    requires Connecting(th, done) && OnlyReleases(th.todo)
    ensures |th.todo| <= 4 && (|th.todo| == 4 ==> th.todo == Ends(th.local.ix))
    ensures |th.todo| < 4 ==> done != [] && done[|done| - 1].Release?
  {
    hide ConnectAt, Work;
    var ix, id := th.local.ix, th.call.id;
    WorkBy(ix, id);
    var work, ends, all := Work(ix, id), Ends(ix), done + th.todo;
    assert work[|work| - 1] in work && all[|work| - 1] == work[|work| - 1];
    if |th.todo| == 4 {
      assert all[|done|..] == th.todo && (work + ends)[|work|..] == ends;
    } else {
      assert done[|done| - 1] == all[|done| - 1] == ends[|done| - 1 - |work|];
    }
  }

  /** A connect past its work has been at the instant StartsCleanIff speaks of. */
  lemma {:induction false} ReleaseInstant(cs: seq<Config>, ms: seq<Move>, n: nat, t: nat) returns (m: nat)
    requires Execution(cs, ms) && n < |cs| && HasSlot(cs[n], t) && OnlyReleases(cs[n].threads[t].todo)
    ensures m <= n && Releasing(cs[m], t)
    ensures cs[m].threads[t].call == cs[n].threads[t].call && cs[m].threads[t].local == cs[n].threads[t].local
  {
    hide Sound, HeldOf, ConnectAt, Kept, ExecBlock, Ends;
    var done := ConnectProgress(cs, ms, n, t);
    TailOfConnect(cs[n].threads[t], done);
    m := n;
    if |cs[n].threads[t].todo| < 4 {
      NobodyBusy(cs[0], t);
      SemsAlwaysOk(cs, ms, n - 1);
      assert Next(cs[n - 1], ms[n - 1], cs[n]);
      var c := cs[n - 1];
      if ms[n - 1] == Go(t) {
        if !HasSlot(c, t) {
          FoundSlot(c, t);
          NotOnlyReleases(cs[n].threads[t]);
        } else {
          var before := ConnectProgress(cs, ms, n - 1, t);
          LastStep(c, t, before, cs[n].threads[t]);
        }
      }
      m := ReleaseInstant(cs, ms, n - 1, t);
    }
  }

  lemma {:induction false} NotOnlyReleases(th: Thread)
    requires Connecting(th, [])
    ensures |th.todo| > 4
  {
    hide ConnectAt;
    WorkBy(th.local.ix, th.call.id);
    assert [] + th.todo == th.todo;
  }

  lemma {:induction false} LastStep(c: Config, t: nat, before: seq<Instr>, th': Thread)
    requires CanStep(c, t) && ThreadOk(c.threads[t]) && Connecting(c.threads[t], before) && Advance(c, t).threads[t] == th'
    requires th'.Busy? && OnlyReleases(th'.todo) && |th'.todo| < 4
    ensures OnlyReleases(c.threads[t].todo) && c.threads[t].local == th'.local && c.threads[t].call == th'.call
  {
    hide Sound, HeldOf, ConnectAt, ExecBlock;
    var th := c.threads[t];
    SoundParts(th.call, th.todo);
    var i, ix, id := th.todo[0], th.local.ix, th.call.id;
    assert i in ConnectAt(ix, id) by { assert (before + th.todo)[|before|] == i; }
    ConnectStraight(ix, id, i);
    assert th'.todo == th.todo[1..];
    assert (before + [i]) + th'.todo == before + th.todo;
    TailOfConnect(th', before + [i]);
    assert (before + [i])[|before|] == i;
  }

  /** Every connect that returns with a slot has passed that instant. */
  lemma {:induction false} EveryConnectReleased(cs: seq<Config>, ms: seq<Move>, n: nat, k: nat) returns (m: nat)
    requires Execution(cs, ms) && n < |cs| && k < |cs[n].done| && cs[n].done[k].call.Connect? && cs[n].done[k].local.ix >= 0
    ensures var d := cs[n].done[k];
            m < n && Releasing(cs[m], d.tid) && cs[m].threads[d.tid].call == d.call && cs[m].threads[d.tid].local == d.local
  {
    hide Releasing, Next, Init;
    var f := ReturnedAt(cs, ms, n, k);
    m := ReleaseInstant(cs, ms, f, cs[n].done[k].tid);
  }

  // ------------------------------------------------------------------ the slot it takes

  /** Slot `ix` is the lowest that is not in the catalog. */
  ghost predicate LowestFree(catalog: Bitmap, ix: nat) { ix !in catalog && forall j :: 0 <= j < ix ==> j in catalog }

  /** A connect that looks for a slot has found every slot it passed taken; one that has found its slot and not
      yet acquired it has found the lowest free one. */
  ghost predicate Searching(b: Shared, th: Thread)
    requires th.Busy? && th.call.Connect?
  {
    && (th.todo != [] && th.todo[0].SeekFree? ==> th.todo[0].i <= MAX_DEVICES && forall j :: 0 <= j < th.todo[0].i ==> j in b.catalog)
    && (th.local.ix >= 0 && th.todo == ConnectAt(th.local.ix, th.call.id) ==> LowestFree(b.catalog, th.local.ix))
  }

  /** A connect without a slot is at the start, searching, or leaving. */
  ghost predicate Slotless(th: Thread)
    requires th.Busy? && th.call.Connect?
  {
    th.local.ix < 0 ==>
      || th.todo == [Acquire(CatalogSem), SeekFree(0), Release(CatalogSem)]
      || (exists i: nat :: th.todo == [SeekFree(i), Release(CatalogSem)])
      || OnlyReleases(th.todo)
  }

  lemma {:induction false} SlotlessStep(c: Config, t: nat)
    requires CanStep(c, t) && ThreadOk(c.threads[t]) && c.threads[t].todo != [] && c.threads[t].call.Connect?
    requires c.threads[t].local.ix < 0 && Slotless(c.threads[t]) && Searching(c.block, c.threads[t])
    ensures Slotless(Advance(c, t).threads[t]) && Searching(Advance(c, t).block, Advance(c, t).threads[t])
  {
    hide Sound, HeldOf, ConnectAt;
    var th, th' := c.threads[t], Advance(c, t).threads[t];
    SoundParts(th.call, th.todo);
    if th.todo[0].SeekFree? {
      var i := th.todo[0].i;
      assert th.todo[1..] == [Release(CatalogSem)];
      if i < MAX_DEVICES && i in c.block.catalog {
        assert th'.todo == [SeekFree(i + 1), Release(CatalogSem)];
      }
      if i < MAX_DEVICES && i !in c.block.catalog {
        StartsWithData(i, th.call.id);
      }
    } else if th.todo[0].Acquire? {
      assert th.todo[0] in th.todo;
      assert th.todo[1..] == [SeekFree(0), Release(CatalogSem)];
    } else {
      assert OnlyReleases(th.todo) && th'.todo == th.todo[1..];
      assert th'.todo != [] ==> th'.todo[0] in th.todo;
    }
  }

  lemma StartsWithData(ix: nat, id: DevId)
    ensures ConnectAt(ix, id) != [] && ConnectAt(ix, id)[0] == Acquire(DataSem(ix))
  {
    hide Zeros, ConnectTail;
  }

  /** While a connect searches it holds the catalog's semaphore, so nobody else changes the catalog. */
  lemma {:induction false} SearchUndisturbed(c: Config, t: nat, u: nat)
    requires CanStep(c, u) && ThreadsOk(c) && SemsOk(c) && u != t && IsBusy(c, t) && c.threads[t].call.Connect?
    requires Searching(c.block, c.threads[t])
    ensures Searching(Advance(c, u).block, c.threads[t])
  {
    hide Sound, ConnectAt, HeldOf;
    var th, other := c.threads[t], c.threads[u];
    assert ThreadOk(th);
    if th.todo != [] { SoundParts(th.call, th.todo); }
    if th.local.ix >= 0 && th.todo == ConnectAt(th.local.ix, th.call.id) {
      StartsWithData(th.local.ix, th.call.id);
      ConnectAtSound(th.call, th.local.ix);
      assert Holds(c, t, CatalogSem);
    } else if th.todo != [] && th.todo[0].SeekFree? {
      assert Holds(c, t, CatalogSem);
    }
    if other.todo != [] && Holds(c, t, CatalogSem) {
      SoundParts(other.call, other.todo);
      assert CatalogSem in HeldOf(other.todo) ==> Holds(c, u, CatalogSem);
      CatalogGuarded(other.call, other.todo[0], c.block);
    }
  }

  lemma CatalogGuarded(c: Call, i: Instr, b: Shared)
    requires InstrOk(c, i) && CatalogSem !in Guards(i)
    ensures ExecBlock(c, i, b).catalog == b.catalog
  {
  }

  /** A step of a connect that has its slot. */
  lemma {:induction false} SlotStep(c: Config, t: nat, done: seq<Instr>)
    requires CanStep(c, t) && ThreadOk(c.threads[t]) && c.threads[t].todo != [] && Connecting(c.threads[t], done)
    ensures var th := Advance(c, t).threads[t]; th.Busy? && th.call.Connect? && th.local.ix >= 0 && Searching(Advance(c, t).block, th)
  {
    hide Sound, HeldOf, ConnectAt, ExecBlock;
    var th := c.threads[t];
    var i, ix, id := th.todo[0], th.local.ix, th.call.id;
    assert i in ConnectAt(ix, id) by { assert (done + th.todo)[|done|] == i; }
    SoundParts(th.call, th.todo);
    ConnectStraight(ix, id, i);
    var th' := Advance(c, t).threads[t];
    assert th'.todo == th.todo[1..] && |th'.todo| < |ConnectAt(ix, id)|;
    if th'.todo != [] {
      assert th'.todo[0] in ConnectAt(ix, id) by { assert (done + th.todo)[|done| + 1] == th'.todo[0]; }
      ConnectStraight(ix, id, th'.todo[0]);
    }
  }

  lemma {:induction false} SearchProgress(cs: seq<Config>, ms: seq<Move>, n: nat, t: nat)
    requires Execution(cs, ms) && n < |cs| && IsBusy(cs[n], t) && cs[n].threads[t].call.Connect?
    ensures Slotless(cs[n].threads[t]) && Searching(cs[n].block, cs[n].threads[t])
  {
    hide SemsOk, ConnectAt, Searching, Slotless, Sound, HeldOf, ExecBlock, ExecTodo, ExecLocal;
    NobodyBusy(cs[0], t);
    SemsAlwaysOk(cs, ms, n - 1);
    assert Next(cs[n - 1], ms[n - 1], cs[n]);
    var c, m := cs[n - 1], ms[n - 1];
    if m.Start? && m.t == t {
      SearchStarts(m.call, cs[n].block, cs[n].threads[t]);
    } else {
      SearchProgress(cs, ms, n - 1, t);
      if m.Go? && m.t != t {
        SearchUndisturbed(c, t, m.t);
      } else if m.Go? {
        if c.threads[t].local.ix < 0 {
          SlotlessStep(c, t);
        } else {
          var done := ConnectProgress(cs, ms, n - 1, t);
          SlotStep(c, t, done);
          HasNoSlotless(cs[n].threads[t]);
        }
      }
    }
  }

  lemma HasNoSlotless(th: Thread)
    requires th.Busy? && th.call.Connect? && th.local.ix >= 0
    ensures Slotless(th)
  {
  }

  lemma SearchStarts(call: Call, b: Shared, th: Thread)
    requires call.Connect? && th.Busy? && th.call == call && th.todo == Program(call) && th.local == StartLocal(call)
    ensures Slotless(th) && Searching(b, th)
  {
    hide ConnectAt;
  }

  lemma {:induction false} OnlyFirstAcquires(ix: nat, id: DevId, k: nat)
    requires k < |ConnectAt(ix, id)| && k > 0
    ensures forall x :: ConnectAt(ix, id)[k] != Acquire(DataSem(x))
  {
    hide Zeros;
    var rest := ConnectHead(ix, id) + (Zeros(ix, 0) + ConnectTail(ix));
    forall x | x in rest ensures !x.Acquire? { if x in Zeros(ix, 0) { ZerosBy(ix, 0, x); } }
    if k >= 3 { assert ConnectAt(ix, id)[k] == rest[k - 3] && rest[k - 3] in rest; }
  }

  /** In every execution a connect takes the lowest slot that is free when it reaches it: every earlier connect
      into that slot was followed by a disconnect. */
  lemma {:induction false} ConnectTakesFree(cs: seq<Config>, ms: seq<Move>, n: nat, k: nat) returns (j: nat)
    requires Execution(cs, ms) && n < |cs| && k < |cs[n].log| && cs[n].log[k].call.Connect? && cs[n].log[k].stream == DATA
    ensures var a := cs[n].log[k];
            && j < n && ms[j] == Go(a.tid) && |cs[j].log| == k && a.ix < MAX_DEVICES
            && LowestFree(cs[j].block.catalog, a.ix)
            && forall i: nat :: !Staying(cs[n].log[..k], i, a.ix)
  {
    hide Sound, HeldOf, ConnectAt, Searching, Slotless, Advance, Init, Staying, SemsOk;
    j := LoggedAt(cs, ms, n, k);
    var a := cs[n].log[k];
    assert Next(cs[j], ms[j], cs[j + 1]);
    NextLog(cs[j], ms[j], cs[j + 1]);
    assert cs[j + 1].log[k] == a;
    var th := cs[j].threads[ms[j].t];
    SoundParts(th.call, th.todo);
    SearchProgress(cs, ms, j, a.tid);
    var done := AtItsSlot(cs, ms, j, a.tid, a.ix);
    SemsAlwaysOk(cs, ms, j);
    assert Value(cs[j], DataSem(a.ix)) == 1 by { OneOrZero(cs[j], DataSem(a.ix)); }
    CatalogExact(cs, ms, j, a.ix);
    assert cs[j].log == cs[n].log[..k];
  }

  lemma OneOrZero(c: Config, s: Sem)
    requires SemsOk(c)
    ensures Value(c, s) <= 1
  {
  }

  /** A connect about to acquire a data stream has found that slot and done nothing since. */
  lemma {:induction false} AtItsSlot(cs: seq<Config>, ms: seq<Move>, n: nat, t: nat, ix: nat) returns (done: seq<Instr>)
    requires Execution(cs, ms) && n < |cs| && IsBusy(cs[n], t) && cs[n].threads[t].call.Connect?
    requires Slotless(cs[n].threads[t]) && Searching(cs[n].block, cs[n].threads[t])
    requires cs[n].threads[t].todo != [] && cs[n].threads[t].todo[0] == Acquire(DataSem(ix))
    ensures LowestFree(cs[n].block.catalog, ix)
  {
    hide ConnectAt, Kept, Next, LowestFree;
    var th := cs[n].threads[t];
    assert th.todo[0] in th.todo;
    done := ConnectProgress(cs, ms, n, t);
    var k, id := th.local.ix, th.call.id;
    assert (done + th.todo)[|done|] == th.todo[0];
    if done != [] { OnlyFirstAcquires(k, id, |done|); }
    assert [] + th.todo == th.todo;
    StartsWithData(k, id);
  }
}
