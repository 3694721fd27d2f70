/** executor/executor.c: one mode child at a time, and the reset of motor commands between them. */
module Executor {
  import opened Basics
  import opened ShmBlock

  const KOALA_BEAR: byte := 6

  /** The parameter names of KoalaBear in runtime_util/runtime_util.c. */
  const KOALA_PARAMS: seq<string> := [
    "velocity_a", "deadband_a", "invert_a", "pid_enabled_a", "pid_kp_a", "pid_ki_a", "pid_kd_a", "enc_a",
    "velocity_b", "deadband_b", "invert_b", "pid_enabled_b", "pid_kp_b", "pid_ki_b", "pid_kd_b", "enc_b"]

  const VELOCITIES: Bitmap := {0, 8}

  // ------------------------------------------------------------------ reset_params

  predicate IsVelocity(name: string) { name == "velocity_a" || name == "velocity_b" }

  /** The inner loop of reset_params. */
  method ParamsToReset(names: seq<string>) returns (r: Bitmap)
    requires |names| <= MAX_PARAMS
    ensures forall j :: j in r <==> 0 <= j < |names| && IsVelocity(names[j])
  {
    r := {};
    for j := 0 to |names|
      invariant forall k :: k in r <==> 0 <= k < j && IsVelocity(names[k])
    {
      if names[j] == "velocity_a" {
        r := r + {j};
      } else if names[j] == "velocity_b" {
        r := r + {j};
      }
    }
  }

  lemma KoalaVelocities(j: nat)
    requires j < |KOALA_PARAMS|
    ensures IsVelocity(KOALA_PARAMS[j]) <==> j in VELOCITIES
  {
    var name := KOALA_PARAMS[j];
    if j == 0 || j == 8 {
    } else {
      assert name[0] != 'v';
      assert "velocity_a"[0] == 'v' && "velocity_b"[0] == 'v';
    }
  }

  predicate IsKoala(ids: seq<DevId>, catalog: Bitmap, i: nat)
    requires |ids| == MAX_DEVICES
  {
    i < MAX_DEVICES && i in catalog && ids[i].typ == KOALA_BEAR
  }

  /** One command write of reset_params. */
  function ResetUid(b: Shared, uid: nat): (r: Shared)
  {
    if Lookup(b, uid) == -1 then b else AfterWrite(b, Lookup(b, uid), EXECUTOR, COMMAND, VELOCITIES, ZeroRow())
  }

  /** The block after the devices below `i` have been handled. */
  function ResetBelow(b: Shared, i: nat): (r: Shared)
    requires i <= MAX_DEVICES
  {
    if i == 0 then b
    else if IsKoala(b.ids, b.catalog, i - 1) then ResetUid(ResetBelow(b, i - 1), b.ids[i - 1].uid)
    else ResetBelow(b, i - 1)
  }

  function AfterReset(b: Shared): (r: Shared) { ResetBelow(b, MAX_DEVICES) }

  method ResetParams(block: DeviceBlock)
    requires block.Valid()
    modifies block.cmdMap, block.data, block.command
    ensures block.Valid() && block.View() == AfterReset(old(block.View()))
  {
    var catalog := block.GetCatalog();
    var ids := new DevId[MAX_DEVICES](i => DevId(0, 0, 0));
    block.GetDeviceIdentifiers(ids);
    ghost var b := block.View();
    assert ids[..] == b.ids && catalog == b.catalog;
    for i := 0 to MAX_DEVICES
      invariant block.Valid() && block.View() == ResetBelow(b, i) && ids[..] == b.ids
    {
      if i in catalog {
        if ids[i].typ == KOALA_BEAR {
          var paramsToReset := ParamsToReset(KOALA_PARAMS);
          forall j | 0 <= j < |KOALA_PARAMS| { KoalaVelocities(j); }
          assert paramsToReset == VELOCITIES;
          var ret := block.DeviceWriteUid(ids[i].uid, EXECUTOR, COMMAND, paramsToReset, ZeroRow());
        }
      }
    }
  }

  // ------------------------------------------------------------------ what a reset does

  /** Slot `k` is the one that a KoalaBear below `i` is looked up at. */
  ghost predicate HitBelow(b: Shared, k: nat, i: nat)
    requires i <= MAX_DEVICES
  {
    exists j: nat :: j < i && IsKoala(b.ids, b.catalog, j) && Lookup(b, b.ids[j].uid) == k
  }

  /** Slot `k` with both velocities commanded to zero and pending, all else as in `b`. */
  ghost predicate SlotReset(b: Shared, r: Shared, k: nat)
    requires k < MAX_DEVICES
  {
    && r.command[k] == Overlay(b.command[k], VELOCITIES, ZeroRow())
    && r.cmdMap[k + 1] == b.cmdMap[k + 1] + VELOCITIES && k in r.cmdMap[0]
  }

  ghost predicate SlotKept(b: Shared, r: Shared, k: nat)
    requires k < MAX_DEVICES
  {
    r.command[k] == b.command[k] && r.cmdMap[k + 1] == b.cmdMap[k + 1] && (k in r.cmdMap[0] <==> k in b.cmdMap[0])
  }

  ghost predicate SameElsewhere(b: Shared, r: Shared)
  {
    r.catalog == b.catalog && r.ids == b.ids && r.data == b.data && r.netSub == b.netSub && r.execSub == b.execSub
  }

  lemma {:induction false} LookupSame(b: Shared, r: Shared, uid: nat, i: nat)
    requires SameElsewhere(b, r) && i <= MAX_DEVICES
    ensures LookupFrom(b, uid, i) == LookupFrom(r, uid, i)
    decreases MAX_DEVICES - i
  {
    if i < MAX_DEVICES { LookupSame(b, r, uid, i + 1); }
  }

  lemma ResetUidSlots(b: Shared, uid: nat, k: nat)
    requires k < MAX_DEVICES
    ensures SameElsewhere(b, ResetUid(b, uid))
    ensures if Lookup(b, uid) == k then SlotReset(b, ResetUid(b, uid), k) else SlotKept(b, ResetUid(b, uid), k)
  {
  }

  /** Exactly the slots that KoalaBears are looked up at are reset, whatever the catalog. */
  lemma {:induction false} ResetExact(b: Shared, i: nat, k: nat)
    requires i <= MAX_DEVICES && k < MAX_DEVICES
    ensures SameElsewhere(b, ResetBelow(b, i))
    ensures if HitBelow(b, k, i) then SlotReset(b, ResetBelow(b, i), k) else SlotKept(b, ResetBelow(b, i), k)
  {
    hide Lookup, LookupFrom, ResetUid;
    if i > 0 {
      ResetExact(b, i - 1, k);
      var before := ResetBelow(b, i - 1);
      if IsKoala(b.ids, b.catalog, i - 1) {
        var uid := b.ids[i - 1].uid;
        SameLookup(b, before, uid);
        ResetUidSlots(before, uid, k);
        if Lookup(b, uid) == k {
          assert HitBelow(b, k, i);
        } else {
          assert HitBelow(b, k, i) <==> HitBelow(b, k, i - 1);
        }
      } else {
        assert HitBelow(b, k, i) <==> HitBelow(b, k, i - 1);
      }
    }
  }

  lemma SameLookup(b: Shared, r: Shared, uid: nat)
    requires SameElsewhere(b, r)
    ensures Lookup(b, uid) == Lookup(r, uid)
  {
    LookupSame(b, r, uid, 0);
  }

  /** A connected KoalaBear is reset exactly when it is the first connected device with its unique id. */
  lemma KoalaReset(b: Shared, i: nat)
    requires IsKoala(b.ids, b.catalog, i)
    ensures if Lookup(b, b.ids[i].uid) == i then SlotReset(b, AfterReset(b), i) else SlotKept(b, AfterReset(b), i)
  {
    hide ResetBelow;
    ResetExact(b, MAX_DEVICES, i);
    if Lookup(b, b.ids[i].uid) == i {
      assert HitBelow(b, i, MAX_DEVICES);
    }
  }

  ghost predicate DistinctUids(b: Shared)
  {
    forall i, j :: i in b.catalog && j in b.catalog && b.ids[i].uid == b.ids[j].uid ==> i == j
  }

  /** With distinct unique ids every connected KoalaBear ends with both velocity commands zero and pending. */
  lemma AllKoalasReset(b: Shared, i: nat)
    requires DistinctUids(b) && IsKoala(b.ids, b.catalog, i)
    ensures var r := AfterReset(b);
            r.command[i][0] == r.command[i][8] == ZERO_WORD && VELOCITIES <= r.cmdMap[i + 1] && i in r.cmdMap[0]
  {
    hide ResetBelow;
    var ix := Lookup(b, b.ids[i].uid);
    assert ix == i;
    KoalaReset(b, i);
  }

  /** A KoalaBear behind another device with the same unique id keeps its commands. */
  lemma SharedUidKept(b: Shared, i: nat, j: nat)
    requires i < j && i in b.catalog && IsKoala(b.ids, b.catalog, j) && b.ids[i].uid == b.ids[j].uid
    ensures SlotKept(b, AfterReset(b), j)
  {
    hide ResetBelow;
    KoalaReset(b, j);
  }

  // ------------------------------------------------------------------ the mode loop

  datatype Mode = IDLE | AUTO | TELEOP | CHALLENGE

  /** What the parent process does. A fork may fail; a reset leaves the block as it says. */
  datatype Event = Fork(mode: Mode, ok: bool) | Reap | Reset(after: Shared)

  /** What stopping a child in `mode` does when the block is `b`. */
  function Stop(mode: Mode, b: Shared): (r: seq<Event>)
  {
    if mode == IDLE then [] else if mode == CHALLENGE then [Reap] else [Reap, Reset(AfterReset(b))]
  }

  /** One turn of the main loop in `mode` when `wanted` is read from shared memory. */
  function Turn(mode: Mode, wanted: Mode, forks: bool, b: Shared): (r: seq<Event>)
  {
    if wanted == mode then [] else Stop(mode, b) + (if wanted == IDLE then [] else [Fork(wanted, forks)])
  }

  function ModeAfter(mode: Mode, wanted: Mode, forks: bool): (r: Mode)
  {
    if wanted != mode && wanted != IDLE && !forks then IDLE else wanted
  }

  class ModeLoop {
    const block: DeviceBlock
    var mode: Mode
    var pid: int
    var unreaped: set<int>   // children forked and not yet waited for
    var events: seq<Event>

    /** A child is unreaped exactly while a mode runs, and it is `pid`. */
    ghost predicate Valid()
      reads this, block, block.data, block.command
    {
      block.Valid() && unreaped == if mode == IDLE then {} else {pid}
    }

    constructor (block: DeviceBlock)
      requires block.Valid()
      ensures Valid() && this.block == block && mode == IDLE && events == []
    {
      this.block, mode, pid, unreaped, events := block, IDLE, 0, {}, [];
    }

    method KillSubprocess()
      requires Valid() && mode != IDLE
      modifies this, block.cmdMap, block.data, block.command
      ensures Valid() && mode == IDLE && unreaped == {}
      ensures events == old(events) + Stop(old(mode), old(block.View()))
      ensures block.View() == if old(mode) == CHALLENGE then old(block.View()) else AfterReset(old(block.View()))
    {
      unreaped := unreaped - {pid};
      events := events + [Reap];
      if mode != CHALLENGE {
        ResetParams(block);
        events := events + [Reset(block.View())];
      }
      mode := IDLE;
    }

    /** start_mode_subprocess: the parent's side of fork. */
    method StartModeSubprocess(child: int, forks: bool) returns (r: int)
      requires child > 0
      modifies this`unreaped, this`events
      ensures r == if forks then child else -1
      ensures unreaped == old(unreaped) + if forks then {child} else {}
      ensures events == old(events) + [Fork(mode, forks)]
    {
      events := events + [Fork(mode, forks)];
      if !forks {
        return -1;
      }
      unreaped := unreaped + {child};
      r := child;
    }

    /** One turn of the loop in main. */
    method Iterate(newMode: Mode, child: int, forks: bool)
      requires Valid() && child > 0
      modifies this, block.cmdMap, block.data, block.command
      ensures Valid() && mode == ModeAfter(old(mode), newMode, forks)
      ensures events == old(events) + Turn(old(mode), newMode, forks, old(block.View()))
      ensures block.View() == if newMode != old(mode) && (old(mode) == AUTO || old(mode) == TELEOP)
                              then AfterReset(old(block.View())) else old(block.View())
    {
      if newMode != mode {
        if mode != IDLE {
          KillSubprocess();
        }
        if newMode != IDLE {
          mode := newMode;
          pid := StartModeSubprocess(child, forks);
          if pid == -1 {
            mode := IDLE;
          }
        }
      }
    }
  }

  // ------------------------------------------------------------------ every run

  /** What one turn finds: the mode wanted, whether a fork succeeds, and the block as the child and the other
      processes have left it. */
  datatype Input = Input(wanted: Mode, forks: bool, block: Shared)

  function ModeAt(ins: seq<Input>): (m: Mode)
  {
    if ins == [] then IDLE else var n := |ins| - 1; ModeAfter(ModeAt(ins[..n]), ins[n].wanted, ins[n].forks)
  }

  function Trace(ins: seq<Input>): (r: seq<Event>)
  {
    if ins == [] then [] else var n := |ins| - 1; Trace(ins[..n]) + Turn(ModeAt(ins[..n]), ins[n].wanted, ins[n].forks, ins[n].block)
  }

  /** Children forked and not yet waited for. */
  function Unreaped(tr: seq<Event>): (n: int)
  {
    if tr == [] then 0
    else Unreaped(tr[..|tr| - 1]) + match tr[|tr| - 1] case Fork(_, ok) => (if ok then 1 else 0) case Reap => -1 case Reset(_) => 0
  }

  predicate Forked(e: Event) { e.Fork? && e.ok }

  ghost predicate Stops(e: Event) { e.Reset? && (DistinctUids(e.after) ==> KoalasStopped(e.after)) }

  /** Every connected KoalaBear has both velocities commanded to zero and pending. */
  ghost predicate KoalasStopped(b: Shared)
  {
    forall i: nat :: IsKoala(b.ids, b.catalog, i) ==>
      b.command[i][0] == b.command[i][8] == ZERO_WORD && VELOCITIES <= b.cmdMap[i + 1] && i in b.cmdMap[0]
  }

  lemma {:induction false} ResetStops(b: Shared)
    ensures DistinctUids(AfterReset(b)) ==> KoalasStopped(AfterReset(b))
  {
    hide ResetBelow, HitBelow;
    ResetExact(b, MAX_DEVICES, 0);
    var r := AfterReset(b);
    if DistinctUids(r) {
      forall i: nat | IsKoala(r.ids, r.catalog, i)
        ensures r.command[i][0] == r.command[i][8] == ZERO_WORD && VELOCITIES <= r.cmdMap[i + 1] && i in r.cmdMap[0]
      {
        AllKoalasReset(b, i);
      }
    }
  }

  /** A fork finds no unreaped child; what follows a successful one is its reaping, then for AUTO and TELEOP
      a reset after which every connected KoalaBear (with distinct unique ids) is stopped; and nothing is
      reaped that was not forked just before. */
  ghost predicate OrderlyAt(tr: seq<Event>, i: nat)
    requires i < |tr|
  {
    && (tr[i].Fork? ==> Unreaped(tr[..i]) == 0)
    && (Forked(tr[i]) && i + 1 < |tr| ==> tr[i + 1] == Reap && (tr[i].mode != CHALLENGE ==> i + 2 < |tr| && Stops(tr[i + 2])))
    && (tr[i] == Reap ==> i > 0 && Forked(tr[i - 1]))
  }

  ghost predicate Orderly(tr: seq<Event>) { forall i :: 0 <= i < |tr| ==> OrderlyAt(tr, i) }

  ghost predicate EndsIn(tr: seq<Event>, m: Mode)
  {
    if m == IDLE then Unreaped(tr) == 0 && (tr == [] || !Forked(tr[|tr| - 1]))
    else Unreaped(tr) == 1 && tr != [] && tr[|tr| - 1] == Fork(m, true)
  }

  lemma Snoc(tr: seq<Event>, e: Event)
    ensures Unreaped(tr + [e]) == Unreaped(tr) + match e case Fork(_, ok) => (if ok then 1 else 0) case Reap => -1 case Reset(_) => 0
  {
    assert (tr + [e])[..|tr|] == tr;
  }

  lemma OrderlyExtends(tr: seq<Event>, more: seq<Event>, i: nat)
    requires i < |tr| && OrderlyAt(tr, i) && (i + 1 < |tr| || !Forked(tr[i]))
    ensures OrderlyAt(tr + more, i)
  {
    hide Unreaped;
    assert (tr + more)[..i] == tr[..i];
  }

  lemma ReapStep(tr: seq<Event>, m: Mode, b: Shared)
    requires Orderly(tr) && EndsIn(tr, m) && m != IDLE
    ensures Orderly(tr + Stop(m, b)) && EndsIn(tr + Stop(m, b), IDLE)
  {
    hide AfterReset, DistinctUids, KoalasStopped;
    ResetStops(b);
    var more, reset := Stop(m, b), Reset(AfterReset(b));
    var r, n := tr + more, |tr| - 1;
    Snoc(tr, Reap);
    Snoc(tr + [Reap], reset);
    assert m != CHALLENGE ==> r == tr + [Reap] + [reset];
    hide Unreaped;
    forall i | 0 <= i < |r| ensures OrderlyAt(r, i) {
      if i < n {
        OrderlyExtends(tr, more, i);
      } else if i == n {
        assert OrderlyAt(tr, n) && r[..n] == tr[..n];
      }
    }
  }

  lemma ForkStep(tr: seq<Event>, m: Mode, ok: bool)
    requires Orderly(tr) && EndsIn(tr, IDLE) && m != IDLE
    ensures var r := tr + [Fork(m, ok)]; Orderly(r) && EndsIn(r, if ok then m else IDLE)
  {
    var r := tr + [Fork(m, ok)];
    Snoc(tr, Fork(m, ok));
    assert r[..|tr|] == tr;
    hide Unreaped;
    forall i | 0 <= i < |r| ensures OrderlyAt(r, i) {
      if i < |tr| { OrderlyExtends(tr, [Fork(m, ok)], i); }
    }
  }

  /** Over every sequence of RUN_MODE values and fork outcomes: at each fork no earlier child is unreaped,
      and each AUTO or TELEOP child is reaped and followed by a reset before the next fork. */
  lemma {:induction false} ModesOrderly(ins: seq<Input>)
    ensures Orderly(Trace(ins)) && EndsIn(Trace(ins), ModeAt(ins))
  {
    hide Orderly, EndsIn;
    if ins == [] {
      NothingDone();
    } else {
      var n := |ins| - 1;
      ModesOrderly(ins[..n]);
      var m, tr, wanted, ok, b := ModeAt(ins[..n]), Trace(ins[..n]), ins[n].wanted, ins[n].forks, ins[n].block;
      if wanted != m {
        var tr' := tr;
        if m != IDLE {
          ReapStep(tr, m, b);
          tr' := tr + Stop(m, b);
        }
        if wanted != IDLE {
          ForkStep(tr', wanted, ok);
          tr' := tr' + [Fork(wanted, ok)];
        }
        assert tr + Turn(m, wanted, ok, b) == tr';
      } else {
        assert tr + Turn(m, wanted, ok, b) == tr;
      }
    }
  }

  /** Between a successful AUTO or TELEOP fork and any later fork the child is reaped, and right after that
      the block is left with every connected KoalaBear stopped. */
  lemma {:induction false} StoppedBetweenForks(ins: seq<Input>, i: nat, k: nat) returns (m: nat)
    requires i < k < |Trace(ins)| && Forked(Trace(ins)[i]) && Trace(ins)[i].mode != CHALLENGE && Trace(ins)[k].Fork?
    ensures var tr := Trace(ins);
            i < m && m + 1 < k && tr[m] == Reap && tr[m + 1].Reset? && (DistinctUids(tr[m + 1].after) ==> KoalasStopped(tr[m + 1].after))
  {
    hide Trace, DistinctUids, KoalasStopped, EndsIn;
    ModesOrderly(ins);
    assert OrderlyAt(Trace(ins), i);
    m := i + 1;
  }

  /** The mode whose child is running, read off the trace alone: its fork was the last thing that happened. */
  function Running(tr: seq<Event>): (m: Mode)
  {
    if tr != [] && Forked(tr[|tr| - 1]) then tr[|tr| - 1].mode else IDLE
  }

  /** What one turn adds to the trace, told by what was running, what is wanted and whether a fork succeeds:
      nothing if the wanted mode runs already; otherwise the child, if any, is reaped, a reset follows unless it
      was a challenge, and then the wanted mode is forked, unless it is IDLE. */
  predicate TurnOk(was: Mode, wanted: Mode, forks: bool, es: seq<Event>)
  {
    if wanted == was then es == []
    else
      var k := if was == IDLE then 0 else if was == CHALLENGE then 1 else 2;
      && |es| == k + (if wanted == IDLE then 0 else 1)
      && (k > 0 ==> es[0] == Reap) && (k == 2 ==> es[1].Reset?) && (wanted != IDLE ==> es[k] == Fork(wanted, forks))
  }

  lemma TurnExact(was: Mode, wanted: Mode, forks: bool, b: Shared)
    ensures TurnOk(was, wanted, forks, Turn(was, wanted, forks, b))
  {
    hide AfterReset;
  }

  /** In every run and every turn: the wanted mode runs afterwards if a fork succeeds, and without one it runs
      only if it ran before; and the turn did what that takes and nothing more. */
  lemma {:induction false} WantedModeRuns(ins: seq<Input>, n: nat)
    requires n < |ins|
    ensures var tr, now, i := Trace(ins[..n]), Trace(ins[..n + 1]), ins[n];
            && ModeAt(ins[..n + 1]) == Running(now)
            && Running(now) == (if i.forks || i.wanted == Running(tr) then i.wanted else IDLE)
            && tr <= now && TurnOk(Running(tr), i.wanted, i.forks, now[|tr|..])
  {
    hide Orderly, TurnOk, Turn;
    var tr, now := Trace(ins[..n]), Trace(ins[..n + 1]);
    ModesOrderly(ins[..n]);
    ModesOrderly(ins[..n + 1]);
    assert ins[..n + 1][..n] == ins[..n];
    TurnExact(ModeAt(ins[..n]), ins[n].wanted, ins[n].forks, ins[n].block);
    assert now[|tr|..] == Turn(ModeAt(ins[..n]), ins[n].wanted, ins[n].forks, ins[n].block);
  }

  lemma NothingDone()
    ensures Orderly([]) && EndsIn([], IDLE)
  {
  }

  /** What the child, dev_handler and net_handler make of the block between two turns. */
  method Interfere(block: DeviceBlock, b: Shared)
    requires block.Valid()
    modifies block.Repr
    ensures block.Valid() && block.View() == b
  {
    block.catalog := b.catalog;
    forall i | 0 <= i <= MAX_DEVICES { block.cmdMap[i] := b.cmdMap[i]; }
    forall i | 0 <= i <= MAX_DEVICES { block.netSub[i] := b.netSub[i]; }
    forall i | 0 <= i <= MAX_DEVICES { block.execSub[i] := b.execSub[i]; }
    forall i | 0 <= i < MAX_DEVICES { block.data[i] := b.data[i]; }
    forall i | 0 <= i < MAX_DEVICES { block.command[i] := b.command[i]; }
    forall i | 0 <= i < MAX_DEVICES { block.ids[i] := b.ids[i]; }
    assert block.cmdMap[..] == b.cmdMap && block.netSub[..] == b.netSub && block.execSub[..] == b.execSub;
    assert block.data[..] == b.data && block.command[..] == b.command && block.ids[..] == b.ids;
  }

  /** The loop in main over a whole sequence of RUN_MODE values, with the block changing arbitrarily between
      turns. */
  method RunModes(block: DeviceBlock, ins: seq<Input>) returns (loop: ModeLoop)
    requires block.Valid()
    modifies block.Repr
    ensures fresh(loop) && loop.block == block && loop.Valid()
    ensures loop.mode == ModeAt(ins) && loop.events == Trace(ins) && Orderly(loop.events)
  {
    hide Orderly, EndsIn, Turn, ModeAfter, AfterReset;
    loop := new ModeLoop(block);
    for i := 0 to |ins|
      invariant fresh(loop) && loop.block == block && loop.Valid()
      invariant loop.mode == ModeAt(ins[..i]) && loop.events == Trace(ins[..i])
    {
      assert ins[..i + 1][..i] == ins[..i];
      Interfere(block, ins[i].block);
      loop.Iterate(ins[i].wanted, i + 1, ins[i].forks);
    }
    assert ins[..|ins|] == ins;
    ModesOrderly(ins);
  }
}
