/** The semaphore discipline of the programs of ShmProtocol, and their effect on one stream of one device. */
module ShmDiscipline {
  import opened Basics
  import opened ShmBlock
  import opened ShmHistory
  import opened ShmProtocol

  // ------------------------------------------------------------------ locking discipline of a program

  /** The semaphores a thread holds, read off what it has still to release. */
  function HeldOf(todo: seq<Instr>): (r: set<Sem>)
  {
    if todo == [] then {}
    else match todo[0]
      case Acquire(s) => HeldOf(todo[1..]) - {s}
      case Release(s) => HeldOf(todo[1..]) + {s}
      case _ => HeldOf(todo[1..])
  }

  /** The semaphores under which an instruction must run. */
  function Guards(i: Instr): (r: set<Sem>)
  {
    match i
    case CopyOut(st, ix, _) => {StreamSem(st, ix)}
    case CopyIn(st, ix, _, _) => {StreamSem(st, ix)}
    case Zero(st, ix, _) => {StreamSem(st, ix)}
    case CmdOff0(ix) => {CommandSem(ix), CmdMapSem}
    case CmdOn0(ix) => {CommandSem(ix), CmdMapSem}
    case CmdOff(ix, _) => {CommandSem(ix), CmdMapSem}
    case CmdOn(ix, _) => {CommandSem(ix), CmdMapSem}
    case CmdClear(ix) => {CommandSem(ix), CmdMapSem}
    case CmdRow(_) => {CmdMapSem}
    case SeekFree(_) => {CatalogSem}
    case PutType(ix, _) => {CatalogSem, DataSem(ix), CommandSem(ix)}
    case PutYear(ix, _) => {CatalogSem, DataSem(ix), CommandSem(ix)}
    case PutUid(ix, _) => {CatalogSem, DataSem(ix), CommandSem(ix)}
    case CatOn(ix) => {CatalogSem, DataSem(ix), CommandSem(ix)}
    case CatOff(ix) => {CatalogSem, DataSem(ix), CommandSem(ix)}
    case IdRow(_) => {CatalogSem}
    case CatGet => {CatalogSem}
    case ExecOff0(_) => {SubMapSem}
    case ExecOff(_) => {SubMapSem}
    case NetOn0(_) => {SubMapSem}
    case NetOn(_) => {SubMapSem}
    case SubCompare(_) => {SubMapSem}
    case SubPut(_) => {SubMapSem}
    case SubRaise(_) => {SubMapSem}
    case SubHead => {SubMapSem}
    case SubRow(_) => {SubMapSem}
    case SubLower => {SubMapSem}
    case _ => {}
  }

  predicate OnlyReleases(todo: seq<Instr>) { forall i :: i in todo ==> i.Release? }

  // ------------------------------------------------------------------ one stream of one device

  /** The values of a stream; for a command stream its pending bits `cmd_map[ix + 1]` and the device's bit in
      `cmd_map[0]`; and the device's catalog bit and identifier, which change only under both streams' semaphores. */
  datatype StreamState = StreamState(vals: seq<Word>, pending: Bitmap, flagged: bool, present: bool, id: DevId)

  /** Values with nothing else known about the stream. */
  function JustValues(vals: seq<Word>): (s: StreamState) { StreamState(vals, {}, false, false, DevId(0, 0, 0)) }

  function Concrete(b: Shared, st: Stream, ix: nat): (r: StreamState)
    requires ix < MAX_DEVICES
  {
    StreamState(Row(b, st, ix), if st.COMMAND? then b.cmdMap[ix + 1] else {}, st.COMMAND? && ix in b.cmdMap[0],
                ix in b.catalog, b.ids[ix])
  }

  /** What one instruction does to the stream `st` of device `ix`. */
  function Touch(i: Instr, st: Stream, ix: nat, s: StreamState): (r: StreamState)
    ensures |r.vals| == |s.vals|
  {
    match i
    case CopyIn(st', ix', p, v) => if st' == st && ix' == ix && p < |s.vals| then s.(vals := s.vals[p := v]) else s
    case Zero(st', ix', p) => if st' == st && ix' == ix && p < |s.vals| then s.(vals := s.vals[p := ZERO_WORD]) else s
    case CmdOff0(ix') => if st.COMMAND? && ix' == ix then s.(flagged := false) else s
    case CmdOn0(ix') => if st.COMMAND? && ix' == ix then s.(flagged := true) else s
    case CmdOff(ix', mask) => if st.COMMAND? && ix' == ix then s.(pending := s.pending - mask) else s
    case CmdOn(ix', mask) => if st.COMMAND? && ix' == ix then s.(pending := s.pending + mask) else s
    case CmdClear(ix') => if st.COMMAND? && ix' == ix then s.(pending := {}) else s
    case PutType(ix', typ) => if ix' == ix then s.(id := DevId(typ, s.id.year, s.id.uid)) else s
    case PutYear(ix', year) => if ix' == ix then s.(id := DevId(s.id.typ, year, s.id.uid)) else s
    case PutUid(ix', uid) => if ix' == ix then s.(id := DevId(s.id.typ, s.id.year, uid)) else s
    case CatOn(ix') => if ix' == ix then s.(present := true) else s
    case CatOff(ix') => if ix' == ix then s.(present := false) else s
    case _ => s
  }

  /** The stream once everything in `todo` has been done to it. */
  function Finish(todo: seq<Instr>, st: Stream, ix: nat, s: StreamState): (r: StreamState)
    ensures |r.vals| == |s.vals|
    decreases |todo|
  {
    if todo == [] then s else Finish(todo[1..], st, ix, Touch(todo[0], st, ix, s))
  }

  /** What a whole call does, in one step, to a stream it works on. */
  function Effect(c: Call, st: Stream, s: StreamState): (r: StreamState)
    requires CallOk(c)
  {
    match c
    case Read(_, p, stream, mask, _) => if stream == st then Fetched(p, st, mask, s) else s
    case ReadUid(_, p, stream, mask, _) => if stream == st then Fetched(p, st, mask, s) else s
    case Write(_, p, stream, mask, vals) => if stream == st then Written(p, st, mask, vals, s) else s
    case WriteUid(_, p, stream, mask, vals) => if stream == st then Written(p, st, mask, vals, s) else s
    case Connect(id) => s.(vals := Repeat(|s.vals|, ZERO_WORD), present := true, id := id)
    case Disconnect(_) => if st == COMMAND then s.(pending := {}, flagged := false, present := false) else s.(present := false)
    case _ => s
  }

  function Fetched(p: Process, st: Stream, mask: Bitmap, s: StreamState): (r: StreamState)
  {
    if p == DEV_HANDLER && st == COMMAND then s.(pending := s.pending - mask, flagged := false) else s
  }

  function Written(p: Process, st: Stream, mask: Bitmap, vals: seq<Word>, s: StreamState): (r: StreamState)
    requires Fits(mask, vals)
  {
    var marks := p == EXECUTOR && st == COMMAND;
    s.(vals := Overlay(s.vals, mask, vals), pending := if marks then s.pending + mask else s.pending, flagged := marks || s.flagged)
  }

  /** What remains of call `c` does to the stream exactly what the whole call does. */
  ghost predicate Promise(c: Call, rest: seq<Instr>, st: Stream, ix: nat)
    requires CallOk(c)
  {
    forall s: StreamState {:trigger Finish(rest, st, ix, s)} :: |s.vals| == MAX_PARAMS ==> Finish(rest, st, ix, s) == Effect(c, st, s)
  }

  function StreamOf(s: Sem): (st: Stream) { if s.DataSem? then DATA else COMMAND }

  /** The rest of a program keeps the discipline: guards are held, semaphores are acquired in rank order
      and released once, a stream is not touched again once its semaphore is released, and from the moment
      a stream's semaphore is acquired the rest has the whole call's effect on that stream. */
  ghost predicate Sound(c: Call, todo: seq<Instr>)
    requires CallOk(c)
    decreases |todo|
  {
    todo == [] ||
    (InstrOk(c, todo[0]) && Guards(todo[0]) <= HeldOf(todo) && SoundHead(c, todo[0], todo[1..]) && Sound(c, todo[1..]))
  }

  ghost predicate SoundHead(c: Call, i: Instr, rest: seq<Instr>)
    requires CallOk(c)
  {
    match i
    case Acquire(s) =>
      && s in HeldOf(rest)
      && (forall h :: h in HeldOf(rest) && h != s ==> Rank(h) < Rank(s))
      && (IsStreamSem(s) ==> s.ix < MAX_DEVICES && Promise(c, rest, StreamOf(s), s.ix))
    case Release(s) => s !in HeldOf(rest) && (IsStreamSem(s) ==> OnlyReleases(rest))
    case IfConnected(_) => HeldOf(rest) == {}
    case SeekUid(_) => rest == []
    case SeekId(_) => rest == []
    case SeekFree(_) => rest == [Release(CatalogSem)]
    case SubCompare(_) => HeldOf(rest) == {SubMapSem}
    case SubHead => HeldOf(rest) == {SubMapSem}
    case _ => true
  }

  // ------------------------------------------------------------------ every program keeps the discipline

  /** The semaphores held in front of an instruction, given those held behind it. */
  function HoldBefore(i: Instr, after: set<Sem>): (r: set<Sem>)
  {
    match i
    case Acquire(s) => after - {s}
    case Release(s) => after + {s}
    case _ => after
  }

  lemma EmptyProgram(c: Call)
    requires CallOk(c)
    ensures Sound(c, []) && HeldOf([]) == {}
    ensures forall st, ix, s :: Finish([], st, ix, s) == s
  {
  }

  /** Put one more instruction in front of a sound program. */
  lemma Cons(c: Call, i: Instr, rest: seq<Instr>)
    requires CallOk(c) && Sound(c, rest)
    requires InstrOk(c, i) && Guards(i) <= HeldOf(rest) && SoundHead(c, i, rest)
    ensures Sound(c, [i] + rest) && HeldOf([i] + rest) == HoldBefore(i, HeldOf(rest))
    ensures forall st, ix, s :: Finish([i] + rest, st, ix, s) == Finish(rest, st, ix, Touch(i, st, ix, s))
  {
    assert ([i] + rest)[1..] == rest;
  }

  lemma ConsCopyOut(c: Call, st: Stream, ix: nat, p: nat, rest: seq<Instr>)
    requires CallOk(c) && IsRead(c) && ix < MAX_DEVICES && p < MAX_PARAMS && p in c.mask
    requires Sound(c, rest) && StreamSem(st, ix) in HeldOf(rest)
    ensures Sound(c, [CopyOut(st, ix, p)] + rest) && HeldOf([CopyOut(st, ix, p)] + rest) == HeldOf(rest)
    ensures forall st', ix', s :: Finish([CopyOut(st, ix, p)] + rest, st', ix', s) == Finish(rest, st', ix', s)
  {
    hide Sound, HeldOf, Finish;
    Cons(c, CopyOut(st, ix, p), rest);
  }

  lemma CopyOutsUnfold(st: Stream, ix: nat, mask: Bitmap, p: nat, tail: seq<Instr>)
    requires p <= MAX_PARAMS
    ensures p == MAX_PARAMS ==> CopyOuts(st, ix, mask, p) + tail == tail
    ensures p < MAX_PARAMS && p in mask ==>
              CopyOuts(st, ix, mask, p) + tail == [CopyOut(st, ix, p)] + (CopyOuts(st, ix, mask, p + 1) + tail)
    ensures p < MAX_PARAMS && p !in mask ==> CopyOuts(st, ix, mask, p) + tail == CopyOuts(st, ix, mask, p + 1) + tail
  {
    if p < MAX_PARAMS && p !in mask {
      assert CopyOuts(st, ix, mask, p) == CopyOuts(st, ix, mask, p + 1);
    }
  }

  lemma {:induction false} CopyOutsSound(c: Call, st: Stream, ix: nat, mask: Bitmap, p: nat, tail: seq<Instr>)
    requires CallOk(c) && IsRead(c) && mask == c.mask && ix < MAX_DEVICES && p <= MAX_PARAMS
    requires Sound(c, tail) && StreamSem(st, ix) in HeldOf(tail)
    ensures Sound(c, CopyOuts(st, ix, mask, p) + tail) && HeldOf(CopyOuts(st, ix, mask, p) + tail) == HeldOf(tail)
    ensures forall st', ix', s :: Finish(CopyOuts(st, ix, mask, p) + tail, st', ix', s) == Finish(tail, st', ix', s)
    decreases MAX_PARAMS - p
  {
    hide Sound, HeldOf, Finish, CallOk, CopyOuts;
    CopyOutsUnfold(st, ix, mask, p, tail);
    if p < MAX_PARAMS {
      CopyOutsSound(c, st, ix, mask, p + 1, tail);
      if p in mask {
        ConsCopyOut(c, st, ix, p, CopyOuts(st, ix, mask, p + 1) + tail);
      }
    }
  }

  /** `s` with the parameters of `mask` at or above `p` taken from `vals`. */
  function OverlayFrom(s: StreamState, mask: Bitmap, vals: seq<Word>, p: nat): (r: StreamState)
    requires Fits(mask, vals)
    ensures r.pending == s.pending && |r.vals| == |s.vals|
    ensures forall i :: 0 <= i < |s.vals| ==> r.vals[i] == if i in mask && i >= p then vals[i] else s.vals[i]
  {
    s.(vals := seq(|s.vals|, i requires 0 <= i < |s.vals| => if i in mask && i >= p then vals[i] else s.vals[i]))
  }

  lemma CopyInsUnfold(st: Stream, ix: nat, mask: Bitmap, vals: seq<Word>, p: nat, tail: seq<Instr>)
    requires p <= MAX_PARAMS && Fits(mask, vals)
    ensures p == MAX_PARAMS ==> CopyIns(st, ix, mask, vals, p) + tail == tail
    ensures p < MAX_PARAMS && p in mask ==>
              CopyIns(st, ix, mask, vals, p) + tail == [CopyIn(st, ix, p, vals[p])] + (CopyIns(st, ix, mask, vals, p + 1) + tail)
    ensures p < MAX_PARAMS && p !in mask ==> CopyIns(st, ix, mask, vals, p) + tail == CopyIns(st, ix, mask, vals, p + 1) + tail
  {
    if p < MAX_PARAMS && p !in mask {
      assert CopyIns(st, ix, mask, vals, p) == CopyIns(st, ix, mask, vals, p + 1);
    }
  }

  lemma OverlayFromStep(s: StreamState, mask: Bitmap, vals: seq<Word>, p: nat)
    requires Fits(mask, vals) && (p in mask ==> p < |s.vals|)
    ensures p in mask ==> OverlayFrom(s.(vals := s.vals[p := vals[p]]), mask, vals, p + 1) == OverlayFrom(s, mask, vals, p)
    ensures p !in mask ==> OverlayFrom(s, mask, vals, p + 1) == OverlayFrom(s, mask, vals, p)
  {
    var s' := if p in mask then s.(vals := s.vals[p := vals[p]]) else s;
    assert OverlayFrom(s', mask, vals, p + 1).vals == OverlayFrom(s, mask, vals, p).vals;
  }

  lemma OverlayFromEnd(s: StreamState, mask: Bitmap, vals: seq<Word>)
    requires Fits(mask, vals)
    ensures OverlayFrom(s, mask, vals, MAX_PARAMS) == s
  {
    assert OverlayFrom(s, mask, vals, MAX_PARAMS).vals == s.vals;
  }

  lemma ConsCopyIn(c: Call, st: Stream, ix: nat, mask: Bitmap, vals: seq<Word>, p: nat, rest: seq<Instr>)
    requires CallOk(c) && ix < MAX_DEVICES && p < MAX_PARAMS && Fits(mask, vals) && p in mask
    requires Sound(c, rest) && StreamSem(st, ix) in HeldOf(rest)
    ensures Sound(c, [CopyIn(st, ix, p, vals[p])] + rest) && HeldOf([CopyIn(st, ix, p, vals[p])] + rest) == HeldOf(rest)
  {
    hide Sound, HeldOf, Finish;
    Cons(c, CopyIn(st, ix, p, vals[p]), rest);
  }

  lemma {:induction false} CopyInsSound(c: Call, st: Stream, ix: nat, mask: Bitmap, vals: seq<Word>, p: nat, tail: seq<Instr>)
    requires CallOk(c) && ix < MAX_DEVICES && p <= MAX_PARAMS && Fits(mask, vals)
    requires Sound(c, tail) && StreamSem(st, ix) in HeldOf(tail)
    ensures Sound(c, CopyIns(st, ix, mask, vals, p) + tail) && HeldOf(CopyIns(st, ix, mask, vals, p) + tail) == HeldOf(tail)
    decreases MAX_PARAMS - p
  {
    hide Sound, HeldOf, CallOk, CopyIns;
    CopyInsUnfold(st, ix, mask, vals, p, tail);
    if p < MAX_PARAMS {
      CopyInsSound(c, st, ix, mask, vals, p + 1, tail);
      if p in mask {
        ConsCopyIn(c, st, ix, mask, vals, p, CopyIns(st, ix, mask, vals, p + 1) + tail);
      }
    }
  }

  lemma FinishCons(i: Instr, rest: seq<Instr>, st: Stream, ix: nat, s: StreamState)
    ensures Finish([i] + rest, st, ix, s) == Finish(rest, st, ix, Touch(i, st, ix, s))
  {
    assert ([i] + rest)[1..] == rest;
  }

  lemma {:induction false} CopyInsFinish(st: Stream, ix: nat, mask: Bitmap, vals: seq<Word>, p: nat, tail: seq<Instr>, s: StreamState)
    requires p <= MAX_PARAMS && Fits(mask, vals) && |s.vals| == MAX_PARAMS
    ensures Finish(CopyIns(st, ix, mask, vals, p) + tail, st, ix, s) == Finish(tail, st, ix, OverlayFrom(s, mask, vals, p))
    decreases MAX_PARAMS - p
  {
    hide Finish, OverlayFrom, CopyIns;
    CopyInsUnfold(st, ix, mask, vals, p, tail);
    if p == MAX_PARAMS {
      OverlayFromEnd(s, mask, vals);
    } else {
      OverlayFromStep(s, mask, vals, p);
      if p in mask {
        FinishCons(CopyIn(st, ix, p, vals[p]), CopyIns(st, ix, mask, vals, p + 1) + tail, st, ix, s);
        CopyInsFinish(st, ix, mask, vals, p + 1, tail, s.(vals := s.vals[p := vals[p]]));
      } else {
        CopyInsFinish(st, ix, mask, vals, p + 1, tail, s);
      }
    }
  }

  /** The critical section on cmd_map nested in a command stream's, between `on` and its end. */
  lemma MapSectionSound(c: Call, ix: nat, st: Stream, i0: Instr, i1: Instr)
    requires CallOk(c) && ix < MAX_DEVICES && st == COMMAND
    requires (i0 == CmdOff0(ix) && i1.CmdOff? && i1.ix == ix) || (i0 == CmdOn0(ix) && i1.CmdOn? && i1.ix == ix)
    ensures var t := [Acquire(CmdMapSem), i0, i1, Release(CmdMapSem)] + [Release(StreamSem(st, ix))];
            && Sound(c, t) && HeldOf(t) == {StreamSem(st, ix)}
            && forall s :: Finish(t, st, ix, s) == Touch(i1, st, ix, Touch(i0, st, ix, s))
  {
    hide Sound, HeldOf, Finish;
    EmptyProgram(c);
    Cons(c, Release(StreamSem(st, ix)), []);
    var t4 := [Release(StreamSem(st, ix))] + [];
    Cons(c, Release(CmdMapSem), t4);
    var t3 := [Release(CmdMapSem)] + t4;
    Cons(c, i1, t3);
    var t2 := [i1] + t3;
    Cons(c, i0, t2);
    var t1 := [i0] + t2;
    Cons(c, Acquire(CmdMapSem), t1);
    assert [Acquire(CmdMapSem), i0, i1, Release(CmdMapSem)] + [Release(StreamSem(st, ix))] == [Acquire(CmdMapSem)] + t1;
  }

  lemma LastReleaseSound(c: Call, s: Sem)
    requires CallOk(c)
    ensures Sound(c, [Release(s)]) && HeldOf([Release(s)]) == {s}
    ensures forall st, ix, x :: Finish([Release(s)], st, ix, x) == x
  {
    hide Sound, HeldOf, Finish;
    EmptyProgram(c);
    Cons(c, Release(s), []);
    assert [Release(s)] + [] == [Release(s)];
  }

  /** A stream's critical section: from its acquisition on, the rest has the call's effect. */
  lemma StreamSectionSound(c: Call, st: Stream, ix: nat, rest: seq<Instr>)
    requires CallOk(c) && ix < MAX_DEVICES
    requires Sound(c, rest) && HeldOf(rest) == {StreamSem(st, ix)} && Promise(c, rest, st, ix)
    ensures Sound(c, [Acquire(StreamSem(st, ix))] + rest) && HeldOf([Acquire(StreamSem(st, ix))] + rest) == {}
  {
    hide Sound, HeldOf, Finish, Promise;
    Cons(c, Acquire(StreamSem(st, ix)), rest);
  }

  lemma ReadProgramSound(c: Call, ix: nat, p: Process, st: Stream, mask: Bitmap)
    requires CallOk(c) && IsRead(c) && ix < MAX_DEVICES && c.proc == p && c.stream == st && c.mask == mask
    ensures Sound(c, ReadProgram(ix, p, st, mask)) && HeldOf(ReadProgram(ix, p, st, mask)) == {}
  {
    hide Sound, HeldOf, Finish, CopyOuts;
    var tail := ReadTail(ix, p, st, mask);
    if p == DEV_HANDLER && st == COMMAND {
      MapSectionSound(c, ix, st, CmdOff0(ix), CmdOff(ix, mask));
    } else {
      LastReleaseSound(c, StreamSem(st, ix));
      assert tail == [Release(StreamSem(st, ix))];
    }
    CopyOutsSound(c, st, ix, mask, 0, tail);
    var rest := CopyOuts(st, ix, mask, 0) + tail;
    assert Promise(c, rest, st, ix) by {
      forall s: StreamState | |s.vals| == MAX_PARAMS ensures Finish(rest, st, ix, s) == Effect(c, st, s) {
        assert Finish(rest, st, ix, s) == Finish(tail, st, ix, s);
      }
    }
    StreamSectionSound(c, st, ix, rest);
  }

  lemma WriteProgramSound(c: Call, ix: nat, p: Process, st: Stream, mask: Bitmap, vals: seq<Word>)
    requires CallOk(c) && (c.Write? || c.WriteUid?) && ix < MAX_DEVICES
    requires c.proc == p && c.stream == st && c.mask == mask && c.vals == vals
    ensures Sound(c, WriteProgram(ix, p, st, mask, vals)) && HeldOf(WriteProgram(ix, p, st, mask, vals)) == {}
  {
    hide Sound, HeldOf, Finish, CopyIns;
    var tail := WriteTail(ix, p, st, mask);
    if p == EXECUTOR && st == COMMAND {
      MapSectionSound(c, ix, st, CmdOn0(ix), CmdOn(ix, mask));
    } else {
      LastReleaseSound(c, StreamSem(st, ix));
      assert tail == [Release(StreamSem(st, ix))];
    }
    CopyInsSound(c, st, ix, mask, vals, 0, tail);
    var rest := CopyIns(st, ix, mask, vals, 0) + tail;
    assert Promise(c, rest, st, ix) by {
      forall s: StreamState | |s.vals| == MAX_PARAMS ensures Finish(rest, st, ix, s) == Effect(c, st, s) {
        CopyInsFinish(st, ix, mask, vals, 0, tail, s);
        assert OverlayFrom(s, mask, vals, 0).vals == Overlay(s.vals, mask, vals);
      }
    }
    StreamSectionSound(c, st, ix, rest);
  }

  /** Neither a semaphore operation nor a branch. */
  predicate Plain(i: Instr)
  {
    !(i.Acquire? || i.Release? || i.IfConnected? || i.SeekUid? || i.SeekId? || i.SeekFree? || i.SubCompare? || i.SubHead?)
  }

  /** A stretch of plain instructions under semaphores that stay held. */
  lemma {:induction false} PlainSound(c: Call, seg: seq<Instr>, tail: seq<Instr>)
    requires CallOk(c) && Sound(c, tail)
    requires forall i :: i in seg ==> Plain(i) && InstrOk(c, i) && Guards(i) <= HeldOf(tail)
    ensures Sound(c, seg + tail) && HeldOf(seg + tail) == HeldOf(tail)
    decreases |seg|
  {
    hide Sound, HeldOf, Finish, CallOk, InstrOk, Guards;
    if seg == [] {
      assert seg + tail == tail;
    } else {
      PlainSound(c, seg[1..], tail);
      assert seg + tail == [seg[0]] + (seg[1..] + tail);
      Cons(c, seg[0], seg[1..] + tail);
    }
  }

  lemma {:induction false} SubRowsPlain(c: Call, i: nat)
    requires 1 <= i <= MAX_DEVICES + 1 && c.GetSub?
    ensures forall x :: x in SubRows(i) ==> Plain(x) && InstrOk(c, x) && Guards(x) == {SubMapSem}
    decreases MAX_DEVICES + 1 - i
  {
    if i <= MAX_DEVICES { SubRowsPlain(c, i + 1); }
  }

  lemma {:induction false} CmdRowsPlain(c: Call, i: nat)
    requires i <= MAX_DEVICES + 1 && c.GetCmd?
    ensures forall x :: x in CmdRows(i) ==> Plain(x) && InstrOk(c, x) && Guards(x) == {CmdMapSem}
    decreases MAX_DEVICES + 1 - i
  {
    if i <= MAX_DEVICES { CmdRowsPlain(c, i + 1); }
  }

  lemma {:induction false} IdRowsPlain(c: Call, i: nat)
    requires i <= MAX_DEVICES && c.GetIds?
    ensures forall x :: x in IdRows(i) ==> Plain(x) && InstrOk(c, x) && Guards(x) == {CatalogSem}
    decreases MAX_DEVICES - i
  {
    if i < MAX_DEVICES { IdRowsPlain(c, i + 1); }
  }

  lemma {:induction false} ZerosPlain(c: Call, ix: nat, p: nat)
    requires ix < MAX_DEVICES && p <= MAX_PARAMS
    ensures forall x :: x in Zeros(ix, p) ==> Plain(x) && InstrOk(c, x) && Guards(x) <= {DataSem(ix), CommandSem(ix)}
    decreases MAX_PARAMS - p
  {
    if p < MAX_PARAMS {
      ZerosPlain(c, ix, p + 1);
      forall x | x in Zeros(ix, p) ensures x == Zero(DATA, ix, p) || x == Zero(COMMAND, ix, p) || x in Zeros(ix, p + 1) {
        var k :| 0 <= k < |Zeros(ix, p)| && Zeros(ix, p)[k] == x;
        assert k >= 2 ==> x == Zeros(ix, p + 1)[k - 2];
      }
    }
  }

  lemma {:induction false} ZerosFinish(st: Stream, ix: nat, p: nat, tail: seq<Instr>, s: StreamState)
    requires p <= MAX_PARAMS && |s.vals| == MAX_PARAMS
    ensures Finish(Zeros(ix, p) + tail, st, ix, s) == Finish(tail, st, ix, OverlayFrom(s, ALL_BITS, ZeroRow(), p))
    decreases MAX_PARAMS - p
  {
    hide Finish, OverlayFrom;
    if p == MAX_PARAMS {
      assert Zeros(ix, p) + tail == tail;
      OverlayFromEnd(s, ALL_BITS, ZeroRow());
    } else {
      var rest := Zeros(ix, p + 1) + tail;
      assert Zeros(ix, p) + tail == [Zero(DATA, ix, p)] + ([Zero(COMMAND, ix, p)] + rest);
      FinishCons(Zero(DATA, ix, p), [Zero(COMMAND, ix, p)] + rest, st, ix, s);
      var s1 := Touch(Zero(DATA, ix, p), st, ix, s);
      FinishCons(Zero(COMMAND, ix, p), rest, st, ix, s1);
      var s2 := s.(vals := s.vals[p := ZERO_WORD]);
      assert Touch(Zero(COMMAND, ix, p), st, ix, s1) == s2;
      ZerosFinish(st, ix, p + 1, tail, s2);
      OverlayFromStep(s, ALL_BITS, ZeroRow(), p);
    }
  }

  predicate Quiet(i: Instr)
  {
    !(i.CopyIn? || i.Zero? || i.CmdOff0? || i.CmdOn0? || i.CmdOff? || i.CmdOn? || i.CmdClear?
      || i.PutType? || i.PutYear? || i.PutUid? || i.CatOn? || i.CatOff?)
  }

  /** Instructions that leave every stream alone leave a stream alone together. */
  lemma {:induction false} QuietFinish(seg: seq<Instr>, tail: seq<Instr>, st: Stream, ix: nat, s: StreamState)
    requires forall i :: i in seg ==> Quiet(i)
    ensures Finish(seg + tail, st, ix, s) == Finish(tail, st, ix, s)
    decreases |seg|
  {
    hide Finish;
    if seg == [] {
      assert seg + tail == tail;
    } else {
      assert seg[0] in seg && Quiet(seg[0]);
      assert seg + tail == [seg[0]] + (seg[1..] + tail);
      FinishCons(seg[0], seg[1..] + tail, st, ix, s);
      QuietFinish(seg[1..], tail, st, ix, s);
    }
  }

  /** The releases at the end of device_connect and device_disconnect, map semaphore first. */
  lemma ReleasesSound(c: Call, ix: nat, m: Sem)
    requires CallOk(c) && (m == SubMapSem || m == CmdMapSem)
    ensures var t := [Release(m), Release(DataSem(ix)), Release(CommandSem(ix)), Release(CatalogSem)];
            Sound(c, t) && HeldOf(t) == {m, DataSem(ix), CommandSem(ix), CatalogSem}
  {
    hide Sound, HeldOf, Finish, CallOk;
    LastReleaseSound(c, CatalogSem);
    var t3 := [Release(CatalogSem)];
    Cons(c, Release(CommandSem(ix)), t3);
    var t2 := [Release(CommandSem(ix))] + t3;
    Cons(c, Release(DataSem(ix)), t2);
    var t1 := [Release(DataSem(ix))] + t2;
    Cons(c, Release(m), t1);
    assert [Release(m)] + t1 == [Release(m), Release(DataSem(ix)), Release(CommandSem(ix)), Release(CatalogSem)];
  }

  /** A promise is kept by what comes after a semaphore is acquired. */
  lemma PromiseBehind(c: Call, m: Sem, rest: seq<Instr>, st: Stream, ix: nat)
    requires CallOk(c) && Promise(c, rest, st, ix)
    ensures Promise(c, [Acquire(m)] + rest, st, ix)
  {
    hide Finish, Effect;
    forall s: StreamState | |s.vals| == MAX_PARAMS ensures Finish([Acquire(m)] + rest, st, ix, s) == Effect(c, st, s) {
      FinishCons(Acquire(m), rest, st, ix, s);
    }
  }

  /** Acquiring a device's two stream semaphores and a map semaphore, the catalog's being held. */
  lemma AcquiresSound(c: Call, ix: nat, m: Sem, rest: seq<Instr>)
    requires CallOk(c) && ix < MAX_DEVICES && (m == SubMapSem || m == CmdMapSem)
    requires Sound(c, rest) && HeldOf(rest) == {m, DataSem(ix), CommandSem(ix), CatalogSem}
    requires Promise(c, rest, DATA, ix) && Promise(c, rest, COMMAND, ix)
    ensures var t := [Acquire(DataSem(ix)), Acquire(CommandSem(ix)), Acquire(m)] + rest;
            Sound(c, t) && HeldOf(t) == {CatalogSem}
  {
    hide Sound, HeldOf, Finish, Effect, CallOk, Promise;
    PromiseBehind(c, m, rest, DATA, ix);
    PromiseBehind(c, m, rest, COMMAND, ix);
    Cons(c, Acquire(m), rest);
    var t2 := [Acquire(m)] + rest;
    PromiseBehind(c, CommandSem(ix), t2, DATA, ix);
    Cons(c, Acquire(CommandSem(ix)), t2);
    var t1 := [Acquire(CommandSem(ix))] + t2;
    Cons(c, Acquire(DataSem(ix)), t1);
    assert [Acquire(DataSem(ix))] + t1 == [Acquire(DataSem(ix)), Acquire(CommandSem(ix)), Acquire(m)] + rest;
  }

  lemma ConnectAtSound(c: Call, ix: nat)
    requires c.Connect? && ix < MAX_DEVICES
    ensures Sound(c, ConnectAt(ix, c.id)) && HeldOf(ConnectAt(ix, c.id)) == {CatalogSem}
  {
    hide Sound, HeldOf, Finish, Zeros;
    var ends := [Release(SubMapSem), Release(DataSem(ix)), Release(CommandSem(ix)), Release(CatalogSem)];
    ReleasesSound(c, ix, SubMapSem);
    var maps := [ExecOff0(ix), ExecOff(ix), NetOn0(ix), NetOn(ix)];
    PlainSound(c, maps, ends);
    assert ConnectTail(ix) == maps + ends;
    ZerosPlain(c, ix, 0);
    PlainSound(c, Zeros(ix, 0), ConnectTail(ix));
    var body := Zeros(ix, 0) + ConnectTail(ix);
    var head := ConnectHead(ix, c.id);
    PlainSound(c, head, body);
    forall st, s: StreamState | |s.vals| == MAX_PARAMS ensures Finish(head + body, st, ix, s) == Effect(c, st, s) {
      ConnectFinish(c, ix, st, s);
    }
    AcquiresSound(c, ix, SubMapSem, head + body);
    assert ConnectAt(ix, c.id) == [Acquire(DataSem(ix)), Acquire(CommandSem(ix)), Acquire(SubMapSem)] + (head + body);
  }

  lemma ConnectFinish(c: Call, ix: nat, st: Stream, s: StreamState)
    requires c.Connect? && |s.vals| == MAX_PARAMS
    ensures Finish(ConnectHead(ix, c.id) + (Zeros(ix, 0) + ConnectTail(ix)), st, ix, s) == Effect(c, st, s)
  {
    hide Finish, Zeros;
    HeadFinish(c, ix, Zeros(ix, 0) + ConnectTail(ix), st, s);
    var s1 := s.(present := true, id := c.id);
    ZerosFinish(st, ix, 0, ConnectTail(ix), s1);
    var s' := OverlayFrom(s1, ALL_BITS, ZeroRow(), 0);
    QuietFinish(ConnectTail(ix), [], st, ix, s');
    assert ConnectTail(ix) + [] == ConnectTail(ix);
    EmptyProgram(c);
    assert s'.vals == Repeat(MAX_PARAMS, ZERO_WORD);
  }

  lemma HeadFinish(c: Call, ix: nat, tail: seq<Instr>, st: Stream, s: StreamState)
    requires c.Connect?
    ensures Finish(ConnectHead(ix, c.id) + tail, st, ix, s) == Finish(tail, st, ix, s.(present := true, id := c.id))
  {
    hide Finish;
    var id := c.id;
    var i0, i1, i2, i3 := PutType(ix, id.typ), PutYear(ix, id.year), PutUid(ix, id.uid), CatOn(ix);
    assert ConnectHead(ix, id) + tail == [i0] + ([i1] + ([i2] + ([i3] + tail)));
    FinishCons(i0, [i1] + ([i2] + ([i3] + tail)), st, ix, s);
    var s1 := Touch(i0, st, ix, s);
    FinishCons(i1, [i2] + ([i3] + tail), st, ix, s1);
    var s2 := Touch(i1, st, ix, s1);
    FinishCons(i2, [i3] + tail, st, ix, s2);
    FinishCons(i3, tail, st, ix, Touch(i2, st, ix, s2));
  }

  lemma DisconnectSound(c: Call)
    requires CallOk(c) && c.Disconnect?
    ensures Sound(c, DisconnectProgram(c.ix)) && HeldOf(DisconnectProgram(c.ix)) == {}
  {
    hide Sound, HeldOf, Finish;
    var ix := c.ix;
    var ends := [Release(CmdMapSem), Release(DataSem(ix)), Release(CommandSem(ix)), Release(CatalogSem)];
    ReleasesSound(c, ix, CmdMapSem);
    var mid := [CatOff(ix), CmdOff0(ix), CmdClear(ix)];
    PlainSound(c, mid, ends);
    forall st, s: StreamState | |s.vals| == MAX_PARAMS ensures Finish(mid + ends, st, ix, s) == Effect(c, st, s) {
      DisconnectFinish(c, st, s);
    }
    AcquiresSound(c, ix, CmdMapSem, mid + ends);
    var rest := [Acquire(DataSem(ix)), Acquire(CommandSem(ix)), Acquire(CmdMapSem)] + (mid + ends);
    Cons(c, Acquire(CatalogSem), rest);
    assert DisconnectProgram(ix) == [Acquire(CatalogSem)] + rest;
  }

  lemma DisconnectFinish(c: Call, st: Stream, s: StreamState)
    requires CallOk(c) && c.Disconnect?
    ensures var ix := c.ix;
            Finish([CatOff(ix), CmdOff0(ix), CmdClear(ix)]
                   + [Release(CmdMapSem), Release(DataSem(ix)), Release(CommandSem(ix)), Release(CatalogSem)], st, ix, s) == Effect(c, st, s)
  {
    hide Finish;
    var ix := c.ix;
    var ends := [Release(CmdMapSem), Release(DataSem(ix)), Release(CommandSem(ix)), Release(CatalogSem)];
    assert [CatOff(ix), CmdOff0(ix), CmdClear(ix)] + ends == [CatOff(ix)] + ([CmdOff0(ix)] + ([CmdClear(ix)] + ends));
    FinishCons(CatOff(ix), [CmdOff0(ix)] + ([CmdClear(ix)] + ends), st, ix, s);
    var s0 := Touch(CatOff(ix), st, ix, s);
    FinishCons(CmdOff0(ix), [CmdClear(ix)] + ends, st, ix, s0);
    var s' := Touch(CmdOff0(ix), st, ix, s0);
    FinishCons(CmdClear(ix), ends, st, ix, s');
    QuietFinish(ends, [], st, ix, Touch(CmdClear(ix), st, ix, s'));
    assert ends + [] == ends;
    EmptyProgram(c);
  }

  lemma FoundSound(c: Call, ix: nat)
    requires CallOk(c) && ByUid(c) && ix < MAX_DEVICES
    ensures Sound(c, Found(c, ix)) && HeldOf(Found(c, ix)) == {}
  {
    hide Sound, HeldOf, Finish, ReadProgram, WriteProgram;
    match c
    case ReadUid(_, p, st, mask, _) => ReadProgramSound(c, ix, p, st, mask);
    case WriteUid(_, p, st, mask, vals) => WriteProgramSound(c, ix, p, st, mask, vals);
    case PlaceSub(_, _, _) =>
      LastReleaseSound(c, SubMapSem);
      Cons(c, SubCompare(ix), [Release(SubMapSem)]);
      Cons(c, Acquire(SubMapSem), [SubCompare(ix)] + [Release(SubMapSem)]);
      assert Found(c, ix) == [Acquire(SubMapSem)] + ([SubCompare(ix)] + [Release(SubMapSem)]);
  }

  lemma GetSubSound(c: Call)
    requires CallOk(c) && c.GetSub?
    ensures Sound(c, Program(c)) && HeldOf(Program(c)) == {}
  {
    hide Sound, HeldOf, Finish, SubRows;
    LastReleaseSound(c, SubMapSem);
    if c.proc == DEV_HANDLER {
      PlainSound(c, [SubLower], [Release(SubMapSem)]);
    } else {
      assert SubTail(c.proc) == [Release(SubMapSem)];
    }
    SubRowsPlain(c, 1);
    PlainSound(c, SubRows(1), SubTail(c.proc));
    var rest := SubRows(1) + SubTail(c.proc);
    Cons(c, SubHead, rest);
    Cons(c, Acquire(SubMapSem), [SubHead] + rest);
    assert Program(c) == [Acquire(SubMapSem)] + ([SubHead] + rest);
  }

  /** A call that copies out under one semaphore. */
  lemma CopyAllSound(c: Call, s: Sem, seg: seq<Instr>)
    requires CallOk(c) && !IsStreamSem(s)
    requires forall i :: i in seg ==> Plain(i) && InstrOk(c, i) && Guards(i) == {s}
    ensures var t := [Acquire(s)] + (seg + [Release(s)]); Sound(c, t) && HeldOf(t) == {}
  {
    hide Sound, HeldOf, Finish;
    LastReleaseSound(c, s);
    PlainSound(c, seg, [Release(s)]);
    Cons(c, Acquire(s), seg + [Release(s)]);
  }

  /** Every call's program keeps the discipline and starts with nothing held. */
  lemma ProgramSound(c: Call)
    requires CallOk(c)
    ensures Sound(c, Program(c)) && HeldOf(Program(c)) == {}
  {
    hide Sound, HeldOf, Finish, ReadProgram, WriteProgram, CmdRows, IdRows, DisconnectProgram;
    EmptyProgram(c);
    match c
    case Read(ix, p, st, mask, _) =>
      ReadProgramSound(c, ix, p, st, mask);
      Cons(c, IfConnected(ix), ReadProgram(ix, p, st, mask));
    case Write(ix, p, st, mask, vals) =>
      WriteProgramSound(c, ix, p, st, mask, vals);
      Cons(c, IfConnected(ix), WriteProgram(ix, p, st, mask, vals));
    case Connect(_) =>
      LastReleaseSound(c, CatalogSem);
      Cons(c, SeekFree(0), [Release(CatalogSem)]);
      Cons(c, Acquire(CatalogSem), [SeekFree(0)] + [Release(CatalogSem)]);
      assert Program(c) == [Acquire(CatalogSem)] + ([SeekFree(0)] + [Release(CatalogSem)]);
    case Disconnect(_) => DisconnectSound(c);
    case GetSub(_, _) => GetSubSound(c);
    case GetCmd(_) =>
      CmdRowsPlain(c, 0);
      CopyAllSound(c, CmdMapSem, CmdRows(0));
    case GetIds(_) =>
      IdRowsPlain(c, 0);
      CopyAllSound(c, CatalogSem, IdRows(0));
    case GetCat(_) =>
      CopyAllSound(c, CatalogSem, [CatGet]);
      assert [Acquire(CatalogSem)] + ([CatGet] + [Release(CatalogSem)]) == Program(c);
    case _ =>
      if ByUid(c) {
        Cons(c, SeekUid(0), []);
        assert [SeekUid(0)] + [] == [SeekUid(0)];
      }
  }

  // ------------------------------------------------------------------ one instruction

  /** The semaphores held behind an instruction, given those held in front of it. */
  function HoldAfter(i: Instr, before: set<Sem>): (r: set<Sem>)
  {
    match i
    case Acquire(s) => before + {s}
    case Release(s) => before - {s}
    case _ => before
  }

  lemma SoundParts(c: Call, todo: seq<Instr>)
    requires CallOk(c) && todo != [] && Sound(c, todo)
    ensures Sound(c, todo[1..]) && SoundHead(c, todo[0], todo[1..]) && InstrOk(c, todo[0]) && Guards(todo[0]) <= HeldOf(todo)
    ensures HeldOf(todo) == HoldBefore(todo[0], HeldOf(todo[1..]))
  {
  }

  lemma {:induction false} UidSearchSound(c: Call, todo: seq<Instr>, b: Shared)
    requires CallOk(c) && todo != [] && Sound(c, todo) && (todo[0].SeekUid? || todo[0].SeekId?) && InstrOk(c, todo[0])
    ensures Sound(c, ExecTodo(c, todo, b)) && HeldOf(ExecTodo(c, todo, b)) == HeldOf(todo)
  {
    hide Sound, HeldOf, Found;
    SoundParts(c, todo);
    EmptyProgram(c);
    var k := todo[0].i;
    assert todo[1..] == [];
    if k < MAX_DEVICES {
      FoundSound(c, k);
      Cons(c, SeekUid(k + 1), []);
      Cons(c, SeekId(k), []);
    }
  }

  lemma {:induction false} FreeSearchSound(c: Call, todo: seq<Instr>, b: Shared)
    requires CallOk(c) && todo != [] && Sound(c, todo) && todo[0].SeekFree? && InstrOk(c, todo[0])
    ensures Sound(c, ExecTodo(c, todo, b)) && HeldOf(ExecTodo(c, todo, b)) == HeldOf(todo)
  {
    hide Sound, HeldOf, ConnectAt;
    SoundParts(c, todo);
    LastReleaseSound(c, CatalogSem);
    var k := todo[0].i;
    if k < MAX_DEVICES {
      ConnectAtSound(c, k);
      Cons(c, SeekFree(k + 1), todo[1..]);
    }
  }

  /** Whatever way a branch goes, what is left keeps the discipline. */
  lemma ExecSound(c: Call, todo: seq<Instr>, b: Shared)
    requires CallOk(c) && todo != [] && Sound(c, todo) && InstrOk(c, todo[0])
    ensures Sound(c, ExecTodo(c, todo, b)) && HeldOf(ExecTodo(c, todo, b)) == HoldAfter(todo[0], HeldOf(todo))
  {
    hide Sound, HeldOf, Found, ConnectAt, Promise, OnlyReleases, StreamOf;
    SoundParts(c, todo);
    match todo[0]
    case SeekUid(_) => UidSearchSound(c, todo, b);
    case SeekId(_) => UidSearchSound(c, todo, b);
    case SeekFree(_) => FreeSearchSound(c, todo, b);
    case SubCompare(ix) => PlainSound(c, [SubPut(ix), SubRaise(ix)], todo[1..]);
    case SubHead => LastReleaseSound(c, SubMapSem);
    case IfConnected(_) => EmptyProgram(c);
    case _ =>
  }

  /** An instruction changes a stream as Touch says. */
  lemma ExecTouches(c: Call, i: Instr, b: Shared, st: Stream, ix: nat)
    requires InstrOk(c, i) && ix < MAX_DEVICES
    ensures Concrete(ExecBlock(c, i, b), st, ix) == Touch(i, st, ix, Concrete(b, st, ix))
  {
  }

  /** Only an instruction guarded by the stream's semaphore changes it. */
  lemma TouchGuarded(i: Instr, st: Stream, ix: nat, s: StreamState)
    requires StreamSem(st, ix) !in Guards(i)
    ensures Touch(i, st, ix, s) == s
  {
  }

  lemma {:induction false} ReleasesQuiet(todo: seq<Instr>, st: Stream, ix: nat, s: StreamState)
    requires OnlyReleases(todo)
    ensures Finish(todo, st, ix, s) == s
  {
    QuietFinish(todo, [], st, ix, s);
    assert todo + [] == todo;
  }

  // ------------------------------------------------------------------ what a read gathers

  /** The reader's buffer once the copies in `todo` have been made from `row`. */
  function Gather(todo: seq<Instr>, row: seq<Word>, vals: seq<Word>): (r: seq<Word>)
    ensures |r| == |vals|
    decreases |todo|
  {
    if todo == [] then vals
    else if todo[0].CopyOut? && todo[0].p < |vals| && todo[0].p < |row| then
      Gather(todo[1..], row, vals[todo[0].p := row[todo[0].p]])
    else Gather(todo[1..], row, vals)
  }

  lemma GatherCons(i: Instr, rest: seq<Instr>, row: seq<Word>, vals: seq<Word>)
    ensures Gather([i] + rest, row, vals) ==
            Gather(rest, row, if i.CopyOut? && i.p < |vals| && i.p < |row| then vals[i.p := row[i.p]] else vals)
  {
    assert ([i] + rest)[1..] == rest;
  }

  lemma {:induction false} GatherNothing(todo: seq<Instr>, row: seq<Word>, vals: seq<Word>)
    requires forall i :: i in todo ==> !i.CopyOut?
    ensures Gather(todo, row, vals) == vals
    decreases |todo|
  {
    if todo != [] { GatherNothing(todo[1..], row, vals); }
  }

  lemma {:induction false} GatherCopyOuts(st: Stream, ix: nat, mask: Bitmap, p: nat, tail: seq<Instr>, row: seq<Word>, vals: seq<Word>)
    requires p <= MAX_PARAMS && |row| == MAX_PARAMS && Fits(mask, vals)
    ensures Gather(CopyOuts(st, ix, mask, p) + tail, row, vals) ==
            Gather(tail, row, OverlayFrom(JustValues(vals), mask, row, p).vals)
    decreases MAX_PARAMS - p
  {
    hide Gather, OverlayFrom, CopyOuts;
    CopyOutsUnfold(st, ix, mask, p, tail);
    var s := JustValues(vals);
    if p == MAX_PARAMS {
      OverlayFromEnd(s, mask, row);
    } else {
      OverlayFromStep(s, mask, row, p);
      if p in mask {
        GatherCons(CopyOut(st, ix, p), CopyOuts(st, ix, mask, p + 1) + tail, row, vals);
        GatherCopyOuts(st, ix, mask, p + 1, tail, row, vals[p := row[p]]);
      } else {
        GatherCopyOuts(st, ix, mask, p + 1, tail, row, vals);
      }
    }
  }

  /** A read's copies fetch exactly the parameters of its mask. */
  lemma ReadGathers(ix: nat, p: Process, st: Stream, mask: Bitmap, row: seq<Word>, vals: seq<Word>)
    requires |row| == MAX_PARAMS && Fits(mask, vals)
    ensures Gather(CopyOuts(st, ix, mask, 0) + ReadTail(ix, p, st, mask), row, vals) == Overlay(vals, mask, row)
  {
    hide Gather, CopyOuts;
    GatherCopyOuts(st, ix, mask, 0, ReadTail(ix, p, st, mask), row, vals);
    var got := OverlayFrom(JustValues(vals), mask, row, 0).vals;
    GatherNothing(ReadTail(ix, p, st, mask), row, got);
    assert got == Overlay(vals, mask, row);
  }
}
