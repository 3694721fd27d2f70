/** The subscription maps under every interleaving: whenever nobody holds their semaphore they are what the
    calls that acquired it make of them one at a time, in that order. */
module ShmSubs {
  import opened Basics
  import opened ShmBlock
  import opened ShmHistory
  import opened ShmProtocol
  import opened ShmDiscipline
  import opened ShmExecution

  datatype SubMaps = SubMaps(net: seq<Bitmap>, exec: seq<Bitmap>)

  predicate Sized(m: SubMaps) { |m.net| == |m.exec| == MAX_DEVICES + 1 }

  function Subs(b: Shared): (m: SubMaps)
    ensures Sized(m)
  {
    SubMaps(b.netSub, b.execSub)
  }

  /** What SubsFor reads. */
  function SubsIn(m: SubMaps, p: Process, i: nat): (r: Bitmap)
    requires Sized(m) && i <= MAX_DEVICES
  {
    if p == NET_HANDLER then m.net[i] else if p == EXECUTOR then m.exec[i] else m.net[i] + m.exec[i]
  }

  // ------------------------------------------------------------------ effects

  function Connected(m: SubMaps, ix: nat): (r: SubMaps)
    requires Sized(m) && ix < MAX_DEVICES
    ensures Sized(r)
  {
    SubMaps(m.net[0 := m.net[0] + {ix}][ix + 1 := ALL_BITS], m.exec[0 := m.exec[0] - {ix}][ix + 1 := {}])
  }

  function Placed(m: SubMaps, ix: nat, p: Process, mask: Bitmap): (r: SubMaps)
    requires Sized(m) && ix < MAX_DEVICES
    ensures Sized(r)
  {
    if SubsIn(m, p, ix + 1) == mask then m
    else if p == NET_HANDLER then SubMaps(m.net[ix + 1 := mask][0 := m.net[0] + {ix}], m.exec)
    else SubMaps(m.net, m.exec[ix + 1 := mask][0 := m.exec[0] + {ix}])
  }

  function Lowered(m: SubMaps): (r: SubMaps)
    requires Sized(m)
    ensures Sized(r)
  {
    SubMaps(m.net[0 := {}], m.exec[0 := {}])
  }

  /** What a whole call does, in one step, to the maps once it has found its slot `ix`. */
  function SubEffect(c: Call, ix: int, m: SubMaps): (r: SubMaps)
    requires Sized(m)
    ensures Sized(r)
  {
    match c
    case Connect(_) => if 0 <= ix < MAX_DEVICES then Connected(m, ix) else m
    case PlaceSub(_, p, mask) => if 0 <= ix < MAX_DEVICES then Placed(m, ix, p, mask) else m
    case GetSub(p, _) => if p == DEV_HANDLER then Lowered(m) else m
    case _ => m
  }

  /** What one instruction, and whatever it branches to, does to the maps. */
  function TouchSubs(c: Call, i: Instr, m: SubMaps): (r: SubMaps)
    requires Sized(m)
    ensures Sized(r)
  {
    if !InstrOk(c, i) then m
    else match i
      case ExecOff0(ix) => SubMaps(m.net, m.exec[0 := m.exec[0] - {ix}])
      case ExecOff(ix) => SubMaps(m.net, m.exec[ix + 1 := {}])
      case NetOn0(ix) => SubMaps(m.net[0 := m.net[0] + {ix}], m.exec)
      case NetOn(ix) => SubMaps(m.net[ix + 1 := ALL_BITS], m.exec)
      case SubCompare(ix) => Placed(m, ix, c.proc, c.mask)
      case SubPut(ix) =>
        if c.proc == NET_HANDLER then SubMaps(m.net[ix + 1 := c.mask], m.exec) else SubMaps(m.net, m.exec[ix + 1 := c.mask])
      case SubRaise(ix) =>
        if c.proc == NET_HANDLER then SubMaps(m.net[0 := m.net[0] + {ix}], m.exec) else SubMaps(m.net, m.exec[0 := m.exec[0] + {ix}])
      case SubLower => Lowered(m)
      case _ => m
  }

  function FinishSubs(c: Call, todo: seq<Instr>, m: SubMaps): (r: SubMaps)
    requires Sized(m)
    ensures Sized(r)
    decreases |todo|
  {
    if todo == [] then m else FinishSubs(c, todo[1..], TouchSubs(c, todo[0], m))
  }

  ghost predicate SubPromise(c: Call, rest: seq<Instr>, ix: int)
  {
    forall m: SubMaps {:trigger FinishSubs(c, rest, m)} :: Sized(m) ==> FinishSubs(c, rest, m) == SubEffect(c, ix, m)
  }

  /** From the moment the semaphore is acquired the rest has the whole call's effect, and nothing but
      releases follows its release. */
  ghost predicate SubSound(c: Call, todo: seq<Instr>, ix: int)
    decreases |todo|
  {
    todo == [] ||
    (SubSound(c, todo[1..], ix)
     && (todo[0] == Acquire(SubMapSem) ==> SubPromise(c, todo[1..], ix))
     && (todo[0] == Release(SubMapSem) ==> OnlyReleases(todo[1..]))
     && (todo[0].SubHead? ==> c.GetSub? && todo[1..] == SubRows(1) + SubTail(c.proc)))
  }

  // ------------------------------------------------------------------ programs

  predicate NoSubSem(i: Instr) { i != Acquire(SubMapSem) && i != Release(SubMapSem) && !i.SubHead? }

  predicate NoSubs(i: Instr)
  {
    !(i.ExecOff0? || i.ExecOff? || i.NetOn0? || i.NetOn? || i.SubCompare? || i.SubPut? || i.SubRaise? || i.SubLower?)
  }

  lemma SubCons(c: Call, i: Instr, rest: seq<Instr>, ix: int)
    requires SubSound(c, rest, ix)
    requires (i == Acquire(SubMapSem) ==> SubPromise(c, rest, ix)) && (i == Release(SubMapSem) ==> OnlyReleases(rest))
    requires i.SubHead? ==> c.GetSub? && rest == SubRows(1) + SubTail(c.proc)
    ensures SubSound(c, [i] + rest, ix)
  {
    hide SubRows;
    assert ([i] + rest)[1..] == rest;
  }

  lemma FinishSubsCons(c: Call, i: Instr, rest: seq<Instr>, m: SubMaps)
    requires Sized(m)
    ensures FinishSubs(c, [i] + rest, m) == FinishSubs(c, rest, TouchSubs(c, i, m))
  {
    assert ([i] + rest)[1..] == rest;
  }

  lemma {:induction false} QuietSubSound(c: Call, seg: seq<Instr>, tail: seq<Instr>, ix: int)
    requires SubSound(c, tail, ix) && forall i :: i in seg ==> NoSubSem(i)
    ensures SubSound(c, seg + tail, ix)
    decreases |seg|
  {
    hide SubSound, SubPromise;
    if seg == [] {
      assert seg + tail == tail;
    } else {
      assert seg[0] in seg && NoSubSem(seg[0]);
      QuietSubSound(c, seg[1..], tail, ix);
      SubCons(c, seg[0], seg[1..] + tail, ix);
      assert seg + tail == [seg[0]] + (seg[1..] + tail);
    }
  }

  lemma {:induction false} QuietFinishSubs(c: Call, seg: seq<Instr>, tail: seq<Instr>, m: SubMaps)
    requires Sized(m) && forall i :: i in seg ==> NoSubs(i)
    ensures FinishSubs(c, seg + tail, m) == FinishSubs(c, tail, m)
    decreases |seg|
  {
    hide FinishSubs;
    if seg == [] {
      assert seg + tail == tail;
    } else {
      assert seg[0] in seg && NoSubs(seg[0]);
      FinishSubsCons(c, seg[0], seg[1..] + tail, m);
      QuietFinishSubs(c, seg[1..], tail, m);
      assert seg + tail == [seg[0]] + (seg[1..] + tail);
    }
  }

  lemma {:induction false} ReleasesLeaveSubs(c: Call, todo: seq<Instr>, m: SubMaps)
    requires Sized(m) && OnlyReleases(todo)
    ensures FinishSubs(c, todo, m) == m
  {
    QuietFinishSubs(c, todo, [], m);
    assert todo + [] == todo;
  }

  lemma EmptySubSound(c: Call, ix: int)
    ensures SubSound(c, [], ix)
  {
  }

  lemma {:induction false} QuietProgram(c: Call, todo: seq<Instr>, ix: int)
    requires forall i :: i in todo ==> NoSubSem(i)
    ensures SubSound(c, todo, ix)
  {
    EmptySubSound(c, ix);
    QuietSubSound(c, todo, [], ix);
    assert todo + [] == todo;
  }

  lemma {:induction false} CopyOutsNoSub(st: Stream, ix: nat, mask: Bitmap, p: nat)
    requires p <= MAX_PARAMS
    ensures forall i :: i in CopyOuts(st, ix, mask, p) ==> i.CopyOut?
    decreases MAX_PARAMS - p
  {
    hide CopyOuts;
    CopyOutsUnfold(st, ix, mask, p, []);
    assert CopyOuts(st, ix, mask, p) + [] == CopyOuts(st, ix, mask, p);
    if p < MAX_PARAMS {
      CopyOutsNoSub(st, ix, mask, p + 1);
      assert CopyOuts(st, ix, mask, p + 1) + [] == CopyOuts(st, ix, mask, p + 1);
    }
  }

  lemma {:induction false} CopyInsNoSub(st: Stream, ix: nat, mask: Bitmap, vals: seq<Word>, p: nat)
    requires p <= MAX_PARAMS && Fits(mask, vals)
    ensures forall i :: i in CopyIns(st, ix, mask, vals, p) ==> i.CopyIn?
    decreases MAX_PARAMS - p
  {
    hide CopyIns;
    CopyInsUnfold(st, ix, mask, vals, p, []);
    assert CopyIns(st, ix, mask, vals, p) + [] == CopyIns(st, ix, mask, vals, p);
    if p < MAX_PARAMS {
      CopyInsNoSub(st, ix, mask, vals, p + 1);
      assert CopyIns(st, ix, mask, vals, p + 1) + [] == CopyIns(st, ix, mask, vals, p + 1);
    }
  }

  lemma {:induction false} ConnectSubSound(c: Call, ix: nat)
    requires c.Connect? && ix < MAX_DEVICES
    ensures SubSound(c, ConnectAt(ix, c.id), ix)
  {
    hide SubSound, SubPromise, Zeros;
    var ends := [Release(DataSem(ix)), Release(CommandSem(ix)), Release(CatalogSem)];
    var maps := [ExecOff0(ix), ExecOff(ix), NetOn0(ix), NetOn(ix)];
    QuietProgram(c, ends, ix);
    SubCons(c, Release(SubMapSem), ends, ix);
    var tail := [Release(SubMapSem)] + ends;
    QuietSubSound(c, maps, tail, ix);
    assert ConnectTail(ix) == maps + tail;
    ZerosPlain(c, ix, 0);
    QuietSubSound(c, Zeros(ix, 0), ConnectTail(ix), ix);
    var body := Zeros(ix, 0) + ConnectTail(ix);
    QuietSubSound(c, ConnectHead(ix, c.id), body, ix);
    ConnectSubPromise(c, ix);
    var rest := ConnectHead(ix, c.id) + body;
    SubCons(c, Acquire(SubMapSem), rest, ix);
    var takes := [Acquire(DataSem(ix)), Acquire(CommandSem(ix))];
    QuietSubSound(c, takes, [Acquire(SubMapSem)] + rest, ix);
    assert ConnectAt(ix, c.id) == takes + ([Acquire(SubMapSem)] + rest);
  }

  lemma {:induction false} ZerosNoSubs(ix: nat, p: nat)
    requires p <= MAX_PARAMS
    ensures forall i :: i in Zeros(ix, p) ==> i.Zero?
    decreases MAX_PARAMS - p
  {
    if p < MAX_PARAMS { ZerosNoSubs(ix, p + 1); }
  }

  lemma {:induction false} ConnectSubPromise(c: Call, ix: nat)
    requires c.Connect? && ix < MAX_DEVICES
    ensures SubPromise(c, ConnectHead(ix, c.id) + (Zeros(ix, 0) + ConnectTail(ix)), ix)
  {
    hide FinishSubs, Zeros;
    forall m: SubMaps | Sized(m) ensures FinishSubs(c, ConnectHead(ix, c.id) + (Zeros(ix, 0) + ConnectTail(ix)), m) == SubEffect(c, ix, m) {
      QuietFinishSubs(c, ConnectHead(ix, c.id), Zeros(ix, 0) + ConnectTail(ix), m);
      ZerosNoSubs(ix, 0);
      QuietFinishSubs(c, Zeros(ix, 0), ConnectTail(ix), m);
      ConnectTailSubs(c, ix, m);
    }
  }

  lemma {:induction false} ConnectTailSubs(c: Call, ix: nat, m: SubMaps)
    requires c.Connect? && ix < MAX_DEVICES && Sized(m)
    ensures FinishSubs(c, ConnectTail(ix), m) == Connected(m, ix)
  {
    hide FinishSubs;
    var ends := [Release(SubMapSem), Release(DataSem(ix)), Release(CommandSem(ix)), Release(CatalogSem)];
    assert ConnectTail(ix) == [ExecOff0(ix)] + ([ExecOff(ix)] + ([NetOn0(ix)] + ([NetOn(ix)] + ends)));
    var m1 := TouchSubs(c, ExecOff0(ix), m);
    var m2 := TouchSubs(c, ExecOff(ix), m1);
    var m3 := TouchSubs(c, NetOn0(ix), m2);
    var m4 := TouchSubs(c, NetOn(ix), m3);
    FinishSubsCons(c, ExecOff0(ix), [ExecOff(ix)] + ([NetOn0(ix)] + ([NetOn(ix)] + ends)), m);
    FinishSubsCons(c, ExecOff(ix), [NetOn0(ix)] + ([NetOn(ix)] + ends), m1);
    FinishSubsCons(c, NetOn0(ix), [NetOn(ix)] + ends, m2);
    FinishSubsCons(c, NetOn(ix), ends, m3);
    ReleasesLeaveSubs(c, ends, m4);
  }

  lemma {:induction false} PlaceSubSound(c: Call, ix: nat)
    requires c.PlaceSub? && ix < MAX_DEVICES
    ensures SubSound(c, [Acquire(SubMapSem), SubCompare(ix), Release(SubMapSem)], ix)
  {
    hide SubSound, FinishSubs;
    EmptySubSound(c, ix);
    SubCons(c, Release(SubMapSem), [], ix);
    var end := [Release(SubMapSem)] + [];
    SubCons(c, SubCompare(ix), end, ix);
    var rest := [SubCompare(ix)] + end;
    forall m: SubMaps | Sized(m) ensures FinishSubs(c, rest, m) == SubEffect(c, ix, m) {
      FinishSubsCons(c, SubCompare(ix), end, m);
      ReleasesLeaveSubs(c, end, TouchSubs(c, SubCompare(ix), m));
    }
    SubCons(c, Acquire(SubMapSem), rest, ix);
    assert [Acquire(SubMapSem), SubCompare(ix), Release(SubMapSem)] == [Acquire(SubMapSem)] + rest;
  }

  lemma {:induction false} GetSubSubSound(c: Call, ix: int)
    requires CallOk(c) && c.GetSub?
    ensures SubSound(c, Program(c), ix)
  {
    hide SubSound, SubPromise, SubRows;
    EmptySubSound(c, ix);
    SubCons(c, Release(SubMapSem), [], ix);
    var end := [Release(SubMapSem)] + [];
    var lower := if c.proc == DEV_HANDLER then [SubLower] else [];
    QuietSubSound(c, lower, end, ix);
    assert SubTail(c.proc) == lower + end;
    SubRowsPlain(c, 1);
    SubRowsNoSubs(1);
    QuietSubSound(c, SubRows(1), SubTail(c.proc), ix);
    SubCons(c, SubHead, SubRows(1) + SubTail(c.proc), ix);
    var rest := [SubHead] + (SubRows(1) + SubTail(c.proc));
    GetSubPromise(c, ix);
    SubCons(c, Acquire(SubMapSem), rest, ix);
    assert Program(c) == [Acquire(SubMapSem)] + rest;
  }

  lemma {:induction false} GetSubPromise(c: Call, ix: int)
    requires c.GetSub?
    ensures SubPromise(c, [SubHead] + (SubRows(1) + SubTail(c.proc)), ix)
  {
    hide FinishSubs, SubRows;
    var end, rest := [Release(SubMapSem)], [SubHead] + (SubRows(1) + SubTail(c.proc));
    forall m: SubMaps | Sized(m) ensures FinishSubs(c, rest, m) == SubEffect(c, ix, m) {
      FinishSubsCons(c, SubHead, SubRows(1) + SubTail(c.proc), m);
      SubRowsNoSubs(1);
      QuietFinishSubs(c, SubRows(1), SubTail(c.proc), m);
      if c.proc == DEV_HANDLER {
        assert SubTail(c.proc) == [SubLower] + end;
        FinishSubsCons(c, SubLower, end, m);
        ReleasesLeaveSubs(c, end, Lowered(m));
      } else {
        assert SubTail(c.proc) == end;
        ReleasesLeaveSubs(c, end, m);
      }
    }
  }

  lemma {:induction false} SubRowsNoSubs(i: nat)
    requires i <= MAX_DEVICES + 1
    ensures forall x :: x in SubRows(i) ==> x.SubRow?
    decreases MAX_DEVICES + 1 - i
  {
    if i < MAX_DEVICES + 1 { SubRowsNoSubs(i + 1); }
  }

  lemma {:induction false} RowsNoSubSem(i: nat)
    requires i <= MAX_DEVICES + 1
    ensures forall x :: x in CmdRows(i) ==> x.CmdRow?
    ensures i <= MAX_DEVICES ==> forall x :: x in IdRows(i) ==> x.IdRow?
    decreases MAX_DEVICES + 1 - i
  {
    if i < MAX_DEVICES + 1 { RowsNoSubSem(i + 1); }
  }

  lemma {:induction false} FoundSubSound(c: Call, ix: nat)
    requires CallOk(c) && ByUid(c) && ix < MAX_DEVICES
    ensures SubSound(c, Found(c, ix), ix)
  {
    hide SubSound, CopyOuts, CopyIns;
    match c
    case ReadUid(_, p, st, mask, _) => CopyOutsNoSub(st, ix, mask, 0); QuietProgram(c, Found(c, ix), ix);
    case WriteUid(_, p, st, mask, vals) => CopyInsNoSub(st, ix, mask, vals, 0); QuietProgram(c, Found(c, ix), ix);
    case PlaceSub(_, _, _) => PlaceSubSound(c, ix);
  }

  lemma {:induction false} ProgramSubSound(c: Call, ix: int)
    requires CallOk(c)
    ensures SubSound(c, Program(c), ix)
  {
    hide SubSound, CopyOuts, CopyIns, CmdRows, IdRows, SubRows;
    RowsNoSubSem(0);
    match c
    case Read(k, p, st, mask, _) => CopyOutsNoSub(st, k, mask, 0); QuietProgram(c, Program(c), ix);
    case Write(k, p, st, mask, vals) => CopyInsNoSub(st, k, mask, vals, 0); QuietProgram(c, Program(c), ix);
    case GetSub(_, _) => GetSubSubSound(c, ix);
    case _ => QuietProgram(c, Program(c), ix);
  }

  // ------------------------------------------------------------------ one step

  lemma SubParts(c: Call, todo: seq<Instr>, ix: int)
    requires todo != [] && SubSound(c, todo, ix)
    ensures SubSound(c, todo[1..], ix)
    ensures todo[0] == Acquire(SubMapSem) ==> SubPromise(c, todo[1..], ix)
    ensures todo[0] == Release(SubMapSem) ==> OnlyReleases(todo[1..])
    ensures todo[0].SubHead? ==> c.GetSub? && todo[1..] == SubRows(1) + SubTail(c.proc)
  {
    hide SubRows;
  }

  lemma {:induction false} SearchSubSound(c: Call, todo: seq<Instr>, l: Local, b: Shared)
    requires CallOk(c) && LocalOk(c, l) && todo != [] && InstrOk(c, todo[0]) && Sound(c, todo)
    requires todo[0].SeekUid? || todo[0].SeekId? || todo[0].SeekFree?
    ensures SubSound(c, ExecTodo(c, todo, b), ExecLocal(c, todo[0], l, b).ix)
  {
    hide Sound, SubSound, Found, ConnectAt, HeldOf;
    SoundParts(c, todo);
    var k, ix := todo[0].i, ExecLocal(c, todo[0], l, b).ix;
    if todo[0].SeekFree? {
      if k < MAX_DEVICES { ConnectSubSound(c, k); }
      QuietProgram(c, [SeekFree(k + 1)] + [Release(CatalogSem)], ix);
      QuietProgram(c, [Release(CatalogSem)], ix);
    } else {
      EmptySubSound(c, ix);
      if k < MAX_DEVICES { FoundSubSound(c, k); }
      QuietProgram(c, [SeekId(k)] + [], ix);
      QuietProgram(c, [SeekUid(k + 1)] + [], ix);
    }
  }

  /** Whatever way a branch goes, the promise is kept, for the slot that a search has found. */
  lemma {:induction false} ExecSubSound(c: Call, todo: seq<Instr>, l: Local, b: Shared)
    requires CallOk(c) && LocalOk(c, l) && todo != [] && InstrOk(c, todo[0]) && Sound(c, todo) && SubSound(c, todo, l.ix)
    ensures SubSound(c, ExecTodo(c, todo, b), ExecLocal(c, todo[0], l, b).ix)
  {
    hide Sound, SubSound, SubPromise, Found, ConnectAt, HeldOf, SubRows;
    SubParts(c, todo, l.ix);
    var i, rest := todo[0], todo[1..];
    if i.SeekUid? || i.SeekId? || i.SeekFree? {
      SearchSubSound(c, todo, l, b);
    } else if i.SubCompare? {
      QuietSubSound(c, [SubPut(i.ix), SubRaise(i.ix)], rest, l.ix);
    } else {
      EmptySubSound(c, l.ix);
      SubCons(c, Release(SubMapSem), [], l.ix);
      assert [Release(SubMapSem)] + [] == [Release(SubMapSem)];
    }
  }

  /** While the semaphore is held, executing an instruction leaves what is left to do to the maps unchanged. */
  lemma {:induction false} ExecFinishSubs(c: Call, todo: seq<Instr>, ix: int, b: Shared)
    requires CallOk(c) && todo != [] && Sound(c, todo) && SubMapSem in HeldOf(todo) && SubSound(c, todo, ix)
    ensures InstrOk(c, todo[0])
    ensures FinishSubs(c, ExecTodo(c, todo, b), Subs(ExecBlock(c, todo[0], b))) == FinishSubs(c, todo, Subs(b))
  {
    hide Sound, HeldOf, FinishSubs, SubSound, SubRows, SubPromise;
    SoundParts(c, todo);
    SubParts(c, todo, ix);
    var i, rest, m := todo[0], todo[1..], Subs(b);
    assert todo == [i] + rest;
    FinishSubsCons(c, i, rest, m);
    NotSearching(c, todo);
    if i.SubCompare? {
      CompareFinishes(c, i.ix, rest, b);
    } else if i.SubHead? {
      HeadFinishes(c, b);
    } else {
      assert ExecTodo(c, todo, b) == rest;
      ExecTouchesSubs(c, i, b);
    }
  }

  lemma {:induction false} NotSearching(c: Call, todo: seq<Instr>)
    requires CallOk(c) && todo != [] && Sound(c, todo) && SubMapSem in HeldOf(todo)
    ensures var i := todo[0]; !i.SeekUid? && !i.SeekId? && !i.SeekFree? && !i.IfConnected?
  {
    SoundParts(c, todo);
  }

  lemma ExecTouchesSubs(c: Call, i: Instr, b: Shared)
    requires InstrOk(c, i) && !i.SubCompare?
    ensures Subs(ExecBlock(c, i, b)) == TouchSubs(c, i, Subs(b))
  {
  }

  lemma {:induction false} CompareFinishes(c: Call, ix: nat, rest: seq<Instr>, b: Shared)
    requires CallOk(c) && InstrOk(c, SubCompare(ix))
    ensures FinishSubs(c, ExecTodo(c, [SubCompare(ix)] + rest, b), Subs(b)) == FinishSubs(c, rest, TouchSubs(c, SubCompare(ix), Subs(b)))
  {
    hide FinishSubs;
    var m := Subs(b);
    assert ([SubCompare(ix)] + rest)[1..] == rest;
    if SubsFor(b, c.proc, ix + 1) != c.mask {
      assert [SubPut(ix), SubRaise(ix)] + rest == [SubPut(ix)] + ([SubRaise(ix)] + rest);
      FinishSubsCons(c, SubPut(ix), [SubRaise(ix)] + rest, m);
      FinishSubsCons(c, SubRaise(ix), rest, TouchSubs(c, SubPut(ix), m));
    }
  }

  /** An early return finds the change bits already off. */
  lemma {:induction false} HeadFinishes(c: Call, b: Shared)
    requires CallOk(c) && c.GetSub?
    ensures var rest := SubRows(1) + SubTail(c.proc);
            FinishSubs(c, ExecTodo(c, [SubHead] + rest, b), Subs(b)) == FinishSubs(c, rest, Subs(b))
  {
    hide FinishSubs, SubRows;
    var rest, m := SubRows(1) + SubTail(c.proc), Subs(b);
    assert ([SubHead] + rest)[1..] == rest;
    if SubsFor(b, c.proc, 0) == {} && c.proc == DEV_HANDLER {
      SubRowsNoSubs(1);
      QuietFinishSubs(c, SubRows(1), SubTail(c.proc), m);
      assert SubTail(c.proc) == [SubLower] + [Release(SubMapSem)];
      FinishSubsCons(c, SubLower, [Release(SubMapSem)], m);
      ReleasesLeaveSubs(c, [Release(SubMapSem)], m);
      ReleasesLeaveSubs(c, [Release(SubMapSem)], Lowered(m));
      assert m.net[0] <= SubsFor(b, c.proc, 0) && m.exec[0] <= SubsFor(b, c.proc, 0);
      assert m.net[0] == {} && m.exec[0] == {};
      assert m.net[0 := {}] == m.net && m.exec[0 := {}] == m.exec;
    }
  }

  // ------------------------------------------------------------------ every execution

  /** An acquisition of the semaphore: by whom, in which call, for which slot. */
  datatype SubAccess = SubAccess(tid: nat, call: Call, ix: int)

  predicate TakesSubs(c: Config, m: Move)
  {
    m.Go? && IsBusy(c, m.t) && c.threads[m.t].todo != [] && c.threads[m.t].todo[0] == Acquire(SubMapSem)
  }

  function SubTaken(c: Config, m: Move): (r: seq<SubAccess>)
  {
    if TakesSubs(c, m) then [SubAccess(m.t, c.threads[m.t].call, c.threads[m.t].local.ix)] else []
  }

  /** The acquisitions among the first `n` moves. */
  function SubLog(cs: seq<Config>, ms: seq<Move>, n: nat): (r: seq<SubAccess>)
    requires n <= |ms| && n <= |cs|
  {
    if n == 0 then []
    else SubLog(cs, ms, n - 1) + SubTaken(cs[n - 1], ms[n - 1])
  }

  /** The maps after the logged calls, each in one step. */
  function ReplaySubs(init: SubMaps, log: seq<SubAccess>): (r: SubMaps)
    requires Sized(init)
    ensures Sized(r)
  {
    if log == [] then init
    else var n := |log| - 1; SubEffect(log[n].call, log[n].ix, ReplaySubs(init, log[..n]))
  }

  lemma ReplaySubsSnoc(init: SubMaps, log: seq<SubAccess>, a: SubAccess)
    requires Sized(init)
    ensures ReplaySubs(init, log + [a]) == SubEffect(a.call, a.ix, ReplaySubs(init, log))
  {
    assert (log + [a])[..|log|] == log;
  }

  ghost predicate SubThreadOk(th: Thread) { th.Busy? ==> SubSound(th.call, th.todo, th.local.ix) }

  ghost predicate SubThreadsOk(c: Config) { forall t :: 0 <= t < |c.threads| ==> SubThreadOk(c.threads[t]) }

  ghost predicate SubsOk(init: SubMaps, c: Config, log: seq<SubAccess>)
    requires Sized(init)
  {
    && (!Taken(c, SubMapSem) ==> Subs(c.block) == ReplaySubs(init, log))
    && (forall t: nat :: Holds(c, t, SubMapSem) ==> FinishSubs(c.threads[t].call, c.threads[t].todo, Subs(c.block)) == ReplaySubs(init, log))
  }

  lemma {:induction false} NextKeepsSubThreads(c: Config, m: Move, c': Config)
    requires Next(c, m, c') && ThreadsOk(c) && SubThreadsOk(c)
    ensures SubThreadsOk(c')
  {
    hide Sound, SubSound, HeldOf, ExecBlock, ExecTodo, ExecLocal, Program, StartLocal;
    match m
    case Start(t, call) => ProgramSubSound(call, StartLocal(call).ix);
    case Go(t) =>
      var th := c.threads[t];
      assert SubThreadOk(th);
      if th.todo != [] {
        SoundParts(th.call, th.todo);
        ExecSubSound(th.call, th.todo, th.local, c.block);
      }
  }

  /** A step of the thread that holds the semaphore. */
  lemma {:induction false} SubHolderStep(init: SubMaps, c: Config, t: nat, log: seq<SubAccess>)
    requires Sized(init) && CanStep(c, t) && ThreadOk(c.threads[t]) && SubThreadOk(c.threads[t]) && SemsOk(c)
    requires SubsOk(init, c, log) && Holds(c, t, SubMapSem)
    ensures SubsOk(init, Advance(c, t), log) && !TakesSubs(c, Go(t))
  {
    hide Sound, HeldOf, FinishSubs, SubSound, ReplaySubs, ExecBlock, ExecTodo;
    var s, th, c' := SubMapSem, c.threads[t], Advance(c, t);
    assert Taken(c, s) && Value(c, s) == 0;
    AdvanceHolds(c, t, t, s);
    SoundParts(th.call, th.todo);
    SubParts(th.call, th.todo, th.local.ix);
    ExecFinishSubs(th.call, th.todo, th.local.ix, c.block);
    forall u: nat ensures Holds(c', u, s) ==> u == t { AdvanceHolds(c, t, u, s); }
    if th.todo[0] == Release(s) {
      PlainStep(th.call, th.todo, c.block);
      ReleasesLeaveSubs(th.call, th.todo[1..], Subs(c'.block));
    } else {
      assert Holds(c', t, s);
    }
  }

  lemma PlainStep(c: Call, todo: seq<Instr>, b: Shared)
    requires CallOk(c) && todo != [] && (todo[0].Acquire? || todo[0].Release?)
    ensures ExecTodo(c, todo, b) == todo[1..] && ExecBlock(c, todo[0], b) == b
  {
  }

  lemma {:induction false} SubAcquireStep(init: SubMaps, c: Config, t: nat, log: seq<SubAccess>)
    requires Sized(init) && CanStep(c, t) && ThreadOk(c.threads[t]) && SubThreadOk(c.threads[t]) && SemsOk(c)
    requires SubsOk(init, c, log) && TakesSubs(c, Go(t))
    ensures SubsOk(init, Advance(c, t), log + [SubAccess(t, c.threads[t].call, c.threads[t].local.ix)])
  {
    hide Sound, HeldOf, FinishSubs, SubSound, ReplaySubs, ExecBlock, ExecTodo;
    var s, th, c' := SubMapSem, c.threads[t], Advance(c, t);
    SubParts(th.call, th.todo, th.local.ix);
    PlainStep(th.call, th.todo, c.block);
    ReplaySubsSnoc(init, log, SubAccess(t, th.call, th.local.ix));
    AdvanceHolds(c, t, t, s);
    assert Holds(c', t, s);
    forall u: nat ensures Holds(c', u, s) ==> u == t {
      if Holds(c', u, s) { AdvanceKeepsExclusion(c, t, u, t, s); }
    }
    assert FinishSubs(th.call, th.todo[1..], Subs(c.block)) == SubEffect(th.call, th.local.ix, Subs(c.block));
  }

  lemma {:induction false} SubOutsiderStep(init: SubMaps, c: Config, t: nat, log: seq<SubAccess>)
    requires Sized(init) && CanStep(c, t) && ThreadOk(c.threads[t]) && SemsOk(c)
    requires SubsOk(init, c, log) && !TakesSubs(c, Go(t)) && !Holds(c, t, SubMapSem)
    ensures SubsOk(init, Advance(c, t), log) && Subs(Advance(c, t).block) == Subs(c.block)
  {
    hide Sound, HeldOf, FinishSubs, ReplaySubs, ExecTodo;
    var s, th, c' := SubMapSem, c.threads[t], Advance(c, t);
    if th.todo != [] {
      SoundParts(th.call, th.todo);
      GuardedSubs(th.call, th.todo[0], c.block);
    }
    forall u: nat ensures Holds(c', u, s) <==> Holds(c, u, s) { AdvanceHolds(c, t, u, s); }
    assert Taken(c', s) <==> Taken(c, s);
  }

  lemma GuardedSubs(c: Call, i: Instr, b: Shared)
    requires InstrOk(c, i) && SubMapSem !in Guards(i)
    ensures Subs(ExecBlock(c, i, b)) == Subs(b)
  {
  }

  lemma {:induction false} NextKeepsSubs(init: SubMaps, c: Config, m: Move, c': Config, log: seq<SubAccess>)
    requires Sized(init) && Next(c, m, c') && ThreadsOk(c) && SubThreadsOk(c) && SemsOk(c) && SubsOk(init, c, log)
    ensures SubsOk(init, c', log + SubTaken(c, m))
  {
    hide Sound, HeldOf, FinishSubs, ReplaySubs, SubSound, Program;
    assert log + [] == log;
    match m
    case Start(t, call) =>
      ProgramSound(call);
      forall u: nat ensures Holds(c', u, SubMapSem) <==> Holds(c, u, SubMapSem) {}
      assert Taken(c', SubMapSem) <==> Taken(c, SubMapSem);
    case Go(t) =>
      assert SubThreadOk(c.threads[t]);
      if Holds(c, t, SubMapSem) {
        SubHolderStep(init, c, t, log);
      } else if TakesSubs(c, m) {
        SubAcquireStep(init, c, t, log);
      } else {
        SubOutsiderStep(init, c, t, log);
      }
  }

  lemma {:induction false} SubsAlwaysOk(cs: seq<Config>, ms: seq<Move>, n: nat)
    requires Execution(cs, ms) && n < |cs|
    ensures ThreadsOk(cs[n]) && SemsOk(cs[n]) && SubThreadsOk(cs[n]) && SubsOk(Subs(cs[0].block), cs[n], SubLog(cs, ms, n))
  {
    hide ThreadsOk, SemsOk, SubThreadsOk, SubsOk, Next, TakesSubs;
    SemsAlwaysOk(cs, ms, n);
    if n == 0 {
      SubsStartOk(cs[0]);
    } else {
      SubsAlwaysOk(cs, ms, n - 1);
      NextKeepsSubThreads(cs[n - 1], ms[n - 1], cs[n]);
      NextKeepsSubs(Subs(cs[0].block), cs[n - 1], ms[n - 1], cs[n], SubLog(cs, ms, n - 1));
    }
  }

  lemma SubsStartOk(c: Config)
    requires Init(c)
    ensures SubThreadsOk(c) && SubsOk(Subs(c.block), c, [])
  {
  }

  /** Whenever nobody holds the subscription maps' semaphore they are what the connects, requests and reports
      that acquired it make of them one at a time, in that order. */
  lemma SubsSerializable(cs: seq<Config>, ms: seq<Move>, n: nat)
    requires Execution(cs, ms) && n < |cs| && Value(cs[n], SubMapSem) == 1
    ensures Subs(cs[n].block) == ReplaySubs(Subs(cs[0].block), SubLog(cs, ms, n))
  {
    hide ReplaySubs, FinishSubs, Next;
    SubsAlwaysOk(cs, ms, n);
  }

  // ------------------------------------------------------------------ which subscriptions stand

  /** The access decides what process `p` is subscribed to at slot `ix`: a connect, or a request of `p` itself. */
  predicate SetsSubs(a: SubAccess, p: Process, ix: nat)
  {
    a.ix == ix && (a.call.Connect? || (a.call.PlaceSub? && a.call.proc == p))
  }

  /** What a device that nobody has asked about is subscribed to: everything for the network, nothing for the executor. */
  function DefaultSubs(p: Process): (r: Bitmap) { if p == NET_HANDLER then ALL_BITS else {} }

  function SubsSetTo(a: SubAccess, p: Process): (r: Bitmap)
    requires a.call.Connect? || a.call.PlaceSub?
  {
    if a.call.Connect? then DefaultSubs(p) else a.call.mask
  }

  ghost predicate LastSubSetter(log: seq<SubAccess>, i: nat, p: Process, ix: nat)
  {
    i < |log| && SetsSubs(log[i], p, ix) && forall j :: i < j < |log| ==> !SetsSubs(log[j], p, ix)
  }

  /** Only the network and the executor place requests. */
  predicate Subscriber(p: Process) { p == NET_HANDLER || p == EXECUTOR }

  predicate RequestsOk(log: seq<SubAccess>) { forall i :: 0 <= i < |log| && log[i].call.PlaceSub? ==> Subscriber(log[i].call.proc) }

  lemma EffectOnSubs(a: SubAccess, p: Process, ix: nat, m: SubMaps)
    requires Sized(m) && ix < MAX_DEVICES && Subscriber(p) && (a.call.PlaceSub? ==> Subscriber(a.call.proc))
    ensures SubsIn(SubEffect(a.call, a.ix, m), p, ix + 1) == if SetsSubs(a, p, ix) then SubsSetTo(a, p) else SubsIn(m, p, ix + 1)
  {
  }

  /** The replay of a log leaves each subscription as its last setter made it. */
  lemma {:induction false} LastSubSetterWins(init: SubMaps, log: seq<SubAccess>, p: Process, ix: nat)
    requires Sized(init) && RequestsOk(log) && Subscriber(p) && ix < MAX_DEVICES
    ensures forall i: nat :: LastSubSetter(log, i, p, ix) ==> SubsIn(ReplaySubs(init, log), p, ix + 1) == SubsSetTo(log[i], p)
    ensures (forall i: nat :: !LastSubSetter(log, i, p, ix)) ==> SubsIn(ReplaySubs(init, log), p, ix + 1) == SubsIn(init, p, ix + 1)
    decreases |log|
  {
    hide SubEffect, SubsIn;
    if log != [] {
      var n := |log| - 1;
      var before := log[..n];
      LastSubSetterWins(init, before, p, ix);
      EffectOnSubs(log[n], p, ix, ReplaySubs(init, before));
      if SetsSubs(log[n], p, ix) {
        assert LastSubSetter(log, n, p, ix);
      } else {
        assert forall i: nat :: LastSubSetter(log, i, p, ix) <==> LastSubSetter(before, i, p, ix);
        if i: nat :| LastSubSetter(before, i, p, ix) { assert LastSubSetter(log, i, p, ix); }
      }
    }
  }

  /** A request from another process ends at once. */
  lemma {:induction false} StrangersEnd(cs: seq<Config>, ms: seq<Move>, n: nat, t: nat)
    requires Execution(cs, ms) && n < |cs| && IsBusy(cs[n], t) && cs[n].threads[t].call.PlaceSub?
    requires !Subscriber(cs[n].threads[t].call.proc)
    ensures cs[n].threads[t].todo == []
  {
    hide Sound, LocalOk, ExecBlock, ExecLocal, ExecTodo;
    NobodyBusy(cs[0], t);
    if n > 0 {
      assert Next(cs[n - 1], ms[n - 1], cs[n]);
      if IsBusy(cs[n - 1], t) { StrangersEnd(cs, ms, n - 1, t); }
    }
  }

  lemma {:induction false} RequestsLogged(cs: seq<Config>, ms: seq<Move>, n: nat)
    requires Execution(cs, ms) && n < |cs|
    ensures RequestsOk(SubLog(cs, ms, n))
  {
    hide Next, Init;
    if n > 0 {
      RequestsLogged(cs, ms, n - 1);
      var c, m := cs[n - 1], ms[n - 1];
      if TakesSubs(c, m) && c.threads[m.t].call.PlaceSub? && !Subscriber(c.threads[m.t].call.proc) {
        StrangersEnd(cs, ms, n - 1, m.t);
      }
    }
  }

  lemma InitialSubs(c: Config, p: Process, ix: nat)
    requires Init(c) && Subscriber(p) && ix < MAX_DEVICES
    ensures SubsIn(Subs(c.block), p, ix + 1) == DefaultSubs(p)
  {
  }

  /** Under every interleaving, whenever nobody holds the maps' semaphore, the subscription of either process
      at a slot is the mask of its last request there, or the default of a new device if a connect came later
      or nothing came at all. */
  lemma {:induction false} LastRequestStands(cs: seq<Config>, ms: seq<Move>, n: nat, p: Process, ix: nat)
    requires Execution(cs, ms) && n < |cs| && ix < MAX_DEVICES && Subscriber(p) && Value(cs[n], SubMapSem) == 1
    ensures var now, log := if p == NET_HANDLER then cs[n].block.netSub[ix + 1] else cs[n].block.execSub[ix + 1], SubLog(cs, ms, n);
            && (forall i: nat :: LastSubSetter(log, i, p, ix) ==>
                  now == if log[i].call.PlaceSub? then log[i].call.mask else if p == NET_HANDLER then ALL_BITS else {})
            && ((forall i: nat :: !LastSubSetter(log, i, p, ix)) ==> now == if p == NET_HANDLER then ALL_BITS else {})
  {
    hide Next, ReplaySubs, LastSubSetter, SubLog;
    SubsSerializable(cs, ms, n);
    RequestsLogged(cs, ms, n);
    LastSubSetterWins(Subs(cs[0].block), SubLog(cs, ms, n), p, ix);
    InitialSubs(cs[0], p, ix);
    var log := SubLog(cs, ms, n);
    forall i: nat | LastSubSetter(log, i, p, ix) ensures i < |log| && SetsSubs(log[i], p, ix) { SetterIs(log, i, p, ix); }
  }

  lemma SetterIs(log: seq<SubAccess>, i: nat, p: Process, ix: nat)
    requires LastSubSetter(log, i, p, ix)
    ensures i < |log| && SetsSubs(log[i], p, ix)
  {
  }
}
