/** The instruction programs of ShmProtocol against the one-step calls of ShmBlock: a call that nobody
    disturbs leaves the block as Apply says and returns what the wrapper's function returns. */
module ShmSolo {
  import opened Basics
  import opened ShmBlock
  import opened ShmHistory
  import opened ShmProtocol
  import opened ShmDiscipline

  // ------------------------------------------------------------------ running alone

  /** More than the number of instructions that `i` can still lead to. */
  function Cost(i: Instr): (w: nat)
    ensures w > 0
  {
    match i
    case SeekUid(i) => if i <= MAX_DEVICES then 101 + 2 * (MAX_DEVICES - i) else 1
    case SeekId(i) => if i <= MAX_DEVICES then 100 + 2 * (MAX_DEVICES - i) else 1
    case SeekFree(i) => if i <= MAX_DEVICES then 100 + MAX_DEVICES - i else 1
    case SubCompare(_) => 3
    case SubHead => 2
    case _ => 1
  }

  function Weight(todo: seq<Instr>): (w: nat)
  {
    if todo == [] then 0 else Cost(todo[0]) + Weight(todo[1..])
  }

  lemma {:induction false} WeightOfSum(s: seq<Instr>, t: seq<Instr>)
    ensures Weight(s + t) == Weight(s) + Weight(t)
    decreases |s|
  {
    if s == [] {
      assert s + t == t;
    } else {
      assert (s + t)[1..] == s[1..] + t;
      WeightOfSum(s[1..], t);
    }
  }

  lemma {:induction false} WeightOfPlain(s: seq<Instr>)
    requires forall i :: i in s ==> Cost(i) == 1
    ensures Weight(s) == |s|
  {
    if s != [] { WeightOfPlain(s[1..]); }
  }

  lemma {:induction false} CopiesCount(st: Stream, ix: nat, mask: Bitmap, p: nat)
    requires p <= MAX_PARAMS
    ensures |CopyOuts(st, ix, mask, p)| <= MAX_PARAMS - p && forall i :: i in CopyOuts(st, ix, mask, p) ==> Cost(i) == 1
    decreases MAX_PARAMS - p
  {
    if p < MAX_PARAMS { CopiesCount(st, ix, mask, p + 1); }
  }

  lemma {:induction false} StoresCount(st: Stream, ix: nat, mask: Bitmap, vals: seq<Word>, p: nat)
    requires p <= MAX_PARAMS && Fits(mask, vals)
    ensures |CopyIns(st, ix, mask, vals, p)| <= MAX_PARAMS - p && forall i :: i in CopyIns(st, ix, mask, vals, p) ==> Cost(i) == 1
    decreases MAX_PARAMS - p
  {
    if p < MAX_PARAMS { StoresCount(st, ix, mask, vals, p + 1); }
  }

  lemma {:induction false} ZerosCount(ix: nat, p: nat)
    requires p <= MAX_PARAMS
    ensures |Zeros(ix, p)| == 2 * (MAX_PARAMS - p) && forall i :: i in Zeros(ix, p) ==> Cost(i) == 1
    decreases MAX_PARAMS - p
  {
    if p < MAX_PARAMS { ZerosCount(ix, p + 1); }
  }

  lemma FoundIsShort(c: Call, ix: nat)
    requires CallOk(c) && ByUid(c)
    ensures Weight(Found(c, ix)) < 100
  {
    hide CopyOuts, CopyIns, Weight;
    match c
    case ReadUid(_, p, st, mask, _) => CopiesCount(st, ix, mask, 0); WeightOfPlain(Found(c, ix));
    case WriteUid(_, p, st, mask, vals) => StoresCount(st, ix, mask, vals, 0); WeightOfPlain(Found(c, ix));
    case PlaceSub(_, _, _) => ShortSum(ix);
  }

  lemma ShortSum(ix: nat)
    ensures Weight([Acquire(SubMapSem), SubCompare(ix), Release(SubMapSem)]) == 5
  {
    var r := [Release(SubMapSem)];
    assert [Acquire(SubMapSem), SubCompare(ix), Release(SubMapSem)] == [Acquire(SubMapSem)] + ([SubCompare(ix)] + r);
    WeightOfSum([SubCompare(ix)], r);
    WeightOfSum([Acquire(SubMapSem)], [SubCompare(ix)] + r);
  }

  lemma ConnectIsShort(ix: nat, id: DevId)
    ensures Weight(ConnectAt(ix, id)) < 100
  {
    hide Zeros, Weight;
    ZerosCount(ix, 0);
    WeightOfPlain(ConnectAt(ix, id));
  }

  lemma Replaced(head: seq<Instr>, todo: seq<Instr>)
    requires todo != [] && Weight(head) < Cost(todo[0])
    ensures Weight(head + todo[1..]) < Weight(todo)
  {
    WeightOfSum(head, todo[1..]);
  }

  lemma OneWeight(i: Instr)
    ensures Weight([i]) == Cost(i)
  {
  }

  lemma {:induction false} SearchDrops(c: Call, todo: seq<Instr>, b: Shared)
    requires CallOk(c) && todo != [] && InstrOk(c, todo[0]) && (todo[0].SeekUid? || todo[0].SeekId? || todo[0].SeekFree?)
    ensures Weight(ExecTodo(c, todo, b)) < Weight(todo)
  {
    var i, k := todo[0], todo[0].i;
    assert Weight(todo) >= Cost(i) >= 100;
    hide Found, ConnectAt, Weight;
    EmptyWeight();
    if i.SeekUid? {
      OneWeight(SeekUid(k + 1));
      OneWeight(SeekId(k));
      if k < MAX_DEVICES { Replaced(if k in b.catalog then [SeekId(k)] else [SeekUid(k + 1)], todo); }
    } else if i.SeekId? {
      FoundIsShort(c, k);
      OneWeight(SeekUid(k + 1));
      Replaced([SeekUid(k + 1)], todo);
    } else {
      ConnectIsShort(k, c.id);
      OneWeight(SeekFree(k + 1));
      if k < MAX_DEVICES { Replaced([SeekFree(k + 1)], todo); } else { Replaced([], todo); assert [] + todo[1..] == todo[1..]; }
    }
  }

  lemma EmptyWeight()
    ensures Weight([]) == 0
  {
  }

  lemma {:induction false} WeightDrops(c: Call, todo: seq<Instr>, b: Shared)
    requires CallOk(c) && todo != [] && InstrOk(c, todo[0])
    ensures Weight(ExecTodo(c, todo, b)) < Weight(todo)
  {
    var i, rest := todo[0], todo[1..];
    if i.SeekUid? || i.SeekId? || i.SeekFree? {
      SearchDrops(c, todo, b);
    } else {
      assert Weight(todo) == Cost(i) + Weight(rest);
      EmptyWeight();
      hide Weight;
      if i.SubCompare? {
        WeightOfPlain([SubPut(i.ix), SubRaise(i.ix)]);
        Replaced([SubPut(i.ix), SubRaise(i.ix)], todo);
      } else if i.SubHead? {
        OneWeight(Release(SubMapSem));
      }
    }
  }

  /** What a call leaves when it runs to its end alone. */
  function RunAlone(c: Call, todo: seq<Instr>, l: Local, b: Shared): (r: (Local, Shared))
    requires CallOk(c) && LocalOk(c, l)
    decreases Weight(todo)
  {
    if todo == [] || !InstrOk(c, todo[0]) then (l, b)
    else
      WeightDrops(c, todo, b);
      RunAlone(c, ExecTodo(c, todo, b), ExecLocal(c, todo[0], l, b), ExecBlock(c, todo[0], b))
  }

  lemma OneStep(c: Call, todo: seq<Instr>, l: Local, b: Shared)
    requires CallOk(c) && LocalOk(c, l) && todo != [] && InstrOk(c, todo[0])
    ensures RunAlone(c, todo, l, b) == RunAlone(c, ExecTodo(c, todo, b), ExecLocal(c, todo[0], l, b), ExecBlock(c, todo[0], b))
  {
    hide ExecTodo, ExecLocal, ExecBlock;
  }

  /** The next instruction of a straight run. */
  lemma {:induction false} RunOn(c: Call, i: Instr, rest: seq<Instr>, l: Local, b: Shared)
    requires CallOk(c) && LocalOk(c, l) && InstrOk(c, i)
    requires !i.IfConnected? && !i.SeekUid? && !i.SeekId? && !i.SeekFree? && !i.SubCompare? && !i.SubHead?
    ensures RunAlone(c, [i] + rest, l, b) == RunAlone(c, rest, ExecLocal(c, i, l, b), ExecBlock(c, i, b))
  {
    hide RunAlone;
    OneStep(c, [i] + rest, l, b);
    assert ([i] + rest)[1..] == rest;
  }

  // ------------------------------------------------------------------ the loops

  lemma {:induction false} CopyOutsRun(c: Call, st: Stream, ix: nat, mask: Bitmap, p: nat, tail: seq<Instr>, l: Local, b: Shared)
    requires CallOk(c) && LocalOk(c, l) && IsRead(c) && mask == c.mask && ix < MAX_DEVICES && p <= MAX_PARAMS
    ensures var l' := l.(vals := OverlayFrom(JustValues(l.vals), mask, Row(b, st, ix), p).vals);
            LocalOk(c, l') && RunAlone(c, CopyOuts(st, ix, mask, p) + tail, l, b) == RunAlone(c, tail, l', b)
    decreases MAX_PARAMS - p
  {
    hide RunAlone, CopyOuts, OverlayFrom;
    CopyOutsUnfold(st, ix, mask, p, tail);
    var s, row := JustValues(l.vals), Row(b, st, ix);
    if p == MAX_PARAMS {
      OverlayFromEnd(s, mask, row);
    } else {
      OverlayFromStep(s, mask, row, p);
      if p in mask {
        RunOn(c, CopyOut(st, ix, p), CopyOuts(st, ix, mask, p + 1) + tail, l, b);
        CopyOutsRun(c, st, ix, mask, p + 1, tail, l.(vals := l.vals[p := row[p]]), b);
      } else {
        CopyOutsRun(c, st, ix, mask, p + 1, tail, l, b);
      }
    }
  }

  lemma {:induction false} CopyInsRun(
    c: Call, st: Stream, ix: nat, mask: Bitmap, vals: seq<Word>, p: nat, tail: seq<Instr>, l: Local, b: Shared)
    requires CallOk(c) && LocalOk(c, l) && Fits(mask, vals) && ix < MAX_DEVICES && p <= MAX_PARAMS
    ensures var row := OverlayFrom(JustValues(Row(b, st, ix)), mask, vals, p).vals;
            |row| == MAX_PARAMS && RunAlone(c, CopyIns(st, ix, mask, vals, p) + tail, l, b) == RunAlone(c, tail, l, WithRow(b, st, ix, row))
    decreases MAX_PARAMS - p
  {
    hide RunAlone, CopyIns, OverlayFrom;
    CopyInsUnfold(st, ix, mask, vals, p, tail);
    var row := Row(b, st, ix);
    var s := JustValues(row);
    if p == MAX_PARAMS {
      OverlayFromEnd(s, mask, vals);
      assert WithRow(b, st, ix, row) == b;
    } else {
      OverlayFromStep(s, mask, vals, p);
      if p in mask {
        var b' := WithRow(b, st, ix, row[p := vals[p]]);
        RunOn(c, CopyIn(st, ix, p, vals[p]), CopyIns(st, ix, mask, vals, p + 1) + tail, l, b);
        CopyInsRun(c, st, ix, mask, vals, p + 1, tail, l, b');
        RowTwice(b, st, ix, row[p := vals[p]], OverlayFrom(JustValues(row[p := vals[p]]), mask, vals, p + 1).vals);
      } else {
        CopyInsRun(c, st, ix, mask, vals, p + 1, tail, l, b);
      }
    }
  }

  lemma RowTwice(b: Shared, st: Stream, ix: nat, r: seq<Word>, r': seq<Word>)
    requires ix < MAX_DEVICES && |r| == |r'| == MAX_PARAMS
    ensures Row(WithRow(b, st, ix, r), st, ix) == r && WithRow(WithRow(b, st, ix, r), st, ix, r') == WithRow(b, st, ix, r')
  {
    assert b.data[ix := r][ix := r'] == b.data[ix := r'];
    assert b.command[ix := r][ix := r'] == b.command[ix := r'];
  }

  /** Both rows of a device with the parameters from `p` on set to zero. */
  function ZeroedFrom(b: Shared, ix: nat, p: nat): (r: Shared)
    requires ix < MAX_DEVICES && p <= MAX_PARAMS
  {
    WithRow(WithRow(b, DATA, ix, b.data[ix][..p] + ZeroRow()[p..]), COMMAND, ix, b.command[ix][..p] + ZeroRow()[p..])
  }

  lemma ZeroedStep(b: Shared, ix: nat, p: nat)
    requires ix < MAX_DEVICES && p < MAX_PARAMS
    ensures var d := WithRow(b, DATA, ix, b.data[ix][p := ZERO_WORD]);
            ZeroedFrom(WithRow(d, COMMAND, ix, b.command[ix][p := ZERO_WORD]), ix, p + 1) == ZeroedFrom(b, ix, p)
  {
    assert b.data[ix][p := ZERO_WORD][..p + 1] + ZeroRow()[p + 1..] == b.data[ix][..p] + ZeroRow()[p..];
    assert b.command[ix][p := ZERO_WORD][..p + 1] + ZeroRow()[p + 1..] == b.command[ix][..p] + ZeroRow()[p..];
    var d := WithRow(b, DATA, ix, b.data[ix][p := ZERO_WORD]);
    RowTwice(b, DATA, ix, b.data[ix][p := ZERO_WORD], b.data[ix][..p] + ZeroRow()[p..]);
    RowTwice(d, COMMAND, ix, b.command[ix][p := ZERO_WORD], b.command[ix][..p] + ZeroRow()[p..]);
  }

  lemma {:induction false} ZerosRun(c: Call, ix: nat, p: nat, tail: seq<Instr>, l: Local, b: Shared)
    requires CallOk(c) && LocalOk(c, l) && ix < MAX_DEVICES && p <= MAX_PARAMS
    ensures RunAlone(c, Zeros(ix, p) + tail, l, b) == RunAlone(c, tail, l, ZeroedFrom(b, ix, p))
    decreases MAX_PARAMS - p
  {
    hide RunAlone, ZeroedFrom;
    if p == MAX_PARAMS {
      assert Zeros(ix, p) + tail == tail;
      NothingZeroed(b, ix);
    } else {
      var rest := Zeros(ix, p + 1) + tail;
      assert Zeros(ix, p) + tail == [Zero(DATA, ix, p)] + ([Zero(COMMAND, ix, p)] + rest);
      var d := WithRow(b, DATA, ix, b.data[ix][p := ZERO_WORD]);
      RunOn(c, Zero(DATA, ix, p), [Zero(COMMAND, ix, p)] + rest, l, b);
      RunOn(c, Zero(COMMAND, ix, p), rest, l, d);
      ZerosRun(c, ix, p + 1, tail, l, WithRow(d, COMMAND, ix, b.command[ix][p := ZERO_WORD]));
      ZeroedStep(b, ix, p);
    }
  }

  lemma NothingZeroed(b: Shared, ix: nat)
    requires ix < MAX_DEVICES
    ensures ZeroedFrom(b, ix, MAX_PARAMS) == b
  {
    assert b.data[ix][..MAX_PARAMS] + ZeroRow()[MAX_PARAMS..] == b.data[ix];
    assert b.command[ix][..MAX_PARAMS] + ZeroRow()[MAX_PARAMS..] == b.command[ix];
    assert b.data[ix := b.data[ix]] == b.data && b.command[ix := b.command[ix]] == b.command;
  }

  lemma {:induction false} CmdRowsRun(c: Call, i: nat, tail: seq<Instr>, l: Local, b: Shared)
    requires CallOk(c) && LocalOk(c, l) && c.GetCmd? && i <= MAX_DEVICES + 1
    ensures var l' := l.(maps := l.maps[..i] + b.cmdMap[i..]);
            LocalOk(c, l') && RunAlone(c, CmdRows(i) + tail, l, b) == RunAlone(c, tail, l', b)
    decreases MAX_DEVICES + 1 - i
  {
    hide RunAlone;
    if i == MAX_DEVICES + 1 {
      assert CmdRows(i) + tail == tail && l.maps[..i] + b.cmdMap[i..] == l.maps;
    } else {
      var rest := CmdRows(i + 1) + tail;
      assert CmdRows(i) + tail == [CmdRow(i)] + rest;
      RunOn(c, CmdRow(i), rest, l, b);
      CmdRowsRun(c, i + 1, tail, l.(maps := l.maps[i := b.cmdMap[i]]), b);
      assert l.maps[i := b.cmdMap[i]][..i + 1] + b.cmdMap[i + 1..] == l.maps[..i] + b.cmdMap[i..];
    }
  }

  lemma {:induction false} IdRowsRun(c: Call, i: nat, tail: seq<Instr>, l: Local, b: Shared)
    requires CallOk(c) && LocalOk(c, l) && c.GetIds? && i <= MAX_DEVICES
    ensures var l' := l.(ids := l.ids[..i] + b.ids[i..]);
            LocalOk(c, l') && RunAlone(c, IdRows(i) + tail, l, b) == RunAlone(c, tail, l', b)
    decreases MAX_DEVICES - i
  {
    hide RunAlone;
    if i == MAX_DEVICES {
      assert IdRows(i) + tail == tail && l.ids[..i] + b.ids[i..] == l.ids;
    } else {
      var rest := IdRows(i + 1) + tail;
      assert IdRows(i) + tail == [IdRow(i)] + rest;
      RunOn(c, IdRow(i), rest, l, b);
      IdRowsRun(c, i + 1, tail, l.(ids := l.ids[i := b.ids[i]]), b);
      assert l.ids[i := b.ids[i]][..i + 1] + b.ids[i + 1..] == l.ids[..i] + b.ids[i..];
    }
  }

  /** `done` is the caller's map `maps` once rows `i` and up have been filled in. */
  ghost predicate SubsFrom(b: Shared, p: Process, maps: seq<Bitmap>, i: nat, done: seq<Bitmap>)
    requires |maps| == |done| == MAX_DEVICES + 1 && 1 <= i
  {
    && (forall j: nat :: j in done[0] <==> j in maps[0] && (j in b.catalog || j < i - 1))
    && (forall k :: 1 <= k < i && k <= MAX_DEVICES ==> done[k] == maps[k])
    && (forall k :: i <= k <= MAX_DEVICES ==> done[k] == SubEntry(b, p, k))
  }

  lemma SubsStep(b: Shared, c: Call, l: Local, i: nat, done: seq<Bitmap>)
    requires c.GetSub? && LocalOk(c, l) && CallOk(c) && 1 <= i <= MAX_DEVICES && |done| == MAX_DEVICES + 1
    requires SubsFrom(b, c.proc, ExecLocal(c, SubRow(i), l, b).maps, i + 1, done)
    ensures SubsFrom(b, c.proc, l.maps, i, done)
  {
    forall k | 1 <= k < i ensures done[k] == l.maps[k] { assert done[k] == ExecLocal(c, SubRow(i), l, b).maps[k]; }
    assert done[i] == ExecLocal(c, SubRow(i), l, b).maps[i];
  }

  lemma {:induction false} SubRowsRun(c: Call, i: nat, tail: seq<Instr>, l: Local, b: Shared) returns (done: seq<Bitmap>)
    requires CallOk(c) && LocalOk(c, l) && c.GetSub? && 1 <= i <= MAX_DEVICES + 1
    ensures |done| == MAX_DEVICES + 1 && SubsFrom(b, c.proc, l.maps, i, done)
    ensures RunAlone(c, SubRows(i) + tail, l, b) == RunAlone(c, tail, l.(maps := done), b)
    decreases MAX_DEVICES + 1 - i
  {
    hide RunAlone;
    if i == MAX_DEVICES + 1 {
      assert SubRows(i) + tail == tail;
      done := l.maps;
    } else {
      var rest := SubRows(i + 1) + tail;
      assert SubRows(i) + tail == [SubRow(i)] + rest;
      RunOn(c, SubRow(i), rest, l, b);
      var l' := ExecLocal(c, SubRow(i), l, b);
      done := SubRowsRun(c, i + 1, tail, l', b);
      SubsStep(b, c, l, i, done);
      assert l'.(maps := done) == l.(maps := done);
    }
  }

  // ------------------------------------------------------------------ the calls

  /** What the caller of `c` gets when it runs alone on `b`. */
  ghost predicate Answers(b: Shared, c: Call, l: Local)
    requires CallOk(c)
  {
    var ix := Target(b, c);
    match c
    case Read(_, _, st, mask, into) =>
      l.code == (if ix == -1 then -1 else 0) && l.vals == if ix == -1 then into else Overlay(into, mask, Row(b, st, ix))
    case ReadUid(_, _, st, mask, into) =>
      l.code == (if ix == -1 then -1 else 0) && l.vals == if ix == -1 then into else Overlay(into, mask, Row(b, st, ix))
    case Write(_, _, _, _, _) => l.code == if ix == -1 then -1 else 0
    case WriteUid(_, _, _, _, _) => l.code == if ix == -1 then -1 else 0
    case PlaceSub(_, _, _) => l.code == if ix == -1 then -1 else 0
    case Connect(_) => l.ix == ix
    case Disconnect(_) => true
    case GetSub(p, buf) => l.maps == SubReport(b, p, buf)
    case GetCmd(_) => l.maps == b.cmdMap
    case GetIds(_) => l.ids == b.ids
    case GetCat(_) => l.cat == b.catalog
  }

  lemma {:induction false} ReadTailRuns(c: Call, ix: nat, l: Local, b: Shared)
    requires CallOk(c) && LocalOk(c, l) && IsRead(c) && ix < MAX_DEVICES
    ensures RunAlone(c, ReadTail(ix, c.proc, c.stream, c.mask), l, b) == (l, AfterRead(b, ix, c.proc, c.stream, c.mask))
  {
    hide RunAlone;
    var s := Release(StreamSem(c.stream, ix));
    EndRun(c, s, l, b);
    if c.proc == DEV_HANDLER && c.stream == COMMAND {
      var off := CmdOff(ix, c.mask);
      assert ReadTail(ix, c.proc, c.stream, c.mask) == [Acquire(CmdMapSem)] + ([CmdOff0(ix)] + ([off] + ([Release(CmdMapSem)] + [s])));
      var b1 := ExecBlock(c, CmdOff0(ix), b);
      var b2 := ExecBlock(c, off, b1);
      RunOn(c, Acquire(CmdMapSem), [CmdOff0(ix)] + ([off] + ([Release(CmdMapSem)] + [s])), l, b);
      RunOn(c, CmdOff0(ix), [off] + ([Release(CmdMapSem)] + [s]), l, b);
      RunOn(c, off, [Release(CmdMapSem)] + [s], l, b1);
      RunOn(c, Release(CmdMapSem), [s], l, b2);
      EndRun(c, s, l, b2);
    } else {
      assert ReadTail(ix, c.proc, c.stream, c.mask) == [s];
    }
  }

  lemma {:induction false} EndRun(c: Call, i: Instr, l: Local, b: Shared)
    requires CallOk(c) && LocalOk(c, l) && i.Release?
    ensures RunAlone(c, [i], l, b) == (l, b) && RunAlone(c, [], l, b) == (l, b)
  {
  }

  lemma {:induction false} ReadRuns(c: Call, ix: nat, l: Local, b: Shared)
    requires CallOk(c) && LocalOk(c, l) && IsRead(c) && ix < MAX_DEVICES && l.vals == c.into
    ensures RunAlone(c, ReadProgram(ix, c.proc, c.stream, c.mask), l, b)
            == (l.(vals := Overlay(c.into, c.mask, Row(b, c.stream, ix))), AfterRead(b, ix, c.proc, c.stream, c.mask))
  {
    hide RunAlone, CopyOuts, ReadTail;
    var tail := ReadTail(ix, c.proc, c.stream, c.mask);
    RunOn(c, Acquire(StreamSem(c.stream, ix)), CopyOuts(c.stream, ix, c.mask, 0) + tail, l, b);
    CopyOutsRun(c, c.stream, ix, c.mask, 0, tail, l, b);
    var got := OverlayFrom(JustValues(l.vals), c.mask, Row(b, c.stream, ix), 0).vals;
    assert got == Overlay(c.into, c.mask, Row(b, c.stream, ix));
    ReadTailRuns(c, ix, l.(vals := got), b);
  }

  /** Semaphores never make a call wait when nobody else runs. */
  lemma {:induction false} SemaphoresRun(c: Call, seg: seq<Instr>, tail: seq<Instr>, l: Local, b: Shared)
    requires CallOk(c) && LocalOk(c, l) && forall i :: i in seg ==> i.Acquire? || i.Release?
    ensures RunAlone(c, seg + tail, l, b) == RunAlone(c, tail, l, b)
    decreases |seg|
  {
    hide RunAlone;
    if seg == [] {
      assert seg + tail == tail;
    } else {
      assert seg + tail == [seg[0]] + (seg[1..] + tail);
      RunOn(c, seg[0], seg[1..] + tail, l, b);
      SemaphoresRun(c, seg[1..], tail, l, b);
    }
  }

  lemma {:induction false} WriteTailRuns(c: Call, ix: nat, l: Local, b: Shared)
    requires CallOk(c) && LocalOk(c, l) && (c.Write? || c.WriteUid?) && ix < MAX_DEVICES
    ensures RunAlone(c, WriteTail(ix, c.proc, c.stream, c.mask), l, b) ==
            (l, if c.proc == EXECUTOR && c.stream == COMMAND then
               WithMaps(b, b.cmdMap[0 := b.cmdMap[0] + {ix}][ix + 1 := b.cmdMap[ix + 1] + c.mask], b.netSub, b.execSub) else b)
  {
    hide RunAlone;
    var s := Release(StreamSem(c.stream, ix));
    EndRun(c, s, l, b);
    if c.proc == EXECUTOR && c.stream == COMMAND {
      var on := CmdOn(ix, c.mask);
      assert WriteTail(ix, c.proc, c.stream, c.mask) == [Acquire(CmdMapSem)] + ([CmdOn0(ix)] + ([on] + ([Release(CmdMapSem)] + [s])));
      var b1 := ExecBlock(c, CmdOn0(ix), b);
      var b2 := ExecBlock(c, on, b1);
      RunOn(c, Acquire(CmdMapSem), [CmdOn0(ix)] + ([on] + ([Release(CmdMapSem)] + [s])), l, b);
      RunOn(c, CmdOn0(ix), [on] + ([Release(CmdMapSem)] + [s]), l, b);
      RunOn(c, on, [Release(CmdMapSem)] + [s], l, b1);
      RunOn(c, Release(CmdMapSem), [s], l, b2);
      EndRun(c, s, l, b2);
    } else {
      assert WriteTail(ix, c.proc, c.stream, c.mask) == [s];
    }
  }

  lemma {:induction false} WriteRuns(c: Call, ix: nat, l: Local, b: Shared)
    requires CallOk(c) && LocalOk(c, l) && (c.Write? || c.WriteUid?) && ix < MAX_DEVICES
    ensures RunAlone(c, WriteProgram(ix, c.proc, c.stream, c.mask, c.vals), l, b)
            == (l, AfterWrite(b, ix, c.proc, c.stream, c.mask, c.vals))
  {
    hide RunAlone, CopyIns, WriteTail;
    var tail := WriteTail(ix, c.proc, c.stream, c.mask);
    RunOn(c, Acquire(StreamSem(c.stream, ix)), CopyIns(c.stream, ix, c.mask, c.vals, 0) + tail, l, b);
    CopyInsRun(c, c.stream, ix, c.mask, c.vals, 0, tail, l, b);
    var row := OverlayFrom(JustValues(Row(b, c.stream, ix)), c.mask, c.vals, 0).vals;
    assert row == Overlay(Row(b, c.stream, ix), c.mask, c.vals);
    WriteTailRuns(c, ix, l, WithRow(b, c.stream, ix, row));
  }

  lemma SubsStart(c: Call, ix: nat, b: Shared)
    requires ix < MAX_DEVICES
    ensures var b2 := ExecBlock(c, ExecOff(ix), ExecBlock(c, ExecOff0(ix), b));
            ExecBlock(c, NetOn(ix), ExecBlock(c, NetOn0(ix), b2)) ==
            WithMaps(b, b.cmdMap, b.netSub[0 := b.netSub[0] + {ix}][ix + 1 := ALL_BITS], b.execSub[0 := b.execSub[0] - {ix}][ix + 1 := {}])
  {
  }

  lemma {:induction false} ConnectTailRuns(c: Call, ix: nat, l: Local, b: Shared)
    requires CallOk(c) && LocalOk(c, l) && ix < MAX_DEVICES
    ensures RunAlone(c, ConnectTail(ix), l, b) ==
            (l, WithMaps(b, b.cmdMap, b.netSub[0 := b.netSub[0] + {ix}][ix + 1 := ALL_BITS], b.execSub[0 := b.execSub[0] - {ix}][ix + 1 := {}]))
  {
    hide RunAlone, ExecBlock;
    SubsStart(c, ix, b);
    var end := [Release(SubMapSem), Release(DataSem(ix)), Release(CommandSem(ix)), Release(CatalogSem)];
    assert ConnectTail(ix) == [ExecOff0(ix)] + ([ExecOff(ix)] + ([NetOn0(ix)] + ([NetOn(ix)] + end)));
    var b1 := ExecBlock(c, ExecOff0(ix), b);
    var b2 := ExecBlock(c, ExecOff(ix), b1);
    var b3 := ExecBlock(c, NetOn0(ix), b2);
    var b4 := ExecBlock(c, NetOn(ix), b3);
    RunOn(c, ExecOff0(ix), [ExecOff(ix)] + ([NetOn0(ix)] + ([NetOn(ix)] + end)), l, b);
    RunOn(c, ExecOff(ix), [NetOn0(ix)] + ([NetOn(ix)] + end), l, b1);
    RunOn(c, NetOn0(ix), [NetOn(ix)] + end, l, b2);
    RunOn(c, NetOn(ix), end, l, b3);
    SemaphoresRun(c, end, [], l, b4);
    assert end + [] == end;
    EndRun(c, end[0], l, b4);
  }

  lemma {:induction false} ConnectHeadRuns(c: Call, ix: nat, rest: seq<Instr>, l: Local, b: Shared)
    requires c.Connect? && LocalOk(c, l) && ix < MAX_DEVICES
    ensures RunAlone(c, ConnectHead(ix, c.id) + rest, l, b) == RunAlone(c, rest, l, WithCatalog(b, b.catalog + {ix}, b.ids[ix := c.id]))
  {
    hide RunAlone, ExecBlock;
    HeadBlock(c, ix, b);
    var t, y, u, on := PutType(ix, c.id.typ), PutYear(ix, c.id.year), PutUid(ix, c.id.uid), CatOn(ix);
    assert ConnectHead(ix, c.id) + rest == [t] + ([y] + ([u] + ([on] + rest)));
    var b1 := ExecBlock(c, t, b);
    var b2 := ExecBlock(c, y, b1);
    var b3 := ExecBlock(c, u, b2);
    RunOn(c, t, [y] + ([u] + ([on] + rest)), l, b);
    RunOn(c, y, [u] + ([on] + rest), l, b1);
    RunOn(c, u, [on] + rest, l, b2);
    RunOn(c, on, rest, l, b3);
  }

  lemma HeadBlock(c: Call, ix: nat, b: Shared)
    requires c.Connect? && ix < MAX_DEVICES
    ensures var b2 := ExecBlock(c, PutYear(ix, c.id.year), ExecBlock(c, PutType(ix, c.id.typ), b));
            ExecBlock(c, CatOn(ix), ExecBlock(c, PutUid(ix, c.id.uid), b2)) == WithCatalog(b, b.catalog + {ix}, b.ids[ix := c.id])
  {
    var b2 := ExecBlock(c, PutYear(ix, c.id.year), ExecBlock(c, PutType(ix, c.id.typ), b));
    assert ExecBlock(c, PutUid(ix, c.id.uid), b2).ids == b.ids[ix := c.id];
  }

  lemma {:induction false} ConnectRuns(c: Call, ix: nat, l: Local, b: Shared)
    requires c.Connect? && LocalOk(c, l) && ix < MAX_DEVICES
    ensures RunAlone(c, ConnectAt(ix, c.id), l, b) == (l, AfterConnectAt(b, ix, c.id))
  {
    hide RunAlone, Zeros, ConnectTail, ConnectHead;
    var take := [Acquire(DataSem(ix)), Acquire(CommandSem(ix)), Acquire(SubMapSem)];
    var rest := Zeros(ix, 0) + ConnectTail(ix);
    SemaphoresRun(c, take, ConnectHead(ix, c.id) + rest, l, b);
    ConnectHeadRuns(c, ix, rest, l, b);
    var b2 := WithCatalog(b, b.catalog + {ix}, b.ids[ix := c.id]);
    ZerosRun(c, ix, 0, ConnectTail(ix), l, b2);
    ConnectTailRuns(c, ix, l, ZeroedFrom(b2, ix, 0));
    assert b2.data[ix][..0] + ZeroRow()[0..] == ZeroRow() && b2.command[ix][..0] + ZeroRow()[0..] == ZeroRow();
  }

  lemma {:induction false} DisconnectRuns(c: Call, l: Local, b: Shared)
    requires CallOk(c) && c.Disconnect? && LocalOk(c, l)
    ensures RunAlone(c, DisconnectProgram(c.ix), l, b) == (l, AfterDisconnect(b, c.ix))
  {
    hide RunAlone;
    var ix := c.ix;
    var take := [Acquire(CatalogSem), Acquire(DataSem(ix)), Acquire(CommandSem(ix)), Acquire(CmdMapSem)];
    var end := [Release(CmdMapSem), Release(DataSem(ix)), Release(CommandSem(ix)), Release(CatalogSem)];
    assert DisconnectProgram(ix) == take + ([CatOff(ix)] + ([CmdOff0(ix)] + ([CmdClear(ix)] + end)));
    SemaphoresRun(c, take, [CatOff(ix)] + ([CmdOff0(ix)] + ([CmdClear(ix)] + end)), l, b);
    var b1 := ExecBlock(c, CatOff(ix), b);
    var b2 := ExecBlock(c, CmdOff0(ix), b1);
    var b3 := ExecBlock(c, CmdClear(ix), b2);
    RunOn(c, CatOff(ix), [CmdOff0(ix)] + ([CmdClear(ix)] + end), l, b);
    RunOn(c, CmdOff0(ix), [CmdClear(ix)] + end, l, b1);
    RunOn(c, CmdClear(ix), end, l, b2);
    SemaphoresRun(c, end, [], l, b3);
    assert end + [] == end;
    EndRun(c, end[0], l, b3);
  }

  lemma {:induction false} PlaceSubRuns(c: Call, ix: nat, l: Local, b: Shared)
    requires CallOk(c) && c.PlaceSub? && (c.proc == NET_HANDLER || c.proc == EXECUTOR) && LocalOk(c, l) && ix < MAX_DEVICES
    ensures RunAlone(c, [Acquire(SubMapSem), SubCompare(ix), Release(SubMapSem)], l, b) == (l, AfterPlaceSub(b, ix, c.proc, c.mask))
  {
    hide RunAlone;
    var end := [Release(SubMapSem)];
    assert [Acquire(SubMapSem), SubCompare(ix), Release(SubMapSem)] == [Acquire(SubMapSem)] + ([SubCompare(ix)] + end);
    RunOn(c, Acquire(SubMapSem), [SubCompare(ix)] + end, l, b);
    CompareRuns(c, ix, end, l, b);
    EndRun(c, end[0], l, b);
    if SubsFor(b, c.proc, ix + 1) != c.mask {
      assert [SubPut(ix), SubRaise(ix)] + end == [SubPut(ix)] + ([SubRaise(ix)] + end);
      var b1 := ExecBlock(c, SubPut(ix), b);
      RunOn(c, SubPut(ix), [SubRaise(ix)] + end, l, b);
      RunOn(c, SubRaise(ix), end, l, b1);
      EndRun(c, end[0], l, ExecBlock(c, SubRaise(ix), b1));
    }
  }

  lemma {:induction false} CompareRuns(c: Call, ix: nat, end: seq<Instr>, l: Local, b: Shared)
    requires CallOk(c) && c.PlaceSub? && LocalOk(c, l) && ix < MAX_DEVICES
    ensures RunAlone(c, [SubCompare(ix)] + end, l, b) ==
            RunAlone(c, if SubsFor(b, c.proc, ix + 1) != c.mask then [SubPut(ix), SubRaise(ix)] + end else end, l, b)
  {
    hide RunAlone;
    OneStep(c, [SubCompare(ix)] + end, l, b);
    assert ([SubCompare(ix)] + end)[1..] == end;
  }

  lemma {:induction false} SeekUidRuns(c: Call, i: nat, l: Local, b: Shared)
    requires CallOk(c) && ByUid(c) && LocalOk(c, l) && i <= MAX_DEVICES
    ensures var ix := LookupFrom(b, c.uid, i);
            RunAlone(c, [SeekUid(i)], l, b) ==
            if ix == -1 then (l.(code := -1), b) else RunAlone(c, Found(c, ix), l.(ix := ix), b)
    decreases MAX_DEVICES - i
  {
    hide Found, RunAlone;
    OneStep(c, [SeekUid(i)], l, b);
    EndRun(c, Release(SubMapSem), l.(code := -1), b);
    if i < MAX_DEVICES {
      if i in b.catalog {
        assert ExecTodo(c, [SeekUid(i)], b) == [SeekId(i)];
        OneStep(c, [SeekId(i)], l, b);
      }
      if !(i in b.catalog && b.ids[i].uid == c.uid) {
        assert [SeekUid(i + 1)] + [] == [SeekUid(i + 1)];
        SeekUidRuns(c, i + 1, l, b);
      }
    }
  }

  lemma SeekFreeStep(c: Call, i: nat, l: Local, b: Shared)
    requires c.Connect? && LocalOk(c, l) && i <= MAX_DEVICES
    ensures var end := [Release(CatalogSem)];
            RunAlone(c, [SeekFree(i)] + end, l, b) ==
            if i == MAX_DEVICES then RunAlone(c, end, l.(ix := -1), b)
            else if i in b.catalog then RunAlone(c, [SeekFree(i + 1)] + end, l, b)
            else RunAlone(c, ConnectAt(i, c.id), l.(ix := i), b)
  {
    hide ConnectAt, RunAlone;
    OneStep(c, [SeekFree(i)] + [Release(CatalogSem)], l, b);
    assert ([SeekFree(i)] + [Release(CatalogSem)])[1..] == [Release(CatalogSem)];
  }

  lemma {:induction false} SeekFreeRuns(c: Call, i: nat, l: Local, b: Shared)
    requires c.Connect? && LocalOk(c, l) && i <= MAX_DEVICES
    ensures var ix, end := FreeFrom(b.catalog, i), [Release(CatalogSem)];
            RunAlone(c, [SeekFree(i)] + end, l, b) ==
            if ix == MAX_DEVICES then RunAlone(c, end, l.(ix := -1), b) else RunAlone(c, ConnectAt(ix, c.id), l.(ix := ix), b)
    decreases MAX_DEVICES - i
  {
    hide ConnectAt, RunAlone;
    SeekFreeStep(c, i, l, b);
    if i < MAX_DEVICES && i in b.catalog {
      SeekFreeRuns(c, i + 1, l, b);
    }
  }

  lemma {:induction false} GetSubRuns(c: Call, l: Local, b: Shared)
    requires CallOk(c) && c.GetSub? && LocalOk(c, l) && l.maps == c.buf
    ensures RunAlone(c, Program(c), l, b) == (l.(maps := SubReport(b, c.proc, c.buf)), AfterGetSub(b, c.proc))
  {
    hide RunAlone, SubRows;
    var tail := SubRows(1) + SubTail(c.proc);
    assert Program(c) == [Acquire(SubMapSem)] + ([SubHead] + tail);
    RunOn(c, Acquire(SubMapSem), [SubHead] + tail, l, b);
    SubHeadRuns(c, tail, l, b);
    var l1 := l.(maps := l.maps[0 := SubsFor(b, c.proc, 0)]);
    if SubsFor(b, c.proc, 0) == {} && c.proc == DEV_HANDLER {
      EndRun(c, Release(SubMapSem), l1, b);
      NothingChanged(b);
    } else {
      var done := SubRowsRun(c, 1, SubTail(c.proc), l1, b);
      SubTailRuns(c, l1.(maps := done), b);
      ReportFilled(b, c.proc, l1.maps, c.buf, done);
    }
  }

  lemma NothingChanged(b: Shared)
    requires SubsFor(b, DEV_HANDLER, 0) == {}
    ensures AfterGetSub(b, DEV_HANDLER) == b
  {
    assert b.netSub[0] <= SubsFor(b, DEV_HANDLER, 0) && b.execSub[0] <= SubsFor(b, DEV_HANDLER, 0);
    assert b.netSub[0] == {} && b.execSub[0] == {};
    assert b.netSub[0 := {}] == b.netSub && b.execSub[0 := {}] == b.execSub;
  }

  lemma ReportFilled(b: Shared, p: Process, maps: seq<Bitmap>, buf: seq<Bitmap>, done: seq<Bitmap>)
    requires |maps| == |buf| == |done| == MAX_DEVICES + 1 && maps[0] == SubsFor(b, p, 0)
    requires !(SubsFor(b, p, 0) == {} && p == DEV_HANDLER) && SubsFrom(b, p, maps, 1, done)
    ensures done == SubReport(b, p, buf)
  {
    assert done[0] == SubEntry(b, p, 0);
    assert forall k :: 0 <= k <= MAX_DEVICES ==> done[k] == SubEntry(b, p, k);
  }

  lemma {:induction false} SubHeadRuns(c: Call, tail: seq<Instr>, l: Local, b: Shared)
    requires CallOk(c) && c.GetSub? && LocalOk(c, l)
    ensures RunAlone(c, [SubHead] + tail, l, b) ==
            RunAlone(c, if SubsFor(b, c.proc, 0) == {} && c.proc == DEV_HANDLER then [Release(SubMapSem)] else tail,
                     l.(maps := l.maps[0 := SubsFor(b, c.proc, 0)]), b)
  {
    hide RunAlone;
    OneStep(c, [SubHead] + tail, l, b);
    assert ([SubHead] + tail)[1..] == tail;
  }

  lemma {:induction false} SubTailRuns(c: Call, l: Local, b: Shared)
    requires CallOk(c) && c.GetSub? && LocalOk(c, l)
    ensures RunAlone(c, SubTail(c.proc), l, b) == (l, AfterGetSub(b, c.proc))
  {
    hide RunAlone;
    EndRun(c, Release(SubMapSem), l, b);
    if c.proc == DEV_HANDLER {
      assert SubTail(c.proc) == [SubLower] + [Release(SubMapSem)];
      RunOn(c, SubLower, [Release(SubMapSem)], l, b);
      EndRun(c, Release(SubMapSem), l, ExecBlock(c, SubLower, b));
    } else {
      assert SubTail(c.proc) == [Release(SubMapSem)];
    }
  }

  lemma {:induction false} CopyingRuns(c: Call, l: Local, b: Shared)
    requires CallOk(c) && LocalOk(c, l) && (c.GetCmd? || c.GetIds? || c.GetCat?)
    ensures var l' := if c.GetCmd? then l.(maps := b.cmdMap) else if c.GetIds? then l.(ids := b.ids) else l.(cat := b.catalog);
            RunAlone(c, Program(c), l, b) == (l', b)
  {
    hide RunAlone, CmdRows, IdRows;
    if c.GetCmd? {
      var end := [Release(CmdMapSem)];
      RunOn(c, Acquire(CmdMapSem), CmdRows(0) + end, l, b);
      CmdRowsRun(c, 0, end, l, b);
      assert l.maps[..0] + b.cmdMap[0..] == b.cmdMap;
      EndRun(c, end[0], l.(maps := b.cmdMap), b);
    } else if c.GetIds? {
      var end := [Release(CatalogSem)];
      RunOn(c, Acquire(CatalogSem), IdRows(0) + end, l, b);
      IdRowsRun(c, 0, end, l, b);
      assert l.ids[..0] + b.ids[0..] == b.ids;
      EndRun(c, end[0], l.(ids := b.ids), b);
    } else {
      var end := [Release(CatalogSem)];
      assert Program(c) == [Acquire(CatalogSem)] + ([CatGet] + end);
      RunOn(c, Acquire(CatalogSem), [CatGet] + end, l, b);
      RunOn(c, CatGet, end, l, b);
      EndRun(c, end[0], l.(cat := b.catalog), b);
    }
  }

  lemma {:induction false} TestedRuns(c: Call, rest: seq<Instr>, l: Local, b: Shared)
    requires CallOk(c) && LocalOk(c, l) && (c.Read? || c.Write?)
    ensures RunAlone(c, [IfConnected(c.ix)] + rest, l, b) ==
            if c.ix in b.catalog then RunAlone(c, rest, l, b) else (l.(code := -1), b)
  {
    hide RunAlone;
    OneStep(c, [IfConnected(c.ix)] + rest, l, b);
    assert ([IfConnected(c.ix)] + rest)[1..] == rest;
    if c.ix !in b.catalog { EndRun(c, Release(CatalogSem), l.(code := -1), b); }
  }

  lemma {:induction false} ByUidRuns(c: Call, b: Shared)
    requires CallOk(c) && ByUid(c)
    ensures var (l, b') := RunAlone(c, Program(c), StartLocal(c), b); b' == Apply(b, c) && Answers(b, c, l)
  {
    hide RunAlone, ReadProgram, WriteProgram;
    var l, ix := StartLocal(c), Lookup(b, c.uid);
    SeekUidRuns(c, 0, l, b);
    EndRun(c, Release(SubMapSem), l, b);
    if ix >= 0 {
      match c
      case ReadUid(_, _, _, _, _) => ReadRuns(c, ix, l.(ix := ix), b);
      case WriteUid(_, _, _, _, _) => WriteRuns(c, ix, l.(ix := ix), b);
      case PlaceSub(_, p, _) => if p == NET_HANDLER || p == EXECUTOR { PlaceSubRuns(c, ix, l.(ix := ix), b); }
    }
  }

  lemma {:induction false} ConnectCallRuns(c: Call, b: Shared)
    requires c.Connect?
    ensures var (l, b') := RunAlone(c, Program(c), StartLocal(c), b); b' == Apply(b, c) && Answers(b, c, l)
  {
    hide RunAlone, ConnectAt;
    var l, ix, end := StartLocal(c), FreeFrom(b.catalog, 0), [Release(CatalogSem)];
    assert Program(c) == [Acquire(CatalogSem)] + ([SeekFree(0)] + end);
    RunOn(c, Acquire(CatalogSem), [SeekFree(0)] + end, l, b);
    SeekFreeRuns(c, 0, l, b);
    if ix == MAX_DEVICES {
      EndRun(c, end[0], l.(ix := -1), b);
    } else {
      ConnectRuns(c, ix, l.(ix := ix), b);
    }
  }

  /** Every call's program, run alone, has the effect and the answer of the one-step call. */
  lemma {:induction false} AloneAsOneStep(c: Call, b: Shared)
    requires CallOk(c)
    ensures var (l, b') := RunAlone(c, Program(c), StartLocal(c), b); b' == Apply(b, c) && Answers(b, c, l)
  {
    hide RunAlone, ReadProgram, WriteProgram, DisconnectProgram;
    var l := StartLocal(c);
    if ByUid(c) {
      ByUidRuns(c, b);
    } else if c.Connect? {
      ConnectCallRuns(c, b);
    } else if c.Read? {
      TestedRuns(c, ReadProgram(c.ix, c.proc, c.stream, c.mask), l, b);
      ReadRuns(c, c.ix, l, b);
    } else if c.Write? {
      TestedRuns(c, WriteProgram(c.ix, c.proc, c.stream, c.mask, c.vals), l, b);
      WriteRuns(c, c.ix, l, b);
    } else if c.Disconnect? {
      DisconnectRuns(c, l, b);
    } else if c.GetSub? {
      GetSubRuns(c, l, b);
    } else {
      CopyingRuns(c, l, b);
    }
  }
}
