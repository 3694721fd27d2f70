/** What every completed call did under every interleaving: the semaphores it took, in order, and what it saw
    of the catalog that made it succeed or fail. */
module ShmAnswers {
  import opened Basics
  import opened ShmBlock
  import opened ShmHistory
  import opened ShmProtocol
  import opened ShmDiscipline
  import opened ShmExecution
  import opened ShmTheorems
  import opened ShmSubs
  import opened ShmReports
  import opened ShmConnect

  // ------------------------------------------------------------------ semaphores to take

  function Acquires(todo: seq<Instr>): (r: seq<Sem>)
  {
    if todo == [] then [] else (if todo[0].Acquire? then [todo[0].s] else []) + Acquires(todo[1..])
  }

  lemma {:induction false} AcquiresConcat(a: seq<Instr>, b: seq<Instr>)
    ensures Acquires(a + b) == Acquires(a) + Acquires(b)
    decreases |a|
  {
    if a == [] {
      assert a + b == b;
    } else {
      AcquiresConcat(a[1..], b);
      assert (a + b)[1..] == a[1..] + b;
    }
  }

  lemma {:induction false} AcquiresNone(seg: seq<Instr>)
    requires forall i :: i in seg ==> !i.Acquire?
    ensures Acquires(seg) == []
    decreases |seg|
  {
    if seg != [] {
      assert seg[0] in seg;
      AcquiresNone(seg[1..]);
    }
  }

  lemma AcquiresSkip(seg: seq<Instr>, tail: seq<Instr>)
    requires forall i :: i in seg ==> !i.Acquire?
    ensures Acquires(seg + tail) == Acquires(tail)
  {
    AcquiresNone(seg);
    AcquiresConcat(seg, tail);
  }

  lemma AcquiresFirst(s: Sem, rest: seq<Instr>)
    ensures Acquires([Acquire(s)] + rest) == [s] + Acquires(rest)
  {
    assert ([Acquire(s)] + rest)[1..] == rest;
  }

  /** Stepping past an instruction. */
  lemma AcquiresStep(todo: seq<Instr>)
    requires todo != []
    ensures Acquires(todo) == (if todo[0].Acquire? then [todo[0].s] else []) + Acquires(todo[1..])
  {
  }

  /** What a call on a stream takes once it has its device: the stream, and for a command that dev_handler reads or the
      executor writes the command map. */
  function StreamDue(c: Call, ix: nat): (r: seq<Sem>)
    requires IsRead(c) || IsWrite(c)
  {
    [StreamSem(c.stream, ix)]
    + if c.stream == COMMAND && c.proc == (if IsRead(c) then DEV_HANDLER else EXECUTOR) then [CmdMapSem] else []
  }

  /** Everything a call takes, in order, given its answer. */
  function Due(c: Call, l: Local): (r: seq<Sem>)
  {
    match c
    case Connect(_) => [CatalogSem] + if l.ix < 0 then [] else [DataSem(l.ix), CommandSem(l.ix), SubMapSem]
    case Disconnect(ix) => [CatalogSem, DataSem(ix), CommandSem(ix), CmdMapSem]
    case PlaceSub(_, _, _) => if l.code != 0 then [] else [SubMapSem]
    case GetSub(_, _) => [SubMapSem]
    case GetCmd(_) => [CmdMapSem]
    case GetIds(_) => [CatalogSem]
    case GetCat(_) => [CatalogSem]
    case _ => if l.code != 0 || l.ix < 0 then [] else StreamDue(c, l.ix)
  }

  lemma ReadAcquires(c: Call, ix: nat)
    requires IsRead(c)
    ensures Acquires(ReadProgram(ix, c.proc, c.stream, c.mask)) == StreamDue(c, ix)
  {
    hide CopyOuts, Acquires;
    var outs, tail := CopyOuts(c.stream, ix, c.mask, 0), ReadTail(ix, c.proc, c.stream, c.mask);
    AcquiresFirst(StreamSem(c.stream, ix), outs + tail);
    CopyOutsNoSub(c.stream, ix, c.mask, 0);
    AcquiresSkip(outs, tail);
    TailAcquires(tail, ix, c.stream, CmdOff0(ix), CmdOff(ix, c.mask));
  }

  lemma WriteAcquires(c: Call, ix: nat)
    requires CallOk(c) && IsWrite(c)
    ensures Acquires(WriteProgram(ix, c.proc, c.stream, c.mask, c.vals)) == StreamDue(c, ix)
  {
    hide CopyIns, Acquires;
    var ins, tail := CopyIns(c.stream, ix, c.mask, c.vals, 0), WriteTail(ix, c.proc, c.stream, c.mask);
    AcquiresFirst(StreamSem(c.stream, ix), ins + tail);
    CopyInsNoSub(c.stream, ix, c.mask, c.vals, 0);
    AcquiresSkip(ins, tail);
    TailAcquires(tail, ix, c.stream, CmdOn0(ix), CmdOn(ix, c.mask));
  }

  lemma TailAcquires(tail: seq<Instr>, ix: nat, st: Stream, i0: Instr, i1: Instr)
    requires !i0.Acquire? && !i1.Acquire?
    ensures tail == [Acquire(CmdMapSem), i0, i1, Release(CmdMapSem)] + [Release(StreamSem(st, ix))] ==> Acquires(tail) == [CmdMapSem]
    ensures tail == [] + [Release(StreamSem(st, ix))] ==> Acquires(tail) == []
  {
    hide Acquires;
    var rest := [i0, i1, Release(CmdMapSem), Release(StreamSem(st, ix))];
    AcquiresFirst(CmdMapSem, rest);
    AcquiresNone(rest);
    AcquiresNone([] + [Release(StreamSem(st, ix))]);
    assert [Acquire(CmdMapSem), i0, i1, Release(CmdMapSem)] + [Release(StreamSem(st, ix))] == [Acquire(CmdMapSem)] + rest;
  }

  lemma ConnectAcquires(ix: nat, id: DevId)
    ensures Acquires(ConnectAt(ix, id)) == [DataSem(ix), CommandSem(ix), SubMapSem]
  {
    hide Zeros, Acquires;
    var rest := ConnectHead(ix, id) + (Zeros(ix, 0) + ConnectTail(ix));
    ZerosNoSubs(ix, 0);
    AcquiresNone(rest);
    AcquiresFirst(SubMapSem, rest);
    AcquiresFirst(CommandSem(ix), [Acquire(SubMapSem)] + rest);
    AcquiresFirst(DataSem(ix), [Acquire(CommandSem(ix))] + ([Acquire(SubMapSem)] + rest));
    assert ConnectAt(ix, id) == [Acquire(DataSem(ix))] + ([Acquire(CommandSem(ix))] + ([Acquire(SubMapSem)] + rest));
  }

  lemma FoundAcquires(c: Call, ix: nat, l: Local)
    requires CallOk(c) && ByUid(c) && l.code == 0 && l.ix == ix
    ensures Acquires(Found(c, ix)) == Due(c, l)
  {
    hide Acquires, ReadProgram, WriteProgram;
    match c
    case ReadUid(_, _, _, _, _) => ReadAcquires(c, ix);
    case WriteUid(_, _, _, _, _) => WriteAcquires(c, ix);
    case PlaceSub(_, _, _) =>
      var rest := [SubCompare(ix), Release(SubMapSem)];
      AcquiresFirst(SubMapSem, rest);
      AcquiresNone(rest);
      assert Found(c, ix) == [Acquire(SubMapSem)] + rest;
  }

  lemma CopyAllAcquires(s: Sem, seg: seq<Instr>)
    requires forall i :: i in seg ==> !i.Acquire?
    ensures Acquires([Acquire(s)] + (seg + [Release(s)])) == [s]
  {
    hide Acquires;
    AcquiresFirst(s, seg + [Release(s)]);
    AcquiresSkip(seg, [Release(s)]);
    AcquiresNone([Release(s)]);
  }

  /** A call that does not look for a device has its semaphores laid out from the start. */
  lemma FixedAcquires(c: Call, l: Local)
    requires CallOk(c) && (c.Disconnect? || c.GetSub? || c.GetCmd? || c.GetIds? || c.GetCat?)
    ensures Acquires(Program(c)) == Due(c, l) && NoSearch(Program(c))
  {
    hide Acquires, SubRows, CmdRows, IdRows;
    RowsNoSubSem(0);
    SubRowsNoSubs(1);
    match c
    case Disconnect(ix) =>
      var rest := [CatOff(ix), CmdOff0(ix), CmdClear(ix), Release(CmdMapSem), Release(DataSem(ix)), Release(CommandSem(ix)), Release(CatalogSem)];
      AcquiresNone(rest);
      AcquiresFirst(CmdMapSem, rest);
      AcquiresFirst(CommandSem(ix), [Acquire(CmdMapSem)] + rest);
      AcquiresFirst(DataSem(ix), [Acquire(CommandSem(ix))] + ([Acquire(CmdMapSem)] + rest));
      AcquiresFirst(CatalogSem, [Acquire(DataSem(ix))] + ([Acquire(CommandSem(ix))] + ([Acquire(CmdMapSem)] + rest)));
      assert Program(c) == [Acquire(CatalogSem)] + ([Acquire(DataSem(ix))] + ([Acquire(CommandSem(ix))] + ([Acquire(CmdMapSem)] + rest)));
    case GetSub(p, _) =>
      var rest := [SubHead] + (SubRows(1) + SubTail(p));
      AcquiresNone(rest);
      AcquiresFirst(SubMapSem, rest);
      assert Program(c) == [Acquire(SubMapSem)] + rest;
    case GetCmd(_) => CopyAllAcquires(CmdMapSem, CmdRows(0));
    case GetIds(_) => CopyAllAcquires(CatalogSem, IdRows(0));
    case GetCat(_) =>
      CopyAllAcquires(CatalogSem, [CatGet]);
      assert Program(c) == [Acquire(CatalogSem)] + ([CatGet] + [Release(CatalogSem)]);
  }

  predicate NoSearch(todo: seq<Instr>) { forall i :: i in todo ==> !(i.IfConnected? || i.SeekUid? || i.SeekId? || i.SeekFree?) }

  // ------------------------------------------------------------------ what a call has seen

  /** The semaphore thread `t` takes in a move. */
  function TakenBy(c: Config, m: Move, t: nat): (r: seq<Sem>)
  {
    if m == Go(t) && IsBusy(c, t) && c.threads[t].todo != [] && c.threads[t].todo[0].Acquire? then [c.threads[t].todo[0].s] else []
  }

  /** The semaphores thread `t` takes in the moves from `s` to `n`. */
  function Took(cs: seq<Config>, ms: seq<Move>, t: nat, s: nat, n: nat): (r: seq<Sem>)
    requires s <= n <= |ms| && n <= |cs|
    decreases n
  {
    if n == s then [] else Took(cs, ms, t, s, n - 1) + TakenBy(cs[n - 1], ms[n - 1], t)
  }

  /** At some point from `s` to `n` slot `k` did not hold the device. */
  ghost predicate Rejected(cs: seq<Config>, s: nat, n: nat, uid: nat, k: nat)
    requires n <= |cs| && k < MAX_DEVICES
  {
    exists j :: s <= j < n && (k !in cs[j].block.catalog || cs[j].block.ids[k].uid != uid)
  }

  ghost predicate CatalogHad(cs: seq<Config>, s: nat, n: nat, k: nat)
    requires n <= |cs|
  {
    exists j :: s <= j < n && k in cs[j].block.catalog
  }

  /** Slot `k` was in the catalog and later had the device's unique id. */
  ghost predicate Matched(cs: seq<Config>, s: nat, n: nat, uid: nat, k: nat)
    requires n <= |cs| && k < MAX_DEVICES
  {
    exists j :: s <= j < n && cs[j].block.ids[k].uid == uid && CatalogHad(cs, s, j, k)
  }

  ghost predicate WasFull(cs: seq<Config>, s: nat, n: nat)
    requires n <= |cs|
  {
    exists j :: s <= j < n && cs[j].block.catalog == ALL_BITS
  }

  /** At one point the slot was there exactly if the call succeeded. */
  ghost predicate TestedAt(cs: seq<Config>, s: nat, n: nat, ix: nat, ok: bool)
    requires n <= |cs|
  {
    exists j :: s <= j < n && (ok <==> ix in cs[j].block.catalog)
  }

  /** Not a request by a process that may place none. */
  predicate Subscribes(c: Call) { c.PlaceSub? ==> Subscriber(c.proc) }

  /** The answer of a call follows from what it saw between `s` and `n`. */
  ghost predicate Justified(cs: seq<Config>, s: nat, n: nat, c: Call, l: Local)
    requires n <= |cs|
  {
    if c.Read? || c.Write? then (l.code == 0 || l.code == -1) && l.ix == c.ix && TestedAt(cs, s, n, c.ix, l.code == 0)
    else if !Subscribes(c) then l.code == -1
    else if ByUid(c) then
      || (l.code == 0 && 0 <= l.ix < MAX_DEVICES && Matched(cs, s, n, c.uid, l.ix))
      || (l.code == -1 && forall k: nat :: k < MAX_DEVICES ==> Rejected(cs, s, n, c.uid, k))
    else if c.Connect? then l.ix < 0 ==> WasFull(cs, s, n)
    else true
  }

  lemma JustifiedLater(cs: seq<Config>, s: nat, n: nat, c: Call, l: Local)
    requires n < |cs| && Justified(cs, s, n, c, l)
    ensures Justified(cs, s, n + 1, c, l)
  {
    hide Rejected, Matched;
    if c.Read? || c.Write? {
      var j :| s <= j < n && (l.code == 0 <==> c.ix in cs[j].block.catalog);
      assert s <= j < n + 1 && (l.code == 0 <==> c.ix in cs[j].block.catalog);
    } else if ByUid(c) {
      if l.code == 0 {
        if Subscribes(c) { MatchedLater(cs, s, n, c.uid, l.ix); }
      } else if Subscribes(c) {
        var later := n + 1;
        forall k: nat | k < MAX_DEVICES ensures Rejected(cs, s, later, c.uid, k) { RejectedLater(cs, s, n, c.uid, k); }
      }
    }
  }

  lemma MatchedLater(cs: seq<Config>, s: nat, n: nat, uid: nat, k: nat)
    requires n < |cs| && k < MAX_DEVICES && Matched(cs, s, n, uid, k)
    ensures Matched(cs, s, n + 1, uid, k)
  {
    var j :| s <= j < n && cs[j].block.ids[k].uid == uid && CatalogHad(cs, s, j, k);
    assert s <= j < n + 1 && cs[j].block.ids[k].uid == uid && CatalogHad(cs, s, j, k);
  }

  lemma RejectedLater(cs: seq<Config>, s: nat, n: nat, uid: nat, k: nat)
    requires n < |cs| && k < MAX_DEVICES && Rejected(cs, s, n, uid, k)
    ensures Rejected(cs, s, n + 1, uid, k)
  {
    var j :| s <= j < n && (k !in cs[j].block.catalog || cs[j].block.ids[k].uid != uid);
    assert s <= j < n + 1 && (k !in cs[j].block.catalog || cs[j].block.ids[k].uid != uid);
  }

  // ------------------------------------------------------------------ stages of a call

  /** A call by unique id is looking at slot `todo[0].i`: every slot below was seen without the device. */
  ghost predicate Seeking(cs: seq<Config>, s: nat, n: nat, c: Call, todo: seq<Instr>)
    requires n <= |cs| && ByUid(c)
  {
    && |todo| == 1 && (todo[0].SeekUid? || todo[0].SeekId?) && todo[0].i <= MAX_DEVICES
    && (todo[0].SeekId? ==> todo[0].i < MAX_DEVICES && CatalogHad(cs, s, n, todo[0].i))
    && forall k: nat :: k < todo[0].i && k < MAX_DEVICES ==> Rejected(cs, s, n, c.uid, k)
  }

  /** Not decided yet: nothing has been taken but, by a connect, the catalog. */
  ghost predicate Undecided(cs: seq<Config>, s: nat, n: nat, th: Thread, took: seq<Sem>)
    requires n <= |cs| && th.Busy?
  {
    var c, todo, l := th.call, th.todo, th.local;
    && CallOk(c) && l.code == 0
    && if c.Read? || c.Write? then todo == Program(c) && l.ix == c.ix && took == []
       else if ByUid(c) then Subscribes(c) && Seeking(cs, s, n, c, todo) && took == []
       else
         && c.Connect? && l.ix < 0
         && (|| (todo == [Acquire(CatalogSem), SeekFree(0), Release(CatalogSem)] && took == [])
             || (|todo| == 2 && todo[0].SeekFree? && todo[1] == Release(CatalogSem) && took == [CatalogSem]))
  }

  /** Decided: what has been taken and what is left to take make up what the answer calls for. */
  ghost predicate Settled(cs: seq<Config>, s: nat, n: nat, th: Thread, took: seq<Sem>)
    requires n <= |cs| && th.Busy?
  {
    && CallOk(th.call) && NoSearch(th.todo) && took + Acquires(th.todo) == Due(th.call, th.local) && Justified(cs, s, n, th.call, th.local)
    && (th.call.GetSub? ==> th.todo == Program(th.call) || Acquires(th.todo) == [])
  }

  /** Thread `t` has been in its call since configuration `s`. */
  ghost predicate InStage(cs: seq<Config>, ms: seq<Move>, s: nat, n: nat, t: nat)
    requires n < |cs| == |ms| + 1
  {
    && 0 < s <= n && IsBusy(cs[n], t) && CallOk(cs[n].threads[t].call) && ms[s - 1] == Start(t, cs[n].threads[t].call)
    && InCall(cs, t, cs[n].threads[t].call, s, n)
    && var took := Took(cs, ms, t, s, n);
       Undecided(cs, s, n, cs[n].threads[t], took) || Settled(cs, s, n, cs[n].threads[t], took)
  }

  lemma {:induction false} BeginsWell(cs: seq<Config>, s: nat, n: nat, c: Call, th: Thread)
    requires n <= |cs| && CallOk(c) && th.Busy? && th.call == c && th.todo == Program(c) && th.local == StartLocal(c)
    ensures Undecided(cs, s, n, th, []) || Settled(cs, s, n, th, [])
  {
    hide Acquires, ReadProgram, WriteProgram, DisconnectProgram, SubRows, CmdRows, IdRows;
    if c.Disconnect? || c.GetSub? || c.GetCmd? || c.GetIds? || c.GetCat? {
      FixedAcquires(c, th.local);
      assert [] + Acquires(th.todo) == Acquires(th.todo);
    } else if c.PlaceSub? && !Subscriber(c.proc) {
      AcquiresNone([]);
      assert th.todo == [] && Settled(cs, s, n, th, []);
    } else if ByUid(c) {
      assert th.todo == [SeekUid(0)];
    }
  }

  // ------------------------------------------------------------------ a step in the search

  lemma {:induction false} SeekStep(cs: seq<Config>, s: nat, n: nat, c: Call, todo: seq<Instr>, l: Local)
    requires s <= n < |cs| && CallOk(c) && LocalOk(c, l) && ByUid(c) && Subscribes(c) && l.code == 0 && Seeking(cs, s, n, c, todo)
    ensures InstrOk(c, todo[0])
    ensures var b := cs[n].block;
            var todo', l' := ExecTodo(c, todo, b), ExecLocal(c, todo[0], l, b);
            || (l'.code == 0 && Seeking(cs, s, n + 1, c, todo'))
            || (NoSearch(todo') && Acquires(todo') == Due(c, l') && Justified(cs, s, n + 1, c, l'))
  {
    hide Acquires, Found, Rejected, Matched, CatalogHad;
    var b, i, later := cs[n].block, todo[0].i, n + 1;
    assert todo[1..] == [];
    forall k: nat | k < i && k < MAX_DEVICES ensures Rejected(cs, s, later, c.uid, k) { RejectedLater(cs, s, n, c.uid, k); }
    if todo[0].SeekUid? {
      if i == MAX_DEVICES {
        AcquiresNone([]);
      } else if i in b.catalog {
        HadNow(cs, s, n, i);
        assert ExecTodo(c, todo, b) == [SeekId(i)];
      } else {
        RejectedNow(cs, s, n, c.uid, i);
        assert ExecTodo(c, todo, b) == [SeekUid(i + 1)];
      }
    } else if b.ids[i].uid == c.uid {
      MatchedNow(cs, s, n, c.uid, i);
      FoundAcquires(c, i, ExecLocal(c, todo[0], l, b));
      FoundNoSearch(c, i);
    } else {
      RejectedNow(cs, s, n, c.uid, i);
      assert ExecTodo(c, todo, b) == [SeekUid(i + 1)];
    }
  }

  lemma HadNow(cs: seq<Config>, s: nat, n: nat, k: nat)
    requires s <= n < |cs| && k in cs[n].block.catalog
    ensures CatalogHad(cs, s, n + 1, k)
  {
  }

  lemma RejectedNow(cs: seq<Config>, s: nat, n: nat, uid: nat, k: nat)
    requires s <= n < |cs| && k < MAX_DEVICES && (k !in cs[n].block.catalog || cs[n].block.ids[k].uid != uid)
    ensures Rejected(cs, s, n + 1, uid, k)
  {
  }

  lemma MatchedNow(cs: seq<Config>, s: nat, n: nat, uid: nat, k: nat)
    requires s <= n < |cs| && k < MAX_DEVICES && CatalogHad(cs, s, n, k) && cs[n].block.ids[k].uid == uid
    ensures Matched(cs, s, n + 1, uid, k)
  {
  }

  lemma {:induction false} FoundNoSearch(c: Call, ix: nat)
    requires CallOk(c) && ByUid(c)
    ensures NoSearch(Found(c, ix))
  {
    hide CopyOuts, CopyIns;
    match c
    case ReadUid(_, p, st, mask, _) => CopyOutsNoSub(st, ix, mask, 0);
    case WriteUid(_, p, st, mask, vals) => CopyInsNoSub(st, ix, mask, vals, 0);
    case PlaceSub(_, _, _) =>
  }

  /** The catalog test of device_read and device_write. */
  lemma {:induction false} TestStep(cs: seq<Config>, s: nat, n: nat, c: Call, l: Local)
    requires s <= n < |cs| && CallOk(c) && LocalOk(c, l) && (c.Read? || c.Write?) && l.code == 0 && l.ix == c.ix
    ensures var b, todo := cs[n].block, Program(c);
            && todo != [] && todo[0] == IfConnected(c.ix)
            && var todo', l' := ExecTodo(c, todo, b), ExecLocal(c, todo[0], l, b);
               NoSearch(todo') && Acquires(todo') == Due(c, l') && Justified(cs, s, n + 1, c, l')
  {
    hide Acquires, ReadProgram, WriteProgram;
    var b, todo := cs[n].block, Program(c);
    AcquiresNone([]);
    var work := if c.Read? then ReadProgram(c.ix, c.proc, c.stream, c.mask) else WriteProgram(c.ix, c.proc, c.stream, c.mask, c.vals);
    assert todo == [IfConnected(c.ix)] + work && todo[1..] == work;
    if c.Read? { ReadAcquires(c, c.ix); } else { WriteAcquires(c, c.ix); }
    WorkNoSearch(c);
    assert s <= n < n + 1 && (c.ix in b.catalog <==> ExecLocal(c, todo[0], l, b).code == 0);
  }

  lemma {:induction false} WorkNoSearch(c: Call)
    requires CallOk(c) && (c.Read? || c.Write?)
    ensures c.Read? ==> NoSearch(ReadProgram(c.ix, c.proc, c.stream, c.mask))
    ensures c.Write? ==> NoSearch(WriteProgram(c.ix, c.proc, c.stream, c.mask, c.vals))
  {
    hide CopyOuts, CopyIns;
    if c.Read? { CopyOutsNoSub(c.stream, c.ix, c.mask, 0); } else { CopyInsNoSub(c.stream, c.ix, c.mask, c.vals, 0); }
  }

  /** One turn of a connect's search, the slots passed being taken. */
  lemma {:induction false} FreeStep(cs: seq<Config>, s: nat, n: nat, c: Call, todo: seq<Instr>, l: Local)
    requires s <= n < |cs| && CallOk(c) && LocalOk(c, l) && c.Connect? && l.ix < 0
    requires |todo| == 2 && todo[0].SeekFree? && todo[1] == Release(CatalogSem) && todo[0].i <= MAX_DEVICES
    requires forall j :: 0 <= j < todo[0].i ==> j in cs[n].block.catalog
    ensures var todo', l' := ExecTodo(c, todo, cs[n].block), ExecLocal(c, todo[0], l, cs[n].block);
            || (l'.ix < 0 && |todo'| == 2 && todo'[0].SeekFree? && todo'[1] == Release(CatalogSem) && l'.code == l.code)
            || (NoSearch(todo') && [CatalogSem] + Acquires(todo') == Due(c, l') && Justified(cs, s, n + 1, c, l'))
  {
    hide Acquires, ConnectAt;
    var b, i := cs[n].block, todo[0].i;
    assert todo[1..] == [Release(CatalogSem)];
    if i == MAX_DEVICES {
      AcquiresNone(todo[1..]);
      assert b.catalog == ALL_BITS;
      assert WasFull(cs, s, n + 1);
    } else if i !in b.catalog {
      ConnectAcquires(i, c.id);
      ConnectNoSearch(i, c.id);
    }
  }

  lemma {:induction false} ConnectNoSearch(ix: nat, id: DevId)
    ensures NoSearch(ConnectAt(ix, id))
  {
    hide ConnectAt;
    forall x | x in ConnectAt(ix, id) ensures ByConnect(x, ix, id) { ConnectStraight(ix, id, x); }
  }

  // ------------------------------------------------------------------ a step after the decision

  lemma {:induction false} SettledStep(cs: seq<Config>, s: nat, n: nat, th: Thread, took: seq<Sem>)
    requires s <= n < |cs| && th.Busy? && th.todo != [] && ThreadOk(th) && Settled(cs, s, n, th, took)
    ensures InstrOk(th.call, th.todo[0])
    ensures var b, i := cs[n].block, th.todo[0];
            var th' := Busy(th.call, ExecTodo(th.call, th.todo, b), ExecLocal(th.call, i, th.local, b), th.started, th.took);
            Settled(cs, s, n + 1, th', took + if i.Acquire? then [i.s] else [])
  {
    hide Sound, HeldOf, Acquires, Justified, Program, ExecBlock;
    var c, todo, l, b, i := th.call, th.todo, th.local, cs[n].block, th.todo[0];
    SoundParts(c, todo);
    assert i in todo;
    AcquiresStep(todo);
    JustifiedLater(cs, s, n, c, l);
    var l', todo' := ExecLocal(c, i, l, b), ExecTodo(c, todo, b);
    LocalKept(c, i, l, b);
    JustifiedSame(cs, s, n + 1, c, l, l');
    if c.GetSub? { GetSubTail(c, b); }
    StepAcquires(c, todo, b);
    var mine := if i.Acquire? then [i.s] else [];
    assert took + (mine + Acquires(todo[1..])) == took + mine + Acquires(todo[1..]);
  }

  /** Outside a search the return value and the slot stay. */
  lemma LocalKept(c: Call, i: Instr, l: Local, b: Shared)
    requires CallOk(c) && InstrOk(c, i) && LocalOk(c, l) && !(i.IfConnected? || i.SeekUid? || i.SeekId? || i.SeekFree?)
    ensures ExecLocal(c, i, l, b).code == l.code && ExecLocal(c, i, l, b).ix == l.ix
  {
  }

  lemma JustifiedSame(cs: seq<Config>, s: nat, n: nat, c: Call, l: Local, l': Local)
    requires n <= |cs| && Justified(cs, s, n, c, l) && l'.code == l.code && l'.ix == l.ix
    ensures Justified(cs, s, n, c, l') && Due(c, l') == Due(c, l)
  {
    hide Rejected, Matched, TestedAt, WasFull;
  }

  /** What a branch leaves to take is what stood behind it. */
  lemma {:induction false} StepAcquires(c: Call, todo: seq<Instr>, b: Shared)
    requires CallOk(c) && todo != [] && InstrOk(c, todo[0]) && NoSearch(todo)
    requires todo[0].SubHead? ==> Acquires(todo) == []
    ensures Acquires(ExecTodo(c, todo, b)) == Acquires(todo[1..]) && NoSearch(ExecTodo(c, todo, b))
  {
    hide Acquires;
    var i, rest := todo[0], todo[1..];
    assert i in todo;
    AcquiresStep(todo);
    if i.SubCompare? {
      AcquiresSkip([SubPut(i.ix), SubRaise(i.ix)], rest);
    } else if i.SubHead? {
      AcquiresNone([Release(SubMapSem)]);
    }
  }

  lemma GetSubTail(c: Call, b: Shared)
    requires CallOk(c) && c.GetSub?
    ensures var todo := Program(c); todo[0] == Acquire(SubMapSem) && InstrOk(c, todo[0]) && Acquires(ExecTodo(c, todo, b)) == []
  {
    hide SubRows, Acquires;
    SubRowsNoSubs(1);
    var rest := [SubHead] + (SubRows(1) + SubTail(c.proc));
    assert Program(c) == [Acquire(SubMapSem)] + rest && Program(c)[1..] == rest;
    AcquiresNone(rest);
  }

  // ------------------------------------------------------------------ every execution

  lemma InCallStep(cs: seq<Config>, t: nat, c: Call, s: nat, n: nat)
    requires n + 1 < |cs| && InCall(cs, t, c, s, n) && IsBusy(cs[n + 1], t) && cs[n + 1].threads[t].call == c
    ensures InCall(cs, t, c, s, n + 1)
  {
  }

  /** Another thread's move. */
  lemma {:induction false} StageKept(cs: seq<Config>, ms: seq<Move>, s: nat, n: nat, t: nat)
    requires n + 1 < |cs| == |ms| + 1 && InStage(cs, ms, s, n, t) && ms[n] != Go(t) && IsBusy(cs[n + 1], t)
    requires cs[n + 1].threads[t] == cs[n].threads[t]
    ensures InStage(cs, ms, s, n + 1, t)
  {
    hide Justified, Rejected, CatalogHad, Acquires, Program, NoSearch, InCall;
    var th, took := cs[n].threads[t], Took(cs, ms, t, s, n);
    InCallStep(cs, t, th.call, s, n);
    assert took + [] == took;
    if Settled(cs, s, n, th, took) {
      JustifiedLater(cs, s, n, th.call, th.local);
    } else if ByUid(th.call) {
      SeekingLater(cs, s, n, th.call, th.todo);
    }
  }

  lemma {:induction false} SeekingLater(cs: seq<Config>, s: nat, n: nat, c: Call, todo: seq<Instr>)
    requires n < |cs| && ByUid(c) && Seeking(cs, s, n, c, todo)
    ensures Seeking(cs, s, n + 1, c, todo)
  {
    hide Rejected;
    var later := n + 1;
    forall k: nat | k < todo[0].i && k < MAX_DEVICES ensures Rejected(cs, s, later, c.uid, k) { RejectedLater(cs, s, n, c.uid, k); }
    if todo[0].SeekId? {
      var j :| s <= j < n && todo[0].i in cs[j].block.catalog;
      assert s <= j < later && todo[0].i in cs[j].block.catalog;
    }
  }

  /** The thread's own step before it has decided. */
  lemma {:induction false} UndecidedStep(cs: seq<Config>, s: nat, n: nat, t: nat, took: seq<Sem>)
    requires s <= n < |cs| && CanStep(cs[n], t) && ThreadOk(cs[n].threads[t]) && Undecided(cs, s, n, cs[n].threads[t], took)
    requires cs[n].threads[t].call.Connect? ==> Searching(cs[n].block, cs[n].threads[t])
    ensures var th, th' := cs[n].threads[t], Advance(cs[n], t).threads[t];
            && th.todo != [] && th'.Busy?
            && var took' := took + if th.todo[0].Acquire? then [th.todo[0].s] else [];
               Undecided(cs, s, n + 1, th', took') || Settled(cs, s, n + 1, th', took')
  {
    hide Sound, HeldOf, Acquires, Program, Seeking, Justified, NoSearch, ExecBlock, ConnectAt;
    var c := cs[n];
    var th := c.threads[t];
    var call, todo, l := th.call, th.todo, th.local;
    if call.Read? || call.Write? {
      TestStep(cs, s, n, call, l);
      EmptyFront(took, ExecTodo(call, todo, c.block));
    } else if ByUid(call) {
      SeekHead(cs, s, n, call, todo);
      SeekStep(cs, s, n, call, todo, l);
      EmptyFront(took, ExecTodo(call, todo, c.block));
    } else if todo[0].SeekFree? {
      FreeStep(cs, s, n, call, todo, l);
      assert took + [] == took;
    } else {
      assert todo[1..] == [SeekFree(0), Release(CatalogSem)];
    }
  }

  lemma EmptyFront(took: seq<Sem>, todo: seq<Instr>)
    requires took == []
    ensures took + [] == [] && took + [] + Acquires(todo) == Acquires(todo)
  {
  }

  lemma SeekHead(cs: seq<Config>, s: nat, n: nat, c: Call, todo: seq<Instr>)
    requires n <= |cs| && ByUid(c) && Seeking(cs, s, n, c, todo)
    ensures todo != [] && !todo[0].Acquire?
  {
  }

  /** The thread's own step. */
  lemma {:induction false} StageStep(cs: seq<Config>, ms: seq<Move>, s: nat, n: nat, t: nat)
    requires Execution(cs, ms) && n + 1 < |cs| && InStage(cs, ms, s, n, t) && ms[n] == Go(t) && cs[n].threads[t].todo != []
    ensures InStage(cs, ms, s, n + 1, t)
  {
    hide Sound, HeldOf, Undecided, Settled, Searching, Slotless, InCall, ExecBlock, ExecTodo, ExecLocal, Init, SemsOk;
    assert Next(cs[n], ms[n], cs[n + 1]);
    var th, took := cs[n].threads[t], Took(cs, ms, t, s, n);
    InCallStep(cs, t, th.call, s, n);
    if Undecided(cs, s, n, th, took) {
      if th.call.Connect? { SearchProgress(cs, ms, n, t); }
      UndecidedStep(cs, s, n, t, took);
    } else {
      SettledStep(cs, s, n, th, took);
      var th' := cs[n + 1].threads[t];
      SettledThread(cs, s, n + 1, Busy(th.call, th'.todo, th'.local, th.started, th.took), th',
                    took + if th.todo[0].Acquire? then [th.todo[0].s] else []);
    }
  }

  lemma SettledThread(cs: seq<Config>, s: nat, n: nat, th: Thread, th': Thread, took: seq<Sem>)
    requires n <= |cs| && th.Busy? && th'.Busy? && Settled(cs, s, n, th, took)
    requires th'.call == th.call && th'.todo == th.todo && th'.local == th.local
    ensures Settled(cs, s, n, th', took)
  {
  }

  lemma {:induction false} CallBegins(cs: seq<Config>, ms: seq<Move>, n: nat, t: nat)
    requires 0 < n < |cs| == |ms| + 1 && ms[n - 1].Start? && ms[n - 1].t == t && Next(cs[n - 1], ms[n - 1], cs[n])
    ensures InStage(cs, ms, n, n, t)
  {
    hide Program, Undecided, Settled;
    BeginsWell(cs, n, n, ms[n - 1].call, cs[n].threads[t]);
  }

  lemma {:induction false} StageAlways(cs: seq<Config>, ms: seq<Move>, n: nat, t: nat) returns (s: nat)
    requires Execution(cs, ms) && n < |cs| && IsBusy(cs[n], t)
    ensures InStage(cs, ms, s, n, t)
  {
    hide InStage, SemsOk, Sound, ExecBlock, ExecTodo, ExecLocal, Program;
    NobodyBusy(cs[0], t);
    assert Next(cs[n - 1], ms[n - 1], cs[n]);
    if ms[n - 1].Start? && ms[n - 1].t == t {
      s := n;
      CallBegins(cs, ms, n, t);
    } else {
      s := StageAlways(cs, ms, n - 1, t);
      if ms[n - 1] == Go(t) { StageStep(cs, ms, s, n - 1, t); } else { StageKept(cs, ms, s, n - 1, t); }
    }
  }

  /** Every call that has returned started at a move `s` and returned at a move `f`, took in between exactly the
      semaphores its answer calls for, in their order, and its answer follows from what it saw in between: a read
      or write by index succeeds exactly if the device was in the catalog at one instant; a call by unique id
      succeeds only if its slot was in the catalog and then had the id, and fails only if each slot at some
      instant did not hold the device; a connect fails only if the catalog was full. */
  lemma {:induction false} EveryAnswer(cs: seq<Config>, ms: seq<Move>, n: nat, k: nat) returns (s: nat, f: nat)
    requires Execution(cs, ms) && n < |cs| && k < |cs[n].done|
    ensures var d := cs[n].done[k];
            && s < f < n && ms[s] == Start(d.tid, d.call) && ms[f] == Go(d.tid) && InCall(cs, d.tid, d.call, s + 1, f)
            && IsBusy(cs[f], d.tid) && cs[f].threads[d.tid].local == d.local
            && Took(cs, ms, d.tid, s + 1, f) == Due(d.call, d.local) && Justified(cs, s + 1, f, d.call, d.local)
  {
    hide Next, Init, Took, Justified, Due, InCall, Program, Seeking, NoSearch;
    f := ReturnedAt(cs, ms, n, k);
    var d := cs[n].done[k];
    var start := StageAlways(cs, ms, f, d.tid);
    s := start - 1;
    var took := Took(cs, ms, d.tid, start, f);
    NotUndecided(cs, start, f, cs[f].threads[d.tid], took);
    AcquiresNone([]);
    assert took + [] == took;
  }

  lemma NotUndecided(cs: seq<Config>, s: nat, n: nat, th: Thread, took: seq<Sem>)
    requires n <= |cs| && th.Busy? && th.todo == []
    ensures !Undecided(cs, s, n, th, took)
  {
    hide ReadProgram, WriteProgram;
  }

  // ------------------------------------------------------------------ what is logged for it

  lemma {:induction false} TookAt(cs: seq<Config>, ms: seq<Move>, t: nat, s: nat, n: nat, i: nat) returns (j: nat)
    requires s <= n <= |ms| && n <= |cs| && i < |Took(cs, ms, t, s, n)|
    ensures s <= j < n && TakenBy(cs[j], ms[j], t) == [Took(cs, ms, t, s, n)[i]] && |Took(cs, ms, t, s, j)| == i
    decreases n
  {
    hide TakenBy;
    TakenOnce(cs[n - 1], ms[n - 1], t);
    if i < |Took(cs, ms, t, s, n - 1)| { j := TookAt(cs, ms, t, s, n - 1, i); } else { j := n - 1; }
  }

  lemma TakenOnce(c: Config, m: Move, t: nat)
    ensures |TakenBy(c, m, t)| <= 1
  {
  }

  lemma {:induction false} TookThere(cs: seq<Config>, ms: seq<Move>, t: nat, s: nat, j: nat, n: nat)
    requires s <= j < n <= |ms| && n <= |cs| && TakenBy(cs[j], ms[j], t) != []
    ensures |Took(cs, ms, t, s, j)| < |Took(cs, ms, t, s, n)|
    ensures [Took(cs, ms, t, s, n)[|Took(cs, ms, t, s, j)|]] == TakenBy(cs[j], ms[j], t)
    decreases n
  {
    hide TakenBy;
    TakenOnce(cs[j], ms[j], t);
    if j < n - 1 { TookThere(cs, ms, t, s, j, n - 1); }
  }

  /** No semaphore is taken twice by a call. */
  lemma DueDistinct(c: Call, l: Local, i: nat, j: nat)
    requires i < j < |Due(c, l)|
    ensures Due(c, l)[i] != Due(c, l)[j]
  {
  }

  lemma {:induction false} NoSearchStep(c: Call, todo: seq<Instr>, l: Local, b: Shared)
    requires CallOk(c) && LocalOk(c, l) && todo != [] && InstrOk(c, todo[0]) && NoSearch(todo)
    ensures NoSearch(ExecTodo(c, todo, b)) && ExecLocal(c, todo[0], l, b).ix == l.ix
  {
    assert todo[0] in todo;
  }

  /** Once it has decided, a call keeps its slot. */
  lemma {:induction false} SlotKeptSince(cs: seq<Config>, ms: seq<Move>, t: nat, c: Call, j: nat, n: nat)
    requires Execution(cs, ms) && j <= n < |cs| && InCall(cs, t, c, j, n) && IsBusy(cs[j], t) && NoSearch(cs[j].threads[t].todo)
    ensures IsBusy(cs[n], t) && NoSearch(cs[n].threads[t].todo) && cs[n].threads[t].local.ix == cs[j].threads[t].local.ix
    decreases n
  {
    hide NoSearch, Sound, ExecBlock, ExecTodo, ExecLocal, HeldOf;
    if j < n {
      assert InCall(cs, t, c, j, n - 1);
      SlotKeptSince(cs, ms, t, c, j, n - 1);
      assert Next(cs[n - 1], ms[n - 1], cs[n]);
      var th := cs[n - 1].threads[t];
      if ms[n - 1] == Go(t) && th.todo != [] {
        SoundParts(th.call, th.todo);
        NoSearchStep(th.call, th.todo, th.local, cs[n - 1].block);
      }
    }
  }

  /** Thread `t` is about to take semaphore `x`. */
  predicate Takes(c: Config, m: Move, t: nat, x: Sem) { TakenBy(c, m, t) == [x] }

  /** A thread that takes the subscription maps or a stream has decided. */
  lemma {:induction false} TakesSettled(cs: seq<Config>, ms: seq<Move>, s: nat, n: nat, t: nat, x: Sem)
    requires n < |ms| && |cs| == |ms| + 1 && InStage(cs, ms, s, n, t) && Takes(cs[n], ms[n], t, x) && (IsStreamSem(x) || x == SubMapSem)
    ensures NoSearch(cs[n].threads[t].todo)
  {
    hide Justified, Acquires, ReadProgram, WriteProgram, Rejected, CatalogHad, Took, InCall;
  }

  lemma TakingLogs(c: Config, m: Move, c': Config, t: nat, x: Sem)
    requires Next(c, m, c') && Takes(c, m, t, x)
    ensures IsBusy(c, t)
    ensures IsStreamSem(x) ==> c'.log == c.log + [Access(t, c.threads[t].call, StreamOf(x), x.ix)]
    ensures x == SubMapSem ==> SubTaken(c, m) == [SubAccess(t, c.threads[t].call, c.threads[t].local.ix)]
  {
    hide Sound, ExecBlock, ExecTodo, ExecLocal, HeldOf;
  }

  /** A completed call is in the logs for exactly the streams and subscription maps its answer calls for, once
      each, at a step `j` between its start and its end: a write that returns 0 has reached its stream, one that
      returns -1 has not, and likewise for requests, connects and disconnects. */
  lemma {:induction false} LoggedAsDue(cs: seq<Config>, ms: seq<Move>, n: nat, k: nat, x: Sem) returns (s: nat, j: nat, f: nat)
    requires Execution(cs, ms) && n < |cs| && k < |cs[n].done| && (IsStreamSem(x) || x == SubMapSem)
    ensures var d := cs[n].done[k];
            && s < f < n && ms[s] == Start(d.tid, d.call) && ms[f] == Go(d.tid) && InCall(cs, d.tid, d.call, s + 1, f)
            && (x in Due(d.call, d.local) ==>
                  && s < j < f && ms[j] == Go(d.tid)
                  && (IsStreamSem(x) ==> cs[j + 1].log == cs[j].log + [Access(d.tid, d.call, StreamOf(x), x.ix)])
                  && (x == SubMapSem ==> SubTaken(cs[j], ms[j]) == [SubAccess(d.tid, d.call, d.local.ix)]))
            && (forall i :: s < i < f && Takes(cs[i], ms[i], d.tid, x) ==> i == j && x in Due(d.call, d.local))
  {
    hide Next, Init, Took, Justified, Due, InStage, TakenBy;
    s, f := EveryAnswer(cs, ms, n, k);
    var d := cs[n].done[k];
    var t, took := d.tid, Took(cs, ms, d.tid, s + 1, f);
    j := 0;
    if x in Due(d.call, d.local) {
      var i :| 0 <= i < |took| && took[i] == x;
      j := TookAt(cs, ms, t, s + 1, f, i);
      Reached(cs, ms, n, k, s, j, f, x);
      forall m | s < m < f && Takes(cs[m], ms[m], t, x) ensures m == j { SamePlace(cs, ms, t, s + 1, j, m, f, x, d.call, d.local); }
    } else {
      forall m | s < m < f ensures !Takes(cs[m], ms[m], t, x) { NotTaken(cs, ms, t, s + 1, m, f, x); }
    }
  }

  lemma {:induction false} Reached(cs: seq<Config>, ms: seq<Move>, n: nat, k: nat, s: nat, j: nat, f: nat, x: Sem)
    requires Execution(cs, ms) && n < |cs| && k < |cs[n].done| && (IsStreamSem(x) || x == SubMapSem)
    requires var d := cs[n].done[k]; s < j < f < n && InCall(cs, d.tid, d.call, s + 1, f) && TakenBy(cs[j], ms[j], d.tid) == [x]
    requires var d := cs[n].done[k]; ms[f] == Go(d.tid) && IsBusy(cs[f], d.tid) && cs[f].threads[d.tid].local == d.local
    ensures var d := cs[n].done[k];
            && ms[j] == Go(d.tid)
            && (IsStreamSem(x) ==> cs[j + 1].log == cs[j].log + [Access(d.tid, d.call, StreamOf(x), x.ix)])
            && (x == SubMapSem ==> SubTaken(cs[j], ms[j]) == [SubAccess(d.tid, d.call, d.local.ix)])
  {
    hide InStage, Init, Next, NoSearch;
    var d := cs[n].done[k];
    assert IsBusy(cs[j], d.tid) && cs[j].threads[d.tid].call == d.call;
    var start := StageAlways(cs, ms, j, d.tid);
    TakesSettled(cs, ms, start, j, d.tid, x);
    SlotKeptSince(cs, ms, d.tid, d.call, j, f);
    TakingLogs(cs[j], ms[j], cs[j + 1], d.tid, x);
  }

  lemma {:induction false} SamePlace(cs: seq<Config>, ms: seq<Move>, t: nat, s: nat, j: nat, m: nat, n: nat, x: Sem, c: Call, l: Local)
    requires s <= j < n <= |ms| && s <= m < n <= |cs| && Took(cs, ms, t, s, n) == Due(c, l)
    requires Takes(cs[j], ms[j], t, x) && Takes(cs[m], ms[m], t, x)
    ensures m == j
  {
    hide Took, TakenBy, Due;
    var i, k := |Took(cs, ms, t, s, j)|, |Took(cs, ms, t, s, m)|;
    TookThere(cs, ms, t, s, j, n);
    TookThere(cs, ms, t, s, m, n);
    if i < k { DueDistinct(c, l, i, k); } else if k < i { DueDistinct(c, l, k, i); }
    if j < m { TookThere(cs, ms, t, s, j, m); } else if m < j { TookThere(cs, ms, t, s, m, j); }
  }

  lemma {:induction false} NotTaken(cs: seq<Config>, ms: seq<Move>, t: nat, s: nat, m: nat, n: nat, x: Sem)
    requires s <= m < n <= |ms| && n <= |cs| && x !in Took(cs, ms, t, s, n)
    ensures !Takes(cs[m], ms[m], t, x)
  {
    hide Took, TakenBy;
    if Takes(cs[m], ms[m], t, x) { TookThere(cs, ms, t, s, m, n); }
  }
}
