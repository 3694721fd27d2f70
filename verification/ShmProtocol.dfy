/** The shared-memory calls as threads that interleave at single semaphore operations and single copies.
    Each call is the list of instructions its C function executes; every access to the catalog outside
    its semaphore is an instruction of its own. */
module ShmProtocol {
  import opened Basics
  import opened ShmBlock
  import opened ShmHistory

  datatype Sem = CatalogSem | DataSem(ix: nat) | CommandSem(ix: nat) | SubMapSem | CmdMapSem

  function StreamSem(st: Stream, ix: nat): (s: Sem) { if st.DATA? then DataSem(ix) else CommandSem(ix) }

  predicate IsStreamSem(s: Sem) { s.DataSem? || s.CommandSem? }

  /** The order in which every call acquires. */
  function Rank(s: Sem): (r: nat)
    ensures r < 5
  {
    match s
    case CatalogSem => 0
    case DataSem(_) => 1
    case CommandSem(_) => 2
    case SubMapSem => 3
    case CmdMapSem => 4
  }

  datatype Instr =
    | Acquire(s: Sem)
    | Release(s: Sem)
    | IfConnected(ix: nat)                                // catalog test of device_read and device_write, no semaphore
    | SeekUid(i: nat) | SeekId(i: nat)                    // catalog and uid test of get_dev_ix_from_uid, no semaphore
    | SeekFree(i: nat)                                    // one turn of device_connect's search
    | CopyOut(st: Stream, ix: nat, p: nat)                // params[p] = shm
    | CopyIn(st: Stream, ix: nat, p: nat, v: Word)        // shm = params[p]
    | Zero(st: Stream, ix: nat, p: nat)
    | CmdOff0(ix: nat) | CmdOff(ix: nat, mask: Bitmap)    // cmd_map[0] and cmd_map[ix + 1]
    | CmdOn0(ix: nat) | CmdOn(ix: nat, mask: Bitmap) | CmdClear(ix: nat)
    | PutType(ix: nat, typ: byte) | PutYear(ix: nat, year: byte) | PutUid(ix: nat, uid: nat)
    | CatOn(ix: nat) | CatOff(ix: nat)
    | ExecOff0(ix: nat) | ExecOff(ix: nat) | NetOn0(ix: nat) | NetOn(ix: nat)
    | SubCompare(ix: nat) | SubPut(ix: nat) | SubRaise(ix: nat)
    | SubHead | SubRow(i: nat) | SubLower
    | CmdRow(i: nat) | IdRow(i: nat) | CatGet

  /** A thread's own buffers, return value and device index. */
  datatype Local = Local(vals: seq<Word>, maps: seq<Bitmap>, ids: seq<DevId>, cat: Bitmap, code: int, ix: int)

  // ------------------------------------------------------------------ programs

  function CopyOuts(st: Stream, ix: nat, mask: Bitmap, p: nat): (r: seq<Instr>)
    requires p <= MAX_PARAMS
    decreases MAX_PARAMS - p
  {
    if p == MAX_PARAMS then [] else (if p in mask then [CopyOut(st, ix, p)] else []) + CopyOuts(st, ix, mask, p + 1)
  }

  function CopyIns(st: Stream, ix: nat, mask: Bitmap, vals: seq<Word>, p: nat): (r: seq<Instr>)
    requires p <= MAX_PARAMS && Fits(mask, vals)
    decreases MAX_PARAMS - p
  {
    if p == MAX_PARAMS then []
    else (if p in mask then [CopyIn(st, ix, p, vals[p])] else []) + CopyIns(st, ix, mask, vals, p + 1)
  }

  function Zeros(ix: nat, p: nat): (r: seq<Instr>)
    requires p <= MAX_PARAMS
    decreases MAX_PARAMS - p
  {
    if p == MAX_PARAMS then [] else [Zero(DATA, ix, p), Zero(COMMAND, ix, p)] + Zeros(ix, p + 1)
  }

  function SubRows(i: nat): (r: seq<Instr>)
    requires i <= MAX_DEVICES + 1
    decreases MAX_DEVICES + 1 - i
  {
    if i == MAX_DEVICES + 1 then [] else [SubRow(i)] + SubRows(i + 1)
  }

  function CmdRows(i: nat): (r: seq<Instr>)
    requires i <= MAX_DEVICES + 1
    decreases MAX_DEVICES + 1 - i
  {
    if i == MAX_DEVICES + 1 then [] else [CmdRow(i)] + CmdRows(i + 1)
  }

  function IdRows(i: nat): (r: seq<Instr>)
    requires i <= MAX_DEVICES
    decreases MAX_DEVICES - i
  {
    if i == MAX_DEVICES then [] else [IdRow(i)] + IdRows(i + 1)
  }

  /** device_read_helper behind the stream semaphore. */
  function ReadTail(ix: nat, p: Process, st: Stream, mask: Bitmap): (r: seq<Instr>)
  {
    (if p == DEV_HANDLER && st == COMMAND then [Acquire(CmdMapSem), CmdOff0(ix), CmdOff(ix, mask), Release(CmdMapSem)] else [])
    + [Release(StreamSem(st, ix))]
  }

  function ReadProgram(ix: nat, p: Process, st: Stream, mask: Bitmap): (r: seq<Instr>)
  {
    [Acquire(StreamSem(st, ix))] + (CopyOuts(st, ix, mask, 0) + ReadTail(ix, p, st, mask))
  }

  /** device_write_helper behind the stream semaphore. */
  function WriteTail(ix: nat, p: Process, st: Stream, mask: Bitmap): (r: seq<Instr>)
  {
    (if p == EXECUTOR && st == COMMAND then [Acquire(CmdMapSem), CmdOn0(ix), CmdOn(ix, mask), Release(CmdMapSem)] else [])
    + [Release(StreamSem(st, ix))]
  }

  function WriteProgram(ix: nat, p: Process, st: Stream, mask: Bitmap, vals: seq<Word>): (r: seq<Instr>)
    requires Fits(mask, vals)
  {
    [Acquire(StreamSem(st, ix))] + (CopyIns(st, ix, mask, vals, 0) + WriteTail(ix, p, st, mask))
  }

  function ConnectTail(ix: nat): (r: seq<Instr>)
  {
    [ExecOff0(ix), ExecOff(ix), NetOn0(ix), NetOn(ix),
     Release(SubMapSem), Release(DataSem(ix)), Release(CommandSem(ix)), Release(CatalogSem)]
  }

  /** The identifier, field by field, and the catalog bit. */
  function ConnectHead(ix: nat, id: DevId): (r: seq<Instr>)
  {
    [PutType(ix, id.typ), PutYear(ix, id.year), PutUid(ix, id.uid), CatOn(ix)]
  }

  /** device_connect once it has found the free slot `ix`. */
  function ConnectAt(ix: nat, id: DevId): (r: seq<Instr>)
  {
    [Acquire(DataSem(ix)), Acquire(CommandSem(ix)), Acquire(SubMapSem)] + (ConnectHead(ix, id) + (Zeros(ix, 0) + ConnectTail(ix)))
  }

  function DisconnectProgram(ix: nat): (r: seq<Instr>)
  {
    [Acquire(CatalogSem), Acquire(DataSem(ix)), Acquire(CommandSem(ix)), Acquire(CmdMapSem),
     CatOff(ix), CmdOff0(ix), CmdClear(ix),
     Release(CmdMapSem), Release(DataSem(ix)), Release(CommandSem(ix)), Release(CatalogSem)]
  }

  function SubTail(p: Process): (r: seq<Instr>)
  {
    (if p == DEV_HANDLER then [SubLower] else []) + [Release(SubMapSem)]
  }

  /** What a call that searches by unique id does once the device is found at `ix`. */
  function Found(c: Call, ix: nat): (r: seq<Instr>)
    requires CallOk(c) && ByUid(c)
  {
    match c
    case ReadUid(_, p, st, mask, _) => ReadProgram(ix, p, st, mask)
    case WriteUid(_, p, st, mask, vals) => WriteProgram(ix, p, st, mask, vals)
    case PlaceSub(_, _, _) => [Acquire(SubMapSem), SubCompare(ix), Release(SubMapSem)]
  }

  function Program(c: Call): (r: seq<Instr>)
    requires CallOk(c)
  {
    match c
    case Read(ix, p, st, mask, _) => [IfConnected(ix)] + ReadProgram(ix, p, st, mask)
    case Write(ix, p, st, mask, vals) => [IfConnected(ix)] + WriteProgram(ix, p, st, mask, vals)
    case ReadUid(_, _, _, _, _) => [SeekUid(0)]
    case WriteUid(_, _, _, _, _) => [SeekUid(0)]
    case PlaceSub(_, p, _) => if p == NET_HANDLER || p == EXECUTOR then [SeekUid(0)] else []
    case Connect(_) => [Acquire(CatalogSem), SeekFree(0), Release(CatalogSem)]
    case Disconnect(ix) => DisconnectProgram(ix)
    case GetSub(p, _) => [Acquire(SubMapSem), SubHead] + (SubRows(1) + SubTail(p))
    case GetCmd(_) => [Acquire(CmdMapSem)] + (CmdRows(0) + [Release(CmdMapSem)])
    case GetIds(_) => [Acquire(CatalogSem)] + (IdRows(0) + [Release(CatalogSem)])
    case GetCat(_) => [Acquire(CatalogSem), CatGet, Release(CatalogSem)]
  }

  predicate ByUid(c: Call) { c.ReadUid? || c.WriteUid? || c.PlaceSub? }

  predicate IsRead(c: Call) { c.Read? || c.ReadUid? }

  function StartLocal(c: Call): (l: Local)
  {
    Local(
      if IsRead(c) then c.into else [],
      if c.GetSub? || c.GetCmd? then c.buf else [],
      if c.GetIds? then c.ids else [],
      {},
      if c.PlaceSub? && !(c.proc == NET_HANDLER || c.proc == EXECUTOR) then -1 else 0,
      if c.Read? || c.Write? || c.Disconnect? then c.ix else -1)
  }

  // ------------------------------------------------------------------ semantics

  /** Indices in range, and the instruction belongs to a call that has the buffers it uses. */
  predicate InstrOk(c: Call, i: Instr)
  {
    match i
    case Acquire(_) => true
    case Release(_) => true
    case IfConnected(ix) => ix < MAX_DEVICES
    case SeekUid(i) => i <= MAX_DEVICES && ByUid(c)
    case SeekId(i) => i < MAX_DEVICES && ByUid(c)
    case SeekFree(i) => i <= MAX_DEVICES && c.Connect?
    case CopyOut(_, ix, p) => ix < MAX_DEVICES && p < MAX_PARAMS && IsRead(c) && p in c.mask
    case CopyIn(_, ix, p, _) => ix < MAX_DEVICES && p < MAX_PARAMS
    case Zero(_, ix, p) => ix < MAX_DEVICES && p < MAX_PARAMS
    case CmdOff0(ix) => ix < MAX_DEVICES
    case CmdOff(ix, _) => ix < MAX_DEVICES
    case CmdOn0(ix) => ix < MAX_DEVICES
    case CmdOn(ix, _) => ix < MAX_DEVICES
    case CmdClear(ix) => ix < MAX_DEVICES
    case PutType(ix, _) => ix < MAX_DEVICES
    case PutYear(ix, _) => ix < MAX_DEVICES
    case PutUid(ix, _) => ix < MAX_DEVICES
    case CatOn(ix) => ix < MAX_DEVICES
    case CatOff(ix) => ix < MAX_DEVICES
    case ExecOff0(ix) => ix < MAX_DEVICES
    case ExecOff(ix) => ix < MAX_DEVICES
    case NetOn0(ix) => ix < MAX_DEVICES
    case NetOn(ix) => ix < MAX_DEVICES
    case SubCompare(ix) => ix < MAX_DEVICES && c.PlaceSub?
    case SubPut(ix) => ix < MAX_DEVICES && c.PlaceSub?
    case SubRaise(ix) => ix < MAX_DEVICES && c.PlaceSub?
    case SubHead => c.GetSub?
    case SubRow(i) => 1 <= i <= MAX_DEVICES && c.GetSub?
    case SubLower => c.GetSub?
    case CmdRow(i) => i <= MAX_DEVICES && c.GetCmd?
    case IdRow(i) => i < MAX_DEVICES && c.GetIds?
    case CatGet => true
  }

  predicate LocalOk(c: Call, l: Local)
  {
    && (IsRead(c) ==> |l.vals| == |c.into|)
    && (c.GetSub? || c.GetCmd? ==> |l.maps| == MAX_DEVICES + 1)
    && (c.GetIds? ==> |l.ids| == MAX_DEVICES)
  }

  function WithCatalog(b: Shared, catalog: Bitmap, ids: seq<DevId>): (r: Shared)
    requires |ids| == MAX_DEVICES
  {
    Block(catalog, b.cmdMap, b.netSub, b.execSub, b.data, b.command, ids)
  }

  /** What an instruction does to the block. */
  function ExecBlock(c: Call, i: Instr, b: Shared): (r: Shared)
    requires InstrOk(c, i)
  {
    match i
    case CopyIn(st, ix, p, v) => WithRow(b, st, ix, Row(b, st, ix)[p := v])
    case Zero(st, ix, p) => WithRow(b, st, ix, Row(b, st, ix)[p := ZERO_WORD])
    case CmdOff0(ix) => WithMaps(b, b.cmdMap[0 := b.cmdMap[0] - {ix}], b.netSub, b.execSub)
    case CmdOff(ix, mask) => WithMaps(b, b.cmdMap[ix + 1 := b.cmdMap[ix + 1] - mask], b.netSub, b.execSub)
    case CmdOn0(ix) => WithMaps(b, b.cmdMap[0 := b.cmdMap[0] + {ix}], b.netSub, b.execSub)
    case CmdOn(ix, mask) => WithMaps(b, b.cmdMap[ix + 1 := b.cmdMap[ix + 1] + mask], b.netSub, b.execSub)
    case CmdClear(ix) => WithMaps(b, b.cmdMap[ix + 1 := {}], b.netSub, b.execSub)
    case PutType(ix, typ) => WithCatalog(b, b.catalog, b.ids[ix := DevId(typ, b.ids[ix].year, b.ids[ix].uid)])
    case PutYear(ix, year) => WithCatalog(b, b.catalog, b.ids[ix := DevId(b.ids[ix].typ, year, b.ids[ix].uid)])
    case PutUid(ix, uid) => WithCatalog(b, b.catalog, b.ids[ix := DevId(b.ids[ix].typ, b.ids[ix].year, uid)])
    case CatOn(ix) => WithCatalog(b, b.catalog + {ix}, b.ids)
    case CatOff(ix) => WithCatalog(b, b.catalog - {ix}, b.ids)
    case ExecOff0(ix) => WithMaps(b, b.cmdMap, b.netSub, b.execSub[0 := b.execSub[0] - {ix}])
    case ExecOff(ix) => WithMaps(b, b.cmdMap, b.netSub, b.execSub[ix + 1 := {}])
    case NetOn0(ix) => WithMaps(b, b.cmdMap, b.netSub[0 := b.netSub[0] + {ix}], b.execSub)
    case NetOn(ix) => WithMaps(b, b.cmdMap, b.netSub[ix + 1 := ALL_BITS], b.execSub)
    case SubPut(ix) =>
      if c.proc == NET_HANDLER then WithMaps(b, b.cmdMap, b.netSub[ix + 1 := c.mask], b.execSub)
      else WithMaps(b, b.cmdMap, b.netSub, b.execSub[ix + 1 := c.mask])
    case SubRaise(ix) =>
      if c.proc == NET_HANDLER then WithMaps(b, b.cmdMap, b.netSub[0 := b.netSub[0] + {ix}], b.execSub)
      else WithMaps(b, b.cmdMap, b.netSub, b.execSub[0 := b.execSub[0] + {ix}])
    case SubLower => WithMaps(b, b.cmdMap, b.netSub[0 := {}], b.execSub[0 := {}])
    case _ => b
  }

  /** What an instruction does to the thread's own variables. */
  function ExecLocal(c: Call, i: Instr, l: Local, b: Shared): (r: Local)
    requires CallOk(c) && InstrOk(c, i) && LocalOk(c, l)
    ensures LocalOk(c, r)
  {
    match i
    case IfConnected(ix) => if ix in b.catalog then l else l.(code := -1)
    case SeekUid(i) => if i == MAX_DEVICES then l.(code := -1) else l
    case SeekId(i) => if b.ids[i].uid == c.uid then l.(ix := i) else l
    case SeekFree(i) => if i == MAX_DEVICES then l.(ix := -1) else if i in b.catalog then l else l.(ix := i)
    case CopyOut(st, ix, p) => l.(vals := l.vals[p := Row(b, st, ix)[p]])
    case SubHead => l.(maps := l.maps[0 := SubsFor(b, c.proc, 0)])
    case SubRow(i) =>
      if i - 1 in b.catalog then l.(maps := l.maps[i := SubsFor(b, c.proc, i)])
      else l.(maps := l.maps[0 := l.maps[0] - {i - 1}][i := {}])
    case CmdRow(i) => l.(maps := l.maps[i := b.cmdMap[i]])
    case IdRow(i) => l.(ids := l.ids[i := b.ids[i]])
    case CatGet => l.(cat := b.catalog)
    case _ => l
  }

  /** What is left to execute after the first instruction. */
  function ExecTodo(c: Call, todo: seq<Instr>, b: Shared): (r: seq<Instr>)
    requires CallOk(c) && todo != [] && InstrOk(c, todo[0])
  {
    match todo[0]
    case IfConnected(ix) => if ix in b.catalog then todo[1..] else []
    case SeekUid(i) =>
      if i == MAX_DEVICES then [] else if i in b.catalog then [SeekId(i)] + todo[1..] else [SeekUid(i + 1)] + todo[1..]
    case SeekId(i) => if b.ids[i].uid == c.uid then Found(c, i) else [SeekUid(i + 1)] + todo[1..]
    case SeekFree(i) =>
      if i == MAX_DEVICES then todo[1..] else if i in b.catalog then [SeekFree(i + 1)] + todo[1..] else ConnectAt(i, c.id)
    case SubCompare(ix) =>
      if SubsFor(b, c.proc, ix + 1) != c.mask then [SubPut(ix), SubRaise(ix)] + todo[1..] else todo[1..]
    case SubHead => if SubsFor(b, c.proc, 0) == {} && c.proc == DEV_HANDLER then [Release(SubMapSem)] else todo[1..]
    case _ => todo[1..]
  }
}
