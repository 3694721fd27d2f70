/** The shared-memory block of devices (shm_wrapper/shm_wrapper.c): its contents as a value, what each
    public call does to it when it runs alone, and the calls themselves. */
module ShmBlock {
  import opened Basics

  datatype Process = DEV_HANDLER | EXECUTOR | NET_HANDLER | SHM | TEST

  datatype Stream = DATA | COMMAND

  datatype DevId = DevId(typ: byte, year: byte, uid: nat)

  /** dev_shm_t */
  datatype Block = Block(
    catalog: Bitmap,
    cmdMap: seq<Bitmap>,
    netSub: seq<Bitmap>,
    execSub: seq<Bitmap>,
    data: seq<seq<Word>>,
    command: seq<seq<Word>>,
    ids: seq<DevId>)

  predicate WellSized(b: Block)
  {
    && |b.cmdMap| == |b.netSub| == |b.execSub| == MAX_DEVICES + 1
    && |b.data| == |b.command| == |b.ids| == MAX_DEVICES
    && (forall ix :: 0 <= ix < MAX_DEVICES ==> |b.data[ix]| == MAX_PARAMS)
    && (forall ix :: 0 <= ix < MAX_DEVICES ==> |b.command[ix]| == MAX_PARAMS)
  }

  function Repeat<T>(n: nat, x: T): (r: seq<T>)
    ensures |r| == n && forall i :: 0 <= i < n ==> r[i] == x
  {
    seq(n, i => x)
  }

  function ZeroRow(): (r: seq<Word>) { Repeat(MAX_PARAMS, ZERO_WORD) }

  const SAMPLE: Block :=
    Block({}, Repeat(33, {}), Repeat(33, {}), Repeat(33, {}), Repeat(32, ZeroRow()), Repeat(32, ZeroRow()), Repeat(32, DevId(0, 0, 0)))

  type Shared = b: Block | WellSized(b) witness SAMPLE

  /** The block as shm_start leaves it; parameters and identifiers are whatever the mapping held. */
  ghost predicate Initial(b: Shared)
  {
    b.catalog == {} && forall i :: 0 <= i <= MAX_DEVICES ==> b.cmdMap[i] == b.execSub[i] == {} && b.netSub[i] == ALL_BITS
  }

  /** `vals` is long enough for every parameter of `mask`. */
  predicate Fits(mask: Bitmap, vals: seq<Word>)
  {
    forall i :: i in mask ==> i < |vals|
  }

  function Row(b: Shared, st: Stream, ix: nat): (r: seq<Word>)
    requires ix < MAX_DEVICES
    ensures |r| == MAX_PARAMS
  {
    if st.DATA? then b.data[ix] else b.command[ix]
  }

  function WithRow(b: Shared, st: Stream, ix: nat, row: seq<Word>): (r: Shared)
    requires ix < MAX_DEVICES && |row| == MAX_PARAMS
  {
    Block(b.catalog, b.cmdMap, b.netSub, b.execSub,
          if st.DATA? then b.data[ix := row] else b.data,
          if st.COMMAND? then b.command[ix := row] else b.command,
          b.ids)
  }

  function WithMaps(b: Shared, cmdMap: seq<Bitmap>, netSub: seq<Bitmap>, execSub: seq<Bitmap>): (r: Shared)
    requires |cmdMap| == |netSub| == |execSub| == MAX_DEVICES + 1
  {
    Block(b.catalog, cmdMap, netSub, execSub, b.data, b.command, b.ids)
  }

  /** `row` with the parameters of `mask` taken from `vals`. */
  function Overlay(row: seq<Word>, mask: Bitmap, vals: seq<Word>): (r: seq<Word>)
    requires Fits(mask, vals)
    ensures |r| == |row| && forall i :: 0 <= i < |row| ==> r[i] == if i in mask then vals[i] else row[i]
  {
    seq(|row|, i requires 0 <= i < |row| => if i in mask then vals[i] else row[i])
  }

  // ------------------------------------------------------------------ what each call does

  /** get_dev_ix_from_uid, searching from index `i`. */
  function LookupFrom(b: Shared, uid: nat, i: nat): (ix: int)
    requires i <= MAX_DEVICES
    ensures ix == -1 || i <= ix < MAX_DEVICES
    ensures ix == -1 ==> forall j :: i <= j < MAX_DEVICES ==> !(j in b.catalog && b.ids[j].uid == uid)
    ensures ix >= 0 ==> ix in b.catalog && b.ids[ix].uid == uid
                        && forall j :: i <= j < ix ==> !(j in b.catalog && b.ids[j].uid == uid)
    decreases MAX_DEVICES - i
  {
    if i == MAX_DEVICES then -1
    else if i in b.catalog && b.ids[i].uid == uid then i
    else LookupFrom(b, uid, i + 1)
  }

  function Lookup(b: Shared, uid: nat): (ix: int) { LookupFrom(b, uid, 0) }

  /** The lowest index at or above `i` that is not in the catalog; MAX_DEVICES if there is none. */
  function FreeFrom(catalog: Bitmap, i: nat): (ix: nat)
    requires i <= MAX_DEVICES
    ensures i <= ix <= MAX_DEVICES && ix !in catalog
    ensures forall j :: i <= j < ix ==> j in catalog
    decreases MAX_DEVICES - i
  {
    if i < MAX_DEVICES && i in catalog then FreeFrom(catalog, i + 1) else i
  }

  /** device_read_helper: what reading leaves in the block. */
  function AfterRead(b: Shared, ix: nat, p: Process, st: Stream, mask: Bitmap): (r: Shared)
    requires ix < MAX_DEVICES
  {
    if p == DEV_HANDLER && st == COMMAND then
      WithMaps(b, b.cmdMap[0 := b.cmdMap[0] - {ix}][ix + 1 := b.cmdMap[ix + 1] - mask], b.netSub, b.execSub)
    else b
  }

  /** device_write_helper */
  function AfterWrite(b: Shared, ix: nat, p: Process, st: Stream, mask: Bitmap, vals: seq<Word>): (r: Shared)
    requires ix < MAX_DEVICES && Fits(mask, vals)
  {
    if p == EXECUTOR && st == COMMAND then
      WithMaps(WithRow(b, st, ix, Overlay(Row(b, st, ix), mask, vals)),
               b.cmdMap[0 := b.cmdMap[0] + {ix}][ix + 1 := b.cmdMap[ix + 1] + mask], b.netSub, b.execSub)
    else WithRow(b, st, ix, Overlay(Row(b, st, ix), mask, vals))
  }

  /** device_connect at a free index. */
  function AfterConnectAt(b: Shared, ix: nat, id: DevId): (r: Shared)
    requires ix < MAX_DEVICES
  {
    Block(
      b.catalog + {ix},
      b.cmdMap,
      b.netSub[0 := b.netSub[0] + {ix}][ix + 1 := ALL_BITS],
      b.execSub[0 := b.execSub[0] - {ix}][ix + 1 := {}],
      b.data[ix := ZeroRow()],
      b.command[ix := ZeroRow()],
      b.ids[ix := id])
  }

  function AfterConnect(b: Shared, id: DevId): (r: Shared)
  {
    if FreeFrom(b.catalog, 0) == MAX_DEVICES then b else AfterConnectAt(b, FreeFrom(b.catalog, 0), id)
  }

  /** device_disconnect */
  function AfterDisconnect(b: Shared, ix: nat): (r: Shared)
    requires ix < MAX_DEVICES
  {
    Block(
      b.catalog - {ix},
      b.cmdMap[0 := b.cmdMap[0] - {ix}][ix + 1 := {}],
      b.netSub, b.execSub, b.data, b.command, b.ids)
  }

  /** place_sub_request for the device at `ix`. */
  function AfterPlaceSub(b: Shared, ix: nat, p: Process, mask: Bitmap): (r: Shared)
    requires ix < MAX_DEVICES
  {
    if p == NET_HANDLER && b.netSub[ix + 1] != mask then
      WithMaps(b, b.cmdMap, b.netSub[ix + 1 := mask][0 := b.netSub[0] + {ix}], b.execSub)
    else if p == EXECUTOR && b.execSub[ix + 1] != mask then
      WithMaps(b, b.cmdMap, b.netSub, b.execSub[ix + 1 := mask][0 := b.execSub[0] + {ix}])
    else b
  }

  /** The subscriptions get_sub_requests reports to `p` at index `i` of its maps. */
  function SubsFor(b: Shared, p: Process, i: nat): (r: Bitmap)
    requires i <= MAX_DEVICES
  {
    if p == NET_HANDLER then b.netSub[i] else if p == EXECUTOR then b.execSub[i] else b.netSub[i] + b.execSub[i]
  }

  /** Entry `i` of a full report: the changed devices first, then each connected device's subscriptions. */
  function SubEntry(b: Shared, p: Process, i: nat): (r: Bitmap)
    requires i <= MAX_DEVICES
  {
    if i == 0 then SubsFor(b, p, 0) * b.catalog else if i - 1 in b.catalog then SubsFor(b, p, i) else {}
  }

  /** The map get_sub_requests fills in; `into` is what the caller's buffer held. */
  function SubReport(b: Shared, p: Process, into: seq<Bitmap>): (r: seq<Bitmap>)
    requires |into| == MAX_DEVICES + 1
    ensures |r| == MAX_DEVICES + 1
  {
    if SubsFor(b, p, 0) == {} && p == DEV_HANDLER then into[0 := {}]
    else seq(MAX_DEVICES + 1, i requires 0 <= i < MAX_DEVICES + 1 => SubEntry(b, p, i))
  }

  function AfterGetSub(b: Shared, p: Process): (r: Shared)
  {
    if p == DEV_HANDLER then
      WithMaps(b, b.cmdMap, b.netSub[0 := {}], b.execSub[0 := {}])
    else b
  }

  // ------------------------------------------------------------------ the calls

  /** The mapped block. A parameter row is one cell of an array. */
  class DeviceBlock {
    var catalog: Bitmap
    const cmdMap: array<Bitmap>
    const netSub: array<Bitmap>
    const execSub: array<Bitmap>
    const data: array<seq<Word>>
    const command: array<seq<Word>>
    const ids: array<DevId>

    ghost const Repr: set<object> := {this, cmdMap, netSub, execSub, data, command, ids}

    ghost predicate Valid()
      reads this, data, command
    {
      && cmdMap.Length == netSub.Length == execSub.Length == MAX_DEVICES + 1
      && data.Length == command.Length == ids.Length == MAX_DEVICES
      && cmdMap != netSub && cmdMap != execSub && netSub != execSub && data != command
      && (forall ix :: 0 <= ix < MAX_DEVICES ==> |data[ix]| == MAX_PARAMS)
      && (forall ix :: 0 <= ix < MAX_DEVICES ==> |command[ix]| == MAX_PARAMS)
    }

    function View(): (b: Shared)
      requires Valid()
      reads this, cmdMap, netSub, execSub, data, command, ids
    {
      Block(catalog, cmdMap[..], netSub[..], execSub[..], data[..], command[..], ids[..])
    }

    /** shm_start: a fresh block. */
    constructor ()
      ensures Valid() && fresh(Repr) && Initial(View())
    {
      catalog := {};
      cmdMap := new Bitmap[MAX_DEVICES + 1];
      netSub := new Bitmap[MAX_DEVICES + 1];
      execSub := new Bitmap[MAX_DEVICES + 1];
      data := new seq<Word>[MAX_DEVICES](i => ZeroRow());
      command := new seq<Word>[MAX_DEVICES](i => ZeroRow());
      ids := new DevId[MAX_DEVICES](i => DevId(0, 0, 0));
      new;
      for i := 0 to MAX_DEVICES + 1
        invariant Valid() && catalog == {}
        invariant forall j :: 0 <= j < i ==> cmdMap[j] == execSub[j] == {} && netSub[j] == ALL_BITS
      {
        cmdMap[i], netSub[i], execSub[i] := {}, ALL_BITS, {};
      }
    }

    method GetDevIxFromUid(uid: nat) returns (devIx: int)
      requires Valid()
      ensures devIx == Lookup(View(), uid)
    {
      devIx := -1;
      for i := 0 to MAX_DEVICES
        invariant devIx == -1 && Lookup(View(), uid) == LookupFrom(View(), uid, i)
      {
        if i in catalog && ids[i].uid == uid {
          devIx := i;
          break;
        }
      }
    }

    method DeviceReadHelper(ix: nat, process: Process, stream: Stream, mask: Bitmap, params: array<Word>)
      requires Valid() && ix < MAX_DEVICES && params !in Repr
      requires forall i :: i in mask ==> i < params.Length
      modifies cmdMap, params
      ensures Valid() && View() == AfterRead(old(View()), ix, process, stream, mask)
      ensures forall i :: 0 <= i < params.Length ==>
                params[i] == if i in mask then Row(old(View()), stream, ix)[i] else old(params[i])
    {
      var row := if stream == DATA then data[ix] else command[ix];
      for i := 0 to MAX_PARAMS
        invariant Valid() && View() == old(View())
        invariant forall j :: 0 <= j < params.Length ==> params[j] == if j in mask && j < i then row[j] else old(params[j])
      {
        if i in mask {
          params[i] := row[i];
        }
      }
      if process == DEV_HANDLER && stream == COMMAND {
        cmdMap[0] := cmdMap[0] - {ix};
        cmdMap[ix + 1] := cmdMap[ix + 1] - mask;
      }
    }

    method DeviceWriteHelper(ix: nat, process: Process, stream: Stream, mask: Bitmap, params: seq<Word>)
      requires Valid() && ix < MAX_DEVICES && Fits(mask, params)
      modifies cmdMap, data, command
      ensures Valid() && View() == AfterWrite(old(View()), ix, process, stream, mask, params)
    {
      ghost var b, row := View(), Row(View(), stream, ix);
      for i := 0 to MAX_PARAMS
        invariant Valid() && |Row(View(), stream, ix)| == MAX_PARAMS
        invariant forall j :: 0 <= j < MAX_PARAMS ==>
                    Row(View(), stream, ix)[j] == if j in mask && j < i then params[j] else row[j]
        invariant View() == WithRow(b, stream, ix, Row(View(), stream, ix))
      {
        if i in mask {
          if stream == DATA {
            data[ix] := data[ix][i := params[i]];
          } else {
            command[ix] := command[ix][i := params[i]];
          }
        }
      }
      assert Row(View(), stream, ix) == Overlay(row, mask, params);
      if process == EXECUTOR && stream == COMMAND {
        cmdMap[0] := cmdMap[0] + {ix};
        cmdMap[ix + 1] := cmdMap[ix + 1] + mask;
      }
    }

    method DeviceConnect(id: DevId) returns (devIx: int)
      requires Valid()
      modifies this, ids, data, command, execSub, netSub
      ensures Valid() && View() == AfterConnect(old(View()), id)
      ensures devIx == if FreeFrom(old(catalog), 0) == MAX_DEVICES then -1 else FreeFrom(old(catalog), 0)
    {
      devIx := 0;
      while devIx < MAX_DEVICES
        invariant 0 <= devIx <= MAX_DEVICES && FreeFrom(catalog, 0) == FreeFrom(catalog, devIx)
      {
        if devIx !in catalog {
          break;
        }
        devIx := devIx + 1;
      }
      if devIx == MAX_DEVICES {
        return -1;
      }
      ids[devIx] := id;
      catalog := catalog + {devIx};
      ghost var d, c := data[..], command[..];
      for i := 0 to MAX_PARAMS
        invariant Valid() && ids[..] == old(ids[..])[devIx := id] && catalog == old(catalog) + {devIx as nat}
        invariant cmdMap[..] == old(cmdMap[..]) && netSub[..] == old(netSub[..]) && execSub[..] == old(execSub[..])
        invariant data[..] == d[devIx := data[devIx]] && command[..] == c[devIx := command[devIx]]
        invariant data[devIx][..i] == ZeroRow()[..i] && command[devIx][..i] == ZeroRow()[..i]
      {
        data[devIx] := data[devIx][i := ZERO_WORD];
        command[devIx] := command[devIx][i := ZERO_WORD];
      }
      assert data[devIx] == ZeroRow() && command[devIx] == ZeroRow();
      execSub[0] := execSub[0] - {devIx as nat};
      execSub[devIx + 1] := {};
      netSub[0] := netSub[0] + {devIx as nat};
      netSub[devIx + 1] := ALL_BITS;
    }

    method DeviceDisconnect(ix: nat)
      requires Valid() && ix < MAX_DEVICES
      modifies this, cmdMap
      ensures Valid() && View() == AfterDisconnect(old(View()), ix)
    {
      catalog := catalog - {ix};
      cmdMap[0] := cmdMap[0] - {ix};
      cmdMap[ix + 1] := {};
    }

    method DeviceRead(ix: nat, process: Process, stream: Stream, mask: Bitmap, params: array<Word>) returns (ret: int)
      requires Valid() && ix < MAX_DEVICES && params !in Repr
      requires forall i :: i in mask ==> i < params.Length
      modifies cmdMap, params
      ensures Valid() && ret == if ix in old(catalog) then 0 else -1
      ensures View() == if ret == 0 then AfterRead(old(View()), ix, process, stream, mask) else old(View())
      ensures forall i :: 0 <= i < params.Length ==>
                params[i] == if ret == 0 && i in mask then Row(old(View()), stream, ix)[i] else old(params[i])
    {
      if ix !in catalog {
        return -1;
      }
      DeviceReadHelper(ix, process, stream, mask, params);
      ret := 0;
    }

    method DeviceWrite(ix: nat, process: Process, stream: Stream, mask: Bitmap, params: seq<Word>) returns (ret: int)
      requires Valid() && ix < MAX_DEVICES && Fits(mask, params)
      modifies cmdMap, data, command
      ensures Valid() && ret == if ix in old(catalog) then 0 else -1
      ensures View() == if ret == 0 then AfterWrite(old(View()), ix, process, stream, mask, params) else old(View())
    {
      if ix !in catalog {
        return -1;
      }
      DeviceWriteHelper(ix, process, stream, mask, params);
      ret := 0;
    }

    method DeviceReadUid(uid: nat, process: Process, stream: Stream, mask: Bitmap, params: array<Word>) returns (ret: int)
      requires Valid() && params !in Repr
      requires forall i :: i in mask ==> i < params.Length
      modifies cmdMap, params
      ensures Valid()
      ensures var ix := Lookup(old(View()), uid);
              && ret == (if ix == -1 then -1 else 0)
              && View() == (if ret == 0 then AfterRead(old(View()), ix, process, stream, mask) else old(View()))
              && forall i :: 0 <= i < params.Length ==>
                   params[i] == if ret == 0 && i in mask then Row(old(View()), stream, ix)[i] else old(params[i])
    {
      var ix := GetDevIxFromUid(uid);
      if ix == -1 {
        return -1;
      }
      DeviceReadHelper(ix, process, stream, mask, params);
      ret := 0;
    }

    method DeviceWriteUid(uid: nat, process: Process, stream: Stream, mask: Bitmap, params: seq<Word>) returns (ret: int)
      requires Valid() && Fits(mask, params)
      modifies cmdMap, data, command
      ensures Valid()
      ensures var ix := Lookup(old(View()), uid);
              && ret == (if ix == -1 then -1 else 0)
              && View() == (if ret == 0 then AfterWrite(old(View()), ix, process, stream, mask, params) else old(View()))
    {
      var ix := GetDevIxFromUid(uid);
      if ix == -1 {
        return -1;
      }
      DeviceWriteHelper(ix, process, stream, mask, params);
      ret := 0;
    }

    method PlaceSubRequest(uid: nat, process: Process, mask: Bitmap) returns (ret: int)
      requires Valid()
      modifies netSub, execSub
      ensures Valid()
      ensures var ix := Lookup(old(View()), uid);
              && ret == (if ix == -1 || !(process == NET_HANDLER || process == EXECUTOR) then -1 else 0)
              && View() == (if ret == 0 then AfterPlaceSub(old(View()), ix, process, mask) else old(View()))
    {
      if process != NET_HANDLER && process != EXECUTOR {
        return -1;
      }
      var ix := GetDevIxFromUid(uid);
      if ix == -1 {
        return -1;
      }
      var curr := if process == NET_HANDLER then netSub else execSub;
      if curr[ix + 1] != mask {
        curr[ix + 1] := mask;
        curr[0] := curr[0] + {ix as nat};
      }
      ret := 0;
    }

    method GetSubRequests(subMap: array<Bitmap>, process: Process)
      requires Valid() && subMap !in Repr && subMap.Length == MAX_DEVICES + 1
      modifies subMap, netSub, execSub
      ensures Valid() && View() == AfterGetSub(old(View()), process)
      ensures subMap[..] == SubReport(old(View()), process, old(subMap[..]))
    {
      ghost var b := View();
      if process == NET_HANDLER {
        subMap[0] := netSub[0];
      } else if process == EXECUTOR {
        subMap[0] := execSub[0];
      } else {
        subMap[0] := netSub[0] + execSub[0];
      }
      if subMap[0] == {} && process == DEV_HANDLER {
        assert netSub[0] <= subMap[0] && execSub[0] <= subMap[0];
        assert netSub[0] == {} && execSub[0] == {};
        assert netSub[..][0 := {}] == netSub[..] && execSub[..][0 := {}] == execSub[..];
        return;
      }
      for i := 1 to MAX_DEVICES + 1
        invariant Valid() && View() == b
        invariant subMap[0] == set j | j in SubsFor(b, process, 0) && (j in b.catalog || j >= i - 1)
        invariant forall k :: 1 <= k < i ==> subMap[k] == if k - 1 in b.catalog then SubsFor(b, process, k) else {}
      {
        if i - 1 in catalog {
          if process == NET_HANDLER {
            subMap[i] := netSub[i];
          } else if process == EXECUTOR {
            subMap[i] := execSub[i];
          } else {
            subMap[i] := netSub[i] + execSub[i];
          }
        } else {
          subMap[0] := subMap[0] - {i - 1};
          subMap[i] := {};
        }
      }
      assert subMap[0] == SubsFor(b, process, 0) * b.catalog;
      if process == DEV_HANDLER {
        netSub[0], execSub[0] := {}, {};
      }
    }

    method GetCmdMap(bitmap: array<Bitmap>)
      requires Valid() && bitmap !in Repr && bitmap.Length == MAX_DEVICES + 1
      modifies bitmap
      ensures Valid() && View() == old(View()) && bitmap[..] == View().cmdMap
    {
      for i := 0 to MAX_DEVICES + 1
        invariant Valid() && View() == old(View())
        invariant bitmap[..i] == cmdMap[..i]
      {
        bitmap[i] := cmdMap[i];
      }
      assert bitmap[..] == bitmap[..MAX_DEVICES + 1] && cmdMap[..] == cmdMap[..MAX_DEVICES + 1];
    }

    method GetDeviceIdentifiers(devIds: array<DevId>)
      requires Valid() && devIds !in Repr && devIds.Length == MAX_DEVICES
      modifies devIds
      ensures Valid() && View() == old(View()) && devIds[..] == View().ids
    {
      for i := 0 to MAX_DEVICES
        invariant Valid() && View() == old(View())
        invariant devIds[..i] == ids[..i]
      {
        devIds[i] := ids[i];
      }
      assert devIds[..] == devIds[..MAX_DEVICES] && ids[..] == ids[..MAX_DEVICES];
    }

    method GetCatalog() returns (c: Bitmap)
      requires Valid()
      ensures c == View().catalog
    {
      c := catalog;
    }
  }
}
