/** Whole histories of the shared-memory block in which each public call runs as one step. */
module ShmHistory {
  import opened Basics
  import opened ShmBlock

  /** The device-block calls. `into` and `buf` are what the caller's buffers hold. */
  datatype Call =
    | Read(ix: nat, proc: Process, stream: Stream, mask: Bitmap, into: seq<Word>)
    | ReadUid(uid: nat, proc: Process, stream: Stream, mask: Bitmap, into: seq<Word>)
    | Write(ix: nat, proc: Process, stream: Stream, mask: Bitmap, vals: seq<Word>)
    | WriteUid(uid: nat, proc: Process, stream: Stream, mask: Bitmap, vals: seq<Word>)
    | Connect(id: DevId)
    | Disconnect(ix: nat)
    | PlaceSub(uid: nat, proc: Process, mask: Bitmap)
    | GetSub(proc: Process, buf: seq<Bitmap>)
    | GetCmd(buf: seq<Bitmap>)
    | GetIds(ids: seq<DevId>)
    | GetCat(cat: Bitmap)

  /** What the wrapper asks of its callers: indices in range and buffers long enough. */
  predicate CallOk(c: Call)
  {
    match c
    case Read(ix, _, _, mask, into) => ix < MAX_DEVICES && Fits(mask, into)
    case ReadUid(_, _, _, mask, into) => Fits(mask, into)
    case Write(ix, _, _, mask, vals) => ix < MAX_DEVICES && Fits(mask, vals)
    case WriteUid(_, _, _, mask, vals) => Fits(mask, vals)
    case Disconnect(ix) => ix < MAX_DEVICES
    case GetSub(_, buf) => |buf| == MAX_DEVICES + 1
    case GetCmd(buf) => |buf| == MAX_DEVICES + 1
    case GetIds(ids) => |ids| == MAX_DEVICES
    case _ => true
  }

  /** The slot a call works on, -1 if it finds none (and fails) or has none. */
  function Target(b: Shared, c: Call): (ix: int)
    requires CallOk(c)
    ensures -1 <= ix < MAX_DEVICES
  {
    match c
    case Read(ix, _, _, _, _) => if ix in b.catalog then ix else -1
    case ReadUid(uid, _, _, _, _) => Lookup(b, uid)
    case Write(ix, _, _, _, _) => if ix in b.catalog then ix else -1
    case WriteUid(uid, _, _, _, _) => Lookup(b, uid)
    case Connect(_) => if FreeFrom(b.catalog, 0) == MAX_DEVICES then -1 else FreeFrom(b.catalog, 0)
    case Disconnect(ix) => ix
    case PlaceSub(uid, p, _) => if p == NET_HANDLER || p == EXECUTOR then Lookup(b, uid) else -1
    case _ => -1
  }

  /** The block after a call that runs alone. */
  function Apply(b: Shared, c: Call): (r: Shared)
    requires CallOk(c)
  {
    match c
    case Read(_, p, st, mask, _) => if Target(b, c) == -1 then b else AfterRead(b, Target(b, c), p, st, mask)
    case ReadUid(_, p, st, mask, _) => if Target(b, c) == -1 then b else AfterRead(b, Target(b, c), p, st, mask)
    case Write(_, p, st, mask, vals) => if Target(b, c) == -1 then b else AfterWrite(b, Target(b, c), p, st, mask, vals)
    case WriteUid(_, p, st, mask, vals) => if Target(b, c) == -1 then b else AfterWrite(b, Target(b, c), p, st, mask, vals)
    case Connect(id) => AfterConnect(b, id)
    case Disconnect(ix) => AfterDisconnect(b, ix)
    case PlaceSub(_, p, mask) => if Target(b, c) == -1 then b else AfterPlaceSub(b, Target(b, c), p, mask)
    case GetSub(p, _) => AfterGetSub(b, p)
    case _ => b
  }

  /** A run of whole calls from a freshly started block. */
  ghost predicate Run(s: seq<Shared>, calls: seq<Call>)
  {
    && |s| == |calls| + 1
    && Initial(s[0])
    && (forall k :: 0 <= k < |calls| ==> CallOk(calls[k]))
    && (forall k :: 0 <= k < |calls| ==> s[k + 1] == Apply(s[k], calls[k]))
  }

  // ------------------------------------------------------------------ free slots and new devices

  /** No free slot has a pending command. */
  ghost predicate FreeSlotsClean(b: Shared)
  {
    forall ix: nat :: ix < MAX_DEVICES && ix !in b.catalog ==> b.cmdMap[ix + 1] == {} && ix !in b.cmdMap[0]
  }

  lemma SlotStaysClean(b: Shared, c: Call, ix: nat)
    requires CallOk(c) && FreeSlotsClean(b) && ix < MAX_DEVICES && ix !in Apply(b, c).catalog
    ensures Apply(b, c).cmdMap[ix + 1] == {} && ix !in Apply(b, c).cmdMap[0]
  {
    hide LookupFrom, Overlay;
    assert ix in b.catalog || (b.cmdMap[ix + 1] == {} && ix !in b.cmdMap[0]);
    if c.Connect? && Target(b, c) != -1 { assert ix != Target(b, c); }
  }

  lemma ApplyKeepsFreeSlotsClean(b: Shared, c: Call)
    requires CallOk(c) && FreeSlotsClean(b)
    ensures FreeSlotsClean(Apply(b, c))
  {
    hide Apply;
    forall ix: nat | ix < MAX_DEVICES && ix !in Apply(b, c).catalog
      ensures Apply(b, c).cmdMap[ix + 1] == {} && ix !in Apply(b, c).cmdMap[0]
    {
      SlotStaysClean(b, c, ix);
    }
  }

  lemma {:induction false} FreeSlotsAlwaysClean(s: seq<Shared>, calls: seq<Call>, n: nat)
    requires Run(s, calls) && n < |s|
    ensures FreeSlotsClean(s[n])
  {
    if n > 0 {
      FreeSlotsAlwaysClean(s, calls, n - 1);
      ApplyKeepsFreeSlotsClean(s[n - 1], calls[n - 1]);
    }
  }

  /** Slot `ix` holds a newly connected device: everything at its default. */
  ghost predicate StartsClean(b: Shared, ix: nat, id: DevId)
    requires ix < MAX_DEVICES
  {
    && ix in b.catalog && b.ids[ix] == id
    && (forall p :: 0 <= p < MAX_PARAMS ==> b.data[ix][p] == b.command[ix][p] == ZERO_WORD)
    && b.cmdMap[ix + 1] == {} && ix !in b.cmdMap[0]
    && b.execSub[ix + 1] == {} && ix !in b.execSub[0]
    && b.netSub[ix + 1] == ALL_BITS && ix in b.netSub[0]
  }

  /** Slot `j` is the same in both blocks. */
  ghost predicate SameSlot(b: Shared, c: Shared, j: nat)
    requires j < MAX_DEVICES
  {
    && (j in b.catalog <==> j in c.catalog) && b.ids[j] == c.ids[j]
    && b.data[j] == c.data[j] && b.command[j] == c.command[j]
    && b.cmdMap[j + 1] == c.cmdMap[j + 1] && (j in b.cmdMap[0] <==> j in c.cmdMap[0])
    && b.execSub[j + 1] == c.execSub[j + 1] && (j in b.execSub[0] <==> j in c.execSub[0])
    && b.netSub[j + 1] == c.netSub[j + 1] && (j in b.netSub[0] <==> j in c.netSub[0])
  }

  ghost predicate OtherSlotsSame(b: Shared, c: Shared, ix: nat)
  {
    forall j: nat :: j < MAX_DEVICES && j != ix ==> SameSlot(b, c, j)
  }

  /** After any history, a device is connected into the lowest free slot, starts clean there and leaves
      every other slot alone; with no free slot nothing changes. */
  lemma ConnectStartsClean(s: seq<Shared>, calls: seq<Call>, k: nat)
    requires Run(s, calls) && k < |calls| && calls[k].Connect?
    ensures var ix := Target(s[k], calls[k]);
            if ix == -1 then
              s[k + 1] == s[k] && s[k].catalog == ALL_BITS
            else
              && ix !in s[k].catalog && (forall j :: 0 <= j < ix ==> j in s[k].catalog)
              && StartsClean(s[k + 1], ix, calls[k].id)
              && OtherSlotsSame(s[k], s[k + 1], ix)
  {
    FreeSlotsAlwaysClean(s, calls, k);
    if Target(s[k], calls[k]) == -1 {
      assert forall j :: 0 <= j < MAX_DEVICES ==> j in s[k].catalog;
      assert s[k].catalog == ALL_BITS;
    }
  }

  // ------------------------------------------------------------------ subscription changes

  predicate Consumes(c: Call) { c.GetSub? && c.proc == DEV_HANDLER }

  /** The call raises the change bit of slot `ix`: it connects a device there, or places a subscription
      that differs from the current one. */
  predicate Raises(b: Shared, c: Call, ix: nat)
    requires CallOk(c) && ix < MAX_DEVICES
  {
    Target(b, c) == ix &&
    match c
    case Connect(_) => true
    case PlaceSub(_, p, mask) => SubsFor(b, p, ix + 1) != mask
    case _ => false
  }

  lemma ChangeBitStep(b: Shared, c: Call, ix: nat)
    requires CallOk(c) && ix < MAX_DEVICES
    ensures ix in SubsFor(Apply(b, c), DEV_HANDLER, 0) <==>
              !Consumes(c) && (ix in SubsFor(b, DEV_HANDLER, 0) || Raises(b, c, ix))
  {
  }

  /** Slot `ix` was raised at step `k`; step -1 is shm_start, which raises every slot. */
  predicate RaisedAt(s: seq<Shared>, calls: seq<Call>, k: int, ix: nat)
    requires |s| == |calls| + 1 && ix < MAX_DEVICES
    requires forall j :: 0 <= j < |calls| ==> CallOk(calls[j])
  {
    k == -1 || (0 <= k < |calls| && Raises(s[k], calls[k], ix))
  }

  predicate NotConsumed(calls: seq<Call>, k: int, n: nat)
    requires n <= |calls|
  {
    forall j :: k < j < n && 0 <= j ==> !Consumes(calls[j])
  }

  /** Slot `ix` was raised before step `n` and no dev_handler get_sub_requests has come since. */
  ghost predicate RaisedSince(s: seq<Shared>, calls: seq<Call>, n: nat, ix: nat)
    requires |s| == |calls| + 1 && ix < MAX_DEVICES && n <= |calls|
    requires forall j :: 0 <= j < |calls| ==> CallOk(calls[j])
  {
    exists k :: -1 <= k < n && RaisedAt(s, calls, k, ix) && NotConsumed(calls, k, n)
  }

  lemma RaisedSinceStep(s: seq<Shared>, calls: seq<Call>, n: nat, ix: nat)
    requires |s| == |calls| + 1 && ix < MAX_DEVICES && 0 < n <= |calls|
    requires forall j :: 0 <= j < |calls| ==> CallOk(calls[j])
    ensures RaisedSince(s, calls, n, ix) <==>
              !Consumes(calls[n - 1]) && (RaisedSince(s, calls, n - 1, ix) || Raises(s[n - 1], calls[n - 1], ix))
  {
    hide Raises;
    var last := calls[n - 1];
    if RaisedSince(s, calls, n, ix) {
      var k :| -1 <= k < n && RaisedAt(s, calls, k, ix) && NotConsumed(calls, k, n);
      assert k < n - 1 ==> NotConsumed(calls, k, n - 1) && !Consumes(last);
      assert k == n - 1 ==> !Consumes(last) by { RaisingDoesNotConsume(s[n - 1], last, ix); }
    }
    if !Consumes(last) && RaisedSince(s, calls, n - 1, ix) {
      var k :| -1 <= k < n - 1 && RaisedAt(s, calls, k, ix) && NotConsumed(calls, k, n - 1);
      assert NotConsumed(calls, k, n);
    }
    if Raises(s[n - 1], last, ix) {
      assert RaisedAt(s, calls, n - 1, ix) && NotConsumed(calls, n - 1, n);
    }
  }

  lemma RaisingDoesNotConsume(b: Shared, c: Call, ix: nat)
    requires CallOk(c) && ix < MAX_DEVICES
    ensures Raises(b, c, ix) ==> !Consumes(c)
  {
  }

  /** At every point of every history a slot's change bit is on exactly if it was raised and no dev_handler
      get_sub_requests has come since. */
  lemma {:induction false} ChangeBitExact(s: seq<Shared>, calls: seq<Call>, n: nat, ix: nat)
    requires Run(s, calls) && n < |s| && ix < MAX_DEVICES
    ensures ix in SubsFor(s[n], DEV_HANDLER, 0) <==> RaisedSince(s, calls, n, ix)
  {
    if n == 0 {
      assert RaisedAt(s, calls, -1, ix) && NotConsumed(calls, -1, 0);
    } else {
      hide Raises, Apply, SubsFor, RaisedSince;
      ChangeBitExact(s, calls, n - 1, ix);
      ChangeBitStep(s[n - 1], calls[n - 1], ix);
      RaisedSinceStep(s, calls, n, ix);
    }
  }

  /** What the dev_handler call at step `m` reports: exactly the connected slots raised since the last such
      call, each with the union of both current maps. */
  lemma ReportExact(s: seq<Shared>, calls: seq<Call>, m: nat, ix: nat)
    requires Run(s, calls) && m < |calls| && Consumes(calls[m]) && ix < MAX_DEVICES
    ensures var report := SubReport(s[m], DEV_HANDLER, calls[m].buf);
            && (ix in report[0] <==> ix in s[m].catalog && RaisedSince(s, calls, m, ix))
            && (ix in report[0] ==> report[ix + 1] == s[m].netSub[ix + 1] + s[m].execSub[ix + 1])
  {
    ChangeBitExact(s, calls, m, ix);
  }

  /** A change raised at `k` for a device still connected at the next dev_handler call `m` is reported by
      `m`, and by no later call `m2` unless it is raised again. */
  lemma ReportedOnce(s: seq<Shared>, calls: seq<Call>, k: int, m: nat, m2: nat, ix: nat)
    requires Run(s, calls) && ix < MAX_DEVICES && -1 <= k < m < m2 < |calls|
    requires RaisedAt(s, calls, k, ix)
    requires Consumes(calls[m]) && NotConsumed(calls, k, m) && ix in s[m].catalog
    requires Consumes(calls[m2]) && forall j :: m < j < m2 ==> !RaisedAt(s, calls, j, ix)
    ensures ix in SubReport(s[m], DEV_HANDLER, calls[m].buf)[0]
    ensures SubReport(s[m], DEV_HANDLER, calls[m].buf)[ix + 1] == s[m].netSub[ix + 1] + s[m].execSub[ix + 1]
    ensures ix !in SubReport(s[m2], DEV_HANDLER, calls[m2].buf)[0]
  {
    ReportExact(s, calls, m, ix);
    ReportExact(s, calls, m2, ix);
    forall j | -1 <= j < m2 && RaisedAt(s, calls, j, ix) ensures !NotConsumed(calls, j, m2) {
      assert j <= m;
      assert j == m ==> !Raises(s[m], calls[m], ix);
    }
  }
}
