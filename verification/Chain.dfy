/** Parameter values end to end: from the host's arrays over the wire into the device, and from the device
    over the wire into shared memory. */
module Chain {
  import opened Basics
  import opened Payload
  import Frame
  import Lowcar
  import ShmBlock

  /** A receive buffer that holds `payload` and, behind it, whatever it held before. */
  ghost predicate Holds(buffer: seq<byte>, payload: seq<byte>) { |buffer| == MAX_PAYLOAD_SIZE && payload <= buffer }

  /** The sizes that parameters have as typed values: four bytes for an INT or a FLOAT, one for a BOOL. */
  ghost predicate TypedSizes(d: Table, mask: Bitmap, sizes: Sizes)
  {
    forall p :: p in mask ==> sizes[p] == if d.params[p].typ == BOOL then 1 else 4
  }

  /** `now` is what storing parameter `p` of `from` makes of `was`: the whole word, or the first byte of a BOOL. */
  predicate Took(d: Table, p: nat, from: Word, was: Word, now: Word)
    requires p < MAX_PARAMS
  {
    if d.params[p].typ == BOOL then now[0] == from[0] && now[1..] == was[1..] else now == from
  }

  lemma MergedTook(d: Table, sizes: Sizes, mask: Bitmap, vals: Values, into: Values, p: nat)
    requires TypedSizes(d, mask, sizes) && p < MAX_PARAMS
    ensures var r := Merged(sizes, mask, vals, 0, into)[p]; if p in mask then Took(d, p, vals[p], into[p], r) else r == into[p]
  {
  }

  /** Unpacking a received value payload stores the values of its mask and nothing else. */
  lemma UnpackReceived(packing: Sizes, taking: Sizes, mask: Bitmap, vals: Values, buffer: seq<byte>, into: Values)
    requires Holds(buffer, ValuePayload(packing, mask, vals)) && AgreeOn(packing, taking, mask)
    ensures BytesBitmap(buffer[..BITMAP_SIZE]) == mask
    ensures Unpacked(taking, mask, buffer, BITMAP_SIZE, 0, into) == Merged(packing, mask, vals, 0, into)
  {
    hide Unpacked, Packed, Merged, BitmapBytes, BytesBitmap;
    var rest := Packed(packing, mask, vals, 0);
    PrefixParts(BitmapBytes(mask), rest, buffer, 0);
    assert buffer[0..] == buffer;
    assert buffer[..BITMAP_SIZE] == buffer[0..0 + BITMAP_SIZE] == BitmapBytes(mask);
    BitmapRoundTrip(mask);
    UnpackPacked(packing, taking, mask, vals, 0, buffer, BITMAP_SIZE, into);
  }

  // ------------------------------------------------------------------ host to device

  /** A DEVICE_WRITE gives every existing, writable, requested parameter its own value and changes nothing
      else, whatever the device's buffer held before. */
  lemma WriteDelivers(d: Table, pmap: Bitmap, packing: Sizes, vals: Values, accepts: Sizes, buffer: seq<byte>, regs: Values)
    requires Holds(buffer, ValuePayload(packing, Writable(d, pmap), vals))
    requires TypedSizes(d, Writable(d, pmap), packing) && TypedSizes(d, Writable(d, pmap), accepts)
    ensures var after := Unpacked(accepts, BytesBitmap(buffer[..BITMAP_SIZE]), buffer, BITMAP_SIZE, 0, regs);
            forall p :: 0 <= p < MAX_PARAMS ==>
              if p in pmap && p < d.numParams && d.params[p].write then Took(d, p, vals[p], regs[p], after[p]) else after[p] == regs[p]
  {
    hide Unpacked, BytesBitmap, ValuePayload, Merged, Took;
    var mask := Writable(d, pmap);
    UnpackReceived(packing, accepts, mask, vals, buffer, regs);
    forall p: nat | p < MAX_PARAMS
      ensures var r := Merged(packing, mask, vals, 0, regs)[p]; if p in mask then Took(d, p, vals[p], regs[p], r) else r == regs[p]
    {
      MergedTook(d, packing, mask, vals, regs, p);
    }
  }

  /** The same through the frame, behind any zero-free noise. */
  lemma WriteOverTheWire(
    d: Table, pmap: Bitmap, vals: Values, noise: seq<byte>, rest: seq<byte>, mem: Frame.Memory, past: byte, prev: Frame.Message)
    requires 0 !in noise
    ensures var m := Frame.Message(DEVICE_WRITE, ValuePayload(TableSizes(d), Writable(d, pmap), vals));
            Frame.DeviceReceive(noise + Frame.FrameOf(m) + rest, mem, past, prev) == Frame.DeviceReceipt(Frame.SUCCESS, m, rest)
  {
    hide ValuePayload;
    var m := Frame.Message(DEVICE_WRITE, ValuePayload(TableSizes(d), Writable(d, pmap), vals));
    Frame.DeviceReceiveFrame(noise, m, rest, mem, past, prev);
  }

  /** The whole path in one piece: what the host builds and frames arrives behind noise on the device's serial
      port, and one iteration of the device's loop stores it. `delivered` is what the device's own code then
      finds in its parameters. */
  method WriteThrough(d: Table, pmap: Bitmap, vals: Values, device: Lowcar.Device, now: int, hooks: Values -> Values,
                      noise: seq<byte>, mem: Frame.Memory, past: byte, prev: Frame.Message)
    returns (ghost delivered: Values)
    requires device.Valid() && 0 !in noise && TypedSizes(d, Writable(d, pmap), device.accepts)
    modifies device, device.payload, device.regs
    ensures device.regs[..] == hooks(delivered)
    ensures forall p :: 0 <= p < MAX_PARAMS ==>
              if p in pmap && p < d.numParams && d.params[p].write
              then Took(d, p, vals[p], old(device.regs[p]), delivered[p])
              else delivered[p] == old(device.regs[p])
  {
    hide ValuePayload, Unpacked, BytesBitmap, Lowcar.Next, Lowcar.Does, Lowcar.LeftBy;
    var msg := MakeDeviceWrite(d, pmap, vals);
    var wire := new byte[Frame.MaxCobsMsgLength(msg.payloadLength)];
    var sent := Frame.Message(msg.id, msg.payload[..]);
    var n := Frame.MessageToBytes(sent, wire, wire.Length);
    ghost var m := Frame.Message(DEVICE_WRITE, ValuePayload(TableSizes(d), Writable(d, pmap), vals));
    assert sent == m;
    WriteOverTheWire(d, pmap, vals, noise, [], mem, past, prev);
    assert noise + Frame.FrameOf(m) + [] == noise + wire[..n];
    var status, got, rest := Frame.DeviceReadMessage(noise + wire[..n], mem, past, prev);
    var inbox := Lowcar.Got(got.id, got.payload);
    ghost var buffer, regs := Lowcar.Received(inbox, device.payload[..]), device.regs[..];
    device.Loop(now, inbox, hooks);
    delivered := Lowcar.Wrote(inbox, device.accepts, buffer, regs);
    WriteDelivers(d, pmap, TableSizes(d), vals, device.accepts, buffer, regs);
  }

  // ------------------------------------------------------------------ device to shared memory

  /** The device's subscription after a request is the existing, readable, requested parameters. */
  lemma SubscriptionArrives(d: Table, pmap: Bitmap, interval: nat, buffer: seq<byte>)
    requires interval < 65536 && Holds(buffer, BitmapBytes(Readable(d, pmap)) + Bytes16(interval))
    ensures BytesBitmap(buffer[..BITMAP_SIZE]) == Readable(d, pmap)
    ensures Word16(buffer[4], buffer[5]) == interval
  {
    hide BitmapBytes, BytesBitmap;
    PrefixParts(BitmapBytes(Readable(d, pmap)), Bytes16(interval), buffer, 0);
    assert buffer[0..] == buffer;
    assert buffer[..BITMAP_SIZE] == buffer[0..0 + BITMAP_SIZE];
    assert buffer[4..][..2] == Bytes16(interval);
    assert buffer[4] == buffer[4..][..2][0] && buffer[5] == buffer[4..][..2][1];
    BitmapRoundTrip(Readable(d, pmap));
  }

  /** What receiver does with a DEVICE_DATA message. `vals` is its own array, old values included. */
  function DataStored(d: Table, buffer: seq<byte>, vals: Values, b: ShmBlock.Shared, ix: nat): (r: ShmBlock.Shared)
    requires |buffer| == MAX_PAYLOAD_SIZE && ix < MAX_DEVICES
  {
    var mask := BytesBitmap(buffer[..BITMAP_SIZE]);
    ShmBlock.AfterWrite(b, ix, ShmBlock.DEV_HANDLER, ShmBlock.DATA, mask, Unpacked(TableSizes(d), mask, buffer, BITMAP_SIZE, 0, vals))
  }

  /** Shared memory ends up with the device's values on exactly the existing, readable, requested
      parameters and unchanged everywhere else. */
  lemma DataDelivers(d: Table, pmap: Bitmap, gives: Sizes, regs: Values, buffer: seq<byte>, vals: Values, b: ShmBlock.Shared, ix: nat)
    requires ix < MAX_DEVICES && Holds(buffer, ValuePayload(gives, Readable(d, pmap), regs))
    requires TypedSizes(d, Readable(d, pmap), gives)
    ensures var after := DataStored(d, buffer, vals, b, ix);
            && after == ShmBlock.WithRow(b, ShmBlock.DATA, ix, after.data[ix])
            && forall p :: 0 <= p < MAX_PARAMS ==>
                 if p in pmap && p < d.numParams && d.params[p].read
                 then Took(d, p, regs[p], vals[p], after.data[ix][p])
                 else after.data[ix][p] == b.data[ix][p]
  {
    hide Unpacked, BytesBitmap, ValuePayload, Merged, Took;
    var mask := Readable(d, pmap);
    UnpackReceived(gives, TableSizes(d), mask, regs, buffer, vals);
    forall p: nat | p < MAX_PARAMS
      ensures p in mask ==> Took(d, p, regs[p], vals[p], Merged(gives, mask, regs, 0, vals)[p])
    {
      MergedTook(d, gives, mask, regs, vals, p);
    }
  }

  /** The whole path: a subscription request reaches the device in one iteration of its loop, and once its
      interval has passed another iteration sends data, which receiver stores in shared memory. */
  method DataThrough(d: Table, pmap: Bitmap, interval: nat, device: Lowcar.Device, block: ShmBlock.DeviceBlock, ix: nat,
                     now: int, later: int, ghost ms: nat, hooks: Values -> Values, received: seq<byte>, vals: array<Word>,
                     pace: nat -> nat, serialWrite: nat -> nat, mem: Frame.Memory, past: byte, prev: Frame.Message)
    requires interval < 0x10000 && ix < MAX_DEVICES && |received| == MAX_PAYLOAD_SIZE && vals.Length == MAX_PARAMS
    requires device.Valid() && TypedSizes(d, Readable(d, pmap), device.gives)
    requires device.enabled && device.lastSent <= now && Lowcar.Period(interval, ms) && now + ms <= later
    requires !Lowcar.TimedOut(device.timeout, later, device.lastPing)
    requires block.Valid() && ix in block.catalog
    requires {device, device.payload, device.regs, vals} !! block.Repr && vals != device.regs
    modifies device, device.payload, device.regs, vals, block.cmdMap, block.data, block.command
    ensures block.Valid() && device.params == Readable(d, pmap) && device.subInterval == ms
    ensures device.regs[..] == hooks(hooks(old(device.regs[..])))
    ensures block.View() == ShmBlock.WithRow(old(block.View()), ShmBlock.DATA, ix, block.data[ix])
    ensures forall p :: 0 <= p < MAX_PARAMS ==>
              if p in pmap && p < d.numParams && d.params[p].read
              then Took(d, p, device.regs[p], old(vals[p]), block.data[ix][p])
              else block.data[ix][p] == old(block.data[ix][p])
  {
    hide ValuePayload, Unpacked, BytesBitmap, BitmapBytes;
    Subscribe(d, pmap, interval, device, now, hooks, mem, past, prev);
    var payload := SendsDue(device, later, hooks);
    var buffer := SendData(device.devId, payload, received, pace, serialWrite, mem, past, prev);
    ParseDeviceData(d, buffer, vals);
    ghost var b := block.View();
    var ret := block.DeviceWrite(ix, ShmBlock.DEV_HANDLER, ShmBlock.DATA, BytesBitmap(buffer[..BITMAP_SIZE]), vals[..]);
    DataDelivers(d, pmap, device.gives, device.regs[..], buffer, old(vals[..]), b, ix);
  }

  /** A subscription request from make_subscription_request through one iteration of the device's loop. */
  method Subscribe(d: Table, pmap: Bitmap, interval: nat, device: Lowcar.Device, now: int, hooks: Values -> Values,
                   mem: Frame.Memory, past: byte, prev: Frame.Message)
    requires interval < 0x10000 && device.Valid() && device.enabled && device.lastSent <= now
    requires !Lowcar.TimedOut(device.timeout, now, device.lastPing)
    modifies device, device.payload, device.regs
    ensures device.params == Readable(d, pmap) && Lowcar.Period(interval, device.subInterval)
    ensures device.regs[..] == hooks(old(device.regs[..]))
    ensures device.enabled && device.lastSent <= now && device.lastPing == old(device.lastPing)
  {
    hide BytesBitmap, BitmapBytes, Lowcar.Does, Lowcar.LeftBy;
    var msg := MakeSubscriptionRequest(d, pmap, interval);
    var wire := new byte[Frame.MaxCobsMsgLength(msg.payloadLength)];
    var sent := Frame.Message(msg.id, msg.payload[..]);
    var n := Frame.MessageToBytes(sent, wire, wire.Length);
    Frame.DeviceReceiveFrame([], sent, [], mem, past, prev);
    assert [] + Frame.FrameOf(sent) + [] == wire[..n];
    var status, got, rest := Frame.DeviceReadMessage(wire[..n], mem, past, prev);
    ghost var buffer := Lowcar.Received(Lowcar.Got(got.id, got.payload), device.payload[..]);
    device.Loop(now, Lowcar.Got(got.id, got.payload), hooks);
    SubscriptionArrives(d, pmap, interval, buffer);
  }

  /** An iteration in which data is due: what it sends. */
  method SendsDue(device: Lowcar.Device, now: int, hooks: Values -> Values) returns (payload: seq<byte>)
    requires device.Valid() && device.enabled && Lowcar.DataDue(device.View(), now)
    requires !Lowcar.TimedOut(device.timeout, now, device.lastPing)
    modifies device, device.payload, device.regs
    ensures device.params == old(device.params) && device.subInterval == old(device.subInterval)
    ensures device.regs[..] == hooks(old(device.regs[..]))
    ensures payload == ValuePayload(device.gives, device.params, device.regs[..])
  {
    hide ValuePayload;
    device.Loop(now, Lowcar.Nothing, hooks);
    payload := device.events[|device.events| - 1].payload;
  }

  /** A DEVICE_DATA payload from the device to the receiver's buffer `was`. */
  method SendData(devId: Lowcar.DeviceId, payload: seq<byte>, was: seq<byte>, pace: nat -> nat, serialWrite: nat -> nat,
                  mem: Frame.Memory, past: byte, prev: Frame.Message)
    returns (buffer: seq<byte>)
    requires |payload| <= MAX_PAYLOAD_SIZE && |was| == MAX_PAYLOAD_SIZE
    ensures Holds(buffer, payload)
  {
    var status, sent := Frame.DeviceSendMessage(DEVICE_DATA, payload, devId, serialWrite);
    ghost var m := Frame.Message(DEVICE_DATA, payload);
    var c := new Frame.NetStream.Channel(sent, pace);
    Frame.ReceiveFrame([], m, [], mem, prev);
    assert [] + Frame.FrameOf(m) + [] == sent;
    var ret, got := Frame.ReceiveMessage(c, true, prev, mem, past);
    assert got == m;
    buffer := got.payload + was[|got.payload|..];
  }
}
