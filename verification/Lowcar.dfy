/** A lowcar device (lowcar/devices/Device/Device.cpp): its main loop and its parameter walks. */
module Lowcar {
  import opened Basics
  import opened Payload
  import Frame

  const NOP: byte := 0
  const DEVICE_PING: byte := 1
  const MAX_SUB_INTERVAL_MS: nat := 500
  const MIN_SUB_INTERVAL_MS: nat := 40

  /** What one read_message gives. */
  datatype Inbox = Nothing | Garbled | Got(id: byte, payload: seq<byte>)

  predicate Fits(i: Inbox) { i.Got? ==> |i.payload| <= MAX_PAYLOAD_SIZE }

  /** What a device does that others can see. */
  datatype Event = Ack(payload: seq<byte>) | Enable | Reset | Actions | Data(payload: seq<byte>)

  // ------------------------------------------------------------------ one iteration as a function

  datatype Timing = Timing(enabled: bool, params: Bitmap, subInterval: nat, lastSent: int, lastPing: int)

  predicate IsPing(i: Inbox) { i.Got? && i.id == DEVICE_PING }

  /** `ms` is the interval a device keeps when `n` is asked for. */
  predicate Period(n: nat, ms: nat) { if n < 40 then ms == 40 else if n > 500 then ms == 500 else ms == n }

  function Clamp(n: nat): (r: nat)
    ensures Period(n, r)
  {
    var capped := if n < MAX_SUB_INTERVAL_MS then n else MAX_SUB_INTERVAL_MS;
    if capped > MIN_SUB_INTERVAL_MS then capped else MIN_SUB_INTERVAL_MS
  }

  predicate TimedOut(timeout: nat, now: int, lastPing: int) { timeout > 0 && now - lastPing >= timeout }

  /** The fields after the message has been handled; `buffer` is the message buffer, old bytes included. */
  function Handled(t: Timing, now: int, inbox: Inbox, buffer: seq<byte>): (r: Timing)
    requires |buffer| == MAX_PAYLOAD_SIZE
  {
    if IsPing(inbox) then t.(enabled := true, lastPing := now)
    else if inbox.Got? && inbox.id == SUBSCRIPTION_REQUEST then
      t.(params := BytesBitmap(buffer[..BITMAP_SIZE]), subInterval := Clamp(Word16(buffer[4], buffer[5])))
    else t
  }

  predicate DataDue(t: Timing, now: int) { t.subInterval > 0 && now - t.lastSent >= t.subInterval }

  function Settled(timeout: nat, h: Timing, now: int): (r: Timing)
  {
    if TimedOut(timeout, now, h.lastPing) then h.(enabled := false)
    else if h.enabled && DataDue(h, now) then h.(lastSent := now)
    else h
  }

  function Acts(timeout: nat, h: Timing, now: int, gives: Sizes, acted: Values): (r: seq<Event>)
  {
    if TimedOut(timeout, now, h.lastPing) then [Reset]
    else if !h.enabled then []
    else [Actions] + if DataDue(h, now) then [Data(ValuePayload(gives, h.params, acted))] else []
  }

  const DEVICE_ID_SIZE: nat := 10

  /** The acknowledgement is appended to the ping's own payload, and not sent if that leaves no room. */
  function Greeting(inbox: Inbox, devId: DeviceId): (r: seq<Event>)
    requires inbox.Got?
  {
    (if |inbox.payload| + DEVICE_ID_SIZE <= MAX_PAYLOAD_SIZE then [Ack(inbox.payload + devId)] else []) + [Enable]
  }

  function ZeroBuffer(): (r: seq<byte>)
    ensures |r| == MAX_PAYLOAD_SIZE && forall i :: 0 <= i < |r| ==> r[i] == 0
  {
    seq(MAX_PAYLOAD_SIZE, i => 0)
  }

  type DeviceId = d: seq<byte> | |d| == DEVICE_ID_SIZE witness [0, 0, 0, 0, 0, 0, 0, 0, 0, 0]

  /** The message buffer after an acknowledgement: cleared if it was sent, with as much of the device id as
      fits behind the payload if not. */
  function AckBuffer(buffer: seq<byte>, len: nat, devId: DeviceId): (r: seq<byte>)
    requires |buffer| == MAX_PAYLOAD_SIZE && len <= MAX_PAYLOAD_SIZE
    ensures |r| == MAX_PAYLOAD_SIZE
  {
    if len + DEVICE_ID_SIZE <= MAX_PAYLOAD_SIZE then ZeroBuffer()
    else
      var p := Frame.Append(Frame.Append(buffer[..len], devId[..1]).1, devId[1..2]).1;
      p + buffer[|p|..]
  }

  /** The message buffer after the message has been handled. */
  function LeftBy(inbox: Inbox, enabled: bool, was: seq<byte>, devId: DeviceId): (r: seq<byte>)
    requires Fits(inbox) && |was| == MAX_PAYLOAD_SIZE
    ensures |r| == MAX_PAYLOAD_SIZE
  {
    if IsPing(inbox) && !enabled then AckBuffer(Received(inbox, was), |inbox.payload|, devId) else Received(inbox, was)
  }

  /** The parameter values after the message has been handled. */
  function Wrote(inbox: Inbox, accepts: Sizes, buffer: seq<byte>, vals: Values): (r: Values)
    requires |buffer| == MAX_PAYLOAD_SIZE
  {
    if inbox.Got? && inbox.id == DEVICE_WRITE then Unpacked(accepts, BytesBitmap(buffer[..BITMAP_SIZE]), buffer, BITMAP_SIZE, 0, vals)
    else vals
  }

  predicate SendsData(timeout: nat, h: Timing, now: int) { !TimedOut(timeout, now, h.lastPing) && h.enabled && DataDue(h, now) }

  /** The fields after one iteration. */
  function Next(timeout: nat, t: Timing, now: int, inbox: Inbox, buffer: seq<byte>): (r: Timing)
    requires |buffer| == MAX_PAYLOAD_SIZE
  {
    Settled(timeout, Handled(t, now, inbox, buffer), now)
  }

  /** What an iteration does, in order. */
  function Does(timeout: nat, t: Timing, now: int, inbox: Inbox, buffer: seq<byte>, gives: Sizes, devId: DeviceId, acted: Values): (r: seq<Event>)
    requires |buffer| == MAX_PAYLOAD_SIZE
  {
    (if IsPing(inbox) && !t.enabled then Greeting(inbox, devId) else []) + Acts(timeout, Handled(t, now, inbox, buffer), now, gives, acted)
  }

  // ------------------------------------------------------------------ the device

  class Device {
    const timeout: nat
    const accepts: Sizes        // what device_write returns for each parameter
    const gives: Sizes          // what device_read returns for each parameter
    const devId: DeviceId       // type, year and unique id
    const regs: array<Word>     // the values behind device_read and device_write
    const payload: array<byte>  // curr_msg.payload
    var messageId: byte
    var payloadLength: nat
    var enabled: bool
    var params: Bitmap
    var subInterval: nat
    var lastSent: int
    var lastPing: int
    var events: seq<Event>

    ghost predicate Valid()
      reads this
    {
      regs.Length == MAX_PARAMS && payload.Length == MAX_PAYLOAD_SIZE
    }

    ghost function View(): (t: Timing) reads this { Timing(enabled, params, subInterval, lastSent, lastPing) }

    constructor (timeout: nat, accepts: Sizes, gives: Sizes, devId: DeviceId, now: int)
      ensures Valid() && fresh(regs) && fresh(payload)
      ensures this.timeout == timeout && this.accepts == accepts && this.gives == gives && this.devId == devId
      ensures View() == Timing(false, {}, 0, now, now) && events == []
    {
      this.timeout, this.accepts, this.gives, this.devId := timeout, accepts, gives, devId;
      regs, payload := new Word[MAX_PARAMS](i => ZERO_WORD), new byte[MAX_PAYLOAD_SIZE](i => 0);
      messageId, payloadLength := 0, 0;
      enabled, params, subInterval, lastSent, lastPing, events := false, {}, 0, now, now, [];
    }

    /** device_write for one parameter: takes the bytes it accepts from the payload. */
    method DeviceWrite(p: nat, at: nat) returns (n: nat)
      requires Valid() && p < MAX_PARAMS && at + 4 <= payload.Length
      modifies regs
      ensures n == accepts[p] && regs[..] == old(regs[..])[p := Patch(old(regs[p]), payload[at..at + n])]
    {
      n := accepts[p];
      regs[p] := payload[at..at + n] + regs[p][n..];
    }

    /** device_read for one parameter: puts the bytes it gives into the payload. */
    method DeviceRead(p: nat, at: nat) returns (n: nat)
      requires Valid() && p < MAX_PARAMS && at + 4 <= payload.Length
      modifies payload
      ensures n == gives[p] && payload[..at + n] == old(payload[..at]) + regs[p][..n]
    {
      n := gives[p];
      for k := 0 to n
        invariant payload[..at + k] == old(payload[..at]) + regs[p][..k]
      {
        payload[at + k] := regs[p][k];
        assert payload[..at + k + 1] == payload[..at + k] + [regs[p][k]];
      }
    }

    /** device_write_params */
    method DeviceWriteParams()
      requires Valid()
      modifies regs
      ensures messageId != DEVICE_WRITE ==> regs[..] == old(regs[..])
      ensures messageId == DEVICE_WRITE ==>
                regs[..] == Unpacked(accepts, BytesBitmap(payload[..BITMAP_SIZE]), payload[..], BITMAP_SIZE, 0, old(regs[..]))
    {
      hide Unpacked, BytesBitmap, Patch;
      if messageId != DEVICE_WRITE {
        return;
      }
      var bitmap := BytesBitmap(payload[..BITMAP_SIZE]);
      var at: nat, p: nat := BITMAP_SIZE, 0;
      ghost var buf, whole := payload[..], Unpacked(accepts, bitmap, payload[..], BITMAP_SIZE, 0, regs[..]);
      while AnyFrom(bitmap, p)
        invariant p <= MAX_PARAMS && at <= BITMAP_SIZE + 4 * p
        invariant Unpacked(accepts, bitmap, buf, at, p, regs[..]) == whole
        decreases MAX_PARAMS - p
      {
        UnpackedUnfold(accepts, bitmap, buf, at, p, regs[..]);
        if p in bitmap {
          var n := DeviceWrite(p, at);
          assert buf[at..at + n] == payload[at..at + n];
          at := at + n;
        }
        p := p + 1;
      }
      NothingTaken(accepts, bitmap, buf, at, p, regs[..]);
    }

    /** device_read_params */
    method DeviceReadParams()
      requires Valid()
      modifies this`messageId, this`payloadLength, payload
      ensures messageId == DEVICE_DATA
      ensures payloadLength <= payload.Length && payload[..payloadLength] == ValuePayload(gives, params, regs[..])
    {
      hide Packed, BitmapBytes;
      messageId := DEVICE_DATA;
      var bytes := BitmapBytes(params);
      for k := 0 to payload.Length
        invariant messageId == DEVICE_DATA
        invariant forall j :: 0 <= j < k ==> payload[j] == if j < BITMAP_SIZE then bytes[j] else 0
      {
        payload[k] := if k < BITMAP_SIZE then bytes[k] else 0;
      }
      payloadLength := BITMAP_SIZE;
      assert payload[..payloadLength] == bytes;
      var p: nat := 0;
      ghost var vals, whole := regs[..], ValuePayload(gives, params, regs[..]);
      while AnyFrom(params, p)
        invariant p <= MAX_PARAMS && payloadLength <= BITMAP_SIZE + 4 * p && messageId == DEVICE_DATA
        invariant payload[..payloadLength] + Packed(gives, params, vals, p) == whole
        decreases MAX_PARAMS - p
      {
        PackedUnfold(gives, params, vals, p);
        if p in params {
          ghost var before, rest := payload[..payloadLength], Packed(gives, params, vals, p + 1);
          var n := DeviceRead(p, payloadLength);
          payloadLength := payloadLength + n;
          assert before + (vals[p][..n] + rest) == before + vals[p][..n] + rest;
        }
        p := p + 1;
      }
      NothingLeft(gives, params, vals, p);
    }

    /** read_message stores the id, the length and the payload; the rest of the buffer keeps old bytes. */
    method Receive(inbox: Inbox)
      requires Valid() && Fits(inbox)
      modifies this`messageId, this`payloadLength, payload
      ensures payload[..] == Received(inbox, old(payload[..]))
      ensures messageId == if inbox.Got? then inbox.id else old(messageId)
      ensures payloadLength == if inbox.Got? then |inbox.payload| else old(payloadLength)
    {
      if inbox.Got? {
        messageId, payloadLength := inbox.id, |inbox.payload|;
        for k := 0 to |inbox.payload|
          invariant messageId == inbox.id && payloadLength == |inbox.payload|
          invariant forall j :: 0 <= j < payload.Length ==> payload[j] == if j < k then inbox.payload[j] else old(payload[j])
        {
          payload[k] := inbox.payload[k];
        }
      }
    }

    /** Messenger::append_payload */
    method AppendPayload(data: seq<byte>) returns (status: int)
      requires Valid() && payloadLength <= MAX_PAYLOAD_SIZE
      modifies this`payloadLength, payload
      ensures var r := Frame.Append(old(payload[..payloadLength]), data);
              && status == (if r.0 then 0 else -1) && payloadLength == |r.1| <= MAX_PAYLOAD_SIZE
              && payload[..] == r.1 + old(payload[..])[|r.1|..]
    {
      ghost var was := payload[..];
      assert was == was[..payloadLength] + was[payloadLength..];
      if payloadLength + |data| > MAX_PAYLOAD_SIZE {
        return -1;
      }
      for k := 0 to |data|
        invariant payloadLength == old(payloadLength)
        invariant forall j :: 0 <= j < payload.Length ==>
                    payload[j] == if payloadLength <= j < payloadLength + k then data[j - payloadLength] else was[j]
      {
        payload[payloadLength + k] := data[k];
      }
      payloadLength := payloadLength + |data|;
      status := 0;
    }

    /** The end of send_message: the message is cleared for the next one. */
    method Clear()
      requires Valid()
      modifies this`messageId, this`payloadLength, payload
      ensures messageId == NOP && payloadLength == 0 && payload[..] == ZeroBuffer()
    {
      messageId, payloadLength := NOP, 0;
      for k := 0 to payload.Length
        invariant messageId == NOP && payloadLength == 0
        invariant forall j :: 0 <= j < k ==> payload[j] == 0
      {
        payload[k] := 0;
      }
    }

    /** send_message of an acknowledgement, on the message that held the ping. */
    method Acknowledge()
      requires Valid() && payloadLength <= MAX_PAYLOAD_SIZE
      modifies this`messageId, this`payloadLength, this`events, payload
      ensures payload[..] == AckBuffer(old(payload[..]), old(payloadLength), devId)
      ensures events == old(events) + if old(payloadLength) + DEVICE_ID_SIZE > MAX_PAYLOAD_SIZE then []
                                      else [Ack(old(payload[..payloadLength]) + devId)]
    {
      ghost var was, len := payload[..], payloadLength;
      messageId := Frame.ACKNOWLEDGEMENT;
      var s1 := AppendPayload(devId[..1]);
      ghost var p1 := payload[..payloadLength];
      assert payload[..] == p1 + was[|p1|..];
      var s2 := AppendPayload(devId[1..2]);
      ghost var p2 := payload[..payloadLength];
      assert payload[..] == p2 + was[|p2|..];
      var s3 := AppendPayload(devId[2..]);
      if s1 + s2 + s3 != 0 {
        return;
      }
      assert payload[..payloadLength] == was[..len] + devId;
      events := events + [Ack(payload[..payloadLength])];
      Clear();
    }

    /** The first half of Device::loop: the message switch. */
    method HandleMessage(now: int, inbox: Inbox)
      requires Valid() && Fits(inbox)
      modifies this, payload, regs
      ensures View() == Handled(old(View()), now, inbox, Received(inbox, old(payload[..])))
      ensures events == old(events) + if IsPing(inbox) && !old(enabled) then Greeting(inbox, devId) else []
      ensures payload[..] == LeftBy(inbox, old(enabled), old(payload[..]), devId)
      ensures regs[..] == Wrote(inbox, accepts, Received(inbox, old(payload[..])), old(regs[..]))
    {
      hide BytesBitmap, Unpacked, AckBuffer;
      Receive(inbox);
      ghost var buffer := payload[..];
      if inbox.Got? {
        if messageId == DEVICE_PING {
          lastPing := now;
          if !enabled {
            Acknowledge();
            enabled := true;
            events := events + [Enable];
          }
        } else if messageId == SUBSCRIPTION_REQUEST {
          assert payload[..BITMAP_SIZE] == buffer[..BITMAP_SIZE];
          params := BytesBitmap(payload[..BITMAP_SIZE]);
          subInterval := Word16(payload[BITMAP_SIZE], payload[BITMAP_SIZE + 1]);
          subInterval := if subInterval < MAX_SUB_INTERVAL_MS then subInterval else MAX_SUB_INTERVAL_MS;
          subInterval := if subInterval > MIN_SUB_INTERVAL_MS then subInterval else MIN_SUB_INTERVAL_MS;
        } else if messageId == DEVICE_WRITE {
          DeviceWriteParams();
        }
      }
    }

    /** The second half: time-out, device actions, data. `hooks` is what the device's own code makes of the
        parameter values in this iteration. */
    method Proceed(now: int, hooks: Values -> Values)
      requires Valid()
      modifies this, payload, regs
      ensures regs[..] == hooks(old(regs[..]))
      ensures var h := old(View());
              && View() == Settled(timeout, h, now)
              && events == old(events) + Acts(timeout, h, now, gives, hooks(old(regs[..])))
              && payload[..] == if SendsData(timeout, h, now) then ZeroBuffer() else old(payload[..])
    {
      hide ValuePayload;
      var acted := hooks(regs[..]);
      if timeout > 0 && now - lastPing >= timeout {
        events := events + [Reset];
        enabled := false;
      }
      forall i | 0 <= i < MAX_PARAMS { regs[i] := acted[i]; }
      assert regs[..] == acted;
      if !enabled {
        return;
      }
      events := events + [Actions];
      if subInterval > 0 && now - lastSent >= subInterval {
        lastSent := now;
        DeviceReadParams();
        events := events + [Data(payload[..payloadLength])];
        Clear();
      }
    }

    /** Device::loop */
    method Loop(now: int, inbox: Inbox, hooks: Values -> Values)
      requires Valid() && Fits(inbox)
      modifies this, payload, regs
      ensures var buffer := Received(inbox, old(payload[..]));
              && View() == Next(timeout, old(View()), now, inbox, buffer)
              && regs[..] == hooks(Wrote(inbox, accepts, buffer, old(regs[..])))
              && events == old(events) + Does(timeout, old(View()), now, inbox, buffer, gives, devId, regs[..])
              && payload[..] == if SendsData(timeout, Handled(old(View()), now, inbox, buffer), now) then ZeroBuffer()
                                else LeftBy(inbox, old(enabled), old(payload[..]), devId)
    {
      hide Settled, Acts, Handled, LeftBy, Wrote, SendsData, Greeting;
      HandleMessage(now, inbox);
      Proceed(now, hooks);
    }
  }

  function Received(inbox: Inbox, was: seq<byte>): (r: seq<byte>)
    requires Fits(inbox) && |was| == MAX_PAYLOAD_SIZE
    ensures |r| == MAX_PAYLOAD_SIZE
  {
    if inbox.Got? then inbox.payload + was[|inbox.payload|..] else was
  }

  // ------------------------------------------------------------------ every run

  datatype Input = Input(now: int, inbox: Inbox, buffer: seq<byte>, acted: Values)

  predicate InputOk(i: Input) { |i.buffer| == MAX_PAYLOAD_SIZE }

  /** A run: the clock starts at `start` and never goes back. */
  ghost predicate Clocked(start: int, ins: seq<Input>)
  {
    && (forall k :: 0 <= k < |ins| ==> InputOk(ins[k]) && start <= ins[k].now)
    && (forall j, k :: 0 <= j <= k < |ins| ==> ins[j].now <= ins[k].now)
  }

  /** The fields after the first `k` iterations. */
  function After(timeout: nat, start: int, ins: seq<Input>, k: nat): (t: Timing)
    requires k <= |ins| && forall i :: 0 <= i < |ins| ==> InputOk(ins[i])
  {
    if k == 0 then Timing(false, {}, 0, start, start)
    else Next(timeout, After(timeout, start, ins, k - 1), ins[k - 1].now, ins[k - 1].inbox, ins[k - 1].buffer)
  }

  function Did(timeout: nat, start: int, ins: seq<Input>, gives: Sizes, devId: DeviceId, k: nat): (r: seq<Event>)
    requires k < |ins| && forall i :: 0 <= i < |ins| ==> InputOk(ins[i])
  {
    Does(timeout, After(timeout, start, ins, k), ins[k].now, ins[k].inbox, ins[k].buffer, gives, devId, ins[k].acted)
  }

  ghost predicate Acks(did: seq<Event>) { exists p :: Ack(p) in did }

  /** A ping that iteration `k` still counts. */
  ghost predicate Alive(timeout: nat, ins: seq<Input>, j: nat, k: nat)
  {
    j <= k < |ins| && IsPing(ins[j].inbox) && (timeout == 0 || ins[k].now - ins[j].now < timeout)
  }

  ghost predicate LastPing(ins: seq<Input>, j: nat, k: nat)
  {
    j <= k < |ins| && IsPing(ins[j].inbox) && forall i :: j < i <= k ==> !IsPing(ins[i].inbox)
  }

  lemma {:induction false} PingRemembered(timeout: nat, start: int, ins: seq<Input>, k: nat)
    requires Clocked(start, ins) && k < |ins|
    ensures forall j: nat :: LastPing(ins, j, k) ==> After(timeout, start, ins, k + 1).lastPing == ins[j].now
  {
    if k > 0 {
      PingRemembered(timeout, start, ins, k - 1);
      forall j: nat | LastPing(ins, j, k) ensures After(timeout, start, ins, k + 1).lastPing == ins[j].now {
        if j < k { assert LastPing(ins, j, k - 1); }
      }
    }
  }

  lemma {:induction false} FindLastPing(ins: seq<Input>, i: nat, k: nat) returns (j: nat)
    requires i <= k < |ins| && IsPing(ins[i].inbox)
    ensures i <= j && LastPing(ins, j, k)
  {
    if IsPing(ins[k].inbox) { j := k; } else { j := FindLastPing(ins, i, k - 1); }
  }

  /** The device is enabled after an iteration exactly when a ping within the timeout stands behind it. */
  lemma {:induction false} EnabledExact(timeout: nat, start: int, ins: seq<Input>, k: nat)
    requires Clocked(start, ins) && k < |ins|
    ensures After(timeout, start, ins, k + 1).enabled <==> exists j: nat :: Alive(timeout, ins, j, k)
  {
    PingRemembered(timeout, start, ins, k);
    if k > 0 { EnabledExact(timeout, start, ins, k - 1); }
    if After(timeout, start, ins, k + 1).enabled {
      if IsPing(ins[k].inbox) {
        assert Alive(timeout, ins, k, k);
      } else if k > 0 {
        var i: nat :| Alive(timeout, ins, i, k - 1);
        var j := FindLastPing(ins, i, k);
        assert Alive(timeout, ins, j, k);
      }
    }
    if i: nat :| Alive(timeout, ins, i, k) {
      var j := FindLastPing(ins, i, k);
      assert ins[i].now <= ins[j].now;
      if j < k { assert Alive(timeout, ins, j, k - 1); }
    }
  }

  /** device_actions runs, and data is sent, only in iterations with a ping within the timeout; actions run
      in every such iteration. */
  lemma {:induction false} ActiveOnlyWhenPinged(timeout: nat, start: int, ins: seq<Input>, gives: Sizes, devId: DeviceId, k: nat)
    requires Clocked(start, ins) && k < |ins|
    ensures Actions in Did(timeout, start, ins, gives, devId, k) <==> exists j: nat :: Alive(timeout, ins, j, k)
    ensures (exists p :: Data(p) in Did(timeout, start, ins, gives, devId, k)) ==> exists j: nat :: Alive(timeout, ins, j, k)
  {
    hide Alive, ValuePayload;
    EnabledExact(timeout, start, ins, k);
  }

  /** What the events of one iteration say about the fields around it. */
  lemma {:induction false} OneIteration(timeout: nat, start: int, ins: seq<Input>, gives: Sizes, devId: DeviceId, k: nat)
    requires Clocked(start, ins) && k < |ins|
    ensures var t, u, did := After(timeout, start, ins, k), After(timeout, start, ins, k + 1), Did(timeout, start, ins, gives, devId, k);
            && (Acks(did) ==> IsPing(ins[k].inbox) && !t.enabled)
            && (t.enabled && !u.enabled ==> Reset in did)
            && (Reset in did ==> timeout > 0)
            && (u.lastSent == t.lastSent || u.lastSent == ins[k].now)
            && (forall p :: Data(p) in did ==> u.lastSent == ins[k].now && ins[k].now - t.lastSent >= u.subInterval > 0)
  {
    hide ValuePayload, BytesBitmap, Clocked;
  }

  lemma {:induction false} FindReset(timeout: nat, start: int, ins: seq<Input>, gives: Sizes, devId: DeviceId, i: nat, k: nat) returns (m: nat)
    requires Clocked(start, ins) && i < k <= |ins|
    requires After(timeout, start, ins, i).enabled && !After(timeout, start, ins, k).enabled
    ensures i <= m < k && Reset in Did(timeout, start, ins, gives, devId, m)
    decreases k - i
  {
    hide After, Did;
    OneIteration(timeout, start, ins, gives, devId, i);
    if After(timeout, start, ins, i + 1).enabled {
      m := FindReset(timeout, start, ins, gives, devId, i + 1, k);
    } else {
      m := i;
    }
  }

  /** Between two acknowledgements there is always a time-out reset; without a timeout there is only one. */
  lemma {:induction false} ResetBetweenAcks(timeout: nat, start: int, ins: seq<Input>, gives: Sizes, devId: DeviceId, i: nat, k: nat)
    requires Clocked(start, ins) && i < k < |ins|
    requires Acks(Did(timeout, start, ins, gives, devId, i)) && Acks(Did(timeout, start, ins, gives, devId, k))
    ensures timeout > 0 && exists m: nat :: i < m < k && Reset in Did(timeout, start, ins, gives, devId, m)
  {
    hide After, Did;
    EnabledExact(timeout, start, ins, i);
    OneIteration(timeout, start, ins, gives, devId, i);
    OneIteration(timeout, start, ins, gives, devId, k);
    assert Alive(timeout, ins, i, i);
    var m := FindReset(timeout, start, ins, gives, devId, i + 1, k);
    OneIteration(timeout, start, ins, gives, devId, m);
  }

  lemma {:induction false} IntervalInRange(timeout: nat, start: int, ins: seq<Input>, k: nat)
    requires k <= |ins| && Clocked(start, ins)
    ensures var n := After(timeout, start, ins, k).subInterval; n == 0 || MIN_SUB_INTERVAL_MS <= n <= MAX_SUB_INTERVAL_MS
  {
    if k > 0 { IntervalInRange(timeout, start, ins, k - 1); }
  }

  lemma {:induction false} SentLater(timeout: nat, start: int, ins: seq<Input>, gives: Sizes, devId: DeviceId, i: nat, k: nat, p: seq<byte>)
    requires Clocked(start, ins) && i < k <= |ins| && Data(p) in Did(timeout, start, ins, gives, devId, i)
    ensures After(timeout, start, ins, k).lastSent >= ins[i].now
  {
    hide After, Did;
    OneIteration(timeout, start, ins, gives, devId, k - 1);
    if k > i + 1 { SentLater(timeout, start, ins, gives, devId, i, k - 1, p); }
  }

  /** Any two data messages are at least 40 ms apart. */
  lemma {:induction false} DataApart(
    timeout: nat, start: int, ins: seq<Input>, gives: Sizes, devId: DeviceId, i: nat, k: nat, p: seq<byte>, q: seq<byte>)
    requires Clocked(start, ins) && i < k < |ins|
    requires Data(p) in Did(timeout, start, ins, gives, devId, i) && Data(q) in Did(timeout, start, ins, gives, devId, k)
    ensures ins[k].now - ins[i].now >= 40
  {
    hide After, Did;
    SentLater(timeout, start, ins, gives, devId, i, k, p);
    OneIteration(timeout, start, ins, gives, devId, k);
    IntervalInRange(timeout, start, ins, k + 1);
  }

  // ------------------------------------------------------------------ every event of every iteration

  /** A ping that has not timed out stands behind iteration `k`. */
  ghost predicate Pinged(timeout: nat, ins: seq<Input>, k: nat) { exists j: nat :: Alive(timeout, ins, j, k) }

  /** The device was enabled when iteration `k` began. */
  ghost predicate WasPinged(timeout: nat, ins: seq<Input>, k: nat) { k > 0 && Pinged(timeout, ins, k - 1) }

  predicate IsRequest(i: Inbox) { i.Got? && i.id == SUBSCRIPTION_REQUEST }

  /** The subscription that iteration `k` works with is the one iteration `j` received. */
  ghost predicate LastRequest(ins: seq<Input>, j: nat, k: nat)
  {
    j <= k < |ins| && IsRequest(ins[j].inbox) && forall i :: j < i <= k ==> !IsRequest(ins[i].inbox)
  }

  function Asked(i: Input): (n: nat)
    requires InputOk(i)
  {
    Word16(i.buffer[4], i.buffer[5])
  }

  ghost predicate SendsIn(did: seq<Event>) { exists p :: Data(p) in did }

  /** Iteration `i` is the last one before `k` that sent data. */
  ghost predicate LastSend(timeout: nat, start: int, ins: seq<Input>, gives: Sizes, devId: DeviceId, i: nat, k: nat)
    requires k <= |ins| && forall j :: 0 <= j < |ins| ==> InputOk(ins[j])
  {
    && i < k && SendsIn(Did(timeout, start, ins, gives, devId, i))
    && forall m: nat :: i < m < k ==> !SendsIn(Did(timeout, start, ins, gives, devId, m))
  }

  ghost predicate NeverSent(timeout: nat, start: int, ins: seq<Input>, gives: Sizes, devId: DeviceId, k: nat)
    requires k <= |ins| && forall j :: 0 <= j < |ins| ==> InputOk(ins[j])
  {
    forall m: nat :: m < k ==> !SendsIn(Did(timeout, start, ins, gives, devId, m))
  }

  /** At iteration `k` at least `ms` have passed since data was last sent, or since the start. */
  ghost predicate Waited(timeout: nat, start: int, ins: seq<Input>, gives: Sizes, devId: DeviceId, k: nat, ms: nat)
    requires k < |ins| && forall j :: 0 <= j < |ins| ==> InputOk(ins[j])
  {
    && (NeverSent(timeout, start, ins, gives, devId, k) ==> ins[k].now - start >= ms)
    && (forall i: nat :: LastSend(timeout, start, ins, gives, devId, i, k) ==> ins[k].now - ins[i].now >= ms)
  }

  lemma {:induction false} StartRemembered(timeout: nat, start: int, ins: seq<Input>, k: nat)
    requires Clocked(start, ins) && k <= |ins| && forall i :: 0 <= i < k ==> !IsPing(ins[i].inbox)
    ensures After(timeout, start, ins, k).lastPing == start
  {
    hide BytesBitmap;
    if k > 0 { StartRemembered(timeout, start, ins, k - 1); }
  }

  /** The time-out fires exactly if there is one, it has passed since the start, and no ping is recent enough. */
  lemma {:induction false} TimesOutExact(timeout: nat, start: int, ins: seq<Input>, k: nat)
    requires Clocked(start, ins) && k < |ins|
    ensures TimedOut(timeout, ins[k].now, After(timeout, start, ins, k + 1).lastPing) <==>
            timeout > 0 && ins[k].now - start >= timeout && !Pinged(timeout, ins, k)
  {
    hide After;
    if i :| 0 <= i <= k && IsPing(ins[i].inbox) {
      var j := FindLastPing(ins, i, k);
      PingRemembered(timeout, start, ins, k);
      assert Alive(timeout, ins, j, k) || forall m: nat :: m <= k && IsPing(ins[m].inbox) ==> ins[m].now <= ins[j].now by {
        forall m: nat | m <= k && IsPing(ins[m].inbox) ensures m <= j {}
      }
    } else {
      StartRemembered(timeout, start, ins, k + 1);
    }
  }

  /** After the last request the device keeps its parameters and its interval. */
  lemma {:induction false} RequestRemembered(timeout: nat, start: int, ins: seq<Input>, k: nat)
    requires Clocked(start, ins) && k < |ins|
    ensures forall j: nat :: LastRequest(ins, j, k) ==>
              var t := After(timeout, start, ins, k + 1);
              t.params == BytesBitmap(ins[j].buffer[..BITMAP_SIZE]) && Period(Asked(ins[j]), t.subInterval)
    ensures (forall j: nat :: !LastRequest(ins, j, k)) ==> After(timeout, start, ins, k + 1).subInterval == 0
  {
    hide BytesBitmap;
    if k > 0 {
      RequestRemembered(timeout, start, ins, k - 1);
      if IsRequest(ins[k].inbox) {
        assert LastRequest(ins, k, k);
      } else {
        var h := k - 1;
        assert forall j: nat :: LastRequest(ins, j, k) <==> LastRequest(ins, j, h);
        if j: nat :| LastRequest(ins, j, h) { assert LastRequest(ins, j, k); }
      }
    } else {
      assert IsRequest(ins[0].inbox) ==> LastRequest(ins, 0, 0);
    }
  }

  /** The send time changes exactly when data is sent. */
  lemma {:induction false} SendStep(timeout: nat, start: int, ins: seq<Input>, gives: Sizes, devId: DeviceId, k: nat)
    requires Clocked(start, ins) && k < |ins|
    ensures After(timeout, start, ins, k + 1).lastSent ==
            if SendsIn(Did(timeout, start, ins, gives, devId, k)) then ins[k].now else After(timeout, start, ins, k).lastSent
  {
    hide ValuePayload, BytesBitmap;
    var t := After(timeout, start, ins, k);
    var h := Handled(t, ins[k].now, ins[k].inbox, ins[k].buffer);
    var did := Did(timeout, start, ins, gives, devId, k);
    if SendsData(timeout, h, ins[k].now) {
      assert did[|did| - 1].Data?;
    }
  }

  lemma {:induction false} SendRemembered(timeout: nat, start: int, ins: seq<Input>, gives: Sizes, devId: DeviceId, k: nat)
    requires Clocked(start, ins) && k <= |ins|
    ensures NeverSent(timeout, start, ins, gives, devId, k) ==> After(timeout, start, ins, k).lastSent == start
    ensures forall i: nat :: LastSend(timeout, start, ins, gives, devId, i, k) ==> After(timeout, start, ins, k).lastSent == ins[i].now
    ensures NeverSent(timeout, start, ins, gives, devId, k) || exists i: nat :: LastSend(timeout, start, ins, gives, devId, i, k)
  {
    hide Did, SendsIn, Next;
    if k > 0 {
      var h := k - 1;
      SendRemembered(timeout, start, ins, gives, devId, h);
      SendStep(timeout, start, ins, gives, devId, h);
      if SendsIn(Did(timeout, start, ins, gives, devId, h)) {
        assert LastSend(timeout, start, ins, gives, devId, h, k);
      } else {
        assert forall i: nat :: LastSend(timeout, start, ins, gives, devId, i, k) <==> LastSend(timeout, start, ins, gives, devId, i, h);
        assert NeverSent(timeout, start, ins, gives, devId, k) <==> NeverSent(timeout, start, ins, gives, devId, h);
        if i: nat :| LastSend(timeout, start, ins, gives, devId, i, h) {
          assert LastSend(timeout, start, ins, gives, devId, i, k);
        }
      }
    }
  }

  /** What an iteration does, from the fields in front of it and behind it. */
  lemma {:induction false} DidFrom(timeout: nat, start: int, ins: seq<Input>, gives: Sizes, devId: DeviceId, k: nat)
    requires Clocked(start, ins) && k < |ins|
    ensures var t, u, i := After(timeout, start, ins, k), After(timeout, start, ins, k + 1), ins[k];
            Did(timeout, start, ins, gives, devId, k) ==
              (if IsPing(i.inbox) && !t.enabled then Greeting(i.inbox, devId) else [])
              + (if TimedOut(timeout, i.now, u.lastPing) then [Reset] else [])
              + (if u.enabled then [Actions] else [])
              + (if u.enabled && u.subInterval > 0 && i.now - t.lastSent >= u.subInterval then [Data(ValuePayload(gives, u.params, i.acted))] else [])
  {
    hide ValuePayload, BytesBitmap, Clocked, Greeting;
  }

  /** Data is due exactly if a request has come and its interval has passed since the last data. */
  lemma {:induction false} DueExact(timeout: nat, start: int, ins: seq<Input>, gives: Sizes, devId: DeviceId, k: nat)
    requires Clocked(start, ins) && k < |ins|
    ensures var t, u := After(timeout, start, ins, k), After(timeout, start, ins, k + 1);
            u.subInterval > 0 && ins[k].now - t.lastSent >= u.subInterval <==>
            exists j: nat, ms: nat :: LastRequest(ins, j, k) && Period(Asked(ins[j]), ms) && Waited(timeout, start, ins, gives, devId, k, ms)
  {
    hide After, Did, SendsIn;
    var t, u := After(timeout, start, ins, k), After(timeout, start, ins, k + 1);
    RequestRemembered(timeout, start, ins, k);
    SendRemembered(timeout, start, ins, gives, devId, k);
    assert Waited(timeout, start, ins, gives, devId, k, u.subInterval) <==> ins[k].now - t.lastSent >= u.subInterval;
    if j: nat :| LastRequest(ins, j, k) {
      assert Period(Asked(ins[j]), u.subInterval);
      forall i: nat, ms: nat | LastRequest(ins, i, k) && Period(Asked(ins[i]), ms) ensures ms == u.subInterval {}
    }
  }

  /** The parameters a device sends: those of the last request. */
  ghost predicate Subscribed(ins: seq<Input>, k: nat, params: Bitmap)
  {
    forall j: nat :: LastRequest(ins, j, k) && InputOk(ins[j]) ==> params == BytesBitmap(ins[j].buffer[..BITMAP_SIZE])
  }

  /** What iteration `k` of every run does, in order, told by what came in so far: an acknowledgement with the
      device id and device_enable at a ping that finds the device disabled, a reset exactly if the time-out has
      passed without a ping, actions exactly while a ping is recent, and data exactly if a request has come
      and its interval, kept between 40 and 500 ms, has passed since data was last sent. */
  lemma {:induction false} IterationExact(timeout: nat, start: int, ins: seq<Input>, gives: Sizes, devId: DeviceId, k: nat) returns (params: Bitmap)
    requires Clocked(start, ins) && k < |ins|
    ensures Subscribed(ins, k, params)
    ensures var i := ins[k];
            var greets := IsPing(i.inbox) && !WasPinged(timeout, ins, k);
            Did(timeout, start, ins, gives, devId, k) ==
              (if greets && |i.inbox.payload| + 10 <= 132 then [Ack(i.inbox.payload + devId)] else [])
              + (if greets then [Enable] else [])
              + (if timeout > 0 && i.now - start >= timeout && !Pinged(timeout, ins, k) then [Reset] else [])
              + (if Pinged(timeout, ins, k) then [Actions] else [])
              + (if Pinged(timeout, ins, k) && exists j: nat, ms: nat :: LastRequest(ins, j, k) && Period(Asked(ins[j]), ms)
                                                                    && Waited(timeout, start, ins, gives, devId, k, ms)
                 then [Data(ValuePayload(gives, params, i.acted))] else [])
  {
    hide After, Did, Waited, LastRequest, Alive, ValuePayload, Period;
    EnabledExact(timeout, start, ins, k);
    if k > 0 { EnabledExact(timeout, start, ins, k - 1); } else { NothingYet(timeout, start, ins); }
    TimesOutExact(timeout, start, ins, k);
    DueExact(timeout, start, ins, gives, devId, k);
    DidFrom(timeout, start, ins, gives, devId, k);
    RequestRemembered(timeout, start, ins, k);
    params := After(timeout, start, ins, k + 1).params;
  }

  lemma NothingYet(timeout: nat, start: int, ins: seq<Input>)
    requires Clocked(start, ins)
    ensures !After(timeout, start, ins, 0).enabled
  {
  }
}
